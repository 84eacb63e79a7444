# Verification of the WFX engine

WFX is a C++ web framework: an epoll server with a template compiler, a route trie, request limiters,
pooled outbound connections, an HTTP/1.1 parser and response builder, a middleware chain and a JSON
writer. This project models the stateful parts of that engine in Dafny and proves what they promise over
all inputs and all runs. Code that updates state step by step is a class or a method with the same loops,
branches and constants, proved against a specification function; what the engine promises is then proved
about that function, or about an independent reader of what the method produced.

`dafny verify dfyconfig.toml` checks everything.

## The parts

* **Template compiler** (`Template*.dfy`). The abstract syntax is `TemplateIR.Tree` (text, printed value,
  `if`/`elif`/`else`, `for`). `TemplateTranspiler.Transpiler` holds the compiler's fields: the interned
  pools, the op list, the stack of patch lists, and the scanner's window on the file. Four steps lead from
  file to bytes. The chunked scanner emits exactly the ops that one pass over the whole file emits, or
  refuses. The linked ops equal `TemplateCode.Generate`, code laid out with final addresses. The emitted
  switch (`TemplateMachine.StepOf`) runs that code exactly as `TemplateMachine.Interp` interprets the tree,
  which sets and erases loop variables. The stream generator hands those bytes out in buffers of any
  positive sizes. `TemplateRender.Respond` runs the whole pipeline: it compiles a file in chunks, links the
  ops and streams them. `TemplateGrammar` and `TemplateLaws` say what expressions, branches and loops come
  to without naming the parser's tables or the interpreter.
* **Limiters** (`LimiterSpec`, `LimiterRuns`, `LimiterBound`, `LimiterWindow`, `RequestRateLimiter`,
  `CoreEngineLimits`). A
  doubly linked list threaded through a node pool, refining a sequence kept in order of last use; bounds
  on admitted requests; and the engine's books of which client holds which count.
* **Route trie** (`RouteSpec`, `RoutePath`, `RouteTable`, `RouteNodes`, `RouteOrder`, `RouteAnswer`,
  `RouteTrie`). Mutating insertion and the backtracking matcher, against a flat table of places tried in
  order; which of several declarations of a route answers; and matching read as splitting a path at its
  slashes.
* **Outbound slots** (`EndpointPool`, `EndpointCoalescing`, `EndpointDialing`). Leases, reservation
  handles, coalesced requests and reconnection, one atomic method per handler.
* **Responses** (`ResponseSpec`, `HttpResponse`, `ResponseText`, `ChunkedCoding`, `ChunkedSending`,
  `ChunkedStreaming`). The phase machine against a reader that splits at the first blank line, what a
  client finds in the lines, and both chunked senders against a decoder for section 7.1 of RFC 9112.
* **Request parser** (`ParserSpec`, `HttpParser`, `RequestText`). The resumable, in-place parser against a
  parse of the whole text, and that parse against requests as they are written.
* **Middleware** (`Middleware`). The suspendable chain against the synchronous one, and that one against a
  rule that says which positions run.
* **JSON writer** (`JsonSpec`, `JsonGrammar`, `JsonWriter`, `JsonBalance`). The two-bitmask writer against
  the grammar of RFC 8259 and a reader for it, and a bracket scanner for arbitrary calls.
* `Helpers` holds what several of these need.

## What turned out to be conditional

* `endfor` evaluates the iterated expression again, so a loop that rebinds a root of its own iterated
  expression, itself or in an inner loop, does not mean what the tree says. `Runnable` asks that no loop do
  so. Both halves are needed: a loop that prints its variable is compiled faithfully if and only if the
  iterated path is not rooted in that variable (`PrintLoopFaithful`), and a loop around another one if and
  only if it is not rooted in the inner one's variable (`NestedLoopFaithful`). `SelfLoopStopsEarly` and
  `NestedStopsEarly` give inputs on which the loop stops after one of two items.
* The emitted `default` case answers with the state the ending call had reached, not with the number of
  ops, and when that call also returned bytes the generator is asked again from there. It then ends
  again in silence, or comes to an `endfor` whose counter has been erased and whose array is not empty,
  which reads state 0 and item 0 and starts the template over. `Reread` says which, and what is said then,
  on the tree alone: it follows the state through the interpretation (`StateAfter`) and reads on from there
  (`ReadOn`). Asked again a runnable template says exactly that (`EndMetAgain`; in bytes, `QuietAgainIff`).
  `Respond` returns exactly the template's bytes for all buffer sizes if and only if the template says
  nothing or `Reread` says nothing (`EndsForGood`); otherwise, when the first buffer has room to spare, what
  `Reread` says follows. A template without a loop behind its last output always ends for good
  (`PlainEndsForGood`). One that ends in a loop whose body ends in output does so if and only if the loop
  had no items, the template says nothing, or it says nothing on the context it left behind with the loop
  variable set to the first item (`TrailingLoopEndsForGood`).
* The chunked scanner keeps at most the unfinished tag of one earlier chunk. It agrees with one pass over
  the whole file exactly when every tag ends in the chunk it begins in or in the one behind it
  (`TagsWithinTwoChunks`). A chunk size at least the longest tag is enough (`ShortTagsFit`). A file whose
  last character is a lone `{` is refused with any chunk size, and with one pass.
* From a bucket's creation at most burst + floor(rate * t / 1000) requests pass, t in whole milliseconds
  (`SinceCreation`). Over a window that begins later, burst + rate * T / 1000 does not hold: with a burst
  and a rate of one, two requests pass within a millisecond (`PlainBoundFails`). It holds for every run from
  a time on if and only if the bucket at that time fits: drawing it while less than a token has accrued, and
  again at a later refill, stays within the bound (`WindowExact`). Where time times rate does not wrap, that
  is so if and only if a whole token has accrued by then, or the tokens held and the time since the last
  refill come to no more than the burst and the least surplus of a refill to come (`WindowBudget`), which is
  nothing while the rate is at most the burst (`NoSurplus`). One token of slack is enough for every window of
  a whole number of milliseconds, however fine the clock (`WholeWindowBound`), and for any other window
  rounded up to one (`WindowBound`). Without the rounding it is not: four requests can pass within a
  nanosecond under a burst of two (`TokenOfSlackFails`).
* Declaring a route again does not always land on the same node, as a comment in router.cpp:42 has it. Each
  parameter in a route or in a group's prefix makes a place of its own, and a pattern is answered by the
  handler declared last at the place where the pattern was declared first (`Lookup`). Of one route declared
  twice the second handler answers if and only if the route has no parameter (`DeclaredTwice`).
* A reservation handle holds 16 bits of generation, of which 65535 values are in use. A handle names its
  own reservation as long as its slot is leased fewer than 65535 more times; at every multiple it is
  confused with another lease, and never in between (`HandleNamesReservation`).
* When the index refuses a new identity, the slot taken for it is lost: what the limiter can track shrinks
  by one at each such call and never otherwise (`RunCapacity`).
* A generator's stop that carries bytes is remembered if and only if the socket takes its whole chunk in
  that call (`ResumeStream`). Otherwise the generator is asked again after its stop, and what it says then
  is sent (`ForgottenStop`). When stops carry no bytes a decoder recovers exactly what was said up to the
  first stop, for every sequence of results and every socket; and when the socket comes to take bytes, the
  generator stops and the turns suffice, the stream has ended there (`Stream`).

## Model

| member | source | states |
|---|---|---|
| TemplateExpr.ParseInvertsPrint | engine/template_transpiler.cpp:294-455 | Shunting-yard undoes printing: for every expression tree and every spelling of it, with the parentheses it needs and any put around subexpressions besides, the tokens are accepted and leave exactly the post-order program |
| TemplateGrammar.ParsesGrammar | engine/template_transpiler.cpp:294-455 | Whatever a grammar with one production for each level of binding derives (or, then and, then `==` and `!=`, then the four comparisons, all grouping left, then not, then constants, paths and parentheses) is accepted, with the reverse Polish form derived with it |
| TemplateGrammar.GrammarSpells | engine/template_transpiler.cpp:294-455 | The spellings of trees, with their post-orders, are exactly what that grammar derives |
| TemplateGrammar.BinaryMeans | engine/template_transpiler.cpp:294-455 | `a op b`, parsed and run, applies that operator to the value of `a` and the value of `b`, in this order |
| TemplateGrammar.NotMeans | engine/template_transpiler.cpp:294-455 | `!a`, parsed and run, negates the value of `a` |
| TemplateGrammar.AttributeMeans | engine/template_transpiler.cpp:294-455 | `a.b`, parsed and run, loads the field `b` of the object at `a`, and nothing when there is no such object or field |
| TemplateValues.RpnEvaluatesTree | engine/template_transpiler.cpp:294-416 | Running the post-order program on one stack gives the value of the tree, in every context and for every meaning of the operators |
| TemplateValues.EvalReadsRoots | engine/template_transpiler.cpp:294-416 | The value of an expression depends only on the variables at the roots of its paths |
| TemplatePools.InternNameCorrect | engine/template_transpiler.cpp:14-24 | Interning a name returns an index at which the pool holds it, moves no earlier name and keeps the map and the pool inverse |
| TemplatePools.InternSymCorrect | engine/template_transpiler.cpp:14-36 | Packing an instruction's name or constant into a pool index decodes back to the instruction |
| TemplatePools.ParseIntoCorrect | engine/template_transpiler.cpp:294-416 | The returned index denotes the parsed program for every hash function, colliding or not, and no earlier index changes its meaning |
| TemplatePools.ParseIntoPrinted | engine/template_transpiler.cpp:294-416 | A printed expression always parses and its index denotes its post-order program |
| TemplateIR.ProcessLinked | engine/template_transpiler.cpp:38-290 | One tag, seen through the pools, has the effect of the address-level rules: later interning never changes an op already emitted |
| TemplateIR.FeedLinked | engine/template_transpiler.cpp:38-290 | The same for any sequence of literals and tags, well nested or not, including where it fails |
| TemplateCode.CloseBranchSettles | engine/template_transpiler.cpp:75-175 | Ending a branch aims its condition past the jump that is emitted there and parks that jump for `endif` |
| TemplateCode.CloseIfSettles | engine/template_transpiler.cpp:176-203 | `endif` aims every parked jump, and a last condition still open, at the marker it emits |
| TemplateCode.FeedTree | engine/template_transpiler.cpp:38-290 | Feeding a tree's tags, at any address and under any open frames, appends exactly its generated code and leaves the frames as they were |
| TemplateCode.GeneratedClosed | engine/template_transpiler.cpp:812-818 | No op of the code of a well-nested tree is left unpatched |
| TemplateCode.CompilesToGenerated | engine/template_transpiler.cpp:645-822 | Compiling a tree's tags succeeds with an empty patch stack, no open op, every index in range, and links to the generated code |
| TemplateMachine.LoopKeyInjective | engine/template_transpiler.cpp:985-1015 | The hidden counter names are reserved and differ for loops that end at different ops |
| TemplateMachine.PackUnpack | engine/template_transpiler.cpp:989-1025 | The packed counter gives back its entry state and its index below 2^32 |
| TemplateMachine.RunAdd | engine/template_transpiler.cpp:896-1061 | Running m then n steps is running m + n steps, chunks in order |
| TemplateMachine.InterpWrites | engine/template_transpiler.cpp:973-1036 | Interpreting a tree touches no variable but its own loop variables |
| TemplateSimulation.EnterLoopVisible | engine/template_transpiler.cpp:973-1001 | Entering a loop binds the first element, records entry state and index 1, and disturbs no other loop's counter |
| TemplateSimulation.NextRoundVisible | engine/template_transpiler.cpp:1003-1036 | `endfor` binds the next element and returns to the body while one is left, and otherwise erases variable and counter and falls through |
| TemplateSimulation.SimRounds | engine/template_transpiler.cpp:973-1036 | From the k-th round of a loop the machine reaches its end with the chunks and the context of the remaining rounds |
| TemplateSimulation.CodeFollowsTree | engine/template_transpiler.cpp:896-1061 | The emitted machine, run on a tree's code, reaches its end with exactly the interpreter's chunks and visible context, and with the state that following the interpretation gives |
| TemplateCorrect.CompilationPreservesMeaning | engine/template_transpiler.cpp:645-1061 | A file that spells a runnable tree compiles, and the machine run on the result to its first end yields exactly the interpreter's chunk sequence and context |
| TemplateLaws.OneBranchPrints | engine/template_transpiler.cpp:38-203 | The tags of an `if` with an `elif` and an `else` compile to code that prints the branch of the first condition that holds, or the last one when none does |
| TemplateLaws.ItemsPrint | engine/template_transpiler.cpp:205-290 | The tags of a loop that prints its variable compile to code that prints the items of the array, every one and in order, and nothing for anything but an array |
| TemplateLaws.VarPrints | engine/template_transpiler.cpp:203-214 | The tag that prints a name compiles to code whose output is the spelling of the value found there, and empty when there is none |
| TemplateSimulation.EndUnique | engine/template_transpiler.cpp:1060-1061 | The first end a run reaches is unique, with its chunks |
| TemplateCorrect.SelfLoopStopsEarly | engine/template_transpiler.cpp:1003-1036 | A loop over a path rooted in its own variable, given two elements, prints one and ends |
| TemplateCorrect.PrintLoopFaithful | engine/template_transpiler.cpp:973-1036 | A loop printing its variable means what the tree says in every context if and only if the iterated path is not rooted in that variable |
| TemplateCorrect.NestedStopsEarly | engine/template_transpiler.cpp:1003-1036 | A loop around one whose variable is the root of the outer array, given two elements, prints one and ends |
| TemplateCorrect.NestedLoopFaithful | engine/template_transpiler.cpp:973-1036 | A loop around another one means what the tree says in every context if and only if the iterated path is not rooted in the inner variable |
| TemplateScan.FindPair | engine/template_transpiler.cpp:748-792 | The first place two characters stand side by side at or behind a position, or the length when there is none |
| TemplateScan.PiecesTile | engine/template_transpiler.cpp:645-822 | Literal spans and tags of a whole-file scan tile the file with no gap and no overlap |
| TemplateScan.DividesIff | engine/template_transpiler.cpp:645-822 | A file divides in at most one way into spans in which no tag opens and tags that end at the first closing pair in them, a span ending where a tag opens or at the end of the file but not in a lone opening brace; and that way is the one read |
| TemplateScan.ShortTagsFit | engine/template_transpiler.cpp:689-748 | A chunk size at least the longest tag makes every tag end within two chunks |
| TemplateTranspiler.Transpiler.GetVarNameId | engine/template_transpiler.cpp:14-24 | The name map and pool after the call, and the returned id, are those of interning the name |
| TemplateTranspiler.Transpiler.GetConstId | engine/template_transpiler.cpp:26-36 | The constant map and pool after the call, and the returned id, are those of interning the constant |
| TemplateTranspiler.Transpiler.AddToPool | engine/template_transpiler.cpp:397-415 | A program already pooled under its hash is found by comparing contents; otherwise it is appended and recorded under that hash |
| TemplateTranspiler.Transpiler.ParseExpr | engine/template_transpiler.cpp:294-455 | The operator-stack loop accepts and refuses as the specification does and leaves the same pools and index; tokens the grammar derives are accepted, and the index holds the reverse Polish form derived with them |
| TemplateTranspiler.Transpiler.ProcessIf | engine/template_transpiler.cpp:56-74 | Emits an open condition and opens a frame holding it, or fails with the expression |
| TemplateTranspiler.Transpiler.ProcessElif | engine/template_transpiler.cpp:75-128 | Ends the running branch with a jump, aims its condition, and emits the next open condition with its marker |
| TemplateTranspiler.Transpiler.ProcessElse | engine/template_transpiler.cpp:129-175 | Ends the running branch with a jump, aims its condition and emits the else marker |
| TemplateTranspiler.Transpiler.ProcessVar | engine/template_transpiler.cpp:204-216 | Emits a printed value, or fails with the expression |
| TemplateTranspiler.Transpiler.ProcessFor | engine/template_transpiler.cpp:217-253 | Checks the loop header, interns variable and expression, emits an open loop and opens its frame |
| TemplateTranspiler.Transpiler.ProcessEndFor | engine/template_transpiler.cpp:254-280 | Aims the loop at the end op it emits with the same payload, or fails when no frame is open |
| TemplateTranspiler.Transpiler.ProcessTagIR | engine/template_transpiler.cpp:38-290 | Any tag in any state gives the verdict and state of the specification, leaving the scanner alone |
| TemplateTranspiler.Transpiler.ScanChunk | engine/template_transpiler.cpp:746-801 | The read loop over one chunk keeps the promise that finishing the whole-file scan from here gives the whole-file result, or that result is a failure |
| TemplateTranspiler.Transpiler.ResumeTag | engine/template_transpiler.cpp:698-748 | Completing the carried tag keeps that promise; it refuses only where a tag spans more than two chunks or the whole-file scan fails |
| TemplateTranspiler.NoEndInTwoChunks | engine/template_transpiler.cpp:724-733 | When the chunk behind a carried tag does not end it, the file fails in one pass too or holds a tag longer than two chunks |
| TemplateTranspiler.Transpiler.FinishCompile | engine/template_transpiler.cpp:804-822 | At the end of the file the compiler accepts exactly when no frame is open and no op is unpatched |
| TemplateTranspiler.Transpiler.GenerateIRFromTemplate | engine/template_transpiler.cpp:645-822 | For every file and chunk size, compilation succeeds if and only if the whole-file scan does and every tag ends within two chunks, and then leaves the same ops and pools as one whole-file read |
| TemplateTranspiler.Transpiler.GenerateCases | engine/template_transpiler.cpp:896-1061 | One case per op, in order, with names and expressions resolved in the pools |
| TemplateRerun.GeneratedTargeted | engine/template_transpiler.cpp:254-280 | Every loop of generated code ends at the op its counter is named after, behind its beginning |
| TemplateRerun.RunSpent | engine/template_transpiler.cpp:896-1061 | Behind the state an ending run answers with, the code neither produces nor jumps, and no loop that ends there has its counter left |
| TemplateRerun.Rerun | engine/template_transpiler.cpp:896-1061 | Entered anywhere within a tree, such code silently comes to the end of the tree or to a loop end that starts the template over, and on which context, as reading on from that place says |
| TemplateRerun.EndsOrRestarts | engine/template_transpiler.cpp:1060-1061 | Asked again after its end, every runnable template ends again in silence or silently comes to a loop end that starts it over: which, and on what context, a function of tree and interpreter tells |
| TemplateRerun.StartedOver | engine/template_transpiler.cpp:1011-1027 | Started over there, it says what reading it says on the context with the loop variable set to the first item |
| TemplateRerun.EndMetAgain | engine/template_transpiler.cpp:1060-1061 | For every runnable template and every chunk sequence: asked again after its end the template can say that sequence and end if and only if it is the one `Reread` computes from the tree |
| TemplateRerun.EndsAgain | engine/template_transpiler.cpp:1060-1061 | Code without a loop behind its last output ends again in silence, in the same place |
| TemplateRerun.TrailingLoopRestarts | engine/template_transpiler.cpp:1060-1061 | Whatever stands before it, a loop at the end of a template whose body ends in output starts the template over if and only if it had items |
| TemplateStream.QuietAgainIff | http/response/http_response.cpp:757-812 | What asking again returns has no bytes if and only if what the tree-level rereading says has none |
| TemplateStream.TemplateGenerator.DrainCarry | http/response/http_response.cpp:583-595 | Appends the next bytes of the serialized value to the buffer, as many as fit, and says whether that was all |
| TemplateStream.TemplateGenerator.DrainFile | http/response/http_response.cpp:597-611 | Appends the next bytes of the file span however short the reads come, and tells failure, end of span and full buffer apart |
| TemplateStream.TemplateGenerator.GetState | http/response/http_response.cpp:757-773 | Steps the machine to its next chunk, or to its end exactly when no chunk is left |
| TemplateStream.TemplateGenerator.NewChunks | http/response/http_response.cpp:757-812 | Fills the buffer from new chunks: nothing lost, nothing twice, up to the end of the template, behind which what is due is what asking again brings |
| TemplateStream.TemplateGenerator.Next | http/response/http_response.cpp:716-812 | What was due before a call is what it returned followed by what is due after it, or all of it was returned and the end was met; it stops only with nothing due or on a failed read, and otherwise makes progress |
| TemplateStream.Pump | http/response/http_response.cpp:716-812 | For every sequence of positive buffer sizes the returned bytes concatenate to the chunks' contents, and more calls than bytes always finish, if nothing is said behind the end; if something is, a first buffer with room to spare makes the stream go on with exactly that |
| TemplateRender.EndsForGoodIff | engine/template_transpiler.cpp:1060-1061 | The tree-level condition holds if and only if the compiled code, run to its end, has said nothing or says nothing when asked again |
| TemplateRender.Respond | http/response/http_response.cpp:655-819 | From template file to wire: compiling a runnable tree's file succeeds exactly when every tag ends within two chunks, and streaming the result yields exactly the bytes of the interpreter's chunks for all buffer sizes if and only if the tree says nothing or rereading it says nothing; otherwise the bytes of rereading it follow |
| TemplateRender.PlainEndsForGood | http/response/http_response.cpp:757-812 | A template whose last op that produces has no loop behind it ends for good: one ending in a literal, a printed value or a conditional |
| TemplateRender.TrailingLoopEndsForGood | engine/template_transpiler.cpp:1060-1061 | A template ending in a loop whose body ends in output ends for good if and only if the loop has no items, it says nothing, or it says nothing on the context left behind with the first item |
| RequestRateLimiters.UnhookThreads | http/limits/request_rate_limiter.cpp:19-35 | The four pointer writes of unlinking leave head, tail and links threading the order without that slot |
| RequestRateLimiters.HookThreads | http/limits/request_rate_limiter.cpp:37-50 | The pointer writes of linking in front leave head, tail and links threading the order with that slot first |
| RequestRateLimiters.RequestRateLimiter.Unlink | http/limits/request_rate_limiter.cpp:19-35 | Removes exactly that slot from the threaded order, clears its links and changes no entry |
| RequestRateLimiters.RequestRateLimiter.LinkFront | http/limits/request_rate_limiter.cpp:37-50 | Puts exactly that slot in front of the threaded order and changes no entry |
| RequestRateLimiters.RequestRateLimiter.Touch | http/limits/request_rate_limiter.cpp:52-59 | Moves the slot to the front of the order, also when it is there already |
| RequestRateLimiters.RequestRateLimiter.FindVictim | http/limits/request_rate_limiter.cpp:80-85 | The walk from the tail finds the least recently used entry with no holder, or none exactly when all are held |
| RequestRateLimiters.RequestRateLimiter.Evict | http/limits/request_rate_limiter.cpp:87-92 | The evicted slot leaves list and index together |
| RequestRateLimiters.RequestRateLimiter.TakeSlot | http/limits/request_rate_limiter.cpp:71-92 | A free slot is taken if there is one; otherwise the oldest idle entry is dropped; otherwise nothing changes |
| RequestRateLimiters.RequestRateLimiter.Track | http/limits/request_rate_limiter.cpp:94-107 | The new entry is first in list and index; when the index refuses it nothing changes and the slot stays taken outside the list, lost |
| RequestRateLimiters.RequestRateLimiter.FindOrCreate | http/limits/request_rate_limiter.cpp:61-107 | List, index and pool together step as the move-to-front sequence does, whether found, created, evicting, refused or full |
| RequestRateLimiters.RequestRateLimiter.Acquire | http/limits/request_rate_limiter.cpp:109-125 | Holding an identity steps the sequence as specified |
| RequestRateLimiters.RequestRateLimiter.AllowRequest | http/limits/request_rate_limiter.cpp:127-159 | Spending a token steps the sequence as specified, with the refill's wrap-around |
| RequestRateLimiters.RequestRateLimiter.Release | http/limits/request_rate_limiter.cpp:161-174 | Releasing an identity steps the sequence as specified |
| LimiterRuns.AcquireEffect | http/limits/request_rate_limiter.cpp:109-125 | Seen per identity: the holder count goes up by one or a full bucket appears; any other identity is unchanged or was idle and forgotten because the pool was full |
| LimiterRuns.AcquiredIff | http/limits/request_rate_limiter.cpp:61-125 | A bucket is held exactly when the identity is tracked, or it can be recorded and there is a free slot or an entry nobody holds |
| LimiterRuns.AllowEffect | http/limits/request_rate_limiter.cpp:127-159 | Only a tracked identity is served; its bucket alone changes |
| LimiterRuns.ReleaseEffect | http/limits/request_rate_limiter.cpp:161-174 | The holder count goes down by one but never below zero, and no other identity changes |
| LimiterRuns.RunByRecency | http/limits/request_rate_limiter.cpp:52-107 | Over every run the order of entries is the order of last touch |
| LimiterRuns.HeldStays | http/limits/request_rate_limiter.cpp:76-92 | An identity that is held is never evicted nor altered by an operation on another identity |
| LimiterRuns.ForgottenWasOldest | http/limits/request_rate_limiter.cpp:76-92 | An identity that vanished had no holder and was, of those with none, the one touched longest ago |
| LimiterRuns.RunCapacity | http/limits/request_rate_limiter.cpp:71-98 | Over any run, entries and unused slots together shrink by one at each insert the index refuses after a slot was taken, and never otherwise |
| LimiterBound.TakePays | http/limits/request_rate_limiter.cpp:127-159 | One spend, refill included, never creates more than rate times the whole milliseconds elapsed, and tokens stay within burst |
| LimiterBound.TokensExact | http/limits/request_rate_limiter.cpp:127-159 | Without wrap-around a request passes exactly when the tokens left and the whole tokens accrued since the last refill, capped by the burst, come to at least one; one is spent, and the refill time moves when something is refilled |
| LimiterBound.BudgetBound | http/limits/request_rate_limiter.cpp:127-159 | Over a run, requests allowed are paid by the tokens at the start and rate times the whole milliseconds since the last refill |
| LimiterBound.SinceCreation | http/limits/request_rate_limiter.cpp:109-159 | From a bucket's creation at most burst + floor(rate * t / 1000) requests are allowed, t in whole milliseconds |
| LimiterBound.LateRefill | http/limits/request_rate_limiter.cpp:142-151 | Time a bucket had already banked before a window adds at most one token inside it |
| LimiterBound.WindowBound | http/limits/request_rate_limiter.cpp:127-159 | Over any later window at most burst + 1 + rate * T / 1000 requests are allowed, T being the window rounded up to a whole number of milliseconds |
| LimiterBound.WholeWindowBound | http/limits/request_rate_limiter.cpp:127-159 | Over a window of T whole milliseconds at most burst + 1 + floor(rate * T / 1000) requests are allowed, whatever the clock's unit |
| LimiterWindow.WindowExact | http/limits/request_rate_limiter.cpp:127-159 | From a time on, no run lets more through than burst + rate * T / 1000 if and only if drawing the bucket before and at a later refill stays within that |
| LimiterWindow.WindowBudget | http/limits/request_rate_limiter.cpp:127-159 | Without wrap, for every rate and burst, that is so if and only if a whole token has accrued by then, or tokens and time since the last refill come to no more than the burst and the least surplus of the refills that can come by the end |
| LimiterWindow.NoSurplus | http/limits/request_rate_limiter.cpp:142-151 | While the rate is at most the burst that least surplus is nothing |
| LimiterWindow.BudgetFits | http/limits/request_rate_limiter.cpp:127-159 | A bucket within its budget keeps the bound with no slack in every window, whatever the rate and wrap-around |
| LimiterWindow.PlainBoundFails | http/limits/request_rate_limiter.cpp:142-156 | A burst and a rate of one let two requests through within a millisecond |
| LimiterWindow.TokenOfSlackFails | http/limits/request_rate_limiter.cpp:142-156 | With a clock in nanoseconds four requests pass within one under a burst of two, more than burst + 1 + rate * T / 1000 without rounding T up |
| LimiterBound.RunWithinBurst | http/limits/request_rate_limiter.cpp:127-159 | No bucket ever holds more than burst tokens |
| CoreEngineLimits.ConnectionLimiter.AllowConnection | http/limits/connection_limiter.cpp:17-31 | Admits exactly below the cap with room in the map, and counts that one connection and nothing else |
| CoreEngineLimits.ConnectionLimiter.ReleaseConnection | http/limits/connection_limiter.cpp:33-48 | Uncounts that one connection, never below zero, and drops the key at zero |
| CoreEngineLimits.CoreEngine.CountConnection | engine/core_engine.cpp:513-521 | Succeeds exactly when the client is counted already, or its identity is below the cap and can be recorded; the client's bit and its identity's count change together |
| CoreEngineLimits.CoreEngine.HoldBucket | engine/core_engine.cpp:523-530 | Succeeds exactly when the client holds a bucket already or one is tracked, free or idle for its identity; the client's bit and the holder count change together |
| CoreEngineLimits.CoreEngine.AllowRequest | engine/core_engine.cpp:511-533 | All three verdicts as an equivalence on the state before: a connection limit exactly when the client is not counted and cannot be; allowed exactly when it ends counted and holding, and its bucket, refilled up to now, has a token left, of which one is spent; a request limit otherwise. Counts, bits and the limiter's entries afterwards are exactly those |
| CoreEngineLimits.CoreEngine.HandleClose | engine/core_engine.cpp:535-544 | Closing a client gives back exactly what it held |
| RouteSpec.FirstMatchIff | http/routing/route_trie.cpp:41-126 | The flat search finds a route exactly when some pattern matches |
| RouteSpec.FirstMatchJoin | http/routing/route_trie.cpp:41-126 | Searching two lists in a row prefers the first: a failed alternative leaves nothing behind |
| RouteSpec.BelowMatch | http/routing/route_trie.cpp:66-125 | Matching routes under a shared first segment is matching that segment, capturing, and matching the rest |
| RoutePaths.MatchesIff | http/routing/route_trie.cpp:41-126 | A pattern matches a path with some captures if and only if the path is its segments joined by slashes, with at most one slash behind the last, and each segment is the static text, or a capture it is read as; `*` stands for all that is left |
| RoutePaths.WildcardKeepsAll | http/routing/route_trie.cpp:56-63 | Under a pattern that ends in `*` the path is the segments taken before and the last capture joined by slashes, with at most one slash behind: no character is lost |
| RoutePaths.SegmentsIff | http/routing/route_trie.cpp:128-213 | A route text stands for a pattern if and only if it is segments joined by slashes, each spelling one element of the pattern: its static text, a parameter in angle brackets with its type, or a star |
| RoutePaths.LeadingSlash | http/routing/route_trie.cpp:215-221 | One leading slash of a route makes no difference, and only one is dropped |
| RouteTries.RouteTrie.MatchNode | http/routing/route_trie.cpp:41-126 | The backtracking matcher returns the first route in child order that matches, appends exactly its captures, and leaves the captures as they were when none does |
| RouteTries.RouteTrie.MatchChild | http/routing/route_trie.cpp:66-125 | The same for one child edge, whatever its kind, with the captures of the path |
| RouteTries.RouteTrie.Match | http/routing/route_trie.cpp:20-23 | A path is found if and only if some registered pattern matches it; the captures are pieces of the path that the returned node's own pattern takes, and the handler is that of this node, the first row of the flat table that matches |
| RouteNodes.AddKeepsRoutes | http/routing/route_trie.cpp:176-195 | Adding a node without a handler changes no route and no order |
| RouteNodes.HandlerKeepsOthers | http/routing/route_trie.cpp:13-18 | Setting one node's handler changes no other route and no order |
| RouteNodes.RoutesAreHandlers | http/routing/route_trie.cpp:13-23 | A route is listed exactly when its node has a handler, with the segments on the way to it |
| RouteNodes.ListedFromRoot | http/routing/route_trie.cpp:41-126 | What is reachable below a node is reachable from the root with that node's segments in front |
| RouteOrders.AddRows | http/routing/route_trie.cpp:176-195 | A child added to the trie is a row put in behind the last one at or below its parent's place |
| RouteOrders.HandlerRows | http/routing/route_trie.cpp:13-18 | A handler set at a node is that handler in the row of its place and nothing else |
| RouteOrders.TableMatch | http/routing/route_trie.cpp:41-126 | Searching the trie's routes in child order is searching the table's rows from the top |
| RouteAnswers.SetUpDeclares | http/routing/route_trie.cpp:13-38 | A run of commands gives handlers to exactly the patterns declared |
| RouteAnswers.Precedes | http/routing/route_trie.cpp:141-180 | Of all places with one pattern, the one being declared now comes last |
| RouteAnswers.AnswerRule | http/routing/route_trie.cpp:13-38 | The first row for a pattern is at the place where the pattern was declared first and holds the handler declared last there |
| RouteAnswers.LookupRule | http/routing/route_trie.cpp:20-23 | Whatever row answers a path does so with the captures of a declared pattern and by that rule |
| RouteAnswers.StaticAnswer | http/routing/route_trie.cpp:182-189 | A pattern without parameters is answered by the handler declared last for it |
| RouteAnswers.DeclaredTwice | http/routing/route_trie.cpp:141-180 | Of one route declared twice the second handler answers if and only if the route has no parameter, the first otherwise |
| RouteTries.RouteTrie.AddChild | http/routing/route_trie.cpp:176-195 | A new child spells its parent's segments and one more and gets its row behind those below its parent; no route changes |
| RouteTries.RouteTrie.FindStatic | http/routing/route_trie.cpp:182-189 | Finds the child with that name if and only if the table has a place for it |
| RouteTries.RouteTrie.Descend | http/routing/route_trie.cpp:141-209 | Reaches or creates the child for a segment as one step in the table does: shared when static, its own for a parameter; a new `*` anywhere but last is refused |
| RouteTries.RouteTrie.InsertRoute | http/routing/route_trie.cpp:128-213 | Ends at the place that walking the group's and the route's segments through the table leads to, for every well-formed route, changing no listed route |
| RouteTries.RouteTrie.Insert | http/routing/route_trie.cpp:13-18 | Puts that handler at the place the route leads to, adds exactly that pattern to the registered ones, and keeps every other route and the order |
| RouteTries.RouteTrie.PushGroup | http/routing/route_trie.cpp:25-29 | Moves the current group to the place its prefix leads to and remembers the outer one, registering nothing |
| RouteTries.RouteTrie.PopGroup | http/routing/route_trie.cpp:31-38 | Returns to the outer group, and fails exactly when there is none |
| RouteTries.RouteTrie.Execute | http/routing/route_trie.cpp:13-38 | One command takes trie and cursor stack from one table to the next |
| RouteTries.RouteTrie.Register | http/routing/route_trie.cpp:13-38 | After any well-nested run of groups and inserts the trie is the table those commands make, and the registered patterns are exactly group segments followed by route segments |
| RouteTries.Lookup | http/routing/route_trie.cpp:13-38 | A path is answered if and only if a declared pattern matches it, by the handler declared last at the place where that pattern was declared first; the path is spelled by segments that this pattern takes, and the captures are what it takes them as |
| EndpointPools.NextLease | os_specific/linux/epoll_connection.cpp:1811-1824 | The stored generation after n leases follows from n, skipping zero |
| EndpointPools.GenerationReturns | os_specific/linux/epoll_connection.cpp:1811-1824 | Two leases of a slot share a generation exactly when they are a multiple of 65535 apart |
| EndpointPools.PackUnpack | os_specific/linux/epoll_connection.cpp:869-902 | A 16/32/16-bit handle decodes to its three parts, fits 64 bits and is never zero |
| EndpointPools.UnpackPack | os_specific/linux/epoll_connection.cpp:869-902 | Every 64-bit value is the handle of its parts |
| EndpointPools.LeasedUpdate | os_specific/linux/epoll_connection.cpp:1794-2213 | Changing one slot changes the number of slots in use by that slot's own change |
| EndpointPools.EndpointPool.GetEndpointConnection | os_specific/linux/epoll_connection.cpp:1794-1827 | Leases a free slot, a pooled open one if there is any, stamps the next generation and counts it; every reservation stays and is never handed out |
| EndpointPools.EndpointPool.ReleaseEndpoint | os_specific/linux/epoll_connection.cpp:2061-2148 | Resets the slot but for its generation and uncounts it unless it was pooled idle |
| EndpointPools.EndpointPool.ReturnEndpointToPool | os_specific/linux/epoll_connection.cpp:2150-2187 | A reserved slot stays as it is; any other goes back idle and is uncounted |
| EndpointPools.EndpointPool.CompleteKeepAlive | os_specific/linux/epoll_connection.cpp:3875-3977 | A finished request frees its slot for the pool, or for its holder when reserved |
| EndpointPools.EndpointPool.MultiplexReleaseLeaseIfIdle | os_specific/linux/epoll_connection.cpp:2189-2201 | Uncounts a slot once, when its last stream is gone |
| EndpointPools.EndpointPool.MultiplexReacquireLease | os_specific/linux/epoll_connection.cpp:2203-2213 | Counts an idle slot again, and only an idle one |
| EndpointPools.EndpointPool.ReserveSlot | os_specific/linux/epoll_connection.cpp:904-926 | The handle names the reservation of a slot nobody had; zero exactly when none is free; every other reservation stays |
| EndpointPools.EndpointPool.DecodeSlotHandle | os_specific/linux/epoll_connection.cpp:878-902 | Resolves a handle exactly when endpoint, index and generation fit a reserved slot |
| EndpointPools.EndpointPool.HandleNamesReservation | os_specific/linux/epoll_connection.cpp:869-902 | Below 65535 further leases a handle resolves exactly while its own reservation is held; generations agree exactly at multiples of 65535 |
| EndpointPools.EndpointPool.ReleaseSlot | os_specific/linux/epoll_connection.cpp:928-949 | A stale handle does nothing; a live one ends that reservation, frees an idle slot, leaves a busy one in use, and touches no other |
| EndpointCoalescing.WaitersSettled | os_specific/linux/epoll_connection.cpp:2013-2059 | Every parked ticket is woken once or is stale, never both, and only clients still connected are woken, each with its own outcome |
| EndpointCoalescing.WakesInOrder | os_specific/linux/epoll_connection.cpp:2013-2059 | The waiters woken stand at the places whose client still has the generation it parked with, all of them and in order of parking, each with its own outcome |
| EndpointCoalescing.OneSlotPerKey | os_specific/linux/epoll_connection.cpp:1087-1167 | An entry exists for a key if and only if exactly one slot serves it |
| EndpointCoalescing.AnsweredOnce | os_specific/linux/epoll_connection.cpp:1058-2118 | In every reachable state a connected caller has been woken exactly as often as it asked, less one while it still depends on a slot |
| EndpointCoalescing.BooksStart | os_specific/linux/epoll_connection.cpp:1161-1167 | Starting a primary keeps the books |
| EndpointCoalescing.BooksPark | os_specific/linux/epoll_connection.cpp:1087-1098 | Parking a caller behind a primary keeps the books |
| EndpointCoalescing.BooksSettle | os_specific/linux/epoll_connection.cpp:3875-3977 | Answering primary and waiters in either order keeps the books |
| EndpointCoalescing.BooksLeave | os_specific/linux/epoll_connection.cpp:1902-2011 | A waiter's departure keeps the books: its ticket turns stale |
| EndpointCoalescing.BooksAbort | os_specific/linux/epoll_connection.cpp:1902-2011 | A primary's graceful departure keeps the books: its slot goes on for the waiters |
| EndpointCoalescing.BooksClose | os_specific/linux/epoll_connection.cpp:1902-2011 | A primary's departure that closes its slot keeps the books: its waiters are failed |
| EndpointCoalescing.OnlySlot | os_specific/linux/epoll_connection.cpp:1058-1193 | A client is the primary of at most one slot |
| EndpointCoalescing.Coalescer.WakeWaiters | os_specific/linux/epoll_connection.cpp:2013-2059 | Wakes, in order, exactly the waiters whose client still has the generation it parked with |
| EndpointCoalescing.Coalescer.SendPayload | os_specific/linux/epoll_connection.cpp:1058-1193 | Parks exactly when the key is in flight, behind those already waiting; is refused exactly when otherwise no slot is free; else starts a primary on an idle slot under its key exactly when the payload could be sent, and changes nothing when it could not |
| EndpointCoalescing.Coalescer.CompleteSingleSlotRequest | os_specific/linux/epoll_connection.cpp:3875-3977 | Wakes each waiter with the outcome of its copy, then the primary with success, and closes the key |
| EndpointCoalescing.Coalescer.FailSlotOnParseError | os_specific/linux/epoll_connection.cpp:3507-3527 | Fails the primary, then each waiter, and closes the key |
| EndpointCoalescing.Coalescer.ReleaseEndpoint | os_specific/linux/epoll_connection.cpp:2106-2118 | A lost slot fails each waiter, then the primary, and closes the key |
| EndpointCoalescing.Coalescer.ReleaseClient | os_specific/linux/epoll_connection.cpp:1902-2011 | A departing client is never woken; its slot is abandoned or closed by how it leaves, and only a closed slot fails its waiters, every one of them; all other slots and keys stay |
| EndpointDialing.ComputeBackoffSeconds | os_specific/linux/epoll_connection.cpp:4169-4188 | The delay is at least a second, within min(base * 2^attempt, max) whenever that is positive, and one second otherwise; every delay in between is drawn for some random word |
| EndpointDialing.BackgroundSlot.WrapConnect | os_specific/linux/epoll_connection.cpp:4539-4577 | One dial uses up one address and is recorded with its outcome; none is dialled when there is none |
| EndpointDialing.BackgroundSlot.TryNextAddress | os_specific/linux/epoll_connection.cpp:4238-4273 | Dials on exactly as long as addresses refuse and the round has tries left: all outcomes but the last are refusals, the walk is under way if and only if the last one is pending, and it stops short only at an outcome that is no refusal |
| EndpointDialing.BackgroundSlot.HandleConnectFailure | os_specific/linux/epoll_connection.cpp:4275-4328 | Walks on to further addresses exactly when a dial was refused; a slot that is not under way then is given up exactly on a fatal failure or a spent last attempt, and otherwise waits for a delay drawn by the attempts made; dials stay within (maxReconnectAttempts + 1) * n |
| EndpointDialing.BackgroundSlot.ScheduleReconnect | os_specific/linux/epoll_connection.cpp:4190-4236 | Draws the delay by the attempts already made, uses up one attempt and opens all addresses again |
| EndpointDialing.BackgroundSlot.Reconnect | os_specific/linux/epoll_connection.cpp:4330-4365 | A round from its wake-up dials the first address and deals with a failure as above; the dial bound is kept, and a further delay is drawn by the attempts made |
| EndpointDialing.Reconnects.Park | os_specific/linux/epoll_connection.cpp:4224-4236 | Parking a slot keeps the queue: every parked slot has exactly one live entry, and every other entry is stale |
| EndpointDialing.Reconnects.Start | os_specific/linux/epoll_connection.cpp:4377-4392 | A prewarmed slot is leased anew and begins its first round, and is parked by its new lease when that fails |
| EndpointDialing.Reconnects.Fail | os_specific/linux/epoll_connection.cpp:4275-4328 | A failed dial walks on, gives up or parks its slot for a drawn delay as above, and touches no other slot |
| EndpointDialing.Reconnects.Release | os_specific/linux/epoll_connection.cpp:2061-2148 | Tearing a slot down, even a parked one, turns its entry stale |
| EndpointDialing.Reconnects.HandleDue | os_specific/linux/epoll_connection.cpp:4338-4363 | A due entry is swapped out; its slot is woken exactly when the entry is live |
| EndpointDialing.AccountStep | os_specific/linux/epoll_connection.cpp:4330-4365 | One swap-and-pop keeps the account of what was due, dialled, dropped and parked again |
| EndpointDialing.Reconnects.HandleReconnects | os_specific/linux/epoll_connection.cpp:4330-4365 | In one sweep every due entry goes once and its slot, if still parked by it, dials exactly one more round; no other entry is lost or repeated, no other slot changes, and what is parked again waits for its drawn delay |
| ResponseSpec.ReadFlat | http/response/http_response.cpp:176-235 | A reader that splits at the first blank line recovers lines free of CR and LF, and the body behind them whatever it holds |
| ResponseSpec.FixedRead | http/response/http_response.cpp:53-59 | A number printed in fixed decimal width reads back |
| HttpResponses.AcceptedIffLegal | http/response/http_response.cpp:238-346 | The calls accepted, a commit of the handler among them, are always a legal sequence, and are all of them exactly when the whole sequence is legal |
| ResponseTexts.LegalIff | http/response/http_response.cpp:238-346 | Legal, call by call, are exactly the sequences with the status and persistent headers first, then the status and headers, then body data, then at most one commit, where no body data follows a status of 1xx, 204 or 304 and no header is named Connection or holds a line break or NUL |
| HttpResponses.AfterCalls | http/response/http_response.cpp:238-346 | A legal sequence leaves exactly the status, header lines and body it names; any other leaves the violation response over what had been accepted |
| HttpResponses.LegalFraming | http/response/http_response.cpp:122-559 | After any legal sequence, committed by handler or engine, a plain reader gets back the lines and exactly the accepted body, with a Content-Length that says its length and none where the status forbids a body |
| HttpResponses.ViolationFraming | http/response/http_response.cpp:122-174 | After any other sequence, a call behind a commit included, a plain reader gets a complete 500 that still carries every persistent header accepted before the violation |
| ResponseTexts.BuildResponse | http/response/http_response.cpp:122-559 | The class itself, driven with any calls in any order, commits among them, and sealed by the engine: a client finds the version, the three digits of the status named last, a line `name: value` for every persistent header, `Connection: close` or `Connection: keep-alive`, a line for every header, the decimal length, and the data written, cut up in the order of the calls; for a sequence out of order a complete 500 with the persistent headers of its longest beginning that was in order |
| HttpResponses.FormatFixed10 | http/response/http_response.cpp:53-59 | Writes the ten-digit decimal form |
| HttpResponses.HttpResponse.AbortWithError | http/response/http_response.cpp:122-147 | Cuts the buffer back to status line and persistent headers and rebuilds a complete text response over them, or the violation response when the status forbids a body |
| HttpResponses.HttpResponse.AbortContractViolation | http/response/http_response.cpp:150-160 | The first violation rebuilds the response as a 500; any later one changes nothing |
| HttpResponses.HttpResponse.RejectIfCommitted | http/response/http_response.cpp:162-174 | A call after commit is a violation and is not carried out |
| HttpResponses.HttpResponse.WriteStatus | http/response/http_response.cpp:238-263 | Patches the reserved status digits, or is a violation once the body has begun |
| HttpResponses.HttpResponse.WritePersistentHeader | http/response/http_response.cpp:265-297 | Adds one persistent line, or is a violation: too late, engine-owned name, or CR, LF or NUL |
| HttpResponses.HttpResponse.WriteHeader | http/response/http_response.cpp:299-331 | Adds one header line behind the connection line, or is a violation on the same grounds |
| HttpResponses.HttpResponse.EnsureBodyOpen | http/response/http_response.cpp:215-235 | Opens the body once with a reserved length, or is a violation on a status that forbids a body |
| HttpResponses.HttpResponse.WriteBodyData | http/response/http_response.cpp:333-346 | Appends the bytes to an open body, opening it first, even with no bytes |
| HttpResponses.HttpResponse.SendText | http/response/http_response.cpp:562-570 | Before a body has begun: adds the content type, writes the text and the length, and commits, or is a violation on a status that forbids a body |
| HttpResponses.HttpResponse.Commit | http/response/http_response.cpp:514-559 | Patches the reserved length, or closes an empty response with a zero length unless the status forbids one |
| ChunkedCoding.FixedHexRead | http/response/http_response.cpp:61-68 | A size printed in fixed hexadecimal width reads back and is made of digits only |
| ChunkedCoding.ShortHexRead | os_specific/linux/epoll_connection.cpp:2522-2528 | A size printed without leading zeros reads back |
| ChunkedCoding.ChunksDecode | http/response/http_response.cpp:465-500 | Decoding a run of chunks yields their bytes in front of what decoding the rest yields, in either size form |
| ChunkedCoding.ChunkedBodyDecodes | http/response/http_response.cpp:465-512 | Chunks and terminator decode to exactly the pieces with nothing left over |
| ChunkedSending.FormatFixedHex8 | http/response/http_response.cpp:61-68 | Writes the eight-digit hexadecimal form |
| ChunkedSending.FlushSession.WriteBodyData | http/response/http_response.cpp:333-346 | Bytes written between rounds join the round being gathered |
| ChunkedSending.FlushSession.PrepareFlushChunk | http/response/http_response.cpp:465-500 | Backfills the reserved gap so that the buffer ends in one well-formed chunk, and in the terminator when final; an empty final round sends no false chunk |
| ChunkedSending.FlushSession.FlushChunk | os_specific/linux/epoll_connection.cpp:804-836 | A round is handed to the socket, every byte of it, and completes, waits or fails as its answers say; a round without bytes is only sent when it is the last; a completed final round has delivered everything written, decodable |
| ChunkedSending.FlushSession.DrainWriteBuffer | os_specific/linux/epoll_connection.cpp:2588-2615 | However the socket splits the send, what went out is a prefix of the round with nothing skipped; the verdict is the one its answers give: on as long as it takes bytes, waiting when it asks for that, failed when it fails |
| ChunkedSending.FlushSession.CompleteFlushRound | os_specific/linux/epoll_connection.cpp:2617-2631 | A drained round opens the next gap, or with the final one everything written has been delivered |
| ChunkedSending.FlushSession.ResumeFlushChunk | os_specific/linux/epoll_connection.cpp:2633-2650 | A waiting round goes on where it stopped, as the socket answers, to the same ends |
| ChunkedStreaming.StreamSender.Frame | os_specific/linux/epoll_connection.cpp:2517-2537 | The right-aligned header and trailer around the generator's bytes form one well-formed chunk |
| ChunkedStreaming.StreamSender.Drain | os_specific/linux/epoll_connection.cpp:2539-2554 | Partial sends keep every byte in order until the region is out, and account for every answer of the socket |
| ChunkedStreaming.StreamSender.ResumeStream | os_specific/linux/epoll_connection.cpp:2456-2586 | Each generator result is framed once; the stream has ended after it if and only if it was a stop without bytes or one whose chunk the socket took whole in that call; a finished stream has delivered a body that decodes to exactly the pieces handed out |
| ChunkedStreaming.StreamSender.SendEnd | os_specific/linux/epoll_connection.cpp:2557-2586 | The terminator ends the stream and nothing follows it |
| ChunkedStreaming.StreamSender.FinishPartial | os_specific/linux/epoll_connection.cpp:723-753 | An interrupted chunk goes on where the socket stopped it, and the generator is asked next exactly when all is out and no terminator was |
| ChunkedStreaming.StreamSender.Stream | os_specific/linux/epoll_connection.cpp:2456-2586 | Over whole runs, any generator and any socket: each question comes when the socket has just taken the last chunk whole; a stop is followed by another question only if its own bytes had to wait; when stops carry no bytes none is, and a decoder recovers exactly what was said up to the first stop; and it has ended there once the turns outnumber the results and the socket's answers before it comes to take bytes |
| ChunkedStreaming.ForgottenStop | os_specific/linux/epoll_connection.cpp:2541-2549 | A run in which a stop with bytes is forgotten, the generator is asked again and its further bytes are sent |
| ParserSpec.HeaderEndFrom | http/parser/http_parser.cpp:371-388 | Scanning for the blank line from a point with none before it finds the same one as from the start |
| ParserSpec.HeaderEndGrows | http/parser/http_parser.cpp:371-388 | More bytes never move a header end once found, and one newly found ends in the new bytes |
| ParserSpec.VerdictStays | http/parser/http_parser.cpp:36-222 | A verdict reached on some bytes is the verdict on any longer text that begins with them |
| ParserSpec.FieldsEnd | http/parser/http_parser.cpp:287-330 | The field loop stops exactly where the blank-line scan says the head ends |
| ParserSpec.HeadEnd | http/parser/http_parser.cpp:36-222 | The body start of the line parse equals the one of the CRLFCRLF scan |
| HttpParsers.SafeFindHeaderEnd | http/parser/http_parser.cpp:371-388 | Finds the first CRLFCRLF at or behind a position |
| HttpParsers.FindFieldEnd | http/parser/http_parser.cpp:403-438 | Finds the colon of a field line, refusing a name that is not a token |
| HttpParsers.Trim | http/parser/http_parser.cpp:390-401 | Cuts the blanks at both ends |
| HttpParsers.IsFieldSanitized | http/parser/http_parser.cpp:440-454 | Accepts exactly the values without forbidden control bytes |
| HttpParsers.TwoNuls | http/parser/http_parser.cpp:287-330 | The two NULs written into a field line touch no other line and neither of its own two views |
| HttpParsers.RequestParser.SplitLine | http/parser/http_parser.cpp:225-285 | Splits a request line exactly when it is well formed, into method, target and version |
| HttpParsers.RequestParser.ParseRequest | http/parser/http_parser.cpp:225-285 | Accepts exactly the well-formed request lines, a target whose normalization fails among the refused; its writes to the path stay inside the line, and the stored path is the specified one |
| HttpParsers.RequestParser.ParseField | http/parser/http_parser.cpp:287-330 | Accepts exactly the well-formed fields; after its NULs both views read name and value |
| HttpParsers.RequestParser.ParseHeaders | http/parser/http_parser.cpp:287-330 | Accepts exactly the well-formed blocks; after all the writes every stored view still reads its field |
| HttpParsers.RequestParser.Receive | http/parser/http_parser.cpp:60-83 | New bytes join those received so far, and the parser may go on from where its last scan stopped |
| HttpParsers.RequestParser.ParseHead | http/parser/http_parser.cpp:85-196 | With the header end known, reports the verdict of the whole-text parse |
| HttpParsers.RequestParser.DecideBody | http/parser/http_parser.cpp:102-195 | From the framing fields chooses no body, a body, too large or a side path as the whole-text parse does |
| HttpParsers.RequestParser.ParseBody | http/parser/http_parser.cpp:198-210 | A complete body is viewed at the place the whole-text parse says |
| HttpParsers.RequestParser.Parse | http/parser/http_parser.cpp:36-222 | One call, in any resumable state, reports the verdict of parsing everything received so far |
| HttpParsers.ParseArrivals | http/parser/http_parser.cpp:36-222 | However a text is split into reads, verdict, request line, fields and body equal those of one read |
| RequestTexts.HeadRead | http/parser/http_parser.cpp:198-330 | A head as it is written (method, path, query and version with single blanks, fields with blanks around their values, a blank line) is read back as its line, its stored path and its fields, and ends where it ends |
| RequestTexts.HeadWritten | http/parser/http_parser.cpp:198-330 | Conversely every head that is read is the text of such a head |
| RequestTexts.ParsedWritten | http/parser/http_parser.cpp:36-222 | What is neither refused nor waited for begins with such a head, within the size limit |
| RequestTexts.LengthFrames | http/parser/http_parser.cpp:102-195 | With a Content-Length that is n in decimal digits: an error exactly when n does not fit the limits, otherwise incomplete while fewer than n bytes follow the blank line, and then success with exactly the next n bytes as the body |
| RequestTexts.NoLengthNoBody | http/parser/http_parser.cpp:102-195 | Without a Content-Length there is no body, whatever follows |
| RequestTexts.BadLength | http/parser/http_parser.cpp:102-195 | A Content-Length with anything but digits in it is an error |
| RequestTexts.CodingFrames | http/parser/http_parser.cpp:102-195 | A Transfer-Encoding takes its own path exactly when it is `chunked` and no length stands beside it, and is an error otherwise |
| RequestTexts.ExpectFrames | http/parser/http_parser.cpp:102-195 | An `Expect: 100-continue` takes its own path exactly when there is no length or a length in digits below 2^64, and is an error otherwise |
| RequestTexts.LongHead | http/parser/http_parser.cpp:85-101 | A head over the size limit is an error |
| RequestTexts.ReceiveRequest | http/parser/http_parser.cpp:36-222 | The parser fed such a request in pieces of any sizes succeeds exactly when the length fits and n bytes of body are there, with exactly these bytes, and refuses exactly when the length does not fit |
| Middleware.LevelsApart | http/connection/http_connection.hpp:120-159 | The two levels packed into one byte are set and read independently |
| Middleware.ChainRises | http/middleware/http_middleware.cpp:103-160 | The synchronous chain runs its callbacks in strictly rising order |
| Middleware.RunsOnce | http/middleware/http_middleware.cpp:37-62 | No callback, and not the handler, runs twice |
| Middleware.SyncRunObeys | http/middleware/http_middleware.cpp:37-160 | Which callbacks run, position by position: the first of a stack always; any other exactly when the one before it ran and let it go on, or the one before was passed over and the one before that skipped one; the handler exactly when nothing that ran ended the request; all in order |
| Middleware.ObeyedOnce | http/middleware/http_middleware.cpp:37-160 | That rule leaves exactly one sequence of runs |
| Middleware.RequestRun.ExecuteFunction | http/middleware/http_middleware.cpp:162-189 | Runs one callback; inline it yields its action, suspended it is in flight |
| Middleware.RequestRun.ExecuteHelper | http/middleware/http_middleware.cpp:103-160 | From any resumption point, what runs now followed by what is left after a suspension is what was left before |
| Middleware.RequestRun.ExecuteMiddleware | http/middleware/http_middleware.cpp:37-62 | The same across the global and the route's stack, and the handler is due exactly on success |
| Middleware.RequestRun.HandleSuccess | engine/core_engine.cpp:270-342 | Ends with a response, everything due having run, or suspends with the rest still due |
| Middleware.RequestRun.OnCoroutineComplete | engine/core_engine.cpp:345-383 | A finished or failed coroutine resumes with exactly the rest that was due after its action |
| Middleware.RequestRun.Run | engine/core_engine.cpp:270-383 | For all stacks and every choice of inline, suspending and failing callbacks, the callbacks that run and the handler's turn obey that rule and equal the synchronous chain's, and one response is sent |
| JsonSpec.CharRead | shared/json/json_writter.hpp:320-393 | One escaped character reads back and never looks like the closing quote |
| JsonGrammar.TextWritten | shared/json/json_writter.hpp:16-393 | The text of every value is derived by the grammar of RFC 8259, written out as a relation: the escapes of section 7, integers of section 6, arrays and objects of sections 5 and 4 |
| JsonSpec.StringRead | shared/json/json_writter.hpp:281-393 | An escaped string reads back, up to its own closing quote |
| JsonSpec.IntRead | shared/json/json_writter.hpp:288-298 | A printed integer reads back, up to what follows it |
| JsonSpec.ReadText | shared/json/json_writter.hpp:37-320 | The text of any value tree parses back to the same tree |
| JsonWriters.BitsAfter | shared/json/json_writter.hpp:37-98 | Setting or clearing one bit of a mask leaves every other bit |
| JsonWriters.MaskWidth | shared/json/json_writter.hpp:395-400 | The masks stay within their 64 bits |
| JsonWriters.JsonWriter.WriteComma | shared/json/json_writter.hpp:261-273 | Writes a comma exactly when the container open now has an element already |
| JsonWriters.JsonWriter.Escaped | shared/json/json_writter.hpp:320-393 | The span-copying loop writes the character-wise escape of the whole string |
| JsonWriters.JsonWriter.Write | shared/json/json_writter.hpp:100-243 | Writes comma, key and value (quoted and escaped when it is a string) into the open container, masks in step with the explicit stack |
| JsonWriters.JsonWriter.Begin | shared/json/json_writter.hpp:37-93 | Opens a container on the explicit stack the masks stand for, or past the depth limit only counts it |
| JsonWriters.JsonWriter.End | shared/json/json_writter.hpp:95-259 | Closes the innermost container with its own bracket, or unwinds one counted past the limit |
| JsonWriters.EmptyContainer | shared/json/json_writter.hpp:37-259 | A container begun and ended is one empty element; beyond 63 open ones, counted or not, it leaves no trace and everything open stays open |
| JsonWriters.JsonWriter.Destroy | shared/json/json_writter.hpp:22-31 | Closes whatever is still open |
| JsonWriters.JsonWriter.WriteTree | shared/json/json_writter.hpp:37-243 | Writing a tree through the calls has the effect of the specification |
| JsonWriters.EmitText | shared/json/json_writter.hpp:37-259 | With room left, a tree's calls append its separator, key and text and leave the container stack as it was |
| JsonWriters.DocumentText | shared/json/json_writter.hpp:22-98 | A whole document of at most 63 nested containers is the text of its tree |
| JsonWriters.WriteDocument | shared/json/json_writter.hpp:16-393 | What the writer class produces for any such document is derived by that grammar from it and parses back to it |
| JsonBalance.QuotedScans | shared/json/json_writter.hpp:275-393 | No bracket or quote inside a string reaches the bracket structure |
| JsonBalance.ApplyMatched | shared/json/json_writter.hpp:37-259 | Any call in any state keeps the text's open brackets equal to the explicit stack |
| JsonBalance.FinishMatched | shared/json/json_writter.hpp:22-31 | The destructor leaves nothing open |
| JsonBalance.Balanced | shared/json/json_writter.hpp:16-393 | For any sequence of calls at all, the text's brackets balance once the writer is destroyed |

## Left out

- Template tag text: splitting a tag's text into its name and tokens is the function parameter `lex`; the theorems hold for every such function.
- The C++ text of expressions (engine/template_transpiler.cpp:482-643): expressions have their one-stack meaning; nothing is said about the emitted source text.
- Values of expressions: the meaning of operators in conditions and in printed values is a parameter, so number formatting and comparison rules are outside.
- Template inheritance (blocks, extends, includes) and the meaning of ill-nested tags: such tags are processed as the code does, but no tree is claimed for them.
- TemplateCorrect.CompilationPreservesMeaning: asks that no loop rebind a root of its own iterated expression, because the emitted code evaluates that expression again; also that the template has fewer than 2^32 ops and no variable named `__linf_*`.
- TemplateRender.Respond: for a template that does not end for good, says what follows behind the first end, not what comes behind the second; a first buffer the template exactly fills, and short reads, are left open there.
- TemplateMachine.StepOf: takes the length of a value that is neither array nor object as zero in `endfor`, where the source would read an unrelated word; the loops covered by the theorems never reach it.
- Reads of template files that come up short are modelled; a read that returns nothing before the end of the file is taken as a failure.
- LimiterSpec.Entry: holder counts are unbounded naturals; the refill arithmetic has the source's 64-bit and 32-bit wrap-around.
- LimiterBound.WindowBound: like the other window results speaks of an identity that stays tracked through the window; one that is evicted starts a new, full bucket.
- Address normalization and the choice of client address behind proxies: function and value parameters.
- Route parameter parsing (uint, int, uuid): the function parameter `reader`; a route handler is a number.
- RouteTries.RouteTrie.InsertRoute: a `*` that is not last is refused only where the source refuses it, when the child is new; a fatal stop is a `None` result.
- EndpointPools.EndpointPool: one endpoint's pool; side connections, prewarming, DNS refresh and keep-alive completion on multiplexed slots are not modelled.
- EndpointCoalescing.Coalescer: streamed requests, requests deferred until a connection hook ran, and reentrant callbacks are not modelled; a client's generation does not wrap.
- EndpointDialing.Reconnects: one endpoint whose number of addresses is fixed while a slot reconnects; DNS refresh in between is not modelled, and a slot's generation does not wrap while it is parked.
- HttpResponses.HttpResponse: appending never fails, here and in the chunked senders (the send-buffer limit is not modelled), status codes have at most three digits, and a Content-Length a handler writes itself stays in the output as in the source.
- HttpResponses.HttpResponse.SendText: is stated for a response whose body has not begun; later than that the source writes its header line into what is there without a check.
- HttpResponses.HttpResponse.Commit: a flush session ended by commit instead of its own end call, files and stream headers are not modelled.
- ChunkedStreaming.StreamSender.ResumeStream: streams that are not chunked are not modelled; a result of 2^28 bytes or more is refused, as its size would not fit the reserved header.
- ParserSpec.Parse: requests with `Expect` or `Transfer-Encoding` get a verdict of their own and are not followed further; method and version tables and path normalization are parameters; growing the buffer succeeds.
- Middleware.RequestRun: stacks are shorter than 65535 callbacks, as the source's 16-bit index needs; what callbacks do to the request is not modelled.
- JsonSpec.ReadText: integers, strings, booleans, null, arrays and objects; floating-point and UUID text is left to the library, and the reader expects no blanks, as the writer writes none.
- Sockets, epoll, TLS, DNS threads, timers, configuration, logging, metrics, MIME types, CORS, the command line and plugin loading: input, output and plumbing.
