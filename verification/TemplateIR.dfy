/** The flat template IR and the tag handlers that build it. Jump targets are left open and patched
    later through a stack of frames, one frame per open block. Instructions carry either pool
    indices, as the transpiler stores them, or the programs and names those stand for. */
module TemplateIR {
  import opened TemplateExpr
  import opened TemplatePools

  /** One instruction over expressions E and names V; `patch` says the jump target is still open. */
  datatype Op<E, V> =
    | Literal(off: nat, len: nat)
    | Show(expr: E)
    | If(target: nat, expr: E, patch: bool)
    | Elif(target: nat, expr: E, patch: bool)
    | Else
    | EndIf
    | For(target: nat, expr: E, variable: V, patch: bool)
    | EndFor(target: nat, expr: E, variable: V)
    | Jump(target: nat, patch: bool)

  /** The code so far and, per open block, the instructions that wait for a target. */
  datatype Build<E, V> = Build(ir: seq<Op<E, V>>, frames: seq<seq<nat>>)

  /** Throws is a tag that makes the source read the wrong payload alternative. */
  datatype Status = Success | Failure | Throws

  predicate Conditional<E, V>(op: Op<E, V>) { op.If? || op.Elif? }

  predicate Open<E, V>(op: Op<E, V>) {
    match op
    case If(_, _, p) => p
    case Elif(_, _, p) => p
    case For(_, _, _, p) => p
    case Jump(_, p) => p
    case _ => false
  }

  /** Points a conditional at `target`; other instructions stay. */
  function AimConditional<E, V>(op: Op<E, V>, target: nat): Op<E, V> {
    if op.If? then If(target, op.expr, false)
    else if op.Elif? then Elif(target, op.expr, false)
    else op
  }

  /** What `endif` does to an instruction of the closing frame. */
  function AimEnd<E, V>(op: Op<E, V>, target: nat): Op<E, V> {
    match op
    case If(_, e, _) => If(target, e, false)
    case Elif(_, e, _) => Elif(target, e, false)
    case Jump(_, _) => Jump(target, false)
    case For(t, e, v, _) => For(t, e, v, false)
    case _ => op
  }

  function PatchConditionals<E, V>(ir: seq<Op<E, V>>, frame: seq<nat>, target: nat): (r: seq<Op<E, V>>)
    ensures |r| == |ir|
  {
    seq(|ir|, i requires 0 <= i < |ir| => if i in frame then AimConditional(ir[i], target) else ir[i])
  }

  function PatchEnd<E, V>(ir: seq<Op<E, V>>, frame: seq<nat>, target: nat): (r: seq<Op<E, V>>)
    ensures |r| == |ir|
  {
    seq(|ir|, i requires 0 <= i < |ir| => if i in frame then AimEnd(ir[i], target) else ir[i])
  }

  /** The frame without its conditionals, order kept. */
  function DropConditionals<E, V>(ir: seq<Op<E, V>>, frame: seq<nat>): seq<nat>
    decreases |frame|
  {
    if frame == [] then []
    else
      var rest := DropConditionals(ir, Front(frame));
      if Last(frame) < |ir| && Conditional(ir[Last(frame)]) then rest else rest + [Last(frame)]
  }

  function OpenIf<E, V>(b: Build<E, V>, e: E): Build<E, V> {
    Build(b.ir + [If(0, e, true)], b.frames + [[|b.ir|]])
  }

  /** An `elif` or `else` needs an open block with something left to patch. */
  predicate InBlock<E, V>(b: Build<E, V>) { b.frames != [] && Last(b.frames) != [] }

  /** Ends the branch before an `elif` or `else`: a jump to the end of the block, then the open
      conditional of this frame aimed at the instruction after it. */
  function CloseBranch<E, V>(b: Build<E, V>): Build<E, V>
    requires InBlock(b)
  {
    var ir := b.ir + [Jump(0, true)];
    var ir' := PatchConditionals(ir, Last(b.frames), |ir|);
    Build(ir', Front(b.frames) + [DropConditionals(ir', Last(b.frames)) + [|b.ir|]])
  }

  function AddElif<E, V>(b: Build<E, V>, e: E): Build<E, V>
    requires b.frames != []
  {
    Build(b.ir + [Elif(0, e, true)], Front(b.frames) + [Last(b.frames) + [|b.ir|]])
  }

  function AddOp<E, V>(b: Build<E, V>, op: Op<E, V>): Build<E, V> { b.(ir := b.ir + [op]) }

  function CloseIf<E, V>(b: Build<E, V>): Build<E, V>
    requires b.frames != []
  {
    Build(PatchEnd(b.ir, Last(b.frames), |b.ir|) + [EndIf], Front(b.frames))
  }

  function OpenFor<E, V>(b: Build<E, V>, e: E, v: V): Build<E, V> {
    Build(b.ir + [For(0, e, v, true)], b.frames + [[|b.ir|]])
  }

  /** The loop head `endfor` closes: the first entry of the frame, if that is one. */
  predicate ClosesLoop<E, V>(b: Build<E, V>)
    requires b.frames != []
  {
    Last(b.frames) != [] && Last(b.frames)[0] < |b.ir| && b.ir[Last(b.frames)[0]].For?
  }

  function CloseFor<E, V>(b: Build<E, V>): Build<E, V>
    requires b.frames != [] && ClosesLoop(b)
  {
    var head := Last(b.frames)[0];
    var f := b.ir[head];
    Build(b.ir[head := For(|b.ir|, f.expr, f.variable, false)] + [EndFor(|b.ir|, f.expr, f.variable)], Front(b.frames))
  }

  // ---------------------------------------------------------------- tags

  /** A tag as extracted and lexed from its text. */
  datatype Tag =
    | TagIf(toks: seq<Token>)
    | TagElif(toks: seq<Token>)
    | TagElse
    | TagEndIf
    | TagVar(toks: seq<Token>)
    | TagFor(toks: seq<Token>)
    | TagEndFor
    | TagUnknown

  /** What the scanner delivers: a span of literal bytes, or a tag. */
  datatype Event = Span(off: nat, len: nat) | TagOf(tag: Tag)

  /** `for <identifier> in <expression>` */
  predicate ForHeader(toks: seq<Token>) { |toks| >= 2 && toks[0].Id? && toks[1].KeywordIn? }

  /** The transpiler's state: code over pool indices, and the pools. */
  datatype State = State(build: Build<nat, nat>, pools: Pools)

  const INITIAL := State(Build([], []), EMPTY_POOLS)

  function ProcessElifTest(s: State, hash: seq<RpnOp> -> nat, toks: seq<Token>): (Status, State) {
    if !InBlock(s.build) then (Failure, s)
    else
      var b := CloseBranch(s.build);
      var e := ParseInto(s.pools, hash, toks);
      if e.ok then (Success, State(AddElif(b, e.idx), e.pools)) else (Failure, State(b, e.pools))
  }

  function ProcessForHeader(s: State, hash: seq<RpnOp> -> nat, toks: seq<Token>): (Status, State) {
    if !ForHeader(toks) then (Failure, s)
    else
      var e := ParseInto(s.pools, hash, toks[2..]);
      if !e.ok then (Failure, s.(pools := e.pools))
      else
        var n := InternName(e.pools, toks[0].name);
        (Success, State(OpenFor(s.build, e.idx, n.1), n.0))
  }

  function Process(s: State, hash: seq<RpnOp> -> nat, tag: Tag): (Status, State) {
    match tag
    case TagIf(toks) =>
      var e := ParseInto(s.pools, hash, toks);
      if e.ok then (Success, State(OpenIf(s.build, e.idx), e.pools)) else (Failure, s.(pools := e.pools))
    case TagElif(toks) => ProcessElifTest(s, hash, toks)
    case TagElse =>
      if !InBlock(s.build) then (Failure, s) else (Success, s.(build := AddOp(CloseBranch(s.build), Else)))
    case TagEndIf =>
      if s.build.frames == [] then (Failure, s) else (Success, s.(build := CloseIf(s.build)))
    case TagVar(toks) =>
      var e := ParseInto(s.pools, hash, toks);
      if e.ok then (Success, State(AddOp(s.build, Show(e.idx)), e.pools)) else (Failure, s.(pools := e.pools))
    case TagFor(toks) => ProcessForHeader(s, hash, toks)
    case TagEndFor =>
      if s.build.frames == [] then (Failure, s)
      else if !ClosesLoop(s.build) then (Throws, s.(build := s.build.(frames := Front(s.build.frames))))
      else (Success, s.(build := CloseFor(s.build)))
    case TagUnknown => (Failure, s)
  }

  function ProcessEvent(s: State, hash: seq<RpnOp> -> nat, ev: Event): (Status, State) {
    match ev
    case Span(off, len) => (Success, s.(build := AddOp(s.build, Literal(off, len))))
    case TagOf(tag) => Process(s, hash, tag)
  }

  /** Feeds events until one fails. */
  function Feed(s: State, hash: seq<RpnOp> -> nat, events: seq<Event>): (Status, State)
    decreases |events|
  {
    if events == [] then (Success, s)
    else
      var r := ProcessEvent(s, hash, events[0]);
      if r.0 != Success then r else Feed(r.1, hash, events[1..])
  }

  // ---------------------------------------------------------------- the same over programs

  type SymOp = Op<seq<Sym>, string>
  type SymBuild = Build<seq<Sym>, string>

  /** A tag handler without pools: expressions stay programs and names stay names. */
  function SymProcess(b: SymBuild, tag: Tag): (Status, SymBuild) {
    match tag
    case TagIf(toks) =>
      var e := ParseTokens(toks);
      if e.ok then (Success, OpenIf(b, e.yard.out)) else (Failure, b)
    case TagElif(toks) =>
      if !InBlock(b) then (Failure, b)
      else
        var e := ParseTokens(toks);
        if e.ok then (Success, AddElif(CloseBranch(b), e.yard.out)) else (Failure, CloseBranch(b))
    case TagElse => if !InBlock(b) then (Failure, b) else (Success, AddOp(CloseBranch(b), Else))
    case TagEndIf => if b.frames == [] then (Failure, b) else (Success, CloseIf(b))
    case TagVar(toks) =>
      var e := ParseTokens(toks);
      if e.ok then (Success, AddOp(b, Show(e.yard.out))) else (Failure, b)
    case TagFor(toks) =>
      if !ForHeader(toks) then (Failure, b)
      else
        var e := ParseTokens(toks[2..]);
        if e.ok then (Success, OpenFor(b, e.yard.out, toks[0].name)) else (Failure, b)
    case TagEndFor =>
      if b.frames == [] then (Failure, b)
      else if !ClosesLoop(b) then (Throws, b.(frames := Front(b.frames)))
      else (Success, CloseFor(b))
    case TagUnknown => (Failure, b)
  }

  function SymEvent(b: SymBuild, ev: Event): (Status, SymBuild) {
    match ev
    case Span(off, len) => (Success, AddOp(b, Literal(off, len)))
    case TagOf(tag) => SymProcess(b, tag)
  }

  function SymFeed(b: SymBuild, events: seq<Event>): (Status, SymBuild)
    decreases |events|
  {
    if events == [] then (Success, b)
    else
      var r := SymEvent(b, events[0]);
      if r.0 != Success then r else SymFeed(r.1, events[1..])
  }

  // ---------------------------------------------------------------- indices stand for programs

  predicate OpInRange(lib: Library, op: Op<nat, nat>) {
    match op
    case Show(e) => e < |lib.programs|
    case If(_, e, _) => e < |lib.programs|
    case Elif(_, e, _) => e < |lib.programs|
    case For(_, e, v, _) => e < |lib.programs| && v < |lib.names|
    case EndFor(_, e, v) => e < |lib.programs| && v < |lib.names|
    case _ => true
  }

  predicate InRange(lib: Library, ir: seq<Op<nat, nat>>) {
    forall i | 0 <= i < |ir| :: OpInRange(lib, ir[i])
  }

  function LinkOp(lib: Library, op: Op<nat, nat>): SymOp
    requires OpInRange(lib, op)
  {
    match op
    case Literal(off, len) => Literal(off, len)
    case Show(e) => Show(lib.programs[e])
    case If(t, e, p) => If(t, lib.programs[e], p)
    case Elif(t, e, p) => Elif(t, lib.programs[e], p)
    case Else => Else
    case EndIf => EndIf
    case For(t, e, v, p) => For(t, lib.programs[e], lib.names[v], p)
    case EndFor(t, e, v) => EndFor(t, lib.programs[e], lib.names[v])
    case Jump(t, p) => Jump(t, p)
  }

  /** The code with every index replaced by what it names. */
  function Link(lib: Library, ir: seq<Op<nat, nat>>): (r: seq<SymOp>)
    requires InRange(lib, ir)
    ensures |r| == |ir|
  {
    seq(|ir|, i requires 0 <= i < |ir| => LinkOp(lib, ir[i]))
  }

  function LinkBuild(lib: Library, b: Build<nat, nat>): SymBuild
    requires InRange(lib, b.ir)
  {
    Build(Link(lib, b.ir), b.frames)
  }

  lemma LinkKept(lib: Library, lib': Library, ir: seq<Op<nat, nat>>)
    requires InRange(lib, ir) && lib'.Extends(lib)
    ensures InRange(lib', ir) && Link(lib', ir) == Link(lib, ir)
  {
    forall i | 0 <= i < |ir| ensures OpInRange(lib', ir[i]) && LinkOp(lib', ir[i]) == LinkOp(lib, ir[i]) {
      assert OpInRange(lib, ir[i]);
    }
  }

  lemma LinkAppend(lib: Library, ir: seq<Op<nat, nat>>, op: Op<nat, nat>)
    requires InRange(lib, ir) && OpInRange(lib, op)
    ensures InRange(lib, ir + [op]) && Link(lib, ir + [op]) == Link(lib, ir) + [LinkOp(lib, op)]
  {
  }

  lemma LinkPatch(lib: Library, ir: seq<Op<nat, nat>>, frame: seq<nat>, target: nat)
    requires InRange(lib, ir)
    ensures InRange(lib, PatchConditionals(ir, frame, target)) && InRange(lib, PatchEnd(ir, frame, target))
    ensures Link(lib, PatchConditionals(ir, frame, target)) == PatchConditionals(Link(lib, ir), frame, target)
    ensures Link(lib, PatchEnd(ir, frame, target)) == PatchEnd(Link(lib, ir), frame, target)
  {
    forall i | 0 <= i < |ir|
      ensures OpInRange(lib, AimConditional(ir[i], target)) && OpInRange(lib, AimEnd(ir[i], target))
      ensures LinkOp(lib, AimConditional(ir[i], target)) == AimConditional(LinkOp(lib, ir[i]), target)
      ensures LinkOp(lib, AimEnd(ir[i], target)) == AimEnd(LinkOp(lib, ir[i]), target)
    {
      assert OpInRange(lib, ir[i]);
    }
  }

  lemma {:induction false} LinkDrop(lib: Library, ir: seq<Op<nat, nat>>, frame: seq<nat>)
    requires InRange(lib, ir)
    ensures DropConditionals(ir, frame) == DropConditionals(Link(lib, ir), frame)
    decreases |frame|
  {
    if frame != [] {
      LinkDrop(lib, ir, Front(frame));
    }
  }

  lemma LinkCloseBranch(lib: Library, b: Build<nat, nat>)
    requires InRange(lib, b.ir) && InBlock(b)
    ensures InRange(lib, CloseBranch(b).ir) && LinkBuild(lib, CloseBranch(b)) == CloseBranch(LinkBuild(lib, b))
  {
    LinkAppend(lib, b.ir, Jump(0, true));
    var ir := b.ir + [Jump(0, true)];
    LinkPatch(lib, ir, Last(b.frames), |ir|);
    LinkDrop(lib, PatchConditionals(ir, Last(b.frames), |ir|), Last(b.frames));
  }

  lemma LinkCloseIf(lib: Library, b: Build<nat, nat>)
    requires InRange(lib, b.ir) && b.frames != []
    ensures InRange(lib, CloseIf(b).ir) && LinkBuild(lib, CloseIf(b)) == CloseIf(LinkBuild(lib, b))
  {
    LinkPatch(lib, b.ir, Last(b.frames), |b.ir|);
    LinkAppend(lib, PatchEnd(b.ir, Last(b.frames), |b.ir|), EndIf);
  }

  lemma LinkCloseFor(lib: Library, b: Build<nat, nat>)
    requires InRange(lib, b.ir) && b.frames != [] && ClosesLoop(b)
    ensures ClosesLoop(LinkBuild(lib, b))
    ensures InRange(lib, CloseFor(b).ir) && LinkBuild(lib, CloseFor(b)) == CloseFor(LinkBuild(lib, b))
  {
    var head := Last(b.frames)[0];
    assert OpInRange(lib, b.ir[head]);
    var ir := b.ir[head := For(|b.ir|, b.ir[head].expr, b.ir[head].variable, false)];
    forall i | 0 <= i < |ir| ensures OpInRange(lib, ir[i]) { assert OpInRange(lib, b.ir[i]); }
    assert Link(lib, ir) == Link(lib, b.ir)[head := LinkOp(lib, ir[head])];
    LinkAppend(lib, ir, EndFor(|b.ir|, b.ir[head].expr, b.ir[head].variable));
  }

  /** Code and pools fit: the pools are consistent and every index is one of theirs. */
  predicate ValidState(s: State) { s.pools.Valid() && InRange(s.pools.Decoded(), s.build.ir) }

  function Linked(s: State): SymBuild
    requires ValidState(s)
  {
    LinkBuild(s.pools.Decoded(), s.build)
  }

  /** After a parse the old code still fits, and the new index names the parsed program. */
  lemma ParseKeepsLink(s: State, hash: seq<RpnOp> -> nat, toks: seq<Token>)
    requires ValidState(s)
    ensures var e := ParseInto(s.pools, hash, toks);
            var lib := e.pools.Decoded();
            && e.ok == ParseTokens(toks).ok && ValidState(s.(pools := e.pools))
            && Linked(s.(pools := e.pools)) == Linked(s)
            && (e.ok ==> lib.Stores(e.idx, ParseTokens(toks).yard.out))
  {
    var e := ParseInto(s.pools, hash, toks);
    ParseIntoCorrect(s.pools, hash, toks);
    DecodedExtends(s.pools, e.pools);
    LinkKept(s.pools.Decoded(), e.pools.Decoded(), s.build.ir);
  }

  /** A tag does to indexed code exactly what it does to programs, and keeps the state valid. */
  lemma ProcessLinked(s: State, hash: seq<RpnOp> -> nat, tag: Tag)
    requires ValidState(s)
    ensures var (st, s') := Process(s, hash, tag);
            ValidState(s') && (st, Linked(s')) == SymProcess(Linked(s), tag)
  {
    var lib := s.pools.Decoded();
    match tag
    case TagIf(toks) =>
      ParseKeepsLink(s, hash, toks);
      var e := ParseInto(s.pools, hash, toks);
      if e.ok { LinkAppend(e.pools.Decoded(), s.build.ir, If(0, e.idx, true)); }
    case TagElif(toks) =>
      if InBlock(s.build) {
        LinkCloseBranch(lib, s.build);
        var s1 := s.(build := CloseBranch(s.build));
        ParseKeepsLink(s1, hash, toks);
        var e := ParseInto(s.pools, hash, toks);
        if e.ok { LinkAppend(e.pools.Decoded(), s1.build.ir, Elif(0, e.idx, true)); }
      }
    case TagElse =>
      if InBlock(s.build) {
        LinkCloseBranch(lib, s.build);
        LinkAppend(lib, CloseBranch(s.build).ir, Else);
      }
    case TagEndIf =>
      if s.build.frames != [] { LinkCloseIf(lib, s.build); }
    case TagVar(toks) =>
      ParseKeepsLink(s, hash, toks);
      var e := ParseInto(s.pools, hash, toks);
      if e.ok { LinkAppend(e.pools.Decoded(), s.build.ir, Show(e.idx)); }
    case TagFor(toks) =>
      if ForHeader(toks) { OpenForLinked(s, hash, toks); }
    case TagEndFor =>
      if s.build.frames != [] && ClosesLoop(s.build) { LinkCloseFor(lib, s.build); }
    case TagUnknown =>
  }

  lemma OpenForLinked(s: State, hash: seq<RpnOp> -> nat, toks: seq<Token>)
    requires ValidState(s) && ForHeader(toks)
    ensures var (st, s') := Process(s, hash, TagFor(toks));
            ValidState(s') && (st, Linked(s')) == SymProcess(Linked(s), TagFor(toks))
  {
    ParseKeepsLink(s, hash, toks[2..]);
    var e := ParseInto(s.pools, hash, toks[2..]);
    if e.ok {
      var (q, id) := InternName(e.pools, toks[0].name);
      InternNameCorrect(e.pools, toks[0].name);
      DecodedExtends(e.pools, q);
      LinkKept(e.pools.Decoded(), q.Decoded(), s.build.ir);
      LinkAppend(q.Decoded(), s.build.ir, For(0, e.idx, id, true));
    }
  }

  lemma {:induction false} FeedLinked(s: State, hash: seq<RpnOp> -> nat, events: seq<Event>)
    requires ValidState(s)
    ensures var (st, s') := Feed(s, hash, events);
            ValidState(s') && (st, Linked(s')) == SymFeed(Linked(s), events)
    decreases |events|
  {
    if events != [] {
      match events[0] {
        case Span(off, len) => LinkAppend(s.pools.Decoded(), s.build.ir, Literal(off, len));
        case TagOf(tag) => ProcessLinked(s, hash, tag);
      }
      var (st, s') := ProcessEvent(s, hash, events[0]);
      if st == Success { FeedLinked(s', hash, events[1..]); }
    }
  }
}
