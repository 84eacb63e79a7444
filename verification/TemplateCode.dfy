/** Well-nested template trees, the code a tree stands for, and the proof that feeding a tree's tags
    one by one to the patching tag handlers builds exactly that code. */
module TemplateCode {
  import opened Helpers
  import opened TemplateExpr
  import opened TemplatePools
  import opened TemplateIR

  /** A template as a list of items; `next` is the rest of the list. */
  datatype Tree =
    | Nil
    | Text(off: nat, len: nat, next: Tree)
    | Put(e: Expr, next: Tree)
    | Cond(test: Expr, thn: Tree, rest: Chain, next: Tree)
    | Loop(v: string, e: Expr, body: Tree, next: Tree)

  /** What follows the first branch of an `if`. */
  datatype Chain = NoElse | Otherwise(body: Tree) | OrElse(test: Expr, thn: Tree, rest: Chain)

  predicate WellTyped(t: Tree) {
    match t
    case Nil => true
    case Text(_, _, next) => WellTyped(next)
    case Put(e, next) => WellFormed(e) && WellTyped(next)
    case Cond(c, thn, rest, next) => WellFormed(c) && WellTyped(thn) && WellTypedChain(rest) && WellTyped(next)
    case Loop(_, e, body, next) => WellFormed(e) && WellTyped(body) && WellTyped(next)
  }

  predicate WellTypedChain(c: Chain) {
    match c
    case NoElse => true
    case Otherwise(b) => WellTyped(b)
    case OrElse(e, thn, rest) => WellFormed(e) && WellTyped(thn) && WellTypedChain(rest)
  }

  /** The events of a well-nested template, in file order. */
  function Events(t: Tree): seq<Event> {
    match t
    case Nil => []
    case Text(off, len, next) => [Span(off, len)] + Events(next)
    case Put(e, next) => [TagOf(TagVar(Print(e, 0)))] + Events(next)
    case Cond(c, thn, rest, next) =>
      [TagOf(TagIf(Print(c, 0)))] + (Events(thn) + (ChainEvents(rest) + ([TagOf(TagEndIf)] + Events(next))))
    case Loop(v, e, body, next) =>
      [TagOf(TagFor([Id(v), KeywordIn] + Print(e, 0)))] + (Events(body) + ([TagOf(TagEndFor)] + Events(next)))
  }

  function ChainEvents(c: Chain): seq<Event> {
    match c
    case NoElse => []
    case Otherwise(b) => [TagOf(TagElse)] + Events(b)
    case OrElse(e, thn, rest) => [TagOf(TagElif(Print(e, 0)))] + (Events(thn) + ChainEvents(rest))
  }

  /** Number of instructions a tree compiles to. */
  function Size(t: Tree): nat {
    match t
    case Nil => 0
    case Text(_, _, next) => 1 + Size(next)
    case Put(_, next) => 1 + Size(next)
    case Cond(_, thn, rest, next) => 1 + Size(thn) + ChainSize(rest) + 1 + Size(next)
    case Loop(_, _, body, next) => 1 + Size(body) + 1 + Size(next)
  }

  function ChainSize(c: Chain): nat {
    match c
    case NoElse => 0
    case Otherwise(b) => 2 + Size(b)
    case OrElse(_, thn, rest) => 2 + Size(thn) + ChainSize(rest)
  }

  /** Where a failing condition goes when the rest of its block starts at `at`: past the jump. */
  function ChainEntry(c: Chain, at: nat): nat {
    if c.NoElse? then at else at + 1
  }

  /** The code of a tree placed at address `lo`, with final jump targets. */
  function Generate(t: Tree, lo: nat): (code: seq<SymOp>)
    ensures |code| == Size(t)
  {
    match t
    case Nil => []
    case Text(off, len, next) => [Literal(off, len)] + Generate(next, lo + 1)
    case Put(e, next) => [Show(PostOrder(e))] + Generate(next, lo + 1)
    case Cond(c, thn, rest, next) =>
      var mid := lo + 1 + Size(thn);
      var end := mid + ChainSize(rest);
      [If(ChainEntry(rest, mid), PostOrder(c), false)] + Generate(thn, lo + 1) + GenerateChain(rest, mid, end)
        + [EndIf] + Generate(next, end + 1)
    case Loop(v, e, body, next) =>
      var end := lo + 1 + Size(body);
      [For(end, PostOrder(e), v, false)] + Generate(body, lo + 1) + [EndFor(end, PostOrder(e), v)]
        + Generate(next, end + 1)
  }

  function GenerateChain(c: Chain, at: nat, end: nat): (code: seq<SymOp>)
    ensures |code| == ChainSize(c)
  {
    match c
    case NoElse => []
    case Otherwise(b) => [Jump(end, false), Else] + Generate(b, at + 2)
    case OrElse(e, thn, rest) =>
      var mid := at + 2 + Size(thn);
      [Jump(end, false), Elif(ChainEntry(rest, mid), PostOrder(e), false)] + Generate(thn, at + 2)
        + GenerateChain(rest, mid, end)
  }

  /** What closing a block does to the code before its last part: the frame's jumps go to the end,
      its open conditional `c` goes to `entry`. */
  function SettleFrame(ir: seq<SymOp>, jumps: seq<nat>, c: nat, entry: nat, end: nat): (r: seq<SymOp>)
    ensures |r| == |ir|
  {
    seq(|ir|, i requires 0 <= i < |ir| =>
      if i in jumps then Jump(end, false) else if i == c then AimConditional(ir[i], entry) else ir[i])
  }

  /** A frame holds jumps and, last, the conditional still open. */
  predicate OpenFrame(ir: seq<SymOp>, jumps: seq<nat>, c: nat) {
    c < |ir| && Conditional(ir[c]) && forall j <- jumps :: j < |ir| && ir[j].Jump?
  }

  lemma SymFeedCons(b: SymBuild, ev: Event, more: seq<Event>)
    ensures SymFeed(b, [ev] + more) == var r := SymEvent(b, ev); if r.0 != Success then r else SymFeed(r.1, more)
  {
    assert ([ev] + more)[1..] == more;
  }

  lemma {:induction false} DropKeepsJumps(ir: seq<SymOp>, jumps: seq<nat>)
    requires forall j <- jumps :: j < |ir| && ir[j].Jump?
    ensures DropConditionals(ir, jumps) == jumps
    decreases |jumps|
  {
    if jumps != [] {
      assert Last(jumps) in jumps;
      DropKeepsJumps(ir, Front(jumps));
      assert Front(jumps) + [Last(jumps)] == jumps;
    }
  }

  /** Closing a branch leaves the frame's jumps and the new one, and settles the conditional. */
  lemma CloseBranchSettles(b: SymBuild, outer: seq<seq<nat>>, jumps: seq<nat>, c: nat)
    requires b.frames == outer + [jumps + [c]] && OpenFrame(b.ir, jumps, c)
    ensures CloseBranch(b) == Build(b.ir[c := AimConditional(b.ir[c], |b.ir| + 1)] + [Jump(0, true)],
                                    outer + [jumps + [|b.ir|]])
  {
    var frame := jumps + [c];
    assert Last(b.frames) == frame && Front(b.frames) == outer;
    var ir := b.ir + [Jump(0, true)];
    var ir' := PatchConditionals(ir, frame, |ir|);
    assert ir' == b.ir[c := AimConditional(b.ir[c], |ir|)] + [Jump(0, true)];
    assert Front(frame) == jumps && Last(frame) == c;
    DropKeepsJumps(ir', jumps);
  }

  /** Closing the block settles the last frame. */
  lemma CloseIfSettles(b: SymBuild, outer: seq<seq<nat>>, jumps: seq<nat>, c: nat)
    requires b.frames == outer + [jumps + [c]] && OpenFrame(b.ir, jumps, c)
    ensures CloseIf(b) == Build(SettleFrame(b.ir, jumps, c, |b.ir|, |b.ir|) + [EndIf], outer)
  {
    assert Last(b.frames) == jumps + [c] && Front(b.frames) == outer;
    assert PatchEnd(b.ir, jumps + [c], |b.ir|) == SettleFrame(b.ir, jumps, c, |b.ir|, |b.ir|);
  }

  // One tag each: what it does to the build, and that feeding goes on behind it.

  lemma StepText(b: SymBuild, off: nat, len: nat, more: seq<Event>)
    ensures SymFeed(b, [Span(off, len)] + more) == SymFeed(AddOp(b, Literal(off, len)), more)
  {
    SymFeedCons(b, Span(off, len), more);
  }

  lemma StepVar(b: SymBuild, e: Expr, more: seq<Event>)
    requires WellFormed(e)
    ensures SymFeed(b, [TagOf(TagVar(Print(e, 0)))] + more) == SymFeed(AddOp(b, Show(PostOrder(e))), more)
  {
    ParseInvertsPrint(e);
    SymFeedCons(b, TagOf(TagVar(Print(e, 0))), more);
  }

  lemma StepIf(b: SymBuild, e: Expr, more: seq<Event>)
    requires WellFormed(e)
    ensures SymFeed(b, [TagOf(TagIf(Print(e, 0)))] + more) == SymFeed(OpenIf(b, PostOrder(e)), more)
  {
    ParseInvertsPrint(e);
    SymFeedCons(b, TagOf(TagIf(Print(e, 0))), more);
  }

  lemma StepElif(b: SymBuild, e: Expr, more: seq<Event>)
    requires WellFormed(e) && InBlock(b)
    ensures SymFeed(b, [TagOf(TagElif(Print(e, 0)))] + more) == SymFeed(AddElif(CloseBranch(b), PostOrder(e)), more)
  {
    ParseInvertsPrint(e);
    SymFeedCons(b, TagOf(TagElif(Print(e, 0))), more);
  }

  lemma StepElse(b: SymBuild, more: seq<Event>)
    requires InBlock(b)
    ensures SymFeed(b, [TagOf(TagElse)] + more) == SymFeed(AddOp(CloseBranch(b), Else), more)
  {
    SymFeedCons(b, TagOf(TagElse), more);
  }

  lemma StepEndIf(b: SymBuild, more: seq<Event>)
    requires b.frames != []
    ensures SymFeed(b, [TagOf(TagEndIf)] + more) == SymFeed(CloseIf(b), more)
  {
    SymFeedCons(b, TagOf(TagEndIf), more);
  }

  lemma StepFor(b: SymBuild, v: string, e: Expr, more: seq<Event>)
    requires WellFormed(e)
    ensures SymFeed(b, [TagOf(TagFor([Id(v), KeywordIn] + Print(e, 0)))] + more)
            == SymFeed(OpenFor(b, PostOrder(e), v), more)
  {
    var toks := [Id(v), KeywordIn] + Print(e, 0);
    assert toks[2..] == Print(e, 0);
    ParseInvertsPrint(e);
    SymFeedCons(b, TagOf(TagFor(toks)), more);
  }

  lemma StepEndFor(b: SymBuild, more: seq<Event>)
    requires b.frames != [] && ClosesLoop(b)
    ensures SymFeed(b, [TagOf(TagEndFor)] + more) == SymFeed(CloseFor(b), more)
  {
    SymFeedCons(b, TagOf(TagEndFor), more);
  }

  /** Feeding a well-nested tree appends its code and leaves the frames alone. */
  lemma {:induction false} FeedTree(b: SymBuild, t: Tree, more: seq<Event>)
    requires WellTyped(t)
    ensures SymFeed(b, Events(t) + more) == SymFeed(Build(b.ir + Generate(t, |b.ir|), b.frames), more)
    decreases t, 1
  {
    hide SymFeed, SymEvent;
    match t
    case Nil =>
      assert Events(t) + more == more && b.ir + Generate(t, |b.ir|) == b.ir;
    case Text(off, len, next) =>
      Assoc([Span(off, len)], Events(next), more);
      StepText(b, off, len, Events(next) + more);
      FeedTree(AddOp(b, Literal(off, len)), next, more);
      Assoc(b.ir, [Literal(off, len)], Generate(next, |b.ir| + 1));
    case Put(e, next) =>
      Assoc([TagOf(TagVar(Print(e, 0)))], Events(next), more);
      StepVar(b, e, Events(next) + more);
      FeedTree(AddOp(b, Show(PostOrder(e))), next, more);
      Assoc(b.ir, [Show(PostOrder(e))], Generate(next, |b.ir| + 1));
    case Cond(c, thn, rest, next) => FeedCond(b, c, thn, rest, next, more);
    case Loop(v, e, body, next) => FeedLoop(b, v, e, body, next, more);
  }

  lemma Assoc5<T>(a: seq<T>, b: seq<T>, c: seq<T>, d: seq<T>, e: seq<T>, f: seq<T>)
    ensures a + b + c + d + e + f == a + (b + c + d + e + f)
  {
  }

  lemma AssocRight<T>(a: seq<T>, b: seq<T>, c: seq<T>, d: seq<T>, e: seq<T>, more: seq<T>)
    ensures a + (b + (c + (d + e))) + more == a + (b + (c + (d + (e + more))))
  {
  }

  lemma SettleAlone(ir: seq<SymOp>, e: seq<Sym>, seg: seq<SymOp>, entry: nat, end: nat)
    ensures SettleFrame(ir + [If(0, e, true)] + seg, [], |ir|, entry, end) == ir + [If(entry, e, false)] + seg
  {
  }

  lemma CondEvents(c: Expr, thn: Tree, rest: Chain, next: Tree, more: seq<Event>)
    ensures Events(Cond(c, thn, rest, next)) + more
         == [TagOf(TagIf(Print(c, 0)))]
             + (Events(thn) + (ChainEvents(rest) + ([TagOf(TagEndIf)] + (Events(next) + more))))
  {
    hide Print, ChainEvents;
    AssocRight([TagOf(TagIf(Print(c, 0)))], Events(thn), ChainEvents(rest), [TagOf(TagEndIf)], Events(next), more);
  }

  lemma TextCode(off: nat, len: nat, next: Tree, lo: nat)
    ensures Generate(Text(off, len, next), lo) == [Literal(off, len)] + Generate(next, lo + 1)
  {
  }

  lemma PutCode(e: Expr, next: Tree, lo: nat)
    ensures Generate(Put(e, next), lo) == [Show(PostOrder(e))] + Generate(next, lo + 1)
  {
  }

  lemma EmptyCode(lo: nat)
    ensures Generate(Nil, lo) == []
  {
  }

  lemma ChainCode(c: Chain, at: nat, end: nat)
    ensures c.NoElse? ==> GenerateChain(c, at, end) == []
    ensures c.Otherwise? ==> GenerateChain(c, at, end) == [Jump(end, false), Else] + Generate(c.body, at + 2)
    ensures c.OrElse? ==>
              var mid := at + 2 + Size(c.thn);
              GenerateChain(c, at, end) == [Jump(end, false), Elif(ChainEntry(c.rest, mid), PostOrder(c.test), false)]
                + Generate(c.thn, at + 2) + GenerateChain(c.rest, mid, end)
  {
  }

  lemma {:induction false} CondCode(c: Expr, thn: Tree, rest: Chain, next: Tree, lo: nat)
    ensures var mid := lo + 1 + Size(thn);
            var end := mid + ChainSize(rest);
      && Generate(Cond(c, thn, rest, next), lo) == [If(ChainEntry(rest, mid), PostOrder(c), false)]
          + Generate(thn, lo + 1)
           + GenerateChain(rest, mid, end) + [EndIf] + Generate(next, end + 1)
      && |Generate(thn, lo + 1)| == Size(thn) && |GenerateChain(rest, mid, end)| == ChainSize(rest)
  {
    hide PostOrder, Size, ChainSize, GenerateChain, ChainEntry;
  }

  /** An `if` opens a frame with one conditional and no jump. */
  lemma OpenIfFrames(b: SymBuild, e: seq<Sym>, seg: seq<SymOp>)
    ensures var b' := Build(OpenIf(b, e).ir + seg, OpenIf(b, e).frames);
            && OpenIf(b, e).ir == b.ir + [If(0, e, true)]
            && b'.frames == b.frames + [[] + [|b.ir|]] && OpenFrame(b'.ir, [], |b.ir|)
  {
    assert [] + [|b.ir|] == [|b.ir|];
  }

  lemma {:induction false} FeedCond(b: SymBuild, c: Expr, thn: Tree, rest: Chain, next: Tree, more: seq<Event>)
    requires WellFormed(c) && WellTyped(thn) && WellTypedChain(rest) && WellTyped(next)
    ensures var t := Cond(c, thn, rest, next);
            SymFeed(b, Events(t) + more) == SymFeed(Build(b.ir + Generate(t, |b.ir|), b.frames), more)
    decreases Cond(c, thn, rest, next), 0
  {
    hide *;
    var lo := |b.ir|;
    var mid := lo + 1 + Size(thn);
    var end := mid + ChainSize(rest);
    var entry := ChainEntry(rest, mid);
    var tail3 := Events(next) + more;
    var tail2 := ChainEvents(rest) + ([TagOf(TagEndIf)] + tail3);
    CondEvents(c, thn, rest, next, more);
    CondCode(c, thn, rest, next, lo);
    StepIf(b, c, Events(thn) + tail2);
    var b1 := OpenIf(b, PostOrder(c));
    OpenIfFrames(b, PostOrder(c), Generate(thn, lo + 1));
    FeedTree(b1, thn, tail2);
    var b2 := Build(b1.ir + Generate(thn, lo + 1), b1.frames);
    FeedChain(b2, b.frames, [], lo, rest, tail3);
    SettleAlone(b.ir, PostOrder(c), Generate(thn, lo + 1), entry, end);
    var b3 := Build(b.ir + [If(entry, PostOrder(c), false)] + Generate(thn, lo + 1) + GenerateChain(rest, mid, end)
                    + [EndIf], b.frames);
    FeedTree(b3, next, more);
    Assoc5(b.ir, [If(entry, PostOrder(c), false)], Generate(thn, lo + 1), GenerateChain(rest, mid, end), [EndIf],
           Generate(next, end + 1));
  }

  /** Feeding the rest of an `if` block and its `endif` settles the frame. */
  lemma {:induction false} FeedChain(b: SymBuild, outer: seq<seq<nat>>, jumps: seq<nat>, c: nat, rest: Chain,
                                     more: seq<Event>)
    requires WellTypedChain(rest)
    requires b.frames == outer + [jumps + [c]] && OpenFrame(b.ir, jumps, c)
    ensures
      var at := |b.ir|;
      var end := at + ChainSize(rest);
      SymFeed(b, ChainEvents(rest) + ([TagOf(TagEndIf)] + more))
        == SymFeed(Build(SettleFrame(b.ir, jumps, c, ChainEntry(rest, at), end) + GenerateChain(rest, at, end)
                         + [EndIf], outer), more)
    decreases rest, 2
  {
    hide SymFeed, SymEvent, SettleFrame;
    match rest
    case NoElse => FeedEndIf(b, outer, jumps, c, more);
    case Otherwise(body) => FeedElse(b, outer, jumps, c, body, more);
    case OrElse(e, thn, rest') => FeedElif(b, outer, jumps, c, e, thn, rest', more);
  }

  lemma FeedEndIf(b: SymBuild, outer: seq<seq<nat>>, jumps: seq<nat>, c: nat, more: seq<Event>)
    requires b.frames == outer + [jumps + [c]] && OpenFrame(b.ir, jumps, c)
    ensures SymFeed(b, [] + ([TagOf(TagEndIf)] + more))
         == SymFeed(Build(SettleFrame(b.ir, jumps, c, |b.ir|, |b.ir|) + [] + [EndIf], outer), more)
  {
    assert [] + ([TagOf(TagEndIf)] + more) == [TagOf(TagEndIf)] + more;
    StepEndIf(b, more);
    CloseIfSettles(b, outer, jumps, c);
    var ir := SettleFrame(b.ir, jumps, c, |b.ir|, |b.ir|);
    assert ir + [] == ir;
  }

  lemma SettleElse(ir: seq<SymOp>, jumps: seq<nat>, c: nat, seg: seq<SymOp>, end: nat)
    requires OpenFrame(ir, jumps, c)
    ensures PatchEnd(ir[c := AimConditional(ir[c], |ir| + 1)] + [Jump(0, true)] + [Else] + seg, jumps + [|ir|], end)
         == SettleFrame(ir, jumps, c, |ir| + 1, end) + ([Jump(end, false), Else] + seg)
  {
  }

  lemma {:induction false} FeedElse(b: SymBuild, outer: seq<seq<nat>>, jumps: seq<nat>, c: nat, body: Tree,
                                    more: seq<Event>)
    requires WellTyped(body)
    requires b.frames == outer + [jumps + [c]] && OpenFrame(b.ir, jumps, c)
    ensures
      var at := |b.ir|;
      var end := at + 2 + Size(body);
      SymFeed(b, [TagOf(TagElse)] + Events(body) + ([TagOf(TagEndIf)] + more))
        == SymFeed(Build(SettleFrame(b.ir, jumps, c, at + 1, end) + ([Jump(end, false), Else] + Generate(body, at + 2))
                         + [EndIf], outer), more)
    decreases Otherwise(body), 1
  {
    hide SymFeed, SymEvent, CloseBranch, PatchEnd, SettleFrame, Generate;
    var at := |b.ir|;
    var end := at + 2 + Size(body);
    var tail := [TagOf(TagEndIf)] + more;
    Assoc([TagOf(TagElse)], Events(body), tail);
    LastOf(outer, jumps + [c]);
    StepElse(b, Events(body) + tail);
    CloseBranchSettles(b, outer, jumps, c);
    var b1 := AddOp(CloseBranch(b), Else);
    FeedTree(b1, body, tail);
    var b2 := Build(b1.ir + Generate(body, at + 2), b1.frames);
    StepEndIf(b2, more);
    LastOf(outer, jumps + [at]);
    SettleElse(b.ir, jumps, c, Generate(body, at + 2), end);
  }

  lemma LastOf<T>(s: seq<T>, x: T)
    ensures Last(s + [x]) == x && Front(s + [x]) == s
  {
  }

  lemma SettleElif(ir: seq<SymOp>, jumps: seq<nat>, c: nat, e: seq<Sym>, seg: seq<SymOp>, entry: nat, end: nat)
    requires OpenFrame(ir, jumps, c)
    ensures SettleFrame(ir[c := AimConditional(ir[c], |ir| + 1)] + [Jump(0, true)] + [Elif(0, e, true)] + seg,
                        jumps + [|ir|], |ir| + 1, entry, end)
         == SettleFrame(ir, jumps, c, |ir| + 1, end) + ([Jump(end, false), Elif(entry, e, false)] + seg)
  {
  }

  lemma ElifEvents(e: Expr, thn: Tree, rest: Chain, more: seq<Event>)
    ensures ChainEvents(OrElse(e, thn, rest)) + more
         == [TagOf(TagElif(Print(e, 0)))] + (Events(thn) + (ChainEvents(rest) + more))
  {
    hide Print, Events;
    Assoc([TagOf(TagElif(Print(e, 0)))], Events(thn) + ChainEvents(rest), more);
    Assoc(Events(thn), ChainEvents(rest), more);
  }

  lemma ElifCode(e: Expr, thn: Tree, rest: Chain, at: nat)
    ensures var mid := at + 2 + Size(thn);
            var end := mid + ChainSize(rest);
      && ChainSize(OrElse(e, thn, rest)) == 2 + Size(thn) + ChainSize(rest)
      && GenerateChain(OrElse(e, thn, rest), at, end)
          == [Jump(end, false), Elif(ChainEntry(rest, mid), PostOrder(e), false)]
           + Generate(thn, at + 2) + GenerateChain(rest, mid, end)
      && |Generate(thn, at + 2)| == Size(thn) && |GenerateChain(rest, mid, end)| == ChainSize(rest)
  {
    hide PostOrder, Size, Generate;
  }

  /** An `elif` closes the branch before it and leaves its own conditional open. */
  lemma ElifFrames(b: SymBuild, outer: seq<seq<nat>>, jumps: seq<nat>, c: nat, e: seq<Sym>, seg: seq<SymOp>)
    requires b.frames == outer + [jumps + [c]] && OpenFrame(b.ir, jumps, c)
    ensures InBlock(b) && CloseBranch(b).frames != []
    ensures var b1 := AddElif(CloseBranch(b), e);
            && b1.ir == b.ir[c := AimConditional(b.ir[c], |b.ir| + 1)] + [Jump(0, true)] + [Elif(0, e, true)]
            && b1.frames == outer + [jumps + [|b.ir|] + [|b.ir| + 1]]
            && OpenFrame(b1.ir + seg, jumps + [|b.ir|], |b.ir| + 1)
  {
    LastOf(outer, jumps + [c]);
    CloseBranchSettles(b, outer, jumps, c);
    LastOf(outer, jumps + [|b.ir|]);
  }

  lemma {:induction false} FeedElif(b: SymBuild, outer: seq<seq<nat>>, jumps: seq<nat>, c: nat, e: Expr, thn: Tree,
                                    rest: Chain, more: seq<Event>)
    requires WellFormed(e) && WellTyped(thn) && WellTypedChain(rest)
    requires b.frames == outer + [jumps + [c]] && OpenFrame(b.ir, jumps, c)
    ensures
      var chain := OrElse(e, thn, rest);
      var at := |b.ir|;
      var end := at + ChainSize(chain);
      SymFeed(b, ChainEvents(chain) + ([TagOf(TagEndIf)] + more))
        == SymFeed(Build(SettleFrame(b.ir, jumps, c, at + 1, end) + GenerateChain(chain, at, end) + [EndIf], outer),
                   more)
    decreases OrElse(e, thn, rest), 1
  {
    hide *;
    var at := |b.ir|;
    var mid := at + 2 + Size(thn);
    var end := mid + ChainSize(rest);
    var entry := ChainEntry(rest, mid);
    var tail := [TagOf(TagEndIf)] + more;
    var tail2 := ChainEvents(rest) + tail;
    ElifEvents(e, thn, rest, tail);
    ElifCode(e, thn, rest, at);
    ElifFrames(b, outer, jumps, c, PostOrder(e), Generate(thn, at + 2));
    StepElif(b, e, Events(thn) + tail2);
    var b1 := AddElif(CloseBranch(b), PostOrder(e));
    FeedTree(b1, thn, tail2);
    var b2 := Build(b1.ir + Generate(thn, at + 2), b1.frames);
    FeedChain(b2, outer, jumps + [at], at + 1, rest, more);
    SettleElif(b.ir, jumps, c, PostOrder(e), Generate(thn, at + 2), entry, end);
    Assoc(SettleFrame(b.ir, jumps, c, at + 1, end), [Jump(end, false), Elif(entry, PostOrder(e), false)]
          + Generate(thn, at + 2), GenerateChain(rest, mid, end));
  }

  /** An `endfor` finds its loop head and settles it. */
  lemma CloseForSettles(b: SymBuild, e: seq<Sym>, v: string, seg: seq<SymOp>)
    ensures
      var b1 := OpenFor(b, e, v);
      var b2 := Build(b1.ir + seg, b1.frames);
      var end := |b.ir| + 1 + |seg|;
      && |b1.ir| == |b.ir| + 1 && b2.frames != []
      && ClosesLoop(b2) && CloseFor(b2) == Build(b.ir + [For(end, e, v, false)] + seg + [EndFor(end, e, v)], b.frames)
  {
    LastOf(b.frames, [|b.ir|]);
  }

  lemma LoopEvents(v: string, e: Expr, body: Tree, next: Tree, more: seq<Event>)
    ensures Events(Loop(v, e, body, next)) + more
         == [TagOf(TagFor([Id(v), KeywordIn] + Print(e, 0)))]
             + (Events(body) + ([TagOf(TagEndFor)] + (Events(next) + more)))
  {
    hide Print;
    var head := [TagOf(TagFor([Id(v), KeywordIn] + Print(e, 0)))];
    Assoc(head, Events(body) + ([TagOf(TagEndFor)] + Events(next)), more);
    Assoc(Events(body), [TagOf(TagEndFor)] + Events(next), more);
    Assoc([TagOf(TagEndFor)], Events(next), more);
  }

  lemma LoopCode(v: string, e: Expr, body: Tree, next: Tree, lo: nat)
    ensures var end := lo + 1 + Size(body);
      && Generate(Loop(v, e, body, next), lo) == [For(end, PostOrder(e), v, false)] + Generate(body, lo + 1)
           + [EndFor(end, PostOrder(e), v)] + Generate(next, end + 1)
      && |Generate(body, lo + 1)| == Size(body)
  {
    hide PostOrder, Size, GenerateChain;
  }

  lemma Assoc4<T>(a: seq<T>, b: seq<T>, c: seq<T>, d: seq<T>, e: seq<T>)
    ensures a + b + c + d + e == a + (b + c + d + e)
  {
  }

  lemma {:induction false} FeedLoop(b: SymBuild, v: string, e: Expr, body: Tree, next: Tree, more: seq<Event>)
    requires WellFormed(e) && WellTyped(body) && WellTyped(next)
    ensures var t := Loop(v, e, body, next);
            SymFeed(b, Events(t) + more) == SymFeed(Build(b.ir + Generate(t, |b.ir|), b.frames), more)
    decreases Loop(v, e, body, next), 0
  {
    hide *;
    var lo := |b.ir|;
    var end := lo + 1 + Size(body);
    var tail2 := [TagOf(TagEndFor)] + (Events(next) + more);
    LoopEvents(v, e, body, next, more);
    LoopCode(v, e, body, next, lo);
    StepFor(b, v, e, Events(body) + tail2);
    CloseForSettles(b, PostOrder(e), v, Generate(body, lo + 1));
    FeedTree(OpenFor(b, PostOrder(e), v), body, tail2);
    var b2 := Build(OpenFor(b, PostOrder(e), v).ir + Generate(body, lo + 1), OpenFor(b, PostOrder(e), v).frames);
    StepEndFor(b2, Events(next) + more);
    FeedTree(CloseFor(b2), next, more);
    Assoc4(b.ir, [For(end, PostOrder(e), v, false)], Generate(body, lo + 1), [EndFor(end, PostOrder(e), v)],
           Generate(next, end + 1));
  }
  predicate NoneOpen<E, V>(ir: seq<Op<E, V>>) {
    forall i | 0 <= i < |ir| :: !Open(ir[i])
  }

  lemma NoneOpenOne(op: SymOp)
    requires !Open(op)
    ensures NoneOpen([op])
  {
  }

  lemma NoneOpenConcat(a: seq<SymOp>, b: seq<SymOp>)
    requires NoneOpen(a) && NoneOpen(b)
    ensures NoneOpen(a + b)
  {
  }

  lemma NoneOpenEmpty()
    ensures NoneOpen<seq<Sym>, string>([])
  {
  }

  lemma NoneOpenCond(head: SymOp, a: seq<SymOp>, b: seq<SymOp>, c: seq<SymOp>)
    requires !Open(head) && NoneOpen(a) && NoneOpen(b) && NoneOpen(c)
    ensures NoneOpen([head] + a + b + [EndIf] + c)
  {
  }

  lemma NoneOpenLoop(head: SymOp, a: seq<SymOp>, tail: SymOp, b: seq<SymOp>)
    requires !Open(head) && !Open(tail) && NoneOpen(a) && NoneOpen(b)
    ensures NoneOpen([head] + a + [tail] + b)
  {
  }

  lemma {:induction false} GeneratedClosed(t: Tree, lo: nat)
    ensures NoneOpen(Generate(t, lo))
    decreases t
  {
    hide NoneOpen, PostOrder, Generate, GenerateChain, Size, ChainSize;
    match t
    case Nil => NilClosed(lo);
    case Text(off, len, next) =>
      GeneratedClosed(next, lo + 1);
      TextClosed(off, len, next, lo);
    case Put(e, next) =>
      GeneratedClosed(next, lo + 1);
      PutClosed(e, next, lo);
    case Cond(c, thn, rest, next) =>
      var mid := lo + 1 + Size(thn);
      var end := mid + ChainSize(rest);
      GeneratedClosed(thn, lo + 1);
      GeneratedChainClosed(rest, mid, end);
      GeneratedClosed(next, end + 1);
      CondCode(c, thn, rest, next, lo);
      NoneOpenCond(If(ChainEntry(rest, mid), PostOrder(c), false), Generate(thn, lo + 1),
                   GenerateChain(rest, mid, end), Generate(next, end + 1));
    case Loop(v, e, body, next) =>
      var end := lo + 1 + Size(body);
      GeneratedClosed(body, lo + 1);
      GeneratedClosed(next, end + 1);
      LoopClosed(v, e, body, next, lo);
  }

  lemma NilClosed(lo: nat)
    ensures NoneOpen(Generate(Nil, lo))
  {
  }

  lemma {:induction false} TextClosed(off: nat, len: nat, next: Tree, lo: nat)
    requires NoneOpen(Generate(next, lo + 1))
    ensures NoneOpen(Generate(Text(off, len, next), lo))
  {
    hide NoneOpen;
    NoneOpenOne(Literal(off, len));
    NoneOpenConcat([Literal(off, len)], Generate(next, lo + 1));
  }

  lemma {:induction false} PutClosed(e: Expr, next: Tree, lo: nat)
    requires NoneOpen(Generate(next, lo + 1))
    ensures NoneOpen(Generate(Put(e, next), lo))
  {
    hide NoneOpen, PostOrder;
    NoneOpenOne(Show(PostOrder(e)));
    NoneOpenConcat([Show(PostOrder(e))], Generate(next, lo + 1));
  }

  lemma {:induction false} LoopClosed(v: string, e: Expr, body: Tree, next: Tree, lo: nat)
    requires NoneOpen(Generate(body, lo + 1)) && NoneOpen(Generate(next, lo + 1 + Size(body) + 1))
    ensures NoneOpen(Generate(Loop(v, e, body, next), lo))
  {
    hide NoneOpen, PostOrder, Size;
    var end := lo + 1 + Size(body);
    NoneOpenLoop(For(end, PostOrder(e), v, false), Generate(body, lo + 1), EndFor(end, PostOrder(e), v),
                 Generate(next, end + 1));
  }

  lemma {:induction false} GeneratedChainClosed(c: Chain, at: nat, end: nat)
    ensures NoneOpen(GenerateChain(c, at, end))
    decreases c
  {
    hide PostOrder, Generate, Size, ChainSize, NoneOpen;
    match c
    case NoElse => NoneOpenEmpty();
    case Otherwise(b) =>
      GeneratedClosed(b, at + 2);
      NoneOpenPair(Jump(end, false), Else);
      NoneOpenConcat([Jump(end, false), Else], Generate(b, at + 2));
    case OrElse(e, thn, rest) =>
      var mid := at + 2 + Size(thn);
      var head := [Jump(end, false), Elif(ChainEntry(rest, mid), PostOrder(e), false)];
      GeneratedClosed(thn, at + 2);
      GeneratedChainClosed(rest, mid, end);
      NoneOpenPair(head[0], head[1]);
      NoneOpenConcat(head, Generate(thn, at + 2));
      NoneOpenConcat(head + Generate(thn, at + 2), GenerateChain(rest, mid, end));
  }

  lemma NoneOpenPair(a: SymOp, b: SymOp)
    requires !Open(a) && !Open(b)
    ensures NoneOpen([a, b])
  {
  }

  lemma InitialLinked()
    ensures ValidState(INITIAL) && Linked(INITIAL) == Build([], [])
  {
  }

  lemma NoneOpenLinked(lib: Library, ir: seq<Op<nat, nat>>)
    requires InRange(lib, ir) && NoneOpen(Link(lib, ir))
    ensures NoneOpen(ir)
  {
    forall i | 0 <= i < |ir| ensures !Open(ir[i]) {
      assert Link(lib, ir)[i] == LinkOp(lib, ir[i]) && !Open(Link(lib, ir)[i]);
    }
  }

  lemma LinkedIs(s: State)
    requires ValidState(s)
    ensures InRange(s.pools.Decoded(), s.build.ir)
    ensures Linked(s) == Build(Link(s.pools.Decoded(), s.build.ir), s.build.frames)
  {
  }

  /** Feeding the events of any well-nested template to the tag handlers succeeds, closes every
      frame, leaves no instruction unpatched, and the code built is the tree's code. */
  lemma CompilesToGenerated(hash: seq<RpnOp> -> nat, t: Tree)
    requires WellTyped(t)
    ensures var (st, s) := Feed(INITIAL, hash, Events(t));
            && st == Success && ValidState(s) && s.build.frames == [] && NoneOpen(s.build.ir)
            && InRange(s.pools.Decoded(), s.build.ir)
            && Link(s.pools.Decoded(), s.build.ir) == Generate(t, 0)
  {
    hide *;
    InitialLinked();
    FeedLinked(INITIAL, hash, Events(t));
    FeedTree(Build([], []), t, []);
    NothingLeft(t);
    var (st, s) := Feed(INITIAL, hash, Events(t));
    LinkedIs(s);
    GeneratedClosed(t, 0);
    NoneOpenLinked(s.pools.Decoded(), s.build.ir);
  }

  lemma NothingLeft(t: Tree)
    ensures Events(t) + [] == Events(t) && [] + Generate(t, 0) == Generate(t, 0)
    ensures forall b :: SymFeed(b, []) == (Success, b)
  {
  }
}
