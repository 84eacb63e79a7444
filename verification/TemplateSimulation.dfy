/** Running the code of a template tree is reading the tree. */
module TemplateSimulation {
  import opened TemplateExpr
  import opened TemplateValues
  import opened TemplateIR
  import opened TemplateCode
  import opened TemplateMachine

  /** The context without loop counters: what the structured reading sees. */
  function Visible(ctx: Context): Context {
    map k | k in ctx && !Reserved(k) :: ctx[k]
  }

  predicate At(code: seq<SymOp>, lo: nat, seg: seq<SymOp>) {
    lo + |seg| <= |code| && code[lo..lo + |seg|] == seg
  }

  lemma AtSplit(code: seq<SymOp>, lo: nat, a: seq<SymOp>, b: seq<SymOp>)
    requires At(code, lo, a + b)
    ensures At(code, lo, a) && At(code, lo + |a|, b)
  {
    assert code[lo..lo + |a + b|][..|a|] == a && code[lo..lo + |a + b|][|a|..] == b;
  }

  lemma AtHead(code: seq<SymOp>, lo: nat, op: SymOp, b: seq<SymOp>)
    requires At(code, lo, [op] + b)
    ensures lo < |code| && code[lo] == op && At(code, lo + 1, b)
  {
    AtSplit(code, lo, [op], b);
    assert code[lo..lo + 1][0] == op;
  }

  /** Counters of loops ending outside [lo, hi) are as they were. */
  ghost predicate CountersKept(ctx: Context, ctx': Context, lo: nat, hi: nat) {
    forall j: nat | !(lo <= j < hi) :: Lookup(ctx', LoopKey(j)) == Lookup(ctx, LoopKey(j))
  }

  lemma CountersJoin(a: Context, b: Context, c: Context, lo: nat, mid: nat, hi: nat)
    requires lo <= mid <= hi && CountersKept(a, b, lo, mid) && CountersKept(b, c, mid, hi)
    ensures CountersKept(a, c, lo, hi)
  {
    forall j: nat | !(lo <= j < hi) ensures Lookup(c, LoopKey(j)) == Lookup(a, LoopKey(j)) {
      assert Lookup(b, LoopKey(j)) == Lookup(a, LoopKey(j));
    }
  }

  lemma CountersWiden(a: Context, b: Context, lo: nat, hi: nat, lo': nat, hi': nat)
    requires lo' <= lo && hi <= hi' && CountersKept(a, b, lo, hi)
    ensures CountersKept(a, b, lo', hi')
  {
    forall j: nat | !(lo' <= j < hi') ensures Lookup(b, LoopKey(j)) == Lookup(a, LoopKey(j)) {
    }
  }

  /** In the machine's context an expression has the value it has in the visible one. */
  lemma EvalVisible(m: Meaning, ctx: Context, e: Expr)
    requires WellFormed(e) && Unreserved(Roots(e))
    ensures EvalRpn(m, ctx, PostOrder(e)) == EvalTree(m, Visible(ctx), e)
  {
    RpnEvaluatesTree(m, ctx, e);
    EvalReadsRoots(m, ctx, Visible(ctx), e);
  }

  // ---------------------------------------------------------------- runs

  /** From c the code reaches c' having produced `out`. */
  ghost predicate Reaches(sem: Semantics, code: seq<SymOp>, c: Config, c': Config, out: seq<Chunk>) {
    exists n: nat :: Run(sem, code, c, n) == (c', out)
  }

  lemma ReachesNow(sem: Semantics, code: seq<SymOp>, c: Config)
    ensures Reaches(sem, code, c, c, [])
  {
    assert Run(sem, code, c, 0) == (c, []);
  }

  lemma ReachesJoin(sem: Semantics, code: seq<SymOp>, c0: Config, c1: Config, c2: Config, out1: seq<Chunk>,
                    out2: seq<Chunk>)
    requires Reaches(sem, code, c0, c1, out1) && Reaches(sem, code, c1, c2, out2)
    ensures Reaches(sem, code, c0, c2, out1 + out2)
  {
    var m: nat :| Run(sem, code, c0, m) == (c1, out1);
    var n: nat :| Run(sem, code, c1, n) == (c2, out2);
    RunAdd(sem, code, c0, m, n);
  }

  lemma ReachesMove(sem: Semantics, code: seq<SymOp>, c0: Config, c1: Config)
    requires StepOf(sem, code, c0) == Move(c1)
    ensures Reaches(sem, code, c0, c1, [])
  {
    assert Run(sem, code, c1, 0) == (c1, []);
    assert Run(sem, code, c0, 1) == (c1, []);
  }

  lemma ReachesEmit(sem: Semantics, code: seq<SymOp>, c: Config, chunk: Chunk, next: nat)
    requires StepOf(sem, code, c) == Emit(chunk, next)
    ensures Reaches(sem, code, c, Config(next, next, c.ctx), [chunk])
  {
    var c1 := Config(next, next, c.ctx);
    assert Run(sem, code, c1, 0) == (c1, []);
    assert [chunk] + [] == [chunk];
    assert Run(sem, code, c, 1) == (c1, [chunk]);
  }

  lemma MoveThen(sem: Semantics, code: seq<SymOp>, c0: Config, c1: Config, c2: Config, out: seq<Chunk>)
    requires StepOf(sem, code, c0) == Move(c1) && Reaches(sem, code, c1, c2, out)
    ensures Reaches(sem, code, c0, c2, out)
  {
    ReachesMove(sem, code, c0, c1);
    ReachesJoin(sem, code, c0, c1, c2, [], out);
    assert [] + out == out;
  }

  lemma ThenMove(sem: Semantics, code: seq<SymOp>, c0: Config, c1: Config, c2: Config, out: seq<Chunk>)
    requires Reaches(sem, code, c0, c1, out) && StepOf(sem, code, c1) == Move(c2)
    ensures Reaches(sem, code, c0, c2, out)
  {
    ReachesMove(sem, code, c1, c2);
    ReachesJoin(sem, code, c0, c1, c2, out, []);
    assert out + [] == out;
  }

  lemma {:induction false} EndStays(sem: Semantics, code: seq<SymOp>, c: Config, n: nat)
    requires StepOf(sem, code, c) == End
    ensures Run(sem, code, c, n) == (c, [])
  {
  }

  /** A run reaches the end in one way only. */
  lemma EndUnique(sem: Semantics, code: seq<SymOp>, c: Config, c1: Config, c2: Config, out1: seq<Chunk>,
                  out2: seq<Chunk>)
    requires Reaches(sem, code, c, c1, out1) && StepOf(sem, code, c1) == End
    requires Reaches(sem, code, c, c2, out2) && StepOf(sem, code, c2) == End
    ensures c1 == c2 && out1 == out2
  {
    var m: nat :| Run(sem, code, c, m) == (c1, out1);
    var n: nat :| Run(sem, code, c, n) == (c2, out2);
    RunAdd(sem, code, c, m, n);
    RunAdd(sem, code, c, n, m);
    EndStays(sem, code, c1, n);
    EndStays(sem, code, c2, m);
    assert out1 + [] == out1 && out2 + [] == out2;
  }

  // ---------------------------------------------------------------- loop entry and loop end

  lemma EnterLoopVisible(c: Config, arr: Ref, target: nat, v: string)
    requires !Reserved(v) && arr.Elements() != []
    ensures var d := EnterLoop(c, arr, target, v);
            && d.pc == c.pc + 1 && d.state == c.state && Visible(d.ctx) == Visible(c.ctx)[v := arr.Elements()[0]]
            && Lookup(d.ctx, LoopKey(target)) == Live(Num(Pack(c.pc + 1, 1)))
            && CountersKept(c.ctx, d.ctx, target, target + 1)
  {
    var d := EnterLoop(c, arr, target, v);
    LoopKeyInjective(target, target);
    forall j: nat | j != target ensures Lookup(d.ctx, LoopKey(j)) == Lookup(c.ctx, LoopKey(j)) {
      LoopKeyInjective(j, target);
    }
  }

  lemma NextRoundVisible(c: Config, arr: Ref, target: nat, v: string, iid: nat, idx: nat)
    requires !Reserved(v) && iid < WORD && 0 < idx <= |arr.Elements()| && arr.IsArray()
    requires Lookup(c.ctx, LoopKey(target)) == Live(Num(Pack(iid, idx)))
    ensures var d := NextRound(c, arr, target, v);
            && CountersKept(c.ctx, d.ctx, target, target + 1)
            && (idx < |arr.Elements()| ==>
                  d.pc == d.state == iid && Visible(d.ctx) == Visible(c.ctx)[v := arr.Elements()[idx]]
                  && Lookup(d.ctx, LoopKey(target)) == Live(Num(Pack(iid, idx + 1))))
            && (idx == |arr.Elements()| ==>
                  d.pc == c.pc + 1 && d.state == c.state && Visible(d.ctx) == Visible(c.ctx) - {v})
  {
    var d := NextRound(c, arr, target, v);
    PackUnpack(iid, idx);
    LoopKeyInjective(target, target);
    forall j: nat | j != target ensures Lookup(d.ctx, LoopKey(j)) == Lookup(c.ctx, LoopKey(j)) {
      LoopKeyInjective(j, target);
    }
  }

  // ---------------------------------------------------------------- the simulation

  /** A tree whose code can be run: typed, stable loops, no reserved names. */
  predicate Runnable(t: Tree) { WellTyped(t) && LoopsStable(t) && NamesFree(t) }

  predicate RunnableChain(c: Chain) { WellTypedChain(c) && ChainStable(c) && ChainFree(c) }

  /** The machine went from c to c' as reading left ctx' and produced `out`, within [lo, hi). */
  ghost predicate Follows(sem: Semantics, code: seq<SymOp>, c: Config, c': Config, lo: nat, hi: nat,
                          r: (Context, seq<Chunk>)) {
    && Reaches(sem, code, c, c', r.1) && c'.pc == hi
    && Visible(c'.ctx) == r.0 && CountersKept(c.ctx, c'.ctx, lo, hi)
  }

  lemma FollowsJoin(sem: Semantics, code: seq<SymOp>, c0: Config, c1: Config, c2: Config, lo: nat, mid: nat, hi: nat,
                    r1: (Context, seq<Chunk>), r2: (Context, seq<Chunk>))
    requires lo <= mid <= hi
    requires Follows(sem, code, c0, c1, lo, mid, r1) && Follows(sem, code, c1, c2, mid, hi, r2)
    ensures Follows(sem, code, c0, c2, lo, hi, Then(r1.1, r2))
  {
    ReachesJoin(sem, code, c0, c1, c2, r1.1, r2.1);
    CountersJoin(c0.ctx, c1.ctx, c2.ctx, lo, mid, hi);
  }

  /** A silent step that leaves the context alone, then a followed stretch. */
  lemma MoveFollows(sem: Semantics, code: seq<SymOp>, c0: Config, c1: Config, c2: Config, lo: nat, lo': nat, hi: nat,
                    r: (Context, seq<Chunk>))
    requires StepOf(sem, code, c0) == Move(c1) && c1.ctx == c0.ctx && lo <= lo'
    requires Follows(sem, code, c1, c2, lo', hi, r)
    ensures Follows(sem, code, c0, c2, lo, hi, r)
  {
    MoveThen(sem, code, c0, c1, c2, r.1);
    CountersWiden(c1.ctx, c2.ctx, lo', hi, lo, hi);
  }

  /** A followed stretch, then a silent step that leaves the context alone. */
  lemma FollowsMove(sem: Semantics, code: seq<SymOp>, c0: Config, c1: Config, c2: Config, lo: nat, mid: nat, hi: nat,
                    r: (Context, seq<Chunk>))
    requires Follows(sem, code, c0, c1, lo, mid, r)
    requires StepOf(sem, code, c1) == Move(c2) && c2.ctx == c1.ctx && c2.pc == hi && mid <= hi
    ensures Follows(sem, code, c0, c2, lo, hi, r)
  {
    ThenMove(sem, code, c0, c1, c2, r.1);
    CountersWiden(c0.ctx, c1.ctx, lo, mid, lo, hi);
  }

  lemma EmitFollows(sem: Semantics, code: seq<SymOp>, c: Config, chunk: Chunk)
    requires StepOf(sem, code, c) == Emit(chunk, c.pc + 1)
    ensures Follows(sem, code, c, Config(c.pc + 1, c.pc + 1, c.ctx), c.pc, c.pc + 1, (Visible(c.ctx), [chunk]))
  {
    ReachesEmit(sem, code, c, chunk, c.pc + 1);
  }

  lemma IfSteps(sem: Semantics, code: seq<SymOp>, c: Config, e: Expr, target: nat)
    requires WellFormed(e) && Unreserved(Roots(e))
    requires c.pc < |code| && (code[c.pc] == If(target, PostOrder(e), false)
                               || code[c.pc] == Elif(target, PostOrder(e), false))
    ensures StepOf(sem, code, c)
         == Move(if sem.truthy(EvalTree(sem.cond, Visible(c.ctx), e)) then c.(pc := c.pc + 1)
                 else c.(pc := target, state := target))
  {
    EvalVisible(sem.cond, c.ctx, e);
  }

  lemma ForSteps(sem: Semantics, code: seq<SymOp>, c: Config, v: string, e: Expr, target: nat)
    requires WellFormed(e) && Unreserved(Roots(e)) && c.pc < |code|
    ensures code[c.pc] == For(target, PostOrder(e), v, false) ==>
              StepOf(sem, code, c) == Move(EnterLoop(c, EvalTree(sem.value, Visible(c.ctx), e), target, v))
    ensures code[c.pc] == EndFor(target, PostOrder(e), v) ==>
              StepOf(sem, code, c) == Move(NextRound(c, EvalTree(sem.value, Visible(c.ctx), e), target, v))
  {
    EvalVisible(sem.value, c.ctx, e);
  }

  /** Reading a literal or a value, then the rest. */
  lemma EmitThen(sem: Semantics, code: seq<SymOp>, c: Config, c': Config, chunk: Chunk, hi: nat,
                 r: (Context, seq<Chunk>))
    requires StepOf(sem, code, c) == Emit(chunk, c.pc + 1) && c.pc + 1 <= hi
    requires Follows(sem, code, Config(c.pc + 1, c.pc + 1, c.ctx), c', c.pc + 1, hi, r)
    ensures Follows(sem, code, c, c', c.pc, hi, Then([chunk], r))
  {
    EmitFollows(sem, code, c, chunk);
    FollowsJoin(sem, code, c, Config(c.pc + 1, c.pc + 1, c.ctx), c', c.pc, c.pc + 1, hi, (Visible(c.ctx), [chunk]), r);
  }

  lemma {:induction false} SimTree(sem: Semantics, code: seq<SymOp>, lo: nat, t: Tree, c: Config) returns (c': Config)
    requires At(code, lo, Generate(t, lo)) && |code| < WORD && Runnable(t) && c.pc == lo
    ensures Follows(sem, code, c, c', lo, lo + Size(t), Interp(sem, t, Visible(c.ctx)))
    ensures c'.state == StateAfter(sem, t, lo, Visible(c.ctx), c.state)
    decreases t, 2
  {
    hide *;
    match t
    case Nil => c' := SimNil(sem, code, lo, c);
    case Text(off, len, next) => c' := SimText(sem, code, lo, off, len, next, c);
    case Put(e, next) => c' := SimPut(sem, code, lo, e, next, c);
    case Cond(e, thn, rest, next) => c' := SimCond(sem, code, lo, e, thn, rest, next, c);
    case Loop(v, e, body, next) => c' := SimLoop(sem, code, lo, v, e, body, next, c);
  }

  lemma SimNil(sem: Semantics, code: seq<SymOp>, lo: nat, c: Config) returns (c': Config)
    requires c.pc == lo
    ensures Follows(sem, code, c, c', lo, lo + Size(Nil), Interp(sem, Nil, Visible(c.ctx)))
    ensures c'.state == c.state == StateAfter(sem, Nil, lo, Visible(c.ctx), c.state) && c'.ctx == c.ctx
  {
    c' := c;
    ReachesNow(sem, code, c);
  }

  // What the definitions say of a literal and of a printed value.

  lemma {:induction false} TextParts(sem: Semantics, off: nat, len: nat, next: Tree, lo: nat, ctx: Context, s: nat)
    ensures Size(Text(off, len, next)) == 1 + Size(next) && (Runnable(Text(off, len, next)) ==> Runnable(next))
    ensures Interp(sem, Text(off, len, next), ctx) == Then([FileChunk(off, len)], Interp(sem, next, ctx))
    ensures StateAfter(sem, Text(off, len, next), lo, ctx, s) == StateAfter(sem, next, lo + 1, ctx, lo + 1)
  {
  }

  lemma {:induction false} PutParts(sem: Semantics, e: Expr, next: Tree, lo: nat, ctx: Context, s: nat)
    ensures Size(Put(e, next)) == 1 + Size(next)
    ensures Runnable(Put(e, next)) ==> Runnable(next) && WellFormed(e) && Unreserved(Roots(e))
    ensures Interp(sem, Put(e, next), ctx)
         == Then([ValueChunk(EvalTree(sem.value, ctx, e))], Interp(sem, next, ctx))
    ensures StateAfter(sem, Put(e, next), lo, ctx, s) == StateAfter(sem, next, lo + 1, ctx, lo + 1)
  {
  }

  lemma LiteralSteps(sem: Semantics, code: seq<SymOp>, c: Config, off: nat, len: nat)
    requires c.pc < |code| && code[c.pc] == Literal(off, len)
    ensures StepOf(sem, code, c) == Emit(FileChunk(off, len), c.pc + 1)
  {
  }

  lemma ShowSteps(sem: Semantics, code: seq<SymOp>, c: Config, e: Expr)
    requires c.pc < |code| && code[c.pc] == Show(PostOrder(e)) && WellFormed(e) && Unreserved(Roots(e))
    ensures StepOf(sem, code, c) == Emit(ValueChunk(EvalTree(sem.value, Visible(c.ctx), e)), c.pc + 1)
  {
    EvalVisible(sem.value, c.ctx, e);
  }

  lemma {:induction false} SimText(sem: Semantics, code: seq<SymOp>, lo: nat, off: nat, len: nat, next: Tree,
                                   c: Config) returns (c': Config)
    requires At(code, lo, Generate(Text(off, len, next), lo)) && |code| < WORD && Runnable(Text(off, len, next))
            && c.pc == lo
    ensures Follows(sem, code, c, c', lo, lo + Size(Text(off, len, next)),
                    Interp(sem, Text(off, len, next), Visible(c.ctx)))
    ensures c'.state == StateAfter(sem, Text(off, len, next), lo, Visible(c.ctx), c.state)
    decreases Text(off, len, next), 0
  {
    hide *;
    TextCode(off, len, next, lo);
    TextParts(sem, off, len, next, lo, Visible(c.ctx), c.state);
    AtHead(code, lo, Literal(off, len), Generate(next, lo + 1));
    LiteralSteps(sem, code, c, off, len);
    c' := SimTree(sem, code, lo + 1, next, Config(lo + 1, lo + 1, c.ctx));
    EmitThen(sem, code, c, c', FileChunk(off, len), lo + 1 + Size(next), Interp(sem, next, Visible(c.ctx)));
  }

  lemma {:induction false} SimPut(sem: Semantics, code: seq<SymOp>, lo: nat, e: Expr, next: Tree, c: Config)
    returns (c': Config)
    requires At(code, lo, Generate(Put(e, next), lo)) && |code| < WORD && Runnable(Put(e, next)) && c.pc == lo
    ensures Follows(sem, code, c, c', lo, lo + Size(Put(e, next)), Interp(sem, Put(e, next), Visible(c.ctx)))
    ensures c'.state == StateAfter(sem, Put(e, next), lo, Visible(c.ctx), c.state)
    decreases Put(e, next), 0
  {
    hide *;
    PutCode(e, next, lo);
    PutParts(sem, e, next, lo, Visible(c.ctx), c.state);
    AtHead(code, lo, Show(PostOrder(e)), Generate(next, lo + 1));
    ShowSteps(sem, code, c, e);
    c' := SimTree(sem, code, lo + 1, next, Config(lo + 1, lo + 1, c.ctx));
    EmitThen(sem, code, c, c', ValueChunk(EvalTree(sem.value, Visible(c.ctx), e)), lo + 1 + Size(next),
             Interp(sem, next, Visible(c.ctx)));
  }

  /** The parts of a conditional's code. */
  lemma CondAt(code: seq<SymOp>, lo: nat, e: Expr, thn: Tree, rest: Chain, next: Tree)
    requires At(code, lo, Generate(Cond(e, thn, rest, next), lo))
    ensures var mid := lo + 1 + Size(thn);
            var end := mid + ChainSize(rest);
            && end < |code| && code[lo] == If(ChainEntry(rest, mid), PostOrder(e), false) && code[end] == EndIf
            && At(code, lo + 1, Generate(thn, lo + 1))
            && At(code, mid, GenerateChain(rest, mid, end))
            && At(code, end + 1, Generate(next, end + 1))
  {
    hide *;
    var mid := lo + 1 + Size(thn);
    var end := mid + ChainSize(rest);
    CondCode(e, thn, rest, next, lo);
    var a := [If(ChainEntry(rest, mid), PostOrder(e), false)];
    var b := Generate(thn, lo + 1);
    var d := GenerateChain(rest, mid, end);
    AtSplit(code, lo, a + b + d + [EndIf], Generate(next, end + 1));
    AtSplit(code, lo, a + b + d, [EndIf]);
    AtSplit(code, lo, a + b, d);
    AtHead(code, lo, a[0], b);
    var f: seq<SymOp> := [EndIf];
    assert f + [] == f;
    AtHead(code, end, EndIf, []);
  }

  lemma MarkerSteps(sem: Semantics, code: seq<SymOp>, c: Config)
    requires c.pc < |code| && (code[c.pc] == Else || code[c.pc] == EndIf)
    ensures StepOf(sem, code, c) == Move(c.(pc := c.pc + 1))
  {
  }

  // What the definitions say of a conditional, an `else` and an `elif`.

  lemma CondParts(sem: Semantics, e: Expr, thn: Tree, rest: Chain, next: Tree, ctx: Context)
    requires Runnable(Cond(e, thn, rest, next))
    ensures WellFormed(e) && Unreserved(Roots(e)) && Runnable(thn) && RunnableChain(rest) && Runnable(next)
    ensures Size(Cond(e, thn, rest, next)) == 1 + Size(thn) + ChainSize(rest) + 1 + Size(next)
    ensures var r := if sem.truthy(EvalTree(sem.cond, ctx, e)) then Interp(sem, thn, ctx)
            else InterpChain(sem, rest, ctx);
            Interp(sem, Cond(e, thn, rest, next), ctx) == Then(r.1, Interp(sem, next, r.0))
  {
  }

  lemma ElseParts(sem: Semantics, b: Tree, ctx: Context, at: nat, end: nat)
    requires RunnableChain(Otherwise(b))
    ensures Runnable(b) && ChainSize(Otherwise(b)) == 2 + Size(b) && ChainEntry(Otherwise(b), at) == at + 1
    ensures InterpChain(sem, Otherwise(b), ctx) == Interp(sem, b, ctx)
    ensures ChainState(sem, Otherwise(b), at, end, ctx) == StateAfter(sem, b, at + 2, ctx, at + 1)
    ensures GenerateChain(Otherwise(b), at, end) == [Jump(end, false), Else] + Generate(b, at + 2)
  {
  }

  lemma ElifParts(sem: Semantics, e: Expr, thn: Tree, rest: Chain, ctx: Context, at: nat)
    requires RunnableChain(OrElse(e, thn, rest))
    ensures WellFormed(e) && Unreserved(Roots(e)) && Runnable(thn) && RunnableChain(rest)
    ensures ChainSize(OrElse(e, thn, rest)) == 2 + Size(thn) + ChainSize(rest)
            && ChainEntry(OrElse(e, thn, rest), at) == at + 1
    ensures InterpChain(sem, OrElse(e, thn, rest), ctx)
         == if sem.truthy(EvalTree(sem.cond, ctx, e)) then Interp(sem, thn, ctx) else InterpChain(sem, rest, ctx)
  {
  }

  lemma CondState(sem: Semantics, e: Expr, thn: Tree, rest: Chain, next: Tree, lo: nat, ctx: Context, s: nat)
    ensures var mid := lo + 1 + Size(thn);
            var end := mid + ChainSize(rest);
            StateAfter(sem, Cond(e, thn, rest, next), lo, ctx, s) ==
              if sem.truthy(EvalTree(sem.cond, ctx, e)) then
                StateAfter(sem, next, end + 1, Interp(sem, thn, ctx).0,
                           StatePast(rest, end, StateAfter(sem, thn, lo + 1, ctx, s)))
              else StateAfter(sem, next, end + 1, InterpChain(sem, rest, ctx).0, ChainState(sem, rest, mid, end, ctx))
  {
  }

  lemma ElifState(sem: Semantics, e: Expr, thn: Tree, rest: Chain, at: nat, end: nat, ctx: Context)
    ensures ChainState(sem, OrElse(e, thn, rest), at, end, ctx) ==
              if sem.truthy(EvalTree(sem.cond, ctx, e)) then
                StatePast(rest, end, StateAfter(sem, thn, at + 2, ctx, at + 1))
              else ChainState(sem, rest, at + 2 + Size(thn), end, ctx)
  {
  }

  lemma LoopState(sem: Semantics, v: string, e: Expr, body: Tree, next: Tree, lo: nat, ctx: Context, s: nat)
    ensures var end := lo + 1 + Size(body);
            var items := EvalTree(sem.value, ctx, e).Elements();
            StateAfter(sem, Loop(v, e, body, next), lo, ctx, s) ==
              if items == [] then StateAfter(sem, next, end + 1, ctx, end + 1)
              else StateAfter(sem, next, end + 1, InterpLoop(sem, v, body, items, ctx).0 - {v},
                              RoundsState(sem, v, body, lo + 1, items, ctx, s))
  {
  }

  lemma RoundState(sem: Semantics, v: string, body: Tree, lo: nat, items: seq<Json>, k: nat, ctx: Context, s: nat)
    requires k < |items|
    ensures var round := StateAfter(sem, body, lo, ctx[v := items[k]], s);
            RoundsState(sem, v, body, lo, items[k..], ctx, s) ==
              if k + 1 == |items| then round
              else RoundsState(sem, v, body, lo, items[k + 1..], Interp(sem, body, ctx[v := items[k]]).0, lo)
  {
    assert items[k..][0] == items[k] && items[k..][1..] == items[k + 1..];
  }

  lemma EntryWithin(c: Chain, at: nat)
    ensures at <= ChainEntry(c, at) <= at + 1
  {
  }

  lemma {:induction false} SimCond(sem: Semantics, code: seq<SymOp>, lo: nat, e: Expr, thn: Tree, rest: Chain,
                                   next: Tree, c: Config)
    returns (c': Config)
    requires At(code, lo, Generate(Cond(e, thn, rest, next), lo)) && |code| < WORD
            && Runnable(Cond(e, thn, rest, next)) && c.pc == lo
    ensures Follows(sem, code, c, c', lo, lo + Size(Cond(e, thn, rest, next)),
                    Interp(sem, Cond(e, thn, rest, next), Visible(c.ctx)))
    ensures c'.state == StateAfter(sem, Cond(e, thn, rest, next), lo, Visible(c.ctx), c.state)
    decreases Cond(e, thn, rest, next), 0
  {
    hide *;
    var mid := lo + 1 + Size(thn);
    var end := mid + ChainSize(rest);
    CondAt(code, lo, e, thn, rest, next);
    CondParts(sem, e, thn, rest, next, Visible(c.ctx));
    CondState(sem, e, thn, rest, next, lo, Visible(c.ctx), c.state);
    IfSteps(sem, code, c, e, ChainEntry(rest, mid));
    EntryWithin(rest, mid);
    var c2, r;
    if sem.truthy(EvalTree(sem.cond, Visible(c.ctx), e)) {
      var c0 := c.(pc := lo + 1);
      var c1 := SimTree(sem, code, lo + 1, thn, c0);
      r := Interp(sem, thn, Visible(c.ctx));
      c2 := SimBranchEnd(sem, code, rest, mid, end, c0, c1, lo + 1, r);
      MoveFollows(sem, code, c, c0, c2, lo, lo + 1, end + 1, r);
    } else {
      var entry := ChainEntry(rest, mid);
      var c0 := c.(pc := entry, state := entry);
      r := InterpChain(sem, rest, Visible(c.ctx));
      c2 := SimChain(sem, code, mid, end, rest, c0);
      MoveFollows(sem, code, c, c0, c2, lo, entry, end + 1, r);
    }
    FollowsEnds(sem, code, c, c2, lo, end + 1, r);
    c' := SimTree(sem, code, end + 1, next, c2);
    FollowsJoin(sem, code, c, c2, c', lo, end + 1, end + 1 + Size(next), r, Interp(sem, next, r.0));
  }

  lemma FollowsEnds(sem: Semantics, code: seq<SymOp>, c: Config, c': Config, lo: nat, hi: nat, r: (Context, seq<Chunk>))
    requires Follows(sem, code, c, c', lo, hi, r)
    ensures c'.pc == hi && Visible(c'.ctx) == r.0
  {
  }

  /** After a taken branch: through the jump, if one follows, and past the end marker. */
  lemma SimBranchEnd(sem: Semantics, code: seq<SymOp>, rest: Chain, mid: nat, end: nat, c0: Config, c1: Config,
                     lo: nat, r: (Context, seq<Chunk>))
    returns (c2: Config)
    requires Follows(sem, code, c0, c1, lo, mid, r)
    requires At(code, mid, GenerateChain(rest, mid, end)) && end == mid + ChainSize(rest) < |code| && code[end] == EndIf
    ensures Follows(sem, code, c0, c2, lo, end + 1, r) && c2.state == StatePast(rest, end, c1.state)
  {
    hide Reaches, CountersKept, Visible;
    if rest.NoElse? {
      c2 := c1.(pc := end + 1);
      FollowsMove(sem, code, c0, c1, c2, lo, mid, end + 1, r);
    } else {
      assert code[mid] == GenerateChain(rest, mid, end)[0] == Jump(end, false);
      var j := c1.(pc := end, state := end);
      FollowsMove(sem, code, c0, c1, j, lo, mid, end, r);
      c2 := j.(pc := end + 1);
      FollowsMove(sem, code, c0, j, c2, lo, end, end + 1, r);
    }
  }

  /** The rest of an `if` block entered after a failed test, up to past the end marker. */
  lemma {:induction false} SimChain(sem: Semantics, code: seq<SymOp>, mid: nat, end: nat, rest: Chain, c: Config)
    returns (c': Config)
    requires At(code, mid, GenerateChain(rest, mid, end)) && end == mid + ChainSize(rest) < |code| < WORD
            && code[end] == EndIf
    requires RunnableChain(rest) && c.pc == c.state == ChainEntry(rest, mid)
    ensures Follows(sem, code, c, c', c.pc, end + 1, InterpChain(sem, rest, Visible(c.ctx)))
    ensures c'.state == ChainState(sem, rest, mid, end, Visible(c.ctx))
    decreases rest, 1
  {
    hide *;
    match rest
    case NoElse => c' := SimNoElse(sem, code, mid, end, c);
    case Otherwise(b) => c' := SimElse(sem, code, mid, end, b, c);
    case OrElse(e, thn, rest') => c' := SimElif(sem, code, mid, end, e, thn, rest', c);
  }

  lemma SimNoElse(sem: Semantics, code: seq<SymOp>, mid: nat, end: nat, c: Config) returns (c': Config)
    requires At(code, mid, GenerateChain(NoElse, mid, end)) && end == mid + ChainSize(NoElse) < |code|
            && code[end] == EndIf
    requires c.pc == c.state == ChainEntry(NoElse, mid)
    ensures Follows(sem, code, c, c', c.pc, end + 1, InterpChain(sem, NoElse, Visible(c.ctx)))
    ensures c'.state == ChainState(sem, NoElse, mid, end, Visible(c.ctx))
  {
    hide Follows, Visible;
    var c0 := SimNil(sem, code, end, c);
    c' := SimBranchEnd(sem, code, NoElse, mid, end, c, c0, end, (Visible(c.ctx), []));
  }

  lemma {:induction false} SimElse(sem: Semantics, code: seq<SymOp>, mid: nat, end: nat, b: Tree, c: Config)
    returns (c': Config)
    requires At(code, mid, GenerateChain(Otherwise(b), mid, end))
            && end == mid + ChainSize(Otherwise(b)) < |code| < WORD
    requires code[end] == EndIf && RunnableChain(Otherwise(b)) && c.pc == c.state == ChainEntry(Otherwise(b), mid)
    ensures Follows(sem, code, c, c', c.pc, end + 1, InterpChain(sem, Otherwise(b), Visible(c.ctx)))
    ensures c'.state == ChainState(sem, Otherwise(b), mid, end, Visible(c.ctx))
    decreases Otherwise(b), 0
  {
    hide *;
    ElseParts(sem, b, Visible(c.ctx), mid, end);
    var c0 := c.(pc := mid + 2);
    AtSplit(code, mid, [Jump(end, false), Else], Generate(b, mid + 2));
    ElseAt(code, mid, end);
    MarkerSteps(sem, code, c);
    var c1 := SimTree(sem, code, mid + 2, b, c0);
    var r := Interp(sem, b, Visible(c.ctx));
    FollowsEnds(sem, code, c0, c1, mid + 2, end, r);
    MarkerSteps(sem, code, c1);
    c' := c1.(pc := end + 1);
    FollowsMove(sem, code, c0, c1, c', mid + 2, end, end + 1, r);
    MoveFollows(sem, code, c, c0, c', mid + 1, mid + 2, end + 1, r);
  }

  lemma ElseAt(code: seq<SymOp>, mid: nat, end: nat)
    requires At(code, mid, [Jump(end, false), Else])
    ensures mid + 1 < |code| && code[mid + 1] == Else
  {
    assert code[mid..mid + 2][1] == Else;
  }

  lemma ElifAt(code: seq<SymOp>, at: nat, e: Expr, thn: Tree, rest: Chain)
    requires At(code, at, GenerateChain(OrElse(e, thn, rest), at, at + 2 + Size(thn) + ChainSize(rest)))
    ensures var mid := at + 2 + Size(thn);
            && at + 1 < |code| && code[at + 1] == Elif(ChainEntry(rest, mid), PostOrder(e), false)
            && At(code, at + 2, Generate(thn, at + 2))
            && At(code, mid, GenerateChain(rest, mid, mid + ChainSize(rest)))
  {
    hide *;
    var mid := at + 2 + Size(thn);
    var end := mid + ChainSize(rest);
    ElifCode(e, thn, rest, at);
    var a := [Jump(end, false), Elif(ChainEntry(rest, mid), PostOrder(e), false)];
    AtSplit(code, at, a + Generate(thn, at + 2), GenerateChain(rest, mid, end));
    AtSplit(code, at, a, Generate(thn, at + 2));
    assert a == [a[0]] + [a[1]];
    AtHead(code, at, a[0], [a[1]]);
    assert [a[1]] == [a[1]] + [];
    AtHead(code, at + 1, a[1], []);
  }

  lemma {:induction false} SimElif(sem: Semantics, code: seq<SymOp>, at: nat, end: nat, e: Expr, thn: Tree,
                                   rest: Chain, c: Config) returns (c': Config)
    requires At(code, at, GenerateChain(OrElse(e, thn, rest), at, end))
            && end == at + ChainSize(OrElse(e, thn, rest)) < |code| < WORD
    requires code[end] == EndIf && RunnableChain(OrElse(e, thn, rest))
            && c.pc == c.state == ChainEntry(OrElse(e, thn, rest), at)
    ensures Follows(sem, code, c, c', c.pc, end + 1, InterpChain(sem, OrElse(e, thn, rest), Visible(c.ctx)))
    ensures c'.state == ChainState(sem, OrElse(e, thn, rest), at, end, Visible(c.ctx))
    decreases OrElse(e, thn, rest), 0
  {
    hide *;
    var mid := at + 2 + Size(thn);
    ElifParts(sem, e, thn, rest, Visible(c.ctx), at);
    ElifState(sem, e, thn, rest, at, end, Visible(c.ctx));
    ElifAt(code, at, e, thn, rest);
    IfSteps(sem, code, c, e, ChainEntry(rest, mid));
    EntryWithin(rest, mid);
    if sem.truthy(EvalTree(sem.cond, Visible(c.ctx), e)) {
      var c0 := c.(pc := at + 2);
      var c1 := SimTree(sem, code, at + 2, thn, c0);
      var r := Interp(sem, thn, Visible(c.ctx));
      c' := SimBranchEnd(sem, code, rest, mid, end, c0, c1, at + 2, r);
      MoveFollows(sem, code, c, c0, c', at + 1, at + 2, end + 1, r);
    } else {
      var entry := ChainEntry(rest, mid);
      var c0 := c.(pc := entry, state := entry);
      c' := SimChain(sem, code, mid, end, rest, c0);
      MoveFollows(sem, code, c, c0, c', at + 1, entry, end + 1, InterpChain(sem, rest, Visible(c.ctx)));
    }
  }

  lemma LoopAt(code: seq<SymOp>, lo: nat, v: string, e: Expr, body: Tree, next: Tree)
    requires At(code, lo, Generate(Loop(v, e, body, next), lo))
    ensures var end := lo + 1 + Size(body);
            && end < |code| && code[lo] == For(end, PostOrder(e), v, false) && code[end] == EndFor(end, PostOrder(e), v)
            && At(code, lo + 1, Generate(body, lo + 1))
            && At(code, end + 1, Generate(next, end + 1))
  {
    hide *;
    var end := lo + 1 + Size(body);
    LoopCode(v, e, body, next, lo);
    var a, b, d := [For(end, PostOrder(e), v, false)], Generate(body, lo + 1), [EndFor(end, PostOrder(e), v)];
    AtSplit(code, lo, a + b + d, Generate(next, end + 1));
    AtSplit(code, lo, a + b, d);
    AtHead(code, lo, a[0], b);
    assert d == d + [];
    AtHead(code, end, d[0], []);
  }

  lemma LoopParts(sem: Semantics, v: string, e: Expr, body: Tree, next: Tree, ctx: Context)
    requires Runnable(Loop(v, e, body, next))
    ensures WellFormed(e) && Unreserved(Roots(e)) && !Reserved(v) && Runnable(body) && Runnable(next)
    ensures v !in Roots(e) && LoopVars(body) !! Roots(e)
    ensures Size(Loop(v, e, body, next)) == 1 + Size(body) + 1 + Size(next)
    ensures var items := EvalTree(sem.value, ctx, e).Elements();
            var r := InterpLoop(sem, v, body, items, ctx);
            Interp(sem, Loop(v, e, body, next), ctx) ==
              if items == [] then Interp(sem, next, ctx) else Then(r.1, Interp(sem, next, r.0 - {v}))
  {
    assert v in LoopVars(body) + {v};
  }

  lemma EnterLoopSkips(c: Config, arr: Ref, target: nat, v: string)
    requires arr.Elements() == []
    ensures EnterLoop(c, arr, target, v) == c.(pc := target + 1, state := target + 1)
  {
  }

  lemma {:induction false} SimLoop(sem: Semantics, code: seq<SymOp>, lo: nat, v: string, e: Expr, body: Tree,
                                   next: Tree, c: Config)
    returns (c': Config)
    requires At(code, lo, Generate(Loop(v, e, body, next), lo)) && |code| < WORD && Runnable(Loop(v, e, body, next))
            && c.pc == lo
    ensures Follows(sem, code, c, c', lo, lo + Size(Loop(v, e, body, next)),
                    Interp(sem, Loop(v, e, body, next), Visible(c.ctx)))
    ensures c'.state == StateAfter(sem, Loop(v, e, body, next), lo, Visible(c.ctx), c.state)
    decreases Loop(v, e, body, next), 1
  {
    hide *;
    var end := lo + 1 + Size(body);
    var ctx := Visible(c.ctx);
    var items := EvalTree(sem.value, ctx, e).Elements();
    LoopAt(code, lo, v, e, body, next);
    LoopParts(sem, v, e, body, next, ctx);
    LoopState(sem, v, e, body, next, lo, ctx, c.state);
    if items == [] {
      ForSteps(sem, code, c, v, e, end);
      EnterLoopSkips(c, EvalTree(sem.value, ctx, e), end, v);
      var c1 := c.(pc := end + 1, state := end + 1);
      c' := SimTree(sem, code, end + 1, next, c1);
      MoveFollows(sem, code, c, c1, c', lo, end + 1, end + 1 + Size(next), Interp(sem, next, ctx));
    } else {
      var c2 := SimLoopRounds(sem, code, lo, v, e, body, next, c);
      var r := InterpLoop(sem, v, body, items, ctx);
      FollowsEnds(sem, code, c, c2, lo, end + 1, (r.0 - {v}, r.1));
      c' := SimTree(sem, code, end + 1, next, c2);
      FollowsJoin(sem, code, c, c2, c', lo, end + 1, end + 1 + Size(next), (r.0 - {v}, r.1),
                  Interp(sem, next, r.0 - {v}));
    }
  }

  lemma {:induction false} SimLoopRounds(sem: Semantics, code: seq<SymOp>, lo: nat, v: string, e: Expr, body: Tree,
      next: Tree, c: Config)
    returns (c2: Config)
    requires At(code, lo, Generate(Loop(v, e, body, next), lo)) && |code| < WORD && Runnable(Loop(v, e, body, next))
            && c.pc == lo
    requires EvalTree(sem.value, Visible(c.ctx), e).Elements() != []
    ensures var r := InterpLoop(sem, v, body, EvalTree(sem.value, Visible(c.ctx), e).Elements(), Visible(c.ctx));
            Follows(sem, code, c, c2, lo, lo + 1 + Size(body) + 1, (r.0 - {v}, r.1))
    ensures c2.state
         == RoundsState(sem, v, body, lo + 1, EvalTree(sem.value, Visible(c.ctx), e).Elements(), Visible(c.ctx),
                        c.state)
    decreases Loop(v, e, body, next), 0, WORD
  {
    hide *;
    var end := lo + 1 + Size(body);
    var ctx := Visible(c.ctx);
    var arr := EvalTree(sem.value, ctx, e);
    var items := arr.Elements();
    LoopAt(code, lo, v, e, body, next);
    LoopParts(sem, v, e, body, next, ctx);
    ForSteps(sem, code, c, v, e, end);
    ArrayElements(arr);
    var c1 := EnterLoop(c, arr, end, v);
    EnterLoopVisible(c, arr, end, v);
    StableAfterSet(sem.value, ctx, v, items[0], e);
    c2 := SimRounds(sem, code, lo, v, e, body, next, arr, 1, c1);
    RoundState(sem, v, body, lo + 1, items, 0, ctx, c.state);
    RoundParts(sem, v, body, items, 0, ctx);
    assert items[0..] == items;
    var r1 := Interp(sem, body, ctx[v := items[0]]);
    var r2 := InterpLoop(sem, v, body, items[1..], r1.0);
    ThenIs(r1.1, r2);
    StepFollows(sem, code, c, c1, c2, lo, end + 1, (r2.0 - {v}, r1.1 + r2.1));
  }

  lemma ArrayElements(arr: Ref)
    requires arr.Elements() != []
    ensures arr.IsArray()
  {
  }

  /** A silent step that changes only the counter of the loop ending at hi - 1. */
  lemma StepFollows(sem: Semantics, code: seq<SymOp>, c0: Config, c1: Config, c2: Config, lo: nat, hi: nat,
                    r: (Context, seq<Chunk>))
    requires StepOf(sem, code, c0) == Move(c1) && lo < hi && CountersKept(c0.ctx, c1.ctx, hi - 1, hi)
    requires Follows(sem, code, c1, c2, lo, hi, r)
    ensures Follows(sem, code, c0, c2, lo, hi, r)
  {
    MoveThen(sem, code, c0, c1, c2, r.1);
    forall j: nat | !(lo <= j < hi) ensures Lookup(c2.ctx, LoopKey(j)) == Lookup(c0.ctx, LoopKey(j)) {
      assert Lookup(c1.ctx, LoopKey(j)) == Lookup(c0.ctx, LoopKey(j));
    }
  }

  lemma StableAfterSet(m: Meaning, ctx: Context, v: string, item: Json, e: Expr)
    requires v !in Roots(e)
    ensures EvalTree(m, ctx[v := item], e) == EvalTree(m, ctx, e)
  {
    EvalReadsRoots(m, ctx[v := item], ctx, e);
  }

  lemma StableAfterBody(sem: Semantics, ctx: Context, body: Tree, e: Expr)
    requires LoopVars(body) !! Roots(e)
    ensures EvalTree(sem.value, Interp(sem, body, ctx).0, e) == EvalTree(sem.value, ctx, e)
  {
    forall k <- Roots(e) ensures Lookup(Interp(sem, body, ctx).0, k) == Lookup(ctx, k) {
      InterpWrites(sem, body, ctx, k);
    }
    EvalReadsRoots(sem.value, Interp(sem, body, ctx).0, ctx, e);
  }

  lemma RoundParts(sem: Semantics, v: string, body: Tree, items: seq<Json>, k: nat, ctx: Context)
    requires k <= |items|
    ensures InterpLoop(sem, v, body, items[k..], ctx) ==
      if k == |items| then (ctx, [])
      else
        var r := Interp(sem, body, ctx[v := items[k]]);
        Then(r.1, InterpLoop(sem, v, body, items[k + 1..], r.0))
  {
    if k < |items| {
      assert items[k..][0] == items[k] && items[k..][1..] == items[k + 1..];
    }
  }

  lemma ThenIs(out: seq<Chunk>, r: (Context, seq<Chunk>))
    ensures Then(out, r) == (r.0, out + r.1)
  {
  }

  /** Rounds k.. of a loop: the body at the current item, then `endfor` until the items run out. */
  lemma {:induction false} SimRounds(sem: Semantics, code: seq<SymOp>, lo: nat, v: string, e: Expr, body: Tree,
                                     next: Tree, arr: Ref, k: nat, c: Config)
    returns (c': Config)
    requires |code| < WORD && Runnable(Loop(v, e, body, next)) && At(code, lo, Generate(Loop(v, e, body, next), lo))
    requires c.pc == lo + 1 && 0 < k <= |arr.Elements()| && arr.IsArray()
    requires EvalTree(sem.value, Visible(c.ctx), e) == arr
    requires Lookup(c.ctx, LoopKey(lo + 1 + Size(body))) == Live(Num(Pack(lo + 1, k)))
    ensures var r1 := Interp(sem, body, Visible(c.ctx));
            var r2 := InterpLoop(sem, v, body, arr.Elements()[k..], r1.0);
            Follows(sem, code, c, c', lo, lo + 1 + Size(body) + 1, (r2.0 - {v}, r1.1 + r2.1))
    ensures c'.state == if k == |arr.Elements()| then StateAfter(sem, body, lo + 1, Visible(c.ctx), c.state)
                        else RoundsState(sem, v, body, lo + 1, arr.Elements()[k..],
                                         Interp(sem, body, Visible(c.ctx)).0, lo + 1)
    decreases Loop(v, e, body, next), 0, |arr.Elements()| - k
  {
    hide *;
    var end := lo + 1 + Size(body);
    var items := arr.Elements();
    LoopAt(code, lo, v, e, body, next);
    LoopParts(sem, v, e, body, next, Visible(c.ctx));
    var r1 := Interp(sem, body, Visible(c.ctx));
    var c1 := SimTree(sem, code, lo + 1, body, c);
    FollowsEnds(sem, code, c, c1, lo + 1, end, r1);
    FollowsKeeps(sem, code, c, c1, lo + 1, end, r1, end);
    StableAfterBody(sem, Visible(c.ctx), body, e);
    ForSteps(sem, code, c1, v, e, end);
    NextRoundVisible(c1, arr, end, v, lo + 1, k);
    var c2 := NextRound(c1, arr, end, v);
    RoundParts(sem, v, body, items, k, r1.0);
    if k < |items| {
      RoundState(sem, v, body, lo + 1, items, k, r1.0, lo + 1);
      StableAfterSet(sem.value, r1.0, v, items[k], e);
      c' := SimRounds(sem, code, lo, v, e, body, next, arr, k + 1, c2);
      var s1 := Interp(sem, body, r1.0[v := items[k]]);
      var s2 := InterpLoop(sem, v, body, items[k + 1..], s1.0);
      ThenIs(s1.1, s2);
      ThenIs(r1.1, (s2.0 - {v}, s1.1 + s2.1));
      StepFollows(sem, code, c1, c2, c', lo, end + 1, (s2.0 - {v}, s1.1 + s2.1));
      RoundJoin(sem, code, c, c1, c', lo, end, r1, (s2.0 - {v}, s1.1 + s2.1));
    } else {
      c' := c2;
      LastRound(sem, code, c, c1, c2, lo, end, r1, v);
    }
  }

  lemma FollowsKeeps(sem: Semantics, code: seq<SymOp>, c: Config, c': Config, lo: nat, hi: nat,
                     r: (Context, seq<Chunk>), j: nat)
    requires Follows(sem, code, c, c', lo, hi, r) && !(lo <= j < hi)
    ensures Lookup(c'.ctx, LoopKey(j)) == Lookup(c.ctx, LoopKey(j))
  {
  }

  /** One round, then the remaining ones, all within the loop. */
  lemma RoundJoin(sem: Semantics, code: seq<SymOp>, c0: Config, c1: Config, c2: Config, lo: nat, end: nat,
                  r1: (Context, seq<Chunk>), r2: (Context, seq<Chunk>))
    requires lo < end && Follows(sem, code, c0, c1, lo + 1, end, r1) && Follows(sem, code, c1, c2, lo, end + 1, r2)
    ensures Follows(sem, code, c0, c2, lo, end + 1, Then(r1.1, r2))
  {
    ReachesJoin(sem, code, c0, c1, c2, r1.1, r2.1);
    CountersWiden(c0.ctx, c1.ctx, lo + 1, end, lo, end + 1);
    forall j: nat | !(lo <= j < end + 1) ensures Lookup(c2.ctx, LoopKey(j)) == Lookup(c0.ctx, LoopKey(j)) {
      assert Lookup(c1.ctx, LoopKey(j)) == Lookup(c0.ctx, LoopKey(j));
    }
  }

  lemma LastRound(sem: Semantics, code: seq<SymOp>, c0: Config, c1: Config, c2: Config, lo: nat, end: nat,
                  r1: (Context, seq<Chunk>), v: string)
    requires lo < end && Follows(sem, code, c0, c1, lo + 1, end, r1)
    requires StepOf(sem, code, c1) == Move(c2) && CountersKept(c1.ctx, c2.ctx, end, end + 1)
    requires c2.pc == end + 1 && Visible(c2.ctx) == Visible(c1.ctx) - {v}
    ensures Follows(sem, code, c0, c2, lo, end + 1, (r1.0 - {v}, r1.1 + []))
  {
    ThenMove(sem, code, c0, c1, c2, r1.1);
    assert r1.1 + [] == r1.1;
    forall j: nat | !(lo <= j < end + 1) ensures Lookup(c2.ctx, LoopKey(j)) == Lookup(c0.ctx, LoopKey(j)) {
      assert Lookup(c1.ctx, LoopKey(j)) == Lookup(c0.ctx, LoopKey(j));
    }
  }

  /** Compiler correctness: the code of a tree, started at state 0, reaches the end of the template
      having produced exactly the chunks of reading the tree, and leaves the context reading leaves. */
  lemma CodeFollowsTree(sem: Semantics, t: Tree, ctx: Context) returns (c': Config)
    requires Runnable(t) && Size(t) < WORD
    ensures var code := Generate(t, 0);
            && Reaches(sem, code, Config(0, 0, ctx), c', Interp(sem, t, Visible(ctx)).1)
            && StepOf(sem, code, c') == End
            && Visible(c'.ctx) == Interp(sem, t, Visible(ctx)).0
            && c'.state == StateAfter(sem, t, 0, Visible(ctx), 0)
  {
    var code := Generate(t, 0);
    assert code[0..0 + |code|] == code;
    c' := SimTree(sem, code, 0, t, Config(0, 0, ctx));
  }
}
