/** What compiled code does when it is asked again after its end: the `default` case answers with
    the state the ending call had reached, and a later call starts there. */
module TemplateRerun {
  import opened Helpers
  import opened TemplateExpr
  import opened TemplateValues
  import opened TemplateIR
  import opened TemplateCode
  import opened TemplateMachine
  import opened TemplateSimulation

  predicate Produces(op: SymOp) { op.Literal? || op.Show? }

  /** Where a call starts that asks again after the end was met in `c`. */
  function Resumed(c: Config): Config { Config(c.state, c.state, c.ctx) }

  /** A loop end whose counter is gone and whose array is not empty: it reads state 0 and item 0. */
  ghost predicate Restarts(sem: Semantics, code: seq<SymOp>, c: Config) {
    && c.pc < |code| && code[c.pc].EndFor? && Lookup(c.ctx, LoopKey(code[c.pc].target)) == Dead
    && EvalRpn(sem.value, c.ctx, code[c.pc].expr).Length() > 0
  }

  /** The context of a template that started over at `c`. */
  ghost function Anew(sem: Semantics, code: seq<SymOp>, c: Config): Context
    requires Restarts(sem, code, c)
  {
    NextRound(c, EvalRpn(sem.value, c.ctx, code[c.pc].expr), code[c.pc].target, code[c.pc].variable).ctx
  }

  lemma RestartsAtZero(sem: Semantics, code: seq<SymOp>, c: Config)
    requires Restarts(sem, code, c)
    ensures StepOf(sem, code, c) == Move(Config(0, 0, Anew(sem, code, c)))
  {
  }

  /** Asked again after the end `c`, the code ends again in `c'`, having produced `out`. */
  ghost predicate Again(sem: Semantics, code: seq<SymOp>, c: Config, c': Config, out: seq<Chunk>) {
    Reaches(sem, code, Resumed(c), c', out) && StepOf(sem, code, c') == End
  }

  // ---------------------------------------------------------------- the code behind the last state

  /** Loop instructions of generated code end at their own address, behind their beginning. */
  predicate Targeted(code: seq<SymOp>, lo: nat) {
    forall i | 0 <= i < |code| ::
      && (code[i].For? ==> lo + i < code[i].target && !Reserved(code[i].variable))
      && (code[i].EndFor? ==> code[i].target == lo + i && !Reserved(code[i].variable))
  }

  lemma TargetedJoin(a: seq<SymOp>, b: seq<SymOp>, lo: nat)
    requires Targeted(a, lo) && Targeted(b, lo + |a|)
    ensures Targeted(a + b, lo)
  {
    var code := a + b;
    forall i | |a| <= i < |code|
      ensures code[i].For? ==> lo + i < code[i].target && !Reserved(code[i].variable)
      ensures code[i].EndFor? ==> code[i].target == lo + i && !Reserved(code[i].variable)
    {
      assert code[i] == b[i - |a|];
    }
  }

  lemma {:induction false} GeneratedTargeted(t: Tree, lo: nat)
    requires NamesFree(t)
    ensures Targeted(Generate(t, lo), lo)
    decreases t
  {
    hide Generate, GenerateChain, Size, ChainSize, ChainEntry, PostOrder, Targeted, Reserved;
    match t
    case Nil => NothingTargeted(lo);
    case Text(off, len, next) =>
      TextCode(off, len, next, lo);
      GeneratedTargeted(next, lo + 1);
      OneTargeted(Literal(off, len), lo);
      TargetedJoin([Literal(off, len)], Generate(next, lo + 1), lo);
    case Put(e, next) =>
      PutCode(e, next, lo);
      GeneratedTargeted(next, lo + 1);
      OneTargeted(Show(PostOrder(e)), lo);
      TargetedJoin([Show(PostOrder(e))], Generate(next, lo + 1), lo);
    case Cond(c, thn, rest, next) =>
      var mid := lo + 1 + Size(thn);
      var end := mid + ChainSize(rest);
      CondCode(c, thn, rest, next, lo);
      var op := If(ChainEntry(rest, mid), PostOrder(c), false);
      OneTargeted(op, lo);
      GeneratedTargeted(thn, lo + 1);
      TargetedJoin([op], Generate(thn, lo + 1), lo);
      ChainTargeted(rest, mid, end);
      TargetedJoin([op] + Generate(thn, lo + 1), GenerateChain(rest, mid, end), lo);
      OneTargeted(EndIf, end);
      TargetedJoin([op] + Generate(thn, lo + 1) + GenerateChain(rest, mid, end), [EndIf], lo);
      GeneratedTargeted(next, end + 1);
      TargetedJoin([op] + Generate(thn, lo + 1) + GenerateChain(rest, mid, end) + [EndIf], Generate(next, end + 1), lo);
    case Loop(v, e, body, next) =>
      var end := lo + 1 + Size(body);
      LoopCode(v, e, body, next, lo);
      var op := For(end, PostOrder(e), v, false);
      OneTargeted(op, lo);
      GeneratedTargeted(body, lo + 1);
      TargetedJoin([op], Generate(body, lo + 1), lo);
      OneTargeted(EndFor(end, PostOrder(e), v), end);
      TargetedJoin([op] + Generate(body, lo + 1), [EndFor(end, PostOrder(e), v)], lo);
      GeneratedTargeted(next, end + 1);
      TargetedJoin([op] + Generate(body, lo + 1) + [EndFor(end, PostOrder(e), v)], Generate(next, end + 1), lo);
  }

  lemma {:induction false} ChainTargeted(c: Chain, at: nat, end: nat)
    requires ChainFree(c)
    ensures Targeted(GenerateChain(c, at, end), at)
    decreases c
  {
    hide Generate, GenerateChain, Size, ChainSize, ChainEntry, PostOrder, Targeted, Reserved;
    ChainCode(c, at, end);
    match c
    case NoElse => NothingTargeted(at);
    case Otherwise(b) =>
      var ops := [Jump(end, false), Else];
      TwoTargeted(ops, at);
      GeneratedTargeted(b, at + 2);
      TargetedJoin(ops, Generate(b, at + 2), at);
    case OrElse(e, thn, rest) =>
      var mid := at + 2 + Size(thn);
      var ops := [Jump(end, false), Elif(ChainEntry(rest, mid), PostOrder(e), false)];
      TwoTargeted(ops, at);
      GeneratedTargeted(thn, at + 2);
      TargetedJoin(ops, Generate(thn, at + 2), at);
      ChainTargeted(rest, mid, end);
      TargetedJoin(ops + Generate(thn, at + 2), GenerateChain(rest, mid, end), at);
  }

  lemma NothingTargeted(lo: nat)
    ensures Generate(Nil, lo) == [] && Targeted([], lo)
  {
  }

  lemma OneTargeted(op: SymOp, at: nat)
    requires op.For? ==> at < op.target && !Reserved(op.variable)
    requires op.EndFor? ==> op.target == at && !Reserved(op.variable)
    ensures Targeted([op], at)
  {
  }

  lemma TwoTargeted(ops: seq<SymOp>, at: nat)
    requires |ops| == 2 && ops[0].Jump? && (ops[1].Else? || ops[1].Elif?)
    ensures Targeted(ops, at)
  {
  }

  /** Within [lo, hi) the code neither produces nor jumps, and its loop ends have no counter. */
  ghost predicate Spent(code: seq<SymOp>, lo: nat, hi: nat, ctx: Context) {
    forall i | lo <= i < hi && i < |code| ::
      !Produces(code[i]) && !code[i].Jump? && (code[i].EndFor? ==> Lookup(ctx, LoopKey(i)) == Dead)
  }

  /** Counters below `hi` that are gone stay gone. */
  ghost predicate GoneStay(ctx: Context, ctx': Context, hi: nat) {
    forall j: nat | j < hi && Lookup(ctx, LoopKey(j)) == Dead :: Lookup(ctx', LoopKey(j)) == Dead
  }

  /** A silent step goes to the next instruction and keeps `state`, or sets `state` to where it goes. */
  lemma SilentStep(sem: Semantics, code: seq<SymOp>, c: Config)
    requires StepOf(sem, code, c).Move?
    ensures c.pc < |code| && !Produces(code[c.pc])
    ensures var d := StepOf(sem, code, c).to;
            && (d.pc == d.state || (d.pc == c.pc + 1 && d.state == c.state && !code[c.pc].Jump?))
            && (!code[c.pc].For? && !code[c.pc].EndFor? ==> d.ctx == c.ctx)
  {
  }

  lemma SilentCounters(sem: Semantics, code: seq<SymOp>, c: Config)
    requires StepOf(sem, code, c).Move? && Targeted(code, 0)
    requires var d := StepOf(sem, code, c).to; d.pc == c.pc + 1 && d.state == c.state && d.pc != d.state
    ensures var d := StepOf(sem, code, c).to;
            GoneStay(c.ctx, d.ctx, c.pc) && (code[c.pc].EndFor? ==> Lookup(d.ctx, LoopKey(c.pc)) == Dead)
  {
    LoopKeyInjective(c.pc, c.pc);
    var d := StepOf(sem, code, c).to;
    forall j: nat | j < c.pc && Lookup(c.ctx, LoopKey(j)) == Dead ensures Lookup(d.ctx, LoopKey(j)) == Dead {
      LoopKeyInjective(j, c.pc);
      if code[c.pc].For? {
        LoopKeyInjective(j, code[c.pc].target);
      }
    }
  }

  /** A run to the end either goes straight on behind `c`, or the code behind its last state is spent. */
  lemma {:induction false} RunSpent(sem: Semantics, code: seq<SymOp>, c: Config, c': Config, out: seq<Chunk>, n: nat)
    requires Targeted(code, 0) && Run(sem, code, c, n) == (c', out) && StepOf(sem, code, c') == End
    ensures
      || (c.state == c'.state && Spent(code, c.pc, |code|, c'.ctx) && GoneStay(c.ctx, c'.ctx, c.pc))
      || Spent(code, c'.state, |code|, c'.ctx)
    decreases n
  {
    hide Targeted, Produces, Reserved, LoopKey;
    if n > 0 && StepOf(sem, code, c).Emit? {
      var next := StepOf(sem, code, c).next;
      RunSpent(sem, code, Config(next, next, c.ctx), c', out[1..], n - 1);
    } else if n > 0 && StepOf(sem, code, c).Move? {
      var d := StepOf(sem, code, c).to;
      SilentStep(sem, code, c);
      RunSpent(sem, code, d, c', out, n - 1);
      if d.pc != d.state {
        SilentCounters(sem, code, c);
      }
    }
  }

  // ---------------------------------------------------------------- running the spent code again

  /** No instruction of a stretch of code produces anything. */
  predicate Silent(code: seq<SymOp>) { forall op <- code :: !Produces(op) }

  lemma SilentParts(a: seq<SymOp>, b: seq<SymOp>)
    requires Silent(a + b)
    ensures Silent(a) && Silent(b)
  {
    forall op <- a ensures !Produces(op) {
      assert op in a + b;
    }
    forall op <- b ensures !Produces(op) {
      assert op in a + b;
    }
  }

  /** Silent code is the code of a tree that says nothing. */
  lemma {:induction false} SilentInterp(sem: Semantics, t: Tree, lo: nat, ctx: Context)
    requires Silent(Generate(t, lo))
    ensures Interp(sem, t, ctx).1 == []
    decreases t, 0
  {
    hide Generate, GenerateChain, Size, ChainSize, ChainEntry, PostOrder, EvalTree, Silent, InterpLoop, InterpChain;
    match t
    case Nil =>
    case Text(off, len, next) =>
      TextCode(off, len, next, lo);
      SilentParts([Literal(off, len)], Generate(next, lo + 1));
      NotSilent(Literal(off, len));
      assert false;
    case Put(e, next) =>
      PutCode(e, next, lo);
      SilentParts([Show(PostOrder(e))], Generate(next, lo + 1));
      NotSilent(Show(PostOrder(e)));
      assert false;
    case Cond(c, thn, rest, next) =>
      var mid := lo + 1 + Size(thn);
      var end := mid + ChainSize(rest);
      CondCode(c, thn, rest, next, lo);
      var a, b, d := [If(ChainEntry(rest, mid), PostOrder(c), false)], Generate(thn, lo + 1),
          GenerateChain(rest, mid, end);
      SilentParts(a + b + d + [EndIf], Generate(next, end + 1));
      SilentParts(a + b + d, [EndIf]);
      SilentParts(a + b, d);
      SilentParts(a, b);
      var r := if sem.truthy(EvalTree(sem.cond, ctx, c)) then Interp(sem, thn, ctx) else InterpChain(sem, rest, ctx);
      SilentInterp(sem, thn, lo + 1, ctx);
      SilentChain(sem, rest, mid, end, ctx);
      SilentInterp(sem, next, end + 1, r.0);
    case Loop(v, e, body, next) =>
      var end := lo + 1 + Size(body);
      LoopCode(v, e, body, next, lo);
      var a, b, d := [For(end, PostOrder(e), v, false)], Generate(body, lo + 1), [EndFor(end, PostOrder(e), v)];
      SilentParts(a + b + d, Generate(next, end + 1));
      SilentParts(a + b, d);
      SilentParts(a, b);
      var items := EvalTree(sem.value, ctx, e).Elements();
      SilentRounds(sem, v, body, lo + 1, items, ctx);
      SilentInterp(sem, next, end + 1, if items == [] then ctx else InterpLoop(sem, v, body, items, ctx).0 - {v});
  }

  lemma NotSilent(op: SymOp)
    requires Produces(op)
    ensures !Silent([op])
  {
    assert op in [op];
  }

  lemma {:induction false} SilentChain(sem: Semantics, c: Chain, at: nat, end: nat, ctx: Context)
    requires Silent(GenerateChain(c, at, end))
    ensures InterpChain(sem, c, ctx).1 == []
    decreases c, 0
  {
    hide Generate, GenerateChain, Size, ChainSize, ChainEntry, PostOrder, EvalTree, Silent, Interp;
    ChainCode(c, at, end);
    match c
    case NoElse =>
    case Otherwise(b) =>
      SilentParts([Jump(end, false), Else], Generate(b, at + 2));
      SilentInterp(sem, b, at + 2, ctx);
    case OrElse(e, thn, rest) =>
      var mid := at + 2 + Size(thn);
      var ops := [Jump(end, false), Elif(ChainEntry(rest, mid), PostOrder(e), false)];
      SilentParts(ops + Generate(thn, at + 2), GenerateChain(rest, mid, end));
      SilentParts(ops, Generate(thn, at + 2));
      SilentInterp(sem, thn, at + 2, ctx);
      SilentChain(sem, rest, mid, end, ctx);
  }

  lemma {:induction false} SilentRounds(sem: Semantics, v: string, body: Tree, lo: nat, items: seq<Json>, ctx: Context)
    requires Silent(Generate(body, lo))
    ensures InterpLoop(sem, v, body, items, ctx).1 == []
    decreases body, 1 + |items|
  {
    hide Generate, Silent, Interp;
    if items != [] {
      SilentInterp(sem, body, lo, ctx[v := items[0]]);
      SilentRounds(sem, v, body, lo, items[1..], Interp(sem, body, ctx[v := items[0]]).0);
    }
  }

  lemma SpentSilent(code: seq<SymOp>, lo: nat, seg: seq<SymOp>, ctx: Context)
    requires At(code, lo, seg) && Spent(code, lo, lo + |seg|, ctx)
    ensures Silent(seg)
  {
    forall op <- seg ensures !Produces(op) {
      var i :| 0 <= i < |seg| && seg[i] == op;
      assert code[lo..lo + |seg|][i] == code[lo + i];
    }
  }

  /** How reading on behind an end comes out: at the end again, or started over, on a context. */
  datatype Rest = Finished(ctx: Context) | Restarted(ctx: Context)

  /** Reads on in silence from address `at` of a tree whose code begins at `lo`. A loop that was entered
      before has lost its counter: it starts the template over, on its first item, unless it has none. */
  function ReadOn(sem: Semantics, t: Tree, lo: nat, at: nat, ctx: Context): Rest
    decreases t
  {
    if at <= lo then Finished(Interp(sem, t, ctx).0)
    else
      match t
      case Nil => Finished(ctx)
      case Text(_, _, next) => ReadOn(sem, next, lo + 1, at, ctx)
      case Put(_, next) => ReadOn(sem, next, lo + 1, at, ctx)
      case Cond(_, thn, rest, next) =>
        var mid := lo + 1 + Size(thn);
        var end := mid + ChainSize(rest);
        if at > end then ReadOn(sem, next, end + 1, at, ctx)
        else Onward(sem, next, if at <= mid then ReadOn(sem, thn, lo + 1, at, ctx)
                    else ReadOnChain(sem, rest, mid, at, ctx))
      case Loop(v, e, body, next) =>
        var end := lo + 1 + Size(body);
        if at > end then ReadOn(sem, next, end + 1, at, ctx)
        else LoopOnward(sem, v, e, next, ReadOn(sem, body, lo + 1, at, ctx))
  }

  function ReadOnChain(sem: Semantics, c: Chain, lo: nat, at: nat, ctx: Context): Rest
    decreases c
  {
    match c
    case NoElse => Finished(ctx)
    case Otherwise(b) => ReadOn(sem, b, lo + 2, at, ctx)
    case OrElse(e, thn, rest) =>
      var mid := lo + 2 + Size(thn);
      if at > mid then ReadOnChain(sem, rest, mid, at, ctx)
      else if at > lo + 1 then ReadOn(sem, thn, lo + 2, at, ctx)
      else Finished(InterpChain(sem, c, ctx).0)
  }

  function Onward(sem: Semantics, next: Tree, r: Rest): Rest {
    if r.Restarted? then r else Finished(Interp(sem, next, r.ctx).0)
  }

  function LoopOnward(sem: Semantics, v: string, e: Expr, next: Tree, r: Rest): Rest {
    if r.Restarted? then r
    else
      var arr := EvalTree(sem.value, r.ctx, e);
      if arr.Length() > 0 then Restarted(SetKey(r.ctx, v, arr.At(0))) else Finished(Interp(sem, next, r.ctx - {v}).0)
  }

  /** From `c` the code silently came to `c'`, at `hi` or where it starts over, as `r` says. */
  ghost predicate Reruns(sem: Semantics, code: seq<SymOp>, c: Config, c': Config, lo: nat, hi: nat, r: Rest) {
    && Reaches(sem, code, c, c', [])
    && match r
       case Restarted(ctx) => Restarts(sem, code, c') && Visible(Anew(sem, code, c')) == ctx
       case Finished(ctx) => c'.pc == hi && CountersKept(c.ctx, c'.ctx, lo, hi) && Visible(c'.ctx) == ctx
  }

  lemma RerunsMove(sem: Semantics, code: seq<SymOp>, c: Config, d: Config, c': Config, lo: nat, lo': nat, hi: nat,
                   r: Rest)
    requires StepOf(sem, code, c) == Move(d) && lo <= lo' <= hi && CountersKept(c.ctx, d.ctx, lo, lo')
            && Reruns(sem, code, d, c', lo', hi, r)
    ensures Reruns(sem, code, c, c', lo, hi, r)
  {
    MoveThen(sem, code, c, d, c', []);
    if r.Finished? {
      CountersJoin(c.ctx, d.ctx, c'.ctx, lo, lo', hi);
    }
  }

  lemma RerunsJoin(sem: Semantics, code: seq<SymOp>, c: Config, d: Config, c': Config, lo: nat, mid: nat, hi: nat,
                   ctx: Context, r: Rest)
    requires Reruns(sem, code, c, d, lo, mid, Finished(ctx)) && lo <= mid <= hi && Reruns(sem, code, d, c', mid, hi, r)
    ensures Reruns(sem, code, c, c', lo, hi, r)
  {
    ReachesJoin(sem, code, c, d, c', [], []);
    var none: seq<Chunk> := [];
    assert none + none == none;
    if r.Finished? {
      CountersJoin(c.ctx, d.ctx, c'.ctx, lo, mid, hi);
    }
  }

  lemma RerunsWiden(sem: Semantics, code: seq<SymOp>, c: Config, c': Config, lo: nat, lo': nat, hi: nat, r: Rest)
    requires Reruns(sem, code, c, c', lo', hi, r) && lo <= lo'
    ensures Reruns(sem, code, c, c', lo, hi, r)
  {
    if r.Finished? {
      CountersWiden(c.ctx, c'.ctx, lo', hi, lo, hi);
    }
  }

  lemma SpentPart(code: seq<SymOp>, lo: nat, hi: nat, lo': nat, hi': nat, ctx: Context)
    requires Spent(code, lo, hi, ctx) && lo <= lo' && hi' <= hi
    ensures Spent(code, lo', hi', ctx)
  {
  }

  lemma SpentKept(code: seq<SymOp>, ctx: Context, ctx': Context, lo: nat, mid: nat, hi: nat)
    requires Spent(code, mid, hi, ctx) && CountersKept(ctx, ctx', lo, mid)
    ensures Spent(code, mid, hi, ctx')
  {
  }

  /** Spent code of a whole tree is run in silence. */
  lemma RerunWhole(sem: Semantics, code: seq<SymOp>, lo: nat, t: Tree, c: Config) returns (c': Config)
    requires At(code, lo, Generate(t, lo)) && |code| < WORD && Runnable(t) && c.pc == lo
    requires Spent(code, lo, lo + Size(t), c.ctx)
    ensures Reruns(sem, code, c, c', lo, lo + Size(t), Finished(Interp(sem, t, Visible(c.ctx)).0))
  {
    hide Generate, Size, Runnable, At, Spent, Interp, Reaches, Silent;
    SpentSilent(code, lo, Generate(t, lo), c.ctx);
    SilentInterp(sem, t, lo, Visible(c.ctx));
    c' := SimTree(sem, code, lo, t, c);
  }

  /** Spent code, entered anywhere within a tree, silently comes to the end of the tree or to a loop
      end around the place where it was entered, which starts the template over, as reading on does. */
  lemma {:induction false} Rerun(sem: Semantics, code: seq<SymOp>, lo: nat, t: Tree, c: Config) returns (c': Config)
    requires At(code, lo, Generate(t, lo)) && |code| < WORD && Runnable(t) && lo <= c.pc <= lo + Size(t)
    requires Spent(code, c.pc, lo + Size(t), c.ctx)
    ensures Reruns(sem, code, c, c', lo, lo + Size(t), ReadOn(sem, t, lo, c.pc, Visible(c.ctx)))
    decreases t, 1
  {
    hide *;
    if c.pc == lo {
      c' := RerunWhole(sem, code, lo, t, c);
      WholeOn(sem, t, lo, Visible(c.ctx));
      return;
    }
    match t {
      case Nil => NilSize(); assert false;
      case Text(off, len, next) =>
        TextAt(code, lo, off, len, next);
        c' := Rerun(sem, code, lo + 1, next, c);
        TextOn(sem, off, len, next, lo, c.pc, Visible(c.ctx));
        RerunsWiden(sem, code, c, c', lo, lo + 1, lo + 1 + Size(next), ReadOn(sem, t, lo, c.pc, Visible(c.ctx)));
      case Put(e, next) =>
        PutAt(code, lo, e, next);
        c' := Rerun(sem, code, lo + 1, next, c);
        PutOn(sem, e, next, lo, c.pc, Visible(c.ctx));
        RerunsWiden(sem, code, c, c', lo, lo + 1, lo + 1 + Size(next), ReadOn(sem, t, lo, c.pc, Visible(c.ctx)));
      case Cond(e, thn, rest, next) => c' := RerunCond(sem, code, lo, e, thn, rest, next, c);
      case Loop(v, e, body, next) => c' := RerunLoop(sem, code, lo, v, e, body, next, c);
    }
  }

  // What reading on means, case by case.

  lemma WholeOn(sem: Semantics, t: Tree, lo: nat, ctx: Context)
    ensures ReadOn(sem, t, lo, lo, ctx) == Finished(Interp(sem, t, ctx).0)
  {
  }

  lemma TextOn(sem: Semantics, off: nat, len: nat, next: Tree, lo: nat, at: nat, ctx: Context)
    requires at > lo
    ensures ReadOn(sem, Text(off, len, next), lo, at, ctx) == ReadOn(sem, next, lo + 1, at, ctx)
  {
  }

  lemma PutOn(sem: Semantics, e: Expr, next: Tree, lo: nat, at: nat, ctx: Context)
    requires at > lo
    ensures ReadOn(sem, Put(e, next), lo, at, ctx) == ReadOn(sem, next, lo + 1, at, ctx)
  {
  }

  lemma CondOn(sem: Semantics, e: Expr, thn: Tree, rest: Chain, next: Tree, lo: nat, at: nat, ctx: Context)
    requires at > lo
    ensures var mid := lo + 1 + Size(thn);
            var end := mid + ChainSize(rest);
            ReadOn(sem, Cond(e, thn, rest, next), lo, at, ctx) ==
              if at > end then ReadOn(sem, next, end + 1, at, ctx)
              else Onward(sem, next, if at <= mid then ReadOn(sem, thn, lo + 1, at, ctx)
                                     else ReadOnChain(sem, rest, mid, at, ctx))
  {
  }

  lemma ElseOn(sem: Semantics, b: Tree, lo: nat, at: nat, ctx: Context)
    ensures ReadOnChain(sem, Otherwise(b), lo, at, ctx) == ReadOn(sem, b, lo + 2, at, ctx)
    ensures at <= lo + 2 ==> ReadOn(sem, b, lo + 2, at, ctx) == Finished(Interp(sem, b, ctx).0)
  {
  }

  lemma ElifOn(sem: Semantics, e: Expr, thn: Tree, rest: Chain, lo: nat, at: nat, ctx: Context)
    ensures var mid := lo + 2 + Size(thn);
            ReadOnChain(sem, OrElse(e, thn, rest), lo, at, ctx) ==
              if at > mid then ReadOnChain(sem, rest, mid, at, ctx)
              else if at > lo + 1 then ReadOn(sem, thn, lo + 2, at, ctx)
              else if sem.truthy(EvalTree(sem.cond, ctx, e)) then Finished(Interp(sem, thn, ctx).0)
              else Finished(InterpChain(sem, rest, ctx).0)
    ensures InterpChain(sem, NoElse, ctx).0 == ctx
  {
  }

  lemma LoopOn(sem: Semantics, v: string, e: Expr, body: Tree, next: Tree, lo: nat, at: nat, ctx: Context)
    requires at > lo
    ensures var end := lo + 1 + Size(body);
            ReadOn(sem, Loop(v, e, body, next), lo, at, ctx) ==
              if at > end then ReadOn(sem, next, end + 1, at, ctx)
              else LoopOnward(sem, v, e, next, ReadOn(sem, body, lo + 1, at, ctx))
  {
  }

  lemma OnwardIs(sem: Semantics, next: Tree, r: Rest)
    ensures r.Restarted? ==> Onward(sem, next, r) == r
    ensures r.Finished? ==> Onward(sem, next, r) == Finished(Interp(sem, next, r.ctx).0)
  {
  }

  lemma LoopOnwardIs(sem: Semantics, v: string, e: Expr, next: Tree, r: Rest)
    ensures r.Restarted? ==> LoopOnward(sem, v, e, next, r) == r
    ensures r.Finished? ==>
              var arr := EvalTree(sem.value, r.ctx, e);
              LoopOnward(sem, v, e, next, r) == if arr.Length() > 0 then Restarted(SetKey(r.ctx, v, arr.At(0)))
                                                else Finished(Interp(sem, next, r.ctx - {v}).0)
  {
  }

  lemma NilSize()
    ensures Size(Nil) == 0
  {
  }

  lemma TextAt(code: seq<SymOp>, lo: nat, off: nat, len: nat, next: Tree)
    ensures Size(Text(off, len, next)) == 1 + Size(next)
    ensures At(code, lo, Generate(Text(off, len, next), lo)) ==> At(code, lo + 1, Generate(next, lo + 1))
    ensures Runnable(Text(off, len, next)) ==> Runnable(next)
  {
    hide At;
    if At(code, lo, Generate(Text(off, len, next), lo)) {
      TextCode(off, len, next, lo);
      AtHead(code, lo, Literal(off, len), Generate(next, lo + 1));
    }
  }

  lemma PutAt(code: seq<SymOp>, lo: nat, e: Expr, next: Tree)
    ensures Size(Put(e, next)) == 1 + Size(next)
    ensures At(code, lo, Generate(Put(e, next), lo)) ==> At(code, lo + 1, Generate(next, lo + 1))
    ensures Runnable(Put(e, next)) ==> Runnable(next)
  {
    hide At, PostOrder;
    if At(code, lo, Generate(Put(e, next), lo)) {
      PutCode(e, next, lo);
      AtHead(code, lo, Show(PostOrder(e)), Generate(next, lo + 1));
    }
  }

  /** From the end marker of a block on. */
  lemma {:induction false} RerunNext(sem: Semantics, code: seq<SymOp>, end: nat, next: Tree, c: Config)
    returns (c': Config)
    requires At(code, end + 1, Generate(next, end + 1)) && |code| < WORD && Runnable(next)
    requires c.pc == end < |code| && code[end] == EndIf && Spent(code, end, end + 1 + Size(next), c.ctx)
    ensures Reruns(sem, code, c, c', end, end + 1 + Size(next), Finished(Interp(sem, next, Visible(c.ctx)).0))
  {
    hide *;
    MarkerSteps(sem, code, c);
    var d := c.(pc := end + 1);
    SpentPart(code, end, end + 1 + Size(next), end + 1, end + 1 + Size(next), c.ctx);
    c' := RerunWhole(sem, code, end + 1, next, d);
    CountersSame(c.ctx, end, end + 1);
    RerunsMove(sem, code, c, d, c', end, end + 1, end + 1 + Size(next), Finished(Interp(sem, next, Visible(c.ctx)).0));
  }

  lemma CountersSame(ctx: Context, lo: nat, hi: nat)
    ensures CountersKept(ctx, ctx, lo, hi)
  {
  }

  lemma BranchJumps(code: seq<SymOp>, rest: Chain, mid: nat, end: nat)
    requires At(code, mid, GenerateChain(rest, mid, end)) && !rest.NoElse?
    ensures mid < |code| && code[mid].Jump?
  {
    hide Generate, PostOrder;
    assert code[mid] == GenerateChain(rest, mid, end)[0];
  }

  /** A branch before a jump is not spent. */
  lemma SpentNoElse(code: seq<SymOp>, lo: nat, hi: nat, rest: Chain, mid: nat, end: nat, ctx: Context)
    requires Spent(code, lo, hi, ctx) && lo <= mid < hi && At(code, mid, GenerateChain(rest, mid, end))
    ensures rest.NoElse? && ChainSize(rest) == 0 && ChainEntry(rest, mid) == mid
  {
    hide At, GenerateChain;
    if !rest.NoElse? {
      BranchJumps(code, rest, mid, end);
    }
  }

  lemma {:induction false} RerunCond(sem: Semantics, code: seq<SymOp>, lo: nat, e: Expr, thn: Tree, rest: Chain,
                                     next: Tree, c: Config) returns (c': Config)
    requires At(code, lo, Generate(Cond(e, thn, rest, next), lo)) && |code| < WORD && Runnable(Cond(e, thn, rest, next))
    requires lo < c.pc <= lo + Size(Cond(e, thn, rest, next))
            && Spent(code, c.pc, lo + Size(Cond(e, thn, rest, next)), c.ctx)
    ensures Reruns(sem, code, c, c', lo, lo + Size(Cond(e, thn, rest, next)),
                   ReadOn(sem, Cond(e, thn, rest, next), lo, c.pc, Visible(c.ctx)))
    decreases Cond(e, thn, rest, next), 0
  {
    hide *;
    var mid := lo + 1 + Size(thn);
    var end := mid + ChainSize(rest);
    var hi := end + 1 + Size(next);
    var ctx := Visible(c.ctx);
    CondAt(code, lo, e, thn, rest, next);
    CondParts(sem, e, thn, rest, next, map[]);
    CondOn(sem, e, thn, rest, next, lo, c.pc, ctx);
    if c.pc > end {
      c' := Rerun(sem, code, end + 1, next, c);
      RerunsWiden(sem, code, c, c', lo, end + 1, hi, ReadOn(sem, next, end + 1, c.pc, ctx));
      return;
    }
    var from, r;
    if c.pc <= mid {
      SpentNoElse(code, c.pc, hi, rest, mid, end, c.ctx);
      SpentPart(code, c.pc, hi, c.pc, mid, c.ctx);
      c' := Rerun(sem, code, lo + 1, thn, c);
      from, r := lo + 1, ReadOn(sem, thn, lo + 1, c.pc, ctx);
    } else {
      SpentPart(code, c.pc, hi, c.pc, end, c.ctx);
      c' := RerunChain(sem, code, mid, end, rest, c);
      from, r := mid, ReadOnChain(sem, rest, mid, c.pc, ctx);
    }
    RerunsWiden(sem, code, c, c', lo, from, end, r);
    OnwardIs(sem, next, r);
    if r.Restarted? {
      RestartsReruns(sem, code, c, c', lo, end, hi, r);
    } else {
      RerunsEnds(sem, code, c, c', lo, end, r.ctx);
      SpentPart(code, c.pc, hi, end, hi, c.ctx);
      SpentKept(code, c.ctx, c'.ctx, lo, end, hi);
      var d := RerunNext(sem, code, end, next, c');
      RerunsJoin(sem, code, c, c', d, lo, end, hi, r.ctx, Onward(sem, next, r));
      c' := d;
    }
  }

  lemma RestartsReruns(sem: Semantics, code: seq<SymOp>, c: Config, c': Config, lo: nat, mid: nat, hi: nat, r: Rest)
    requires Reruns(sem, code, c, c', lo, mid, r) && r.Restarted?
    ensures Reruns(sem, code, c, c', lo, hi, r)
  {
  }

  lemma RerunsEnds(sem: Semantics, code: seq<SymOp>, c: Config, c': Config, lo: nat, hi: nat, ctx: Context)
    requires Reruns(sem, code, c, c', lo, hi, Finished(ctx))
    ensures c'.pc == hi && CountersKept(c.ctx, c'.ctx, lo, hi) && Visible(c'.ctx) == ctx
  {
  }

  /** In the branches behind the first, up to the end marker. */
  lemma {:induction false} RerunChain(sem: Semantics, code: seq<SymOp>, at: nat, end: nat, rest: Chain, c: Config)
    returns (c': Config)
    requires At(code, at, GenerateChain(rest, at, end)) && end == at + ChainSize(rest) && |code| < WORD
            && RunnableChain(rest)
    requires at < c.pc <= end && Spent(code, c.pc, end, c.ctx)
    ensures Reruns(sem, code, c, c', at, end, ReadOnChain(sem, rest, at, c.pc, Visible(c.ctx)))
    decreases rest, 1
  {
    hide *;
    match rest {
      case NoElse => NoElseSize(); assert false;
      case Otherwise(b) =>
        ElseParts(sem, b, map[], at, end);
        AtSplit(code, at, [Jump(end, false), Else], Generate(b, at + 2));
        ElseAt(code, at, end);
        ElseOn(sem, b, at, c.pc, Visible(c.ctx));
        if c.pc > at + 1 {
          c' := Rerun(sem, code, at + 2, b, c);
          RerunsWiden(sem, code, c, c', at, at + 2, end, ReadOn(sem, b, at + 2, c.pc, Visible(c.ctx)));
        } else {
          MarkerSteps(sem, code, c);
          var d := c.(pc := at + 2);
          SpentPart(code, at + 1, end, at + 2, end, c.ctx);
          c' := RerunWhole(sem, code, at + 2, b, d);
          CountersSame(c.ctx, at, at + 2);
          RerunsMove(sem, code, c, d, c', at, at + 2, end, Finished(Interp(sem, b, Visible(c.ctx)).0));
        }
      case OrElse(e, thn, rest') => c' := RerunElif(sem, code, at, end, e, thn, rest', c);
    }
  }

  lemma NoElseSize()
    ensures ChainSize(NoElse) == 0
  {
  }

  lemma {:induction false} RerunElif(sem: Semantics, code: seq<SymOp>, at: nat, end: nat, e: Expr, thn: Tree,
                                     rest: Chain, c: Config) returns (c': Config)
    requires At(code, at, GenerateChain(OrElse(e, thn, rest), at, end)) && end == at + ChainSize(OrElse(e, thn, rest))
    requires |code| < WORD && RunnableChain(OrElse(e, thn, rest))
    requires at < c.pc <= end && Spent(code, c.pc, end, c.ctx)
    ensures Reruns(sem, code, c, c', at, end, ReadOnChain(sem, OrElse(e, thn, rest), at, c.pc, Visible(c.ctx)))
    decreases OrElse(e, thn, rest), 0
  {
    hide *;
    var mid := at + 2 + Size(thn);
    ElifParts(sem, e, thn, rest, map[], at);
    ElifAt(code, at, e, thn, rest);
    var ctx := Visible(c.ctx);
    ElifOn(sem, e, thn, rest, at, c.pc, ctx);
    if c.pc > mid {
      c' := RerunChain(sem, code, mid, end, rest, c);
      RerunsWiden(sem, code, c, c', at, mid, end, ReadOnChain(sem, rest, mid, c.pc, ctx));
      return;
    }
    if mid < end {
      SpentNoElse(code, c.pc, end, rest, mid, end, c.ctx);
      assert false;
    }
    ChainGone(rest, mid);
    if c.pc > at + 1 {
      c' := Rerun(sem, code, at + 2, thn, c);
      RerunsWiden(sem, code, c, c', at, at + 2, end, ReadOn(sem, thn, at + 2, c.pc, ctx));
      return;
    }
    IfSteps(sem, code, c, e, mid);
    CountersSame(c.ctx, at, at + 2);
    if sem.truthy(EvalTree(sem.cond, Visible(c.ctx), e)) {
      var d := c.(pc := at + 2);
      SpentPart(code, at + 1, end, at + 2, end, c.ctx);
      c' := RerunWhole(sem, code, at + 2, thn, d);
      RerunsMove(sem, code, c, d, c', at, at + 2, end, Finished(Interp(sem, thn, ctx).0));
    } else {
      c' := c.(pc := mid, state := mid);
      RerunsStep(sem, code, c, c', at, end);
    }
  }

  lemma ChainGone(rest: Chain, mid: nat)
    requires ChainSize(rest) == 0
    ensures rest.NoElse? && ChainEntry(rest, mid) == mid
  {
  }

  lemma RerunsStep(sem: Semantics, code: seq<SymOp>, c: Config, d: Config, lo: nat, hi: nat)
    requires StepOf(sem, code, c) == Move(d) && d.ctx == c.ctx && d.pc == hi
    ensures Reruns(sem, code, c, d, lo, hi, Finished(Visible(c.ctx)))
  {
    ReachesMove(sem, code, c, d);
  }

  lemma {:induction false} RerunLoop(sem: Semantics, code: seq<SymOp>, lo: nat, v: string, e: Expr, body: Tree,
                                     next: Tree, c: Config) returns (c': Config)
    requires At(code, lo, Generate(Loop(v, e, body, next), lo)) && |code| < WORD && Runnable(Loop(v, e, body, next))
    requires lo < c.pc <= lo + Size(Loop(v, e, body, next))
            && Spent(code, c.pc, lo + Size(Loop(v, e, body, next)), c.ctx)
    ensures Reruns(sem, code, c, c', lo, lo + Size(Loop(v, e, body, next)),
                   ReadOn(sem, Loop(v, e, body, next), lo, c.pc, Visible(c.ctx)))
    decreases Loop(v, e, body, next), 0
  {
    hide *;
    var end := lo + 1 + Size(body);
    var hi := end + 1 + Size(next);
    var ctx := Visible(c.ctx);
    LoopAt(code, lo, v, e, body, next);
    LoopParts(sem, v, e, body, next, map[]);
    LoopOn(sem, v, e, body, next, lo, c.pc, ctx);
    if c.pc > end {
      c' := Rerun(sem, code, end + 1, next, c);
      RerunsWiden(sem, code, c, c', lo, end + 1, hi, ReadOn(sem, next, end + 1, c.pc, ctx));
      return;
    }
    SpentPart(code, c.pc, hi, c.pc, end, c.ctx);
    c' := Rerun(sem, code, lo + 1, body, c);
    var r := ReadOn(sem, body, lo + 1, c.pc, ctx);
    RerunsWiden(sem, code, c, c', lo, lo + 1, end, r);
    LoopOnwardIs(sem, v, e, next, r);
    if r.Restarted? {
      RestartsReruns(sem, code, c, c', lo, end, hi, r);
      return;
    }
    RerunsEnds(sem, code, c, c', lo, end, r.ctx);
    SpentPart(code, c.pc, hi, end, hi, c.ctx);
    SpentKept(code, c.ctx, c'.ctx, lo, end, hi);
    EvalVisible(sem.value, c'.ctx, e);
    if EvalTree(sem.value, r.ctx, e).Length() > 0 {
      LoopStartsOver(sem, code, hi, end, e, v, c');
      RerunsAnew(sem, code, c, c', lo, end, hi, r.ctx);
      return;
    }
    var d := LoopEndAgain(sem, code, hi, end, PostOrder(e), v, c');
    var f := RerunWhole(sem, code, end + 1, next, d);
    var last := Finished(Interp(sem, next, r.ctx - {v}).0);
    RerunsMove(sem, code, c', d, f, end, end + 1, hi, last);
    RerunsJoin(sem, code, c, c', f, lo, end, hi, r.ctx, last);
    c' := f;
  }

  lemma RerunsAnew(sem: Semantics, code: seq<SymOp>, c: Config, c': Config, lo: nat, mid: nat, hi: nat, ctx: Context)
    requires Reruns(sem, code, c, c', lo, mid, Finished(ctx)) && Restarts(sem, code, c')
    ensures Reruns(sem, code, c, c', lo, hi, Restarted(Visible(Anew(sem, code, c'))))
  {
  }

  /** A loop end without its counter whose array is not empty: the template starts over. */
  lemma LoopStartsOver(sem: Semantics, code: seq<SymOp>, hi: nat, end: nat, e: Expr, v: string, c: Config)
    requires c.pc == end < |code| && code[end] == EndFor(end, PostOrder(e), v) && !Reserved(v)
    requires end < hi && Spent(code, end, hi, c.ctx)
    requires EvalRpn(sem.value, c.ctx, PostOrder(e)) == EvalTree(sem.value, Visible(c.ctx), e)
    requires EvalTree(sem.value, Visible(c.ctx), e).Length() > 0
    ensures Restarts(sem, code, c)
    ensures Visible(Anew(sem, code, c)) == SetKey(Visible(c.ctx), v, EvalTree(sem.value, Visible(c.ctx), e).At(0))
  {
    LoopKeyInjective(end, end);
  }

  /** A loop end without its counter, where the code does not start over: it is passed. */
  lemma LoopEndAgain(sem: Semantics, code: seq<SymOp>, hi: nat, end: nat, e: seq<Sym>, v: string, c: Config)
    returns (d: Config)
    requires c.pc == end < |code| && code[end] == EndFor(end, e, v) && !Reserved(v)
    requires end < hi && Spent(code, end, hi, c.ctx) && EvalRpn(sem.value, c.ctx, e).Length() == 0
    ensures StepOf(sem, code, c) == Move(d) && d.pc == end + 1 && Visible(d.ctx) == Visible(c.ctx) - {v}
    ensures CountersKept(c.ctx, d.ctx, end, end + 1) && Spent(code, end + 1, hi, d.ctx)
  {
    d := NextRound(c, EvalRpn(sem.value, c.ctx, e), end, v);
    LoopKeyInjective(end, end);
    forall j: nat | j != end ensures Lookup(d.ctx, LoopKey(j)) == Lookup(c.ctx, LoopKey(j)) {
      LoopKeyInjective(j, end);
    }
  }

  // ---------------------------------------------------------------- asked again after the end

  lemma WholeCode(t: Tree)
    ensures At(Generate(t, 0), 0, Generate(t, 0)) && |Generate(t, 0)| == Size(t)
  {
    var code := Generate(t, 0);
    assert code[0..0 + |code|] == code;
  }

  /** Reading on behind the end of a template that was read on `ctx`. */
  function ReadBehind(sem: Semantics, t: Tree, ctx: Context): Rest {
    ReadOn(sem, t, 0, StateAfter(sem, t, 0, ctx, 0), Interp(sem, t, ctx).0)
  }

  /** What a template says that is asked again after its end. */
  function Reread(sem: Semantics, t: Tree, ctx: Context): seq<Chunk> {
    match ReadBehind(sem, t, ctx)
    case Finished(_) => []
    case Restarted(anew) => Interp(sem, t, anew).1
  }

  /** Behind the last instruction nothing is read. */
  lemma {:induction false} ReadOnPast(sem: Semantics, t: Tree, lo: nat, at: nat, ctx: Context)
    requires at > lo + Size(t)
    ensures ReadOn(sem, t, lo, at, ctx) == Finished(ctx)
    decreases t
  {
    hide Interp, EvalTree, ReadOnChain;
    match t
    case Nil =>
    case Text(_, _, next) => ReadOnPast(sem, next, lo + 1, at, ctx);
    case Put(_, next) => ReadOnPast(sem, next, lo + 1, at, ctx);
    case Cond(_, thn, rest, next) => ReadOnPast(sem, next, lo + 1 + Size(thn) + ChainSize(rest) + 1, at, ctx);
    case Loop(_, _, body, next) => ReadOnPast(sem, next, lo + 1 + Size(body) + 1, at, ctx);
  }

  /** Asked again after its end, a template ends again in silence, or silently comes to a loop end
      that starts it over on another context: which of the two, and on what, reading on tells. */
  lemma EndsOrRestarts(sem: Semantics, t: Tree, ctx: Context, c: Config, out: seq<Chunk>) returns (d: Config)
    requires Runnable(t) && Size(t) < WORD
    requires Reaches(sem, Generate(t, 0), Config(0, 0, ctx), c, out) && StepOf(sem, Generate(t, 0), c) == End
    ensures Reaches(sem, Generate(t, 0), Resumed(c), d, [])
    ensures match ReadBehind(sem, t, Visible(ctx))
            case Finished(_) => StepOf(sem, Generate(t, 0), d) == End
            case Restarted(anew) =>
              Restarts(sem, Generate(t, 0), d) && Visible(Anew(sem, Generate(t, 0), d)) == anew
  {
    hide Generate, Size, Runnable, At, Spent, Run, Visible, Targeted, Interp, StateAfter, ReadOn, Restarts, StepOf;
    var code := Generate(t, 0);
    WholeCode(t);
    RunnableNames(t);
    GeneratedTargeted(t, 0);
    var fin := CodeFollowsTree(sem, t, ctx);
    EndUnique(sem, code, Config(0, 0, ctx), c, fin, out, Interp(sem, t, Visible(ctx)).1);
    var n: nat :| Run(sem, code, Config(0, 0, ctx), n) == (c, out);
    RunSpent(sem, code, Config(0, 0, ctx), c, out, n);
    if c.state > Size(t) {
      d := Resumed(c);
      ReachesNow(sem, code, d);
      ReadOnPast(sem, t, 0, c.state, Visible(c.ctx));
    } else {
      SpentFrom(code, 0, c.state, c.ctx);
      d := Rerun(sem, code, 0, t, Resumed(c));
    }
    BehindCode(sem, code, d);
  }

  lemma SpentFrom(code: seq<SymOp>, lo: nat, at: nat, ctx: Context)
    requires Spent(code, lo, |code|, ctx) || Spent(code, at, |code|, ctx)
    requires lo <= at
    ensures Spent(code, at, |code|, ctx)
  {
  }

  lemma BehindCode(sem: Semantics, code: seq<SymOp>, d: Config)
    ensures d.pc >= |code| ==> StepOf(sem, code, d) == End
  {
  }

  lemma RunnableNames(t: Tree)
    requires Runnable(t)
    ensures NamesFree(t)
  {
  }

  /** Asked again after its end `c`, the template ends again and has said what rereading says: nothing,
      or what reading it on another context says. */
  lemma AskedAgain(sem: Semantics, t: Tree, ctx: Context, c: Config, out: seq<Chunk>)
    returns (c': Config, anew: Context)
    requires Runnable(t) && Size(t) < WORD
    requires Reaches(sem, Generate(t, 0), Config(0, 0, ctx), c, out) && StepOf(sem, Generate(t, 0), c) == End
    ensures var more := Reread(sem, t, Visible(ctx));
            && Again(sem, Generate(t, 0), c, c', more)
            && (more == [] || Reaches(sem, Generate(t, 0), Config(0, 0, anew), c', more))
  {
    hide Generate, Size, Runnable, Run, Visible, Interp, Reaches, Restarts, ReadBehind;
    var code := Generate(t, 0);
    c' := EndsOrRestarts(sem, t, ctx, c, out);
    anew := ctx;
    if ReadBehind(sem, t, Visible(ctx)).Restarted? {
      anew := Anew(sem, code, c');
      c' := StartedOver(sem, t, c, c');
    }
  }

  /** Asked again after its end `c`, the template says what rereading it says and nothing else. */
  lemma EndMetAgain(sem: Semantics, t: Tree, ctx: Context, c: Config, out: seq<Chunk>, more: seq<Chunk>)
    requires Runnable(t) && Size(t) < WORD
    requires Reaches(sem, Generate(t, 0), Config(0, 0, ctx), c, out) && StepOf(sem, Generate(t, 0), c) == End
    ensures (exists c' :: Again(sem, Generate(t, 0), c, c', more)) <==> more == Reread(sem, t, Visible(ctx))
  {
    hide Generate, Size, Runnable, Run, Visible, Interp, Reaches, Restarts, Reread;
    var code := Generate(t, 0);
    var d, anew := AskedAgain(sem, t, ctx, c, out);
    forall c' | Again(sem, code, c, c', more) ensures more == Reread(sem, t, Visible(ctx)) {
      EndUnique(sem, code, Resumed(c), c', d, more, Reread(sem, t, Visible(ctx)));
    }
  }

  /** Started over where its loop ends, the template says what reading the tree again says. */
  lemma StartedOver(sem: Semantics, t: Tree, c: Config, d: Config) returns (c': Config)
    requires Runnable(t) && Size(t) < WORD
    requires Reaches(sem, Generate(t, 0), Resumed(c), d, []) && Restarts(sem, Generate(t, 0), d)
    ensures Again(sem, Generate(t, 0), c, c', Interp(sem, t, Visible(Anew(sem, Generate(t, 0), d))).1)
    ensures Reaches(sem, Generate(t, 0), Config(0, 0, Anew(sem, Generate(t, 0), d)), c',
                    Interp(sem, t, Visible(Anew(sem, Generate(t, 0), d))).1)
  {
    hide Generate, Size, Runnable, Run, Visible, Interp, Reaches, Restarts;
    var code := Generate(t, 0);
    RestartsAtZero(sem, code, d);
    var anew := Anew(sem, code, d);
    var more := Interp(sem, t, Visible(anew)).1;
    c' := CodeFollowsTree(sem, t, anew);
    ThenMove(sem, code, Resumed(c), d, Config(0, 0, anew), []);
    ReachesJoin(sem, code, Resumed(c), Config(0, 0, anew), c', [], more);
    assert [] + more == more;
  }

  // ---------------------------------------------------------------- code without a loop at its end

  /** No loop instruction stands behind the last one that produces a chunk. */
  ghost predicate PlainTail(code: seq<SymOp>) {
    exists k: nat | k <= |code| :: PlainFrom(code, k)
  }

  predicate PlainFrom(code: seq<SymOp>, k: nat) {
    && k <= |code| && (k > 0 ==> Produces(code[k - 1]))
    && forall i | k <= i < |code| :: !code[i].For? && !code[i].EndFor?
  }

  /** The template's last item is a literal or a printed value. */
  predicate EndsInOutput(t: Tree) {
    match t
    case Nil => false
    case Text(_, _, next) => next.Nil? || EndsInOutput(next)
    case Put(_, next) => next.Nil? || EndsInOutput(next)
    case Cond(_, _, _, next) => EndsInOutput(next)
    case Loop(_, _, _, next) => EndsInOutput(next)
  }

  lemma {:induction false} OutputLast(t: Tree, lo: nat)
    requires EndsInOutput(t)
    ensures var code := Generate(t, lo); code != [] && Produces(Last(code))
    decreases t, 0
  {
    hide Generate, GenerateChain, Size, ChainSize, ChainEntry, PostOrder;
    match t
    case Text(off, len, next) => TextCode(off, len, next, lo); BeforeOutput([Literal(off, len)], next, lo + 1);
    case Put(e, next) => PutCode(e, next, lo); BeforeOutput([Show(PostOrder(e))], next, lo + 1);
    case Cond(c, thn, rest, next) =>
      CondCode(c, thn, rest, next, lo);
      OutputLast(next, lo + 1 + Size(thn) + ChainSize(rest) + 1);
    case Loop(v, e, body, next) =>
      LoopCode(v, e, body, next, lo);
      OutputLast(next, lo + 1 + Size(body) + 1);
  }

  lemma {:induction false} BeforeOutput(head: seq<SymOp>, next: Tree, lo: nat)
    requires |head| == 1 && Produces(head[0]) && (next.Nil? || EndsInOutput(next))
    ensures Produces(Last(head + Generate(next, lo)))
    decreases next, 1
  {
    if !next.Nil? {
      OutputLast(next, lo);
    }
  }

  lemma OutputTailPlain(t: Tree)
    requires EndsInOutput(t)
    ensures PlainTail(Generate(t, 0))
  {
    hide Generate, PlainFrom;
    OutputLast(t, 0);
    NothingBehind(Generate(t, 0));
  }

  lemma NothingBehind(code: seq<SymOp>)
    requires code != [] && Produces(Last(code))
    ensures PlainFrom(code, |code|)
  {
  }

  /** From the state a run ended in, the run is silent and ends in the same place: an output or a
      jump set that state on the way, or nothing but straight steps were made behind `k`. */
  lemma {:induction false} EndAgain(sem: Semantics, code: seq<SymOp>, k: nat, c: Config, c': Config, out: seq<Chunk>,
                                    n: nat)
    requires PlainFrom(code, k) && Run(sem, code, c, n) == (c', out) && StepOf(sem, code, c') == End
    ensures
      || (out == [] && c.pc >= k && c'.state == c.state && c'.ctx == c.ctx)
      || Again(sem, code, c', c', [])
    decreases n
  {
    if n > 0 && StepOf(sem, code, c).Emit? {
      var next := StepOf(sem, code, c).next;
      var d := Config(next, next, c.ctx);
      EndAgain(sem, code, k, d, c', out[1..], n - 1);
      if out[1..] == [] {
        assert Reaches(sem, code, d, c', []);
      }
    } else if n > 0 && StepOf(sem, code, c).Move? {
      var d := StepOf(sem, code, c).to;
      SilentStep(sem, code, c);
      EndAgain(sem, code, k, d, c', out, n - 1);
      if d.pc == d.state && out == [] {
        assert Reaches(sem, code, d, c', []);
      }
    }
  }

  /** Asked again after its end, code without a loop behind its last output ends again in silence. */
  lemma EndsAgain(sem: Semantics, code: seq<SymOp>, s: nat, ctx: Context, c: Config, out: seq<Chunk>)
    requires PlainTail(code) && Reaches(sem, code, Config(s, s, ctx), c, out) && StepOf(sem, code, c) == End
    ensures Again(sem, code, c, c, [])
  {
    var k: nat :| k <= |code| && PlainFrom(code, k);
    var n: nat :| Run(sem, code, Config(s, s, ctx), n) == (c, out);
    EndAgain(sem, code, k, Config(s, s, ctx), c, out, n);
  }

  // ---------------------------------------------------------------- a loop at the end of a template

  /** The items of t, then those of u. */
  function Append(t: Tree, u: Tree): Tree {
    match t
    case Nil => u
    case Text(off, len, next) => Text(off, len, Append(next, u))
    case Put(e, next) => Put(e, Append(next, u))
    case Cond(c, thn, rest, next) => Cond(c, thn, rest, Append(next, u))
    case Loop(v, e, body, next) => Loop(v, e, body, Append(next, u))
  }

  lemma {:induction false} AppendCode(t: Tree, u: Tree, lo: nat)
    ensures Generate(Append(t, u), lo) == Generate(t, lo) + Generate(u, lo + Size(t))
    ensures Size(Append(t, u)) == Size(t) + Size(u)
    decreases t
  {
    hide Generate, Size, GenerateChain, PostOrder, ChainEntry;
    AppendSize(t, u);
    var code := Generate(u, lo + Size(t));
    match t
    case Nil => EmptyCode(lo);
    case Text(off, len, next) =>
      TextCode(off, len, next, lo);
      TextCode(off, len, Append(next, u), lo);
      AppendCode(next, u, lo + 1);
      Assoc([Literal(off, len)], Generate(next, lo + 1), code);
    case Put(e, next) =>
      PutCode(e, next, lo);
      PutCode(e, Append(next, u), lo);
      AppendCode(next, u, lo + 1);
      Assoc([Show(PostOrder(e))], Generate(next, lo + 1), code);
    case Cond(c, thn, rest, next) =>
      AppendCode(next, u, lo + 1 + Size(thn) + ChainSize(rest) + 1);
      AppendCond(c, thn, rest, next, u, lo, code);
    case Loop(v, e, body, next) =>
      AppendCode(next, u, lo + 1 + Size(body) + 1);
      AppendLoop(v, e, body, next, u, lo, code);
  }

  lemma {:induction false} AppendCond(c: Expr, thn: Tree, rest: Chain, next: Tree, u: Tree, lo: nat, code: seq<SymOp>)
    requires var end := lo + 1 + Size(thn) + ChainSize(rest);
             Generate(Append(next, u), end + 1) == Generate(next, end + 1) + code
    ensures Generate(Cond(c, thn, rest, Append(next, u)), lo) == Generate(Cond(c, thn, rest, next), lo) + code
  {
    hide Generate, Size, ChainSize, GenerateChain, PostOrder, ChainEntry, Append;
    var mid := lo + 1 + Size(thn);
    var end := mid + ChainSize(rest);
    CondCode(c, thn, rest, next, lo);
    CondCode(c, thn, rest, Append(next, u), lo);
    Assoc([If(ChainEntry(rest, mid), PostOrder(c), false)] + Generate(thn, lo + 1) + GenerateChain(rest, mid, end)
          + [EndIf],
          Generate(next, end + 1), code);
  }

  lemma {:induction false} AppendLoop(v: string, e: Expr, body: Tree, next: Tree, u: Tree, lo: nat, code: seq<SymOp>)
    requires var end := lo + 1 + Size(body); Generate(Append(next, u), end + 1) == Generate(next, end + 1) + code
    ensures Generate(Loop(v, e, body, Append(next, u)), lo) == Generate(Loop(v, e, body, next), lo) + code
  {
    hide Generate, Size, PostOrder, Append;
    var end := lo + 1 + Size(body);
    LoopCode(v, e, body, next, lo);
    LoopCode(v, e, body, Append(next, u), lo);
    Assoc([For(end, PostOrder(e), v, false)] + Generate(body, lo + 1) + [EndFor(end, PostOrder(e), v)],
          Generate(next, end + 1), code);
  }

  /** The size of a list of items is that of its first item and of the rest. */
  lemma AppendSize(t: Tree, u: Tree)
    ensures Size(Append(t, u)) == Size(t) + Size(u)
    ensures t.Nil? ==> Size(t) == 0
    ensures t.Text? || t.Put? ==> Size(t) == 1 + Size(t.next)
    ensures t.Cond? ==> Size(t) == 1 + Size(t.thn) + ChainSize(t.rest) + 1 + Size(t.next)
    ensures t.Loop? ==> Size(t) == 1 + Size(t.body) + 1 + Size(t.next)
  {
  }

  lemma {:induction false} AppendRunnable(t: Tree, u: Tree)
    requires Runnable(Append(t, u))
    ensures Runnable(t) && Runnable(u)
    decreases t
  {
    match t
    case Nil =>
    case Text(_, _, next) => AppendRunnable(next, u);
    case Put(_, next) => AppendRunnable(next, u);
    case Cond(_, _, _, next) => AppendRunnable(next, u);
    case Loop(_, _, _, next) => AppendRunnable(next, u);
  }

  /** A run that comes to the instruction behind an output came there from the output. */
  lemma {:induction false} BehindOutput(sem: Semantics, code: seq<SymOp>, c: Config, c': Config, out: seq<Chunk>,
      n: nat)
    requires Run(sem, code, c, n) == (c', out) && 0 < c'.pc <= |code| && Produces(code[c'.pc - 1])
    requires c.pc == c'.pc ==> c.state == c'.pc
    ensures c'.state == c'.pc
    decreases n
  {
    if n > 0 && StepOf(sem, code, c).Emit? {
      var next := StepOf(sem, code, c).next;
      BehindOutput(sem, code, Config(next, next, c.ctx), c', out[1..], n - 1);
    } else if n > 0 && StepOf(sem, code, c).Move? {
      SilentStep(sem, code, c);
      BehindOutput(sem, code, StepOf(sem, code, c).to, c', out, n - 1);
    }
  }

  /** The body of the last loop has been run once more: the state is that of the loop's end. */
  lemma BodyEnds(sem: Semantics, code: seq<SymOp>, lo: nat, body: Tree, c: Config) returns (c': Config, out: seq<Chunk>)
    requires At(code, lo, Generate(body, lo)) && |code| < WORD && Runnable(body) && EndsInOutput(body) && c.pc == lo
    ensures Reaches(sem, code, c, c', out) && c'.pc == c'.state == lo + Size(body)
    ensures Visible(c'.ctx) == Interp(sem, body, Visible(c.ctx)).0 && CountersKept(c.ctx, c'.ctx, lo, lo + Size(body))
  {
    hide Generate, Size, Runnable, Interp, Run, Produces, EndsInOutput;
    c' := SimTree(sem, code, lo, body, c);
    out := Interp(sem, body, Visible(c.ctx)).1;
    OutputLast(body, lo);
    var seg := Generate(body, lo);
    assert code[lo..lo + |seg|][|seg| - 1] == code[lo + |seg| - 1];
    var n: nat :| Run(sem, code, c, n) == (c', out);
    BehindOutput(sem, code, c, c', out, n);
  }

  /** From the body on, with `k` items begun, the loop ends with its counter erased and leaves the
      state of its own end behind. */
  lemma {:induction false} RoundsLeft(sem: Semantics, code: seq<SymOp>, lo: nat, v: string, e: Expr, body: Tree,
                                      arr: Ref, k: nat, c: Config)
    returns (c': Config, out: seq<Chunk>)
    requires At(code, lo, Generate(Loop(v, e, body, Nil), lo)) && |code| < WORD && Runnable(Loop(v, e, body, Nil))
            && EndsInOutput(body)
    requires c.pc == lo + 1 && 0 < k <= |arr.Elements()| && arr.IsArray()
            && EvalTree(sem.value, Visible(c.ctx), e) == arr
    requires Lookup(c.ctx, LoopKey(lo + 1 + Size(body))) == Live(Num(Pack(lo + 1, k)))
    ensures var end := lo + 1 + Size(body);
            && Reaches(sem, code, c, c', out) && c'.pc == end + 1 && c'.state == end
            && Lookup(c'.ctx, LoopKey(end)) == Dead && EvalTree(sem.value, Visible(c'.ctx), e) == arr
    decreases |arr.Elements()| - k
  {
    hide *;
    var end := lo + 1 + Size(body);
    var items := arr.Elements();
    LoopAt(code, lo, v, e, body, Nil);
    LoopParts(sem, v, e, body, Nil, Visible(c.ctx));
    var c1, out1 := BodyEnds(sem, code, lo + 1, body, c);
    StableAfterBody(sem, Visible(c.ctx), body, e);
    KeptOutside(c.ctx, c1.ctx, lo + 1, end, end);
    ForSteps(sem, code, c1, v, e, end);
    NextRoundVisible(c1, arr, end, v, lo + 1, k);
    var c2 := NextRound(c1, arr, end, v);
    ThenMove(sem, code, c, c1, c2, out1);
    if k < |items| {
      StableAfterSet(sem.value, Visible(c1.ctx), v, items[k], e);
      var more;
      c', more := RoundsLeft(sem, code, lo, v, e, body, arr, k + 1, c2);
      out := out1 + more;
      ReachesJoin(sem, code, c, c2, c', out1, more);
    } else {
      c', out := c2, out1;
      LastRoundErases(c1, arr, end, v, lo + 1);
      StableAfterErase(sem.value, Visible(c1.ctx), v, e);
    }
  }

  lemma KeptOutside(ctx: Context, ctx': Context, lo: nat, hi: nat, j: nat)
    requires CountersKept(ctx, ctx', lo, hi) && !(lo <= j < hi)
    ensures Lookup(ctx', LoopKey(j)) == Lookup(ctx, LoopKey(j))
  {
  }

  lemma LastRoundErases(c: Config, arr: Ref, end: nat, v: string, iid: nat)
    requires iid < WORD && arr.IsArray() && Lookup(c.ctx, LoopKey(end)) == Live(Num(Pack(iid, |arr.Elements()|)))
    ensures var d := NextRound(c, arr, end, v); Lookup(d.ctx, LoopKey(end)) == Dead && d.state == c.state
  {
    PackUnpack(iid, |arr.Elements()|);
  }

  lemma StableAfterErase(m: Meaning, ctx: Context, v: string, e: Expr)
    requires v !in Roots(e)
    ensures EvalTree(m, ctx - {v}, e) == EvalTree(m, ctx, e)
  {
    EvalReadsRoots(m, ctx - {v}, ctx, e);
  }

  /** The template ends in a loop whose body ends in output. Asked again after its end it starts over
      if and only if the loop had items, whatever stands before the loop. */
  lemma TrailingLoopRestarts(sem: Semantics, t: Tree, v: string, e: Expr, body: Tree, ctx: Context)
    returns (c: Config, out: seq<Chunk>)
    requires var u := Append(t, Loop(v, e, body, Nil)); Runnable(u) && Size(u) < WORD
    requires EndsInOutput(body)
    ensures var u := Append(t, Loop(v, e, body, Nil));
            var code := Generate(u, 0);
            var items := EvalTree(sem.value, Interp(sem, t, Visible(ctx)).0, e).Elements();
            && Reaches(sem, code, Config(0, 0, ctx), c, out) && StepOf(sem, code, c) == End
            && (Visible(c.ctx), out) == Interp(sem, u, Visible(ctx))
            && (Restarts(sem, code, Resumed(c)) <==> items != [])
            && (Again(sem, code, c, Resumed(c), []) <==> items == [])
            && (items != [] ==> Visible(Anew(sem, code, Resumed(c))) == Visible(c.ctx)[v := items[0]])
  {
    hide *;
    var loop := Loop(v, e, body, Nil);
    var u := Append(t, loop);
    var code := Generate(u, 0);
    var lo := Size(t);
    var end := lo + 1 + Size(body);
    AppendCode(t, loop, 0);
    AppendRunnable(t, loop);
    WholeCode(u);
    AtSplit(code, 0, Generate(t, 0), Generate(loop, lo));
    LoopAt(code, lo, v, e, body, Nil);
    LoopParts(sem, v, e, body, Nil, map[]);
    NilSize();
    var c0 := SimTree(sem, code, 0, t, Config(0, 0, ctx));
    var r := Interp(sem, t, Visible(ctx));
    FollowsEnds(sem, code, Config(0, 0, ctx), c0, 0, lo, r);
    FollowsReaches(sem, code, Config(0, 0, ctx), c0, 0, lo, r);
    var arr := EvalTree(sem.value, r.0, e);
    ForSteps(sem, code, c0, v, e, end);
    if arr.Elements() == [] {
      EnterLoopSkips(c0, arr, end, v);
      c, out := c0.(pc := end + 1, state := end + 1), r.1;
      ThenMove(sem, code, Config(0, 0, ctx), c0, c, out);
      PastEnd(sem, code, c);
    } else {
      var c1 := EnterLoop(c0, arr, end, v);
      EnterLoopVisible(c0, arr, end, v);
      HasItems(arr);
      StableAfterSet(sem.value, r.0, v, arr.Elements()[0], e);
      var more;
      c, more := RoundsLeft(sem, code, lo, v, e, body, arr, 1, c1);
      MoveThen(sem, code, c0, c1, c, more);
      ReachesJoin(sem, code, Config(0, 0, ctx), c0, c, r.1, more);
      out := r.1 + more;
      LoopEndRestarts(sem, code, c, v, e, end, arr);
    }
    var fin := CodeFollowsTree(sem, u, ctx);
    EndUnique(sem, code, Config(0, 0, ctx), c, fin, out, Interp(sem, u, Visible(ctx)).1);
  }

  lemma HasItems(arr: Ref)
    requires arr.Elements() != []
    ensures arr.IsArray() && 0 < |arr.Elements()|
  {
  }

  lemma FollowsReaches(sem: Semantics, code: seq<SymOp>, c: Config, c': Config, lo: nat, hi: nat,
                       r: (Context, seq<Chunk>))
    requires Follows(sem, code, c, c', lo, hi, r)
    ensures Reaches(sem, code, c, c', r.1)
  {
  }

  lemma PastEnd(sem: Semantics, code: seq<SymOp>, c: Config)
    requires c.pc == c.state == |code|
    ensures StepOf(sem, code, c) == End && !Restarts(sem, code, Resumed(c)) && Again(sem, code, c, Resumed(c), [])
  {
    ReachesNow(sem, code, c);
  }

  lemma LoopEndRestarts(sem: Semantics, code: seq<SymOp>, c: Config, v: string, e: Expr, end: nat, arr: Ref)
    requires c.pc == |code| == end + 1 && c.state == end && code[end] == EndFor(end, PostOrder(e), v)
    requires WellFormed(e) && Unreserved(Roots(e)) && EvalTree(sem.value, Visible(c.ctx), e) == arr
            && arr.Elements() != []
    requires Lookup(c.ctx, LoopKey(end)) == Dead && !Reserved(v)
    ensures StepOf(sem, code, c) == End && Restarts(sem, code, Resumed(c)) && !Again(sem, code, c, Resumed(c), [])
    ensures Visible(Anew(sem, code, Resumed(c))) == Visible(c.ctx)[v := arr.Elements()[0]]
  {
    EvalVisible(sem.value, c.ctx, e);
    LoopKeyInjective(end, end);
  }
}
