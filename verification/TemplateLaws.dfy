/** What conditions and loops print once they are compiled, from their tags and without a tree. */
module TemplateLaws {
  import opened Helpers
  import opened TemplateExpr
  import opened TemplatePools
  import opened TemplateValues
  import opened TemplateIR
  import opened TemplateCode
  import opened TemplateMachine
  import opened TemplateSimulation
  import opened TemplateCorrect
  import opened TemplateStream

  /** The events compile, and the code, run on a context, ends having produced exactly this. */
  ghost predicate Prints(sem: Semantics, hash: seq<RpnOp> -> nat, events: seq<Event>, ctx: Context, out: seq<Chunk>) {
    var (st, s) := Feed(INITIAL, hash, events);
    && st == Success && s.build.frames == [] && InRange(s.pools.Decoded(), s.build.ir)
    && exists ctx' :: Renders(sem, Link(s.pools.Decoded(), s.build.ir), ctx, ctx', out)
  }

  predicate OwnKeys(ctx: Context) { forall k <- ctx :: !Reserved(k) }

  lemma ReadingPrints(sem: Semantics, hash: seq<RpnOp> -> nat, t: Tree, ctx: Context)
    requires Runnable(t) && Size(t) < WORD && OwnKeys(ctx)
    ensures Prints(sem, hash, Events(t), ctx, Interp(sem, t, ctx).1)
  {
    hide Interp, Generate, Reaches, StepOf, Feed, Events, Size, Link;
    assert Visible(ctx) == ctx;
    CompilesToGenerated(hash, t);
    var c := CodeFollowsTree(sem, t, ctx);
    assert Renders(sem, Generate(t, 0), ctx, Visible(c.ctx), Interp(sem, t, ctx).1);
  }

  // ---------------------------------------------------------------- values

  /** How a value is spelled in the response; arrays and objects are only named. */
  predicate SpelledAs(number: int -> string, v: Json, text: string) {
    && (v == Null ==> text == "null")
    && (v == Bool(true) ==> text == "true")
    && (v == Bool(false) ==> text == "false")
    && (v.Num? ==> text == number(v.n))
    && (v.Str? ==> text == v.s)
    && (v.Arr? || v.Obj? ==> text == "object")
  }

  /** `{% var a %}` spells the value of `a`, and nothing when there is none. */
  lemma VarPrints(sem: Semantics, hash: seq<RpnOp> -> nat, file: string, number: int -> string, a: string, ctx: Context)
    returns (out: seq<Chunk>)
    requires PlainValues(sem) && !Reserved(a) && OwnKeys(ctx)
    ensures Prints(sem, hash, [TagOf(TagVar([Id(a)]))], ctx, out)
    ensures if a in ctx then SpelledAs(number, ctx[a], Bytes(file, number, out)) else Bytes(file, number, out) == ""
  {
    hide Prints, Bytes;
    var e := Path(a, []);
    out := [ValueChunk(EvalTree(sem.value, ctx, e))];
    PutRunnable(e);
    PutTags(e);
    PutReads(sem, e, ctx);
    assert Print(e, 0) == [Id(a)];
    ReadingPrints(sem, hash, Put(e, Nil), ctx);
    assert ([a] + [])[1..] == [];
    OneChunk(file, number, EvalTree(sem.value, ctx, e));
  }

  lemma OneChunk(file: string, number: int -> string, r: Ref)
    ensures Bytes(file, number, [ValueChunk(r)]) == SerializeVal(number, r)
  {
    assert [ValueChunk(r)][1..] == [];
    assert SerializeVal(number, r) + "" == SerializeVal(number, r);
  }

  // ---------------------------------------------------------------- conditions

  predicate Usable(e: Expr) { WellFormed(e) && Unreserved(Roots(e)) }

  lemma PutRunnable(e: Expr)
    requires Usable(e)
    ensures Runnable(Put(e, Nil)) && Size(Put(e, Nil)) == 1 && LoopVars(Put(e, Nil)) == {}
  {
    assert Runnable(Nil) && Size(Nil) == 0 && LoopVars(Nil) == {};
  }

  lemma PutReads(sem: Semantics, e: Expr, ctx: Context)
    ensures Interp(sem, Put(e, Nil), ctx) == (ctx, [ValueChunk(EvalTree(sem.value, ctx, e))])
  {
    var none: seq<Chunk> := [];
    assert Interp(sem, Nil, ctx) == (ctx, none);
    assert [ValueChunk(EvalTree(sem.value, ctx, e))] + none == [ValueChunk(EvalTree(sem.value, ctx, e))];
  }

  function ThreeWays(c: Expr, a: Expr, d: Expr, b: Expr, e: Expr): Tree {
    Cond(c, Put(a, Nil), OrElse(d, Put(b, Nil), Otherwise(Put(e, Nil))), Nil)
  }

  function IfTag(c: Expr): Event { TagOf(TagIf(Print(c, 0))) }

  function ElifTag(c: Expr): Event { TagOf(TagElif(Print(c, 0))) }

  function VarTag(e: Expr): Event { TagOf(TagVar(Print(e, 0))) }

  /** `{% if c %}{% var a %}{% elif d %}{% var b %}{% else %}{% var e %}{% endif %}` */
  function ThreeWaysWritten(c: Expr, a: Expr, d: Expr, b: Expr, e: Expr): seq<Event> {
    [IfTag(c), VarTag(a), ElifTag(d), VarTag(b), TagOf(TagElse), VarTag(e), TagOf(TagEndIf)]
  }

  lemma ThreeWaysRunnable(c: Expr, a: Expr, d: Expr, b: Expr, e: Expr)
    requires Usable(c) && Usable(a) && Usable(d) && Usable(b) && Usable(e)
    ensures Runnable(ThreeWays(c, a, d, b, e)) && Size(ThreeWays(c, a, d, b, e)) < WORD
  {
    hide WellFormed, Unreserved;
    PutRunnable(a);
    PutRunnable(b);
    PutRunnable(e);
    assert Runnable(Nil) && Size(Nil) == 0;
    var last := Otherwise(Put(e, Nil));
    var rest := OrElse(d, Put(b, Nil), last);
    assert RunnableChain(last) && ChainSize(last) <= 10;
    assert RunnableChain(rest) && ChainSize(rest) <= 100;
  }

  lemma ChainTags(d: Expr, b: Expr, e: Expr)
    ensures ChainEvents(OrElse(d, Put(b, Nil), Otherwise(Put(e, Nil))))
         == [ElifTag(d), VarTag(b), TagOf(TagElse), VarTag(e)]
  {
    hide Print;
    PutTags(b);
    PutTags(e);
  }

  lemma PutTags(e: Expr)
    ensures Events(Put(e, Nil)) == [VarTag(e)]
  {
    assert Events(Nil) == [];
  }

  lemma ThreeWaysTags(c: Expr, a: Expr, d: Expr, b: Expr, e: Expr)
    ensures Events(ThreeWays(c, a, d, b, e)) == ThreeWaysWritten(c, a, d, b, e)
  {
    hide Print, ChainEvents;
    PutTags(a);
    ChainTags(d, b, e);
    assert Events(Nil) == [];
  }

  lemma ThreeWaysRead(sem: Semantics, c: Expr, a: Expr, d: Expr, b: Expr, e: Expr, ctx: Context)
    ensures var printed := if sem.truthy(EvalTree(sem.cond, ctx, c)) then a
                           else if sem.truthy(EvalTree(sem.cond, ctx, d)) then b else e;
            Interp(sem, ThreeWays(c, a, d, b, e), ctx).1 == [ValueChunk(EvalTree(sem.value, ctx, printed))]
  {
    hide EvalTree;
    PutReads(sem, a, ctx);
    PutReads(sem, b, ctx);
    PutReads(sem, e, ctx);
    var none: seq<Chunk> := [];
    assert Interp(sem, Nil, ctx) == (ctx, none);
    var last := Otherwise(Put(e, Nil));
    assert InterpChain(sem, last, ctx) == Interp(sem, Put(e, Nil), ctx);
    var r := InterpChain(sem, OrElse(d, Put(b, Nil), last), ctx);
    assert r == Interp(sem, if sem.truthy(EvalTree(sem.cond, ctx, d)) then Put(b, Nil) else Put(e, Nil), ctx);
    var printed := if sem.truthy(EvalTree(sem.cond, ctx, c)) then a
                   else if sem.truthy(EvalTree(sem.cond, ctx, d)) then b else e;
    var out := [ValueChunk(EvalTree(sem.value, ctx, printed))];
    assert out + none == out;
  }

  /** Of three branches the first whose condition holds is printed, the last one when none does. */
  lemma OneBranchPrints(sem: Semantics, hash: seq<RpnOp> -> nat, c: Expr, a: Expr, d: Expr, b: Expr, e: Expr,
                        ctx: Context)
    requires Usable(c) && Usable(a) && Usable(d) && Usable(b) && Usable(e) && OwnKeys(ctx)
    ensures var printed := if sem.truthy(EvalTree(sem.cond, ctx, c)) then a
                           else if sem.truthy(EvalTree(sem.cond, ctx, d)) then b else e;
            Prints(sem, hash, ThreeWaysWritten(c, a, d, b, e), ctx, [ValueChunk(EvalTree(sem.value, ctx, printed))])
  {
    hide Prints, Usable, Runnable, Size, Events, Print, Interp, EvalTree, ThreeWays, OwnKeys;
    ThreeWaysRunnable(c, a, d, b, e);
    ThreeWaysTags(c, a, d, b, e);
    ReadingPrints(sem, hash, ThreeWays(c, a, d, b, e), ctx);
    ThreeWaysRead(sem, c, a, d, b, e, ctx);
  }

  // ---------------------------------------------------------------- loops

  /** The tags of `{% for v in a %}{% var v %}{% endfor %}`. */
  function PrintLoopTags(v: string, a: string): seq<Event> {
    [TagOf(TagFor([Id(v), KeywordIn, Id(a)])), TagOf(TagVar([Id(v)])), TagOf(TagEndFor)]
  }

  lemma PrintLoopEvents(v: string, a: string)
    ensures Events(PrintLoop(v, a, [])) == PrintLoopTags(v, a)
  {
    assert Print(Path(v, []), 0) == [Id(v)] && Print(Path(a, []), 0) == [Id(a)];
    PutTags(Path(v, []));
    assert Events(Nil) == [];
    assert [Id(v), KeywordIn] + [Id(a)] == [Id(v), KeywordIn, Id(a)];
    assert [TagOf(TagEndFor)] + Events(Nil) == [TagOf(TagEndFor)];
  }

  function Values(items: seq<Json>): seq<Chunk> {
    seq(|items|, i requires 0 <= i < |items| => ValueChunk(Live(items[i])))
  }

  lemma {:induction false} RoundsRead(sem: Semantics, v: string, items: seq<Json>, ctx: Context)
    requires PlainValues(sem)
    ensures InterpLoop(sem, v, Put(Path(v, []), Nil), items, ctx).1 == Values(items)
    decreases |items|
  {
    if items != [] {
      var ctx1 := ctx[v := items[0]];
      PutReads(sem, Path(v, []), ctx1);
      assert ([v] + [])[1..] == [];
      assert EvalTree(sem.value, ctx1, Path(v, [])) == Live(items[0]);
      RoundsRead(sem, v, items[1..], ctx1);
      assert Values(items) == [ValueChunk(Live(items[0]))] + Values(items[1..]);
    }
  }

  /** A loop over a name prints the items of the array there, every one and in order; anything else
      than an array prints nothing. */
  lemma ItemsPrint(sem: Semantics, hash: seq<RpnOp> -> nat, v: string, a: string, items: seq<Json>, ctx: Context)
    requires PlainValues(sem) && !Reserved(v) && !Reserved(a) && v != a && OwnKeys(ctx)
    requires if a in ctx && ctx[a].Arr? then items == ctx[a].items && |items| < 0x1_0000_0000 else items == []
    ensures Prints(sem, hash, PrintLoopTags(v, a), ctx,
                   seq(|items|, i requires 0 <= i < |items| => ValueChunk(Live(items[i]))))
  {
    hide Prints, Runnable, Size, Events;
    var t := PrintLoop(v, a, []);
    PrintLoopEvents(v, a);
    PrintLoopRunnable(v, a, []);
    hide PrintLoopTags, PlainValues;
    ReadingPrints(sem, hash, t, ctx);
    LoopReads(sem, v, a, items, ctx);
    assert Values(items) == seq(|items|, i requires 0 <= i < |items| => ValueChunk(Live(items[i])));
  }

  lemma LoopReads(sem: Semantics, v: string, a: string, items: seq<Json>, ctx: Context)
    requires PlainValues(sem)
    requires if a in ctx && ctx[a].Arr? then items == ctx[a].items && |items| < 0x1_0000_0000 else items == []
    ensures Interp(sem, PrintLoop(v, a, []), ctx).1 == Values(items)
  {
    var none: seq<Chunk> := [];
    assert ([a] + [])[1..] == [];
    assert EvalTree(sem.value, ctx, Path(a, [])).Elements() == items;
    RoundsRead(sem, v, items, ctx);
    assert Values(items) + none == Values(items);
    assert forall c: Context :: Interp(sem, Nil, c) == (c, none);
  }
}
