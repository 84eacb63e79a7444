/** The compiler as a whole: from a template file to the chunks its compiled form produces, and the
    exact limits of that statement for loops. */
module TemplateCorrect {
  import opened TemplateExpr
  import opened TemplatePools
  import opened TemplateValues
  import opened TemplateIR
  import opened TemplateCode
  import opened TemplateMachine
  import opened TemplateSimulation
  import opened TemplateScan
  import opened TemplateTranspiler

  /** Run from its first state, the code ends the template having produced `out` and left `ctx'`. */
  ghost predicate Renders(sem: Semantics, code: seq<SymOp>, ctx: Context, ctx': Context, out: seq<Chunk>) {
    exists c: Config :: Reaches(sem, code, Config(0, 0, ctx), c, out) && StepOf(sem, code, c) == End
        && Visible(c.ctx) == ctx'
  }

  /** The file is the text of tree t: its literals and lexed tags are the tree's. */
  ghost predicate IsTextOf(file: string, lex: string -> Tag, t: Tree) {
    PieceEvents(file, lex, Pieces(file, 0, 0)) == Events(t)
  }

  /** The code a file compiles to when read at once, with indices resolved. */
  ghost function CompiledCode(file: string, lex: string -> Tag, hash: seq<RpnOp> -> nat): seq<SymOp> {
    var s := Feed(INITIAL, hash, PieceEvents(file, lex, Pieces(file, 0, 0))).1;
    if InRange(s.pools.Decoded(), s.build.ir) then Link(s.pools.Decoded(), s.build.ir) else []
  }

  /** Every file that is the text of a runnable tree compiles, and on every context its code renders
      what reading the tree renders, whatever the hash, the operators and the conditions mean. */
  lemma CompilationPreservesMeaning(file: string, lex: string -> Tag, hash: seq<RpnOp> -> nat, t: Tree, sem: Semantics,
                                    ctx: Context)
    requires IsTextOf(file, lex, t) && Runnable(t) && Size(t) < WORD
    ensures WholeFileCompiles(file, lex, hash)
    ensures var r := Interp(sem, t, Visible(ctx)); Renders(sem, CompiledCode(file, lex, hash), ctx, r.0, r.1)
  {
    hide Feed, Events, Generate, Interp, Pieces, PieceEvents, StepOf, Reaches, Visible;
    CompilesToGenerated(hash, t);
    var c := CodeFollowsTree(sem, t, ctx);
  }

  // ---------------------------------------------------------------- loops over their own variable

  /** `{% for v in root.attrs %}{% var v %}{% endfor %}` */
  function PrintLoop(v: string, root: string, attrs: seq<string>): Tree {
    Loop(v, Path(root, attrs), Put(Path(v, []), Nil), Nil)
  }

  /** A value that holds an array of two nulls behind the attributes. */
  function TwoNulls(attrs: seq<string>): Json
    decreases |attrs|
  {
    if attrs == [] then Arr([Null, Null]) else Obj(map[attrs[0] := TwoNulls(attrs[1..])])
  }

  lemma {:induction false} TwoNullsAt(attrs: seq<string>)
    ensures Follow(Live(TwoNulls(attrs)), attrs) == Live(Arr([Null, Null]))
    decreases |attrs|
  {
    if attrs != [] {
      TwoNullsAt(attrs[1..]);
    }
  }

  /** Values are printed as they are found. */
  ghost predicate PlainValues(sem: Semantics) { forall r :: sem.value.load(r) == r }

  /** What the loop's head and body look like on a context holding two nulls under v.attrs. */
  lemma TwoNullsPath(v: string, attrs: seq<string>)
    ensures SafeGet(map[v := TwoNulls(attrs)], [v] + attrs) == Live(Arr([Null, Null]))
    ensures SafeGet(map[v := Null], [v] + attrs).Elements() == []
    ensures SafeGet(map[v := Null], [v]) == Live(Null)
  {
    TwoNullsAt(attrs);
    assert ([v] + attrs)[1..] == attrs;
    assert [v][1..] == [];
  }

  /** Iterating over its own variable, the compiled loop stops after one of two items. */
  lemma SelfLoopStopsEarly(sem: Semantics, v: string, attrs: seq<string>)
    requires PlainValues(sem) && !Reserved(v)
    ensures var code := Generate(PrintLoop(v, v, attrs), 0);
            var ctx := map[v := TwoNulls(attrs)];
            exists c :: Reaches(sem, code, Config(0, 0, ctx), c, [ValueChunk(Live(Null))])
                && StepOf(sem, code, c) == End
  {
    hide *;
    var code := Generate(PrintLoop(v, v, attrs), 0);
    var c0 := Config(0, 0, map[v := TwoNulls(attrs)]);
    SelfLoopCode(v, attrs);
    var c1 := SelfLoopEnters(sem, v, attrs, code);
    ReachesEmit(sem, code, c1, ValueChunk(Live(Null)), 2);
    var c2 := Config(2, 2, c1.ctx);
    var c3 := SelfLoopLeaves(sem, v, attrs, code, c2);
    ThenMove(sem, code, c1, c2, c3, [ValueChunk(Live(Null))]);
    MoveThen(sem, code, c0, c1, c3, [ValueChunk(Live(Null))]);
  }

  ghost function SelfLoop(v: string, attrs: seq<string>): seq<SymOp> {
    var e := PostOrder(Path(v, attrs));
    [For(2, e, v, false), Show(PostOrder(Path(v, []))), EndFor(2, e, v)]
  }

  lemma SelfLoopEnters(sem: Semantics, v: string, attrs: seq<string>, code: seq<SymOp>) returns (c1: Config)
    requires PlainValues(sem) && !Reserved(v) && code == SelfLoop(v, attrs)
    ensures StepOf(sem, code, Config(0, 0, map[v := TwoNulls(attrs)])) == Move(c1)
    ensures StepOf(sem, code, c1) == Emit(ValueChunk(Live(Null)), 2) && Visible(c1.ctx) == map[v := Null]
  {
    var c0 := Config(0, 0, map[v := TwoNulls(attrs)]);
    TwoNullsPath(v, attrs);
    assert Visible(c0.ctx) == c0.ctx;
    ForSteps(sem, code, c0, v, Path(v, attrs), 2);
    var arr := Live(Arr([Null, Null]));
    c1 := EnterLoop(c0, arr, 2, v);
    EnterLoopVisible(c0, arr, 2, v);
    assert Visible(c1.ctx) == map[v := Null];
    EvalVisible(sem.value, c1.ctx, Path(v, []));
    assert [v] + [] == [v];
  }

  lemma SelfLoopLeaves(sem: Semantics, v: string, attrs: seq<string>, code: seq<SymOp>, c2: Config) returns (c3: Config)
    requires PlainValues(sem) && !Reserved(v) && code == SelfLoop(v, attrs) && c2.pc == 2
            && Visible(c2.ctx) == map[v := Null]
    ensures StepOf(sem, code, c2) == Move(c3) && StepOf(sem, code, c3) == End
  {
    TwoNullsPath(v, attrs);
    ForSteps(sem, code, c2, v, Path(v, attrs), 2);
    var again := SafeGet(map[v := Null], [v] + attrs);
    SelfLoopEnds(c2, again, v);
    c3 := NextRound(c2, again, 2, v);
  }

  lemma SelfLoopCode(v: string, attrs: seq<string>)
    ensures Generate(PrintLoop(v, v, attrs), 0) == SelfLoop(v, attrs)
  {
    LoopCode(v, Path(v, attrs), Put(Path(v, []), Nil), Nil, 0);
    assert Generate(Nil, 3) == [] && Generate(Nil, 2) == [];
  }

  /** With nothing left to count, `endfor` leaves the loop. */
  lemma SelfLoopEnds(c: Config, arr: Ref, v: string)
    requires arr.Elements() == [] && (arr.Live? ==> !arr.value.Obj?)
    ensures NextRound(c, arr, 2, v).pc == c.pc + 1
  {
  }

  /** The compiled loop prints, on every context, what reading the loop once over its array prints. */
  ghost predicate Faithful(sem: Semantics, t: Tree) {
    forall ctx: Context :: Renders(sem, Generate(t, 0), ctx, Interp(sem, t, Visible(ctx)).0,
                                   Interp(sem, t, Visible(ctx)).1)
  }

  lemma SelfLoopReads(sem: Semantics, v: string, attrs: seq<string>)
    requires PlainValues(sem)
    ensures |Interp(sem, PrintLoop(v, v, attrs), map[v := TwoNulls(attrs)]).1| == 2
  {
    var ctx := map[v := TwoNulls(attrs)];
    var body := Put(Path(v, []), Nil);
    TwoNullsPath(v, attrs);
    assert [v] + [] == [v];
    var ctx1 := ctx[v := Null];
    RoundParts(sem, v, body, [Null, Null], 0, ctx);
    RoundParts(sem, v, body, [Null, Null], 1, ctx1);
    RoundParts(sem, v, body, [Null, Null], 2, ctx1);
    assert [Null, Null][0..] == [Null, Null];
  }

  lemma SelfLoopUnfaithful(sem: Semantics, v: string, attrs: seq<string>)
    requires PlainValues(sem) && !Reserved(v)
    ensures !Faithful(sem, PrintLoop(v, v, attrs))
  {
    hide Interp, Generate, Reaches, StepOf, PlainValues, PrintLoop;
    var ctx := map[v := TwoNulls(attrs)];
    assert Visible(ctx) == ctx;
    SelfLoopStopsEarly(sem, v, attrs);
    SelfLoopReads(sem, v, attrs);
    Unfaithful(sem, PrintLoop(v, v, attrs), ctx, [ValueChunk(Live(Null))]);
  }

  lemma PrintLoopRunnable(v: string, root: string, attrs: seq<string>)
    requires !Reserved(v) && !Reserved(root) && root != v
    ensures Runnable(PrintLoop(v, root, attrs)) && Size(PrintLoop(v, root, attrs)) == 2 + Size(Put(Path(v, []), Nil))
    ensures Size(PrintLoop(v, root, attrs)) == 3
  {
    var body := Put(Path(v, []), Nil);
    assert WellTyped(Nil) && LoopsStable(Nil) && NamesFree(Nil) && LoopVars(Nil) == {} && Size(Nil) == 0;
    assert WellTyped(body) && LoopsStable(body) && NamesFree(body) && LoopVars(body) == {} && Size(body) == 1;
  }

  /** A loop that prints its items is compiled faithfully exactly when it does not iterate over its
      own variable: `endfor` looks the array up again, after the variable has been set. */
  lemma PrintLoopFaithful(sem: Semantics, v: string, root: string, attrs: seq<string>)
    requires PlainValues(sem) && !Reserved(v) && !Reserved(root)
    ensures Faithful(sem, PrintLoop(v, root, attrs)) <==> root != v
  {
    hide Interp, Generate, Reaches, StepOf, Visible;
    var t := PrintLoop(v, root, attrs);
    if root != v {
      PrintLoopRunnable(v, root, attrs);
      forall ctx: Context
        ensures Renders(sem, Generate(t, 0), ctx, Interp(sem, t, Visible(ctx)).0, Interp(sem, t, Visible(ctx)).1)
      {
        var c := CodeFollowsTree(sem, t, ctx);
      }
    } else {
      SelfLoopUnfaithful(sem, v, attrs);
    }
  }

  // ---------------------------------------------------------------- inner loops over an outer root

  /** `{% for v in root.attrs %}{% var v %}{% for u in src %}{% endfor %}{% endfor %}` */
  function NestedLoop(v: string, root: string, attrs: seq<string>, u: string, src: string): Tree {
    Loop(v, Path(root, attrs), NestedBody(v, u, src), Nil)
  }

  function NestedBody(v: string, u: string, src: string): Tree {
    Put(Path(v, []), Loop(u, Path(src, []), Nil, Nil))
  }

  /** Two items to go through, and one that lets the inner loop set and erase its variable. */
  function NestedInput(root: string, attrs: seq<string>, src: string): Context {
    map[root := TwoNulls(attrs), src := Arr([Null])]
  }

  predicate NestedNames(v: string, root: string, u: string, src: string) {
    !Reserved(v) && !Reserved(root) && !Reserved(u) && !Reserved(src) && v != root && src != u && src != v
  }

  lemma NestedBodyRunnable(v: string, root: string, u: string, src: string)
    requires NestedNames(v, root, u, src)
    ensures Runnable(NestedBody(v, u, src)) && Size(NestedBody(v, u, src)) == 3
            && LoopVars(NestedBody(v, u, src)) == {u}
  {
    var inner := Loop(u, Path(src, []), Nil, Nil);
    assert WellTyped(Nil) && LoopsStable(Nil) && NamesFree(Nil) && LoopVars(Nil) == {} && Size(Nil) == 0;
    assert WellTyped(inner) && LoopsStable(inner) && NamesFree(inner) && LoopVars(inner) == {u} && Size(inner) == 2;
  }

  lemma NestedRunnable(v: string, root: string, attrs: seq<string>, u: string, src: string)
    requires NestedNames(v, root, u, src) && u != root
    ensures Runnable(NestedLoop(v, root, attrs, u, src)) && Size(NestedLoop(v, root, attrs, u, src)) == 5
  {
    var body, e := NestedBody(v, u, src), Path(root, attrs);
    NestedBodyRunnable(v, root, u, src);
    hide NestedBody;
    assert WellTyped(Nil) && LoopsStable(Nil) && NamesFree(Nil) && Size(Nil) == 0;
    assert Roots(e) == {root} && WellFormed(e);
    var t := Loop(v, e, body, Nil);
    assert WellTyped(t) && LoopsStable(t) && NamesFree(t) && Size(t) == 5;
  }

  /** One round of the body: a value is printed, and the inner loop's variable is gone. */
  lemma NestedBodyReads(sem: Semantics, v: string, u: string, src: string, ctx: Context)
    requires PlainValues(sem) && src != u && src != v && v in ctx && src in ctx && ctx[src] == Arr([Null])
    ensures Interp(sem, NestedBody(v, u, src), ctx) == (ctx - {u}, [ValueChunk(Live(ctx[v]))])
  {
    var inner := Loop(u, Path(src, []), Nil, Nil);
    assert [v][1..] == [] && [src][1..] == [] && [v] + [] == [v] && [src] + [] == [src];
    assert EvalTree(sem.value, ctx, Path(v, [])) == Live(ctx[v]);
    assert EvalTree(sem.value, ctx, Path(src, [])) == Live(Arr([Null]));
    RoundParts(sem, u, Nil, [Null], 0, ctx);
    RoundParts(sem, u, Nil, [Null], 1, ctx[u := Null]);
    assert [Null][0..] == [Null];
    var none: seq<Chunk> := [];
    assert none + none == none;
    assert Interp(sem, Nil, ctx[u := Null]) == (ctx[u := Null], none);
    assert InterpLoop(sem, u, Nil, [Null], ctx) == (ctx[u := Null], none);
    assert ctx[u := Null] - {u} == ctx - {u};
    assert Interp(sem, inner, ctx) == (ctx - {u}, none);
    assert [ValueChunk(Live(ctx[v]))] + none == [ValueChunk(Live(ctx[v]))];
  }

  /** Reading goes through both items of the array it found. */
  lemma NestedReads(sem: Semantics, v: string, root: string, attrs: seq<string>, src: string)
    requires PlainValues(sem) && NestedNames(v, root, root, src)
    ensures |Interp(sem, NestedLoop(v, root, attrs, root, src), NestedInput(root, attrs, src)).1| == 2
  {
    hide NestedBody, Follow;
    var ctx := NestedInput(root, attrs, src);
    var body := NestedBody(v, root, src);
    NestedArray(sem, root, attrs, src);
    var ctx1 := ctx[v := Null];
    var ctx2 := (ctx1 - {root})[v := Null];
    NestedBodyReads(sem, v, root, src, ctx1);
    NestedBodyReads(sem, v, root, src, ctx2);
    RoundParts(sem, v, body, [Null, Null], 0, ctx);
    RoundParts(sem, v, body, [Null, Null], 1, ctx1 - {root});
    RoundParts(sem, v, body, [Null, Null], 2, ctx2 - {root});
    assert [Null, Null][0..] == [Null, Null];
  }

  lemma NestedArray(sem: Semantics, root: string, attrs: seq<string>, src: string)
    requires PlainValues(sem) && src != root
    ensures EvalTree(sem.value, NestedInput(root, attrs, src), Path(root, attrs)) == Live(Arr([Null, Null]))
    ensures forall ctx: Context | root !in ctx :: EvalTree(sem.value, ctx, Path(root, attrs)) == Dead
  {
    TwoNullsAt(attrs);
    assert ([root] + attrs)[1..] == attrs;
    DeadPath(attrs);
  }

  lemma DeadPath(attrs: seq<string>)
    ensures Follow(Dead, attrs) == Dead
  {
  }

  /** The compiled loop stops after one of two items: the inner loop has erased the outer one's array. */
  lemma NestedStopsEarly(sem: Semantics, v: string, root: string, attrs: seq<string>, src: string)
    requires PlainValues(sem) && NestedNames(v, root, root, src)
    ensures var code := Generate(NestedLoop(v, root, attrs, root, src), 0);
            exists c :: Reaches(sem, code, Config(0, 0, NestedInput(root, attrs, src)), c, [ValueChunk(Live(Null))])
                && StepOf(sem, code, c) == End
  {
    hide *;
    var body := NestedBody(v, root, src);
    var e := Path(root, attrs);
    var code := Generate(Loop(v, e, body, Nil), 0);
    NestedLoopIs(v, root, attrs, root, src);
    var ctx := NestedInput(root, attrs, src);
    var c0 := Config(0, 0, ctx);
    NestedBodyRunnable(v, root, root, src);
    NestedCode(v, e, body);
    LoopAt(code, 0, v, e, body, Nil);
    NestedVisible(v, root, attrs, src);
    NestedArray(sem, root, attrs, src);
    ForSteps(sem, code, c0, v, e, 4);
    var arr := Live(Arr([Null, Null]));
    TwoItems(arr);
    EnterLoopVisible(c0, arr, 4, v);
    var c1 := EnterLoop(c0, arr, 4, v);
    var c2 := SimTree(sem, code, 1, body, c1);
    NestedBodyReads(sem, v, root, src, ctx[v := Null]);
    FollowsEnds(sem, code, c1, c2, 1, 4, (ctx[v := Null] - {root}, [ValueChunk(Live(Null))]));
    FollowsRun(sem, code, c1, c2, 1, 4, (ctx[v := Null] - {root}, [ValueChunk(Live(Null))]));
    ForSteps(sem, code, c2, v, e, 4);
    var c3 := NextRound(c2, Dead, 4, v);
    DeadEnds(c2, 4, v);
    MoveThen(sem, code, c0, c1, c2, [ValueChunk(Live(Null))]);
    ThenMove(sem, code, c0, c2, c3, [ValueChunk(Live(Null))]);
    PastCode(sem, code, c3);
  }

  lemma NestedLoopIs(v: string, root: string, attrs: seq<string>, u: string, src: string)
    ensures NestedLoop(v, root, attrs, u, src) == Loop(v, Path(root, attrs), NestedBody(v, u, src), Nil)
    ensures WellFormed(Path(root, attrs)) && Roots(Path(root, attrs)) == {root}
    ensures !Reserved(root) ==> Unreserved({root})
  {
  }

  lemma NestedCode(v: string, e: Expr, body: Tree)
    requires Size(body) == 3
    ensures var code := Generate(Loop(v, e, body, Nil), 0); |code| == 5 < WORD && At(code, 0, code)
  {
    var code := Generate(Loop(v, e, body, Nil), 0);
    assert Size(Nil) == 0;
    assert code[0..0 + |code|] == code;
  }

  lemma NestedVisible(v: string, root: string, attrs: seq<string>, src: string)
    requires NestedNames(v, root, root, src)
    ensures var ctx := NestedInput(root, attrs, src);
            && Visible(ctx) == ctx && src in ctx[v := Null] && ctx[v := Null][src] == Arr([Null])
                && root !in ctx[v := Null] - {root}
            && v in ctx[v := Null] && ctx[v := Null][v] == Null && !Reserved(v) && !Reserved(root) && src != v
                && src != root
  {
  }

  lemma TwoItems(arr: Ref)
    requires arr == Live(Arr([Null, Null]))
    ensures arr.Elements() == [Null, Null]
  {
  }

  lemma DeadEnds(c: Config, target: nat, v: string)
    ensures NextRound(c, Dead, target, v).pc == c.pc + 1
  {
  }

  lemma FollowsRun(sem: Semantics, code: seq<SymOp>, c: Config, c': Config, lo: nat, hi: nat, r: (Context, seq<Chunk>))
    requires Follows(sem, code, c, c', lo, hi, r)
    ensures Reaches(sem, code, c, c', r.1)
  {
  }

  lemma PastCode(sem: Semantics, code: seq<SymOp>, c: Config)
    requires c.pc >= |code|
    ensures StepOf(sem, code, c) == End
  {
  }

  /** A loop around another one is compiled faithfully exactly when the inner one's variable is not
      the root of the outer one's array: the inner loop erases it before `endfor` looks it up again. */
  lemma NestedLoopFaithful(sem: Semantics, v: string, root: string, attrs: seq<string>, u: string, src: string)
    requires PlainValues(sem) && NestedNames(v, root, u, src)
    ensures Faithful(sem, NestedLoop(v, root, attrs, u, src)) <==> u != root
  {
    hide Interp, Generate, Reaches, StepOf, Visible, NestedLoop, NestedInput, PlainValues, Runnable, Size;
    var t := NestedLoop(v, root, attrs, u, src);
    if u != root {
      NestedRunnable(v, root, attrs, u, src);
      forall ctx: Context
        ensures Renders(sem, Generate(t, 0), ctx, Interp(sem, t, Visible(ctx)).0, Interp(sem, t, Visible(ctx)).1)
      {
        var c := CodeFollowsTree(sem, t, ctx);
      }
    } else {
      var ctx := NestedInput(root, attrs, src);
      NestedVisible(v, root, attrs, src);
      NestedReads(sem, v, root, attrs, src);
      NestedStopsEarly(sem, v, root, attrs, src);
      Unfaithful(sem, t, ctx, [ValueChunk(Live(Null))]);
    }
  }

  /** Ending with other chunks than reading produces is not faithful. */
  lemma Unfaithful(sem: Semantics, t: Tree, ctx: Context, out: seq<Chunk>)
    requires Visible(ctx) == ctx && out != Interp(sem, t, ctx).1
    requires exists c ::
            Reaches(sem, Generate(t, 0), Config(0, 0, ctx), c, out) && StepOf(sem, Generate(t, 0), c) == End
    ensures !Faithful(sem, t)
  {
    hide Interp, Generate, Reaches, StepOf, Visible;
    var code := Generate(t, 0);
    var c: Config :| Reaches(sem, code, Config(0, 0, ctx), c, out) && StepOf(sem, code, c) == End;
    if Faithful(sem, t) {
      var r := Interp(sem, t, Visible(ctx));
      assert Renders(sem, code, ctx, r.0, r.1);
      var d: Config :| Reaches(sem, code, Config(0, 0, ctx), d, r.1) && StepOf(sem, code, d) == End;
      EndUnique(sem, code, Config(0, 0, ctx), c, d, out, r.1);
    }
  }
}
