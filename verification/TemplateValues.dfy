/** Template values and the meaning of expressions: JSON contexts, one-stack evaluation of RPN,
    and direct evaluation of expression trees. */
module TemplateValues {
  import opened Helpers
  import opened TemplateExpr

  datatype Json =
    | Null
    | Bool(b: bool)
    | Num(n: int)
    | Str(s: string)
    | Arr(items: seq<Json>)
    | Obj(fields: map<string, Json>)

  /** The top-level object a template is rendered with. */
  type Context = map<string, Json>

  const WORD := 0x1_0000_0000

  /** A reference into a context; Dead is what a missing key yields. */
  datatype Ref = Dead | Live(value: Json) {
    predicate IsArray() { Live? && value.Arr? }

    /** The elements of an array, whose count is kept in 32 bits. */
    function Elements(): (r: seq<Json>)
      ensures |r| < WORD
    {
      if !IsArray() then [] else if |value.items| < WORD then value.items else value.items[..|value.items| % WORD]
    }

    /** Element count of an array, key count of an object. */
    function Length(): nat {
      if Live? && value.Obj? then |value.fields| % WORD else |Elements()|
    }

    function At(i: nat): Ref {
      if i < |Elements()| then Live(Elements()[i]) else Dead
    }

    /** The unsigned word of a number; other kinds are not read this way. */
    function AsUInt(): nat {
      if Live? && value.Num? && value.n >= 0 then value.n else 0
    }
  }

  function Lookup(m: map<string, Json>, key: string): Ref {
    if key in m then Live(m[key]) else Dead
  }

  function Follow(r: Ref, keys: seq<string>): Ref
    decreases |keys|
  {
    if keys == [] then r
    else if r.Live? && r.value.Obj? then Follow(Lookup(r.value.fields, keys[0]), keys[1..])
    else Dead
  }

  /** Dead when a key is missing or an intermediate value is not an object. */
  function SafeGet(ctx: Context, keys: seq<string>): Ref {
    if keys == [] then Dead else Follow(Lookup(ctx, keys[0]), keys[1..])
  }

  /** A dead reference is not stored. */
  function SetKey(ctx: Context, key: string, r: Ref): Context {
    if r.Live? then ctx[key := r.value] else ctx
  }

  /** What operators and constants compute. Correctness below holds for every choice. A condition
      and a printed value use different ones: a condition reads a path only for its presence. */
  datatype Meaning = Meaning(
    load: Ref -> Ref,
    constant: Constant -> Ref,
    negate: Ref -> Ref,
    binary: (Operator, Ref, Ref) -> Ref)

  // ---------------------------------------------------------------- one-stack RPN evaluation

  /** A stack entry: a path still being built, or a computed value. */
  datatype Entry = Keys(keys: seq<string>) | Val(ref: Ref)

  function Resolve(m: Meaning, ctx: Context, x: Entry): Ref {
    match x
    case Keys(keys) => m.load(SafeGet(ctx, keys))
    case Val(r) => r
  }

  function RpnStep(m: Meaning, ctx: Context, stack: seq<Entry>, s: Sym): seq<Entry> {
    match s
    case PushVar(n) => stack + [Keys([n])]
    case PushConst(c) => stack + [Val(m.constant(c))]
    case Apply(op) =>
      var k := |stack|;
      if op == Dot then
        if k >= 2 && stack[k - 2].Keys? && stack[k - 1].Keys?
        then stack[..k - 2] + [Keys(stack[k - 2].keys + stack[k - 1].keys)]
        else stack
      else if op == Not then
        if k >= 1 then stack[..k - 1] + [Val(m.negate(Resolve(m, ctx, stack[k - 1])))] else stack
      else if k >= 2 then
        stack[..k - 2] + [Val(m.binary(op, Resolve(m, ctx, stack[k - 2]), Resolve(m, ctx, stack[k - 1])))]
      else stack
  }

  function RunRpn(m: Meaning, ctx: Context, stack: seq<Entry>, code: seq<Sym>): seq<Entry>
    decreases |code|
  {
    if code == [] then stack else RunRpn(m, ctx, RpnStep(m, ctx, stack, code[0]), code[1..])
  }

  /** The value left on top; an empty program means `false`. */
  function EvalRpn(m: Meaning, ctx: Context, code: seq<Sym>): Ref {
    var stack := RunRpn(m, ctx, [], code);
    if stack == [] then Live(Bool(false)) else Resolve(m, ctx, Last(stack))
  }

  // ---------------------------------------------------------------- tree evaluation

  function EvalTree(m: Meaning, ctx: Context, e: Expr): Ref {
    match e
    case Lit(c) => m.constant(c)
    case Path(r, attrs) => m.load(SafeGet(ctx, [r] + attrs))
    case Negate(a) => m.negate(EvalTree(m, ctx, a))
    case Bin(op, l, r) => m.binary(op, EvalTree(m, ctx, l), EvalTree(m, ctx, r))
    case Paren(a) => EvalTree(m, ctx, a)
  }

  /** Context keys an expression can read. */
  function Roots(e: Expr): set<string> {
    match e
    case Lit(_) => {}
    case Path(r, _) => {r}
    case Negate(a) => Roots(a)
    case Bin(_, l, r) => Roots(l) + Roots(r)
    case Paren(a) => Roots(a)
  }

  /** An expression only reads its roots. */
  lemma {:induction false} EvalReadsRoots(m: Meaning, ctx: Context, ctx': Context, e: Expr)
    requires forall k <- Roots(e) :: Lookup(ctx, k) == Lookup(ctx', k)
    ensures EvalTree(m, ctx, e) == EvalTree(m, ctx', e)
  {
    match e
    case Lit(_) =>
    case Path(r, attrs) =>
      assert ([r] + attrs)[0] == r && r in Roots(e);
    case Negate(a) => EvalReadsRoots(m, ctx, ctx', a);
    case Bin(_, l, r) => EvalReadsRoots(m, ctx, ctx', l); EvalReadsRoots(m, ctx, ctx', r);
    case Paren(a) => EvalReadsRoots(m, ctx, ctx', a);
  }

  lemma RunCons(m: Meaning, ctx: Context, stack: seq<Entry>, s: Sym, rest: seq<Sym>)
    ensures RunRpn(m, ctx, stack, [s] + rest) == RunRpn(m, ctx, RpnStep(m, ctx, stack, s), rest)
  {
    assert ([s] + rest)[1..] == rest;
  }

  lemma PathFirst(attrs: seq<string>, rest: seq<Sym>)
    requires attrs != []
    ensures PathSyms(attrs) + rest == [PushVar(attrs[0])] + ([Apply(Dot)] + (PathSyms(attrs[1..]) + rest))
  {
    var pair: seq<Sym> := [PushVar(attrs[0]), Apply(Dot)];
    Assoc(pair, PathSyms(attrs[1..]), rest);
    Assoc([PushVar(attrs[0])], [Apply(Dot)], PathSyms(attrs[1..]) + rest);
    assert pair == [PushVar(attrs[0])] + [Apply(Dot)];
  }

  lemma {:induction false} RunAttrs(m: Meaning, ctx: Context, stack: seq<Entry>, keys: seq<string>, attrs: seq<string>,
                                    rest: seq<Sym>)
    ensures RunRpn(m, ctx, stack + [Keys(keys)], PathSyms(attrs) + rest)
            == RunRpn(m, ctx, stack + [Keys(keys + attrs)], rest)
    decreases |attrs|
  {
    hide RunRpn, RpnStep;
    if attrs == [] {
      assert PathSyms(attrs) + rest == rest && keys + attrs == keys;
    } else {
      var tail := PathSyms(attrs[1..]) + rest;
      PathFirst(attrs, rest);
      var s1 := stack + [Keys(keys)];
      var s2 := s1 + [Keys([attrs[0]])];
      RunCons(m, ctx, s1, PushVar(attrs[0]), [Apply(Dot)] + tail);
      RunCons(m, ctx, s2, Apply(Dot), tail);
      DotStep(m, ctx, stack, keys, attrs[0]);
      RunAttrs(m, ctx, stack, keys + [attrs[0]], attrs[1..], rest);
      assert keys + [attrs[0]] + attrs[1..] == keys + attrs;
    }
  }

  /** An attribute is pushed and joins the path below it. */
  lemma DotStep(m: Meaning, ctx: Context, stack: seq<Entry>, keys: seq<string>, attr: string)
    ensures var s1 := stack + [Keys(keys)];
            var s2 := s1 + [Keys([attr])];
            RpnStep(m, ctx, s1, PushVar(attr)) == s2 && RpnStep(m, ctx, s2, Apply(Dot)) == stack + [Keys(keys + [attr])]
  {
    var s2 := stack + [Keys(keys)] + [Keys([attr])];
    assert s2[..|s2| - 2] == stack;
  }

  /** Running a post-order pushes one entry, which resolves to the tree's value. */
  lemma {:induction false} RunPostOrder(m: Meaning, ctx: Context, stack: seq<Entry>, e: Expr, rest: seq<Sym>)
    returns (x: Entry)
    requires WellFormed(e)
    ensures Resolve(m, ctx, x) == EvalTree(m, ctx, e)
    ensures RunRpn(m, ctx, stack, PostOrder(e) + rest) == RunRpn(m, ctx, stack + [x], rest)
    decreases e
  {
    match e
    case Lit(c) =>
      x := Val(m.constant(c));
      RunCons(m, ctx, stack, PushConst(c), rest);
    case Path(r, attrs) =>
      x := Keys([r] + attrs);
      Assoc([PushVar(r)], PathSyms(attrs), rest);
      RunCons(m, ctx, stack, PushVar(r), PathSyms(attrs) + rest);
      RunAttrs(m, ctx, stack, [r], attrs, rest);
    case Negate(a) =>
      Assoc(PostOrder(a), [Apply(Not)], rest);
      var y := RunPostOrder(m, ctx, stack, a, [Apply(Not)] + rest);
      RunCons(m, ctx, stack + [y], Apply(Not), rest);
      assert (stack + [y])[..|stack|] == stack;
      x := Val(m.negate(Resolve(m, ctx, y)));
    case Bin(op, l, r) =>
      Assoc(PostOrder(l) + PostOrder(r), [Apply(op)], rest);
      Assoc(PostOrder(l), PostOrder(r), [Apply(op)] + rest);
      var y := RunPostOrder(m, ctx, stack, l, PostOrder(r) + ([Apply(op)] + rest));
      var z := RunPostOrder(m, ctx, stack + [y], r, [Apply(op)] + rest);
      var s2 := stack + [y] + [z];
      RunCons(m, ctx, s2, Apply(op), rest);
      assert s2[..|s2| - 2] == stack;
      x := Val(m.binary(op, Resolve(m, ctx, y), Resolve(m, ctx, z)));
    case Paren(a) => x := RunPostOrder(m, ctx, stack, a, rest);
  }

  /** One-stack evaluation of the post-order is evaluation of the tree. */
  lemma RpnEvaluatesTree(m: Meaning, ctx: Context, e: Expr)
    requires WellFormed(e)
    ensures EvalRpn(m, ctx, PostOrder(e)) == EvalTree(m, ctx, e)
  {
    var x := RunPostOrder(m, ctx, [], e, []);
    assert PostOrder(e) + [] == PostOrder(e);
    assert [] + [x] == [x];
  }
}
