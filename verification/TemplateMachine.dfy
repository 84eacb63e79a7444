/** The state machine emitted for the template IR, the structured reading of template trees, and
    the proof that running a tree's code is reading the tree. */
module TemplateMachine {
  import opened Helpers
  import opened TemplateExpr
  import opened TemplateValues
  import opened TemplateIR
  import opened TemplateCode

  /** Meanings of printed values and of conditions, and which results of a condition hold. */
  datatype Semantics = Semantics(value: Meaning, cond: Meaning, truthy: Ref -> bool)

  /** What a state hands to the response: bytes of the template file, or a value. */
  datatype Chunk = FileChunk(off: nat, len: nat) | ValueChunk(ref: Ref)

  // ---------------------------------------------------------------- decimal names of loop counters

  const LOOP_PREFIX := "__linf_"

  /** The context key that holds the counter of the loop ending at `jump`. */
  function LoopKey(jump: nat): string { LOOP_PREFIX + NatText(jump) }

  predicate Reserved(key: string) { LOOP_PREFIX <= key }

  lemma {:induction false} NatTextInjective(m: nat, n: nat)
    requires NatText(m) == NatText(n)
    ensures m == n
    decreases m
  {
    assert forall i, j | 0 <= i < 10 && 0 <= j < 10 && DIGITS[i] == DIGITS[j] :: i == j;
    if m >= 10 && n >= 10 {
      assert Front(NatText(m)) == NatText(m / 10) && Front(NatText(n)) == NatText(n / 10);
      assert Last(NatText(m)) == DIGITS[m % 10] && Last(NatText(n)) == DIGITS[n % 10];
      NatTextInjective(m / 10, n / 10);
    }
  }

  lemma LoopKeyInjective(i: nat, j: nat)
    ensures Reserved(LoopKey(i)) && (LoopKey(i) == LoopKey(j) ==> i == j)
  {
    if LoopKey(i) == LoopKey(j) {
      assert LoopKey(i)[|LOOP_PREFIX|..] == NatText(i) && LoopKey(j)[|LOOP_PREFIX|..] == NatText(j);
      NatTextInjective(i, j);
    }
  }

  // ---------------------------------------------------------------- the emitted switch

  /** A counter word: the state to resume at in the high half, the next index in the low half. */
  function Pack(iid: nat, idx: nat): nat { (iid % WORD) * WORD + idx % WORD }

  lemma PackUnpack(iid: nat, idx: nat)
    requires iid < WORD && idx < WORD
    ensures Pack(iid, idx) / WORD % WORD == iid && Pack(iid, idx) % WORD == idx
  {
  }

  /** Inside one call of the generator: the case being executed, the `state` variable, the context. */
  datatype Config = Config(pc: nat, state: nat, ctx: Context)

  datatype Step = Emit(chunk: Chunk, next: nat) | Move(to: Config) | End

  /** One case of the switch. Falling past the last one reaches `default`, which ends the template. */
  function StepOf(sem: Semantics, code: seq<SymOp>, c: Config): Step {
    if c.pc >= |code| then End
    else
      match code[c.pc]
      case Literal(off, len) => Emit(FileChunk(off, len), c.pc + 1)
      case Show(e) => Emit(ValueChunk(EvalRpn(sem.value, c.ctx, e)), c.pc + 1)
      case If(target, e, _) =>
        if sem.truthy(EvalRpn(sem.cond, c.ctx, e)) then Move(c.(pc := c.pc + 1))
            else Move(c.(pc := target, state := target))
      case Elif(target, e, _) =>
        if sem.truthy(EvalRpn(sem.cond, c.ctx, e)) then Move(c.(pc := c.pc + 1))
            else Move(c.(pc := target, state := target))
      case Else => Move(c.(pc := c.pc + 1))
      case EndIf => Move(c.(pc := c.pc + 1))
      case Jump(target, _) => Move(c.(pc := target, state := target))
      case For(target, e, v, _) => Move(EnterLoop(c, EvalRpn(sem.value, c.ctx, e), target, v))
      case EndFor(target, e, v) => Move(NextRound(c, EvalRpn(sem.value, c.ctx, e), target, v))
  }

  function EnterLoop(c: Config, arr: Ref, target: nat, v: string): Config {
    if !arr.IsArray() || arr.Length() == 0 then c.(pc := target + 1, state := target + 1)
    else c.(pc := c.pc + 1, ctx := SetKey(SetKey(c.ctx, v, arr.At(0)), LoopKey(target), Live(Num(Pack(c.pc + 1, 1)))))
  }

  function NextRound(c: Config, arr: Ref, target: nat, v: string): Config {
    var word := Lookup(c.ctx, LoopKey(target)).AsUInt();
    var iid, idx := word / WORD % WORD, word % WORD;
    if idx < arr.Length() then
      Config(iid, iid, SetKey(SetKey(c.ctx, v, arr.At(idx)), LoopKey(target), Live(Num(Pack(iid, idx + 1)))))
    else c.(pc := c.pc + 1, ctx := c.ctx - {v} - {LoopKey(target)})
  }

  /** `n` steps across calls: after a chunk, the next call starts at the state it returned. */
  function Run(sem: Semantics, code: seq<SymOp>, c: Config, n: nat): (Config, seq<Chunk>)
    decreases n
  {
    if n == 0 then (c, [])
    else
      match StepOf(sem, code, c)
      case Emit(chunk, next) => var r := Run(sem, code, Config(next, next, c.ctx), n - 1); (r.0, [chunk] + r.1)
      case Move(c') => Run(sem, code, c', n - 1)
      case End => (c, [])
  }

  lemma {:induction false} RunAdd(sem: Semantics, code: seq<SymOp>, c: Config, m: nat, n: nat)
    ensures var (c1, out1) := Run(sem, code, c, m);
            var (c2, out2) := Run(sem, code, c1, n);
            Run(sem, code, c, m + n) == (c2, out1 + out2)
    decreases m
  {
    if m == 0 {
      assert [] + Run(sem, code, c, n).1 == Run(sem, code, c, n).1;
    } else {
      match StepOf(sem, code, c)
      case Emit(chunk, next) =>
        var c0 := Config(next, next, c.ctx);
        RunAdd(sem, code, c0, m - 1, n);
        var (c1, out1) := Run(sem, code, c0, m - 1);
        Assoc([chunk], out1, Run(sem, code, c1, n).1);
      case Move(c') => RunAdd(sem, code, c', m - 1, n);
      case End =>
        assert Run(sem, code, c, m) == (c, []) && Run(sem, code, c, n) == (c, [])
            && Run(sem, code, c, m + n) == (c, []);
        var none: seq<Chunk> := [];
        assert none + none == none;
    }
  }

  // ---------------------------------------------------------------- the structured reading

  /** Reads a tree: the context it leaves and the chunks it produces. */
  function Interp(sem: Semantics, t: Tree, ctx: Context): (Context, seq<Chunk>)
    decreases t, 0
  {
    match t
    case Nil => (ctx, [])
    case Text(off, len, next) => Then([FileChunk(off, len)], Interp(sem, next, ctx))
    case Put(e, next) => Then([ValueChunk(EvalTree(sem.value, ctx, e))], Interp(sem, next, ctx))
    case Cond(c, thn, rest, next) =>
      var r := if sem.truthy(EvalTree(sem.cond, ctx, c)) then Interp(sem, thn, ctx) else InterpChain(sem, rest, ctx);
      Then(r.1, Interp(sem, next, r.0))
    case Loop(v, e, body, next) =>
      var items := EvalTree(sem.value, ctx, e).Elements();
      if items == [] then Interp(sem, next, ctx)
      else
        var r := InterpLoop(sem, v, body, items, ctx);
        Then(r.1, Interp(sem, next, r.0 - {v}))
  }

  function Then(out: seq<Chunk>, r: (Context, seq<Chunk>)): (Context, seq<Chunk>) { (r.0, out + r.1) }

  function InterpChain(sem: Semantics, c: Chain, ctx: Context): (Context, seq<Chunk>)
    decreases c, 0
  {
    match c
    case NoElse => (ctx, [])
    case Otherwise(b) => Interp(sem, b, ctx)
    case OrElse(e, thn, rest) =>
      if sem.truthy(EvalTree(sem.cond, ctx, e)) then Interp(sem, thn, ctx) else InterpChain(sem, rest, ctx)
  }

  /** The body once per item, the loop variable set before each round. */
  function InterpLoop(sem: Semantics, v: string, body: Tree, items: seq<Json>, ctx: Context): (Context, seq<Chunk>)
    decreases body, 1 + |items|
  {
    if items == [] then (ctx, [])
    else
      var r := Interp(sem, body, ctx[v := items[0]]);
      Then(r.1, InterpLoop(sem, v, body, items[1..], r.0))
  }

  // ---------------------------------------------------------------- the state a reading ends in

  /** The `state` variable after reading a tree whose code begins at `lo`, when it was `s` before: where
      the last chunk, the last jump or the last further round of a loop went. */
  function StateAfter(sem: Semantics, t: Tree, lo: nat, ctx: Context, s: nat): nat
    decreases t, 0
  {
    match t
    case Nil => s
    case Text(_, _, next) => StateAfter(sem, next, lo + 1, ctx, lo + 1)
    case Put(_, next) => StateAfter(sem, next, lo + 1, ctx, lo + 1)
    case Cond(c, thn, rest, next) =>
      var mid := lo + 1 + Size(thn);
      var end := mid + ChainSize(rest);
      if sem.truthy(EvalTree(sem.cond, ctx, c)) then
        var branch := StateAfter(sem, thn, lo + 1, ctx, s);
        StateAfter(sem, next, end + 1, Interp(sem, thn, ctx).0, StatePast(rest, end, branch))
      else
        StateAfter(sem, next, end + 1, InterpChain(sem, rest, ctx).0, ChainState(sem, rest, mid, end, ctx))
    case Loop(v, e, body, next) =>
      var end := lo + 1 + Size(body);
      var items := EvalTree(sem.value, ctx, e).Elements();
      if items == [] then StateAfter(sem, next, end + 1, ctx, end + 1)
      else
        var last := RoundsState(sem, v, body, lo + 1, items, ctx, s);
        StateAfter(sem, next, end + 1, InterpLoop(sem, v, body, items, ctx).0 - {v}, last)
  }

  /** A branch jumps to the end of its block, unless it is the last one. */
  function StatePast(rest: Chain, end: nat, s: nat): nat { if rest.NoElse? then s else end }

  /** After the rest of an `if` block, entered at `at` by a failed test. */
  function ChainState(sem: Semantics, c: Chain, at: nat, end: nat, ctx: Context): nat
    decreases c, 0
  {
    match c
    case NoElse => at
    case Otherwise(b) => StateAfter(sem, b, at + 2, ctx, at + 1)
    case OrElse(e, thn, rest) =>
      var mid := at + 2 + Size(thn);
      if sem.truthy(EvalTree(sem.cond, ctx, e)) then StatePast(rest, end, StateAfter(sem, thn, at + 2, ctx, at + 1))
      else ChainState(sem, rest, mid, end, ctx)
  }

  /** After the rounds of a loop: every round but the first begins at the body. */
  function RoundsState(sem: Semantics, v: string, body: Tree, lo: nat, items: seq<Json>, ctx: Context, s: nat): nat
    decreases body, 1 + |items|
  {
    if items == [] then s
    else
      var round := StateAfter(sem, body, lo, ctx[v := items[0]], s);
      if |items| == 1 then round
      else RoundsState(sem, v, body, lo, items[1..], Interp(sem, body, ctx[v := items[0]]).0, lo)
  }

  function LoopVars(t: Tree): set<string> {
    match t
    case Nil => {}
    case Text(_, _, next) => LoopVars(next)
    case Put(_, next) => LoopVars(next)
    case Cond(_, thn, rest, next) => LoopVars(thn) + ChainVars(rest) + LoopVars(next)
    case Loop(v, _, body, next) => {v} + LoopVars(body) + LoopVars(next)
  }

  function ChainVars(c: Chain): set<string> {
    match c
    case NoElse => {}
    case Otherwise(b) => LoopVars(b)
    case OrElse(_, thn, rest) => LoopVars(thn) + ChainVars(rest)
  }

  /** No loop iterates over an expression rooted in its own variable or in one of an inner loop. */
  predicate LoopsStable(t: Tree) {
    match t
    case Nil => true
    case Text(_, _, next) => LoopsStable(next)
    case Put(_, next) => LoopsStable(next)
    case Cond(_, thn, rest, next) => LoopsStable(thn) && ChainStable(rest) && LoopsStable(next)
    case Loop(v, e, body, next) => (LoopVars(body) + {v}) !! Roots(e) && LoopsStable(body) && LoopsStable(next)
  }

  predicate ChainStable(c: Chain) {
    match c
    case NoElse => true
    case Otherwise(b) => LoopsStable(b)
    case OrElse(_, thn, rest) => LoopsStable(thn) && ChainStable(rest)
  }

  predicate Unreserved(keys: set<string>) { forall k <- keys :: !Reserved(k) }

  /** The template itself uses no loop-counter key. */
  predicate NamesFree(t: Tree) {
    match t
    case Nil => true
    case Text(_, _, next) => NamesFree(next)
    case Put(e, next) => Unreserved(Roots(e)) && NamesFree(next)
    case Cond(c, thn, rest, next) => Unreserved(Roots(c)) && NamesFree(thn) && ChainFree(rest) && NamesFree(next)
    case Loop(v, e, body, next) => !Reserved(v) && Unreserved(Roots(e)) && NamesFree(body) && NamesFree(next)
  }

  predicate ChainFree(c: Chain) {
    match c
    case NoElse => true
    case Otherwise(b) => NamesFree(b)
    case OrElse(e, thn, rest) => Unreserved(Roots(e)) && NamesFree(thn) && ChainFree(rest)
  }

  /** Reading a tree changes no key but its loop variables. */
  lemma {:induction false} InterpWrites(sem: Semantics, t: Tree, ctx: Context, k: string)
    requires k !in LoopVars(t)
    ensures Lookup(Interp(sem, t, ctx).0, k) == Lookup(ctx, k)
    decreases t, 0
  {
    match t
    case Nil =>
    case Text(_, _, next) => InterpWrites(sem, next, ctx, k);
    case Put(_, next) => InterpWrites(sem, next, ctx, k);
    case Cond(c, thn, rest, next) =>
      InterpWrites(sem, thn, ctx, k);
      ChainWrites(sem, rest, ctx, k);
      var r := if sem.truthy(EvalTree(sem.cond, ctx, c)) then Interp(sem, thn, ctx) else InterpChain(sem, rest, ctx);
      InterpWrites(sem, next, r.0, k);
    case Loop(v, e, body, next) =>
      var items := EvalTree(sem.value, ctx, e).Elements();
      if items == [] {
        InterpWrites(sem, next, ctx, k);
      } else {
        LoopWrites(sem, v, body, items, ctx, k);
        InterpWrites(sem, next, InterpLoop(sem, v, body, items, ctx).0 - {v}, k);
      }
  }

  lemma {:induction false} ChainWrites(sem: Semantics, c: Chain, ctx: Context, k: string)
    requires k !in ChainVars(c)
    ensures Lookup(InterpChain(sem, c, ctx).0, k) == Lookup(ctx, k)
    decreases c, 0
  {
    match c
    case NoElse =>
    case Otherwise(b) => InterpWrites(sem, b, ctx, k);
    case OrElse(e, thn, rest) =>
      InterpWrites(sem, thn, ctx, k);
      ChainWrites(sem, rest, ctx, k);
  }

  lemma {:induction false} LoopWrites(sem: Semantics, v: string, body: Tree, items: seq<Json>, ctx: Context, k: string)
    requires k != v && k !in LoopVars(body)
    ensures Lookup(InterpLoop(sem, v, body, items, ctx).0, k) == Lookup(ctx, k)
    decreases body, 1 + |items|
  {
    if items != [] {
      InterpWrites(sem, body, ctx[v := items[0]], k);
      LoopWrites(sem, v, body, items[1..], Interp(sem, body, ctx[v := items[0]]).0, k);
    }
  }
}
