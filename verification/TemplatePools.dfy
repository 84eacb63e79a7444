/** The transpiler's pools: variable names, constants and RPN programs, each stored once and named
    by its index. Programs are found again by hash; two programs may share one. */
module TemplatePools {
  import opened TemplateExpr

  datatype RpnOp = LoadVar(id: nat) | LoadConst(id: nat) | Do(op: Operator)

  /** What the rest of the compiler sees of the pools. */
  datatype Library = Library(names: seq<string>, programs: seq<seq<Sym>>) {
    predicate Stores(idx: nat, code: seq<Sym>) { idx < |programs| && programs[idx] == code }

    predicate Extends(older: Library) { older.names <= names && older.programs <= programs }
  }

  datatype Pools = Pools(
    names: seq<string>,
    nameIds: map<string, nat>,
    constants: seq<Constant>,
    constantIds: map<Constant, nat>,
    programs: seq<seq<RpnOp>>,
    programIds: map<nat, nat>)
  {
    predicate Valid() {
      && (forall n <- nameIds :: nameIds[n] < |names| && names[nameIds[n]] == n)
      && (forall c <- constantIds :: constantIds[c] < |constants| && constants[constantIds[c]] == c)
      && (forall i | 0 <= i < |names| :: names[i] in nameIds && nameIds[names[i]] == i)
      && (forall i | 0 <= i < |constants| :: constants[i] in constantIds && constantIds[constants[i]] == i)
      && (forall h <- programIds :: programIds[h] < |programs|)
      && (forall ops <- programs :: InRange(ops))
    }

    predicate InRange(ops: seq<RpnOp>) {
      forall o <- ops :: (o.LoadVar? ==> o.id < |names|) && (o.LoadConst? ==> o.id < |constants|)
    }

    /** The instruction an index pair stands for. */
    function Decode(o: RpnOp): Sym {
      match o
      case LoadVar(id) => PushVar(if id < |names| then names[id] else "")
      case LoadConst(id) => PushConst(if id < |constants| then constants[id] else IntConst(0))
      case Do(op) => Apply(op)
    }

    function DecodeAll(ops: seq<RpnOp>): (syms: seq<Sym>)
      ensures |syms| == |ops|
    {
      seq(|ops|, i requires 0 <= i < |ops| => Decode(ops[i]))
    }

    /** The pools with every program decoded. */
    function Decoded(): Library {
      Library(names, seq(|programs|, i requires 0 <= i < |programs| => DecodeAll(programs[i])))
    }

    predicate Extends(old_: Pools) {
      old_.names <= names && old_.constants <= constants && old_.programs <= programs
    }
  }

  const EMPTY_POOLS := Pools([], map[], [], map[], [], map[])

  function InternName(p: Pools, n: string): (Pools, nat) {
    if n in p.nameIds then (p, p.nameIds[n])
    else (p.(names := p.names + [n], nameIds := p.nameIds[n := |p.names|]), |p.names|)
  }

  function InternConstant(p: Pools, c: Constant): (Pools, nat) {
    if c in p.constantIds then (p, p.constantIds[c])
    else (p.(constants := p.constants + [c], constantIds := p.constantIds[c := |p.constants|]), |p.constants|)
  }

  function InternSym(p: Pools, s: Sym): (Pools, RpnOp) {
    match s
    case PushVar(n) => var r := InternName(p, n); (r.0, LoadVar(r.1))
    case PushConst(c) => var r := InternConstant(p, c); (r.0, LoadConst(r.1))
    case Apply(op) => (p, Do(op))
  }

  /** Interns a program left to right. */
  function InternAll(p: Pools, code: seq<Sym>): (Pools, seq<RpnOp>)
    decreases |code|
  {
    if code == [] then (p, [])
    else
      var r := InternAll(p, Front(code));
      var s := InternSym(r.0, Last(code));
      (s.0, r.1 + [s.1])
  }

  /** Looks the program up by hash, and stores it unless exactly it is found there. */
  function AddProgram(p: Pools, hash: seq<RpnOp> -> nat, ops: seq<RpnOp>): (Pools, nat) {
    var h := hash(ops);
    if h in p.programIds && p.programIds[h] < |p.programs| && p.programs[p.programIds[h]] == ops
        then (p, p.programIds[h])
    else (p.(programs := p.programs + [ops], programIds := p.programIds[h := |p.programs|]), |p.programs|)
  }

  datatype Parsed = Parsed(ok: bool, pools: Pools, idx: nat)

  /** Parses one expression into the pools. A failed parse keeps the names it met. */
  function ParseInto(p: Pools, hash: seq<RpnOp> -> nat, toks: seq<Token>): Parsed {
    var r := ParseTokens(toks);
    var q := InternAll(p, r.yard.out);
    if !r.ok then Parsed(false, q.0, 0)
    else
      var a := AddProgram(q.0, hash, q.1);
      Parsed(true, a.0, a.1)
  }

  lemma InternNameCorrect(p: Pools, n: string)
    requires p.Valid()
    ensures var (q, id) := InternName(p, n); q.Valid() && q.Extends(p) && id < |q.names| && q.names[id] == n
  {
    var (q, id) := InternName(p, n);
    forall ops <- q.programs ensures q.InRange(ops) { assert p.InRange(ops); }
  }

  lemma InternSymCorrect(p: Pools, s: Sym)
    requires p.Valid()
    ensures var (q, o) := InternSym(p, s); q.Valid() && q.Extends(p) && q.InRange([o]) && q.Decode(o) == s
  {
    var (q, o) := InternSym(p, s);
    if s.PushVar? {
      InternNameCorrect(p, s.name);
    }
    forall ops <- q.programs ensures q.InRange(ops) { assert p.InRange(ops); }
  }

  /** Stored programs keep their meaning as the pools grow. */
  lemma ExtendsKeeps(p: Pools, q: Pools, ops: seq<RpnOp>)
    requires q.Extends(p) && p.InRange(ops)
    ensures q.InRange(ops) && q.DecodeAll(ops) == p.DecodeAll(ops)
  {
    forall i | 0 <= i < |ops|
      ensures q.InRange([ops[i]]) && q.Decode(ops[i]) == p.Decode(ops[i])
    {
      assert ops[i] in ops;
    }
  }

  lemma DecodedExtends(p: Pools, q: Pools)
    requires p.Valid() && q.Extends(p)
    ensures q.Decoded().Extends(p.Decoded())
  {
    forall i | 0 <= i < |p.programs| ensures q.Decoded().programs[i] == p.Decoded().programs[i] {
      assert q.programs[i] == p.programs[i] && p.programs[i] in p.programs;
      ExtendsKeeps(p, q, p.programs[i]);
    }
  }

  lemma {:induction false} InternAllCorrect(p: Pools, code: seq<Sym>)
    requires p.Valid()
    ensures var (q, ops) := InternAll(p, code); q.Valid() && q.Extends(p) && q.InRange(ops) && q.DecodeAll(ops) == code
    decreases |code|
  {
    if code != [] {
      InternAllCorrect(p, Front(code));
      var (q, ops) := InternAll(p, Front(code));
      InternSymCorrect(q, Last(code));
      var (q', o) := InternSym(q, Last(code));
      ExtendsKeeps(q, q', ops);
      assert q'.DecodeAll(ops + [o]) == q'.DecodeAll(ops) + [q'.Decode(o)];
      assert code == Front(code) + [Last(code)];
    }
  }

  /** The index a parse returns names the parsed program, whatever the hash does. */
  lemma ParseIntoCorrect(p: Pools, hash: seq<RpnOp> -> nat, toks: seq<Token>)
    requires p.Valid()
    ensures var r := ParseInto(p, hash, toks);
            && r.pools.Valid() && r.pools.Extends(p)
            && r.ok == ParseTokens(toks).ok
            && (r.ok ==> r.pools.Decoded().Stores(r.idx, ParseTokens(toks).yard.out))
  {
    var code := ParseTokens(toks).yard.out;
    InternAllCorrect(p, code);
    var (q, ops) := InternAll(p, code);
    var (a, idx) := AddProgram(q, hash, ops);
    forall o <- a.programs ensures a.InRange(o) { assert o == ops || o in q.programs; }
    ExtendsKeeps(q, a, ops);
  }

  /** Parsing a printed tree stores its post-order. */
  lemma ParseIntoPrinted(p: Pools, hash: seq<RpnOp> -> nat, e: Expr)
    requires p.Valid() && WellFormed(e)
    ensures var r := ParseInto(p, hash, Print(e, 0));
            r.ok && r.pools.Valid() && r.pools.Extends(p) && r.pools.Decoded().Stores(r.idx, PostOrder(e))
  {
    ParseIntoCorrect(p, hash, Print(e, 0));
    ParseInvertsPrint(e);
  }
}
