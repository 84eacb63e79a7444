/** The grammar of template expressions, one production for each level of binding, and the proof that
    the shunting-yard parses what it derives, grouped as it says. */
module TemplateGrammar {
  import opened Helpers
  import opened TemplateExpr
  import opened TemplatePools
  import opened TemplateValues

  // ---------------------------------------------------------------- the grammar

  // Each production derives tokens together with their reverse Polish form.

  /** `a || b`, grouping to the left. */
  ghost predicate OrExpr(ts: seq<Token>, out: seq<Sym>)
    decreases |ts|, 6
  {
    || AndExpr(ts, out)
    || exists k: nat, l, r | k < |ts| ::
         ts[k] == Oper(Or) && OrExpr(ts[..k], l) && AndExpr(ts[k + 1..], r) && out == l + r + [Apply(Or)]
  }

  /** `a && b`. */
  ghost predicate AndExpr(ts: seq<Token>, out: seq<Sym>)
    decreases |ts|, 5
  {
    || EqExpr(ts, out)
    || exists k: nat, l, r | k < |ts| ::
         ts[k] == Oper(And) && AndExpr(ts[..k], l) && EqExpr(ts[k + 1..], r) && out == l + r + [Apply(And)]
  }

  /** `a == b` and `a != b`. */
  ghost predicate EqExpr(ts: seq<Token>, out: seq<Sym>)
    decreases |ts|, 4
  {
    || RelExpr(ts, out)
    || exists k: nat, op, l, r | k < |ts| && (op == Eq || op == Neq) ::
         ts[k] == Oper(op) && EqExpr(ts[..k], l) && RelExpr(ts[k + 1..], r) && out == l + r + [Apply(op)]
  }

  /** `a < b`, `a <= b`, `a > b` and `a >= b`. */
  ghost predicate RelExpr(ts: seq<Token>, out: seq<Sym>)
    decreases |ts|, 3
  {
    || UnaryExpr(ts, out)
    || exists k: nat, op, l, r | k < |ts| && (op == Lt || op == Lte || op == Gt || op == Gte) ::
         ts[k] == Oper(op) && RelExpr(ts[..k], l) && UnaryExpr(ts[k + 1..], r) && out == l + r + [Apply(op)]
  }

  /** `!a`. */
  ghost predicate UnaryExpr(ts: seq<Token>, out: seq<Sym>)
    decreases |ts|, 2
  {
    || Primary(ts, out)
    || (ts != [] && ts[0] == Oper(Not) && exists a :: UnaryExpr(ts[1..], a) && out == a + [Apply(Not)])
  }

  /** A constant, a path, or anything in parentheses. */
  ghost predicate Primary(ts: seq<Token>, out: seq<Sym>)
    decreases |ts|, 1
  {
    || (exists c :: ts == [Const(c)] && out == [PushConst(c)])
    || PathExpr(ts, out)
    || (|ts| >= 2 && ts[0] == LParen && ts[|ts| - 1] == RParen && OrExpr(ts[1..|ts| - 1], out))
  }

  /** A name, and the attributes read from it one after another. */
  predicate PathExpr(ts: seq<Token>, out: seq<Sym>)
    decreases |ts|, 0
  {
    if |ts| == 1 then ts[0].Id? && out == [PushVar(ts[0].name)]
    else
      var n := |ts| - 2;
      && |ts| > 2 && |out| > 2 && ts[n] == Oper(Dot) && ts[n + 1].Id?
      && out[|out| - 2..] == [PushVar(ts[n + 1].name), Apply(Dot)] && PathExpr(ts[..n], out[..|out| - 2])
  }

  // ---------------------------------------------------------------- what is derived is a spelling

  /** The tree is spelled so without parentheses of its own at a level of binding. */
  predicate Spells(e: Expr, level: nat, ts: seq<Token>, out: seq<Sym>) {
    && WellFormed(e) && Print(e, 0) == ts && PostOrder(e) == out
    && (e.Bin? ==> Precedence(e.op) >= level)
  }

  lemma {:induction false} PathTokensLast(attrs: seq<string>, a: string)
    ensures PathTokens(attrs + [a]) == PathTokens(attrs) + [Oper(Dot), Id(a)]
    ensures PathSyms(attrs + [a]) == PathSyms(attrs) + [PushVar(a), Apply(Dot)]
    decreases |attrs|
  {
    if attrs == [] {
      assert attrs + [a] == [a] && [a][1..] == [];
    } else {
      assert (attrs + [a])[1..] == attrs[1..] + [a];
      PathTokensLast(attrs[1..], a);
    }
  }

  lemma {:induction false} PathSpelled(ts: seq<Token>, out: seq<Sym>) returns (root: string, attrs: seq<string>)
    requires PathExpr(ts, out)
    ensures ts == [Id(root)] + PathTokens(attrs) && out == [PushVar(root)] + PathSyms(attrs)
    decreases |ts|
  {
    if |ts| == 1 {
      root, attrs := ts[0].name, [];
    } else {
      var n, m := |ts| - 2, |out| - 2;
      var front;
      root, front := PathSpelled(ts[..n], out[..m]);
      attrs := front + [ts[n + 1].name];
      PathTokensLast(front, ts[n + 1].name);
      assert ts == ts[..n] + [Oper(Dot), Id(ts[n + 1].name)];
      assert out == out[..m] + out[m..];
    }
  }

  /** Two operands and a binary operator between them. */
  lemma BinSpelled(op: Operator, l: Expr, r: Expr, ts: seq<Token>, k: nat, lo: seq<Sym>, ro: seq<Sym>)
    requires Binary(op) && k < |ts| && ts[k] == Oper(op)
    requires Spells(l, Precedence(op), ts[..k], lo) && Spells(r, Precedence(op) + 1, ts[k + 1..], ro)
    ensures Spells(Bin(op, l, r), Precedence(op), ts, lo + ro + [Apply(op)])
  {
    BareAt(l, Precedence(op));
    BareAt(r, Precedence(op) + 1);
    assert ts == ts[..k] + [Oper(op)] + ts[k + 1..];
  }

  lemma BareAt(e: Expr, level: nat)
    requires e.Bin? ==> Precedence(e.op) >= level
    ensures Print(e, level) == Print(e, 0)
  {
  }

  lemma {:induction false} OrSpelled(ts: seq<Token>, out: seq<Sym>) returns (e: Expr)
    requires OrExpr(ts, out)
    ensures Spells(e, 1, ts, out)
    decreases |ts|, 6
  {
    hide Spells;
    if AndExpr(ts, out) {
      e := AndSpelled(ts, out);
      Looser(e, 2, 1, ts, out);
    } else {
      var k: nat, lo, ro :| k < |ts| && ts[k] == Oper(Or) && OrExpr(ts[..k], lo) && AndExpr(ts[k + 1..], ro)
        && out == lo + ro + [Apply(Or)];
      var l := OrSpelled(ts[..k], lo);
      var r := AndSpelled(ts[k + 1..], ro);
      e := Bin(Or, l, r);
      BinSpelled(Or, l, r, ts, k, lo, ro);
    }
  }

  lemma {:induction false} AndSpelled(ts: seq<Token>, out: seq<Sym>) returns (e: Expr)
    requires AndExpr(ts, out)
    ensures Spells(e, 2, ts, out)
    decreases |ts|, 5
  {
    hide Spells;
    if EqExpr(ts, out) {
      e := EqSpelled(ts, out);
      Looser(e, 3, 2, ts, out);
    } else {
      var k: nat, lo, ro :| k < |ts| && ts[k] == Oper(And) && AndExpr(ts[..k], lo) && EqExpr(ts[k + 1..], ro)
        && out == lo + ro + [Apply(And)];
      var l := AndSpelled(ts[..k], lo);
      var r := EqSpelled(ts[k + 1..], ro);
      e := Bin(And, l, r);
      BinSpelled(And, l, r, ts, k, lo, ro);
    }
  }

  lemma {:induction false} EqSpelled(ts: seq<Token>, out: seq<Sym>) returns (e: Expr)
    requires EqExpr(ts, out)
    ensures Spells(e, 3, ts, out)
    decreases |ts|, 4
  {
    hide Spells;
    if RelExpr(ts, out) {
      e := RelSpelled(ts, out);
      Looser(e, 4, 3, ts, out);
    } else {
      var k: nat, op, lo, ro :| k < |ts| && (op == Eq || op == Neq) && ts[k] == Oper(op) && EqExpr(ts[..k], lo)
        && RelExpr(ts[k + 1..], ro) && out == lo + ro + [Apply(op)];
      var l := EqSpelled(ts[..k], lo);
      var r := RelSpelled(ts[k + 1..], ro);
      e := Bin(op, l, r);
      BinSpelled(op, l, r, ts, k, lo, ro);
    }
  }

  lemma {:induction false} RelSpelled(ts: seq<Token>, out: seq<Sym>) returns (e: Expr)
    requires RelExpr(ts, out)
    ensures Spells(e, 4, ts, out)
    decreases |ts|, 3
  {
    hide Spells;
    if UnaryExpr(ts, out) {
      e := UnarySpelled(ts, out);
      Looser(e, 8, 4, ts, out);
    } else {
      var k: nat, op, lo, ro :| k < |ts| && (op == Lt || op == Lte || op == Gt || op == Gte) && ts[k] == Oper(op)
        && RelExpr(ts[..k], lo) && UnaryExpr(ts[k + 1..], ro) && out == lo + ro + [Apply(op)];
      var l := RelSpelled(ts[..k], lo);
      var r := UnarySpelled(ts[k + 1..], ro);
      Looser(r, 8, 5, ts[k + 1..], ro);
      e := Bin(op, l, r);
      BinSpelled(op, l, r, ts, k, lo, ro);
    }
  }

  lemma Looser(e: Expr, level: nat, level': nat, ts: seq<Token>, out: seq<Sym>)
    requires Spells(e, level, ts, out) && level' <= level
    ensures Spells(e, level', ts, out)
  {
  }

  lemma {:induction false} UnarySpelled(ts: seq<Token>, out: seq<Sym>) returns (e: Expr)
    requires UnaryExpr(ts, out)
    ensures Spells(e, 8, ts, out)
    decreases |ts|, 2
  {
    if Primary(ts, out) {
      e := PrimarySpelled(ts, out);
    } else {
      var a :| UnaryExpr(ts[1..], a) && out == a + [Apply(Not)];
      var inner := UnarySpelled(ts[1..], a);
      BareAt(inner, 7);
      e := Negate(inner);
      assert ts == [Oper(Not)] + ts[1..];
    }
  }

  lemma {:induction false} PrimarySpelled(ts: seq<Token>, out: seq<Sym>) returns (e: Expr)
    requires Primary(ts, out)
    ensures Spells(e, 8, ts, out)
    decreases |ts|, 1
  {
    if c :| ts == [Const(c)] && out == [PushConst(c)] {
      e := Lit(c);
    } else if PathExpr(ts, out) {
      var root, attrs := PathSpelled(ts, out);
      e := Path(root, attrs);
    } else {
      var inner := OrSpelled(ts[1..|ts| - 1], out);
      e := Paren(inner);
      assert ts == [LParen] + ts[1..|ts| - 1] + [RParen];
    }
  }

  /** Whatever the grammar derives the parser accepts, with the reverse Polish form derived. */
  lemma ParsesGrammar(ts: seq<Token>, out: seq<Sym>)
    requires OrExpr(ts, out)
    ensures ParseTokens(ts).ok && ParseTokens(ts).yard.out == out
  {
    hide OrExpr, ParseTokens;
    var e := OrSpelled(ts, out);
    ParseInvertsPrint(e);
  }

  /** What the grammar derives is accepted, and the index holds the reverse Polish form derived. */
  ghost predicate StoredAsDerived(toks: seq<Token>, r: Parsed) {
    forall rpn | OrExpr(toks, rpn) :: r.ok && r.pools.Decoded().Stores(r.idx, rpn)
  }

  lemma StoresGrammar(p: Pools, hash: seq<RpnOp> -> nat, toks: seq<Token>)
    requires p.Valid()
    ensures StoredAsDerived(toks, ParseInto(p, hash, toks))
  {
    hide OrExpr, ParseTokens;
    ParseIntoCorrect(p, hash, toks);
    var r := ParseInto(p, hash, toks);
    forall rpn | OrExpr(toks, rpn) ensures r.ok && r.pools.Decoded().Stores(r.idx, rpn) {
      ParsesGrammar(toks, rpn);
    }
  }

  // ---------------------------------------------------------------- every spelling is derived

  /** The production of a level of binding. */
  ghost predicate Derives(level: nat, ts: seq<Token>, out: seq<Sym>) {
    if level <= 1 then OrExpr(ts, out)
    else if level == 2 then AndExpr(ts, out)
    else if level == 3 then EqExpr(ts, out)
    else if level == 4 then RelExpr(ts, out)
    else if level <= 7 then UnaryExpr(ts, out)
    else Primary(ts, out)
  }

  /** What binds tighter may stand where looser binding is asked for. */
  lemma {:induction false} DerivesLower(level: nat, level': nat, ts: seq<Token>, out: seq<Sym>)
    requires Derives(level, ts, out) && level' <= level
    ensures Derives(level', ts, out)
    decreases level
  {
    if level' < level {
      OneLower(level, ts, out);
      DerivesLower(level - 1, level', ts, out);
    }
  }

  lemma OneLower(level: nat, ts: seq<Token>, out: seq<Sym>)
    requires Derives(level, ts, out) && level > 0
    ensures Derives(level - 1, ts, out)
  {
  }

  lemma {:induction false} PathDerives(root: string, attrs: seq<string>)
    ensures PathExpr([Id(root)] + PathTokens(attrs), [PushVar(root)] + PathSyms(attrs))
    decreases |attrs|
  {
    if attrs != [] {
      var n := |attrs| - 1;
      var a, ts, out := attrs[n], [Id(root)] + PathTokens(attrs), [PushVar(root)] + PathSyms(attrs);
      assert attrs == attrs[..n] + [a];
      PathDerives(root, attrs[..n]);
      PathTokensLast(attrs[..n], a);
      assert ts == [Id(root)] + PathTokens(attrs[..n]) + [Oper(Dot), Id(a)];
      assert out == [PushVar(root)] + PathSyms(attrs[..n]) + [PushVar(a), Apply(Dot)];
      assert ts[..|ts| - 2] == [Id(root)] + PathTokens(attrs[..n]);
      assert out[..|out| - 2] == [PushVar(root)] + PathSyms(attrs[..n]);
    }
  }

  lemma BinDerives(op: Operator, lt: seq<Token>, rt: seq<Token>, lo: seq<Sym>, ro: seq<Sym>)
    requires Binary(op) && Derives(Precedence(op), lt, lo) && Derives(Precedence(op) + 1, rt, ro)
    ensures Derives(Precedence(op), lt + [Oper(op)] + rt, lo + ro + [Apply(op)])
  {
    var ts, k := lt + [Oper(op)] + rt, |lt|;
    assert ts[k] == Oper(op) && ts[..k] == lt && ts[k + 1..] == rt;
  }

  lemma ParensDerive(ts: seq<Token>, out: seq<Sym>)
    requires OrExpr(ts, out)
    ensures Primary([LParen] + ts + [RParen], out)
  {
    var all := [LParen] + ts + [RParen];
    assert all[1..|all| - 1] == ts;
  }

  lemma NotDerives(ts: seq<Token>, out: seq<Sym>)
    requires UnaryExpr(ts, out)
    ensures UnaryExpr([Oper(Not)] + ts, out + [Apply(Not)])
  {
    assert ([Oper(Not)] + ts)[1..] == ts;
  }

  lemma ConstDerives(c: Constant)
    ensures Primary([Const(c)], [PushConst(c)])
  {
  }

  lemma PathPrimary(ts: seq<Token>, out: seq<Sym>)
    requires PathExpr(ts, out)
    ensures Primary(ts, out)
  {
  }

  /** Every spelling of a tree at a level of binding is derived there. */
  lemma {:induction false} SpellingDerived(e: Expr, level: nat)
    requires WellFormed(e) && level <= 7
    ensures Derives(level, Print(e, level), PostOrder(e))
    decreases e, level
  {
    hide OrExpr, AndExpr, EqExpr, RelExpr, UnaryExpr, Primary, PathExpr, Derives;
    match e
    case Lit(c) =>
      ConstDerives(c);
      FromPrimary(level, [Const(c)], [PushConst(c)]);
    case Path(root, attrs) =>
      PathDerives(root, attrs);
      PathPrimary([Id(root)] + PathTokens(attrs), [PushVar(root)] + PathSyms(attrs));
      FromPrimary(level, [Id(root)] + PathTokens(attrs), [PushVar(root)] + PathSyms(attrs));
    case Negate(a) =>
      SpellingDerived(a, 7);
      NegateDerived(level, Print(a, 7), PostOrder(a));
    case Bin(op, l, r) =>
      SpellingDerived(l, Precedence(op));
      SpellingDerived(r, Precedence(op) + 1);
      var bare := Print(l, Precedence(op)) + [Oper(op)] + Print(r, Precedence(op) + 1);
      BinDerives(op, Print(l, Precedence(op)), Print(r, Precedence(op) + 1), PostOrder(l), PostOrder(r));
      if Precedence(op) < level {
        ParensDerived(level, Precedence(op), bare, PostOrder(e));
      } else {
        DerivesLower(Precedence(op), level, bare, PostOrder(e));
      }
    case Paren(a) =>
      SpellingDerived(a, 0);
      ParensDerived(level, 0, Print(a, 0), PostOrder(a));
  }

  lemma FromPrimary(level: nat, ts: seq<Token>, out: seq<Sym>)
    requires Primary(ts, out)
    ensures Derives(level, ts, out)
  {
    hide OrExpr, AndExpr, EqExpr, RelExpr, UnaryExpr, Primary;
    DerivesLower(if level > 8 then level else 8, level, ts, out);
  }

  lemma NegateDerived(level: nat, ts: seq<Token>, out: seq<Sym>)
    requires Derives(7, ts, out) && level <= 7
    ensures Derives(level, [Oper(Not)] + ts, out + [Apply(Not)])
  {
    hide OrExpr, AndExpr, EqExpr, RelExpr, UnaryExpr;
    NotDerives(ts, out);
    DerivesLower(7, level, [Oper(Not)] + ts, out + [Apply(Not)]);
  }

  lemma ParensDerived(level: nat, inner: nat, ts: seq<Token>, out: seq<Sym>)
    requires Derives(inner, ts, out)
    ensures Derives(level, [LParen] + ts + [RParen], out)
  {
    hide OrExpr, AndExpr, EqExpr, RelExpr, UnaryExpr, Primary;
    DerivesLower(inner, 0, ts, out);
    ParensDerive(ts, out);
    FromPrimary(level, [LParen] + ts + [RParen], out);
  }

  /** The spellings of trees, with their post-orders, are exactly what the grammar derives. */
  lemma GrammarSpells(ts: seq<Token>, out: seq<Sym>)
    ensures OrExpr(ts, out) <==> exists e :: WellFormed(e) && Print(e, 0) == ts && PostOrder(e) == out
  {
    hide OrExpr;
    if OrExpr(ts, out) {
      var e := OrSpelled(ts, out);
      assert WellFormed(e);
    }
    if e :| WellFormed(e) && Print(e, 0) == ts && PostOrder(e) == out {
      SpellingDerived(e, 0);
      assert Derives(0, ts, out);
    }
  }

  // ---------------------------------------------------------------- what the smallest expressions mean

  /** `a op b` is the operator on the values of `a` and of `b`, in this order. */
  lemma BinaryMeans(m: Meaning, ctx: Context, a: string, op: Operator, b: string)
    requires Binary(op)
    ensures ParseTokens([Id(a), Oper(op), Id(b)]).ok
    ensures EvalRpn(m, ctx, ParseTokens([Id(a), Oper(op), Id(b)]).yard.out)
         == m.binary(op, m.load(Lookup(ctx, a)), m.load(Lookup(ctx, b)))
  {
    hide ParseTokens, EvalRpn, PostOrder;
    var e := Bin(op, Path(a, []), Path(b, []));
    NamePrinted(a);
    NamePrinted(b);
    assert Print(e, 0) == [Id(a), Oper(op), Id(b)];
    ParseInvertsPrint(e);
    RpnEvaluatesTree(m, ctx, e);
    NameMeans(m, ctx, a);
    NameMeans(m, ctx, b);
  }

  /** `!a` negates the value of `a`. */
  lemma NotMeans(m: Meaning, ctx: Context, a: string)
    ensures ParseTokens([Oper(Not), Id(a)]).ok
    ensures EvalRpn(m, ctx, ParseTokens([Oper(Not), Id(a)]).yard.out) == m.negate(m.load(Lookup(ctx, a)))
  {
    hide ParseTokens, EvalRpn, PostOrder;
    var e := Negate(Path(a, []));
    NamePrinted(a);
    assert Print(e, 0) == [Oper(Not), Id(a)];
    ParseInvertsPrint(e);
    RpnEvaluatesTree(m, ctx, e);
    NameMeans(m, ctx, a);
  }

  /** `a.b` is the field `b` of the object `a`, and nothing when there is no such object or field. */
  lemma AttributeMeans(m: Meaning, ctx: Context, a: string, b: string)
    ensures ParseTokens([Id(a), Oper(Dot), Id(b)]).ok
    ensures EvalRpn(m, ctx, ParseTokens([Id(a), Oper(Dot), Id(b)]).yard.out)
         == if a in ctx && ctx[a].Obj? && b in ctx[a].fields then m.load(Live(ctx[a].fields[b])) else m.load(Dead)
  {
    hide ParseTokens, EvalRpn, PostOrder;
    var e := Path(a, [b]);
    assert [b][1..] == [] && PathTokens([]) == [];
    assert Print(e, 0) == [Id(a), Oper(Dot), Id(b)];
    ParseInvertsPrint(e);
    RpnEvaluatesTree(m, ctx, e);
    assert ([a] + [b])[1..] == [b];
    assert EvalTree(m, ctx, e) == m.load(Follow(Lookup(ctx, a), [b]));
    if a in ctx && ctx[a].Obj? {
      assert Follow(Lookup(ctx, a), [b]) == Follow(Lookup(ctx[a].fields, b), []);
    }
  }

  lemma NamePrinted(a: string)
    ensures forall level :: Print(Path(a, []), level) == [Id(a)]
  {
    assert [Id(a)] + PathTokens([]) == [Id(a)];
  }

  lemma NameMeans(m: Meaning, ctx: Context, a: string)
    ensures EvalTree(m, ctx, Path(a, [])) == m.load(Lookup(ctx, a))
  {
    assert ([a] + [])[1..] == [];
  }
}
