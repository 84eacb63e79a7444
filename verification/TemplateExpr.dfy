/** Template expressions: tokens, expression trees, their printing and their reverse Polish form.
    The shunting-yard of the transpiler is given here as a function over token sequences and is
    proved to turn every spelling of a tree, with parentheses where they are needed and wherever
    else they are put, into its post-order. */
module TemplateExpr {
  import opened Helpers

  datatype Operator = Or | And | Eq | Neq | Gt | Gte | Lt | Lte | Not | Dot

  datatype Constant = IntConst(i: int) | FloatConst(r: real) | TextConst(s: string)

  /** What the lexer hands over; Unsupported stands for every token the expression parser refuses. */
  datatype Token = Id(name: string) | Const(value: Constant) | LParen | RParen | Oper(op: Operator) | KeywordIn
      | Unsupported

  /** One RPN instruction, with names and constants in place of their pool indices. */
  datatype Sym = PushVar(name: string) | PushConst(value: Constant) | Apply(op: Operator)

  function Precedence(op: Operator): nat {
    match op
    case Or => 1
    case And => 2
    case Eq | Neq => 3
    case Gt | Gte | Lt | Lte => 4
    case Not => 7
    case Dot => 8
  }

  predicate RightAssociative(op: Operator) { op == Not }

  // ---------------------------------------------------------------- the shunting-yard

  /** Output queue and operator stack, top of the stack last. */
  datatype Yard = Yard(out: seq<Sym>, stack: seq<Token>)

  datatype Outcome = Outcome(ok: bool, yard: Yard)

  /** The stack top leaves before `op` goes on. An opening parenthesis never does. */
  predicate PopsBefore(top: Token, op: Operator) {
    top.Oper? && (Precedence(top.op) > Precedence(op)
                  || (Precedence(top.op) == Precedence(op) && !RightAssociative(op)))
  }

  function Last<T>(s: seq<T>): T
    requires s != []
  {
    s[|s| - 1]
  }

  function Front<T>(s: seq<T>): seq<T>
    requires s != []
  {
    s[..|s| - 1]
  }

  function PopBefore(y: Yard, op: Operator): Yard
    decreases |y.stack|
  {
    if y.stack != [] && PopsBefore(Last(y.stack), op)
    then PopBefore(Yard(y.out + [Apply(Last(y.stack).op)], Front(y.stack)), op)
    else y
  }

  /** Pops operators until the stack is empty or an opening parenthesis is on top. */
  function PopToParen(y: Yard): Yard
    decreases |y.stack|
  {
    if y.stack != [] && Last(y.stack).Oper?
    then PopToParen(Yard(y.out + [Apply(Last(y.stack).op)], Front(y.stack)))
    else y
  }

  /** One token; `next` is the lexer's lookahead, which only a dot consults. */
  function Shift(y: Yard, t: Token, next: seq<Token>): Outcome {
    match t
    case Id(n) => Outcome(true, y.(out := y.out + [PushVar(n)]))
    case Const(c) => Outcome(true, y.(out := y.out + [PushConst(c)]))
    case LParen => Outcome(true, y.(stack := y.stack + [LParen]))
    case RParen =>
      var p := PopToParen(y);
      if p.stack == [] || !Last(p.stack).LParen? then Outcome(false, p) else Outcome(true, p.(stack := Front(p.stack)))
    case Oper(op) =>
      if op == Dot && (next == [] || !next[0].Id?) then Outcome(false, y)
      else
        var p := PopBefore(y, op);
        Outcome(true, p.(stack := p.stack + [t]))
    case KeywordIn | Unsupported => Outcome(false, y)
  }

  function Shunt(y: Yard, toks: seq<Token>): Outcome
    decreases |toks|
  {
    if toks == [] then Outcome(true, y)
    else
      var r := Shift(y, toks[0], toks[1..]);
      if r.ok then Shunt(r.yard, toks[1..]) else r
  }

  /** Whole parse: shunt every token, then drain the stack; a parenthesis left on it is an error. */
  function ParseTokens(toks: seq<Token>): Outcome {
    var r := Shunt(Yard([], []), toks);
    if !r.ok then r
    else
      var p := PopToParen(r.yard);
      Outcome(p.stack == [], p)
  }

  // ---------------------------------------------------------------- trees and their printing

  /** `Path` is a dotted path: a root name and the attributes read from it in turn. `Paren` is an
      expression somebody put parentheses around. */
  datatype Expr =
    | Lit(value: Constant)
    | Path(root: string, attrs: seq<string>)
    | Negate(arg: Expr)
    | Bin(op: Operator, left: Expr, right: Expr)
    | Paren(inner: Expr)

  predicate Binary(op: Operator) { op != Not && op != Dot }

  /** Every Bin node carries one of the eight binary operators. */
  predicate WellFormed(e: Expr) {
    match e
    case Lit(_) => true
    case Path(_, _) => true
    case Negate(a) => WellFormed(a)
    case Bin(op, l, r) => Binary(op) && WellFormed(l) && WellFormed(r)
    case Paren(a) => WellFormed(a)
  }

  function PathTokens(attrs: seq<string>): seq<Token>
    decreases |attrs|
  {
    if attrs == [] then [] else [Oper(Dot), Id(attrs[0])] + PathTokens(attrs[1..])
  }

  /** Prints the parentheses the tree has and the fewest more that precedences and left
      associativity allow; `level` is the lowest precedence that may stand bare in this position. */
  function Print(e: Expr, level: nat): seq<Token> {
    match e
    case Lit(c) => [Const(c)]
    case Path(r, attrs) => [Id(r)] + PathTokens(attrs)
    case Negate(a) => [Oper(Not)] + Print(a, 7)
    case Bin(op, l, r) =>
      var bare := Print(l, Precedence(op)) + [Oper(op)] + Print(r, Precedence(op) + 1);
      if Precedence(op) < level then [LParen] + bare + [RParen] else bare
    case Paren(a) => [LParen] + Print(a, 0) + [RParen]
  }

  function PathSyms(attrs: seq<string>): seq<Sym>
    decreases |attrs|
  {
    if attrs == [] then [] else [PushVar(attrs[0]), Apply(Dot)] + PathSyms(attrs[1..])
  }

  function PostOrder(e: Expr): seq<Sym> {
    match e
    case Lit(c) => [PushConst(c)]
    case Path(r, attrs) => [PushVar(r)] + PathSyms(attrs)
    case Negate(a) => PostOrder(a) + [Apply(Not)]
    case Bin(op, l, r) => PostOrder(l) + PostOrder(r) + [Apply(op)]
    case Paren(a) => PostOrder(a)
  }

  // ---------------------------------------------------------------- correctness

  /** What a stack of operators still owes the output, top first. */
  function Owed(stack: seq<Token>): seq<Sym>
    requires forall t <- stack :: t.Oper?
    decreases |stack|
  {
    if stack == [] then [] else [Apply(Last(stack).op)] + Owed(Front(stack))
  }

  predicate Above(stack: seq<Token>, level: nat) {
    forall t <- stack :: t.Oper? && Precedence(t.op) >= level
  }

  /** An expression printed at `level` never makes the stack below it pop. */
  predicate Ready(stack: seq<Token>, level: nat) {
    level <= 7 &&
    (stack != [] ==>
       var top := Last(stack);
       top.LParen? || (top.Oper? && (Precedence(top.op) < level || (top.op == Not && level == 7))))
  }

  /** Operators of at least `op`'s precedence all leave for a left-associative `op`. */
  lemma {:induction false} PopBeforePends(out: seq<Sym>, below: seq<Token>, pend: seq<Token>, op: Operator)
    requires Above(pend, Precedence(op)) && op != Not
    requires below != [] ==> !PopsBefore(Last(below), op)
    ensures PopBefore(Yard(out, below + pend), op) == Yard(out + Owed(pend), below)
    decreases |pend|
  {
    if pend == [] {
      assert below + pend == below;
    } else {
      var st := below + pend;
      assert Last(st) == Last(pend) && Front(st) == below + Front(pend);
      PopBeforePends(out + [Apply(Last(pend).op)], below, Front(pend), op);
      assert out + [Apply(Last(pend).op)] + Owed(Front(pend)) == out + Owed(pend);
    }
  }

  lemma {:induction false} PopToParenPends(out: seq<Sym>, below: seq<Token>, pend: seq<Token>)
    requires Above(pend, 0)
    requires below != [] ==> !Last(below).Oper?
    ensures PopToParen(Yard(out, below + pend)) == Yard(out + Owed(pend), below)
    decreases |pend|
  {
    if pend == [] {
      assert below + pend == below;
    } else {
      var st := below + pend;
      assert Last(st) == Last(pend) && Front(st) == below + Front(pend);
      PopToParenPends(out + [Apply(Last(pend).op)], below, Front(pend));
      assert out + [Apply(Last(pend).op)] + Owed(Front(pend)) == out + Owed(pend);
    }
  }

  lemma ShuntCons(y: Yard, t: Token, rest: seq<Token>)
    ensures Shunt(y, [t] + rest) == var r := Shift(y, t, rest); if r.ok then Shunt(r.yard, rest) else r
  {
    assert ([t] + rest)[1..] == rest;
  }

  /** A left-associative operator settles every pending operator of at least its precedence. */
  lemma {:induction false} ShuntOperator(y: Yard, below: seq<Token>, pend: seq<Token>, op: Operator, rest: seq<Token>)
    requires y.stack == below + pend && op != Not && Above(pend, Precedence(op))
    requires below != [] ==> !PopsBefore(Last(below), op)
    requires op == Dot ==> rest != [] && rest[0].Id?
    ensures Above(pend, 0)
    ensures Shunt(y, [Oper(op)] + rest) == Shunt(Yard(y.out + Owed(pend), below + [Oper(op)]), rest)
  {
    PopBeforePends(y.out, below, pend, op);
    ShuntCons(y, Oper(op), rest);
  }

  lemma Regroup<T>(zs: seq<T>, owed: seq<T>, ys: seq<T>, left: seq<T>, right: seq<T>, last: seq<T>)
    requires zs + owed == (ys + left) + right
    ensures zs + (owed + last) == ys + (left + right + last)
  {
    assert zs + (owed + last) == (zs + owed) + last;
  }

  lemma Pair<T>(a: seq<T>, x: T, y: T, b: seq<T>)
    ensures a + [x] + [y] + b == a + ([x, y] + b)
    ensures [x] + [y] + b == [x, y] + b
  {
  }

  predicate AtMostDot(pend: seq<Token>) { pend == [] || pend == [Oper(Dot)] }

  lemma OwedDot(pend: seq<Token>)
    requires AtMostDot(pend)
    ensures Above(pend, 8) && Owed(pend) == (if pend == [] then [] else [Apply(Dot)])
  {
    if pend != [] {
      assert Front(pend) == [] && Owed([]) == [];
    }
  }

  /** The attributes of a dotted path, read with at most one dot pending before and after. */
  lemma {:induction false} ShuntAttrs(attrs: seq<string>, out: seq<Sym>, below: seq<Token>, dots: seq<Token>,
                                      rest: seq<Token>)
    returns (z: Yard, pend: seq<Token>)
    requires below != [] ==> !PopsBefore(Last(below), Dot)
    requires AtMostDot(dots)
    ensures AtMostDot(pend) && Above(pend, 8) && Above(dots, 0) && z.stack == below + pend
    ensures z.out + Owed(pend) == out + Owed(dots) + PathSyms(attrs)
    ensures Shunt(Yard(out, below + dots), PathTokens(attrs) + rest) == Shunt(z, rest)
    decreases |attrs|
  {
    OwedDot(dots);
    if attrs == [] {
      assert PathTokens(attrs) + rest == rest;
      z, pend := Yard(out, below + dots), dots;
      assert out + Owed(dots) + PathSyms(attrs) == out + Owed(dots);
    } else {
      var tail := PathTokens(attrs[1..]) + rest;
      Pair([], Oper(Dot), Id(attrs[0]), PathTokens(attrs[1..]));
      Assoc([Oper(Dot)], [Id(attrs[0])], PathTokens(attrs[1..]));
      Assoc([Oper(Dot)], [Id(attrs[0])] + PathTokens(attrs[1..]), rest);
      Assoc([Id(attrs[0])], PathTokens(attrs[1..]), rest);
      ShuntOperator(Yard(out, below + dots), below, dots, Dot, [Id(attrs[0])] + tail);
      var y1 := Yard(out + Owed(dots), below + [Oper(Dot)]);
      ShuntCons(y1, Id(attrs[0]), tail);
      var out2 := out + Owed(dots) + [PushVar(attrs[0])];
      z, pend := ShuntAttrs(attrs[1..], out2, below, [Oper(Dot)], rest);
      OwedDot([Oper(Dot)]);
      Pair(out + Owed(dots), PushVar(attrs[0]), Apply(Dot), PathSyms(attrs[1..]));
    }
  }

  /** Shunting a printed tree appends its post-order, up to operators of at least the printing
      level that are still pending on the stack. */
  lemma {:induction false} ShuntExpr(e: Expr, level: nat, y: Yard, rest: seq<Token>)
    returns (z: Yard, pend: seq<Token>)
    requires WellFormed(e) && Ready(y.stack, level)
    ensures Above(pend, level) && z.stack == y.stack + pend
    ensures z.out + Owed(pend) == y.out + PostOrder(e)
    ensures Shunt(y, Print(e, level) + rest) == Shunt(z, rest)
    decreases e, 2 * level + 1
  {
    match e
    case Lit(c) =>
      z, pend := y.(out := y.out + [PushConst(c)]), [];
      ShuntCons(y, Const(c), rest);
    case Path(r, attrs) =>
      z, pend := ShuntPath(r, attrs, y, rest);
    case Negate(a) =>
      z, pend := ShuntNegate(a, y, rest);
    case Bin(op, l, r) =>
      if Precedence(op) < level {
        z := ShuntParens(e, y, rest);
        pend := [];
      } else {
        z, pend := ShuntBare(op, l, r, y, rest);
      }
    case Paren(a) =>
      z := ShuntParens(a, y, rest);
      pend := [];
  }

  lemma {:induction false} ShuntPath(r: string, attrs: seq<string>, y: Yard, rest: seq<Token>)
    returns (z: Yard, pend: seq<Token>)
    requires Ready(y.stack, 7)
    ensures Above(pend, 8) && z.stack == y.stack + pend
    ensures z.out + Owed(pend) == y.out + ([PushVar(r)] + PathSyms(attrs))
    ensures Shunt(y, [Id(r)] + PathTokens(attrs) + rest) == Shunt(z, rest)
  {
    Assoc([Id(r)], PathTokens(attrs), rest);
    ShuntCons(y, Id(r), PathTokens(attrs) + rest);
    var out := y.out + [PushVar(r)];
    assert y.stack + [] == y.stack;
    OwedDot([]);
    z, pend := ShuntAttrs(attrs, out, y.stack, [], rest);
    assert out + [] + PathSyms(attrs) == y.out + ([PushVar(r)] + PathSyms(attrs));
  }

  lemma {:induction false} ShuntNegate(a: Expr, y: Yard, rest: seq<Token>)
    returns (z: Yard, pend: seq<Token>)
    requires WellFormed(a) && Ready(y.stack, 7)
    ensures Above(pend, 7) && z.stack == y.stack + pend
    ensures z.out + Owed(pend) == y.out + (PostOrder(a) + [Apply(Not)])
    ensures Shunt(y, [Oper(Not)] + Print(a, 7) + rest) == Shunt(z, rest)
    decreases a, 16
  {
    hide Print, PostOrder, Owed;
    var right := Print(a, 7) + rest;
    Assoc([Oper(Not)], Print(a, 7), rest);
    ShuntCons(y, Oper(Not), right);
    var y1 := y.(stack := y.stack + [Oper(Not)]);
    var p;
    z, p := ShuntExpr(a, 7, y1, rest);
    pend := [Oper(Not)] + p;
    Assoc(y.stack, [Oper(Not)], p);
    OwedBelow(Oper(Not), p);
    Regroup(z.out, Owed(p), y.out, [], PostOrder(a), [Apply(Not)]);
    assert [] + PostOrder(a) == PostOrder(a) && y.out + [] == y.out;
  }

  lemma {:induction false} ShuntParens(e: Expr, y: Yard, rest: seq<Token>) returns (z: Yard)
    requires WellFormed(e)
    ensures z == Yard(y.out + PostOrder(e), y.stack)
    ensures Shunt(y, [LParen] + Print(e, 0) + [RParen] + rest) == Shunt(z, rest)
    decreases e, 2
  {
    var inner := Print(e, 0);
    assert [LParen] + inner + [RParen] + rest == [LParen] + (inner + ([RParen] + rest));
    ShuntCons(y, LParen, inner + ([RParen] + rest));
    var y1 := y.(stack := y.stack + [LParen]);
    var z1, p := ShuntExpr(e, 0, y1, [RParen] + rest);
    PopToParenPends(z1.out, y1.stack, p);
    ShuntCons(z1, RParen, rest);
    z := Yard(y.out + PostOrder(e), y.stack);
    assert Front(y1.stack) == y.stack;
  }

  lemma {:induction false} ShuntBare(op: Operator, l: Expr, r: Expr, y: Yard, rest: seq<Token>)
    returns (z: Yard, pend: seq<Token>)
    requires Binary(op) && WellFormed(l) && WellFormed(r) && Ready(y.stack, Precedence(op))
    ensures Above(pend, Precedence(op)) && z.stack == y.stack + pend
    ensures z.out + Owed(pend) == y.out + (PostOrder(l) + PostOrder(r) + [Apply(op)])
    ensures Shunt(y, Print(l, Precedence(op)) + [Oper(op)] + Print(r, Precedence(op) + 1) + rest) == Shunt(z, rest)
    decreases Bin(op, l, r), 0
  {
    var p := Precedence(op);
    var right := Print(r, p + 1) + rest;
    Assoc(Print(l, p) + [Oper(op)], Print(r, p + 1), rest);
    Assoc(Print(l, p), [Oper(op)], right);
    var y1, p1 := ShuntExpr(l, p, y, [Oper(op)] + right);
    ShuntOperator(y1, y.stack, p1, op, right);
    var y2 := Yard(y.out + PostOrder(l), y.stack + [Oper(op)]);
    var p2;
    z, p2 := ShuntExpr(r, p + 1, y2, rest);
    pend := [Oper(op)] + p2;
    Assoc(y.stack, [Oper(op)], p2);
    OwedBelow(Oper(op), p2);
    Regroup(z.out, Owed(p2), y.out, PostOrder(l), PostOrder(r), [Apply(op)]);
  }

  lemma {:induction false} OwedBelow(t: Token, stack: seq<Token>)
    requires t.Oper? && Above(stack, 0)
    ensures Above([t] + stack, 0) && Owed([t] + stack) == Owed(stack) + [Apply(t.op)]
    decreases |stack|
  {
    if stack == [] {
      assert Front([t]) == [] && Owed([]) == [];
    } else {
      assert Front([t] + stack) == [t] + Front(stack);
      OwedBelow(t, Front(stack));
    }
  }

  /** Parsing any spelling of a well-formed tree succeeds and yields exactly its post-order. */
  lemma {:induction false} ParseInvertsPrint(e: Expr)
    requires WellFormed(e)
    ensures ParseTokens(Print(e, 0)).ok && ParseTokens(Print(e, 0)).yard.out == PostOrder(e)
  {
    var z, pend := ShuntExpr(e, 0, Yard([], []), []);
    assert Print(e, 0) + [] == Print(e, 0);
    assert [] + pend == pend;
    PopToParenPends(z.out, [], pend);
  }
}
