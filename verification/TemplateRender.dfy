/** From a template file to the bytes of the response. */
module TemplateRender {
  import opened TemplateExpr
  import opened TemplatePools
  import opened TemplateValues
  import opened TemplateIR
  import opened TemplateCode
  import opened TemplateMachine
  import opened TemplateSimulation
  import opened TemplateScan
  import opened TemplateCorrect
  import opened TemplateTranspiler
  import opened TemplateRerun
  import opened TemplateStream

  /** Every literal of a tree's code is a span of its events. */
  lemma {:induction false} LiteralsAreSpans(t: Tree, lo: nat, off: nat, len: nat)
    requires Literal(off, len) in Generate(t, lo)
    ensures Span(off, len) in Events(t)
    decreases t
  {
    hide Generate, GenerateChain, Size, ChainSize, ChainEntry, PostOrder, Print;
    var op: SymOp := Literal(off, len);
    match t
    case Nil => EmptyCode(lo);
    case Text(o, l, next) =>
      TextCode(o, l, next, lo);
      if op in Generate(next, lo + 1) { LiteralsAreSpans(next, lo + 1, off, len); }
    case Put(e, next) =>
      PutCode(e, next, lo);
      LiteralsAreSpans(next, lo + 1, off, len);
    case Cond(c, thn, rest, next) =>
      CondCode(c, thn, rest, next, lo);
      var mid := lo + 1 + Size(thn);
      var end := mid + ChainSize(rest);
      if op in Generate(thn, lo + 1) { LiteralsAreSpans(thn, lo + 1, off, len); }
      else if op in GenerateChain(rest, mid, end) { ChainLiteralsAreSpans(rest, mid, end, off, len); }
      else { LiteralsAreSpans(next, end + 1, off, len); }
    case Loop(v, e, body, next) =>
      LoopCode(v, e, body, next, lo);
      if op in Generate(body, lo + 1) { LiteralsAreSpans(body, lo + 1, off, len); }
      else { LiteralsAreSpans(next, lo + 1 + Size(body) + 1, off, len); }
  }

  lemma {:induction false} ChainLiteralsAreSpans(c: Chain, at: nat, end: nat, off: nat, len: nat)
    requires Literal(off, len) in GenerateChain(c, at, end)
    ensures Span(off, len) in ChainEvents(c)
    decreases c
  {
    hide Generate, GenerateChain, Size, ChainSize, ChainEntry, PostOrder, Print;
    ChainCode(c, at, end);
    match c
    case NoElse =>
    case Otherwise(b) => LiteralsAreSpans(b, at + 2, off, len);
    case OrElse(e, thn, rest) =>
      ElifCode(e, thn, rest, at);
      var mid := at + 2 + Size(thn);
      if Literal(off, len) in Generate(thn, at + 2) { LiteralsAreSpans(thn, at + 2, off, len); }
      else { ChainLiteralsAreSpans(rest, mid, end, off, len); }
  }

  /** A plain piece lies in the file. */
  lemma {:induction false} PlainInFile(file: string, start: nat, pos: nat, p: Piece)
    requires start <= pos && pos <= |file| && p in Pieces(file, start, pos) && p.Plain?
    ensures p.off + p.len <= |file|
    decreases |file| - pos
  {
    hide FindPair, PlainPiece, Pieces;
    PlainIs(start, |file|, p);
    var lo := FindPair(file, pos, '{', '%');
    var end := FindPair(file, lo, '%', '}');
    PlainAmong(file, start, pos, p);
    PlainIs(start, lo, p);
    if lo < |file| && end < |file| && p in Pieces(file, end + 2, end + 2) {
      PlainInFile(file, end + 2, end + 2, p);
    }
  }

  lemma PlainIs(start: nat, end: nat, p: Piece)
    ensures p.Plain? && p in PlainPiece(start, end) ==> p.off + p.len == end
  {
  }

  /** A plain piece of a scan is its first or one behind the first tag. */
  lemma {:induction false} PlainAmong(file: string, start: nat, pos: nat, p: Piece)
    requires start <= pos <= |file| && p in Pieces(file, start, pos) && p.Plain?
    ensures var lo := FindPair(file, pos, '{', '%');
            var end := FindPair(file, lo, '%', '}');
            if lo >= |file| then p in PlainPiece(start, |file|)
            else p in PlainPiece(start, lo) || (end + 2 <= |file| && p in Pieces(file, end + 2, end + 2))
  {
    hide FindPair, PlainPiece;
  }

  lemma LiteralsInFile(file: string, lex: string -> Tag, t: Tree)
    requires IsTextOf(file, lex, t)
    ensures var code := Generate(t, 0); forall i | 0 <= i < |code| && code[i].Literal? ::
            code[i].off + code[i].len <= |file|
  {
    var code := Generate(t, 0);
    var ps := Pieces(file, 0, 0);
    forall i | 0 <= i < |code| && code[i].Literal? ensures code[i].off + code[i].len <= |file| {
      var off, len := code[i].off, code[i].len;
      LiteralsAreSpans(t, 0, off, len);
      var k :| 0 <= k < |Events(t)| && Events(t)[k] == Span(off, len);
      assert PieceEvent(file, lex, ps[k]) == Span(off, len);
      PlainInFile(file, 0, 0, ps[k]);
    }
  }

  /** Reading the template says everything: it has nothing to say, or nothing behind its end. */
  predicate EndsForGood(file: string, number: int -> string, sem: Semantics, t: Tree, ctx: Context) {
    Bytes(file, number, Interp(sem, t, ctx).1) == "" || Bytes(file, number, Reread(sem, t, ctx)) == ""
  }

  /** A template ends for good if and only if its code, run to its end, has nothing to say or says
      nothing when asked again. */
  lemma EndsForGoodIff(file: string, number: int -> string, sem: Semantics, t: Tree, ctx: Context)
    requires Runnable(t) && Size(t) < WORD
    ensures EndsForGood(file, number, sem, t, Visible(ctx)) <==>
            forall c, out | Reaches(sem, Generate(t, 0), Config(0, 0, ctx), c, out)
                && StepOf(sem, Generate(t, 0), c) == End ::
              Bytes(file, number, out) == "" || QuietAgain(file, number, sem, Generate(t, 0), c)
  {
    hide Generate, Interp, Visible, Reaches, StepOf, Bytes, QuietAgain, Runnable, Size, Reread;
    var code, all := Generate(t, 0), Interp(sem, t, Visible(ctx)).1;
    var fin := CodeFollowsTree(sem, t, ctx);
    QuietAgainIff(file, number, sem, t, ctx, fin, all);
    forall c, out | Reaches(sem, code, Config(0, 0, ctx), c, out) && StepOf(sem, code, c) == End
      ensures c == fin && out == all
    {
      EndUnique(sem, code, Config(0, 0, ctx), c, fin, out, all);
    }
  }

  /** A template without a loop behind its last output ends for good: one whose last item is a
      literal or a printed value, say, or one that ends in conditionals alone. */
  lemma PlainEndsForGood(file: string, number: int -> string, sem: Semantics, t: Tree, ctx: Context)
    requires EndsInOutput(t) || PlainTail(Generate(t, 0))
    ensures forall c, out | Reaches(sem, Generate(t, 0), Config(0, 0, ctx), c, out)
            && StepOf(sem, Generate(t, 0), c) == End ::
              QuietAgain(file, number, sem, Generate(t, 0), c)
    ensures Runnable(t) && Size(t) < WORD ==> EndsForGood(file, number, sem, t, Visible(ctx))
  {
    hide Generate, Interp, Visible, Reaches, StepOf, Bytes, QuietAgain, PlainTail, EndsInOutput, EndsForGood, Runnable,
        Size;
    if EndsInOutput(t) {
      OutputTailPlain(t);
    }
    forall c, out | Reaches(sem, Generate(t, 0), Config(0, 0, ctx), c, out) && StepOf(sem, Generate(t, 0), c) == End
      ensures QuietAgain(file, number, sem, Generate(t, 0), c)
    {
      PlainQuiet(file, number, sem, Generate(t, 0), ctx, c, out);
    }
    if Runnable(t) && Size(t) < WORD {
      EndsForGoodIff(file, number, sem, t, ctx);
    }
  }

  /** A template that ends in a loop whose body ends in output ends for good exactly when the loop
      has no items, the template says nothing, or it says nothing on the context it left behind with
      the loop variable set to the first item. */
  lemma TrailingLoopEndsForGood(file: string, number: int -> string, sem: Semantics, t: Tree, v: string, e: Expr,
                                body: Tree, ctx: Context)
    requires var u := Append(t, Loop(v, e, body, Nil)); Runnable(u) && Size(u) < WORD
    requires EndsInOutput(body)
    ensures var u := Append(t, Loop(v, e, body, Nil));
            var items := EvalTree(sem.value, Interp(sem, t, Visible(ctx)).0, e).Elements();
            var r := Interp(sem, u, Visible(ctx));
            EndsForGood(file, number, sem, u, Visible(ctx)) <==>
              items == [] || Bytes(file, number, r.1) == ""
                  || Bytes(file, number, Interp(sem, u, r.0[v := items[0]]).1) == ""
  {
    hide Generate, Interp, Visible, Reaches, StepOf, Bytes, Restarts, Size, Runnable, EndsInOutput, Append, Reread;
    var u := Append(t, Loop(v, e, body, Nil));
    var r := Interp(sem, u, Visible(ctx));
    var items := EvalTree(sem.value, Interp(sem, t, Visible(ctx)).0, e).Elements();
    var c, out := TrailingLoopRestarts(sem, t, v, e, body, ctx);
    var c', more := Resumed(c), [];
    NoBytes(file, number);
    if items != [] {
      ReachesNow(sem, Generate(u, 0), Resumed(c));
      c' := StartedOver(sem, u, c, Resumed(c));
      more := Interp(sem, u, r.0[v := items[0]]).1;
    }
    EndMetAgain(sem, u, ctx, c, out, more);
  }

  /** The response to a template. Its file, the text of a runnable tree, is compiled in chunks, which
      succeeds exactly when no tag outruns the chunk behind the one it began in. The generator of its
      code is then handed buffers of any sizes: if and only if the template ends for good, the bytes
      are those of reading the tree whatever the buffers. Otherwise, when the first buffer has room to
      spare, the bytes of rereading it follow. */
  method Respond(file: string, lex: string -> Tag, hash: seq<RpnOp> -> nat, chunkSize: nat, sem: Semantics,
                 number: int -> string, ctx: Context, wholeReads: bool, sizes: seq<nat>, ghost t: Tree)
    returns (compiled: bool, data: string, action: StreamAction)
    requires IsTextOf(file, lex, t) && Runnable(t) && Size(t) < WORD
    requires chunkSize > 0 && forall n <- sizes :: n > 0
    ensures compiled <==> TagsWithinTwoChunks(Pieces(file, 0, 0), chunkSize)
    ensures compiled && EndsForGood(file, number, sem, t, Visible(ctx)) ==>
              var all := Bytes(file, number, Interp(sem, t, Visible(ctx)).1);
              && (action.StopAndAliveConn? ==> data == all)
              && (action.Continue? ==> data <= all)
              && (|sizes| > |all| ==> !action.Continue?)
    ensures compiled && !EndsForGood(file, number, sem, t, Visible(ctx)) && wholeReads && |sizes| >= 2
            && !action.StopAndCloseConn? ==>
              var all := Bytes(file, number, Interp(sem, t, Visible(ctx)).1);
              var again := Bytes(file, number, Reread(sem, t, Visible(ctx)));
              sizes[0] > |all| ==> all < data && OneBegins(data, all + again)
  {
    hide Interp, Generate, Pieces, PieceEvents, Reaches, StepOf, Runnable, Size, IsTextOf, CompiledCode,
        TagsWithinTwoChunks, Bytes, Feed, Reread, QuietAgain;
    CompilesWhole(file, lex, hash, t, sem, ctx);
    var transpiler := new Transpiler(hash);
    compiled := transpiler.GenerateIRFromTemplate(file, chunkSize, lex);
    if !compiled {
      return false, "", StopAndCloseConn;
    }
    var code := transpiler.GenerateCases();
    LiteralsInFile(file, lex, t);
    var gen := new TemplateGenerator(file, code, sem, number, ctx, wholeReads, t);
    ghost var all := Interp(sem, t, Visible(ctx)).1;
    QuietAgainIff(file, number, sem, t, ctx, gen.fin, all);
    EndMetAgain(sem, t, ctx, gen.fin, all, Reread(sem, t, Visible(ctx)));
    data, action := Pump(gen, sizes);
  }

  /** The text of a runnable tree compiles, to the tree's code. */
  lemma CompilesWhole(file: string, lex: string -> Tag, hash: seq<RpnOp> -> nat, t: Tree, sem: Semantics, ctx: Context)
    requires IsTextOf(file, lex, t) && Runnable(t) && Size(t) < WORD
    ensures WholeFileCompiles(file, lex, hash)
    ensures var s := Feed(INITIAL, hash, PieceEvents(file, lex, Pieces(file, 0, 0))).1;
            InRange(s.pools.Decoded(), s.build.ir) && Link(s.pools.Decoded(), s.build.ir) == Generate(t, 0)
  {
    hide Feed, Events, Generate, Pieces, PieceEvents, Reaches, StepOf, Interp, Visible;
    CompilesToGenerated(hash, t);
    CompilationPreservesMeaning(file, lex, hash, t, sem, ctx);
  }
}
