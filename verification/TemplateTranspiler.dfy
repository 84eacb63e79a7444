/** The transpiler itself: its fields, the expression parser's loops, the tag handlers that patch
    the IR in place, and the chunked scanner that drives them. */
module TemplateTranspiler {
  import opened Helpers
  import opened TemplateExpr
  import opened TemplatePools
  import opened TemplateGrammar
  import opened TemplateIR
  import opened TemplateCode
  import opened TemplateScan

  lemma InternSnoc(p: Pools, code: seq<Sym>, s: Sym)
    ensures InternAll(p, code + [s]) ==
            var r := InternAll(p, code);
            var t := InternSym(r.0, s);
            (t.0, r.1 + [t.1])
  {
    assert Front(code + [s]) == code && Last(code + [s]) == s;
  }

  lemma InternNothing(p: Pools)
    ensures InternAll(p, []) == (p, [])
  {
  }

  /** Tokens that can be on the operator stack. */
  predicate StackTokens(stack: seq<Token>) { forall t <- stack :: t.LParen? || t.Oper? }

  /** One compilation: the file, its lexer, the chunk size, and what reading the whole file gives. */
  datatype Job = Job(file: string, lex: string -> Tag, C: nat, hash: seq<RpnOp> -> nat, goal: (Status, State),
                     fits: bool)

  /** From state s with [start, pos) pending, the rest of the file leads to the goal. */
  ghost predicate Promise(w: Job, s: State, start: nat, pos: nat) {
    && w.C > 0
    && Feed(s, w.hash, PieceEvents(w.file, w.lex, Pieces(w.file, start, pos))) == w.goal
    && w.fits == TagsWithinTwoChunks(Pieces(w.file, start, pos), w.C)
  }

  /** No tag begins in [pos, pos'), and pos' is not past a lone brace at the end. */
  predicate SkipsTo(file: string, pos: nat, pos': nat) {
    && pos <= pos' <= |file| && (forall j | pos <= j < pos' :: !PairAt(file, j, '{', '%'))
    && (pos < pos' == |file| ==> file[|file| - 1] != '{')
  }

  /** A tag runs from lo to hi. */
  predicate TagAt(file: string, lo: nat, hi: nat) {
    PairAt(file, lo, '{', '%') && lo + 2 < hi + 1 <= |file| + 1 && FindPair(file, lo, '%', '}') == hi - 2
  }

  lemma {:induction false} FindPairSkips(s: string, from: nat, to: nat, a: char, b: char)
    requires from <= to <= |s| && forall j | from <= j < to :: !PairAt(s, j, a, b)
    ensures FindPair(s, from, a, b) == FindPair(s, to, a, b)
    decreases |s| - from
  {
    if from < to {
      assert !PairAt(s, from, a, b);
      FindPairSkips(s, from + 1, to, a, b);
    }
  }

  lemma PromiseSkip(w: Job, s: State, start: nat, pos: nat, pos': nat)
    requires Promise(w, s, start, pos) && SkipsTo(w.file, pos, pos')
    ensures Promise(w, s, start, pos')
  {
    FindPairSkips(w.file, pos, pos', '{', '%');
    assert Pieces(w.file, start, pos) == Pieces(w.file, start, pos');
  }

  function WithLiteral(s: State, start: nat, pos: nat): State {
    if start < pos then s.(build := AddOp(s.build, Literal(start, pos - start))) else s
  }

  lemma FeedCons(s: State, hash: seq<RpnOp> -> nat, ev: Event, more: seq<Event>)
    ensures Feed(s, hash, [ev] + more) == var r := ProcessEvent(s, hash, ev);
            if r.0 != Success then r else Feed(r.1, hash, more)
  {
    assert ([ev] + more)[1..] == more;
  }

  lemma {:induction false} PiecesFromTag(file: string, start: nat, lo: nat)
    requires PairAt(file, lo, '{', '%')
    ensures Pieces(file, start, lo) == PlainPiece(start, lo) + Pieces(file, lo, lo)
  {
    hide FindPair, PlainPiece;
    PairThere(file, lo);
    var end := FindPair(file, lo, '%', '}');
    NoText(lo);
    if end >= |file| {
      assert [] + [Broken] == [Broken];
    } else {
      var rest := Pieces(file, end + 2, end + 2);
      assert Pieces(file, lo, lo) == [] + [TagText(lo, end + 2)] + rest;
      assert [] + [TagText(lo, end + 2)] == [TagText(lo, end + 2)];
      Assoc(PlainPiece(start, lo), [TagText(lo, end + 2)], rest);
    }
  }

  lemma PairThere(file: string, lo: nat)
    requires PairAt(file, lo, '{', '%')
    ensures FindPair(file, lo, '{', '%') == lo < |file|
  {
  }

  lemma NoText(lo: nat)
    ensures PlainPiece(lo, lo) == []
  {
  }

  /** In front of a tag the pending literal can be delivered. */
  lemma {:induction false} PromiseCut(w: Job, s: State, start: nat, lo: nat)
    requires Promise(w, s, start, lo) && PairAt(w.file, lo, '{', '%')
    ensures Promise(w, WithLiteral(s, start, lo), lo, lo)
  {
    hide Feed, Pieces, PairAt;
    PiecesFromTag(w.file, start, lo);
    var rest := Pieces(w.file, lo, lo);
    PieceEventsAppend(w.file, w.lex, PlainPiece(start, lo), rest);
    if start < lo {
      assert PieceEvents(w.file, w.lex, PlainPiece(start, lo)) == [Span(start, lo - start)];
      FeedCons(s, w.hash, Span(start, lo - start), PieceEvents(w.file, w.lex, rest));
      assert forall p :: p in [Plain(start, lo - start)] + rest <==> p == Plain(start, lo - start) || p in rest;
    } else {
      assert [] + rest == rest;
    }
  }

  /** Processing the next tag keeps the promise, or fails it for good. */
  lemma PromiseTag(w: Job, s: State, lo: nat, hi: nat)
    requires Promise(w, s, lo, lo) && TagAt(w.file, lo, hi) && WithinTwoChunks(lo, hi, w.C)
    ensures var r := Process(s, w.hash, w.lex(w.file[lo..hi]));
            if r.0 == Success then Promise(w, r.1, hi, hi) else w.goal.0 != Success
  {
    hide Process, Feed, PieceEvents, FindPair, PairAt;
    var rest := Pieces(w.file, hi, hi);
    PiecesAtTag(w.file, lo, hi);
    PieceEventsAppend(w.file, w.lex, [TagText(lo, hi)], rest);
    OneTagEvent(w.file, w.lex, lo, hi);
    FeedCons(s, w.hash, TagOf(w.lex(w.file[lo..hi])), PieceEvents(w.file, w.lex, rest));
    assert forall p :: p in [TagText(lo, hi)] + rest <==> p == TagText(lo, hi) || p in rest;
  }

  lemma {:induction false} PiecesAtTag(file: string, lo: nat, hi: nat)
    requires TagAt(file, lo, hi)
    ensures Pieces(file, lo, lo) == [TagText(lo, hi)] + Pieces(file, hi, hi)
  {
  }

  lemma OneTagEvent(file: string, lex: string -> Tag, lo: nat, hi: nat)
    requires lo <= hi <= |file|
    ensures PieceEvents(file, lex, [TagText(lo, hi)]) == [TagOf(lex(file[lo..hi]))]
  {
  }

  lemma PairInView(file: string, view: string, pos: nat, j: nat, a: char, b: char)
    requires pos + |view| <= |file| && view == file[pos..pos + |view|] && j + 1 < |view|
    ensures PairAt(view, j, a, b) == PairAt(file, pos + j, a, b)
  {
  }

  lemma {:induction false} NoTagInView(file: string, view: string, pos: nat, len: nat)
    requires pos + |view| <= |file| && view == file[pos..pos + |view|] && view != []
    requires FindPair(view, 0, '{', '%') >= |view|
    requires len == if view[|view| - 1] == '{' then |view| - 1 else |view|
    ensures SkipsTo(file, pos, pos + len)
  {
    forall j | pos <= j < pos + len ensures !PairAt(file, j, '{', '%') {
      if j + 1 < pos + |view| {
        PairInView(file, view, pos, j - pos, '{', '%');
      } else {
        assert file[j] == view[|view| - 1];
      }
    }
  }

  lemma {:induction false} SkipToTag(file: string, view: string, pos: nat, at: nat)
    requires pos + |view| <= |file| && view == file[pos..pos + |view|]
    requires FindPair(view, 0, '{', '%') == at < |view|
    ensures SkipsTo(file, pos, pos + at) && PairAt(file, pos + at, '{', '%')
  {
    PairInView(file, view, pos, at, '{', '%');
    forall j | pos <= j < pos + at ensures !PairAt(file, j, '{', '%') {
      PairInView(file, view, pos, j - pos, '{', '%');
    }
  }

  /** A tag whose end is in the chunk it began in. */
  lemma {:induction false} TagInView(file: string, view: string, pos: nat, at: nat, C: nat, chunk: nat)
    requires pos + |view| <= |file| && view == file[pos..pos + |view|] && PairAt(file, pos, '{', '%')
    requires FindPair(view, 0, '%', '}') == at < |view|
    requires C > 0 && chunk % C == 0 && chunk <= pos && pos + |view| <= chunk + C
    ensures TagAt(file, pos, pos + at + 2) && WithinTwoChunks(pos, pos + at + 2, C)
  {
    PairInView(file, view, pos, at, '%', '}');
    forall j | pos <= j < pos + at ensures !PairAt(file, j, '%', '}') {
      PairInView(file, view, pos, j - pos, '%', '}');
    }
    FindPairIs(file, pos, '%', '}', pos + at);
    ChunkOf(pos, chunk, C);
  }

  lemma ChunkOf(pos: nat, chunk: nat, C: nat)
    requires C > 0 && chunk % C == 0 && chunk <= pos < chunk + C
    ensures pos - pos % C == chunk
  {
    assert pos == chunk / C * C + (pos - chunk);
    ModOf(chunk / C, pos - chunk, C);
  }

  lemma ModOf(q: nat, r: nat, C: nat)
    requires r < C
    ensures (q * C + r) % C == r
  {
    var x := q * C + r;
    var q', r' := x / C, x % C;
    assert (q - q') * C == r' - r;
    if q > q' {
      MulAtLeast(q - q', C);
    } else if q' > q {
      MulAtLeast(q' - q, C);
    }
  }

  lemma MulAtLeast(k: nat, C: nat)
    requires k > 0
    ensures k * C >= C
  {
  }

  lemma TagInBuffer(view: string, at: nat)
    requires FindPair(view, 0, '{', '%') == at < |view|
    ensures PairAt(view[at..], 0, '{', '%')
  {
  }

  lemma EndsInView(view: string, at: nat)
    requires FindPair(view, 0, '%', '}') == at < |view|
    ensures at + 2 <= |view|
  {
  }

  lemma BraceAlone(file: string, lo: nat)
    requires lo + 1 < |file| && file[lo + 1] != '%'
    ensures SkipsTo(file, lo, lo + 1)
  {
  }

  /** A carried text and the next chunk, as positions of the file. */
  predicate Joined(file: string, carry: string, view: string, lo: nat) {
    && carry != "" && carry[0] == '{' && lo + |carry| + |view| <= |file|
    && carry == file[lo..lo + |carry|] && view == file[lo + |carry|..lo + |carry| + |view|]
  }

  lemma BeginsTag(file: string, carry: string, view: string, lo: nat)
    requires Joined(file, carry, view, lo) && view != ""
    requires (|carry| > 1 ==> carry[1] == '%') && (carry == "{" ==> view[0] == '%')
    ensures PairAt(file, lo, '{', '%')
  {
    assert carry[0] == file[lo];
    if |carry| > 1 {
      assert carry[1] == file[lo + 1];
    } else {
      assert carry == "{";
      assert view[0] == file[lo + 1];
    }
  }

  predicate NoEnd(s: string) { forall j | 0 <= j < |s| :: !PairAt(s, j, '%', '}') }

  lemma EndsAcross(file: string, carry: string, lo: nat)
    requires carry != "" && lo + |carry| < |file| && carry == file[lo..lo + |carry|] && NoEnd(carry)
    requires carry[|carry| - 1] == '%' && file[lo + |carry|] == '}' && PairAt(file, lo, '{', '%')
    ensures TagAt(file, lo, lo + |carry| + 1)
  {
    assert file[lo + |carry| - 1] == carry[|carry| - 1];
    forall j | lo <= j < lo + |carry| - 1 ensures !PairAt(file, j, '%', '}') {
      PairInView(file, carry, lo, j - lo, '%', '}');
    }
    FindPairIs(file, lo, '%', '}', lo + |carry| - 1);
    assert file[lo] == '{';
  }

  lemma {:induction false} EndsInNext(file: string, carry: string, view: string, lo: nat, at: nat)
    requires Joined(file, carry, view, lo) && NoEnd(carry) && PairAt(file, lo, '{', '%')
    requires FindPair(view, 0, '%', '}') == at < |view| && !(carry[|carry| - 1] == '%' && view[0] == '}')
    ensures TagAt(file, lo, lo + |carry| + at + 2)
  {
    PairInView(file, view, lo + |carry|, at, '%', '}');
    forall j | lo <= j < lo + |carry| + at ensures !PairAt(file, j, '%', '}') {
      NoneBefore(file, carry, view, lo, at, j);
    }
    FindPairIs(file, lo, '%', '}', lo + |carry| + at);
  }

  lemma JoinedAt(file: string, carry: string, view: string, lo: nat, j: nat)
    requires Joined(file, carry, view, lo) && lo <= j < lo + |carry| + |view|
    ensures j < |file| && file[j] == if j < lo + |carry| then carry[j - lo] else view[j - lo - |carry|]
  {
  }

  lemma NoneBefore(file: string, carry: string, view: string, lo: nat, at: nat, j: nat)
    requires Joined(file, carry, view, lo) && NoEnd(carry) && view != ""
    requires FindPair(view, 0, '%', '}') >= at && !(carry[|carry| - 1] == '%' && view[0] == '}')
    requires lo <= j < lo + |carry| + at && at <= |view|
    ensures !PairAt(file, j, '%', '}') || j + 1 == lo + |carry| + |view|
  {
    hide Joined, FindPair;
    if j + 1 < lo + |carry| + |view| {
      JoinedAt(file, carry, view, lo, j);
      JoinedAt(file, carry, view, lo, j + 1);
      if j < lo + |carry| {
        assert j + 1 < lo + |carry| ==> !PairAt(carry, j - lo, '%', '}');
      } else {
        assert !PairAt(view, j - lo - |carry|, '%', '}');
      }
    }
  }

  /** A tag begun in one chunk that ends in the next. */
  lemma TwoChunks(lo: nat, chunk: nat, C: nat)
    requires C > 0 && chunk % C == 0 && chunk - C <= lo < chunk
    ensures forall hi: nat | hi <= chunk + C :: WithinTwoChunks(lo, hi, C)
    ensures forall hi: nat | hi > chunk + C :: !WithinTwoChunks(lo, hi, C)
  {
    PreviousAligned(chunk, C);
    ChunkOf(lo, chunk - C, C);
  }

  lemma PreviousAligned(chunk: nat, C: nat)
    requires C > 0 && chunk % C == 0 && chunk > 0
    ensures chunk >= C && (chunk - C) % C == 0
  {
    var q := chunk / C;
    assert chunk == q * C;
    assert q > 0;
    assert chunk - C == (q - 1) * C;
    ModOf(q - 1, 0, C);
  }

  lemma NextAligned(chunk: nat, C: nat)
    requires C > 0 && chunk % C == 0
    ensures (chunk + C) % C == 0
  {
    var q := chunk / C;
    assert chunk + C == (q + 1) * C;
    ModOf(q + 1, 0, C);
  }

  lemma PiecesBroken(file: string, start: nat, pos: nat)
    requires PairAt(file, pos, '{', '%') && FindPair(file, pos, '%', '}') >= |file|
    ensures Pieces(file, start, pos) == PlainPiece(start, pos) + [Broken]
  {
  }

  lemma FeedBroken(w: Job, s: State, start: nat, pos: nat)
    ensures Feed(s, w.hash, PieceEvents(w.file, w.lex, PlainPiece(start, pos) + [Broken])).0 != Success
  {
    PieceEventsAppend(w.file, w.lex, PlainPiece(start, pos), [Broken]);
    var bad := PieceEvents(w.file, w.lex, [Broken]);
    assert bad == [TagOf(TagUnknown)];
    if start < pos {
      assert PieceEvents(w.file, w.lex, PlainPiece(start, pos)) == [Span(start, pos - start)];
      FeedCons(s, w.hash, Span(start, pos - start), bad);
    } else {
      assert [] + bad == bad;
    }
  }

  /** A tag that ends is one of the pieces. */
  lemma EndedTagListed(file: string, start: nat, lo: nat)
    requires start <= lo && PairAt(file, lo, '{', '%') && FindPair(file, lo, '%', '}') < |file|
    ensures TagText(lo, FindPair(file, lo, '%', '}') + 2) in Pieces(file, start, lo)
  {
    var end := FindPair(file, lo, '%', '}');
    FindPairIs(file, lo, '{', '%', lo);
    assert Pieces(file, start, lo) == PlainPiece(start, lo) + [TagText(lo, end + 2)] + Pieces(file, end + 2, end + 2);
    assert (PlainPiece(start, lo) + [TagText(lo, end + 2)] + Pieces(file, end + 2, end + 2))[|PlainPiece(start, lo)|]
        == TagText(lo, end + 2);
  }

  /** No end among the carry and the next chunk puts the end behind both. */
  lemma EndBehindView(file: string, carry: string, view: string, lo: nat)
    requires Joined(file, carry, view, lo) && NoEnd(carry) && view != ""
    requires FindPair(view, 0, '%', '}') >= |view| && !(carry[|carry| - 1] == '%' && view[0] == '}')
    ensures var end := FindPair(file, lo, '%', '}'); lo + |carry| + |view| <= end + 1 < |file| || end >= |file|
    ensures carry != "" && lo + |carry| + |view| <= |file|
  {
    var end := FindPair(file, lo, '%', '}');
    if end < lo + |carry| + |view| && end < |file| {
      NoneBefore(file, carry, view, lo, |view|, end);
    }
  }

  /** A tag with no end by the end of the second chunk fails the whole file or the chunk size. */
  lemma NoEndInTwoChunks(w: Job, s: State, start: nat, lo: nat, chunk: nat, carry: string, view: string)
    requires Promise(w, s, start, lo) && Joined(w.file, carry, view, lo) && NoEnd(carry) && PairAt(w.file, lo, '{', '%')
    requires start <= lo && chunk == lo + |carry| && chunk % w.C == 0 && chunk - w.C <= lo && view != ""
    requires |view| == w.C || chunk + |view| == |w.file|
    requires FindPair(view, 0, '%', '}') >= |view| && !(carry[|carry| - 1] == '%' && view[0] == '}')
    ensures w.goal.0 != Success || !w.fits
  {
    hide *;
    EndBehindView(w.file, carry, view, lo);
    if FindPair(w.file, lo, '%', '}') >= |w.file| {
      NoEndFails(w, s, start, lo);
    } else {
      LateEndFails(w, s, start, lo, chunk);
    }
  }

  /** A tag that never ends fails the file. */
  lemma NoEndFails(w: Job, s: State, start: nat, lo: nat)
    requires Promise(w, s, start, lo) && PairAt(w.file, lo, '{', '%') && FindPair(w.file, lo, '%', '}') >= |w.file|
    ensures w.goal.0 != Success
  {
    hide Feed, PieceEvents;
    PiecesBroken(w.file, start, lo);
    FeedBroken(w, s, start, lo);
  }

  /** A tag that ends behind the second chunk does not fit. */
  lemma LateEndFails(w: Job, s: State, start: nat, lo: nat, chunk: nat)
    requires Promise(w, s, start, lo) && start <= lo && PairAt(w.file, lo, '{', '%')
    requires chunk % w.C == 0 && chunk - w.C <= lo < chunk
    requires chunk + w.C <= FindPair(w.file, lo, '%', '}') + 1 && FindPair(w.file, lo, '%', '}') < |w.file|
    ensures !w.fits
  {
    hide Feed, PieceEvents, WithinTwoChunks, Pieces;
    TwoChunks(lo, chunk, w.C);
    EndedTagListed(w.file, start, lo);
  }

  /** A carry left at the end of the file: a lone brace, or a tag without end. */
  lemma CarryAtEnd(w: Job, s: State, start: nat, lo: nat, carry: string)
    requires Promise(w, s, start, lo) && carry != "" && lo + |carry| == |w.file| && carry == w.file[lo..]
    requires carry[0] == '{' && (|carry| > 1 ==> carry[1] == '%') && NoEnd(carry)
    ensures w.goal.0 != Success
  {
    assert w.file[lo] == '{';
    if |carry| > 1 {
      hide Pieces, Feed, PieceEvents;
      assert w.file[lo + 1] == carry[1];
      forall j | lo <= j < |w.file| ensures !PairAt(w.file, j, '%', '}') {
        if j + 1 < |w.file| { PairInView(w.file, carry, lo, j - lo, '%', '}'); }
      }
      PiecesBroken(w.file, start, lo);
      FeedBroken(w, s, start, lo);
    } else {
      LoneBrace(w.file, start, lo);
      FeedBroken(w, s, lo, lo);
      assert PlainPiece(lo, lo) + [Broken] == [Broken];
    }
  }

  lemma LoneBrace(file: string, start: nat, lo: nat)
    requires lo + 1 == |file| && file[lo] == '{'
    ensures Pieces(file, start, lo) == [Broken]
  {
  }

  lemma PromiseStart(w: Job, ps: seq<Piece>)
    requires w.C > 0 && ps == Pieces(w.file, 0, 0)
    requires w.goal == Feed(INITIAL, w.hash, PieceEvents(w.file, w.lex, ps)) && w.fits == TagsWithinTwoChunks(ps, w.C)
    ensures Promise(w, INITIAL, 0, 0)
  {
  }

  /** At the end of the file only the pending literal is still to come. */
  lemma PromiseEnd(w: Job, s: State, start: nat, pos: nat)
    requires Promise(w, s, start, pos) && start <= pos == |w.file|
    ensures w.goal == (Success, WithLiteral(s, start, pos)) && w.fits
  {
    assert Pieces(w.file, start, pos) == PlainPiece(start, pos);
    if start < pos {
      assert PieceEvents(w.file, w.lex, [Plain(start, pos - start)]) == [Span(start, pos - start)] + [];
      FeedCons(s, w.hash, Span(start, pos - start), []);
    }
  }

  /** Read at once, the file divides, its tags are accepted, and nothing is left open. */
  ghost predicate WholeFileCompiles(file: string, lex: string -> Tag, hash: seq<RpnOp> -> nat) {
    var r := Feed(INITIAL, hash, PieceEvents(file, lex, Pieces(file, 0, 0)));
    r.0 == Success && r.1.build.frames == [] && NoneOpen(r.1.build.ir)
  }

  /** What stands in the read buffer: the chunk at `at`, whole, or the file's end. */
  predicate IsChunk(file: string, C: nat, at: nat, buf: string) {
    && C > 0 && at + |buf| <= |file| && |buf| <= C && buf == file[at..at + |buf|]
    && (buf != [] ==> at % C == 0) && (|buf| == C || at + |buf| == |file| || at + |buf| == 0)
  }

  lemma ChunkTail(file: string, C: nat, at: nat, buf: string, off: nat)
    requires IsChunk(file, C, at, buf) && off <= |buf|
    ensures at + |buf| <= |file| && buf[off..] == file[at + off..at + |buf|]
  {
  }

  lemma ChunkWithin(file: string, C: nat, at: nat, buf: string)
    requires IsChunk(file, C, at, buf)
    ensures C > 0 && at + |buf| <= |file| && |buf| <= C
  {
  }

  lemma ChunkBehind(file: string, C: nat, at: nat, buf: string)
    requires IsChunk(file, C, at, buf)
    ensures var next := at + |buf|;
            IsChunk(file, C, next, file[next..if next + C < |file| then next + C else |file|])
  {
    var next := at + |buf|;
    if buf != "" && |buf| == C {
      NextAligned(at, C);
    }
  }

  class Transpiler {
    var ir: seq<Op<nat, nat>>
    var offsetPatchStack: seq<seq<nat>>
    var varNameMap: map<string, nat>
    var rpnMap: map<nat, nat>
    var constMap: map<Constant, nat>
    var rpnPool: seq<seq<RpnOp>>
    var staticVarNames: seq<string>
    var staticConstants: seq<Constant>
    var currentLiteralStartOffset: nat
    var currentLiteralLength: nat
    var readBuf: string
    var readOffset: nat
    var totalBytesRead: nat
    var carry: string
    const hash: seq<RpnOp> -> nat

    function Pooled(): Pools
      reads this
    {
      Pools(staticVarNames, varNameMap, staticConstants, constMap, rpnPool, rpnMap)
    }

    ghost function Snapshot(): State
      reads this
    {
      State(Build(ir, offsetPatchStack), Pooled())
    }

    /** Every hash leads to a program of the pool. */
    ghost predicate Valid()
      reads this
    {
      forall h <- rpnMap :: rpnMap[h] < |rpnPool|
    }

    constructor (hash: seq<RpnOp> -> nat)
      ensures Valid() && Snapshot() == INITIAL && this.hash == hash
      ensures currentLiteralLength == readOffset == totalBytesRead == 0 && readBuf == carry == ""
    {
      this.hash := hash;
      ir, offsetPatchStack := [], [];
      varNameMap, rpnMap, constMap := map[], map[], map[];
      rpnPool, staticVarNames, staticConstants := [], [], [];
      currentLiteralStartOffset, currentLiteralLength := 0, 0;
      readBuf, readOffset, totalBytesRead, carry := "", 0, 0, "";
    }

    method GetVarNameId(name: string) returns (id: nat)
      modifies this`varNameMap, this`staticVarNames
      ensures (Pooled(), id) == InternName(old(Pooled()), name)
    {
      if name !in varNameMap {
        staticVarNames := staticVarNames + [name];
        id := |staticVarNames| - 1;
        varNameMap := varNameMap[name := id];
        return;
      }
      id := varNameMap[name];
    }

    method GetConstId(val: Constant) returns (id: nat)
      modifies this`constMap, this`staticConstants
      ensures (Pooled(), id) == InternConstant(old(Pooled()), val)
    {
      if val !in constMap {
        staticConstants := staticConstants + [val];
        id := |staticConstants| - 1;
        constMap := constMap[val := id];
        return;
      }
      id := constMap[val];
    }

    /** Moves the top operator to the output. */
    static method PopOperator(opStack: seq<Token>, outputQueue: seq<RpnOp>)
      returns (ok: bool, stack: seq<Token>, out: seq<RpnOp>)
      requires opStack != []
      ensures stack == Front(opStack) && ok == Last(opStack).Oper?
      ensures out == if ok then outputQueue + [Do(Last(opStack).op)] else outputQueue
    {
      var top := opStack[|opStack| - 1];
      stack, out := opStack[..|opStack| - 1], outputQueue;
      if !top.Oper? {
        return false, stack, out;
      }
      return true, stack, outputQueue + [Do(top.op)];
    }

    /** Pops until an opening parenthesis or the bottom. */
    static method PopWhileOperator(opStack: seq<Token>, outputQueue: seq<RpnOp>, ghost p: Pools, ghost q: Pools,
                                   ghost code: seq<Sym>)
      returns (stack: seq<Token>, out: seq<RpnOp>, ghost code': seq<Sym>)
      requires StackTokens(opStack) && InternAll(p, code) == (q, outputQueue)
      ensures PopToParen(Yard(code, opStack)) == Yard(code', stack) && InternAll(p, code') == (q, out)
      ensures StackTokens(stack) && (stack != [] ==> Last(stack).LParen?)
    {
      stack, out, code' := opStack, outputQueue, code;
      while stack != [] && !stack[|stack| - 1].LParen?
        invariant StackTokens(stack) && InternAll(p, code') == (q, out)
        invariant PopToParen(Yard(code', stack)) == PopToParen(Yard(code, opStack))
        decreases |stack|
      {
        ghost var op := Last(stack).op;
        var popped;
        popped, stack, out := PopOperator(stack, out);
        InternSnoc(p, code', Apply(op));
        code' := code' + [Apply(op)];
      }
    }

    /** Pops the operators that leave before `op`. */
    static method PopWhileBefore(opStack: seq<Token>, outputQueue: seq<RpnOp>, op: Operator, ghost p: Pools,
                                 ghost q: Pools, ghost code: seq<Sym>)
      returns (stack: seq<Token>, out: seq<RpnOp>, ghost code': seq<Sym>)
      requires StackTokens(opStack) && InternAll(p, code) == (q, outputQueue)
      ensures PopBefore(Yard(code, opStack), op) == Yard(code', stack) && InternAll(p, code') == (q, out)
      ensures StackTokens(stack)
    {
      stack, out, code' := opStack, outputQueue, code;
      while stack != [] && !stack[|stack| - 1].LParen?
        invariant StackTokens(stack) && InternAll(p, code') == (q, out)
        invariant PopBefore(Yard(code', stack), op) == PopBefore(Yard(code, opStack), op)
        decreases |stack|
      {
        var topPrec := Precedence(stack[|stack| - 1].op);
        if topPrec > Precedence(op) || (topPrec == Precedence(op) && !RightAssociative(op)) {
          ghost var top := Last(stack).op;
          var popped;
          popped, stack, out := PopOperator(stack, out);
          InternSnoc(p, code', Apply(top));
          code' := code' + [Apply(top)];
        } else {
          break;
        }
      }
    }

    /** Shunting-yard over the tokens of one expression; the program is pooled by its hash. */
    method ParseExpr(toks: seq<Token>) returns (ok: bool, idx: nat)
      requires Valid()
      modifies this`varNameMap, this`staticVarNames, this`constMap, this`staticConstants, this`rpnMap, this`rpnPool
      ensures Valid() && Parsed(ok, Pooled(), idx) == ParseInto(old(Pooled()), hash, toks)
      ensures old(Pooled().Valid()) ==> StoredAsDerived(toks, Parsed(ok, Pooled(), idx))
    {
      hide InternAll, PopBefore, PopToParen, AddProgram, StoredAsDerived;
      if Pooled().Valid() {
        StoresGrammar(Pooled(), hash, toks);
      }
      var outputQueue: seq<RpnOp> := [];
      var operatorStack: seq<Token> := [];
      ghost var p := Pooled();
      ghost var code: seq<Sym> := [];
      InternNothing(p);
      var i := 0;
      while i < |toks|
        modifies this`varNameMap, this`staticVarNames, this`constMap, this`staticConstants
        invariant 0 <= i <= |toks| && StackTokens(operatorStack) && Valid()
        invariant InternAll(p, code) == (Pooled(), outputQueue)
        invariant Shunt(Yard(code, operatorStack), toks[i..]) == Shunt(Yard([], []), toks)
      {
        var token := toks[i];
        ghost var y := Yard(code, operatorStack);
        ghost var next := Shift(y, token, toks[i + 1..]);
        assert toks[i..][0] == token && toks[i..][1..] == toks[i + 1..];
        match token {
          case Id(name) =>
            InternSnoc(p, code, PushVar(name));
            code := code + [PushVar(name)];
            var id := GetVarNameId(name);
            outputQueue := outputQueue + [LoadVar(id)];
          case Const(c) =>
            InternSnoc(p, code, PushConst(c));
            code := code + [PushConst(c)];
            var id := GetConstId(c);
            outputQueue := outputQueue + [LoadConst(id)];
          case LParen =>
            operatorStack := operatorStack + [token];
          case RParen =>
            operatorStack, outputQueue, code := PopWhileOperator(operatorStack, outputQueue, p, Pooled(), code);
            if operatorStack == [] {
              return false, 0;
            }
            operatorStack := operatorStack[..|operatorStack| - 1];
          case Oper(op) =>
            // A dot looks one token ahead for the attribute's name.
            if op == Dot && (i + 1 == |toks| || !toks[i + 1].Id?) {
              return false, 0;
            }
            operatorStack, outputQueue, code := PopWhileBefore(operatorStack, outputQueue, op, p, Pooled(), code);
            operatorStack := operatorStack + [token];
          case KeywordIn => return false, 0;
          case Unsupported => return false, 0;
        }
        assert next == Outcome(true, Yard(code, operatorStack));
        i := i + 1;
      }
      operatorStack, outputQueue, code := PopWhileOperator(operatorStack, outputQueue, p, Pooled(), code);
      if operatorStack != [] {
        return false, 0;
      }
      idx := AddToPool(outputQueue);
      ok := true;
    }

    /** Stores a program unless the one its hash leads to is the same. */
    method AddToPool(outputQueue: seq<RpnOp>) returns (idx: nat)
      requires Valid()
      modifies this`rpnMap, this`rpnPool
      ensures Valid() && (Pooled(), idx) == AddProgram(old(Pooled()), hash, outputQueue)
    {
      var h := hash(outputQueue);
      if h in rpnMap {
        idx := rpnMap[h];
        // A potential match: only an equal program is shared.
        if rpnPool[idx] == outputQueue {
          return;
        }
      }
      rpnPool := rpnPool + [outputQueue];
      idx := |rpnPool| - 1;
      rpnMap := rpnMap[h := idx];
    }

    // ---------------------------------------------------------------- tags

    /** Aims the frame's open conditionals at `target` and drops them from the frame; jumps stay. */
    method PatchConditionalsOf(target: nat, jumpOpIndex: nat)
      requires offsetPatchStack != []
      modifies this`ir, this`offsetPatchStack
      ensures ir == PatchConditionals(old(ir), Last(old(offsetPatchStack)), target)
      ensures offsetPatchStack == Front(old(offsetPatchStack))
              + [DropConditionals(ir, Last(old(offsetPatchStack))) + [jumpOpIndex]]
    {
      var frame := offsetPatchStack[|offsetPatchStack| - 1];
      var k := 0;
      while k < |frame|
        modifies this`ir
        invariant 0 <= k <= |frame|
        invariant ir == PatchConditionals(old(ir), frame[..k], target)
      {
        var idx := frame[k];
        assert frame[..k + 1] == frame[..k] + [idx];
        if idx < |ir| && Conditional(ir[idx]) {
          ir := ir[idx := AimConditional(ir[idx], target)];
        }
        k := k + 1;
      }
      assert frame[..k] == frame;
      var kept: seq<nat> := [];
      k := 0;
      while k < |frame|
        invariant 0 <= k <= |frame|
        invariant kept == DropConditionals(ir, frame[..k])
      {
        assert Front(frame[..k + 1]) == frame[..k] && Last(frame[..k + 1]) == frame[k];
        if !(frame[k] < |ir| && Conditional(ir[frame[k]])) {
          kept := kept + [frame[k]];
        }
        k := k + 1;
      }
      assert frame[..k] == frame;
      offsetPatchStack := offsetPatchStack[..|offsetPatchStack| - 1] + [kept + [jumpOpIndex]];
    }

    /** Ends the current branch of an `if` before an `elif` or `else`. */
    method EndBranch()
      requires InBlock(Snapshot().build)
      modifies this`ir, this`offsetPatchStack
      ensures Snapshot().build == CloseBranch(old(Snapshot().build)) && offsetPatchStack != []
    {
      var jumpOpIndex := |ir|;
      ir := ir + [Jump(0, true)];
      PatchConditionalsOf(|ir|, jumpOpIndex);
    }

    method EndIfBlock()
      requires offsetPatchStack != []
      modifies this`ir, this`offsetPatchStack
      ensures Snapshot().build == CloseIf(old(Snapshot().build))
    {
      var endState := |ir|;
      var frame := offsetPatchStack[|offsetPatchStack| - 1];
      var k := 0;
      while k < |frame|
        modifies this`ir
        invariant 0 <= k <= |frame|
        invariant ir == PatchEnd(old(ir), frame[..k], endState)
      {
        var idx := frame[k];
        assert frame[..k + 1] == frame[..k] + [idx];
        if idx < |ir| {
          ir := ir[idx := AimEnd(ir[idx], endState)];
        }
        k := k + 1;
      }
      assert frame[..k] == frame;
      offsetPatchStack := offsetPatchStack[..|offsetPatchStack| - 1];
      ir := ir + [EndIf];
    }

    /** The scanner's own fields are as they were. */
    twostate predicate ScanUnchanged()
      reads this
    {
      unchanged(this`currentLiteralStartOffset, this`currentLiteralLength, this`readBuf, this`readOffset,
                this`totalBytesRead, this`carry)
    }

    // One handler per tag; each leaves exactly the state the tag stands for.

    method ProcessIf(toks: seq<Token>) returns (status: Status)
      requires Valid()
      modifies this
      ensures Valid() && (status, Snapshot()) == Process(old(Snapshot()), hash, TagIf(toks))
      ensures ScanUnchanged()
    {
      hide ParseInto, StoredAsDerived;
      var success, exprIndex := ParseExpr(toks);
      if !success { return Failure; }
      offsetPatchStack := offsetPatchStack + [[|ir|]];
      ir := ir + [If(0, exprIndex, true)];
      return Success;
    }

    method ProcessElif(toks: seq<Token>) returns (status: Status)
      requires Valid()
      modifies this
      ensures Valid() && (status, Snapshot()) == ProcessElifTest(old(Snapshot()), hash, toks)
      ensures ScanUnchanged()
    {
      hide ParseInto, CloseBranch, StoredAsDerived, AddElif;
      if offsetPatchStack == [] || offsetPatchStack[|offsetPatchStack| - 1] == [] { return Failure; }
      EndBranch();
      var success, exprIndex := ParseExpr(toks);
      if !success { return Failure; }
      PushElif(exprIndex);
      return Success;
    }

    method PushElif(exprIndex: nat)
      requires offsetPatchStack != []
      modifies this`ir, this`offsetPatchStack
      ensures Snapshot().build == AddElif(old(Snapshot().build), exprIndex)
    {
      var frame := offsetPatchStack[|offsetPatchStack| - 1];
      offsetPatchStack := offsetPatchStack[..|offsetPatchStack| - 1] + [frame + [|ir|]];
      ir := ir + [Elif(0, exprIndex, true)];
    }

    method ProcessElse() returns (status: Status)
      requires Valid()
      modifies this
      ensures Valid() && (status, Snapshot()) == Process(old(Snapshot()), hash, TagElse)
      ensures ScanUnchanged()
    {
      hide CloseBranch;
      if offsetPatchStack == [] || offsetPatchStack[|offsetPatchStack| - 1] == [] { return Failure; }
      EndBranch();
      ir := ir + [Else];
      return Success;
    }

    method ProcessVar(toks: seq<Token>) returns (status: Status)
      requires Valid()
      modifies this
      ensures Valid() && (status, Snapshot()) == Process(old(Snapshot()), hash, TagVar(toks))
      ensures ScanUnchanged()
    {
      hide ParseInto, StoredAsDerived;
      var success, exprIndex := ParseExpr(toks);
      if !success { return Failure; }
      ir := ir + [Show(exprIndex)];
      return Success;
    }

    method ProcessFor(toks: seq<Token>) returns (status: Status)
      requires Valid()
      modifies this
      ensures Valid() && (status, Snapshot()) == ProcessForHeader(old(Snapshot()), hash, toks)
      ensures ScanUnchanged()
    {
      hide ParseInto, InternName, InternConstant, StoredAsDerived;
      if |toks| == 0 || !toks[0].Id? { return Failure; }
      var loopVar := toks[0].name;
      if |toks| == 1 || !toks[1].KeywordIn? { return Failure; }
      var success, exprIndex := ParseExpr(toks[2..]);
      if !success { return Failure; }
      offsetPatchStack := offsetPatchStack + [[|ir|]];
      var varId := GetVarNameId(loopVar);
      ir := ir + [For(0, exprIndex, varId, true)];
      return Success;
    }

    method ProcessEndFor() returns (status: Status)
      requires Valid()
      modifies this
      ensures Valid() && (status, Snapshot()) == Process(old(Snapshot()), hash, TagEndFor)
      ensures ScanUnchanged()
    {
      if offsetPatchStack == [] { return Failure; }
      var patchList := offsetPatchStack[|offsetPatchStack| - 1];
      offsetPatchStack := offsetPatchStack[..|offsetPatchStack| - 1];
      if patchList == [] || patchList[0] >= |ir| || !ir[patchList[0]].For? { return Throws; }
      var forIdx := patchList[0];
      var forOp := ir[forIdx];
      var endState := |ir|;
      ir := ir[forIdx := For(endState, forOp.expr, forOp.variable, false)];
      ir := ir + [EndFor(endState, forOp.expr, forOp.variable)];
      return Success;
    }

    method ProcessTagIR(tag: Tag) returns (status: Status)
      requires Valid()
      modifies this
      ensures Valid() && (status, Snapshot()) == Process(old(Snapshot()), hash, tag)
      ensures ScanUnchanged()
    {
      hide ParseInto, CloseBranch, CloseFor, CloseIf, ProcessElifTest, ProcessForHeader;
      match tag
      case TagIf(toks) => status := ProcessIf(toks);
      case TagElif(toks) => status := ProcessElif(toks);
      case TagElse => status := ProcessElse();
      case TagEndIf =>
        if offsetPatchStack == [] { return Failure; }
        EndIfBlock();
        return Success;
      case TagVar(toks) => status := ProcessVar(toks);
      case TagFor(toks) => status := ProcessFor(toks);
      case TagEndFor => status := ProcessEndFor();
      case TagUnknown => return Failure;
    }

    // ---------------------------------------------------------------- the scanner

    static method Find(s: string, a: char, b: char) returns (i: nat)
      ensures i == FindPair(s, 0, a, b)
    {
      i := 0;
      while i + 1 < |s|
        invariant 0 <= i <= |s| && FindPair(s, i, a, b) == FindPair(s, 0, a, b)
      {
        if s[i] == a && s[i + 1] == b {
          return;
        }
        i := i + 1;
      }
      i := |s|;
    }

    /** Emits the pending literal, if there is one. */
    method FinalizeLiteral()
      modifies this`ir, this`currentLiteralLength
      ensures currentLiteralLength == 0
      ensures ir == if old(currentLiteralLength) > 0
                    then old(ir) + [Literal(currentLiteralStartOffset, old(currentLiteralLength))] else old(ir)
    {
      if currentLiteralLength > 0 {
        ir := ir + [Literal(currentLiteralStartOffset, currentLiteralLength)];
        currentLiteralLength := 0;
      }
    }

    /** Adds `len` bytes at `pos` to the pending literal. */
    method ExtendLiteral(pos: nat, len: nat)
      modifies this`currentLiteralStartOffset, this`currentLiteralLength
      ensures currentLiteralLength == old(currentLiteralLength) + len
      ensures currentLiteralStartOffset == if old(currentLiteralLength) == 0 then pos
              else old(currentLiteralStartOffset)
    {
      if currentLiteralLength == 0 {
        currentLiteralStartOffset := pos;
      }
      currentLiteralLength := currentLiteralLength + len;
    }

    /** The pending literal ends at `pos`, if there is one. */
    ghost predicate LiteralUpTo(pos: nat)
      reads this
    {
      currentLiteralLength == 0 || currentLiteralStartOffset + currentLiteralLength == pos
    }

    ghost function LiteralStart(pos: nat): nat
      reads this
    {
      if currentLiteralLength == 0 then pos else currentLiteralStartOffset
    }

    /** Everything before this position has been delivered or is pending literal. */
    ghost function Pos(): int
      reads this
    {
      totalBytesRead + readOffset - |carry|
    }

    /** The scanner stands in the buffer, or at its end. */
    ghost predicate Buffered(file: string, C: nat)
      reads this
    {
      readOffset <= |readBuf| && IsChunk(file, C, totalBytesRead, readBuf)
    }

    /** A tag that has begun: its text so far, with no end in it, and no literal pending unless its
        second character is still to come. */
    ghost predicate Carried(file: string)
      reads this
    {
      && 0 <= Pos() && Pos() + |carry| <= |file| && carry == file[Pos()..Pos() + |carry|]
      && (carry != [] ==>
            && carry[0] == '{' && (|carry| > 1 ==> carry[1] == '%' && currentLiteralLength == 0)
            && forall j | 0 <= j < |carry| :: !PairAt(carry, j, '%', '}'))
    }

    /** What is to come, from the current state and position, is what was to come from the start. */
    ghost predicate OnCourse(w: Job)
      reads this
    {
      && Valid() && hash == w.hash && 0 <= Pos() <= |w.file| && LiteralUpTo(Pos())
      && Promise(w, Snapshot(), LiteralStart(Pos()), Pos())
    }

    ghost predicate Scanning(w: Job)
      reads this
    {
      Buffered(w.file, w.C) && Carried(w.file) && OnCourse(w)
    }

    /** Moves the next `len` bytes of the buffer, which begin no tag, to the pending literal. */
    method TakeLiteral(len: nat, ghost w: Job)
      requires OnCourse(w) && Buffered(w.file, w.C) && carry == "" && readOffset + len <= |readBuf|
      requires SkipsTo(w.file, Pos(), Pos() + len)
      modifies this`currentLiteralStartOffset, this`currentLiteralLength, this`readOffset
      ensures OnCourse(w) && Buffered(w.file, w.C) && readOffset == old(readOffset) + len
    {
      hide Promise, SkipsTo;
      PromiseSkip(w, Snapshot(), LiteralStart(Pos()), Pos(), Pos() + len);
      ExtendLiteral(totalBytesRead + readOffset, len);
      readOffset := readOffset + len;
    }

    /** Delivers the pending literal in front of a tag. */
    method CutLiteral(ghost w: Job)
      requires OnCourse(w) && PairAt(w.file, Pos(), '{', '%')
      modifies this`ir, this`currentLiteralLength
      ensures OnCourse(w) && currentLiteralLength == 0
    {
      hide Promise;
      PromiseCut(w, Snapshot(), LiteralStart(Pos()), Pos());
      FinalizeLiteral();
    }

    /** Processes the tag that runs from lo to hi, where the scanner now stands. */
    method TakeTag(tagView: string, lex: string -> Tag, ghost w: Job, ghost lo: nat, ghost hi: nat) returns (ok: bool)
      requires Valid() && hash == w.hash && currentLiteralLength == 0 && w.lex == lex
      requires Promise(w, Snapshot(), lo, lo) && totalBytesRead + readOffset == hi <= |w.file|
      requires TagAt(w.file, lo, hi) && WithinTwoChunks(lo, hi, w.C) && tagView == w.file[lo..hi]
      modifies this
      ensures readBuf == old(readBuf) && readOffset == old(readOffset) && totalBytesRead == old(totalBytesRead)
      ensures ok ==> OnCourse(w) && carry == ""
      ensures !ok ==> w.goal.0 != Success
    {
      hide Promise;
      PromiseTag(w, Snapshot(), lo, hi);
      var status := ProcessTagIR(lex(tagView));
      carry := "";
      ok := status == Success;
    }

    /** Carries a brace that ends the buffer: the next byte decides whether a tag begins there. */
    method CarryBrace(ghost w: Job)
      requires OnCourse(w) && Buffered(w.file, w.C) && carry == ""
      requires readOffset + 1 == |readBuf| && readBuf[readOffset] == '{'
      modifies this`carry, this`readOffset
      ensures Scanning(w) && readOffset == |readBuf| && Pos() == old(Pos()) && carry != ""
    {
      hide Promise, IsChunk;
      ChunkTail(w.file, w.C, totalBytesRead, readBuf, readOffset);
      assert readBuf[readOffset..] == "{";
      carry := "{";
      readOffset := readOffset + 1;
    }

    /** Carries a tag that has begun and does not end in the buffer. */
    method CarryRest(ghost w: Job)
      requires OnCourse(w) && Buffered(w.file, w.C) && carry == "" && currentLiteralLength == 0
              && readOffset < |readBuf|
      requires PairAt(readBuf[readOffset..], 0, '{', '%')
              && FindPair(readBuf[readOffset..], 0, '%', '}') >= |readBuf| - readOffset
      modifies this`carry, this`readOffset
      ensures Scanning(w) && readOffset == |readBuf| && Pos() == old(Pos()) && carry != ""
    {
      hide Promise, IsChunk;
      ChunkTail(w.file, w.C, totalBytesRead, readBuf, readOffset);
      carry := readBuf[readOffset..];
      readOffset := |readBuf|;
    }

    /** The rest of the buffer begins no tag; a brace at its very end is carried. */
    method FinishChunk(ghost w: Job)
      requires OnCourse(w) && Buffered(w.file, w.C) && carry == "" && readOffset < |readBuf|
      requires FindPair(readBuf[readOffset..], 0, '{', '%') >= |readBuf| - readOffset
      modifies this`carry, this`readOffset, this`currentLiteralStartOffset, this`currentLiteralLength
      ensures Scanning(w) && readOffset == |readBuf| && Pos() >= totalBytesRead
    {
      hide OnCourse, FindPair, SkipsTo;
      var bodyView := readBuf[readOffset..];
      var maybeTag := bodyView[|bodyView| - 1] == '{';
      var literalLen := if maybeTag then |bodyView| - 1 else |bodyView|;
      NoTagInView(w.file, bodyView, Pos(), literalLen);
      TakeLiteral(literalLen, w);
      if maybeTag {
        CarryBrace(w);
      }
    }

    /** The tag at the current position: processed if it ends in the buffer, else carried. */
    method TakeOrCarryTag(lex: string -> Tag, ghost w: Job) returns (ok: bool)
      requires OnCourse(w) && Buffered(w.file, w.C) && carry == "" && w.lex == lex && readOffset < |readBuf|
      requires currentLiteralLength == 0 && PairAt(w.file, Pos(), '{', '%')
              && PairAt(readBuf[readOffset..], 0, '{', '%')
      modifies this
      ensures totalBytesRead == old(totalBytesRead) && readBuf == old(readBuf) && readOffset > old(readOffset)
      ensures ok ==> Scanning(w) && (carry != "" ==> readOffset == |readBuf| && Pos() >= totalBytesRead)
      ensures !ok ==> w.goal.0 != Success
    {
      hide Promise, FindPair, TagAt, PairAt, Feed, Pieces, PieceEvents, WithinTwoChunks;
      var bodyView := readBuf[readOffset..];
      var tagEnd := Find(bodyView, '%', '}');
      if tagEnd >= |bodyView| {
        CarryRest(w);
        return true;
      }
      EndsInView(bodyView, tagEnd);
      var tagView := bodyView[..tagEnd + 2];
      TagInView(w.file, bodyView, Pos(), tagEnd, w.C, totalBytesRead);
      ghost var lo := Pos();
      readOffset := readOffset + |tagView|;
      ok := TakeTag(tagView, lex, w, lo, lo + tagEnd + 2);
    }

    /** The literal up to the tag that begins at `tagStart` in the rest of the buffer, and that tag. */
    method TakeLiteralAndTag(lex: string -> Tag, tagStart: nat, ghost w: Job) returns (ok: bool)
      requires OnCourse(w) && Buffered(w.file, w.C) && carry == "" && w.lex == lex && readOffset <= |readBuf|
      requires tagStart == FindPair(readBuf[readOffset..], 0, '{', '%') < |readBuf| - readOffset
      modifies this
      ensures totalBytesRead == old(totalBytesRead) && readBuf == old(readBuf) && readOffset > old(readOffset)
      ensures ok ==> Scanning(w) && (carry != "" ==> readOffset == |readBuf| && Pos() >= totalBytesRead)
      ensures !ok ==> w.goal.0 != Success
    {
      hide FindPair, SkipsTo, PairAt, Promise, OnCourse, Feed, Pieces, PieceEvents;
      var bodyView := readBuf[readOffset..];
      SkipToTag(w.file, bodyView, Pos(), tagStart);
      TakeLiteral(tagStart, w);
      CutLiteral(w);
      TagInBuffer(bodyView, tagStart);
      assert readBuf[readOffset..] == bodyView[tagStart..];
      ok := TakeOrCarryTag(lex, w);
    }

    /** Cuts the chunk in the buffer into literals and tags; a tag it does not finish is carried. */
    method ScanChunk(lex: string -> Tag, ghost w: Job) returns (ok: bool)
      requires Scanning(w) && carry == "" && w.lex == lex
      modifies this
      ensures totalBytesRead == old(totalBytesRead) && readBuf == old(readBuf)
      ensures ok ==> Scanning(w) && readOffset == |readBuf| && (carry != "" ==> Pos() >= totalBytesRead)
      ensures !ok ==> w.goal.0 != Success
    {
      hide OnCourse, FindPair, SkipsTo, Valid;
      while readOffset < |readBuf|
        invariant Scanning(w)
        invariant carry != "" ==> readOffset == |readBuf| && Pos() >= totalBytesRead
        invariant totalBytesRead == old(totalBytesRead) && readBuf == old(readBuf)
        decreases |readBuf| - readOffset
      {
        var bodyView := readBuf[readOffset..];
        var tagStart := Find(bodyView, '{', '%');
        if tagStart >= |bodyView| {
          FinishChunk(w);
          return true;
        }
        var success := TakeLiteralAndTag(lex, tagStart, w);
        if !success {
          return false;
        }
      }
      return true;
    }

    /** A carried brace that no percent sign follows was literal text. */
    method BraceIsText(ghost w: Job)
      requires Scanning(w) && carry == "{" && readOffset == 0 && readBuf != "" && readBuf[0] != '%'
      modifies this`carry, this`currentLiteralStartOffset, this`currentLiteralLength
      ensures Scanning(w) && carry == ""
    {
      hide Promise, SkipsTo;
      ghost var lo := Pos();
      BraceAlone(w.file, lo);
      PromiseSkip(w, Snapshot(), LiteralStart(lo), lo, lo + 1);
      ExtendLiteral(totalBytesRead + readOffset - 1, 1);
      carry := "";
    }

    /** The carried tag is complete: its literal before it and the tag itself are processed. */
    method TakeCarried(lex: string -> Tag, ghost w: Job, ghost lo: nat) returns (ok: bool)
      requires OnCourse(w) && w.lex == lex && Pos() == lo && lo + |carry| <= |w.file|
      requires carry == w.file[lo..lo + |carry|] && TagAt(w.file, lo, lo + |carry|) && PairAt(w.file, lo, '{', '%')
      requires WithinTwoChunks(lo, lo + |carry|, w.C)
      modifies this
      ensures readBuf == old(readBuf) && readOffset == old(readOffset) && totalBytesRead == old(totalBytesRead)
      ensures ok ==> OnCourse(w) && carry == ""
      ensures !ok ==> w.goal.0 != Success
    {
      hide Promise, TagAt, PairAt, Feed, Pieces, PieceEvents, WithinTwoChunks;
      CutLiteral(w);
      ok := TakeTag(carry, lex, w, lo, lo + |carry|);
    }

    /** The end pair of a carried tag lies across the chunk boundary. */
    method TagEndsAcross(lex: string -> Tag, ghost w: Job) returns (ok: bool)
      requires Scanning(w) && w.lex == lex && carry != "" && readOffset == 0 && readBuf != ""
      requires totalBytesRead - w.C <= Pos() && PairAt(w.file, Pos(), '{', '%')
      requires carry[|carry| - 1] == '%' && readBuf[0] == '}'
      modifies this
      ensures totalBytesRead == old(totalBytesRead) && readBuf == old(readBuf)
      ensures ok ==> Scanning(w) && carry == ""
      ensures !ok ==> w.goal.0 != Success
    {
      hide Promise, FindPair, TagAt, PairAt, Feed, Pieces, PieceEvents, WithinTwoChunks, IsChunk;
      AcrossEnd(w);
      ghost var lo := Pos();
      carry := carry + "}";
      readOffset := readOffset + 1;
      ok := TakeCarried(lex, w, lo);
    }

    lemma AcrossEnd(w: Job)
      requires Scanning(w) && carry != "" && readOffset == 0 && readBuf != ""
      requires totalBytesRead - w.C <= Pos() && PairAt(w.file, Pos(), '{', '%')
      requires carry[|carry| - 1] == '%' && readBuf[0] == '}'
      ensures var lo, hi := Pos(), totalBytesRead + 1;
              && 0 <= lo <= hi <= |w.file| && carry + "}" == w.file[lo..hi]
              && TagAt(w.file, lo, hi) && WithinTwoChunks(lo, hi, w.C)
    {
      hide Promise, FindPair, TagAt, PairAt, Feed, Pieces, PieceEvents, WithinTwoChunks;
      EndsAcross(w.file, carry, Pos());
      TwoChunks(Pos(), totalBytesRead, w.C);
    }

    lemma NextEnd(w: Job, tagEnd: nat)
      requires Scanning(w) && carry != "" && readOffset == 0 && readBuf != ""
      requires totalBytesRead - w.C <= Pos() && PairAt(w.file, Pos(), '{', '%')
      requires FindPair(readBuf, 0, '%', '}') == tagEnd < |readBuf| && !(carry[|carry| - 1] == '%' && readBuf[0] == '}')
      ensures var lo, hi := Pos(), totalBytesRead + tagEnd + 2;
              && tagEnd + 2 <= |readBuf| && 0 <= lo <= hi <= |w.file| && carry + readBuf[..tagEnd + 2] == w.file[lo..hi]
              && TagAt(w.file, lo, hi) && WithinTwoChunks(lo, hi, w.C)
    {
      hide Promise, FindPair, TagAt, PairAt, Feed, Pieces, PieceEvents, WithinTwoChunks;
      EndsInView(readBuf, tagEnd);
      EndsInNext(w.file, carry, readBuf, Pos(), tagEnd);
      TwoChunks(Pos(), totalBytesRead, w.C);
    }

    /** The end pair of a carried tag lies in the new chunk. */
    method TagEndsInNext(lex: string -> Tag, ghost w: Job, tagEnd: nat) returns (ok: bool)
      requires Scanning(w) && w.lex == lex && carry != "" && readOffset == 0 && readBuf != ""
      requires totalBytesRead - w.C <= Pos() && PairAt(w.file, Pos(), '{', '%')
      requires FindPair(readBuf, 0, '%', '}') == tagEnd < |readBuf| && !(carry[|carry| - 1] == '%' && readBuf[0] == '}')
      modifies this
      ensures totalBytesRead == old(totalBytesRead) && readBuf == old(readBuf)
      ensures ok ==> Scanning(w) && carry == ""
      ensures !ok ==> w.goal.0 != Success
    {
      hide Promise, FindPair, TagAt, PairAt, Feed, Pieces, PieceEvents, WithinTwoChunks, IsChunk;
      NextEnd(w, tagEnd);
      ghost var lo := Pos();
      carry := carry + readBuf[..tagEnd + 2];
      readOffset := readOffset + tagEnd + 2;
      ok := TakeCarried(lex, w, lo);
    }

    /** A tag or brace carried from the chunk before meets the chunk after it. */
    method ResumeTag(lex: string -> Tag, ghost w: Job) returns (ok: bool)
      requires Scanning(w) && w.lex == lex && carry != "" && readOffset == 0 && readBuf != ""
      requires totalBytesRead - w.C <= Pos()
      modifies this
      ensures totalBytesRead == old(totalBytesRead) && readBuf == old(readBuf)
      ensures ok ==> Scanning(w) && carry == ""
      ensures !ok ==> w.goal.0 != Success || !w.fits
    {
      hide Promise, FindPair, Carried, OnCourse, TagAt, PairAt, Feed, Pieces, PieceEvents;
      if carry == "{" && readBuf[0] != '%' {
        BraceIsText(w);
        return true;
      }
      CarryBegins(w);
      if carry[|carry| - 1] == '%' && readBuf[0] == '}' {
        ok := TagEndsAcross(lex, w);
        return;
      }
      var tagEnd := Find(readBuf, '%', '}');
      if tagEnd >= |readBuf| {
        NoEndNext(w);
        return false;
      }
      ok := TagEndsInNext(lex, w, tagEnd);
    }

    /** Reads the next chunk of the file into the buffer. */
    lemma CarryBegins(w: Job)
      requires Scanning(w) && carry != "" && readOffset == 0 && readBuf != "" && (carry == "{" ==> readBuf[0] == '%')
      ensures Pos() >= 0 && PairAt(w.file, Pos(), '{', '%')
    {
      hide Promise, PairAt, FindPair;
      BeginsTag(w.file, carry, readBuf, Pos());
    }

    lemma NoEndNext(w: Job)
      requires Scanning(w) && carry != "" && readOffset == 0 && readBuf != "" && totalBytesRead - w.C <= Pos()
      requires Pos() >= 0 && PairAt(w.file, Pos(), '{', '%')
      requires FindPair(readBuf, 0, '%', '}') >= |readBuf| && !(carry[|carry| - 1] == '%' && readBuf[0] == '}')
      ensures w.goal.0 != Success || !w.fits
    {
      hide Promise, FindPair, PairAt;
      NoEndInTwoChunks(w, Snapshot(), LiteralStart(Pos()), Pos(), totalBytesRead, carry, readBuf);
    }

    method ReadChunk(file: string, chunkSize: nat, ghost w: Job)
      requires w.file == file && w.C == chunkSize && Scanning(w)
      requires readOffset == |readBuf| && (carry != "" ==> Pos() >= totalBytesRead)
      modifies this`readBuf, this`readOffset, this`totalBytesRead
      ensures Scanning(w) && readOffset == 0 && totalBytesRead == old(totalBytesRead + |readBuf|)
      ensures readBuf == "" <==> totalBytesRead == |file|
      ensures carry != "" ==> totalBytesRead - w.C <= Pos()
    {
      hide Promise, IsChunk;
      ChunkWithin(w.file, w.C, totalBytesRead, readBuf);
      ChunkBehind(w.file, w.C, totalBytesRead, readBuf);
      totalBytesRead := totalBytesRead + |readBuf|;
      var end := if totalBytesRead + chunkSize < |file| then totalBytesRead + chunkSize else |file|;
      readBuf := file[totalBytesRead..end];
      readOffset := 0;
    }

    /** Compiles a file read in chunks. It succeeds exactly when reading the whole file at once
        divides it and its tags are accepted, every block is closed and no target is left open, and
        no tag outruns the chunk after the one it began in; the code is then the whole file's. */
    method GenerateIRFromTemplate(file: string, chunkSize: nat, lex: string -> Tag) returns (ok: bool)
      requires chunkSize > 0 && Valid() && Snapshot() == INITIAL
      requires currentLiteralLength == readOffset == totalBytesRead == 0 && readBuf == carry == ""
      modifies this
      ensures ok <==> WholeFileCompiles(file, lex, hash) && TagsWithinTwoChunks(Pieces(file, 0, 0), chunkSize)
      ensures ok ==> Snapshot() == Feed(INITIAL, hash, PieceEvents(file, lex, Pieces(file, 0, 0))).1
    {
      hide Promise, Pieces, PieceEvents, Feed, TagsWithinTwoChunks, NoneOpen;
      ghost var ps := Pieces(file, 0, 0);
      ghost var w := Job(file, lex, chunkSize, hash, Feed(INITIAL, hash, PieceEvents(file, lex, ps)),
                         TagsWithinTwoChunks(ps, chunkSize));
      PromiseStart(w, ps);
      while true
        invariant Scanning(w) && readOffset == |readBuf| && (carry != "" ==> Pos() >= totalBytesRead)
        decreases |file| - (totalBytesRead + |readBuf|)
      {
        ReadChunk(file, chunkSize, w);
        if readBuf == "" {
          if carry != "" {
            CarryAtEnd(w, Snapshot(), LiteralStart(Pos()), Pos(), carry);
            return false;
          }
          break;
        }
        if carry != "" {
          var resumed := ResumeTag(lex, w);
          if !resumed {
            return false;
          }
        }
        var scanned := ScanChunk(lex, w);
        if !scanned {
          return false;
        }
      }
      ok := FinishCompile(w);
    }

    /** The file has ended: delivers the last literal and checks that nothing is left open. */
    method FinishCompile(ghost w: Job) returns (ok: bool)
      requires OnCourse(w) && Pos() == |w.file|
      modifies this`ir, this`currentLiteralLength
      ensures w.goal == (Success, Snapshot()) && w.fits
      ensures ok <==> offsetPatchStack == [] && NoneOpen(ir)
    {
      PromiseEnd(w, Snapshot(), LiteralStart(Pos()), Pos());
      FinalizeLiteral();
      if offsetPatchStack != [] {
        return false;
      }
      var i := 0;
      while i < |ir|
        invariant 0 <= i <= |ir| && forall k | 0 <= k < i :: !Open(ir[k])
      {
        if Open(ir[i]) {
          return false;
        }
        i := i + 1;
      }
      return true;
    }

    /** The cases of the emitted switch, in order, with every index resolved in the pools. */
    method GenerateCases() returns (code: seq<SymOp>)
      requires InRange(Pooled().Decoded(), ir)
      ensures code == Link(Pooled().Decoded(), ir)
    {
      var lib := Pooled().Decoded();
      code := [];
      var i := 0;
      while i < |ir|
        invariant 0 <= i <= |ir| && code == Link(lib, ir)[..i]
      {
        code := code + [LinkOp(lib, ir[i])];
        i := i + 1;
      }
    }
  }
}
