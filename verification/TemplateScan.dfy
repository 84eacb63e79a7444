/** How a template file divides into literal spans and tags, read as a whole. */
module TemplateScan {
  import opened Helpers
  import opened TemplateIR

  /** A literal span, a tag by its first and past-the-end position, or a file that cannot be divided. */
  datatype Piece = Plain(off: nat, len: nat) | TagText(lo: nat, hi: nat) | Broken

  predicate PairAt(s: string, i: nat, a: char, b: char) {
    i + 1 < |s| && s[i] == a && s[i + 1] == b
  }

  /** The first position at or after `from` where the two characters stand; |s| if there is none. */
  function FindPair(s: string, from: nat, a: char, b: char): (i: nat)
    ensures i < |s| ==> from <= i && PairAt(s, i, a, b)
    ensures i >= |s| ==> i == |s|
    ensures forall j | from <= j < i :: !PairAt(s, j, a, b)
    decreases |s| - from
  {
    if from + 1 >= |s| then |s| else if s[from] == a && s[from + 1] == b then from else FindPair(s, from + 1, a, b)
  }

  lemma FindPairIs(s: string, from: nat, a: char, b: char, i: nat)
    requires from <= i && PairAt(s, i, a, b) && forall j | from <= j < i :: !PairAt(s, j, a, b)
    ensures FindPair(s, from, a, b) == i
  {
    var f := FindPair(s, from, a, b);
  }

  /** The literal span [start, end), if it is not empty. */
  function PlainPiece(start: nat, end: nat): seq<Piece> {
    if start < end then [Plain(start, end - start)] else []
  }

  /** The pieces from `pos` on, when [start, pos) is literal text not yet delivered. A tag runs from
      its brace to the first closing pair after it. A file that ends in a lone opening brace, or
      inside a tag, is broken. */
  function Pieces(file: string, start: nat, pos: nat): seq<Piece>
    decreases |file| - pos
  {
    var lo := FindPair(file, pos, '{', '%');
    if lo >= |file| then
      if pos < |file| && file[|file| - 1] == '{' then [Broken] else PlainPiece(start, |file|)
    else
      var end := FindPair(file, lo, '%', '}');
      if end >= |file| then PlainPiece(start, lo) + [Broken]
      else PlainPiece(start, lo) + [TagText(lo, end + 2)] + Pieces(file, end + 2, end + 2)
  }

  function PieceEvent(file: string, lex: string -> Tag, p: Piece): Event {
    match p
    case Plain(off, len) => Span(off, len)
    case TagText(lo, hi) => if lo <= hi <= |file| then TagOf(lex(file[lo..hi])) else TagOf(TagUnknown)
    case Broken => TagOf(TagUnknown)
  }

  function PieceEvents(file: string, lex: string -> Tag, ps: seq<Piece>): (r: seq<Event>)
    ensures |r| == |ps|
  {
    seq(|ps|, i requires 0 <= i < |ps| => PieceEvent(file, lex, ps[i]))
  }

  lemma PieceEventsAppend(file: string, lex: string -> Tag, a: seq<Piece>, b: seq<Piece>)
    ensures PieceEvents(file, lex, a + b) == PieceEvents(file, lex, a) + PieceEvents(file, lex, b)
  {
  }

  /** The pieces cover [from, to) in order, each beginning where the one before ends. */
  predicate Tiles(ps: seq<Piece>, from: nat, to: nat)
    decreases |ps|
  {
    if ps == [] then from == to
    else
      match ps[0]
      case Plain(off, len) => off == from && len > 0 && Tiles(ps[1..], from + len, to)
      case TagText(lo, hi) => lo == from && lo < hi && Tiles(ps[1..], hi, to)
      case Broken => false
  }

  /** A file divided without error is tiled by its spans and tags: no gap and no overlap. */
  lemma {:induction false} PiecesTile(file: string, start: nat, pos: nat)
    requires start <= pos <= |file| && Broken !in Pieces(file, start, pos)
    ensures Tiles(Pieces(file, start, pos), start, |file|)
    decreases |file| - pos
  {
    var lo := FindPair(file, pos, '{', '%');
    if lo < |file| {
      var end := FindPair(file, lo, '%', '}');
      var rest := Pieces(file, end + 2, end + 2);
      assert (PlainPiece(start, lo) + [Broken])[|PlainPiece(start, lo)|] == Broken;
      forall p <- rest ensures p in Pieces(file, start, pos) { }
      PiecesTile(file, end + 2, end + 2);
      TilesBehindTag(start, lo, end + 2, rest, |file|);
    } else if start < |file| {
      TilesCons(Plain(start, |file| - start), [], start, |file|);
      assert [Plain(start, |file| - start)] + [] == [Plain(start, |file| - start)];
    }
  }

  lemma TilesBehindTag(start: nat, lo: nat, hi: nat, rest: seq<Piece>, to: nat)
    requires start <= lo < hi && Tiles(rest, hi, to)
    ensures Tiles(PlainPiece(start, lo) + [TagText(lo, hi)] + rest, start, to)
  {
    TilesCons(TagText(lo, hi), rest, lo, to);
    if start < lo {
      TilesCons(Plain(start, lo - start), [TagText(lo, hi)] + rest, start, to);
      assert [Plain(start, lo - start)] + [TagText(lo, hi)] + rest
          == [Plain(start, lo - start)] + ([TagText(lo, hi)] + rest);
    } else {
      assert [] + [TagText(lo, hi)] + rest == [TagText(lo, hi)] + rest;
    }
  }

  lemma TilesCons(p: Piece, rest: seq<Piece>, from: nat, to: nat)
    requires match p
             case Plain(off, len) => off == from && len > 0 && Tiles(rest, from + len, to)
             case TagText(lo, hi) => lo == from && lo < hi && Tiles(rest, hi, to)
             case Broken => false
    ensures Tiles([p] + rest, from, to)
  {
    assert ([p] + rest)[1..] == rest;
  }

  /** A piece told by its characters: no tag opens in a span, and a span ends where one does, or at the
      end of the file, but not in a lone opening brace; a tag ends at the first closing pair in it. */
  predicate IsPiece(file: string, from: nat, p: Piece) {
    match p
    case Plain(off, len) =>
      && off == from && len > 0 && from + len <= |file|
      && (forall i | from <= i < from + len :: !PairAt(file, i, '{', '%'))
      && (if from + len == |file| then file[|file| - 1] != '{' else PairAt(file, from + len, '{', '%'))
    case TagText(lo, hi) =>
      && lo == from && lo + 2 <= hi && PairAt(file, lo, '{', '%') && PairAt(file, hi - 2, '%', '}')
      && (forall i | lo <= i < hi - 2 :: !PairAt(file, i, '%', '}'))
    case Broken => false
  }

  function PieceEnd(p: Piece): nat {
    match p
    case Plain(off, len) => off + len
    case TagText(_, hi) => hi
    case Broken => 0
  }

  /** The pieces of a file from a position on. */
  predicate Divides(file: string, from: nat, ps: seq<Piece>)
    decreases |ps|
  {
    if ps == [] then from == |file| else IsPiece(file, from, ps[0]) && Divides(file, PieceEnd(ps[0]), ps[1..])
  }

  lemma DividesCons(file: string, from: nat, p: Piece, rest: seq<Piece>)
    requires IsPiece(file, from, p) && Divides(file, PieceEnd(p), rest)
    ensures Divides(file, from, [p] + rest)
  {
    assert ([p] + rest)[1..] == rest;
  }

  /** A file divides in at most one way, and that is the one read. */
  lemma DividesIff(file: string, from: nat, ps: seq<Piece>)
    requires from <= |file|
    ensures Divides(file, from, ps) <==> ps == Pieces(file, from, from) && Broken !in ps
  {
    if Divides(file, from, ps) {
      DividedRead(file, from, ps);
    }
    if Broken !in Pieces(file, from, from) {
      ReadDivides(file, from);
    }
  }

  lemma {:induction false} DividedRead(file: string, from: nat, ps: seq<Piece>)
    requires from <= |file| && Divides(file, from, ps)
    ensures ps == Pieces(file, from, from) && Broken !in ps
    decreases |ps|
  {
    if ps != [] {
      assert ps == [ps[0]] + ps[1..];
      if ps[0].TagText? {
        TagDivided(file, from, ps[0].hi);
        DividedRead(file, ps[0].hi, ps[1..]);
        assert [] + [ps[0]] + ps[1..] == ps;
      } else {
        var to := from + ps[0].len;
        if to == |file| {
          assert ps[1..] == [];
        } else {
          FindPairIs(file, from, '{', '%', to);
          DividedRead(file, to, ps[1..]);
          SpanFirst(file, from, to);
        }
      }
    }
  }

  /** A tag at the front. */
  lemma TagDivided(file: string, lo: nat, hi: nat)
    requires lo + 2 <= hi && PairAt(file, lo, '{', '%') && PairAt(file, hi - 2, '%', '}')
    requires forall i | lo <= i < hi - 2 :: !PairAt(file, i, '%', '}')
    ensures Pieces(file, lo, lo) == [] + [TagText(lo, hi)] + Pieces(file, hi, hi)
  {
    FindPairIs(file, lo, '{', '%', lo);
    FindPairIs(file, lo, '%', '}', hi - 2);
  }

  lemma TagOpens(file: string, from: nat, to: nat)
    requires from <= to < |file| && FindPair(file, from, '{', '%') == to
    ensures var end := FindPair(file, to, '%', '}');
            Pieces(file, from, from)
              == if end < |file| then PlainPiece(from, to) + [TagText(to, end + 2)] + Pieces(file, end + 2, end + 2)
                 else PlainPiece(from, to) + [Broken]
  {
  }

  /** A span at the front, before a tag. */
  lemma SpanFirst(file: string, from: nat, to: nat)
    requires from < to < |file| && FindPair(file, from, '{', '%') == to
    ensures Pieces(file, from, from) == [Plain(from, to - from)] + Pieces(file, to, to)
  {
    hide PairAt, Pieces;
    FindPairIs(file, to, '{', '%', to);
    TagOpens(file, from, to);
    TagOpens(file, to, to);
    var end := FindPair(file, to, '%', '}');
    var first := [Plain(from, to - from)];
    if end < |file| {
      Assoc(first, [TagText(to, end + 2)], Pieces(file, end + 2, end + 2));
      Nothing([TagText(to, end + 2)]);
    } else {
      Nothing([Broken]);
    }
  }

  lemma {:induction false} ReadDivides(file: string, from: nat)
    requires from <= |file| && Broken !in Pieces(file, from, from)
    ensures Divides(file, from, Pieces(file, from, from))
    decreases |file| - from
  {
    hide IsPiece, Divides, Pieces;
    var lo, end := PiecesAre(file, from);
    if lo < |file| {
      var rest := Pieces(file, end + 2, end + 2);
      forall p <- rest ensures p in PlainPiece(from, lo) + [TagText(lo, end + 2)] + rest { }
      ReadDivides(file, end + 2);
      FindPairIs(file, lo, '{', '%', lo);
      TagFirst(file, from, lo, end + 2, rest);
    } else {
      NothingLeft(file);
      if from < |file| {
        SpanIs(file, from, |file|);
        DividesCons(file, from, Plain(from, |file| - from), []);
        assert [Plain(from, |file| - from)] + [] == [Plain(from, |file| - from)];
      }
    }
  }

  /** Without an error: a span and a tag, or what is left. */
  lemma PiecesAre(file: string, from: nat) returns (lo: nat, end: nat)
    requires from <= |file| && Broken !in Pieces(file, from, from)
    ensures lo == FindPair(file, from, '{', '%') && end == FindPair(file, lo, '%', '}')
    ensures if lo < |file| then
              && end < |file|
              && Pieces(file, from, from)
                 == PlainPiece(from, lo) + [TagText(lo, end + 2)] + Pieces(file, end + 2, end + 2)
            else
              && Pieces(file, from, from) == PlainPiece(from, |file|)
              && (from < |file| ==> file[|file| - 1] != '{')
  {
    lo := FindPair(file, from, '{', '%');
    end := FindPair(file, lo, '%', '}');
    assert (PlainPiece(from, lo) + [Broken])[|PlainPiece(from, lo)|] == Broken;
  }

  lemma TagFirst(file: string, from: nat, lo: nat, hi: nat, rest: seq<Piece>)
    requires from <= lo == FindPair(file, from, '{', '%') == FindPair(file, lo, '{', '%') < |file|
    requires lo + 2 <= hi && FindPair(file, lo, '%', '}') == hi - 2 < |file| && Divides(file, hi, rest)
    ensures Divides(file, from, PlainPiece(from, lo) + [TagText(lo, hi)] + rest)
  {
    hide IsPiece, Divides, PairAt;
    TagIs(file, lo, hi);
    DividesCons(file, lo, TagText(lo, hi), rest);
    Assoc(PlainPiece(from, lo), [TagText(lo, hi)], rest);
    if from < lo {
      SpanIs(file, from, lo);
      DividesCons(file, from, Plain(from, lo - from), [TagText(lo, hi)] + rest);
    } else {
      Nothing([TagText(lo, hi)] + rest);
    }
  }

  lemma Nothing(ps: seq<Piece>)
    ensures [] + ps == ps
  {
  }

  lemma NothingLeft(file: string)
    ensures Divides(file, |file|, [])
  {
  }

  lemma TagIs(file: string, lo: nat, hi: nat)
    requires lo + 2 <= hi && FindPair(file, lo, '{', '%') == lo && FindPair(file, lo, '%', '}') == hi - 2 < |file|
    ensures IsPiece(file, lo, TagText(lo, hi))
  {
  }

  lemma SpanIs(file: string, from: nat, to: nat)
    requires from < to == FindPair(file, from, '{', '%') && (to == |file| ==> file[to - 1] != '{')
    ensures IsPiece(file, from, Plain(from, to - from))
  {
  }

  /** Read in chunks of C bytes, a tag that opens in one chunk must end in that chunk or the next. */
  predicate WithinTwoChunks(lo: nat, hi: nat, C: nat)
    requires C > 0
  {
    hi <= lo - lo % C + 2 * C
  }

  predicate TagsWithinTwoChunks(ps: seq<Piece>, C: nat)
    requires C > 0
  {
    forall p <- ps :: p.TagText? ==> WithinTwoChunks(p.lo, p.hi, C)
  }

  /** A tag no longer than a chunk always does. */
  lemma ShortTagsFit(ps: seq<Piece>, C: nat)
    requires C > 0 && forall p <- ps :: p.TagText? ==> p.hi <= p.lo + C
    ensures TagsWithinTwoChunks(ps, C)
  {
    forall p <- ps | p.TagText? ensures WithinTwoChunks(p.lo, p.hi, C) {
      assert p.lo % C < C;
    }
  }
}
