/** Chunked transfer coding: a decoder for section 7.1 of RFC 9112 and the two senders, flush rounds
    with a fixed-width size and generator chunks with a right-aligned one. */
module ChunkedCoding {
  import opened Helpers
  import opened ResponseSpec

  const HEX: seq<char> := "0123456789ABCDEF"
  const TERMINATOR := "0\r\n\r\n"
  const RESERVE := 10

  // ---------------------------------------------------------------- the decoder

  predicate IsHex(c: char) { '0' <= c <= '9' || 'A' <= c <= 'F' || 'a' <= c <= 'f' }

  function HexDigit(c: char): nat {
    if '0' <= c <= '9' then (c - '0') as nat
    else if 'A' <= c <= 'F' then 10 + (c - 'A') as nat
    else if 'a' <= c <= 'f' then 10 + (c - 'a') as nat
    else 0
  }

  function HexValue(s: string): nat {
    if s == "" then 0 else 16 * HexValue(s[..|s| - 1]) + HexDigit(s[|s| - 1])
  }

  /** The hex digits a line begins with; extensions may follow them. */
  function HexPrefix(s: string): string {
    if s == "" || !IsHex(s[0]) then "" else [s[0]] + HexPrefix(s[1..])
  }

  /** The body and what follows it; None when the text is no complete chunked body. */
  function Decode(s: string): Option<(string, string)>
    decreases |s|
  {
    var i := LineEnd(s);
    if i + 2 > |s| || HexPrefix(s[..i]) == "" then None
    else
      var n, rest := HexValue(HexPrefix(s[..i])), s[i + 2..];
      if n == 0 then SkipTrailers(rest)
      else if n + 2 > |rest| || rest[n..n + 2] != CRLF then None
      else
        match Decode(rest[n + 2..])
        case None => None
        case Some(r) => Some((rest[..n] + r.0, r.1))
  }

  /** Trailer lines up to an empty one. */
  function SkipTrailers(s: string): Option<(string, string)>
    decreases |s|
  {
    var i := LineEnd(s);
    if i + 2 > |s| then None else if i == 0 then Some(("", s[2..])) else SkipTrailers(s[i + 2..])
  }

  // ---------------------------------------------------------------- chunks

  /** A size in hex, of fixed width or as short as it goes. */
  function FixedHex(value: nat, width: nat): (s: string)
    ensures |s| == width
  {
    if width == 0 then "" else FixedHex(value / 16, width - 1) + [HEX[value % 16]]
  }

  function ShortHex(value: nat): string {
    if value < 16 then [HEX[value]] else ShortHex(value / 16) + [HEX[value % 16]]
  }

  function Pow16(n: nat): nat { if n == 0 then 1 else 16 * Pow16(n - 1) }

  /** Digits that say the size of a piece. */
  predicate Sizes(digits: string, piece: string) {
    digits != "" && (forall c <- digits :: IsHex(c)) && HexValue(digits) == |piece| > 0
  }

  function Chunk(digits: string, piece: string): string { digits + CRLF + piece + CRLF }

  lemma HexDigitRead(d: nat)
    requires d < 16
    ensures IsHex(HEX[d]) && HexDigit(HEX[d]) == d && HEX[d] != '\r'
  {
    assert HEX[0] == '0' && HEX[1] == '1' && HEX[2] == '2' && HEX[3] == '3' && HEX[4] == '4' && HEX[5] == '5'
        && HEX[6] == '6' && HEX[7] == '7';
    assert HEX[8] == '8' && HEX[9] == '9' && HEX[10] == 'A' && HEX[11] == 'B' && HEX[12] == 'C' && HEX[13] == 'D'
        && HEX[14] == 'E' && HEX[15] == 'F';
  }

  lemma {:induction false} FixedHexRead(value: nat, width: nat)
    requires value < Pow16(width)
    ensures HexValue(FixedHex(value, width)) == value && forall c <- FixedHex(value, width) :: IsHex(c)
    decreases width
  {
    if width > 0 {
      FixedHexRead(value / 16, width - 1);
      HexDigitRead(value % 16);
      assert FixedHex(value, width)[..width - 1] == FixedHex(value / 16, width - 1);
    }
  }

  lemma {:induction false} ShortHexRead(value: nat)
    ensures HexValue(ShortHex(value)) == value && ShortHex(value) != "" && forall c <- ShortHex(value) :: IsHex(c)
    decreases value
  {
    HexDigitRead(value % 16);
    if value < 16 {
      assert [HEX[value]][..0] == "";
    } else {
      ShortHexRead(value / 16);
      var s := ShortHex(value);
      assert s[..|s| - 1] == ShortHex(value / 16);
    }
  }

  /** Sizes below 16^n take at most n digits. */
  lemma {:induction false} ShortHexWidth(value: nat, n: nat)
    requires n > 0
    ensures |ShortHex(value)| <= n <==> value < Pow16(n)
    decreases n
  {
    if n > 1 && value >= 16 {
      ShortHexWidth(value / 16, n - 1);
    } else if value >= 16 {
      ShortHexLong(value / 16);
    } else {
      PowAtLeast(n);
    }
  }

  lemma ShortHexLong(value: nat)
    ensures |ShortHex(value)| >= 1
  {
  }

  lemma {:induction false} PowAtLeast(n: nat)
    requires n > 0
    ensures Pow16(n) >= 16
    decreases n
  {
    if n > 1 { PowAtLeast(n - 1); }
  }

  lemma {:induction false} HexPrefixWhole(digits: string)
    requires forall c <- digits :: IsHex(c)
    ensures HexPrefix(digits) == digits
    decreases |digits|
  {
    if digits != "" {
      HexPrefixWhole(digits[1..]);
    }
  }

  /** The decoder takes a well-sized chunk off the front. */
  lemma DecodeChunk(digits: string, piece: string, rest: string)
    requires Sizes(digits, piece)
    ensures Decode(Chunk(digits, piece) + rest)
         == match Decode(rest) case None => None case Some(r) => Some((piece + r.0, r.1))
  {
    var behind := piece + CRLF + rest;
    var s := Chunk(digits, piece) + rest;
    assert s == digits + CRLF + behind;
    NoCR(digits);
    LineEndAt(digits, behind);
    HexPrefixWhole(digits);
    assert s[..|digits|] == digits && s[|digits| + 2..] == behind;
    assert behind[..|piece|] == piece && behind[|piece|..|piece| + 2] == CRLF && behind[|piece| + 2..] == rest;
  }

  lemma NoCR(digits: string)
    requires forall c <- digits :: IsHex(c)
    ensures '\r' !in digits
  {
  }

  lemma DecodeTerminator(rest: string)
    ensures Decode(TERMINATOR + rest) == Some(("", rest))
  {
    var s := TERMINATOR + rest;
    assert s == "0" + CRLF + (CRLF + rest);
    LineEndAt("0", CRLF + rest);
    HexPrefixWhole("0");
    assert s[..1] == "0" && s[3..] == CRLF + rest;
    assert "0"[..0] == "";
    assert CRLF + rest == "" + CRLF + rest;
    LineEndAt("", rest);
    assert (CRLF + rest)[2..] == rest;
  }

  function Pieces(pieces: seq<string>): string {
    if pieces == [] then "" else Pieces(pieces[..|pieces| - 1]) + pieces[|pieces| - 1]
  }

  function Chunks(digits: string -> string, pieces: seq<string>): string {
    if pieces == [] then ""
    else Chunks(digits, pieces[..|pieces| - 1]) + Chunk(digits(pieces[|pieces| - 1]), pieces[|pieces| - 1])
  }

  /** Decoding what was sent gives back what was written, up to any bytes that follow. */
  lemma {:induction false} ChunksDecode(digits: string -> string, pieces: seq<string>, rest: string)
    requires forall p <- pieces :: Sizes(digits(p), p)
    ensures Decode(Chunks(digits, pieces) + rest)
         == match Decode(rest) case None => None case Some(r) => Some((Pieces(pieces) + r.0, r.1))
    decreases |pieces|
  {
    hide Decode, Chunk, Chunks, Pieces, Sizes;
    LastChunk(digits, pieces);
    if pieces == [] {
      assert "" + rest == rest;
      if Decode(rest).Some? { assert "" + Decode(rest).value.0 == Decode(rest).value.0; }
    } else {
      var n := |pieces| - 1;
      var chunk := Chunk(digits(pieces[n]), pieces[n]);
      Assoc(Chunks(digits, pieces[..n]), chunk, rest);
      DecodeChunk(digits(pieces[n]), pieces[n], rest);
      ChunksDecode(digits, pieces[..n], chunk + rest);
      if Decode(rest).Some? {
        Assoc(Pieces(pieces[..n]), pieces[n], Decode(rest).value.0);
      }
    }
  }

  lemma LastChunk(digits: string -> string, pieces: seq<string>)
    ensures if pieces == [] then Chunks(digits, pieces) == "" && Pieces(pieces) == ""
            else
              var n := |pieces| - 1;
              && Chunks(digits, pieces) == Chunks(digits, pieces[..n]) + Chunk(digits(pieces[n]), pieces[n])
              && Pieces(pieces) == Pieces(pieces[..n]) + pieces[n]
  {
  }

  lemma ChunkedBodyDecodes(digits: string -> string, pieces: seq<string>)
    requires forall p <- pieces :: Sizes(digits(p), p)
    ensures Decode(Chunks(digits, pieces) + TERMINATOR) == Some((Pieces(pieces), ""))
  {
    ChunksDecode(digits, pieces, TERMINATOR);
    DecodeTerminator("");
    assert TERMINATOR + "" == TERMINATOR;
    assert Pieces(pieces) + "" == Pieces(pieces);
  }

  function RoundDigits(piece: string): string { FixedHex(|piece|, 8) }

  function StreamDigits(piece: string): string { ShortHex(|piece|) }

  lemma RoundSizes(piece: string)
    requires 0 < |piece| < U32
    ensures Sizes(RoundDigits(piece), piece)
  {
    assert Pow16(2) == 0x100 && Pow16(4) == 0x1_0000 && Pow16(6) == 0x100_0000 && Pow16(8) == U32;
    FixedHexRead(|piece|, 8);
  }

  lemma StreamSizes(piece: string)
    requires 0 < |piece|
    ensures Sizes(StreamDigits(piece), piece)
  {
    ShortHexRead(|piece|);
  }
}
