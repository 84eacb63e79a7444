/** What a buffered response must look like on the wire, and which call orders are legal. */
module ResponseSpec {
  import opened Helpers

  const CRLF := "\r\n"
  const U32 := 0x1_0000_0000

  // ---------------------------------------------------------------- a plain reader

  /** The first line of a text and what follows it; a text without a line end is all one line. */
  function LineEnd(s: string): (i: nat)
    ensures i <= |s|
  {
    if |s| < 2 then |s| else if s[0] == '\r' && s[1] == '\n' then 0 else 1 + LineEnd(s[1..])
  }

  /** Header lines up to the first empty one, and the bytes behind it. */
  function ReadResponse(s: string): (seq<string>, string)
    decreases |s|
  {
    var i := LineEnd(s);
    if i + 2 > |s| then ([s], "")
    else if i == 0 then ([], s[2..])
    else
      var r := ReadResponse(s[i + 2..]);
      ([s[..i]] + r.0, r.1)
  }

  /** Lines as they are written: each with its line end. */
  function Flat(lines: seq<string>): string {
    if lines == [] then "" else lines[0] + CRLF + Flat(lines[1..])
  }

  predicate CleanLine(s: string) { s != "" && '\r' !in s && '\n' !in s }

  lemma {:induction false} LineEndAt(line: string, rest: string)
    requires '\r' !in line
    ensures LineEnd(line + CRLF + rest) == |line|
    decreases |line|
  {
    var s := line + CRLF + rest;
    if line != "" {
      assert s[1..] == line[1..] + CRLF + rest;
      assert s[0] == line[0];
      LineEndAt(line[1..], rest);
    }
  }

  lemma ReadLine(line: string, rest: string)
    requires CleanLine(line)
    ensures ReadResponse(line + CRLF + rest) == var r := ReadResponse(rest); ([line] + r.0, r.1)
  {
    var s := line + CRLF + rest;
    LineEndAt(line, rest);
    assert s[|line| + 2..] == rest && s[..|line|] == line;
  }

  /** The reader undoes the writing of clean lines, an empty line and a body. */
  lemma {:induction false} ReadFlat(lines: seq<string>, body: string)
    requires forall l <- lines :: CleanLine(l)
    ensures ReadResponse(Flat(lines) + CRLF + body) == (lines, body)
    decreases |lines|
  {
    if lines == [] {
      assert Flat(lines) + CRLF + body == "" + CRLF + body;
      LineEndAt("", body);
      assert (CRLF + body)[2..] == body;
    } else {
      hide ReadResponse, CleanLine;
      var rest := Flat(lines[1..]) + CRLF + body;
      assert Flat(lines) + CRLF + body == lines[0] + CRLF + rest;
      ReadLine(lines[0], rest);
      ReadFlat(lines[1..], body);
      assert [lines[0]] + lines[1..] == lines;
    }
  }

  lemma {:induction false} FlatJoin(a: seq<string>, b: seq<string>)
    ensures Flat(a + b) == Flat(a) + Flat(b)
    decreases |a|
  {
    if a == [] {
      assert a + b == b;
    } else {
      assert (a + b)[1..] == a[1..] + b;
      FlatJoin(a[1..], b);
      assert a[0] + CRLF + (Flat(a[1..]) + Flat(b)) == a[0] + CRLF + Flat(a[1..]) + Flat(b);
    }
  }

  // ---------------------------------------------------------------- decimal fields

  /** The last `width` decimal digits of a number. */
  function Fixed(value: nat, width: nat): (s: string)
    ensures |s| == width && forall c <- s :: c in DIGITS
  {
    if width == 0 then "" else Fixed(value / 10, width - 1) + [DIGITS[value % 10]]
  }

  function DigitValue(c: char): nat {
    if '0' <= c <= '9' then (c - '0') as nat else 0
  }

  function Decimal(s: string): nat {
    if s == "" then 0 else 10 * Decimal(s[..|s| - 1]) + DigitValue(s[|s| - 1])
  }

  function Pow10(n: nat): nat { if n == 0 then 1 else 10 * Pow10(n - 1) }

  lemma DigitRead(d: nat)
    requires d < 10
    ensures DigitValue(DIGITS[d]) == d
  {
    assert DIGITS[0] == '0' && DIGITS[1] == '1' && DIGITS[2] == '2' && DIGITS[3] == '3' && DIGITS[4] == '4';
    assert DIGITS[5] == '5' && DIGITS[6] == '6' && DIGITS[7] == '7' && DIGITS[8] == '8' && DIGITS[9] == '9';
  }

  /** A number that fits its field is read back. */
  lemma {:induction false} FixedRead(value: nat, width: nat)
    requires value < Pow10(width)
    ensures Decimal(Fixed(value, width)) == value
    decreases width
  {
    if width > 0 {
      FixedRead(value / 10, width - 1);
      DigitRead(value % 10);
      assert Fixed(value, width)[..width - 1] == Fixed(value / 10, width - 1);
    }
  }

  // ---------------------------------------------------------------- calls

  /** `Finish` is a handler's own commit. */
  datatype Call =
    | Status(code: nat)
    | Header(key: string, value: string)
    | Persistent(key: string, value: string)
    | Body(data: string)
    | Finish

  predicate HasCRLFOrNull(s: string) { '\r' in s || '\n' in s || '\0' in s }

  /** A header a handler may write. */
  predicate AllowedHeader(key: string, value: string) {
    !SameIgnoringCase(key, "connection") && !HasCRLFOrNull(key) && !HasCRLFOrNull(value)
  }

  predicate StatusForbidsBody(code: nat) { 100 <= code < 200 || code == 204 || code == 304 }

  /** The status in force after some calls. */
  function StatusAfter(calls: seq<Call>): nat {
    if calls == [] then 200
    else
      var last := calls[|calls| - 1];
      if last.Status? then last.code else StatusAfter(calls[..|calls| - 1])
  }

  /** Whether call i may follow the calls before it. */
  predicate LegalAt(calls: seq<Call>, i: nat)
    requires i < |calls|
  {
    && (forall j | 0 <= j < i :: !calls[j].Finish?)
    && match calls[i]
       case Status(_) => forall j | 0 <= j < i :: !calls[j].Body?
       case Header(k, v) => AllowedHeader(k, v) && forall j | 0 <= j < i :: !calls[j].Body?
       case Persistent(k, v) => AllowedHeader(k, v) && forall j | 0 <= j < i :: !calls[j].Body? && !calls[j].Header?
       case Body(_) => !StatusForbidsBody(StatusAfter(calls[..i]))
       case Finish => true
  }

  predicate Legal(calls: seq<Call>) { forall i | 0 <= i < |calls| :: LegalAt(calls, i) }

  /** Everything a handler wrote as body. */
  function Written(calls: seq<Call>): string {
    if calls == [] then ""
    else Written(calls[..|calls| - 1]) + if calls[|calls| - 1].Body? then calls[|calls| - 1].data else ""
  }

  function HeaderLine(key: string, value: string): string { key + ": " + value }

  function HeaderLines(calls: seq<Call>, persistent: bool): seq<string> {
    if calls == [] then []
    else
      var last := calls[|calls| - 1];
      HeaderLines(calls[..|calls| - 1], persistent)
        + if last.Header? && !persistent then [HeaderLine(last.key, last.value)]
          else if last.Persistent? && persistent then [HeaderLine(last.key, last.value)]
          else []
  }

  lemma HeaderLineClean(key: string, value: string)
    requires !HasCRLFOrNull(key) && !HasCRLFOrNull(value)
    ensures CleanLine(HeaderLine(key, value))
  {
  }
}
