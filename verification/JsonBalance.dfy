/** Whatever is called on a JSON writer, its brackets balance once it is destroyed. */
module JsonBalance {
  import opened Helpers
  import opened JsonSpec
  import opened JsonWriters

  // ---------------------------------------------------------------- a bracket scanner

  /** The brackets open so far (true for an array), and whether the scan is inside a string. */
  datatype Scan = Bad | Scan(brackets: seq<bool>, inString: bool, escaped: bool)

  function Outside(brackets: seq<bool>): Scan { Scan(brackets, false, false) }

  function Next(s: Scan, c: char): Scan {
    if s.Bad? then Bad
    else if s.inString then
      if s.escaped then s.(escaped := false)
      else if c == '\\' then s.(escaped := true)
      else if c == '"' then s.(inString := false)
      else s
    else if c == '"' then s.(inString := true)
    else if c == '{' || c == '[' then s.(brackets := s.brackets + [c == '['])
    else if c == '}' || c == ']' then
      var n := |s.brackets|;
      if n > 0 && s.brackets[n - 1] == (c == ']') then s.(brackets := s.brackets[..n - 1]) else Bad
    else s
  }

  function ScanText(s: Scan, text: string): Scan
    decreases |text|
  {
    if text == "" then s else ScanText(Next(s, text[0]), text[1..])
  }

  lemma {:induction false} ScanJoin(s: Scan, a: string, b: string)
    ensures ScanText(s, a + b) == ScanText(ScanText(s, a), b)
    decreases |a|
  {
    if a == "" {
      assert a + b == b;
    } else {
      assert (a + b)[1..] == a[1..] + b;
      ScanJoin(Next(s, a[0]), a[1..], b);
    }
  }

  /** Text without quotes and brackets, as numbers and literals are. */
  predicate Plain(text: string) { forall c <- text :: c !in "\"{}[]" }

  lemma {:induction false} ScanPlain(b: seq<bool>, text: string)
    requires Plain(text)
    ensures ScanText(Outside(b), text) == Outside(b)
    decreases |text|
  {
    if text != "" {
      assert text[0] in text;
      assert Next(Outside(b), text[0]) == Outside(b);
      ScanPlain(b, text[1..]);
    }
  }

  lemma EscapeScans(b: seq<bool>, c: char)
    ensures ScanText(Scan(b, true, false), EscapeChar(c)) == Scan(b, true, false)
  {
    var s := Scan(b, true, false);
    var e := EscapeChar(c);
    if |e| == 2 {
      TwoScan(s, e);
    } else if |e| == 6 {
      assert e == e[..2] + e[2..];
      ScanJoin(s, e[..2], e[2..]);
      TwoScan(s, e[..2]);
      HexScans(b, e[2..], c);
    } else {
      assert e[1..] == "";
    }
  }

  lemma TwoScan(s: Scan, e: string)
    requires |e| == 2 && e[0] == '\\' && s.Scan? && s.inString && !s.escaped
    ensures ScanText(s, e) == s
  {
    assert e[1..][0] == e[1] && e[1..][1..] == "";
    assert ScanText(s, e) == ScanText(Next(s, e[0]), e[1..]) == ScanText(Next(Next(s, e[0]), e[1]), "");
  }

  lemma HexScans(b: seq<bool>, t: string, c: char)
    requires (c as int) < 0x20 && t == "00" + [HEX[c as int / 16]] + [HEX[c as int % 16]]
    ensures ScanText(Scan(b, true, false), t) == Scan(b, true, false)
  {
    assert forall i | 0 <= i < 16 :: HEX[i] != '"' && HEX[i] != '\\' by {
      assert '"' !in HEX && '\\' !in HEX;
      assert forall i | 0 <= i < 16 :: HEX[i] in HEX;
    }
    ScanInside(b, t);
  }

  lemma {:induction false} ScanInside(b: seq<bool>, t: string)
    requires forall i | 0 <= i < |t| :: t[i] != '"' && t[i] != '\\'
    ensures ScanText(Scan(b, true, false), t) == Scan(b, true, false)
    decreases |t|
  {
    if t != "" {
      assert Next(Scan(b, true, false), t[0]) == Scan(b, true, false);
      ScanInside(b, t[1..]);
    }
  }

  lemma {:induction false} EscapedScans(b: seq<bool>, s: string)
    ensures ScanText(Scan(b, true, false), Escape(s)) == Scan(b, true, false)
    decreases |s|
  {
    if s != "" {
      hide EscapeChar;
      EscapeScans(b, s[0]);
      EscapedScans(b, s[1..]);
      ScanJoin(Scan(b, true, false), EscapeChar(s[0]), Escape(s[1..]));
    }
  }

  /** A quoted string leaves the brackets alone, whatever it contains. */
  lemma QuotedScans(b: seq<bool>, s: string)
    ensures ScanText(Outside(b), Quoted(s)) == Outside(b)
  {
    hide Escape;
    EscapedScans(b, s);
    ScanJoin(Outside(b), "\"" + Escape(s), "\"");
    ScanJoin(Outside(b), "\"", Escape(s));
    assert "\""[1..] == "";
  }

  // ---------------------------------------------------------------- any calls

  /** A call on the writer; a value is a string to quote or text without quotes and brackets. */
  datatype Call = Begin(key: Option<string>, isArray: bool) | End | WriteString(key: Option<string>, s: string)
      | WritePlain(key: Option<string>, text: string)

  predicate Allowed(c: Call) { c.WritePlain? ==> Plain(c.text) }

  function Apply(w: Writer, c: Call): Writer {
    match c
    case Begin(key, isArray) => Open(w, key, isArray)
    case End => Close(w)
    case WriteString(key, s) => Value(w, key, Quoted(s))
    case WritePlain(key, text) => Value(w, key, text)
  }

  function Kinds(stack: seq<Frame>): (r: seq<bool>)
    ensures |r| == |stack|
  {
    seq(|stack|, i requires 0 <= i < |stack| => stack[i].isArray)
  }

  /** The scanner's open brackets are the writer's open containers. */
  predicate Matched(w: Writer) { ScanText(Outside([]), w.text) == Outside(Kinds(w.stack)) }

  lemma Grown(w: Writer, text: string)
    requires Matched(w)
    ensures ScanText(Outside([]), w.text + text) == ScanText(Outside(Kinds(w.stack)), text)
  {
    ScanJoin(Outside([]), w.text, text);
  }

  lemma KeyScans(b: seq<bool>, key: Option<string>)
    ensures ScanText(Outside(b), KeyText(key)) == Outside(b)
  {
    hide Quoted;
    if key.Some? {
      QuotedScans(b, key.value);
      ScanJoin(Outside(b), Quoted(key.value), ":");
      ScanPlain(b, ":");
    }
  }

  lemma CommaMatched(w: Writer)
    requires Matched(w)
    ensures Matched(Comma(w)) && Kinds(Comma(w).stack) == Kinds(w.stack)
  {
    var sep := if w.stack == [] then Separator(!w.outside) else Separator(!w.stack[|w.stack| - 1].started);
    Grown(w, sep);
    ScanPlain(Kinds(w.stack), sep);
    assert Kinds(Comma(w).stack) == Kinds(w.stack);
  }

  /** A value's own text decides what it does to the scan. */
  lemma ValueScans(w: Writer, key: Option<string>, text: string)
    requires Matched(w)
    ensures ScanText(Outside([]), Value(w, key, text).text) == ScanText(Outside(Kinds(w.stack)), text)
    ensures Kinds(Value(w, key, text).stack) == Kinds(w.stack)
  {
    hide KeyText, Comma;
    CommaMatched(w);
    var c := Comma(w);
    Grown(c, KeyText(key) + text);
    KeyScans(Kinds(w.stack), key);
    ScanJoin(Outside(Kinds(w.stack)), KeyText(key), text);
    assert c.text + (KeyText(key) + text) == c.text + KeyText(key) + text;
  }

  lemma OpenMatched(w: Writer, key: Option<string>, isArray: bool)
    requires Matched(w)
    ensures Matched(Open(w, key, isArray))
  {
    if w.over == 0 && |w.stack| < MAX_DEPTH {
      ValueScans(w, key, Opening(isArray));
      var v := Value(w, key, Opening(isArray));
      assert Opening(isArray)[1..] == "";
      assert Kinds(v.stack + [Frame(isArray, false)]) == Kinds(v.stack) + [isArray];
    }
  }

  lemma CloseMatched(w: Writer)
    requires Matched(w)
    ensures Matched(Close(w))
  {
    if w.over == 0 && w.stack != [] {
      var n := |w.stack| - 1;
      var closing := Closing(w.stack[n].isArray);
      Grown(w, closing);
      assert closing[1..] == "";
      assert Kinds(w.stack)[..n] == Kinds(w.stack[..n]);
    }
  }

  lemma {:induction false} FinishMatched(w: Writer)
    requires Matched(w)
    ensures Matched(Finish(w)) && Finish(w).stack == []
    decreases |w.stack|, w.over
  {
    if w.stack != [] {
      CloseMatched(w);
      FinishMatched(Close(w));
    }
  }

  lemma ApplyMatched(w: Writer, c: Call)
    requires Matched(w) && Allowed(c)
    ensures Matched(Apply(w, c))
  {
    hide Matched, Quoted, Value;
    match c
    case Begin(key, isArray) => OpenMatched(w, key, isArray);
    case End => CloseMatched(w);
    case WriteString(key, s) =>
      ValueScans(w, key, Quoted(s));
      QuotedScans(Kinds(w.stack), s);
      MatchedIs(Value(w, key, Quoted(s)));
    case WritePlain(key, text) =>
      ValueScans(w, key, text);
      ScanPlain(Kinds(w.stack), text);
      MatchedIs(Value(w, key, text));
  }

  lemma MatchedIs(w: Writer)
    ensures Matched(w) <==> ScanText(Outside([]), w.text) == Outside(Kinds(w.stack))
  {
  }

  /** Any calls at all: closing without opening, nesting beyond the limit, writing behind the root.
      Once the writer is destroyed every bracket outside strings is closed, in the right order. */
  method Balanced(calls: seq<Call>) returns (text: string)
    requires forall c <- calls :: Allowed(c)
    ensures ScanText(Outside([]), text) == Outside([])
  {
    hide Matched, Quoted, Value, Open, Close, Finish, ScanText, Plain;
    var writer := new JsonWriter();
    StartMatched();
    var i := 0;
    while i < |calls|
      invariant i <= |calls| && writer.Valid() && Matched(writer.w)
    {
      var c := calls[i];
      assert c in calls;
      ApplyMatched(writer.w, c);
      match c {
        case Begin(key, isArray) => writer.Begin(key, isArray);
        case End => writer.End();
        case WriteString(key, s) => writer.Write(key, s, true);
        case WritePlain(key, t) => writer.Write(key, t, false);
      }
      i := i + 1;
    }
    FinishMatched(writer.w);
    writer.Destroy();
    MatchedIs(writer.w);
    text := writer.out;
  }

  lemma StartMatched()
    ensures Matched(START)
  {
    assert "{"[1..] == "";
  }
}
