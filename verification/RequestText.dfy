/** Requests as they are written, and what the parser makes of them: the parts of the head, and as many
    bytes of body as the digits of Content-Length say. */
module RequestTexts {
  import opened Helpers
  import opened ParserSpec
  import opened HttpParsers

  const CRLF := "\r\n"

  /** A field's line: blanks may stand around the value. */
  datatype Line = Line(name: string, before: string, value: string, after: string)

  /** A request's head. The target is a path and perhaps a query, and `stored` what the path normalizes
      to. */
  datatype Written = Written(verb: string, path: string, query: string, version: string, lines: seq<Line>,
                             stored: string)

  function LineText(l: Line): string { l.name + ":" + (l.before + l.value + l.after) }

  function LinesText(ls: seq<Line>): string {
    if ls == [] then "" else LineText(ls[0]) + CRLF + LinesText(ls[1..])
  }

  function FirstLine(w: Written): string { w.verb + " " + (w.path + w.query + (" " + w.version)) }

  function HeadText(w: Written): string { FirstLine(w) + CRLF + (LinesText(w.lines) + CRLF) }

  /** Printable ASCII but for the delimiters: what section 5.6.2 of RFC 9110 allows in a name. */
  predicate NameChar(c: char) {
    && '!' <= c <= '~' && c != '"' && c != '(' && c != ')' && c != ',' && c != '/' && !(':' <= c <= '@')
    && c != '[' && c != '\\' && c != ']' && c != '{' && c != '}'
  }

  /** No control character but the tab. */
  predicate ValueChar(c: char) { c == '\t' || (' ' <= c && c != 127 as char) }

  predicate Blanks(s: string) { forall c <- s :: c == ' ' || c == '\t' }

  /** A value neither begins nor ends with a blank. */
  predicate GoodValue(v: string) {
    && (forall c <- v :: ValueChar(c))
    && (v != "" ==> v[0] != ' ' && v[0] != '\t' && v[|v| - 1] != ' ' && v[|v| - 1] != '\t')
  }

  predicate GoodLine(l: Line) {
    l.name != "" && (forall c <- l.name :: NameChar(c)) && Blanks(l.before) && Blanks(l.after) && GoodValue(l.value)
  }

  /** Neither a blank nor a line break. */
  predicate Word(s: string) { ' ' !in s && '\r' !in s }

  predicate Good(cfg: Config, w: Written) {
    && Word(w.verb) && Word(w.path) && Word(w.query) && '\r' !in w.version && w.path + w.query != ""
    && '?' !in w.path && (w.query != "" ==> w.query[0] == '?')
    && cfg.knownMethod(w.verb) && cfg.knownVersion(w.version) && cfg.normalize(w.path) == Some(w.stored)
    && |w.lines| <= cfg.maxHeaderTotalCount && (forall l <- w.lines :: GoodLine(l))
  }

  function KeyOf(l: Line): Field { Field(l.name, l.value) }

  function Keys(ls: seq<Line>): seq<Field> {
    if ls == [] then [] else [KeyOf(ls[0])] + Keys(ls[1..])
  }

  function Stored(w: Written): RequestLine { RequestLine(w.verb, w.stored + w.query, w.version) }

  // ---------------------------------------------------------------- characters

  lemma NameChars(c: char)
    ensures TokenChar(c) <==> NameChar(c)
  {
  }

  lemma ValueChars(c: char)
    ensures FieldChar(c) <==> ValueChar(c)
  {
  }

  // ---------------------------------------------------------------- one line

  lemma {:induction false} FindBehind(s: string, c: char, rest: string, from: nat)
    requires c !in s && from <= |s|
    ensures Find(s, c, from) == |s| && Find(s + [c] + rest, c, from) == |s|
    decreases |s| - from
  {
    if from < |s| {
      assert s[from] in s;
      FindBehind(s, c, rest, from + 1);
    }
  }

  /** A character that is not in front of a text is found in the text. */
  lemma {:induction false} FindPast(front: string, s: string, c: char, from: nat)
    requires c !in front && from <= |front|
    ensures Find(front + s, c, from) == |front| + Find(s, c, 0)
    decreases |front| - from
  {
    if from < |front| {
      assert front[from] in front;
      FindPast(front, s, c, from + 1);
    } else {
      FindShift(front, s, c, 0);
    }
  }

  lemma {:induction false} FindShift(front: string, s: string, c: char, from: nat)
    requires from <= |s|
    ensures Find(front + s, c, |front| + from) == |front| + Find(s, c, from)
    decreases |s| - from
  {
    if from < |s| && s[from] != c {
      FindShift(front, s, c, from + 1);
    }
  }

  /** A line without a break is found at its place. */
  lemma LineThere(front: string, line: string, rest: string)
    requires '\r' !in line
    ensures LineAt(front + (line + CRLF + rest), |front|) == Some((line, |front| + |line| + 2))
  {
    var tail := line + CRLF + rest;
    var s := front + tail;
    assert tail == line + ['\r'] + ("\n" + rest);
    FindBehind(line, '\r', "\n" + rest, 0);
    FindShift(front, tail, '\r', 0);
    var i := |front| + |line|;
    assert s[i + 1] == tail[|line| + 1] == '\n';
    assert s[|front|..i] == tail[..|line|] == line;
  }

  lemma {:induction false} TokenRun(name: string, rest: string, from: nat)
    requires (forall c <- name :: NameChar(c)) && from <= |name|
    ensures TokenEnd(name + ":" + rest, from) == |name|
    decreases |name| - from
  {
    if from < |name| {
      assert name[from] in name;
      NameChars(name[from]);
      TokenRun(name, rest, from + 1);
    }
  }

  lemma {:induction false} TrimFront(b: string, rest: string, from: nat)
    requires Blanks(b) && from <= |b| && (rest != "" ==> !Blank(rest[0]))
    ensures TrimStart(b + rest, from) == |b|
    decreases |b| - from
  {
    if from < |b| {
      assert b[from] in b;
      TrimFront(b, rest, from + 1);
    }
  }

  lemma {:induction false} TrimBack(front: string, b: string, start: nat)
    requires Blanks(b) && start <= |front| && (start < |front| ==> !Blank(front[|front| - 1]))
    ensures TrimEnd(front + b, start, |front + b|) == |front|
    decreases |b|
  {
    TrimBackFrom(front, b, start, |b|);
    assert |front + b| == |front| + |b|;
  }

  lemma {:induction false} TrimBackFrom(front: string, b: string, start: nat, k: nat)
    requires Blanks(b) && start <= |front| && (start < |front| ==> !Blank(front[|front| - 1])) && k <= |b|
    ensures TrimEnd(front + b, start, |front| + k) == |front|
    decreases k
  {
    if k > 0 {
      assert b[k - 1] in b && (front + b)[|front| + k - 1] == b[k - 1];
      TrimBackFrom(front, b, start, k - 1);
    }
  }

  /** The blanks around a value are cut, and nothing else. */
  lemma ValueRead(before: string, value: string, after: string)
    requires Blanks(before) && Blanks(after) && GoodValue(value)
    ensures var s := before + value + after; var (a, b) := TrimSpan(s); s[a..b] == value
  {
    var s := before + value + after;
    if value == "" {
      assert s == (before + after) + "";
      assert Blanks(before + after) by { BlanksJoin(before, after); }
      TrimFront(before + after, "", 0);
    } else {
      assert s == before + (value + after);
      TrimFront(before, value + after, 0);
      TrimBack(before + value, after, |before|);
      assert s[|before|..|before| + |value|] == value;
    }
  }

  lemma BlanksJoin(a: string, b: string)
    requires Blanks(a) && Blanks(b)
    ensures Blanks(a + b)
  {
  }

  lemma LineRead(l: Line)
    requires GoodLine(l)
    ensures FieldOf(LineText(l)) == Some(KeyOf(l)) && '\r' !in LineText(l) && LineText(l) != ""
  {
    hide TrimSpan;
    var line, rest := LineText(l), l.before + l.value + l.after;
    TokenRun(l.name, rest, 0);
    assert line[|l.name| + 1..] == rest && line[..|l.name|] == l.name;
    ValueRead(l.before, l.value, l.after);
    forall i | 0 <= i < |l.value| ensures FieldChar(l.value[i]) {
      assert l.value[i] in l.value;
    }
    assert '\r' !in l.name && '\r' !in rest;
  }

  // ---------------------------------------------------------------- the head

  lemma {:induction false} LinesRead(cfg: Config, front: string, ls: seq<Line>, count: nat)
    requires (forall l <- ls :: GoodLine(l)) && count + |ls| <= cfg.maxHeaderTotalCount
    ensures var s := front + (LinesText(ls) + CRLF); Fields(cfg, s, |front|, count) == Some((Keys(ls), |s|))
    decreases |ls|
  {
    hide LineAt, FieldOf;
    var s := front + (LinesText(ls) + CRLF);
    if ls == [] {
      assert LinesText(ls) + CRLF == "" + CRLF + "";
      LineThere(front, "", "");
    } else {
      var line, rest := LineText(ls[0]), LinesText(ls[1..]) + CRLF;
      assert ls[0] in ls;
      LineRead(ls[0]);
      assert LinesText(ls) + CRLF == line + CRLF + rest;
      LineThere(front, line, rest);
      var front' := front + line + CRLF;
      assert s == front' + rest;
      LinesRead(cfg, front', ls[1..], count + 1);
    }
  }

  lemma FirstLineRead(cfg: Config, w: Written)
    requires Good(cfg, w)
    ensures RequestLineOf(cfg, FirstLine(w)) == Some(Stored(w)) && '\r' !in FirstLine(w)
  {
    hide Find, Target;
    var line, target := FirstLine(w), w.path + w.query;
    TwoSpaces(w.verb, target, w.version);
    TargetRead(cfg, w);
  }

  /** Three words with a space between them are found there. */
  lemma TwoSpaces(a: string, b: string, c: string)
    requires ' ' !in a && ' ' !in b
    ensures var s := a + " " + (b + (" " + c)); var m, p := |a|, |a| + 1 + |b|;
            && Find(s, ' ', 0) == m && Find(s, ' ', m + 1) == p && p < |s|
            && s[..m] == a && s[m + 1..p] == b && s[p + 1..] == c
  {
    hide Find;
    var behind := b + (" " + c);
    var s := a + " " + behind;
    FindBehind(a, ' ', behind, 0);
    FindBehind(b, ' ', c, 0);
    assert behind == b + [' '] + c;
    FindShift(a + " ", behind, ' ', 0);
  }

  lemma TargetRead(cfg: Config, w: Written)
    requires Good(cfg, w)
    ensures Target(cfg, w.path + w.query) == Some(w.stored + w.query)
  {
    FindPast(w.path, w.query, '?', 0);
    var raw := w.path + w.query;
    assert raw[..|w.path|] == w.path && raw[|w.path|..] == w.query;
  }

  /** A head is read back: its line and its fields, and it ends where it ends. */
  lemma HeadRead(cfg: Config, w: Written)
    requires Good(cfg, w)
    ensures Head(cfg, HeadText(w)) == Some((Stored(w), Keys(w.lines), |HeadText(w)|))
    ensures HeaderEnd(HeadText(w), 0) == Some(|HeadText(w)|)
  {
    hide RequestLineOf, Fields, LineAt, HeaderEnd, Good, GoodLine, FirstLine, LinesText, Keys, Stored;
    var first, rest := FirstLine(w), LinesText(w.lines) + CRLF;
    FirstLineRead(cfg, w);
    LineThere("", first, rest);
    assert "" + (first + CRLF + rest) == HeadText(w);
    GoodLines(cfg, w);
    LinesRead(cfg, first + CRLF, w.lines, 0);
    HeadEnd(cfg, HeadText(w));
  }

  lemma GoodLines(cfg: Config, w: Written)
    requires Good(cfg, w)
    ensures (forall l <- w.lines :: GoodLine(l)) && |w.lines| <= cfg.maxHeaderTotalCount
  {
  }

  // ---------------------------------------------------------------- nothing else is read

  lemma {:induction false} TokenSpan(line: string, from: nat)
    requires from <= |line|
    ensures forall i | from <= i < TokenEnd(line, from) :: NameChar(line[i])
    decreases |line| - from
  {
    if from < |line| {
      NameChars(line[from]);
      if TokenChar(line[from]) && line[from] != ':' {
        TokenSpan(line, from + 1);
      }
    }
  }

  lemma {:induction false} StartSpan(s: string, from: nat)
    requires from <= |s|
    ensures var a := TrimStart(s, from); (forall i | from <= i < a :: Blank(s[i])) && (a < |s| ==> !Blank(s[a]))
    decreases |s| - from
  {
    if from < |s| && Blank(s[from]) {
      StartSpan(s, from + 1);
    }
  }

  lemma {:induction false} EndSpan(s: string, start: nat, end: nat)
    requires start <= end <= |s|
    ensures var b := TrimEnd(s, start, end);
            (forall i | b <= i < end :: Blank(s[i])) && (b > start ==> !Blank(s[b - 1]))
    decreases end
  {
    if end > start && Blank(s[end - 1]) {
      EndSpan(s, start, end - 1);
    }
  }

  lemma BlankSpan(s: string, a: nat, b: nat)
    requires a <= b <= |s| && forall i | a <= i < b :: Blank(s[i])
    ensures Blanks(s[a..b])
  {
  }

  /** The blanks around a value, and the value between them. */
  lemma ValueWritten(rest: string) returns (before: string, value: string, after: string)
    ensures var (a, b) := TrimSpan(rest);
            && before + value + after == rest && value == rest[a..b] && Blanks(before) && Blanks(after)
            && (Sanitized(value) ==> GoodValue(value))
  {
    hide TrimStart, TrimEnd;
    var (a, b) := TrimSpan(rest);
    StartSpan(rest, 0);
    EndSpan(rest, a, |rest|);
    BlankSpan(rest, 0, a);
    BlankSpan(rest, b, |rest|);
    before, value, after := rest[0..a], rest[a..b], rest[b..|rest|];
    if Sanitized(value) {
      GoodSpan(rest, a, b);
    }
  }

  lemma NameWritten(line: string)
    requires FieldEnd(line).Some?
    ensures var colon := FieldEnd(line).value;
            && line == line[..colon] + ":" + line[colon + 1..] && colon > 0
            && forall c <- line[..colon] :: NameChar(c)
  {
    hide TokenEnd;
    var colon := FieldEnd(line).value;
    TokenSpan(line, 0);
    forall c <- line[..colon] ensures NameChar(c) {
      var i :| 0 <= i < colon && line[i] == c;
    }
  }

  /** A line that is read as a field is written as one. */
  lemma LineWritten(line: string) returns (l: Line)
    requires FieldOf(line).Some? && '\r' !in line
    ensures GoodLine(l) && LineText(l) == line && FieldOf(line) == Some(KeyOf(l))
  {
    hide FieldEnd, TrimSpan, NameChar, Blanks, GoodValue, Sanitized;
    var colon := FieldEnd(line).value;
    NameWritten(line);
    var before, value, after := ValueWritten(line[colon + 1..]);
    l := Line(line[..colon], before, value, after);
  }

  lemma GoodSpan(s: string, a: nat, b: nat)
    requires a <= b <= |s| && Sanitized(s[a..b]) && (a < |s| ==> !Blank(s[a])) && (b > a ==> !Blank(s[b - 1]))
    ensures GoodValue(s[a..b])
  {
    var v := s[a..b];
    forall c <- v ensures ValueChar(c) {
      var i :| 0 <= i < |v| && v[i] == c;
      assert FieldChar(v[i]);
      ValueChars(c);
    }
    assert v != "" ==> v[0] == s[a] && v[|v| - 1] == s[b - 1];
  }

  /** The line at a place is written there. */
  lemma LineCut(s: string, pos: nat)
    requires pos <= |s| && LineAt(s, pos).Some?
    ensures var (line, next) := LineAt(s, pos).value; '\r' !in line && s[pos..next] == line + CRLF
  {
    var i := Find(s, '\r', pos);
    assert s[pos..i + 2] == s[pos..i] + CRLF;
  }

  lemma {:induction false} LinesWritten(cfg: Config, s: string, pos: nat, count: nat) returns (ls: seq<Line>)
    requires pos <= |s| && count <= cfg.maxHeaderTotalCount && Fields(cfg, s, pos, count).Some?
    ensures (forall l <- ls :: GoodLine(l)) && count + |ls| <= cfg.maxHeaderTotalCount
    ensures var r := Fields(cfg, s, pos, count).value;
            pos <= r.1 <= |s| && Keys(ls) == r.0 && s[pos..r.1] == LinesText(ls) + CRLF
    decreases |s| - pos
  {
    hide LineAt, FieldOf, GoodLine;
    LineCut(s, pos);
    var (line, next) := LineAt(s, pos).value;
    if line == "" {
      ls := [];
    } else {
      var l := LineWritten(line);
      var more := LinesWritten(cfg, s, next, count + 1);
      ls := [l] + more;
      assert ls[1..] == more;
      var end := Fields(cfg, s, pos, count).value.1;
      assert s[pos..end] == s[pos..next] + s[next..end];
      assert line + CRLF + (LinesText(more) + CRLF) == line + CRLF + LinesText(more) + CRLF;
    }
  }

  lemma FirstLineWritten(cfg: Config, line: string)
    returns (verb: string, path: string, query: string, version: string, stored: string)
    requires RequestLineOf(cfg, line).Some? && '\r' !in line
    ensures line == verb + " " + (path + query + (" " + version))
    ensures Word(verb) && Word(path) && Word(query) && '\r' !in version && path + query != ""
    ensures '?' !in path && (query != "" ==> query[0] == '?')
    ensures cfg.knownMethod(verb) && cfg.knownVersion(version) && cfg.normalize(path) == Some(stored)
    ensures RequestLineOf(cfg, line) == Some(RequestLine(verb, stored + query, version))
  {
    hide Find;
    var m := Find(line, ' ', 0);
    var p := Find(line, ' ', m + 1);
    verb, version := line[..m], line[p + 1..];
    WordCut(line, 0, m);
    WordCut(line, m + 1, p);
    path, query, stored := TargetWritten(cfg, line[m + 1..p]);
    assert line == verb + " " + (line[m + 1..p] + (" " + version));
    assert '\r' !in version;
  }

  lemma WordCut(line: string, a: nat, b: nat)
    requires a <= b <= |line| && '\r' !in line && forall i | a <= i < b :: line[i] != ' '
    ensures Word(line[a..b])
  {
  }

  lemma TargetWritten(cfg: Config, raw: string) returns (path: string, query: string, stored: string)
    requires Target(cfg, raw).Some? && Word(raw)
    ensures raw == path + query && Word(path) && Word(query) && '?' !in path && (query != "" ==> query[0] == '?')
    ensures cfg.normalize(path) == Some(stored) && Target(cfg, raw) == Some(stored + query)
  {
    var q := Find(raw, '?', 0);
    path, query := raw[..q], raw[q..];
    stored := cfg.normalize(path).value;
  }

  /** A head that is read is one that was written well: the head read back is exactly these. */
  lemma HeadWritten(cfg: Config, s: string) returns (w: Written)
    requires Head(cfg, s).Some?
    ensures var (line, fields, end) := Head(cfg, s).value;
            Good(cfg, w) && end <= |s| && HeadText(w) == s[..end] && Stored(w) == line && Keys(w.lines) == fields
  {
    hide RequestLineOf, LineAt, GoodLine;
    LineCut(s, 0);
    var (line, next) := LineAt(s, 0).value;
    var verb, path, query, version, stored := FirstLineWritten(cfg, line);
    var ls := LinesWritten(cfg, s, next, 0);
    w := Written(verb, path, query, version, ls, stored);
    var end := Head(cfg, s).value.2;
    assert s[..end] == s[0..next] + s[next..end];
    assert line + CRLF + (LinesText(ls) + CRLF) == HeadText(w);
  }

  /** What the parser does not refuse, and does not wait for more of, begins with a head written well. */
  lemma ParsedWritten(cfg: Config, text: string) returns (w: Written, rest: string)
    requires !Parse(cfg, text).Error? && !Parse(cfg, text).Incomplete?
    ensures Good(cfg, w) && text == HeadText(w) + rest && |HeadText(w)| <= cfg.maxHeaderTotalSize
  {
    hide Head, Plan, Good;
    var h := HeaderEnd(text, 0).value;
    w := HeadWritten(cfg, text[..h]);
    HeadEnd(cfg, text[..h]);
    HeaderEndGrows(text[..h], text[h..]);
    assert text == text[..h] + text[h..];
    rest := text[h..];
  }

  /** Whatever follows a head, the verdict is decided by its fields and what follows it. */
  lemma HeadDecides(cfg: Config, w: Written, rest: string)
    requires Good(cfg, w)
    ensures var h := |HeadText(w)|;
            Parse(cfg, HeadText(w) + rest) ==
              if h > cfg.maxHeaderTotalSize then Error
              else
                match Plan(cfg, Keys(w.lines), h)
                case Refuse => Error
                case Aside => SidePath
                case NoBody => Success(Request(Stored(w), Keys(w.lines), ""))
                case Wait(n) =>
                  if |rest| < n then Incomplete else Success(Request(Stored(w), Keys(w.lines), rest[..n]))
  {
    hide Head, HeaderEnd, Plan, HeadText, Good;
    var head := HeadText(w);
    HeadRead(cfg, w);
    HeaderEndGrows(head, rest);
    assert (head + rest)[..|head|] == head;
    var plan := Plan(cfg, Keys(w.lines), |head|);
    if plan.Wait? && plan.length <= |rest| {
      assert (head + rest)[|head|..|head| + plan.length] == rest[..plan.length];
    }
  }

  // ---------------------------------------------------------------- what the fields say

  predicate NoneNamed(ls: seq<Line>, name: string) { forall l <- ls :: !SameIgnoringCase(l.name, name) }

  /** The last field of that name has that value. */
  ghost predicate Says(ls: seq<Line>, name: string, value: string) {
    exists i | 0 <= i < |ls| ::
      SameIgnoringCase(ls[i].name, name) && ls[i].value == value && NoneNamed(ls[i + 1..], name)
  }

  /** There is no such field, or the last one says nothing. */
  ghost predicate Absent(ls: seq<Line>, name: string) { NoneNamed(ls, name) || Says(ls, name, "") }

  ghost predicate Expecting(ls: seq<Line>) {
    exists v :: Says(ls, "Expect", v) && SameIgnoringCase(v, "100-continue")
  }

  lemma {:induction false} KeysJoin(a: seq<Line>, b: seq<Line>)
    ensures Keys(a + b) == Keys(a) + Keys(b)
  {
    if a == [] {
      assert a + b == b;
    } else {
      assert (a + b)[1..] == a[1..] + b;
      KeysJoin(a[1..], b);
      Assoc([KeyOf(a[0])], Keys(a[1..]), Keys(b));
    }
  }

  lemma KeysLast(ls: seq<Line>)
    requires ls != []
    ensures var n := |ls| - 1; Keys(ls) == Keys(ls[..n]) + [KeyOf(ls[n])]
  {
    var n := |ls| - 1;
    KeysJoin(ls[..n], [ls[n]]);
    assert ls == ls[..n] + [ls[n]] && [ls[n]][1..] == [];
  }

  lemma GetLast(ls: seq<Line>, name: string)
    ensures Get(Keys(ls), name) ==
      if ls == [] then ""
      else if SameIgnoringCase(ls[|ls| - 1].name, name) then ls[|ls| - 1].value
      else Get(Keys(ls[..|ls| - 1]), name)
  {
    if ls != [] {
      KeysLast(ls);
      var front := Keys(ls[..|ls| - 1]);
      assert (front + [KeyOf(ls[|ls| - 1])])[..|front|] == front;
    }
  }

  /** The parser goes by the last field of a name. */
  lemma {:induction false} GetSaid(ls: seq<Line>, name: string)
    ensures NoneNamed(ls, name) ==> Get(Keys(ls), name) == ""
    ensures !NoneNamed(ls, name) ==> Says(ls, name, Get(Keys(ls), name))
    decreases |ls|
  {
    hide SameIgnoringCase;
    GetLast(ls, name);
    if ls != [] {
      var n := |ls| - 1;
      if SameIgnoringCase(ls[n].name, name) {
        assert ls[n] in ls && ls[n + 1..] == [];
      } else {
        GetSaid(ls[..n], name);
        if !NoneNamed(ls[..n], name) {
          SaysFront(ls, name, Get(Keys(ls), name));
        }
        assert forall l <- ls :: l in ls[..n] || l == ls[n];
        assert forall l <- ls[..n] :: l in ls;
      }
    }
  }

  lemma SaysFront(ls: seq<Line>, name: string, value: string)
    requires ls != [] && !SameIgnoringCase(ls[|ls| - 1].name, name) && Says(ls[..|ls| - 1], name, value)
    ensures Says(ls, name, value)
  {
    hide SameIgnoringCase;
    var n := |ls| - 1;
    var i :| 0 <= i < n && SameIgnoringCase(ls[..n][i].name, name) && ls[..n][i].value == value
      && NoneNamed(ls[..n][i + 1..], name);
    forall l <- ls[i + 1..] ensures !SameIgnoringCase(l.name, name) {
      var k :| i + 1 <= k < |ls| && ls[k] == l;
      assert k < n ==> ls[..n][i + 1..][k - i - 1] == l;
    }
    assert ls[i] == ls[..n][i];
  }

  lemma SaysOnce(ls: seq<Line>, name: string, value: string)
    requires Says(ls, name, value)
    ensures Get(Keys(ls), name) == value && !NoneNamed(ls, name)
  {
    hide SameIgnoringCase;
    var i :| 0 <= i < |ls| && SameIgnoringCase(ls[i].name, name) && ls[i].value == value
        && NoneNamed(ls[i + 1..], name);
    assert ls[i] in ls;
    GetSaid(ls, name);
    var v := Get(Keys(ls), name);
    var j :| 0 <= j < |ls| && SameIgnoringCase(ls[j].name, name) && ls[j].value == v && NoneNamed(ls[j + 1..], name);
    NoneBehind(ls, name, i);
    NoneBehind(ls, name, j);
  }

  lemma NoneBehind(ls: seq<Line>, name: string, i: nat)
    requires i < |ls| && NoneNamed(ls[i + 1..], name)
    ensures forall j | i < j < |ls| :: !SameIgnoringCase(ls[j].name, name)
  {
    forall j | i < j < |ls| ensures !SameIgnoringCase(ls[j].name, name) {
      assert ls[i + 1..][j - i - 1] in ls[i + 1..];
    }
  }

  lemma AbsentIff(ls: seq<Line>, name: string)
    ensures Absent(ls, name) <==> Get(Keys(ls), name) == ""
  {
    GetSaid(ls, name);
    if Says(ls, name, "") {
      SaysOnce(ls, name, "");
    }
  }

  lemma ExpectingIff(ls: seq<Line>)
    ensures Expecting(ls) <==> SameIgnoringCase(Get(Keys(ls), "Expect"), "100-continue")
  {
    hide SameIgnoringCase, Says, NoneNamed;
    GetSaid(ls, "Expect");
    NotEmpty("100-continue");
    if v :| Says(ls, "Expect", v) && SameIgnoringCase(v, "100-continue") {
      SaysOnce(ls, "Expect", v);
    }
  }

  lemma NotEmpty(s: string)
    requires s != ""
    ensures !SameIgnoringCase("", s)
  {
  }

  // ---------------------------------------------------------------- lengths

  predicate Zeros(s: string) { forall i | 0 <= i < |s| :: s[i] == '0' }

  predicate Digits(s: string) { forall i | 0 <= i < |s| :: '0' <= s[i] <= '9' }

  /** The decimal text of a number, with any zeros in front, is read as that number. */
  lemma {:induction false} DecimalRead(zeros: string, n: nat)
    requires Zeros(zeros)
    ensures Value(zeros + NatText(n)) == n && Digits(zeros + NatText(n))
    decreases n
  {
    hide Value, NatText;
    if n < 10 {
      ZerosRead(zeros);
      NatTextStep(n);
      OneDigit(zeros, n);
    } else {
      DecimalRead(zeros, n / 10);
      NatTextStep(n);
      Assoc(zeros, NatText(n / 10), [DIGITS[n % 10]]);
      OneDigit(zeros + NatText(n / 10), n % 10);
    }
  }

  lemma NatTextStep(n: nat)
    ensures NatText(n) == if n < 10 then [DIGITS[n]] else NatText(n / 10) + [DIGITS[n % 10]]
  {
  }

  lemma OneDigit(s: string, d: nat)
    requires d < 10 && Digits(s)
    ensures Value(s + [DIGITS[d]]) == 10 * Value(s) + d && Digits(s + [DIGITS[d]])
  {
    var t := s + [DIGITS[d]];
    assert t[..|t| - 1] == s && t[|t| - 1] == DIGITS[d];
    assert (DIGITS[d] - '0') as nat == d;
  }

  lemma {:induction false} ZerosRead(zeros: string)
    requires Zeros(zeros)
    ensures Value(zeros) == 0
    decreases |zeros|
  {
    if zeros != "" {
      ZerosRead(zeros[..|zeros| - 1]);
    }
  }

  lemma DigitAppended(m: nat, d: nat)
    requires 0 < m && d < 10
    ensures NatText(m) + [DIGITS[d]] == NatText(10 * m + d)
  {
    NatTextStep(10 * m + d);
    Quotient(10 * m + d, 10, m, d);
  }

  /** Every string of digits is such a text. */
  lemma {:induction false} DecimalWritten(s: string) returns (zeros: string, n: nat)
    requires s != "" && Digits(s)
    ensures Zeros(zeros) && s == zeros + NatText(n)
    decreases |s|
  {
    hide NatText;
    var front, last := s[..|s| - 1], s[|s| - 1];
    var d := (last - '0') as nat;
    assert DIGITS[d] == last && s == front + [last];
    NatTextStep(d);
    if front == "" {
      zeros, n := "", d;
    } else {
      var z, m := DecimalWritten(front);
      if m == 0 {
        zeros, n := front, d;
        NatTextStep(0);
      } else {
        zeros, n := z, 10 * m + d;
        DigitAppended(m, d);
        Assoc(z, NatText(m), [last]);
      }
    }
  }

  /** A length is read from digits alone, and is what they say. */
  lemma NumberIs(s: string)
    ensures Number(s).Some? <==> s != "" && Digits(s) && Value(s) < 0x1_0000_0000_0000_0000
  {
    if s != "" && Digits(s) {
      forall c <- s ensures '0' <= c <= '9' {
        var i :| 0 <= i < |s| && s[i] == c;
      }
    }
    if Number(s).Some? {
      forall i | 0 <= i < |s| ensures '0' <= s[i] <= '9' {
        assert s[i] in s;
      }
    }
  }

  // ---------------------------------------------------------------- the body

  /** A body of that length fits a body's limit, and with its head the read buffer. */
  predicate Fits(cfg: Config, w: Written, n: nat) {
    n < 0x1_0000_0000_0000_0000 && n <= cfg.maxBodyTotalSize && |HeadText(w)| + n <= cfg.maxReadBufferSize
  }

  /** A Content-Length of n, in digits: the body is the next n bytes, once they are there. A length that
      does not fit is refused. */
  lemma LengthFrames(cfg: Config, w: Written, rest: string, zeros: string, n: nat)
    requires Good(cfg, w) && |HeadText(w)| <= cfg.maxHeaderTotalSize
    requires Absent(w.lines, "Transfer-Encoding") && !Expecting(w.lines)
    requires Zeros(zeros) && Says(w.lines, "Content-Length", zeros + NatText(n))
    ensures Parse(cfg, HeadText(w) + rest) ==
      if !Fits(cfg, w, n) then Error
      else if |rest| < n then Incomplete
      else Success(Request(Stored(w), Keys(w.lines), rest[..n]))
  {
    hide Good, HeadText, Parse, Says, Absent, Expecting, Value, NatText, SameIgnoringCase;
    HeadDecides(cfg, w, rest);
    AbsentIff(w.lines, "Transfer-Encoding");
    ExpectingIff(w.lines);
    SaysOnce(w.lines, "Content-Length", zeros + NatText(n));
    DecimalRead(zeros, n);
    NumberIs(zeros + NatText(n));
    assert n == 0 ==> rest[..n] == "";
  }

  /** Without a Content-Length there is no body, whatever follows. */
  lemma NoLengthNoBody(cfg: Config, w: Written, rest: string)
    requires Good(cfg, w) && |HeadText(w)| <= cfg.maxHeaderTotalSize
    requires Absent(w.lines, "Transfer-Encoding") && Absent(w.lines, "Content-Length") && !Expecting(w.lines)
    ensures Parse(cfg, HeadText(w) + rest) == Success(Request(Stored(w), Keys(w.lines), ""))
  {
    hide Good, HeadText, Parse, Says, Absent, Expecting, Value, SameIgnoringCase;
    HeadDecides(cfg, w, rest);
    AbsentIff(w.lines, "Transfer-Encoding");
    AbsentIff(w.lines, "Content-Length");
    ExpectingIff(w.lines);
  }

  /** A Content-Length of anything but digits is refused. */
  lemma BadLength(cfg: Config, w: Written, rest: string, v: string, i: nat)
    requires Good(cfg, w) && Absent(w.lines, "Transfer-Encoding") && Says(w.lines, "Content-Length", v)
    requires i < |v| && !('0' <= v[i] <= '9')
    ensures Parse(cfg, HeadText(w) + rest) == Error
  {
    hide Good, HeadText, Parse, Says, Absent, Value, SameIgnoringCase;
    HeadDecides(cfg, w, rest);
    AbsentIff(w.lines, "Transfer-Encoding");
    SaysOnce(w.lines, "Content-Length", v);
    NumberIs(v);
  }

  /** A transfer coding is handed on if it is `chunked` and no length is given beside it, and refused
      otherwise. */
  lemma CodingFrames(cfg: Config, w: Written, rest: string, v: string)
    requires Good(cfg, w) && |HeadText(w)| <= cfg.maxHeaderTotalSize
    requires v != "" && Says(w.lines, "Transfer-Encoding", v)
    ensures Parse(cfg, HeadText(w) + rest) ==
      if Absent(w.lines, "Content-Length") && SameIgnoringCase(v, "chunked") then SidePath else Error
  {
    hide Good, HeadText, Parse, Says, Absent, Value, SameIgnoringCase, Number;
    HeadDecides(cfg, w, rest);
    SaysOnce(w.lines, "Transfer-Encoding", v);
    AbsentIff(w.lines, "Content-Length");
  }

  /** A client that waits to be told to go on is answered apart, unless its length is no number. */
  lemma ExpectFrames(cfg: Config, w: Written, rest: string)
    requires Good(cfg, w) && |HeadText(w)| <= cfg.maxHeaderTotalSize
    requires Absent(w.lines, "Transfer-Encoding") && Expecting(w.lines)
    ensures Parse(cfg, HeadText(w) + rest) == SidePath <==>
            || Absent(w.lines, "Content-Length")
            || exists zeros, n: nat :: Zeros(zeros) && n < 0x1_0000_0000_0000_0000
                                       && Says(w.lines, "Content-Length", zeros + NatText(n))
    ensures Parse(cfg, HeadText(w) + rest) == SidePath || Parse(cfg, HeadText(w) + rest) == Error
  {
    hide Good, HeadText, Parse, Says, Absent, Expecting, Value, SameIgnoringCase, NatText;
    HeadDecides(cfg, w, rest);
    AbsentIff(w.lines, "Transfer-Encoding");
    AbsentIff(w.lines, "Content-Length");
    ExpectingIff(w.lines);
    GetSaid(w.lines, "Content-Length");
    var v := Get(Keys(w.lines), "Content-Length");
    NumberIs(v);
    if v != "" && Number(v).Some? {
      var zeros, n := DecimalWritten(v);
      DecimalRead(zeros, n);
    }
    if zeros, n: nat :| Zeros(zeros) && n < 0x1_0000_0000_0000_0000
                        && Says(w.lines, "Content-Length", zeros + NatText(n))
    {
      SaysOnce(w.lines, "Content-Length", zeros + NatText(n));
      DecimalRead(zeros, n);
    }
  }

  /** A head over the limit is refused. */
  lemma LongHead(cfg: Config, w: Written, rest: string)
    requires Good(cfg, w) && |HeadText(w)| > cfg.maxHeaderTotalSize
    ensures Parse(cfg, HeadText(w) + rest) == Error
  {
    hide Good, HeadText, Parse, Plan;
    HeadDecides(cfg, w, rest);
  }

  /** A request with a Content-Length of n arrives in any pieces: the parser has it exactly when n bytes
      of body are there, and then its line, its fields and these n bytes. */
  method ReceiveRequest(cfg: Config, w: Written, arrivals: seq<string>, ghost rest: string, ghost zeros: string,
                        ghost n: nat) returns (p: RequestParser)
    requires ParserSpec.Sane(cfg) && arrivals != [] && forall a <- arrivals :: a != ""
    requires Received(arrivals, |arrivals|) == HeadText(w) + rest
    requires Good(cfg, w) && |HeadText(w)| <= cfg.maxHeaderTotalSize
    requires Absent(w.lines, "Transfer-Encoding") && !Expecting(w.lines)
    requires Zeros(zeros) && Says(w.lines, "Content-Length", zeros + NatText(n))
    ensures p.state.SUCCESS? <==> Fits(cfg, w, n) && |rest| >= n
    ensures p.state.SUCCESS? ==> p.Result() == Request(Stored(w), Keys(w.lines), rest[..n])
    ensures p.state.ERROR? <==> !Fits(cfg, w, n)
  {
    hide Good, HeadText, Parse, Says, Absent, Expecting, NatText, RequestParser.Valid;
    p := ParseArrivals(cfg, arrivals);
    LengthFrames(cfg, w, rest, zeros, n);
  }
}
