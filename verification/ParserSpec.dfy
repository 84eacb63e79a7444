/** What parsing a request must yield, as a function of the bytes received so far. */
module ParserSpec {
  import opened Helpers

  datatype Field = Field(key: string, value: string)

  /** A request line's parts, as they stand after normalizing the path. */
  datatype RequestLine = RequestLine(verb: string, path: string, version: string)

  datatype Request = Request(line: RequestLine, fields: seq<Field>, body: string)

  /** `SidePath` stands for requests with Expect: 100-continue or Transfer-Encoding. */
  datatype Verdict = Incomplete | Error | SidePath | Success(request: Request)

  /** Limits, and the tables and library functions the parser relies on. */
  datatype Config = Config(
    maxReadBufferSize: nat,
    maxBodyTotalSize: nat,
    maxHeaderTotalSize: nat,
    maxHeaderTotalCount: nat,
    knownMethod: string -> bool,
    knownVersion: string -> bool,
    normalize: string -> Option<string>)

  /** Normalizing a path, where it does not refuse it, never makes it longer. */
  ghost predicate Sane(cfg: Config) {
    forall s :: cfg.normalize(s).Some? ==> |cfg.normalize(s).value| <= |s|
  }

  // ---------------------------------------------------------------- scanning

  predicate BlankAt(s: string, i: nat) {
    i + 4 <= |s| && s[i] == '\r' && s[i + 1] == '\n' && s[i + 2] == '\r' && s[i + 3] == '\n'
  }

  /** Where the head ends: behind the first CR LF CR LF. */
  function HeaderEnd(s: string, from: nat): (r: Option<nat>)
    ensures r.Some? ==> from + 4 <= r.value <= |s| && BlankAt(s, r.value - 4) && forall i | from <= i < r.value - 4 ::
            !BlankAt(s, i)
    ensures r.None? ==> forall i | from <= i :: !BlankAt(s, i)
    decreases |s| - from
  {
    if from + 4 > |s| then None else if BlankAt(s, from) then Some(from + 4) else HeaderEnd(s, from + 1)
  }

  lemma HeaderEndIs(s: string, from: nat, i: nat)
    requires from <= i && BlankAt(s, i) && forall j | from <= j < i :: !BlankAt(s, j)
    ensures HeaderEnd(s, from) == Some(i + 4)
  {
    var r := HeaderEnd(s, from);
    assert r.Some? && r.value - 4 <= i;
  }

  /** Scanning from where nothing earlier matched finds what scanning from the start finds. */
  lemma HeaderEndFrom(s: string, from: nat)
    requires forall i | 0 <= i < from :: !BlankAt(s, i)
    ensures HeaderEnd(s, from) == HeaderEnd(s, 0)
  {
    var r := HeaderEnd(s, from);
    if r.Some? {
      HeaderEndIs(s, 0, r.value - 4);
    } else {
      var q := HeaderEnd(s, 0);
      assert q.None?;
    }
  }

  /** More bytes do not move the head's end. */
  lemma HeaderEndGrows(s: string, more: string)
    ensures HeaderEnd(s, 0).Some? ==> HeaderEnd(s + more, 0) == HeaderEnd(s, 0)
    ensures HeaderEnd(s, 0).None? && HeaderEnd(s + more, 0).Some? ==> HeaderEnd(s + more, 0).value > |s|
  {
    var r, q := HeaderEnd(s, 0), HeaderEnd(s + more, 0);
    assert forall i | 0 <= i && i + 4 <= |s| :: BlankAt(s + more, i) == BlankAt(s, i);
    if r.Some? {
      HeaderEndIs(s + more, 0, r.value - 4);
    }
  }

  /** The line at a position and where the next one begins. */
  function LineAt(s: string, from: nat): (r: Option<(string, nat)>)
    ensures r.Some? ==> from + |r.value.0| + 2 == r.value.1 <= |s|
  {
    var i := Find(s, '\r', from);
    if from >= |s| || i + 1 >= |s| || s[i + 1] != '\n' then None else Some((s[from..i], i + 2))
  }

  // ---------------------------------------------------------------- lines

  predicate TokenChar(c: char) {
    '0' <= c <= '9' || 'A' <= c <= 'Z' || 'a' <= c <= 'z' || c in "!#$%&'*+-.^_`|~"
  }

  /** The colon behind a field's name; None if the name is empty or not a token. */
  function FieldEnd(line: string): (r: Option<nat>)
    ensures r.Some? ==> 0 < r.value < |line| && line[r.value] == ':'
  {
    var i := TokenEnd(line, 0);
    if i == 0 || i >= |line| || line[i] != ':' then None else Some(i)
  }

  function TokenEnd(line: string, from: nat): (i: nat)
    ensures from <= |line| ==> from <= i <= |line|
    decreases |line| - from
  {
    if from >= |line| then |line| else if line[from] != ':' && TokenChar(line[from]) then TokenEnd(line, from + 1)
        else from
  }

  predicate Blank(c: char) { c == ' ' || c == '\t' }

  function TrimStart(s: string, from: nat): (i: nat)
    ensures from <= |s| ==> from <= i <= |s|
    decreases |s| - from
  {
    if from < |s| && Blank(s[from]) then TrimStart(s, from + 1) else from
  }

  function TrimEnd(s: string, start: nat, end: nat): (i: nat)
    requires start <= end <= |s|
    ensures start <= i <= end
  {
    if end > start && Blank(s[end - 1]) then TrimEnd(s, start, end - 1) else end
  }

  /** A value without the blanks around it, as offsets. */
  function TrimSpan(s: string): (r: (nat, nat))
    ensures r.0 <= r.1 <= |s|
  {
    var start := TrimStart(s, 0);
    (start, TrimEnd(s, start, |s|))
  }

  predicate FieldChar(c: char) { c == '\t' || (c >= ' ' && c != '\U{7F}') }

  predicate Sanitized(value: string) { forall i | 0 <= i < |value| :: FieldChar(value[i]) }

  function FieldOf(line: string): Option<Field> {
    var colon := FieldEnd(line);
    if colon.None? then None
    else
      var rest := line[colon.value + 1..];
      var (a, b) := TrimSpan(rest);
      if Sanitized(rest[a..b]) then Some(Field(line[..colon.value], rest[a..b])) else None
  }

  /** The fields from a position up to the empty line, and where that line ends. */
  function Fields(cfg: Config, s: string, pos: nat, count: nat): Option<(seq<Field>, nat)>
    requires count <= cfg.maxHeaderTotalCount
    decreases |s| - pos
  {
    var line := LineAt(s, pos);
    if line.None? then None
    else if line.value.0 == "" then Some(([], line.value.1))
    else
      var field := FieldOf(line.value.0);
      if field.None? || count + 1 > cfg.maxHeaderTotalCount then None
      else
        match Fields(cfg, s, line.value.1, count + 1)
        case None => None
        case Some(r) => Some(([field.value] + r.0, r.1))
  }

  /** The target as stored: a normalized path, and the query untouched. None when the path is one that
      normalizing refuses. */
  function Target(cfg: Config, raw: string): Option<string> {
    var q := Find(raw, '?', 0);
    match cfg.normalize(raw[..q])
    case None => None
    case Some(path) => Some(path + raw[q..])
  }

  function RequestLineOf(cfg: Config, line: string): Option<RequestLine> {
    var m := Find(line, ' ', 0);
    if m >= |line| || !cfg.knownMethod(line[..m]) then None
    else
      var p := Find(line, ' ', m + 1);
      if p >= |line| || p == m + 1 then None
      else
        var target := Target(cfg, line[m + 1..p]);
        if target.None? || !cfg.knownVersion(line[p + 1..]) then None
        else Some(RequestLine(line[..m], target.value, line[p + 1..]))
  }

  // ---------------------------------------------------------------- the verdict

  /** A field's value; of fields with the same name the last one counts. */
  function Get(fields: seq<Field>, name: string): string {
    if fields == [] then ""
    else
      var last := fields[|fields| - 1];
      if SameIgnoringCase(last.key, name) then last.value else Get(fields[..|fields| - 1], name)
  }

  function Number(s: string): Option<nat> {
    if s == "" || !(forall c <- s :: '0' <= c <= '9') || Value(s) >= 0x1_0000_0000_0000_0000 then None
        else Some(Value(s))
  }

  function Value(s: string): nat {
    if s == "" then 0
    else 10 * Value(s[..|s| - 1]) + (if '0' <= s[|s| - 1] <= '9' then (s[|s| - 1] - '0') as nat else 0)
  }

  /** How the body goes, once the head is read: `Wait` gives the length to wait for. */
  datatype BodyPlan = Refuse | Aside | NoBody | Wait(length: nat)

  function Plan(cfg: Config, fields: seq<Field>, headerEnd: nat): BodyPlan {
    var length, coding := Get(fields, "Content-Length"), Get(fields, "Transfer-Encoding");
    var awaits := SameIgnoringCase(Get(fields, "Expect"), "100-continue");
    if coding != "" && length != "" then Refuse
    else if coding != "" then (if SameIgnoringCase(coding, "chunked") then Aside else Refuse)
    else if length == "" then (if awaits then Aside else NoBody)
    else
      match Number(length)
      case None => Refuse
      case Some(n) =>
        if n > cfg.maxBodyTotalSize || n > cfg.maxReadBufferSize || headerEnd > cfg.maxReadBufferSize - n then
          (if awaits then Aside else Refuse)
        else if awaits then Aside
        else if n == 0 then NoBody
        else Wait(n)
  }

  /** The head's parts, up to its end. */
  function Head(cfg: Config, head: string): Option<(RequestLine, seq<Field>, nat)> {
    var first := LineAt(head, 0);
    if first.None? || RequestLineOf(cfg, first.value.0).None? then None
    else
      match Fields(cfg, head, first.value.1, 0)
      case None => None
      case Some(r) => Some((RequestLineOf(cfg, first.value.0).value, r.0, r.1))
  }

  /** The verdict on the bytes received so far, read at once. */
  function Parse(cfg: Config, text: string): Verdict {
    match HeaderEnd(text, 0)
    case None => if |text| > cfg.maxHeaderTotalSize then Error else Incomplete
    case Some(h) =>
      if h > cfg.maxHeaderTotalSize then Error
      else
        match Head(cfg, text[..h])
        case None => Error
        case Some(head) =>
          match Plan(cfg, head.1, h)
          case Refuse => Error
          case Aside => SidePath
          case NoBody => Success(Request(head.0, head.1, ""))
          case Wait(n) => if |text| < h + n then Incomplete else Success(Request(head.0, head.1, text[h..h + n]))
  }

  /** Once decided, a verdict is not changed by further bytes. */
  lemma VerdictStays(cfg: Config, text: string, more: string)
    requires !Parse(cfg, text).Incomplete?
    ensures Parse(cfg, text + more) == Parse(cfg, text)
  {
    hide HeaderEnd, Head, Plan;
    HeaderEndGrows(text, more);
    var r := HeaderEnd(text, 0);
    if r.Some? {
      var h := r.value;
      assert (text + more)[..h] == text[..h];
      if h <= cfg.maxHeaderTotalSize && Head(cfg, text[..h]).Some? {
        var plan := Plan(cfg, Head(cfg, text[..h]).value.1, h);
        if plan.Wait? {
          assert (text + more)[h..h + plan.length] == text[h..h + plan.length];
        }
      }
    }
  }

  /** Everything received in reads, one after another, up to and including the n-th. */
  function Received(arrivals: seq<string>, n: nat): string
    requires n <= |arrivals|
  {
    if n == 0 then "" else Received(arrivals, n - 1) + arrivals[n - 1]
  }

  // ---------------------------------------------------------------- the two ways to find the body

  /** The line loop stops exactly at the head's end: behind the first CR LF CR LF. */
  lemma {:induction false} FieldsEnd(cfg: Config, s: string, pos: nat, count: nat)
    requires count <= cfg.maxHeaderTotalCount && 2 <= pos <= |s| && s[pos - 2] == '\r' && s[pos - 1] == '\n'
    requires forall i | 0 <= i < pos - 2 :: !BlankAt(s, i)
    requires Fields(cfg, s, pos, count).Some?
    ensures HeaderEnd(s, 0) == Some(Fields(cfg, s, pos, count).value.1)
    decreases |s| - pos
  {
    var line := LineAt(s, pos).value;
    LineEnds(s, pos);
    if line.0 == "" {
      HeaderEndIs(s, 0, pos - 2);
    } else {
      FieldsEnd(cfg, s, line.1, count + 1);
    }
  }

  /** Behind a line break an empty line is a blank one, and any other has none before its own end. */
  lemma LineEnds(s: string, pos: nat)
    requires 2 <= pos <= |s| && s[pos - 2] == '\r' && s[pos - 1] == '\n' && LineAt(s, pos).Some?
    requires forall i | 0 <= i < pos - 2 :: !BlankAt(s, i)
    ensures var line := LineAt(s, pos).value;
            if line.0 == "" then BlankAt(s, pos - 2) && line.1 == pos + 2
            else
              && s[line.1 - 2] == '\r' && s[line.1 - 1] == '\n'
              && forall j | 0 <= j < line.1 - 2 :: !BlankAt(s, j)
  {
    var line, i := LineAt(s, pos).value, Find(s, '\r', pos);
    assert line.1 == i + 2;
    if line.0 != "" {
      forall j | 0 <= j < i ensures !BlankAt(s, j) {
        if j == pos - 2 {
          assert s[pos] != '\r';
        }
      }
    }
  }

  lemma HeadEnd(cfg: Config, head: string)
    requires Head(cfg, head).Some?
    ensures HeaderEnd(head, 0) == Some(Head(cfg, head).value.2)
  {
    var first := LineAt(head, 0).value;
    var i := Find(head, '\r', 0);
    assert first.1 == i + 2 && first.0 == head[0..i];
    forall j | 0 <= j < i ensures !BlankAt(head, j) {
    }
    FieldsEnd(cfg, head, first.1, 0);
  }

  /** Within the head, a line is found in the whole text where it is found in the head. */
  lemma {:induction false} LineInHead(text: string, h: nat, pos: nat)
    requires HeaderEnd(text, 0) == Some(h) && pos + 2 <= h
    ensures LineAt(text, pos) == LineAt(text[..h], pos)
  {
    hide HeaderEnd, Find;
    var head := text[..h];
    HeadBreak(text, h);
    var i := Find(head, '\r', pos);
    FindBefore(head, '\r', pos, h - 2);
    FindInFront(text, h, '\r', pos);
    assert text[pos..i] == head[pos..i] && text[i + 1] == head[i + 1];
  }

  lemma HeadBreak(text: string, h: nat)
    requires HeaderEnd(text, 0) == Some(h)
    ensures 4 <= h <= |text| && text[h - 2] == '\r'
  {
  }

  lemma {:induction false} FindBefore(s: string, c: char, from: nat, k: nat)
    requires from <= k < |s| && s[k] == c
    ensures Find(s, c, from) <= k
    decreases k - from
  {
    if s[from] != c {
      FindBefore(s, c, from + 1, k);
    }
  }

  lemma {:induction false} FindInFront(s: string, h: nat, c: char, from: nat)
    requires from <= h <= |s| && Find(s[..h], c, from) < h
    ensures Find(s, c, from) == Find(s[..h], c, from)
    decreases h - from
  {
    if from < h && s[from] != c {
      FindInFront(s, h, c, from + 1);
    }
  }

  /** The line behind a line that is not empty also begins within the head. */
  lemma {:induction false} NextLineInHead(text: string, h: nat, pos: nat)
    requires HeaderEnd(text, 0) == Some(h) && pos + 2 <= h && (pos > 0 ==> text[pos - 1] == '\n')
    requires LineAt(text, pos).Some? && LineAt(text, pos).value.0 != ""
    ensures LineAt(text, pos).value.1 + 2 <= h && text[LineAt(text, pos).value.1 - 1] == '\n'
  {
    var i := Find(text, '\r', pos);
    assert text[h - 4] == '\r' && text[h - 2] == '\r' && text[h - 3] == '\n';
    assert i <= h - 2;
    assert pos <= h - 4;
  }

  function Prepend(done: seq<Field>, r: Option<(seq<Field>, nat)>): Option<(seq<Field>, nat)> {
    match r
    case None => None
    case Some(p) => Some((done + p.0, p.1))
  }

  /** One line of the field loop. */
  lemma {:induction false} FieldsStep(cfg: Config, s: string, pos: nat, done: seq<Field>)
    requires |done| <= cfg.maxHeaderTotalCount
    ensures var line := LineAt(s, pos);
            && (line.None? ==> Prepend(done, Fields(cfg, s, pos, |done|)) == None)
            && (line.Some? && line.value.0 == "" ==>
                Prepend(done, Fields(cfg, s, pos, |done|)) == Some((done, line.value.1)))
            && (line.Some? && line.value.0 != ""
                && (FieldOf(line.value.0).None? || |done| + 1 > cfg.maxHeaderTotalCount) ==>
                  Prepend(done, Fields(cfg, s, pos, |done|)) == None)
            && (line.Some? && line.value.0 != "" && FieldOf(line.value.0).Some?
                && |done| + 1 <= cfg.maxHeaderTotalCount ==>
                  Prepend(done, Fields(cfg, s, pos, |done|))
                    == Prepend(done + [FieldOf(line.value.0).value], Fields(cfg, s, line.value.1, |done| + 1)))
  {
    var line := LineAt(s, pos);
    if line.Some? && line.value.0 == "" {
      assert done + [] == done;
    }
    if line.Some? && line.value.0 != "" && FieldOf(line.value.0).Some? && |done| + 1 <= cfg.maxHeaderTotalCount {
      var rest := Fields(cfg, s, line.value.1, |done| + 1);
      if rest.Some? {
        var f := FieldOf(line.value.0).value;
        assert done + ([f] + rest.value.0) == done + [f] + rest.value.0;
      }
    }
  }
}
