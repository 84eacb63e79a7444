/** The request parser: resumed at every read, its results are views into the buffer it writes to. */
module HttpParsers {
  import opened Helpers
  import opened ParserSpec

  datatype ParseState = IDLE | INCOMPLETE_HEADERS | INCOMPLETE_BODY | SUCCESS | ERROR | SIDE_PATH

  /** A stretch of the buffer. */
  datatype View = View(off: nat, len: nat) {
    predicate In(data: string) { off + len <= |data| }

    function Text(data: string): string
      requires In(data)
    {
      data[off..off + len]
    }
  }

  datatype FieldView = FieldView(key: View, value: View)

  /** The views stay below `limit` and read as the fields. */
  predicate ViewsRead(data: string, limit: nat, views: seq<FieldView>, fields: seq<Field>) {
    && |views| == |fields| && limit <= |data|
    && forall i | 0 <= i < |views| ::
         && views[i].key.off + views[i].key.len <= limit && views[i].value.off + views[i].value.len <= limit
         && views[i].key.Text(data) == fields[i].key && views[i].value.Text(data) == fields[i].value
  }

  lemma ViewsKept(data: string, data': string, limit: nat, views: seq<FieldView>, fields: seq<Field>, limit': nat)
    requires ViewsRead(data, limit, views, fields) && limit <= limit' <= |data'| && |data'| >= |data|
    requires data'[..limit] == data[..limit]
    ensures ViewsRead(data', limit', views, fields)
  {
    forall i | 0 <= i < |views|
      ensures views[i].key.Text(data') == views[i].key.Text(data)
              && views[i].value.Text(data') == views[i].value.Text(data)
    {
      ViewKept(data, data', limit, views[i].key);
      ViewKept(data, data', limit, views[i].value);
    }
  }

  lemma ViewKept(data: string, data': string, limit: nat, v: View)
    requires v.off + v.len <= limit <= |data| <= |data'| && data'[..limit] == data[..limit]
    ensures v.Text(data') == v.Text(data)
  {
    Within(data, 0, limit, v.off, v.off + v.len);
    Within(data', 0, limit, v.off, v.off + v.len);
    assert data[0..limit] == data[..limit] && data'[0..limit] == data'[..limit];
  }

  // ---------------------------------------------------------------- loops over characters

  /** Behind the first CR LF CR LF at or after `from`. */
  method SafeFindHeaderEnd(data: string, from: nat) returns (r: Option<nat>)
    ensures r == HeaderEnd(data, from)
  {
    if |data| < 4 || from >= |data| - 3 {
      return None;
    }
    var p := from;
    while p < |data| - 3
      invariant from <= p <= |data| - 3 && HeaderEnd(data, from) == HeaderEnd(data, p)
    {
      if data[p] == '\r' && data[p + 1] == '\n' && data[p + 2] == '\r' && data[p + 3] == '\n' {
        return Some(p + 4);
      }
      p := p + 1;
    }
    return None;
  }

  method FindFieldEnd(line: string) returns (r: Option<nat>)
    ensures r == FieldEnd(line)
  {
    var at := 0;
    while at < |line| && line[at] != ':'
      invariant at <= |line| && TokenEnd(line, 0) == TokenEnd(line, at)
    {
      if !TokenChar(line[at]) {
        return None;
      }
      at := at + 1;
    }
    r := if at == 0 || at == |line| then None else Some(at);
  }

  method Trim(s: string) returns (start: nat, end: nat)
    ensures (start, end) == TrimSpan(s)
  {
    start := 0;
    while start < |s| && Blank(s[start])
      invariant start <= |s| && TrimStart(s, 0) == TrimStart(s, start)
    {
      start := start + 1;
    }
    end := |s|;
    while end > start && Blank(s[end - 1])
      invariant start <= end <= |s| && TrimEnd(s, start, |s|) == TrimEnd(s, start, end)
    {
      end := end - 1;
    }
  }

  method IsFieldSanitized(value: string) returns (ok: bool)
    ensures ok == Sanitized(value)
  {
    var bad, i := false, 0;
    while i < |value|
      invariant i <= |value| && (bad <==> exists j | 0 <= j < i :: !FieldChar(value[j]))
    {
      bad := bad || (value[i] < ' ' && value[i] != '\t') || value[i] == '\U{7F}';
      assert FieldChar(value[i]) <==> !((value[i] < ' ' && value[i] != '\t') || value[i] == '\U{7F}');
      i := i + 1;
    }
    ok := !bad;
  }

  /** A request's head and body as they are read off a connection. */
  class RequestParser {
    const cfg: Config
    var data: string             // the read buffer, written to in place
    var state: ParseState
    var trackBytes: nat
    var expectedBodyLength: nat
    var verb: string
    var version: string
    var path: View
    var fields: seq<FieldView>
    var body: View
    ghost var text: string       // the bytes as they came in
    ghost var headEnd: nat       // once the head has been read: where it ended and what it said
    ghost var head: (RequestLine, seq<Field>)

    constructor (cfg: Config)
      requires Sane(cfg)
      ensures this.cfg == cfg && state == IDLE && data == text == "" && trackBytes == 0
    {
      this.cfg := cfg;
      data, state, trackBytes, expectedBodyLength, text := "", IDLE, 0, 0, "";
      verb, version, path, fields, body := "", "", View(0, 0), [], View(0, 0);
      headEnd, head := 0, (RequestLine("", "", ""), []);
    }

    /** The head has been read: the views say what it said, and what follows it is untouched. */
    ghost predicate HeadRead(h: nat, line: RequestLine, fs: seq<Field>)
      reads this
    {
      && |data| == |text| && HeaderEnd(text, 0) == Some(h) && data[h..] == text[h..]
      && verb == line.verb && version == line.version && path.off + path.len <= h && path.Text(data) == line.path
      && ViewsRead(data, h, fields, fs)
    }

    /** Where the target stands in a request line, and what it is normalized to. */
    method SplitLine(line: string) returns (r: Option<(nat, nat, string)>)
      ensures r.Some? <==> RequestLineOf(cfg, line).Some?
      ensures r.Some? ==>
                var (m, p, target) := r.value;
                && m + 1 < p < |line| && Target(cfg, line[m + 1..p]) == Some(target)
                && RequestLineOf(cfg, line) == Some(RequestLine(line[..m], target, line[p + 1..]))
    {
      var m := Find(line, ' ', 0);
      if m >= |line| || !cfg.knownMethod(line[..m]) {
        return None;
      }
      var p := Find(line, ' ', m + 1);
      if p >= |line| || p == m + 1 {
        return None;
      }
      var target := Target(cfg, line[m + 1..p]);
      if target.None? || !cfg.knownVersion(line[p + 1..]) {
        return None;
      }
      return Some((m, p, target.value));
    }

    /** Reads the request line at the front and normalizes its path in place. */
    method ParseRequest(h: nat) returns (pos: Option<nat>)
      requires Sane(cfg) && data == text && HeaderEnd(text, 0) == Some(h)
      modifies this`data, this`verb, this`version, this`path
      ensures var line := LineAt(text[..h], 0);
              pos.Some? <==> line.Some? && RequestLineOf(cfg, line.value.0).Some?
      ensures |data| == |text|
      ensures pos.Some? ==>
                var line := LineAt(text[..h], 0).value;
                && pos.value == line.1 && |data| == |text| && data[line.1..] == text[line.1..] && line.1 + 2 <= h
                    && text[line.1 - 1] == '\n'
                && path.off + path.len <= line.1
                && RequestLine(verb, path.Text(data), version) == RequestLineOf(cfg, line.0).value
    {
      hide LineAt, RequestLineOf, Find, Target, HeaderEnd, Overwritten;
      LineInHead(text, h, 0);
      var found := LineAt(data, 0);
      if found.None? {
        return None;
      }
      var (line, next) := found.value;
      var split := SplitLine(line);
      if split.None? {
        return None;
      }
      var (m, p, target) := split.value;
      NextLineInHead(text, h, 0);
      verb, version := line[..m], line[p + 1..];
      TargetShrinks(cfg, line[m + 1..p]);
      path := View(m + 1, |target|);
      data := Overwritten(data, m + 1, target);
      Overwrite(text, m + 1, target, next);
      LineBreak(text, h, next);
      return Some(next);
    }

    /** Stores a field line's key and value as views, and ends both in place with a NUL: on the colon
        and behind the value, within the line and its end. */
    method ParseField(pos: nat, line: string) returns (v: Option<FieldView>)
      requires pos + |line| + 2 <= |data| && data[pos..pos + |line|] == line
      modifies this`data
      ensures v.Some? <==> FieldOf(line).Some?
      ensures |data| == |old(data)| && data[..pos] == old(data)[..pos]
              && data[pos + |line| + 2..] == old(data)[pos + |line| + 2..]
      ensures v.Some? ==>
                && v.value.key.off + v.value.key.len <= pos + |line|
                    && v.value.value.off + v.value.value.len <= pos + |line|
                && Field(v.value.key.Text(data), v.value.value.Text(data)) == FieldOf(line).value
    {
      hide FieldEnd, TrimSpan, Sanitized;
      var colon := FindFieldEnd(line);
      if colon.None? {
        return None;
      }
      var rest := line[colon.value + 1..];
      var a, b := Trim(rest);
      var val := rest[a..b];
      var clean := IsFieldSanitized(val);
      if !clean {
        return None;
      }
      var key, value := View(pos, colon.value), View(pos + colon.value + 1 + a, b - a);
      TwoNuls(data, pos, line, colon.value, a, b);
      data := data[pos + colon.value := '\0'];
      data := data[value.off + value.len := '\0'];
      return Some(FieldView(key, value));
    }

    /** Reads the fields up to the empty line. */
    method ParseHeaders(h: nat, start: nat) returns (pos: Option<nat>, ghost fs: seq<Field>)
      requires |data| == |text| && HeaderEnd(text, 0) == Some(h) && 2 <= start && start + 2 <= h
              && text[start - 1] == '\n' && data[start..] == text[start..]
      modifies this`data, this`fields
      ensures |data| == |text| && data[..start] == old(data)[..start]
      ensures pos.Some? <==> Fields(cfg, text[..h], start, 0).Some?
      ensures pos.Some? ==> Fields(cfg, text[..h], start, 0) == Some((fs, pos.value)) && start <= pos.value <= |data|
                            && data[pos.value..] == text[pos.value..] && ViewsRead(data, pos.value, fields, fs)
    {
      hide LineAt, HeaderEnd, FieldOf, ViewsRead, Fields;
      var at, headerCount := start, 0;
      fields, fs := [], [];
      ghost var all := Fields(cfg, text[..h], start, 0);
      PrependNothing(all);
      NoViews(data, start);
      while true
        invariant |data| == |text| && start <= at && at + 2 <= h && text[at - 1] == '\n' && data[at..] == text[at..]
                && data[..start] == old(data)[..start]
        invariant headerCount == |fs| <= cfg.maxHeaderTotalCount
        invariant ViewsRead(data, at, fields, fs) && all == Prepend(fs, Fields(cfg, text[..h], at, |fs|))
        decreases |text| - at
      {
        LineInHead(text, h, at);
        LineBehind(text, data, at);
        FieldsStep(cfg, text[..h], at, fs);
        var found := LineAt(data, at);
        if found.None? {
          return None, fs;
        }
        var (line, next) := found.value;
        if line == "" {
          EmptyLine(data, text, at, next, fields, fs);
          return Some(next), fs;
        }
        NextLineInHead(text, h, at);
        LineText(data, at);
        ghost var before := data;
        var v := ParseField(at, line);
        if v.None? {
          return None, fs;
        }
        headerCount := headerCount + 1;
        if headerCount > cfg.maxHeaderTotalCount {
          return None, fs;
        }
        ViewsAdd(before, data, at, fields, fs, v.value, FieldOf(line).value, next);
        AroundKept(before, data, text, start, at, next);
        fields := fields + [v.value];
        fs := fs + [FieldOf(line).value];
        at := next;
      }
    }

    // ---------------------------------------------------------------- reads

    /** What holds between reads, by state. */
    ghost predicate Valid()
      reads this
    {
      && Sane(cfg) && |data| == |text|
      && (state.IDLE? ==> text == "" && trackBytes == 0)
      && (state.IDLE? || state.INCOMPLETE_HEADERS? ==>
          data == text && Scanned() && (text != "" ==> ParserSpec.Parse(cfg, text).Incomplete?))
      && (state.INCOMPLETE_BODY? ==>
            HeadRead(headEnd, head.0, head.1) && Awaits() && |text| < trackBytes)
      && (state.SUCCESS? ==> ParserSpec.Parse(cfg, text) == Success(Result()))
      && (state.ERROR? ==> ParserSpec.Parse(cfg, text).Error?)
      && (state.SIDE_PATH? ==> ParserSpec.Parse(cfg, text).SidePath?)
    }

    /** The head asks for a body that ends at `trackBytes`. */
    ghost predicate Awaits()
      reads this
    {
      && headEnd <= cfg.maxHeaderTotalSize && headEnd <= |text|
          && Head(cfg, text[..headEnd]) == Some((head.0, head.1, headEnd))
      && Plan(cfg, head.1, headEnd) == Wait(expectedBodyLength) && trackBytes == headEnd + expectedBodyLength
    }

    /** No head ends where the scan has been; it backed off three bytes, for an end across two reads. */
    ghost predicate Scanned()
      reads this
    {
      NothingBefore(text, trackBytes) && (trackBytes == 0 || trackBytes + 3 <= |text|)
    }

    /** The request as the views read it out of the buffer. */
    function Result(): Request
      reads this
    {
      Request(
        RequestLine(verb, if path.In(data) then path.Text(data) else "", version),
        seq(|fields|, i requires 0 <= i < |fields| reads this => FieldText(fields[i])),
        if body.In(data) then body.Text(data) else "")
    }

    function FieldText(v: FieldView): Field
      reads this
    {
      Field(if v.key.In(data) then v.key.Text(data) else "", if v.value.In(data) then v.value.Text(data) else "")
    }

    lemma ResultIs(h: nat, line: RequestLine, fs: seq<Field>, b: string)
      requires HeadRead(h, line, fs) && body.off + body.len <= |data| && body.Text(data) == b
      ensures Result() == Request(line, fs, b)
    {
    }

    /** Bytes arrive. */
    method Receive(bytes: string)
      requires Valid() && (state.IDLE? || state.INCOMPLETE_HEADERS? || state.INCOMPLETE_BODY?)
      modifies this`data, this`text
      ensures Receiving() && text == old(text) + bytes
    {
      hide HeaderEnd, ViewsRead, Head, Plan, ParserSpec.Parse;
      ghost var before, t := data, text;
      data := data + bytes;
      text := text + bytes;
      if state.INCOMPLETE_BODY? {
        HeaderEndGrows(t, bytes);
        HeadKept(before, data, t, text, headEnd, bytes);
        ViewsKept(before, data, headEnd, fields, head.1, headEnd);
        ViewKept(before, data, headEnd, path);
      } else {
        NothingGrows(t, bytes, trackBytes);
      }
    }

    /** After bytes have arrived, before they are parsed. */
    ghost predicate Receiving()
      reads this
    {
      && Sane(cfg) && |data| == |text|
      && (state.IDLE? || state.INCOMPLETE_HEADERS? || state.INCOMPLETE_BODY?)
      && (state.IDLE? || state.INCOMPLETE_HEADERS? ==> data == text && Scanned())
      && (state.INCOMPLETE_BODY? ==> HeadRead(headEnd, head.0, head.1) && Awaits())
    }

    /** The state a verdict is reported as. */
    ghost predicate Reports(v: Verdict)
      reads this
    {
      match v
      case Incomplete => state.INCOMPLETE_HEADERS? || state.INCOMPLETE_BODY?
      case Error => state.ERROR?
      case SidePath => state.SIDE_PATH?
      case Success(_) => state.SUCCESS?
    }

    /** Parses what has been received, going on from where the last read left off. The outcome, and a
        request's contents as its views read them, are those of reading all bytes at once. */
    method Parse()
      requires Receiving() && text != ""
      modifies this
      ensures Valid() && text == old(text) && Reports(ParserSpec.Parse(cfg, text))
    {
      hide HeaderEnd, Head, Plan, ViewsRead, ParserSpec.Parse;
      if state.INCOMPLETE_BODY? {
        if |data| < trackBytes {
          ParseWaits(cfg, text, headEnd, head.0, head.1, expectedBodyLength);
          return;
        }
        ParseBody(trackBytes - expectedBodyLength, expectedBodyLength);
        return;
      }
      HeaderEndFrom(text, trackBytes);
      var headerEnd := SafeFindHeaderEnd(data, trackBytes);
      if headerEnd.None? {
        ParseHeadless(cfg, text);
        if |data| > cfg.maxHeaderTotalSize {
          state := ERROR;
          return;
        }
        trackBytes := if |data| >= 3 then |data| - 3 else 0;
        state := INCOMPLETE_HEADERS;
        return;
      }
      if headerEnd.value > cfg.maxHeaderTotalSize {
        ParseTooLong(cfg, text, headerEnd.value);
        state := ERROR;
        return;
      }
      trackBytes := headerEnd.value;
      ParseHead(headerEnd.value);
    }

    /** Reads a complete head, and decides how its body goes. */
    method ParseHead(h: nat)
      requires Sane(cfg) && data == text && HeaderEnd(text, 0) == Some(h) && h <= cfg.maxHeaderTotalSize
              && trackBytes == h
      modifies this
      ensures Valid() && text == old(text) && Reports(ParserSpec.Parse(cfg, text))
    {
      hide HeaderEnd, Plan, ViewsRead, ParserSpec.Parse, RequestLineOf, Fields, LineAt;
      HeadFits(text, h);
      HeadParts(cfg, text[..h]);
      var pos := ParseRequest(h);
      if pos.None? {
        ParseBadHead(cfg, text, h);
        state := ERROR;
        return;
      }
      ghost var start, before, line := pos.value, data, RequestLine(verb, path.Text(data), version);
      var end;
      ghost var fs;
      LineLength(text[..h], 0);
      end, fs := ParseHeaders(h, pos.value);
      if end.None? {
        ParseBadHead(cfg, text, h);
        state := ERROR;
        return;
      }
      ViewKept(before, data, start, path);
      HeadEndAt(cfg, text, h);
      headEnd, head := h, (line, fs);
      DecideBody(h);
    }

    /** The fields say how long the body is, and whether it is there. */
    method DecideBody(h: nat)
      requires Sane(cfg) && h <= cfg.maxHeaderTotalSize && trackBytes == h == headEnd && HeadRead(h, head.0, head.1)
      requires h <= |text| && Head(cfg, text[..h]) == Some((head.0, head.1, h))
      modifies this`state, this`trackBytes, this`expectedBodyLength, this`body
      ensures Valid() && Reports(ParserSpec.Parse(cfg, text))
    {
      hide HeaderEnd, Plan, ViewsRead, ParserSpec.Parse, Head;
      var texts := seq(|fields|, i requires 0 <= i < |fields| reads this => FieldText(fields[i]));
      FieldsRead(texts);
      var plan := Plan(cfg, texts, h);
      ParsePlanned(cfg, text, h, head.0, head.1);
      match plan {
        case Refuse => state := ERROR;
        case Aside => state := SIDE_PATH;
        case NoBody =>
          body := View(0, 0);
          ResultIs(h, head.0, head.1, "");
          state := SUCCESS;
        case Wait(n) =>
          if |data| - trackBytes < n {
            trackBytes, expectedBodyLength := h + n, n;
            state := INCOMPLETE_BODY;
          } else {
            body := View(h, n);
            BodyText(data, text, h, n);
            ResultIs(h, head.0, head.1, text[h..h + n]);
            state := SUCCESS;
          }
      }
    }

    lemma FieldsRead(texts: seq<Field>)
      requires HeadRead(headEnd, head.0, head.1)
      requires |texts| == |fields| && forall i | 0 <= i < |texts| :: texts[i] == FieldText(fields[i])
      ensures texts == head.1
    {
    }

    /** The body is complete: it stands behind the head. */
    method ParseBody(pos: nat, contentLen: nat)
      requires Receiving() && state.INCOMPLETE_BODY? && trackBytes <= |data| && pos == trackBytes - expectedBodyLength
              && contentLen == expectedBodyLength
      modifies this`state, this`body
      ensures Valid() && state == SUCCESS && ParserSpec.Parse(cfg, text).Success?
    {
      hide HeaderEnd, Plan, ViewsRead, ParserSpec.Parse, Head;
      body := View(pos, contentLen);
      ParseWaits(cfg, text, headEnd, head.0, head.1, expectedBodyLength);
      BodyText(data, text, headEnd, contentLen);
      ResultIs(headEnd, head.0, head.1, text[headEnd..headEnd + contentLen]);
      state := SUCCESS;
    }
  }

  lemma BodyText(data: string, text: string, h: nat, n: nat)
    requires |data| == |text| && h + n <= |text| && data[h..] == text[h..]
    ensures data[h..h + n] == text[h..h + n]
  {
    assert data[h..][..n] == text[h..][..n];
  }

  lemma LineLength(s: string, from: nat)
    requires LineAt(s, from).Some?
    ensures LineAt(s, from).value.1 >= 2
  {
  }

  lemma HeadFits(text: string, h: nat)
    requires HeaderEnd(text, 0) == Some(h)
    ensures 4 <= h <= |text|
  {
  }

  lemma HeadParts(cfg: Config, head: string)
    ensures var first := LineAt(head, 0);
            Head(cfg, head) == if first.None? || RequestLineOf(cfg, first.value.0).None? then None
                               else match Fields(cfg, head, first.value.1, 0)
                                    case None => None
                                    case Some(r) => Some((RequestLineOf(cfg, first.value.0).value, r.0, r.1))
  {
  }

  lemma HeadEndAt(cfg: Config, text: string, h: nat)
    requires HeaderEnd(text, 0) == Some(h) && h <= |text| && Head(cfg, text[..h]).Some?
    ensures Head(cfg, text[..h]).value.2 == h
  {
    hide HeaderEnd, Head;
    HeadEnd(cfg, text[..h]);
    HeaderEndCut(text, h);
  }

  lemma HeaderEndCut(text: string, h: nat)
    requires HeaderEnd(text, 0) == Some(h) && h <= |text|
    ensures HeaderEnd(text[..h], 0) == Some(h)
  {
    var cut := text[..h];
    forall i | 0 <= i && i + 4 <= h ensures BlankAt(cut, i) == BlankAt(text, i) {
    }
    HeaderEndIs(cut, 0, h - 4);
  }

  // What the whole text's verdict is, case by case.

  lemma ParseHeadless(cfg: Config, text: string)
    requires HeaderEnd(text, 0).None?
    ensures ParserSpec.Parse(cfg, text) == if |text| > cfg.maxHeaderTotalSize then Error else Incomplete
    ensures forall n :: NothingBefore(text, n)
  {
  }

  lemma ParseTooLong(cfg: Config, text: string, h: nat)
    requires HeaderEnd(text, 0) == Some(h) && h > cfg.maxHeaderTotalSize
    ensures ParserSpec.Parse(cfg, text) == Error
  {
  }

  lemma ParseBadHead(cfg: Config, text: string, h: nat)
    requires HeaderEnd(text, 0) == Some(h) && h <= cfg.maxHeaderTotalSize && h <= |text| && Head(cfg, text[..h]).None?
    ensures ParserSpec.Parse(cfg, text) == Error
  {
  }

  lemma {:induction false} ParsePlanned(cfg: Config, text: string, h: nat, line: RequestLine, fs: seq<Field>)
    requires HeaderEnd(text, 0) == Some(h) && h <= cfg.maxHeaderTotalSize && h <= |text|
            && Head(cfg, text[..h]) == Some((line, fs, h))
    ensures ParserSpec.Parse(cfg, text) ==
              match Plan(cfg, fs, h)
              case Refuse => Error
              case Aside => SidePath
              case NoBody => Success(Request(line, fs, ""))
              case Wait(n) => if |text| < h + n then Incomplete else Success(Request(line, fs, text[h..h + n]))
  {
    hide HeaderEnd, Head, Plan;
  }

  lemma {:induction false} ParseWaits(cfg: Config, text: string, h: nat, line: RequestLine, fs: seq<Field>, n: nat)
    requires HeaderEnd(text, 0) == Some(h) && h <= cfg.maxHeaderTotalSize && h <= |text|
            && Head(cfg, text[..h]) == Some((line, fs, h))
    requires Plan(cfg, fs, h) == Wait(n)
    ensures ParserSpec.Parse(cfg, text) == if |text| < h + n then Incomplete
            else Success(Request(line, fs, text[h..h + n]))
  {
    hide *;
    ParsePlanned(cfg, text, h, line, fs);
  }

  /** No head ends within the bytes scanned so far. */
  ghost predicate NothingBefore(text: string, n: nat) {
    forall i | 0 <= i < n :: !BlankAt(text, i)
  }

  lemma NothingGrows(text: string, more: string, n: nat)
    requires NothingBefore(text, n) && (n == 0 || n + 3 <= |text|)
    ensures NothingBefore(text + more, n)
  {
    forall i | 0 <= i < n ensures !BlankAt(text + more, i) {
      assert BlankAt(text + more, i) == BlankAt(text, i);
    }
  }

  lemma HeadKept(data: string, data': string, text: string, text': string, h: nat, more: string)
    requires |data| == |text| && h <= |text| && data' == data + more && text' == text + more && data[h..] == text[h..]
    ensures data'[h..] == text'[h..] && data'[..h] == data[..h] && text'[..h] == text[..h]
  {
    assert data'[h..] == data[h..] + more && text'[h..] == text[h..] + more;
  }

  lemma NoViews(data: string, limit: nat)
    requires limit <= |data|
    ensures ViewsRead(data, limit, [], [])
  {
  }

  lemma PrependNothing(r: Option<(seq<Field>, nat)>)
    ensures Prepend([], r) == r
  {
    if r.Some? {
      assert [] + r.value.0 == r.value.0;
    }
  }

  /** A line depends on the text from its position on only. */
  lemma {:induction false} CRBehind(s: string, t: string, pos: nat, from: nat)
    requires |s| == |t| && pos <= from <= |s| && s[pos..] == t[pos..]
    ensures Find(s, '\r', from) == Find(t, '\r', from)
    decreases |s| - from
  {
    if from < |s| {
      assert s[pos..][from - pos] == t[pos..][from - pos];
      CRBehind(s, t, pos, from + 1);
    }
  }

  lemma LineBehind(s: string, t: string, pos: nat)
    requires |s| == |t| && pos <= |s| && s[pos..] == t[pos..]
    ensures LineAt(s, pos) == LineAt(t, pos)
  {
    CRBehind(s, t, pos, pos);
    var i := Find(s, '\r', pos);
    assert s[pos..i] == s[pos..][..i - pos] && t[pos..i] == t[pos..][..i - pos];
    if i + 1 < |s| {
      assert s[i + 1] == s[pos..][i + 1 - pos] && t[i + 1] == t[pos..][i + 1 - pos];
    }
  }

  /** A line was changed in place: what stands before and behind it is as it was. */
  lemma AroundKept(before: string, data: string, text: string, start: nat, at: nat, next: nat)
    requires |before| == |data| == |text| && start <= at <= next <= |data|
    requires data[..at] == before[..at] && data[next..] == before[next..] && before[at..] == text[at..]
    ensures data[..start] == before[..start] && data[next..] == text[next..]
  {
    assert data[..start] == data[..at][..start] && before[..start] == before[..at][..start];
    assert before[next..] == before[at..][next - at..] && text[next..] == text[at..][next - at..];
  }

  lemma LineText(s: string, pos: nat)
    requires LineAt(s, pos).Some?
    ensures var line := LineAt(s, pos).value.0; pos + |line| <= |s| && s[pos..pos + |line|] == line
  {
  }

  lemma EmptyLine(data: string, text: string, at: nat, next: nat, views: seq<FieldView>, fs: seq<Field>)
    requires |data| == |text| && at <= next <= |data| && data[at..] == text[at..] && ViewsRead(data, at, views, fs)
    ensures data[next..] == text[next..] && ViewsRead(data, next, views, fs)
  {
    assert data[next..] == data[at..][next - at..] && text[next..] == text[at..][next - at..];
    ViewsKept(data, data, at, views, fs, next);
  }

  lemma ViewsAdd(before: string, data: string, at: nat, views: seq<FieldView>, fs: seq<Field>, v: FieldView, f: Field,
                 next: nat)
    requires ViewsRead(before, at, views, fs) && |data| == |before| && data[..at] == before[..at]
            && at <= next <= |data|
    requires v.key.off + v.key.len <= next && v.value.off + v.value.len <= next
    requires Field(v.key.Text(data), v.value.Text(data)) == f
    ensures ViewsRead(data, next, views + [v], fs + [f])
  {
    ViewsKept(before, data, at, views, fs, next);
  }

  /** The two NULs touch neither the key nor the value, nor anything before or behind the line. */
  lemma TwoNuls(data: string, pos: nat, line: string, colon: nat, a: nat, b: nat)
    requires pos + |line| + 2 <= |data| && data[pos..pos + |line|] == line && colon < |line|
            && a <= b <= |line| - colon - 1
    ensures var end := pos + colon + 1 + b;
            var data' := data[pos + colon := '\0'][end := '\0'];
            && |data'| == |data| && data'[..pos] == data[..pos] && data'[pos + |line| + 2..] == data[pos + |line| + 2..]
            && data'[pos..pos + colon] == line[..colon] && data'[pos + colon + 1 + a..end] == line[colon + 1..][a..b]
  {
    var end := pos + colon + 1 + b;
    var data1 := data[pos + colon := '\0'];
    var data' := data1[end := '\0'];
    var from := pos + colon + 1 + a;
    Untouched(data, pos + colon, '\0', 0, pos);
    Untouched(data1, end, '\0', 0, pos);
    Untouched(data, pos + colon, '\0', pos, pos + colon);
    Untouched(data1, end, '\0', pos, pos + colon);
    Untouched(data, pos + colon, '\0', from, end);
    Untouched(data1, end, '\0', from, end);
    Untouched(data, pos + colon, '\0', pos + |line| + 2, |data|);
    Untouched(data1, end, '\0', pos + |line| + 2, |data|);
    Within(data, pos, pos + |line|, 0, colon);
    Within(data, pos, pos + |line|, colon + 1 + a, colon + 1 + b);
    Within(line, colon + 1, |line|, a, b);
  }

  lemma Untouched(s: string, i: nat, c: char, x: nat, y: nat)
    requires i < |s| && x <= y <= |s| && !(x <= i < y)
    ensures s[i := c][x..y] == s[x..y]
  {
  }

  lemma Within(s: string, a: nat, b: nat, x: nat, y: nat)
    requires a <= b <= |s| && x <= y <= b - a
    ensures s[a..b][x..y] == s[a + x..a + y]
  {
    assert forall i | 0 <= i < y - x :: s[a..b][x..y][i] == s[a + x..a + y][i];
  }

  /** A string with a stretch replaced in place. */
  function Overwritten(s: string, at: nat, t: string): string
    requires at + |t| <= |s|
  {
    s[..at] + t + s[at + |t|..]
  }

  lemma Overwrite(s: string, at: nat, t: string, after: nat)
    requires at + |t| <= after <= |s|
    ensures var s' := Overwritten(s, at, t);
            |s'| == |s| && s'[at..at + |t|] == t && s'[after..] == s[after..] && s'[..at] == s[..at]
  {
  }

  lemma LineBreak(text: string, h: nat, next: nat)
    requires h <= |text| && LineAt(text[..h], 0).Some? && LineAt(text[..h], 0).value.1 == next
    ensures 0 < next <= h && text[next - 1] == '\n'
  {
    var head := text[..h];
    var i := Find(head, '\r', 0);
    assert next == i + 2 && head[i + 1] == '\n';
    assert head[i + 1] == text[i + 1];
  }

  lemma TargetShrinks(cfg: Config, raw: string)
    requires Sane(cfg) && Target(cfg, raw).Some?
    ensures |Target(cfg, raw).value| <= |raw|
  {
    var q := Find(raw, '?', 0);
    assert |cfg.normalize(raw[..q]).value| <= |raw[..q]|;
  }

  /** A connection that delivers a request in any pieces: the parser is fed one piece after another
      until it decides. Its verdict, and the request it then holds, are those of one read of all the
      bytes, however they were split. */
  method ParseArrivals(cfg: Config, arrivals: seq<string>) returns (p: RequestParser)
    requires Sane(cfg) && arrivals != [] && forall a <- arrivals :: a != ""
    ensures p.Valid() && fresh(p)
    ensures var all := Received(arrivals, |arrivals|);
            && p.Reports(ParserSpec.Parse(cfg, all))
            && (p.state.SUCCESS? ==> ParserSpec.Parse(cfg, all) == Success(p.Result()))
  {
    hide ParserSpec.Parse, HeaderEnd, ViewsRead, Head, Plan;
    p := new RequestParser(cfg);
    var i := 0;
    while i < |arrivals| && (i == 0 || p.state.INCOMPLETE_HEADERS? || p.state.INCOMPLETE_BODY?)
      invariant i <= |arrivals| && p.Valid() && fresh(p) && p.cfg == cfg && p.text == Received(arrivals, i)
      invariant i == 0 ==> p.state.IDLE?
      invariant i > 0 ==> p.Reports(ParserSpec.Parse(cfg, p.text))
    {
      assert arrivals[i] in arrivals;
      p.Receive(arrivals[i]);
      p.Parse();
      i := i + 1;
    }
    ReceivedLater(arrivals, i);
    if i < |arrivals| {
      ghost var rest :| Received(arrivals, |arrivals|) == Received(arrivals, i) + rest;
      VerdictStays(cfg, p.text, rest);
    }
  }

  lemma {:induction false} ReceivedLater(arrivals: seq<string>, i: nat)
    requires i <= |arrivals|
    ensures exists rest :: Received(arrivals, |arrivals|) == Received(arrivals, i) + rest
    decreases |arrivals| - i
  {
    if i == |arrivals| {
      assert Received(arrivals, i) + "" == Received(arrivals, i);
    } else {
      ReceivedLater(arrivals, i + 1);
      var rest :| Received(arrivals, |arrivals|) == Received(arrivals, i + 1) + rest;
      assert Received(arrivals, i + 1) + rest == Received(arrivals, i) + (arrivals[i] + rest);
    }
  }
}
