/** The response builder: phases, offsets into one write buffer, and values patched in place. */
module HttpResponses {
  import opened Helpers
  import opened ResponseSpec

  datatype Phase = FRESH | STATUS | HEADERS | BODY | COMMITTED

  /** What has been written: the lines in order, and the body once it is open (`hasBody`). */
  datatype Response = Response(
    phase: Phase,
    status: nat,
    persistent: seq<string>,
    headers: seq<string>,
    body: string,
    hasBody: bool,
    aborted: bool)

  const EMPTY := Response(FRESH, 200, [], [], "", false, false)
  const VIOLATION := "Response contract violation"
  const TEXT_PLAIN := "Content-Type: text/plain"
  const CL_PREFIX := "Content-Length: "
  const CL_FIELD_WIDTH := 10

  // ---------------------------------------------------------------- the wire form

  function StatusLine(http11: bool, code: nat): string { (if http11 then "HTTP/1.1 " else "HTTP/1.0 ") + Fixed(code, 3)
      + " " }

  function ConnectionLine(close: bool): string { if close then "Connection: close" else "Connection: keep-alive" }

  /** The lines present before the body's length. */
  function TopLines(http11: bool, close: bool, r: Response): seq<string> {
    [StatusLine(http11, r.status)] + r.persistent + if r.phase == STATUS then []
        else [ConnectionLine(close)] + r.headers
  }

  function LengthLines(r: Response): seq<string> {
    if r.hasBody then [CL_PREFIX + Fixed(if r.phase == BODY then 0 else |r.body| % U32, CL_FIELD_WIDTH)]
    else if r.phase == COMMITTED && !StatusForbidsBody(r.status) then [CL_PREFIX + "0"]
    else []
  }

  function Render(http11: bool, close: bool, r: Response): string {
    if r.phase == FRESH then ""
    else if r.phase == STATUS || r.phase == HEADERS then Flat(TopLines(http11, close, r))
    else Flat(TopLines(http11, close, r) + LengthLines(r)) + CRLF + r.body
  }

  // ---------------------------------------------------------------- what each call does

  /** The response is rebuilt as an error that keeps its persistent headers. */
  function Rebuilt(r: Response, status: nat, message: string): Response {
    Response(COMMITTED, status, r.persistent, [TEXT_PLAIN], message, true, false)
  }

  function Violated(r: Response): Response {
    if r.aborted then r else Rebuilt(r, 500, VIOLATION).(aborted := true)
  }

  function Step(r: Response, call: Call): Response {
    if r.aborted then r
    else if r.phase == COMMITTED then Violated(r)
    else
      match call
      case Status(code) => if r.phase == BODY then Violated(r)
          else r.(phase := if r.phase == FRESH then STATUS else r.phase, status := code)
      case Persistent(k, v) =>
        if r.phase == HEADERS || r.phase == BODY || !AllowedHeader(k, v) then Violated(r)
        else r.(phase := STATUS, persistent := r.persistent + [HeaderLine(k, v)])
      case Header(k, v) =>
        if r.phase == BODY || !AllowedHeader(k, v) then Violated(r)
        else r.(phase := HEADERS, headers := r.headers + [HeaderLine(k, v)])
      case Body(data) =>
        if r.phase != BODY && StatusForbidsBody(r.status) then Violated(r)
        else r.(phase := BODY, hasBody := true, body := r.body + data)
      case Finish => r.(phase := COMMITTED)
  }

  function Committed(r: Response): Response {
    if r.aborted then r else if r.phase == COMMITTED then Violated(r) else r.(phase := COMMITTED)
  }

  /** The engine commits what a handler has not committed itself. */
  function Sealed(r: Response): Response { if r.phase == COMMITTED then r else Committed(r) }

  function After(calls: seq<Call>): Response {
    if calls == [] then EMPTY else Step(After(calls[..|calls| - 1]), calls[|calls| - 1])
  }

  // ---------------------------------------------------------------- legal orders

  /** The calls before the first illegal one. */
  function Accepted(calls: seq<Call>): (r: seq<Call>)
    ensures r <= calls
  {
    if calls == [] then []
    else
      var before := calls[..|calls| - 1];
      if Accepted(before) == before && LegalAt(calls, |calls| - 1) then calls else Accepted(before)
  }

  lemma LegalPrefix(calls: seq<Call>)
    requires calls != []
    ensures Legal(calls) <==> Legal(calls[..|calls| - 1]) && LegalAt(calls, |calls| - 1)
  {
    var before := calls[..|calls| - 1];
    forall i | 0 <= i < |before| ensures LegalAt(before, i) == LegalAt(calls, i) {
      assert before[..i] == calls[..i];
    }
  }

  lemma {:induction false} AcceptedIffLegal(calls: seq<Call>)
    ensures Legal(Accepted(calls)) && (Accepted(calls) == calls <==> Legal(calls))
    decreases |calls|
  {
    if calls != [] {
      LegalPrefix(calls);
      AcceptedIffLegal(calls[..|calls| - 1]);
    }
  }

  predicate HasBody(calls: seq<Call>) { exists i | 0 <= i < |calls| :: calls[i].Body? }

  predicate HasHeader(calls: seq<Call>) { exists i | 0 <= i < |calls| :: calls[i].Header? }

  predicate HasFinish(calls: seq<Call>) { exists i | 0 <= i < |calls| :: calls[i].Finish? }

  /** What a legal sequence of calls has written. */
  function Expected(calls: seq<Call>): Response {
    Response(
      if HasFinish(calls) then COMMITTED else if HasBody(calls) then BODY else if HasHeader(calls) then HEADERS
          else if calls == [] then FRESH else STATUS,
      StatusAfter(calls), HeaderLines(calls, true), HeaderLines(calls, false), Written(calls), HasBody(calls), false)
  }

  lemma HasLast(calls: seq<Call>)
    requires calls != []
    ensures HasBody(calls) <==> HasBody(calls[..|calls| - 1]) || calls[|calls| - 1].Body?
    ensures HasHeader(calls) <==> HasHeader(calls[..|calls| - 1]) || calls[|calls| - 1].Header?
    ensures HasFinish(calls) <==> HasFinish(calls[..|calls| - 1]) || calls[|calls| - 1].Finish?
  {
    var n := |calls| - 1;
    if HasBody(calls) {
      var i :| 0 <= i < |calls| && calls[i].Body?;
      assert i < n ==> calls[..n][i].Body?;
    }
    if HasHeader(calls) {
      var i :| 0 <= i < |calls| && calls[i].Header?;
      assert i < n ==> calls[..n][i].Header?;
    }
    if HasFinish(calls) {
      var i :| 0 <= i < |calls| && calls[i].Finish?;
      assert i < n ==> calls[..n][i].Finish?;
    }
    assert calls[n].Body? ==> HasBody(calls);
  }

  /** In a legal sequence a body is only open under a status that allows one. */
  lemma {:induction false} BodyAllowed(calls: seq<Call>)
    requires Legal(calls) && HasBody(calls)
    ensures !StatusForbidsBody(StatusAfter(calls))
    decreases |calls|
  {
    var n := |calls| - 1;
    LegalPrefix(calls);
    HasLast(calls);
    LastLegal(calls);
    if HasBody(calls[..n]) {
      BodyAllowed(calls[..n]);
    }
  }

  /** Whether the builder carries a call out. */
  predicate Accepts(r: Response, call: Call) {
    && r.phase != COMMITTED
    && match call
       case Status(_) => r.phase != BODY
       case Persistent(k, v) => r.phase != HEADERS && r.phase != BODY && AllowedHeader(k, v)
       case Header(k, v) => r.phase != BODY && AllowedHeader(k, v)
       case Body(_) => r.phase == BODY || !StatusForbidsBody(r.status)
       case Finish => true
  }

  lemma RefusedViolates(r: Response, call: Call)
    requires !r.aborted && !Accepts(r, call)
    ensures Step(r, call) == Violated(r)
  {
  }

  lemma LastAccepted(calls: seq<Call>)
    requires calls != [] && Legal(calls[..|calls| - 1])
    ensures LegalAt(calls, |calls| - 1) <==> Accepts(Expected(calls[..|calls| - 1]), calls[|calls| - 1])
  {
    hide Legal, LegalAt, HasBody, HasHeader, HasFinish, AllowedHeader, StatusForbidsBody, Written, HeaderLines;
    var before := calls[..|calls| - 1];
    LastLegal(calls);
    if HasBody(before) {
      BodyAllowed(before);
    }
    NotEmpty(before);
  }

  lemma NotEmpty(calls: seq<Call>)
    ensures HasBody(calls) || HasHeader(calls) || HasFinish(calls) ==> calls != []
  {
  }

  lemma ExpectedNext(calls: seq<Call>)
    requires calls != [] && Accepts(Expected(calls[..|calls| - 1]), calls[|calls| - 1])
    ensures Step(Expected(calls[..|calls| - 1]), calls[|calls| - 1]) == Expected(calls)
  {
    hide HasBody, HasHeader, HasFinish;
    HasLast(calls);
    NotEmpty(calls[..|calls| - 1]);
  }

  /** The builder accepts exactly the legal orders, and has then written what they say; any other
      order leaves a complete 500 with the persistent headers accepted before the violation. */
  lemma {:induction false} AfterCalls(calls: seq<Call>)
    ensures Legal(calls) ==> After(calls) == Expected(calls)
    ensures !Legal(calls) ==> After(calls) == Rebuilt(Expected(Accepted(calls)), 500, VIOLATION).(aborted := true)
    decreases |calls|
  {
    hide Legal, LegalAt, Accepts, Step, HasBody, HasHeader, HasFinish;
    if calls != [] {
      var n := |calls| - 1;
      var before := calls[..n];
      AfterCalls(before);
      AcceptedIffLegal(before);
      AcceptedIffLegal(calls);
      LegalPrefix(calls);
      if Legal(before) {
        LastAccepted(calls);
        if Accepts(Expected(before), calls[n]) {
          ExpectedNext(calls);
        } else {
          RefusedViolates(Expected(before), calls[n]);
        }
      } else {
        AbortedStays(After(before), calls[n]);
      }
    } else {
      NothingCalled();
    }
  }

  lemma NothingCalled()
    ensures !HasBody([]) && !HasHeader([]) && !HasFinish([]) && Legal([])
  {
  }

  lemma AbortedStays(r: Response, call: Call)
    requires r.aborted
    ensures Step(r, call) == r
  {
  }

  /** Whether the last call is legal can be told from what the calls before it have written. */
  lemma LastLegal(calls: seq<Call>)
    requires calls != []
    ensures var n := |calls| - 1; var before := calls[..n];
            LegalAt(calls, n) <==>
              && !HasFinish(before)
              && match calls[n]
                 case Status(_) => !HasBody(before)
                 case Header(k, v) => AllowedHeader(k, v) && !HasBody(before)
                 case Persistent(k, v) => AllowedHeader(k, v) && !HasBody(before) && !HasHeader(before)
                 case Body(_) => !StatusForbidsBody(StatusAfter(before))
                 case Finish => true
  {
    var n := |calls| - 1;
    var before := calls[..n];
    assert forall j | 0 <= j < n :: before[j] == calls[j];
  }

  // ---------------------------------------------------------------- what the reader sees

  lemma {:induction false} HeaderLinesClean(calls: seq<Call>, persistent: bool)
    requires Legal(calls)
    ensures forall l <- HeaderLines(calls, persistent) :: CleanLine(l)
    decreases |calls|
  {
    if calls != [] {
      var n := |calls| - 1;
      LegalPrefix(calls);
      HeaderLinesClean(calls[..n], persistent);
      assert LegalAt(calls, n);
      if calls[n].Header? || calls[n].Persistent? {
        HeaderLineClean(calls[n].key, calls[n].value);
      }
    }
  }

  lemma DigitsClean(s: string)
    requires forall c <- s :: c in DIGITS
    ensures '\r' !in s && '\n' !in s
  {
    assert '\r' !in DIGITS && '\n' !in DIGITS;
  }

  lemma JoinClean(a: string, b: string)
    requires CleanLine(a) && '\r' !in b && '\n' !in b
    ensures CleanLine(a + b)
  {
  }

  lemma NumberLineClean(prefix: string, value: nat, width: nat)
    requires CleanLine(prefix)
    ensures CleanLine(prefix + Fixed(value, width))
  {
    DigitsClean(Fixed(value, width));
    JoinClean(prefix, Fixed(value, width));
  }

  lemma StatusLineClean(http11: bool, code: nat)
    ensures CleanLine(StatusLine(http11, code))
  {
    hide Fixed;
    var top := if http11 then "HTTP/1.1 " else "HTTP/1.0 ";
    NumberLineClean(top, code, 3);
    JoinClean(top + Fixed(code, 3), " ");
  }

  lemma ConstantLinesClean(close: bool)
    ensures CleanLine(ConnectionLine(close)) && CleanLine(TEXT_PLAIN) && CleanLine(CL_PREFIX)
  {
    TextPlainClean();
    PrefixClean();
  }

  lemma TextPlainClean()
    ensures CleanLine(TEXT_PLAIN)
  {
  }

  lemma PrefixClean()
    ensures CleanLine(CL_PREFIX)
  {
  }

  lemma LengthLinesClean(r: Response)
    ensures forall l <- LengthLines(r) :: CleanLine(l)
  {
    hide Fixed, CleanLine;
    ConstantLinesClean(true);
    NumberLineClean(CL_PREFIX, |r.body| % U32, CL_FIELD_WIDTH);
    NumberLineClean(CL_PREFIX, 0, CL_FIELD_WIDTH);
    JoinClean(CL_PREFIX, "0");
  }

  lemma EngineLinesClean(http11: bool, close: bool, r: Response)
    ensures CleanLine(StatusLine(http11, r.status)) && CleanLine(ConnectionLine(close)) && CleanLine(TEXT_PLAIN)
    ensures forall l <- LengthLines(r) :: CleanLine(l)
  {
    StatusLineClean(http11, r.status);
    ConstantLinesClean(close);
    LengthLinesClean(r);
  }

  lemma RenderReads(http11: bool, close: bool, r: Response)
    requires r.phase == COMMITTED
    requires (forall l <- r.persistent :: CleanLine(l)) && forall l <- r.headers :: CleanLine(l)
    ensures ReadResponse(Render(http11, close, r)) == (TopLines(http11, close, r) + LengthLines(r), r.body)
  {
    hide CleanLine, StatusLine, LengthLines, ConnectionLine, ReadResponse, Flat;
    var lines := TopLines(http11, close, r) + LengthLines(r);
    EngineLinesClean(http11, close, r);
    ReadFlat(lines, r.body);
  }

  /** The lines of a committed response, spelled out. */
  function CommittedLines(http11: bool, close: bool, status: nat, persistent: seq<string>, headers: seq<string>,
                          length: seq<string>): seq<string> {
    [StatusLine(http11, status)] + persistent + ([ConnectionLine(close)] + headers) + length
  }

  predicate Numeral(digits: string, n: nat) {
    digits != "" && (forall c <- digits :: c in DIGITS) && Decimal(digits) == n
  }

  /** The length line, when there is one, gives the body's length; there is none, and no body, exactly
      under a status that forbids a body. */
  ghost predicate LengthTold(length: seq<string>, body: string, forbidden: bool) {
    if forbidden then length == [] && body == ""
    else |body| < U32 ==> exists digits :: length == [CL_PREFIX + digits] && Numeral(digits, |body|)
  }

  /** A legal order of calls, committed by the handler or else by the engine: a plain reader finds
      every line, and behind the first empty one exactly the body written. */
  lemma LegalFraming(http11: bool, close: bool, calls: seq<Call>)
    requires Legal(calls)
    ensures exists length ::
              ReadResponse(Render(http11, close, Sealed(After(calls))))
                == (CommittedLines(http11, close, StatusAfter(calls), HeaderLines(calls, true),
                                   HeaderLines(calls, false), length), Written(calls))
              && LengthTold(length, Written(calls), StatusForbidsBody(StatusAfter(calls)))
  {
    hide Render, ReadResponse, StatusLine, HeaderLines, Written, StatusAfter, Legal, ConnectionLine, LengthLines;
    var r := Sealed(After(calls));
    AfterCalls(calls);
    HeaderLinesClean(calls, true);
    HeaderLinesClean(calls, false);
    RenderReads(http11, close, r);
    if HasBody(calls) { BodyAllowed(calls); } else { NothingWritten(calls); }
    LengthReads(r);
    assert LengthTold(LengthLines(r), Written(calls), StatusForbidsBody(StatusAfter(calls)));
  }

  /** An illegal order: a complete 500 with the persistent headers accepted before the violation. */
  lemma ViolationFraming(http11: bool, close: bool, calls: seq<Call>)
    requires !Legal(calls)
    ensures exists length ::
              ReadResponse(Render(http11, close, Sealed(After(calls))))
                == (CommittedLines(http11, close, 500, HeaderLines(Accepted(calls), true), [TEXT_PLAIN], length),
                    VIOLATION)
              && LengthTold(length, VIOLATION, false)
    ensures Accepted(calls) <= calls && Legal(Accepted(calls)) && |Accepted(calls)| < |calls|
  {
    hide Render, ReadResponse, StatusLine, HeaderLines, Written, StatusAfter, Legal, ConnectionLine, LengthLines;
    var r := Sealed(After(calls));
    AfterCalls(calls);
    AcceptedIffLegal(calls);
    HeaderLinesClean(Accepted(calls), true);
    EngineLinesClean(http11, close, r);
    RenderReads(http11, close, r);
    LengthReads(r);
    assert LengthTold(LengthLines(r), VIOLATION, false);
  }

  lemma {:induction false} NothingWritten(calls: seq<Call>)
    requires !HasBody(calls)
    ensures Written(calls) == ""
    decreases |calls|
  {
    if calls != [] {
      HasLast(calls);
      NothingWritten(calls[..|calls| - 1]);
    }
  }

  lemma TenDigits()
    ensures Pow10(CL_FIELD_WIDTH) > U32
  {
    assert Pow10(2) == 100;
    assert Pow10(4) == 10000;
    assert Pow10(6) == 1000000;
    assert Pow10(8) == 100000000;
  }

  lemma LengthReads(r: Response)
    requires r.phase == COMMITTED && (!r.hasBody ==> r.body == "") && (r.hasBody ==> !StatusForbidsBody(r.status))
    ensures LengthTold(LengthLines(r), r.body, StatusForbidsBody(r.status))
  {
    hide Fixed, Decimal, Pow10;
    if r.hasBody && |r.body| < U32 {
      TenDigits();
      FixedRead(|r.body|, CL_FIELD_WIDTH);
      assert LengthLines(r) == [CL_PREFIX + Fixed(|r.body|, CL_FIELD_WIDTH)];
    } else if !r.hasBody && !StatusForbidsBody(r.status) {
      ZeroRead();
      assert LengthLines(r) == [CL_PREFIX + "0"];
    }
  }

  lemma ZeroRead()
    ensures Decimal("0") == 0
  {
    assert "0"[..0] == "";
  }

  // ---------------------------------------------------------------- how the wire form grows

  /** The status line and the persistent headers. */
  function Base(http11: bool, r: Response): string {
    if r.phase == FRESH then "" else Flat([StatusLine(http11, r.status)] + r.persistent)
  }

  /** What ties a response's parts together between calls. */
  predicate Shaped(r: Response) {
    && (r.phase == FRESH ==> r == EMPTY)
    && (r.phase == STATUS ==> r.headers == [])
    && (r.hasBody ==> r.phase == BODY || r.phase == COMMITTED)
    && (r.phase == BODY ==> r.hasBody) && (!r.hasBody ==> r.body == "")
    && (r.aborted ==> r.phase == COMMITTED)
  }

  lemma FlatOne(line: string)
    ensures Flat([line]) == line + CRLF
  {
    assert [line][1..] == [];
    assert line + CRLF + "" == line + CRLF;
  }

  lemma FlatAdd(lines: seq<string>, line: string)
    ensures Flat(lines + [line]) == Flat(lines) + line + CRLF
  {
    FlatJoin(lines, [line]);
    FlatOne(line);
    assert Flat(lines) + (line + CRLF) == Flat(lines) + line + CRLF;
  }

  lemma RenderReserved(http11: bool, close: bool, r: Response)
    requires Shaped(r) && r.phase == FRESH
    ensures Render(http11, close, r.(phase := STATUS)) == StatusLine(http11, r.status) + CRLF
            == Base(http11, r.(phase := STATUS))
  {
    FlatOne(StatusLine(http11, r.status));
    assert [StatusLine(http11, r.status)] + [] + [] == [StatusLine(http11, r.status)] + []
        == [StatusLine(http11, r.status)];
  }

  lemma RenderOpened(http11: bool, close: bool, r: Response)
    requires Shaped(r) && r.phase == STATUS
    ensures Render(http11, close, r.(phase := HEADERS)) == Render(http11, close, r) + ConnectionLine(close) + CRLF
    ensures Render(http11, close, r) == Base(http11, r)
  {
    var top := [StatusLine(http11, r.status)] + r.persistent;
    assert top + [] == top && top + ([ConnectionLine(close)] + []) == top + [ConnectionLine(close)];
    FlatAdd(top, ConnectionLine(close));
  }

  lemma RenderHeader(http11: bool, close: bool, r: Response, line: string)
    requires r.phase == HEADERS
    ensures Render(http11, close, r.(headers := r.headers + [line])) == Render(http11, close, r) + line + CRLF
  {
    var top := [StatusLine(http11, r.status)] + r.persistent;
    assert top + ([ConnectionLine(close)] + (r.headers + [line]))
        == top + ([ConnectionLine(close)] + r.headers) + [line];
    FlatAdd(top + ([ConnectionLine(close)] + r.headers), line);
  }

  lemma RenderPersistent(http11: bool, close: bool, r: Response, line: string)
    requires r.phase == STATUS
    ensures var r' := r.(persistent := r.persistent + [line]);
            Render(http11, close, r') == Render(http11, close, r) + line + CRLF == Base(http11, r')
  {
    var top := [StatusLine(http11, r.status)] + r.persistent;
    assert [StatusLine(http11, r.status)] + (r.persistent + [line]) + [] == top + [line] && top + [] == top;
    assert [StatusLine(http11, r.status)] + (r.persistent + [line]) == top + [line];
    FlatAdd(top, line);
  }

  /** The wire form up to the length's value. */
  function BeforeLength(http11: bool, close: bool, r: Response): string {
    Flat(TopLines(http11, close, r)) + CL_PREFIX
  }

  lemma RenderBody(http11: bool, close: bool, r: Response)
    requires r.hasBody && (r.phase == BODY || r.phase == COMMITTED)
    ensures Render(http11, close, r)
         == BeforeLength(http11, close, r) + Fixed(if r.phase == BODY then 0 else |r.body| % U32, CL_FIELD_WIDTH)
             + CRLF + CRLF + r.body
  {
    var digits := Fixed(if r.phase == BODY then 0 else |r.body| % U32, CL_FIELD_WIDTH);
    FlatAdd(TopLines(http11, close, r), CL_PREFIX + digits);
    assert Flat(TopLines(http11, close, r)) + (CL_PREFIX + digits) == BeforeLength(http11, close, r) + digits;
  }

  lemma RenderNoBody(http11: bool, close: bool, r: Response)
    requires Shaped(r) && r.phase == HEADERS
    ensures Render(http11, close, r.(phase := COMMITTED))
         == Render(http11, close, r) + (if StatusForbidsBody(r.status) then "" else CL_PREFIX + "0" + CRLF) + CRLF
  {
    var top := TopLines(http11, close, r);
    assert TopLines(http11, close, r.(phase := COMMITTED)) == top;
    if StatusForbidsBody(r.status) {
      assert top + [] == top;
    } else {
      FlatAdd(top, CL_PREFIX + "0");
    }
  }

  /** The status line and persistent headers stand in front of everything. */
  lemma BaseFirst(http11: bool, close: bool, r: Response)
    requires r.phase != FRESH
    ensures Base(http11, r) <= Render(http11, close, r)
  {
    var base := [StatusLine(http11, r.status)] + r.persistent;
    var more := if r.phase == STATUS then [] else [ConnectionLine(close)] + r.headers;
    if r.phase == STATUS || r.phase == HEADERS {
      FlatJoin(base, more);
    } else {
      assert TopLines(http11, close, r) + LengthLines(r) == base + (more + LengthLines(r));
      FlatJoin(base, more + LengthLines(r));
    }
  }

  /** Patching the three digits of the status code. */
  lemma StatusPatched(http11: bool, code: nat, code': nat, rest: string)
    ensures var s := StatusLine(http11, code) + CRLF + rest;
            |s| >= 12 && s[..9] + Fixed(code', 3) + s[12..] == StatusLine(http11, code') + CRLF + rest
  {
    var top := if http11 then "HTTP/1.1 " else "HTTP/1.0 ";
    var s := StatusLine(http11, code) + CRLF + rest;
    assert s == top + Fixed(code, 3) + (" " + CRLF + rest);
    assert s[..9] == top && s[12..] == " " + CRLF + rest;
    assert StatusLine(http11, code') + CRLF + rest == top + Fixed(code', 3) + (" " + CRLF + rest);
  }

  /** Everything behind the status line. */
  lemma RenderStatus(http11: bool, close: bool, r: Response) returns (rest: string)
    requires r.phase == STATUS || r.phase == HEADERS
    ensures forall code :: Render(http11, close, r.(status := code)) == StatusLine(http11, code) + CRLF + rest
    ensures forall code :: r.phase == STATUS ==>
            Base(http11, r.(status := code)) == StatusLine(http11, code) + CRLF + rest
  {
    var lines := r.persistent + if r.phase == STATUS then [] else [ConnectionLine(close)] + r.headers;
    rest := Flat(lines);
    forall code
      ensures Render(http11, close, r.(status := code)) == StatusLine(http11, code) + CRLF + rest
      ensures r.phase == STATUS ==> Base(http11, r.(status := code)) == StatusLine(http11, code) + CRLF + rest
    {
      var all := TopLines(http11, close, r.(status := code));
      assert all == [StatusLine(http11, code)] + lines;
      assert all[1..] == lines;
      assert r.phase == STATUS ==> lines == r.persistent;
    }
  }

  lemma BaseLength(http11: bool, r: Response, code: nat)
    requires r.phase != FRESH
    ensures |Base(http11, r.(status := code))| == |Base(http11, r)|
  {
    var a, b := [StatusLine(http11, r.status)] + r.persistent, [StatusLine(http11, code)] + r.persistent;
    assert a[1..] == r.persistent == b[1..];
  }

  // ---------------------------------------------------------------- the builder

  class HttpResponse {
    const http11: bool
    const shouldClose: bool
    var buf: string
    var phase: Phase
    var status: nat
    var clNeeded: bool
    var aborted: bool
    var clOffset: nat
    var bodyStartOffset: nat
    var persistentHeadersEndOffset: nat
    ghost var r: Response

    ghost predicate Valid()
      reads this
    {
      Wired() && status == r.status
    }

    /** Everything but the status in force agrees with what has been written. */
    ghost predicate Wired()
      reads this
    {
      && Shaped(r) && phase == r.phase && aborted == r.aborted && clNeeded == r.hasBody
      && buf == Render(http11, shouldClose, r) && persistentHeadersEndOffset == |Base(http11, r)|
      && (clNeeded ==>
            clOffset == |BeforeLength(http11, shouldClose, r)| && bodyStartOffset == clOffset + CL_FIELD_WIDTH + 4)
    }

    constructor (http11: bool, shouldClose: bool)
      ensures Valid() && r == EMPTY && this.http11 == http11 && this.shouldClose == shouldClose
    {
      this.http11, this.shouldClose := http11, shouldClose;
      buf, phase, status, clNeeded, aborted, clOffset, bodyStartOffset, persistentHeadersEndOffset := "", FRESH, 200,
          false, false, 0, 0, 0;
      r := EMPTY;
    }

    method Append(data: string)
      modifies this`buf
      ensures buf == old(buf) + data
    {
      buf := buf + data;
    }

    method EnsureStatusLineReserved()
      requires Wired()
      modifies this`buf, this`phase, this`persistentHeadersEndOffset, this`r
      ensures Wired() && r == if old(r).phase == FRESH then old(r).(phase := STATUS) else old(r)
    {
      hide Render, Base, BeforeLength, StatusLine, Fixed;
      if phase != FRESH {
        return;
      }
      RenderReserved(http11, shouldClose, r);
      RenderFresh(http11, shouldClose, r);
      Append(StatusLine(http11, 200));
      Append(CRLF);
      assert "" + StatusLine(http11, 200) == StatusLine(http11, 200);
      phase := STATUS;
      persistentHeadersEndOffset := |buf|;
      r := r.(phase := STATUS);
    }

    method EnsureHeadersOpen()
      requires Valid()
      modifies this`buf, this`phase, this`persistentHeadersEndOffset, this`r
      ensures Valid() && r == if old(r).phase == FRESH || old(r).phase == STATUS then old(r).(phase := HEADERS)
              else old(r)
    {
      hide Render, Base, BeforeLength, StatusLine, Fixed, ConnectionLine;
      EnsureStatusLineReserved();
      if phase == STATUS {
        RenderOpened(http11, shouldClose, r);
        BaseKept(http11, r, HEADERS);
        Append(ConnectionLine(shouldClose));
        Append(CRLF);
        phase := HEADERS;
        r := r.(phase := HEADERS);
      }
    }

    /** Drops everything behind the persistent headers and builds an error response instead; under a
        status that forbids a body its message is a violation like any other body. */
    method AbortWithError(code: nat, message: string)
      requires Valid() && code < 1000
      modifies this
      ensures Valid()
      ensures r == if StatusForbidsBody(code) then Rebuilt(old(r), 500, VIOLATION).(aborted := true)
              else Rebuilt(old(r), code, message)
      decreases if StatusForbidsBody(code) then 15 else 10
    {
      hide Render, Base, BeforeLength, StatusLine, Fixed;
      Truncated(http11, shouldClose, r);
      buf := buf[..persistentHeadersEndOffset];
      r := if r.phase == FRESH then EMPTY else Response(STATUS, r.status, r.persistent, [], "", false, false);
      phase := if persistentHeadersEndOffset > 0 then STATUS else FRESH;
      status, clOffset, bodyStartOffset, clNeeded, aborted := 200, 0, 0, false, false;
      WriteStatus(code);
      assert [] + [TEXT_PLAIN] == [TEXT_PLAIN];
      SendText(message);
    }

    method AbortContractViolation()
      requires Valid()
      modifies this
      ensures Valid() && r == Violated(old(r))
      decreases 11
    {
      hide Render, Base, BeforeLength, StatusLine, Fixed;
      if aborted {
        return;
      }
      AbortWithError(500, VIOLATION);
      AbortedSame(http11, shouldClose, r);
      aborted := true;
      r := r.(aborted := true);
    }

    /** Whether a call comes too late; one after the commit is a violation. */
    method RejectIfCommitted() returns (rejected: bool)
      requires Valid()
      modifies this
      ensures Valid() && rejected == (old(r).phase == COMMITTED)
      ensures r == if rejected then Violated(old(r)) else old(r)
      decreases if phase == COMMITTED then 12 else 0
    {
      if aborted {
        return true;
      }
      if phase != COMMITTED {
        return false;
      }
      AbortContractViolation();
      return true;
    }

    method WriteStatus(code: nat)
      requires Wired() && code < 1000 && (phase != FRESH && phase != STATUS ==> Valid())
      modifies this
      ensures Valid() && r == Step(old(r), Status(code))
      decreases if phase == COMMITTED || phase == BODY then 13 else 0
    {
      hide Render, Base, BeforeLength, StatusLine, Fixed;
      if aborted {
        return;
      }
      if phase == COMMITTED || phase == BODY {
        AbortContractViolation();
        return;
      }
      EnsureStatusLineReserved();
      var rest := RenderStatus(http11, shouldClose, r);
      StatusPatched(http11, r.status, code, rest);
      BaseLength(http11, r, code);
      assert r.(status := r.status) == r;
      status := code;
      var cs := [DIGITS[code / 100], DIGITS[code / 10 % 10], DIGITS[code % 10]];
      ThreeDigits(code);
      buf := buf[..9] + cs + buf[12..];
      r := r.(status := code);
    }

    method WritePersistentHeader(key: string, value: string)
      requires Valid()
      modifies this
      ensures Valid() && r == Step(old(r), Persistent(key, value))
    {
      hide Render, Base, BeforeLength, StatusLine, Fixed;
      var rejected := RejectIfCommitted();
      if rejected {
        return;
      }
      if phase == HEADERS || phase == BODY || SameIgnoringCase(key, "connection") || HasCRLFOrNull(key)
          || HasCRLFOrNull(value) {
        AbortContractViolation();
        return;
      }
      EnsureStatusLineReserved();
      RenderPersistent(http11, shouldClose, r, HeaderLine(key, value));
      AppendLine(key, value);
      r := r.(persistent := r.persistent + [HeaderLine(key, value)]);
      persistentHeadersEndOffset := |buf|;
    }

    method AppendLine(key: string, value: string)
      modifies this`buf
      ensures buf == old(buf) + HeaderLine(key, value) + CRLF
    {
      Append(key);
      Append(": ");
      Append(value);
      Append(CRLF);
      assert old(buf) + key + ": " + value == old(buf) + (key + ": " + value);
    }

    method WriteHeader(key: string, value: string)
      requires Valid()
      modifies this
      ensures Valid() && r == Step(old(r), Header(key, value))
    {
      hide Render, Base, BeforeLength, StatusLine, Fixed;
      var rejected := RejectIfCommitted();
      if rejected {
        return;
      }
      if phase == BODY || SameIgnoringCase(key, "connection") || HasCRLFOrNull(key) || HasCRLFOrNull(value) {
        AbortContractViolation();
        return;
      }
      EnsureHeadersOpen();
      RenderHeader(http11, shouldClose, r, HeaderLine(key, value));
      BaseHeaders(http11, r, r.headers + [HeaderLine(key, value)]);
      AppendLine(key, value);
      r := r.(headers := r.headers + [HeaderLine(key, value)]);
    }

    /** Writes the length line with its value still to come. */
    method InjectContentLength()
      modifies this`buf, this`clOffset, this`clNeeded
      ensures buf == old(buf) + CL_PREFIX + Fixed(0, CL_FIELD_WIDTH) + CRLF && clOffset == |old(buf) + CL_PREFIX|
              && clNeeded
    {
      Append(CL_PREFIX);
      clOffset := |buf|;
      Append(Fixed(0, CL_FIELD_WIDTH));
      Append(CRLF);
      clNeeded := true;
    }

    /** Opens the body: the length line and the empty line. */
    method EnsureBodyOpen() returns (ok: bool)
      requires Valid() && phase != COMMITTED
      modifies this
      ensures Valid() && ok == (old(r).phase == BODY || !StatusForbidsBody(old(r).status))
      ensures r == if old(r).phase == BODY then old(r) else if ok then old(r).(phase := BODY, hasBody := true)
              else Violated(old(r))
      decreases if phase != BODY && StatusForbidsBody(status) then 12 else 0
    {
      hide Render, Base, BeforeLength, StatusLine, Fixed;
      EnsureHeadersOpen();
      if phase == BODY {
        return true;
      }
      if StatusForbidsBody(status) {
        AbortContractViolation();
        AbortFromHeaders(old(r), r);
        return false;
      }
      ghost var r' := r.(phase := BODY, hasBody := true);
      RenderBody(http11, shouldClose, r');
      BodyOpens(http11, shouldClose, r);
      InjectContentLength();
      Append(CRLF);
      bodyStartOffset := |buf|;
      phase := BODY;
      r := r';
      assert buf + "" == buf;
      return true;
    }

    method WriteBodyData(data: string)
      requires Valid()
      modifies this
      ensures Valid() && r == Step(old(r), Body(data))
      decreases if phase == COMMITTED || (phase != BODY && StatusForbidsBody(status)) then 13 else 1
    {
      hide Render, Base, BeforeLength, StatusLine, Fixed;
      var rejected := RejectIfCommitted();
      if rejected {
        return;
      }
      var ok := EnsureBodyOpen();
      if !ok {
        return;
      }
      RenderBody(http11, shouldClose, r);
      RenderBody(http11, shouldClose, r.(body := r.body + data));
      BodyGrows(http11, shouldClose, r, r.body + data);
      assert r.body + "" == r.body;
      ghost var top := BeforeLength(http11, shouldClose, r) + Fixed(0, CL_FIELD_WIDTH) + CRLF + CRLF;
      assert top + r.body + data == top + (r.body + data);
      Append(data);
      r := r.(body := r.body + data);
    }

    /** Finishes the response: a length of zero where no body was opened, else the length in place. */
    method Commit()
      requires Valid()
      modifies this
      ensures Valid() && r == Committed(old(r))
      decreases if phase == COMMITTED then 13 else 1
    {
      hide Render, Base, BeforeLength, StatusLine, Fixed;
      var rejected := RejectIfCommitted();
      if rejected {
        return;
      }
      if phase != BODY {
        CommitEmpty();
      } else {
        CommitBody();
      }
    }

    method CommitEmpty()
      requires Valid() && phase != BODY && phase != COMMITTED
      modifies this`buf, this`phase, this`persistentHeadersEndOffset, this`r
      ensures Valid() && r == old(r).(phase := COMMITTED)
    {
      hide Render, Base, BeforeLength, StatusLine, Fixed;
      EnsureHeadersOpen();
      RenderNoBody(http11, shouldClose, r);
      BaseKept(http11, r, COMMITTED);
      ghost var headed := buf;
      if !StatusForbidsBody(status) {
        Append(CL_PREFIX + "0" + CRLF);
      }
      Append(CRLF);
      assert headed + "" == headed;
      phase := COMMITTED;
      r := r.(phase := COMMITTED);
    }

    /** Puts the body's length into its place. */
    method CommitBody()
      requires Valid() && phase == BODY
      modifies this`buf, this`phase, this`r
      ensures Valid() && r == old(r).(phase := COMMITTED)
    {
      hide Render, Base, BeforeLength, StatusLine, Fixed;
      RenderBody(http11, shouldClose, r);
      RenderBody(http11, shouldClose, r.(phase := COMMITTED));
      BodyCommits(http11, shouldClose, r);
      if clNeeded {
        var bodySize := |buf| - bodyStartOffset;
        var tmp := FormatFixed10(bodySize % U32);
        LengthPatched(BeforeLength(http11, shouldClose, r), Fixed(0, CL_FIELD_WIDTH), tmp, r.body);
        buf := buf[..clOffset] + tmp + buf[clOffset + CL_FIELD_WIDTH..];
      }
      phase := COMMITTED;
      r := r.(phase := COMMITTED);
    }

    /** A whole text body, when none has been begun. */
    method SendText(data: string)
      requires Valid() && phase != BODY && phase != COMMITTED
      modifies this
      ensures Valid()
      ensures r == if StatusForbidsBody(old(r).status) then Violated(old(r))
                   else old(r).(phase := COMMITTED, headers := old(r).headers + [TEXT_PLAIN], body := data,
                                hasBody := true)
      decreases if StatusForbidsBody(status) then 14 else 5
    {
      hide Render, Base, BeforeLength, StatusLine, Fixed;
      EnsureHeadersOpen();
      RenderHeader(http11, shouldClose, r, TEXT_PLAIN);
      BaseHeaders(http11, r, r.headers + [TEXT_PLAIN]);
      Append(TEXT_PLAIN);
      Append(CRLF);
      r := r.(headers := r.headers + [TEXT_PLAIN]);
      WriteBodyData(data);
      assert "" + data == data;
      Commit();
    }
  }

  /** The ten digits, written from the last one up. */
  method FormatFixed10(value: nat) returns (s: string)
    ensures s == Fixed(value, CL_FIELD_WIDTH)
  {
    var out := new char[CL_FIELD_WIDTH];
    var rest, i := value, CL_FIELD_WIDTH;
    while i > 0
      invariant 0 <= i <= CL_FIELD_WIDTH && Fixed(value, CL_FIELD_WIDTH) == Fixed(rest, i) + out[i..]
    {
      i := i - 1;
      out[i] := DIGITS[rest % 10];
      assert out[i..] == [DIGITS[rest % 10]] + out[i + 1..];
      rest := rest / 10;
    }
    s := out[..];
  }

  // ---------------------------------------------------------------- small facts about the wire form

  lemma RenderFresh(http11: bool, close: bool, r: Response)
    requires r.phase == FRESH
    ensures Render(http11, close, r) == "" && Base(http11, r) == ""
  {
  }

  lemma BaseKept(http11: bool, r: Response, phase: Phase)
    requires r.phase != FRESH && phase != FRESH
    ensures Base(http11, r.(phase := phase)) == Base(http11, r)
  {
  }

  lemma BaseHeaders(http11: bool, r: Response, headers: seq<string>)
    ensures Base(http11, r.(headers := headers)) == Base(http11, r)
  {
  }

  lemma AbortedSame(http11: bool, close: bool, r: Response)
    ensures Render(http11, close, r.(aborted := true)) == Render(http11, close, r)
            && Base(http11, r.(aborted := true)) == Base(http11, r)
    ensures BeforeLength(http11, close, r.(aborted := true)) == BeforeLength(http11, close, r)
  {
  }

  lemma BodyGrows(http11: bool, close: bool, r: Response, body: string)
    ensures Base(http11, r.(body := body)) == Base(http11, r)
            && BeforeLength(http11, close, r.(body := body)) == BeforeLength(http11, close, r)
  {
  }

  lemma BodyOpens(http11: bool, close: bool, r: Response)
    requires r.phase == HEADERS
    ensures var r' := r.(phase := BODY, hasBody := true);
            Base(http11, r') == Base(http11, r) && BeforeLength(http11, close, r')
                == Render(http11, close, r) + CL_PREFIX
  {
  }

  lemma BodyCommits(http11: bool, close: bool, r: Response)
    requires r.phase == BODY
    ensures var r' := r.(phase := COMMITTED);
            Base(http11, r') == Base(http11, r) && BeforeLength(http11, close, r') == BeforeLength(http11, close, r)
  {
  }

  /** Cut back to its persistent headers, the text is that of a response with nothing else. */
  lemma Truncated(http11: bool, close: bool, r: Response)
    requires Shaped(r)
    ensures |Base(http11, r)| <= |Render(http11, close, r)| && (|Base(http11, r)| > 0 <==> r.phase != FRESH)
    ensures var r' := if r.phase == FRESH then EMPTY
            else Response(STATUS, r.status, r.persistent, [], "", false, false);
            Render(http11, close, r') == Render(http11, close, r)[..|Base(http11, r)|] == Base(http11, r')
                == Base(http11, r)
  {
    if r.phase != FRESH {
      BaseFirst(http11, close, r);
      var r' := Response(STATUS, r.status, r.persistent, [], "", false, false);
      RenderOpened(http11, close, r');
    }
  }

  lemma AbortFromHeaders(r: Response, r': Response)
    requires r.phase != COMMITTED && !r.aborted
            && r' == Violated(if r.phase == FRESH || r.phase == STATUS then r.(phase := HEADERS) else r)
    ensures r' == Violated(r)
  {
  }

  lemma LengthPatched(top: string, zeros: string, digits: string, body: string)
    requires |zeros| == |digits|
    ensures var s := top + zeros + CRLF + CRLF + body;
            |s| == |top| + |zeros| + 4 + |body| && s[..|top|] + digits + s[|top| + |zeros|..]
                == top + digits + CRLF + CRLF + body
  {
    var s := top + zeros + CRLF + CRLF + body;
    assert s[..|top|] == top && s[|top| + |zeros|..] == CRLF + CRLF + body;
  }

  lemma {:induction false} ThreeDigits(code: nat)
    requires code < 1000
    ensures [DIGITS[code / 100], DIGITS[code / 10 % 10], DIGITS[code % 10]] == Fixed(code, 3)
  {
    hide Fixed;
    var tens, hundreds := code / 10, code / 100;
    assert tens / 10 == hundreds && hundreds / 10 == 0 && hundreds % 10 == hundreds;
    FixedStep(code, 3);
    FixedStep(tens, 2);
    FixedStep(hundreds, 1);
  }

  lemma FixedStep(value: nat, width: nat)
    requires width > 0
    ensures Fixed(value, width) == Fixed(value / 10, width - 1) + [DIGITS[value % 10]]
    ensures Fixed(value, 0) == ""
  {
  }

  /** What a reader finds in a finished response, with these length lines. */
  ghost predicate BuiltFrom(http11: bool, close: bool, calls: seq<Call>, bytes: string, length: seq<string>) {
    if Legal(calls) then
      var top, more := HeaderLines(calls, true), HeaderLines(calls, false);
      && ReadResponse(bytes) == (CommittedLines(http11, close, StatusAfter(calls), top, more, length), Written(calls))
      && LengthTold(length, Written(calls), StatusForbidsBody(StatusAfter(calls)))
    else
      var top := HeaderLines(Accepted(calls), true);
      && ReadResponse(bytes) == (CommittedLines(http11, close, 500, top, [TEXT_PLAIN], length), VIOLATION)
      && LengthTold(length, VIOLATION, false)
  }

  lemma FinishCommits(r: Response)
    ensures Step(r, Finish) == Committed(r)
  {
  }

  lemma CallsFramed(http11: bool, close: bool, calls: seq<Call>)
    ensures exists length :: BuiltFrom(http11, close, calls, Render(http11, close, Sealed(After(calls))), length)
  {
    hide Render, ReadResponse, Step, Sealed, After, Legal, CommittedLines, HeaderLines, LengthTold, Accepted, Written,
        StatusAfter;
    var bytes := Render(http11, close, Sealed(After(calls)));
    if Legal(calls) {
      LegalFraming(http11, close, calls);
      var top, more := HeaderLines(calls, true), HeaderLines(calls, false);
      var length :|
        && ReadResponse(bytes) == (CommittedLines(http11, close, StatusAfter(calls), top, more, length), Written(calls))
        && LengthTold(length, Written(calls), StatusForbidsBody(StatusAfter(calls)));
      assert BuiltFrom(http11, close, calls, bytes, length);
    } else {
      ViolationFraming(http11, close, calls);
      var top := HeaderLines(Accepted(calls), true);
      var length :|
        && ReadResponse(bytes) == (CommittedLines(http11, close, 500, top, [TEXT_PLAIN], length), VIOLATION)
        && LengthTold(length, VIOLATION, false);
      assert BuiltFrom(http11, close, calls, bytes, length);
    }
  }
}
