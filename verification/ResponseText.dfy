/** Responses as a client reads them, spelled out, and the orders of calls that make one. */
module ResponseTexts {
  import opened Helpers
  import opened ResponseSpec
  import opened HttpResponses

  predicate Digit(c: char) { '0' <= c <= '9' }

  function Place(c: char): int { c as int - '0' as int }

  /** The version, and the code's three digits. */
  predicate StatusSays(line: string, http11: bool, code: nat) {
    && |line| == 13
    && line[..9] == (if http11 then "HTTP/1.1 " else "HTTP/1.0 ")
    && Digit(line[9]) && Digit(line[10]) && Digit(line[11]) && line[12] == ' '
    && 100 * Place(line[9]) + 10 * Place(line[10]) + Place(line[11]) == code
  }

  /** The status named last; 200 as long as none is named. */
  ghost predicate StatusIs(calls: seq<Call>, code: nat) {
    || (code == 200 && forall i | 0 <= i < |calls| :: !calls[i].Status?)
    || (exists i | 0 <= i < |calls| :: calls[i] == Status(code) && forall j | i < j < |calls| :: !calls[j].Status?)
  }

  /** Section 6.4.1 of RFC 9110: informational answers, 204 and 304 carry no content. */
  predicate Bodiless(code: nat) { code / 100 == 1 || code == 204 || code == 304 }

  /** The engine alone writes Connection, and nothing may break a line. */
  predicate MayWrite(key: string, value: string) {
    && (|key| == 10 ==> exists i | 0 <= i < 10 :: key[i] != "connection"[i] && key[i] != "CONNECTION"[i])
    && (forall c <- key :: c != '\r' && c != '\n' && c as int != 0)
    && (forall c <- value :: c != '\r' && c != '\n' && c as int != 0)
  }

  predicate TopCall(call: Call) {
    call.Status? || (call.Persistent? && MayWrite(call.key, call.value))
  }

  predicate HeadCall(call: Call) {
    call.Status? || (call.Header? && MayWrite(call.key, call.value))
  }

  /** Up to a, the status and persistent headers; up to b, the status and headers; up to c, the body;
      behind it, at most one commit. */
  ghost predicate Ordered(calls: seq<Call>, a: nat, b: nat, c: nat) {
    && a <= b <= c <= |calls| <= c + 1
    && (forall i | 0 <= i < a :: TopCall(calls[i]))
    && (forall i | a <= i < b :: HeadCall(calls[i]))
    && (forall i | b <= i < c :: calls[i].Body?)
    && (forall i | c <= i < |calls| :: calls[i].Finish?)
    && (b < c ==> forall code | StatusIs(calls[..b], code) :: !Bodiless(code))
  }

  ghost predicate InOrder(calls: seq<Call>) { exists a, b, c :: Ordered(calls, a, b, c) }

  // ---------------------------------------------------------------- legal orders

  lemma MayWriteIff(key: string, value: string)
    ensures AllowedHeader(key, value) <==> MayWrite(key, value)
  {
    if |key| == 10 {
      ConnectionLetters();
      forall i | 0 <= i < 10
        ensures Lower(key[i]) == Lower("connection"[i])
           <==> key[i] == "connection"[i] || key[i] == "CONNECTION"[i]
      {
        LowerIs(key[i], "connection"[i], "CONNECTION"[i]);
      }
    }
  }

  lemma LowerIs(c: char, small: char, capital: char)
    requires 'a' <= small <= 'z' && capital as int == small as int - 32
    ensures Lower(c) == Lower(small) <==> c == small || c == capital
  {
  }

  lemma ConnectionLetters()
    ensures forall i | 0 <= i < 10 ::
              'a' <= "connection"[i] <= 'z' && "CONNECTION"[i] as int == "connection"[i] as int - 32
  {
    var s, t := "connection", "CONNECTION";
    assert s[0] == 'c' && s[1] == 'o' && s[2] == 'n' && s[3] == 'n' && s[4] == 'e';
    assert s[5] == 'c' && s[6] == 't' && s[7] == 'i' && s[8] == 'o' && s[9] == 'n';
    assert t[0] == 'C' && t[1] == 'O' && t[2] == 'N' && t[3] == 'N' && t[4] == 'E';
    assert t[5] == 'C' && t[6] == 'T' && t[7] == 'I' && t[8] == 'O' && t[9] == 'N';
  }

  lemma BodilessIff(code: nat)
    ensures StatusForbidsBody(code) <==> Bodiless(code)
  {
  }

  lemma {:induction false} StatusIff(calls: seq<Call>, code: nat)
    ensures StatusIs(calls, code) <==> code == StatusAfter(calls)
    decreases |calls|
  {
    if calls != [] {
      var n := |calls| - 1;
      StatusIff(calls[..n], code);
      if calls[n].Status? {
        assert calls[n] == Status(calls[n].code);
        assert StatusIs(calls, calls[n].code);
      } else {
        LastAdds(calls, code);
      }
    }
  }

  lemma LastAdds(calls: seq<Call>, code: nat)
    requires calls != [] && !calls[|calls| - 1].Status?
    ensures StatusIs(calls, code) <==> StatusIs(calls[..|calls| - 1], code)
  {
    var n := |calls| - 1;
    if exists i | 0 <= i < |calls| :: calls[i] == Status(code) && forall j | i < j < |calls| :: !calls[j].Status? {
      var i :| 0 <= i < |calls| && calls[i] == Status(code) && forall j | i < j < |calls| :: !calls[j].Status?;
      assert calls[..n][i] == Status(code);
    }
    if exists i | 0 <= i < n :: calls[..n][i] == Status(code) && forall j | i < j < n :: !calls[..n][j].Status? {
      var i :| 0 <= i < n && calls[..n][i] == Status(code) && forall j | i < j < n :: !calls[..n][j].Status?;
      assert calls[i] == Status(code);
    }
    assert (forall i | 0 <= i < n :: !calls[..n][i].Status?) ==> forall i | 0 <= i < n :: !calls[i].Status?;
  }

  /** Calls that name no status leave it. */
  lemma {:induction false} StatusKept(calls: seq<Call>, b: nat, i: nat)
    requires b <= i <= |calls| && forall j | b <= j < i :: !calls[j].Status?
    ensures StatusAfter(calls[..i]) == StatusAfter(calls[..b])
    decreases i
  {
    if b < i {
      assert calls[..i][..i - 1] == calls[..i - 1];
      StatusKept(calls, b, i - 1);
    }
  }

  lemma OrderedLegal(calls: seq<Call>, a: nat, b: nat, c: nat)
    requires Ordered(calls, a, b, c)
    ensures Legal(calls)
  {
    hide StatusIs, StatusAfter, StatusForbidsBody, Bodiless, AllowedHeader, MayWrite;
    forall i | 0 <= i < |calls| ensures LegalAt(calls, i) {
      match calls[i]
      case Header(k, v) => MayWriteIff(k, v);
      case Persistent(k, v) => MayWriteIff(k, v);
      case Body(_) =>
        StatusKept(calls, b, i);
        StatusIff(calls[..b], StatusAfter(calls[..b]));
        BodilessIff(StatusAfter(calls[..b]));
      case _ =>
    }
  }

  /** The first place at or behind `from` with a call of this kind or a later one, or the end. */
  function Begins(calls: seq<Call>, kind: nat, from: nat): (i: nat)
    requires from <= |calls|
    ensures from <= i <= |calls| && (i < |calls| ==> Kind(calls[i]) >= kind)
    ensures forall j | from <= j < i :: Kind(calls[j]) < kind
    decreases |calls| - from
  {
    if from == |calls| || Kind(calls[from]) >= kind then from else Begins(calls, kind, from + 1)
  }

  function Kind(call: Call): nat {
    match call
    case Status(_) => 0
    case Persistent(_, _) => 0
    case Header(_, _) => 1
    case Body(_) => 2
    case Finish => 3
  }

  lemma LegalOrdered(calls: seq<Call>) returns (a: nat, b: nat, c: nat)
    requires Legal(calls)
    ensures Ordered(calls, a, b, c)
  {
    hide StatusIs, StatusAfter, StatusForbidsBody, Bodiless, AllowedHeader, MayWrite;
    a := Begins(calls, 1, 0);
    b := Begins(calls, 2, a);
    c := Begins(calls, 3, b);
    forall i | 0 <= i < |calls| ensures LegalAt(calls, i) {}
    forall i | 0 <= i < |calls| && (calls[i].Header? || calls[i].Persistent?)
      ensures MayWrite(calls[i].key, calls[i].value)
    {
      assert LegalAt(calls, i);
      MayWriteIff(calls[i].key, calls[i].value);
    }
    forall i | a <= i < b ensures HeadCall(calls[i]) {
      assert LegalAt(calls, i) && Kind(calls[i]) < 2 && Kind(calls[a]) == 1;
    }
    forall i | b <= i < c ensures calls[i].Body? {
      assert LegalAt(calls, i) && Kind(calls[i]) < 3 && Kind(calls[b]) == 2;
    }
    if c < |calls| {
      assert LegalAt(calls, |calls| - 1) && calls[c].Finish?;
    }
    if b < c {
      assert calls[b].Body? && LegalAt(calls, b);
      forall code | StatusIs(calls[..b], code) ensures !Bodiless(code) {
        StatusIff(calls[..b], code);
        BodilessIff(code);
      }
    }
  }

  /** The builder's rule for the next call and the shape of the whole sequence agree. */
  lemma LegalIff(calls: seq<Call>)
    ensures Legal(calls) <==> InOrder(calls)
  {
    hide Legal, Ordered;
    if Legal(calls) {
      var a, b, c := LegalOrdered(calls);
    }
    if InOrder(calls) {
      var a, b, c :| Ordered(calls, a, b, c);
      OrderedLegal(calls, a, b, c);
    }
  }

  // ---------------------------------------------------------------- lines and body

  predicate Listed(call: Call, persistent: bool) { if persistent then call.Persistent? else call.Header? }

  /** The places of the header calls of one kind, all of them and in order. */
  ghost predicate Places(calls: seq<Call>, persistent: bool, at: seq<nat>) {
    && (forall k | 0 <= k < |at| :: at[k] < |calls|)
    && (forall j, k | 0 <= j < k < |at| :: at[j] < at[k])
    && (forall i | 0 <= i < |calls| :: i in at <==> Listed(calls[i], persistent))
  }

  /** One line a header: name, colon, blank, value. */
  ghost predicate LinesSay(lines: seq<string>, calls: seq<Call>, persistent: bool) {
    exists at :: Places(calls, persistent, at) && LinesAt(lines, calls, at)
  }

  ghost predicate LinesAt(lines: seq<string>, calls: seq<Call>, at: seq<nat>) {
    && |lines| == |at|
    && forall k | 0 <= k < |at| ::
         && at[k] < |calls|
         && (calls[at[k]].Header? || calls[at[k]].Persistent?)
         && lines[k] == calls[at[k]].key + ": " + calls[at[k]].value
  }

  /** The body is cut into the pieces written, in order. */
  ghost predicate BodyCut(body: string, calls: seq<Call>, cuts: seq<nat>) {
    && |cuts| == |calls| + 1 && cuts[0] == 0 && cuts[|calls|] == |body|
    && forall i | 0 <= i < |calls| :: Piece(body, calls[i], cuts[i], cuts[i + 1])
  }

  predicate Piece(body: string, call: Call, lo: nat, hi: nat) {
    lo <= hi <= |body| && body[lo..hi] == if call.Body? then call.data else ""
  }

  ghost predicate BodySays(body: string, calls: seq<Call>) { exists cuts :: BodyCut(body, calls, cuts) }

  lemma {:induction false} LinesPlaced(calls: seq<Call>, persistent: bool) returns (at: seq<nat>)
    ensures Places(calls, persistent, at) && LinesAt(HeaderLines(calls, persistent), calls, at)
    decreases |calls|
  {
    hide Places, LinesAt;
    if calls == [] {
      at := [];
      NonePlaced(persistent);
    } else {
      var n := |calls| - 1;
      var front := LinesPlaced(calls[..n], persistent);
      at := if Listed(calls[n], persistent) then front + [n] else front;
      OneMorePlace(calls, persistent, front);
      OneMoreLine(calls, persistent, front, HeaderLines(calls[..n], persistent));
      assert HeaderLines(calls[..n], persistent) + [] == HeaderLines(calls[..n], persistent);
    }
  }

  lemma NonePlaced(persistent: bool)
    ensures Places([], persistent, []) && LinesAt([], [], [])
  {
  }

  lemma OneMorePlace(calls: seq<Call>, persistent: bool, at: seq<nat>)
    requires calls != [] && Places(calls[..|calls| - 1], persistent, at)
    ensures var n := |calls| - 1; Places(calls, persistent, if Listed(calls[n], persistent) then at + [n] else at)
  {
    var n := |calls| - 1;
    assert forall i | 0 <= i < n :: calls[..n][i] == calls[i];
  }

  lemma OneMoreLine(calls: seq<Call>, persistent: bool, at: seq<nat>, lines: seq<string>)
    requires calls != [] && LinesAt(lines, calls[..|calls| - 1], at)
    ensures var n := |calls| - 1;
            if Listed(calls[n], persistent) then
              LinesAt(lines + [HeaderLine(calls[n].key, calls[n].value)], calls, at + [n])
            else LinesAt(lines, calls, at)
  {
    var n := |calls| - 1;
    assert forall k | 0 <= k < |at| :: calls[..n][at[k]] == calls[at[k]];
  }

  lemma PieceStays(body: string, more: string, call: Call, lo: nat, hi: nat)
    requires Piece(body, call, lo, hi)
    ensures Piece(body + more, call, lo, hi)
  {
    assert (body + more)[lo..hi] == body[lo..hi];
  }

  lemma {:induction false} BodyPieces(calls: seq<Call>) returns (cuts: seq<nat>)
    ensures BodyCut(Written(calls), calls, cuts)
    decreases |calls|
  {
    hide BodyCut;
    if calls == [] {
      cuts := [0];
      NothingCut();
    } else {
      var n := |calls| - 1;
      var front := BodyPieces(calls[..n]);
      cuts := front + [|Written(calls)|];
      OneMoreCut(calls, front, Written(calls[..n]), if calls[n].Body? then calls[n].data else "");
    }
  }

  lemma NothingCut()
    ensures BodyCut("", [], [0])
  {
  }

  lemma OneMoreCut(calls: seq<Call>, cuts: seq<nat>, body: string, more: string)
    requires calls != [] && BodyCut(body, calls[..|calls| - 1], cuts)
    requires more == if calls[|calls| - 1].Body? then calls[|calls| - 1].data else ""
    ensures BodyCut(body + more, calls, cuts + [|body + more|])
  {
    hide Piece;
    var n := |calls| - 1;
    forall i | 0 <= i < n ensures Piece(body + more, calls[i], cuts[i], cuts[i + 1]) {
      assert calls[..n][i] == calls[i];
      PieceStays(body, more, calls[i], cuts[i], cuts[i + 1]);
    }
    LastPiece(body, more, calls[n]);
  }

  lemma LastPiece(body: string, more: string, call: Call)
    requires more == if call.Body? then call.data else ""
    ensures Piece(body + more, call, |body|, |body + more|)
  {
    assert (body + more)[|body|..] == more;
    assert (body + more)[|body|..|body + more|] == more;
  }

  lemma StatusReads(http11: bool, code: nat)
    requires code < 1000
    ensures StatusSays(StatusLine(http11, code), http11, code)
  {
    hide Fixed, Decimal;
    var h, t, u := code / 100, code / 10 % 10, code % 10;
    ThreeDigits(code);
    DigitPlace(h);
    DigitPlace(t);
    DigitPlace(u);
    assert code / 10 / 10 == h;
    assert StatusLine(http11, code)[9..12] == [DIGITS[h], DIGITS[t], DIGITS[u]];
  }

  lemma DigitPlace(d: nat)
    requires d < 10
    ensures Digit(DIGITS[d]) && Place(DIGITS[d]) == d
  {
    assert DIGITS[0] == '0' && DIGITS[1] == '1' && DIGITS[2] == '2' && DIGITS[3] == '3' && DIGITS[4] == '4';
    assert DIGITS[5] == '5' && DIGITS[6] == '6' && DIGITS[7] == '7' && DIGITS[8] == '8' && DIGITS[9] == '9';
  }

  // ---------------------------------------------------------------- whole responses

  /** The lines of a response: the persistent headers stand above Connection, the others below it. */
  ghost predicate Reads(text: string, http11: bool, close: bool, code: nat, top: seq<string>, more: seq<string>,
                        length: seq<string>, body: string) {
    exists first ::
      && StatusSays(first, http11, code)
      && ReadResponse(text)
           == ([first] + top + [if close then "Connection: close" else "Connection: keep-alive"] + more + length, body)
  }

  /** No length where no body may stand; otherwise its decimal digits, as far as 32 bits tell. */
  ghost predicate LengthSays(length: seq<string>, code: nat, body: string) {
    if Bodiless(code) then length == [] && body == ""
    else |body| < 0x1_0000_0000 ==>
           exists digits :: length == ["Content-Length: " + digits] && DigitsSay(digits, |body|)
  }

  predicate DigitsSay(digits: string, n: nat) {
    digits != "" && (forall c <- digits :: Digit(c)) && Decimal(digits) == n
  }

  /** What a client finds: for calls in order the status, headers and body they name; otherwise a
      complete 500 with the persistent headers of the longest beginning that was in order. */
  ghost predicate Answers(text: string, http11: bool, close: bool, calls: seq<Call>) {
    if InOrder(calls) then
      exists code, top, more, length, body ::
        && StatusIs(calls, code) && LinesSay(top, calls, true) && LinesSay(more, calls, false) && BodySays(body, calls)
        && LengthSays(length, code, body)
        && Reads(text, http11, close, code, top, more, length, body)
    else
      exists n: nat, top, length ::
        && n < |calls| && InOrder(calls[..n]) && !InOrder(calls[..n + 1])
        && LinesSay(top, calls[..n], true)
        && LengthSays(length, 500, "Response contract violation")
        && Reads(text, http11, close, 500, top, ["Content-Type: text/plain"], length, "Response contract violation")
  }

  lemma {:induction false} AcceptedFirst(calls: seq<Call>) returns (n: nat)
    requires !Legal(calls)
    ensures n < |calls| && calls[..n] == Accepted(calls) && Legal(calls[..n]) && !Legal(calls[..n + 1])
    decreases |calls|
  {
    hide Legal, LegalAt;
    if calls == [] {
      NothingCalled();
    } else {
      n := |calls| - 1;
      LegalPrefix(calls);
      AcceptedIffLegal(calls[..n]);
      assert calls[..n + 1] == calls;
      if !Legal(calls[..n]) {
        var before := calls[..n];
        n := AcceptedFirst(before);
        assert before[..n] == calls[..n] && before[..n + 1] == calls[..n + 1];
      }
    }
  }

  lemma LengthTells(length: seq<string>, body: string, code: nat)
    requires LengthTold(length, body, StatusForbidsBody(code))
    ensures LengthSays(length, code, body)
  {
    hide Decimal;
    BodilessIff(code);
    assert forall d | 0 <= d < 10 :: Digit(DIGITS[d]);
  }

  lemma LinesRead(http11: bool, close: bool, code: nat, top: seq<string>, more: seq<string>, length: seq<string>,
                  body: string, text: string)
    requires code < 1000
    requires ReadResponse(text) == (CommittedLines(http11, close, code, top, more, length), body)
    ensures Reads(text, http11, close, code, top, more, length, body)
  {
    hide StatusSays, StatusLine, ReadResponse;
    StatusReads(http11, code);
    var first, connection := StatusLine(http11, code), ConnectionLine(close);
    assert [first] + top + ([connection] + more) + length == [first] + top + [connection] + more + length;
  }

  lemma BuiltAnswers(http11: bool, close: bool, calls: seq<Call>, text: string, length: seq<string>)
    requires forall c <- calls :: c.Status? ==> c.code < 1000
    requires BuiltFrom(http11, close, calls, text, length)
    ensures Answers(text, http11, close, calls)
  {
    hide Legal, StatusIs, LinesSay, BodySays, LengthTold, LengthSays, CommittedLines, Reads, ReadResponse, Bodiless,
        StatusAfter, StatusForbidsBody, Accepted, InOrder;
    LegalIff(calls);
    if Legal(calls) {
      var code := StatusAfter(calls);
      StatusIff(calls, code);
      CodeBound(calls);
      var top, more, body := HeaderLines(calls, true), HeaderLines(calls, false), Written(calls);
      LinesTold(calls, true);
      LinesTold(calls, false);
      BodyTold(calls);
      LengthTells(length, body, code);
      LinesRead(http11, close, code, top, more, length, body, text);
    } else {
      var n := AcceptedFirst(calls);
      LegalIff(calls[..n]);
      LegalIff(calls[..n + 1]);
      LinesTold(calls[..n], true);
      BodilessIff(500);
      NotBodiless(500);
      LengthTells(length, VIOLATION, 500);
      LinesRead(http11, close, 500, HeaderLines(calls[..n], true), [TEXT_PLAIN], length, VIOLATION, text);
    }
  }

  lemma NotBodiless(code: nat)
    requires code >= 500
    ensures !Bodiless(code)
  {
  }

  lemma LinesTold(calls: seq<Call>, persistent: bool)
    ensures LinesSay(HeaderLines(calls, persistent), calls, persistent)
  {
    var at := LinesPlaced(calls, persistent);
  }

  lemma BodyTold(calls: seq<Call>)
    ensures BodySays(Written(calls), calls)
  {
    var cuts := BodyPieces(calls);
  }

  lemma {:induction false} CodeBound(calls: seq<Call>)
    requires forall c <- calls :: c.Status? ==> c.code < 1000
    ensures StatusAfter(calls) < 1000
    decreases |calls|
  {
    if calls != [] {
      assert calls[|calls| - 1] in calls;
      CodeBound(calls[..|calls| - 1]);
    }
  }

  /** A handler's calls in any order, then the engine's commit if the handler made none: what a plain
      reader finds in the bytes. */
  method BuildResponse(http11: bool, shouldClose: bool, calls: seq<Call>) returns (bytes: string)
    requires forall c <- calls :: c.Status? ==> c.code < 1000
    ensures Answers(bytes, http11, shouldClose, calls)
  {
    hide Render, Step, Committed, BuiltFrom, Shaped, Base, BeforeLength, Answers;
    var res := new HttpResponse(http11, shouldClose);
    var i := 0;
    while i < |calls|
      invariant i <= |calls| && res.Valid() && res.r == After(calls[..i])
    {
      var call := calls[i];
      assert call in calls;
      assert calls[..i + 1][..i] == calls[..i] && calls[..i + 1][i] == call;
      match call {
        case Status(code) => res.WriteStatus(code);
        case Header(key, value) => res.WriteHeader(key, value);
        case Persistent(key, value) => res.WritePersistentHeader(key, value);
        case Body(data) => res.WriteBodyData(data);
        case Finish => FinishCommits(res.r); res.Commit();
      }
      i := i + 1;
    }
    assert calls[..i] == calls;
    if res.phase != COMMITTED {
      res.Commit();
    }
    bytes := res.buf;
    CallsFramed(http11, shouldClose, calls);
    ghost var length :| BuiltFrom(http11, shouldClose, calls, bytes, length);
    BuiltAnswers(http11, shouldClose, calls, bytes, length);
  }
}
