/** Flush rounds: a chunked body sent while the handler runs, over a socket that takes bytes as it
    likes. */
module ChunkedSending {
  import opened Helpers
  import opened ResponseSpec
  import opened ChunkedCoding

  datatype FlushStatus = Completed | Pending | Failed

  /** What a write to the socket does: takes some bytes, asks to wait, or fails. */
  datatype WriteResult = Took(n: nat) | Again | Error

  /** Bytes a write of `left` takes when the socket says it took `n`: at least one and at most all. */
  function Bytes(n: nat, left: nat): nat { if 0 < n <= left then n else left }

  /** How handing over `left` bytes ends, from the socket's `i`th answer on. */
  function DrainFrom(socket: nat -> WriteResult, i: nat, left: nat): FlushStatus
    decreases left
  {
    if left == 0 then Completed
    else
      match socket(i)
      case Took(n) => DrainFrom(socket, i + 1, left - Bytes(n, left))
      case Again => Pending
      case Error => Failed
  }

  /** The socket's answers from the `i`th to before the `j`th take `left` bytes down to `rest`, the last
      of them included. */
  ghost predicate TakenDown(socket: nat -> WriteResult, i: nat, j: nat, left: nat, rest: nat)
    decreases j - i
  {
    if i >= j then i == j && left == rest
    else
      && left > 0
      && match socket(i)
         case Took(n) => TakenDown(socket, i + 1, j, left - Bytes(n, left), rest)
         case Again => TakenDown(socket, i + 1, j, left, rest)
         case Error => false
  }

  lemma {:induction false} TakenFurther(socket: nat -> WriteResult, i: nat, j: nat, k: nat, left: nat, mid: nat,
      rest: nat)
    requires TakenDown(socket, i, j, left, mid) && TakenDown(socket, j, k, mid, rest)
    ensures TakenDown(socket, i, k, left, rest)
    decreases j - i
  {
    if i < j {
      TakenFurther(socket, i + 1, j, k, if socket(i).Took? then left - Bytes(socket(i).n, left) else left, mid, rest);
    }
  }

  lemma TakenNone(socket: nat -> WriteResult, i: nat, left: nat)
    ensures TakenDown(socket, i, i, left, left)
  {
  }

  lemma DrainNothing(socket: nat -> WriteResult, i: nat)
    ensures DrainFrom(socket, i, 0) == Completed
  {
  }

  /** One more answer of the socket. */
  lemma TakenStep(socket: nat -> WriteResult, from: nat, i: nat, whole: nat, left: nat)
    requires TakenDown(socket, from, i, whole, left) && left > 0
    ensures match socket(i)
            case Took(n) =>
              && TakenDown(socket, from, i + 1, whole, left - Bytes(n, left))
              && DrainFrom(socket, i, left) == DrainFrom(socket, i + 1, left - Bytes(n, left))
            case Again => TakenDown(socket, from, i + 1, whole, left) && DrainFrom(socket, i, left) == Pending
            case Error => DrainFrom(socket, i, left) == Failed
  {
    match socket(i)
    case Took(n) => TakenFurther(socket, from, i, i + 1, whole, left, left - Bytes(n, left));
    case Again => TakenFurther(socket, from, i, i + 1, whole, left, left);
    case Error =>
  }

  /** A flush session: body bytes are gathered behind a gap that takes their size. */
  class FlushSession {
    const socket: nat -> WriteResult
    var calls: nat             // writes handed to the socket so far
    var buf: string
    var writtenLength: nat
    var bodyStartOffset: nat
    var awaitFlushFinal: bool
    var finished: bool
    var sent: string           // bytes the socket has taken
    ghost const head: string   // status line and headers, up to the empty line
    ghost var rounds: seq<string>
    ghost var written: string  // everything the handler wrote as body

    ghost predicate Known()
      reads this
    {
      forall p <- rounds :: Sizes(RoundDigits(p), p)
    }

    /** Between rounds: what precedes the gap has been framed, what follows it is still to be. */
    ghost predicate Gathering()
      reads this
    {
      && Known() && !finished && writtenLength == 0 && RESERVE <= bodyStartOffset <= |buf|
      && sent + buf[..bodyStartOffset - RESERVE] == head + Chunks(RoundDigits, rounds)
      && written == Pieces(rounds) + buf[bodyStartOffset..]
    }

    /** While a round is going out. */
    ghost predicate Draining()
      reads this
    {
      && Known() && !finished && writtenLength <= |buf| && written == Pieces(rounds)
      && sent + buf[writtenLength..] == head + Chunks(RoundDigits, rounds) + if awaitFlushFinal then TERMINATOR else ""
    }

    /** After the last round: a decoder recovers exactly what was written. */
    ghost predicate Delivered()
      reads this
    {
      finished && head <= sent && Decode(sent[|head|..]) == Some((written, ""))
    }

    /** The bytes the next round hands to the socket: what precedes the gap, the chunk, if anything was
        gathered, and after the last round the terminator. */
    ghost function Due(isFinal: bool): nat
      requires RESERVE <= bodyStartOffset <= |buf|
      reads this
    {
      var piece := buf[bodyStartOffset..];
      bodyStartOffset - RESERVE + (if piece == "" then 0 else |Chunk(RoundDigits(piece), piece)|)
        + if isFinal then |TERMINATOR| else 0
    }

    constructor (head: string, socket: nat -> WriteResult)
      ensures Gathering() && written == "" && this.head == head && this.socket == socket && calls == 0
    {
      this.head, this.socket, calls := head, socket, 0;
      buf := head + seq(RESERVE, _ => '\0');
      writtenLength, bodyStartOffset, awaitFlushFinal, finished := 0, |head| + RESERVE, false, false;
      sent, rounds, written := "", [], "";
      new;
      assert "" + buf[..bodyStartOffset - RESERVE] == head == head + "";
      assert buf[bodyStartOffset..] == "";
    }

    method WriteBodyData(data: string)
      requires Gathering()
      modifies this`buf, this`written
      ensures Gathering() && written == old(written) + data
    {
      ghost var before := buf;
      buf := buf + data;
      written := written + data;
      assert buf[..bodyStartOffset - RESERVE] == before[..bodyStartOffset - RESERVE];
      assert buf[bodyStartOffset..] == before[bodyStartOffset..] + data;
      Assoc(Pieces(rounds), before[bodyStartOffset..], data);
    }

    /** Puts the round's size into its gap; a last round without bytes is the terminator alone. */
    method PrepareFlushChunk(isFinal: bool)
      requires Gathering() && |buf| - bodyStartOffset < U32 && (isFinal || bodyStartOffset < |buf|)
      modifies this`buf, this`awaitFlushFinal, this`rounds
      ensures awaitFlushFinal == isFinal && Draining() && |buf| == old(Due(isFinal))
    {
      hide Chunks, Pieces, Sizes, RoundDigits;
      awaitFlushFinal := isFinal;
      if |buf| == bodyStartOffset {
        ghost var lead := buf[..bodyStartOffset - RESERVE];
        NoMore(rounds, buf[bodyStartOffset..]);
        buf := buf[..|buf| - RESERVE] + TERMINATOR;
        assert buf == lead + TERMINATOR;
        Assoc(sent, lead, TERMINATOR);
        assert buf[0..] == buf;
      } else {
        FrameRound();
      }
    }

    /** Backfills the gap with the size of what follows it, and closes the chunk. */
    method FrameRound()
      requires Gathering() && 0 < |buf| - bodyStartOffset < U32
      modifies this`buf, this`rounds
      ensures Draining() && |buf| == old(Due(awaitFlushFinal))
    {
      hide Chunks, Pieces, Sizes, FixedHex;
      ghost var lead, piece := buf[..bodyStartOffset - RESERVE], buf[bodyStartOffset..];
      ghost var tail := if awaitFlushFinal then TERMINATOR else "";
      RoundSizes(piece);
      AddChunk(RoundDigits, rounds, piece);
      FramedRound(sent, lead, head, Chunks(RoundDigits, rounds), RoundDigits(piece), piece, tail);
      var size := FormatFixedHex8(|buf| - bodyStartOffset);
      buf := buf[..bodyStartOffset - RESERVE] + (size + CRLF) + buf[bodyStartOffset..];
      buf := buf + CRLF;
      assert buf + "" == buf;
      if awaitFlushFinal {
        buf := buf + TERMINATOR;
      }
      rounds := rounds + [piece];
      assert buf[0..] == buf;
    }

    /** Hands bytes to the socket until all are gone or it asks to wait. */
    method DrainWriteBuffer() returns (status: FlushStatus)
      requires Draining()
      modifies this`writtenLength, this`sent, this`calls
      ensures Draining() && status == DrainFrom(socket, old(calls), |buf| - old(writtenLength))
      ensures status.Completed? ==> writtenLength == |buf|
      ensures !status.Failed? ==>
              TakenDown(socket, old(calls), calls, |buf| - old(writtenLength), |buf| - writtenLength)
    {
      hide Chunks, Pieces, Sizes, TakenDown, DrainFrom;
      ghost var from, whole, out := calls, |buf| - writtenLength, sent + buf[writtenLength..];
      TakenNone(socket, calls, whole);
      while writtenLength < |buf|
        invariant writtenLength <= |buf| && sent + buf[writtenLength..] == out
        invariant TakenDown(socket, from, calls, whole, |buf| - writtenLength)
        invariant DrainFrom(socket, from, whole) == DrainFrom(socket, calls, |buf| - writtenLength)
        decreases |buf| - writtenLength
      {
        var r := socket(calls);
        TakenStep(socket, from, calls, whole, |buf| - writtenLength);
        calls := calls + 1;
        if r.Again? {
          return Pending;
        }
        if r.Error? {
          return Failed;
        }
        var n := Bytes(r.n, |buf| - writtenLength);
        CutAt(buf, writtenLength, n);
        Assoc(sent, buf[writtenLength..writtenLength + n], buf[writtenLength + n..]);
        sent := sent + buf[writtenLength..writtenLength + n];
        writtenLength := writtenLength + n;
      }
      DrainNothing(socket, calls);
      return Completed;
    }

    /** The round is out: a new gap, or the end. */
    method CompleteFlushRound()
      requires Draining() && writtenLength == |buf|
      modifies this
      ensures written == old(written) && sent == old(sent) && calls == old(calls)
              && (if old(awaitFlushFinal) then Delivered() else Gathering())
    {
      hide Chunks, Pieces, Decode, Sizes;
      assert buf[writtenLength..] == "" && sent + "" == sent;
      ghost var framed := head + Chunks(RoundDigits, rounds);
      buf, writtenLength := "", 0;
      if awaitFlushFinal {
        ChunkedBodyDecodes(RoundDigits, rounds);
        assert sent == framed + TERMINATOR;
        assert sent[|head|..] == Chunks(RoundDigits, rounds) + TERMINATOR;
        finished := true;
      } else {
        assert framed + "" == framed;
        buf := seq(RESERVE, _ => '\0');
        bodyStartOffset := |buf|;
        assert buf[..0] == "" && buf[RESERVE..] == "";
        assert Pieces(rounds) + "" == Pieces(rounds);
      }
      awaitFlushFinal := false;
    }

    /** Flushes what was gathered. A round without bytes is only sent when it is the last. */
    method FlushChunk(isFinal: bool) returns (status: FlushStatus)
      requires Gathering() && |buf| - bodyStartOffset < U32
      modifies this
      ensures written == old(written)
      ensures if !isFinal && old(bodyStartOffset == |buf|) then status == Completed && calls == old(calls)
              else status == DrainFrom(socket, old(calls), old(Due(isFinal)))
      ensures status.Pending? ==>
                && Draining() && awaitFlushFinal == isFinal
                && TakenDown(socket, old(calls), calls, old(Due(isFinal)), |buf| - writtenLength)
      ensures status.Completed? ==> if isFinal then Delivered() else Gathering()
    {
      hide DrainFrom, TakenDown, Chunk, Chunks, Pieces, Sizes, Decode, RoundDigits;
      if !isFinal && |buf| <= bodyStartOffset {
        return Completed;
      }
      PrepareFlushChunk(isFinal);
      status := DrainWriteBuffer();
      if status == Completed {
        CompleteFlushRound();
      }
    }

    /** The socket is ready again. */
    method ResumeFlushChunk() returns (status: FlushStatus)
      requires Draining()
      modifies this
      ensures written == old(written) && status == DrainFrom(socket, old(calls), old(|buf| - writtenLength))
      ensures status.Pending? ==>
                && Draining() && awaitFlushFinal == old(awaitFlushFinal)
                && TakenDown(socket, old(calls), calls, old(|buf| - writtenLength), |buf| - writtenLength)
      ensures status.Completed? ==> if old(awaitFlushFinal) then Delivered() else Gathering()
    {
      hide DrainFrom, TakenDown, Chunk, Chunks, Pieces, Sizes, Decode, RoundDigits;
      status := DrainWriteBuffer();
      if status == Completed {
        CompleteFlushRound();
      }
    }
  }

  /** Eight digits, written from the last one up. */
  method FormatFixedHex8(value: nat) returns (s: string)
    ensures s == FixedHex(value, 8)
  {
    var out := new char[8];
    var rest, i := value, 8;
    while i > 0
      invariant 0 <= i <= 8 && FixedHex(value, 8) == FixedHex(rest, i) + out[i..]
    {
      i := i - 1;
      out[i] := HEX[rest % 16];
      assert out[i..] == [HEX[rest % 16]] + out[i + 1..];
      rest := rest / 16;
    }
    s := out[..];
  }

  lemma CutAt(s: string, i: nat, n: nat)
    requires i + n <= |s|
    ensures s[i..] == s[i..i + n] + s[i + n..]
  {
  }

  lemma NoMore(rounds: seq<string>, piece: string)
    requires piece == ""
    ensures Pieces(rounds) + piece == Pieces(rounds)
  {
  }

  lemma AddChunk(digits: string -> string, pieces: seq<string>, piece: string)
    ensures Chunks(digits, pieces + [piece]) == Chunks(digits, pieces) + Chunk(digits(piece), piece)
    ensures Pieces(pieces + [piece]) == Pieces(pieces) + piece
  {
    assert (pieces + [piece])[..|pieces|] == pieces;
  }

  lemma FramedRound(sent: string, lead: string, head: string, chunks: string, size: string, piece: string, tail: string)
    requires sent + lead == head + chunks
    ensures sent + (lead + (size + CRLF) + piece + CRLF + tail) == head + (chunks + Chunk(size, piece)) + tail
  {
    assert sent + (lead + (size + CRLF) + piece + CRLF + tail) == sent + lead + (size + CRLF + piece + CRLF) + tail;
    assert head + (chunks + Chunk(size, piece)) + tail == head + chunks + Chunk(size, piece) + tail;
  }
}
