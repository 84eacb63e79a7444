/** Chunks drawn from a generator and sent over a socket that takes bytes as it likes. */
module ChunkedStreaming {
  import opened Helpers
  import opened ResponseSpec
  import opened ChunkedCoding
  import opened ChunkedSending

  datatype StreamAction = Continue | StopAndAlive | StopAndClose

  /** What a generator returns for one buffer. */
  datatype StreamResult = StreamResult(data: string, action: StreamAction)

  /** `More` asks for the generator's next bytes, `Waiting` for the socket. */
  datatype StreamStatus = More | Waiting | Done | Closed

  /** A generator result the sender refuses: no progress, or a size of more than seven hex digits. */
  predicate Refused(r: StreamResult) {
    (r.action.Continue? && r.data == "") || |r.data| >= 0x1000_0000
  }

  /** The bytes a generator's result puts on the wire. */
  function Framed(r: StreamResult): nat {
    if r.data == "" then 0 else |Chunk(StreamDigits(r.data), r.data)|
  }

  /** The socket takes the whole chunk without asking to wait. */
  predicate TakesChunk(socket: nat -> WriteResult, i: nat, data: string) {
    DrainFrom(socket, i, |Chunk(StreamDigits(data), data)|) == Completed
  }

  /** How far a stream has come: what it waits for, whether the terminator is on its way, the answers
      of the socket and of the generator used up, and the turns. */
  datatype Progress = Progress(status: StreamStatus, ended: bool, calls: nat, asked: nat, turn: nat)

  /** No turn is lost but to one of the socket's answers from the `i`th to before the `n`th. */
  ghost predicate OnTime(p: Progress, stop: nat, i: nat, n: nat) {
    && i <= p.calls
    && match p.status
       case More => p.turn + i <= p.asked + Min(p.calls, n) && p.asked <= stop
       case Waiting => p.turn + i < p.asked + Min(p.calls, n)
           && if p.ended then p.asked == stop + 1 else p.asked <= stop
       case Done => p.asked == stop + 1
       case Closed => false
  }

  ghost predicate OnTheWire(head: string, pieces: seq<string>, ended: bool, out: string) {
    out == head + Chunks(StreamDigits, pieces) + if ended then TERMINATOR else ""
  }

  ghost predicate StopsAt(gen: nat -> StreamResult, stop: nat) {
    && !gen(stop).action.Continue? && !Refused(gen(stop))
    && forall k | 0 <= k < stop :: gen(k).action.Continue? && !Refused(gen(k))
  }

  /** Sends a generator's bytes as chunks, each framed in the buffer the generator wrote it to. */
  class StreamSender {
    const region: array<char>
    const socket: nat -> WriteResult
    var calls: nat               // writes handed to the socket so far
    var writtenLength: nat
    var dataLength: nat
    var sent: string
    var ended: bool              // the stop was seen and the terminator is on its way
    ghost const head: string
    ghost var pieces: seq<string>
    ghost var socketFailed: bool

    /** Sent and still buffered bytes are the framed pieces, and after the stop the terminator. */
    ghost predicate Streaming()
      reads this, region
    {
      && region.Length > RESERVE + 2 && writtenLength <= dataLength <= region.Length && !socketFailed
      && (forall p <- pieces :: Sizes(StreamDigits(p), p))
      && OnTheWire(head, pieces, ended, sent + region[writtenLength..dataLength])
    }

    /** The socket takes bytes or asks to wait. */
    ghost predicate Unfailing() {
      forall i :: !socket(i).Error?
    }

    /** From its `i`th answer on it takes bytes. */
    ghost predicate Willing(i: nat) {
      forall j | j >= i :: socket(j).Took?
    }

    /** Everything is out: a decoder recovers exactly the generator's bytes. */
    ghost predicate Delivered()
      reads this
    {
      head <= sent && Decode(sent[|head|..]) == Some((Pieces(pieces), ""))
    }

    constructor (capacity: nat, head: string, socket: nat -> WriteResult)
      requires capacity > RESERVE + 2
      ensures Streaming() && writtenLength == dataLength && !ended && pieces == [] && calls == 0
      ensures this.head == head && region.Length == capacity && this.socket == socket && fresh(region)
    {
      this.socket, calls := socket, 0;
      region := new char[capacity](_ => '\0');
      this.head, sent, writtenLength, dataLength, ended, pieces, socketFailed := head, head, 0, 0, false, [], false;
      new;
      assert head + "" + "" == head + region[0..0];
    }

    /** The generator has put its bytes behind the reserve: frames them where they are, the size
        right-aligned before them. */
    method Frame(data: string)
      requires 0 < |data| < 0x1000_0000 && RESERVE + |data| + 2 <= region.Length
              && region[RESERVE..RESERVE + |data|] == data
      modifies region, this`writtenLength, this`dataLength
      ensures writtenLength <= dataLength <= region.Length
      ensures region[writtenLength..dataLength] == Chunk(StreamDigits(data), data)
    {
      hide ShortHex, Pow16, Chunk;
      var hdr := ShortHex(|data|) + CRLF;
      SevenDigits();
      ShortHexWidth(|data|, 7);
      ChunkIs(data);
      var hdrLen := |hdr|;
      forall i | 0 <= i < hdrLen {
        region[RESERVE - hdrLen + i] := hdr[i];
      }
      region[RESERVE + |data|] := '\r';
      region[RESERVE + |data| + 1] := '\n';
      writtenLength, dataLength := RESERVE - hdrLen, RESERVE + |data| + 2;
      assert region[writtenLength..RESERVE] == hdr;
      assert region[RESERVE + |data|..dataLength] == CRLF;
      assert region[RESERVE..RESERVE + |data|] == data;
      Cut(region[..], writtenLength, RESERVE, RESERVE + |data|, dataLength);
    }

    /** Hands the framed bytes to the socket until all are gone or it asks to wait. */
    method Drain() returns (status: FlushStatus)
      requires Streaming()
      modifies this`writtenLength, this`sent, this`socketFailed, this`calls
      ensures status == DrainFrom(socket, old(calls), dataLength - old(writtenLength))
      ensures status.Failed? <==> socketFailed
      ensures !status.Failed? ==> Streaming()
      ensures status.Completed? <==> !socketFailed && writtenLength == dataLength
      ensures calls >= old(calls) && (!status.Completed? ==> calls > old(calls)) && (Unfailing() ==> !socketFailed)
      ensures !status.Failed? ==>
              TakenDown(socket, old(calls), calls, dataLength - old(writtenLength), dataLength - writtenLength)
    {
      hide Chunks, Sizes, TakenDown, DrainFrom, OnTheWire;
      ghost var from, whole := calls, dataLength - writtenLength;
      TakenNone(socket, calls, whole);
      while writtenLength < dataLength
        invariant Streaming() && calls >= from
        invariant TakenDown(socket, from, calls, whole, dataLength - writtenLength)
        invariant DrainFrom(socket, from, whole) == DrainFrom(socket, calls, dataLength - writtenLength)
        decreases dataLength - writtenLength
      {
        var r := socket(calls);
        TakenStep(socket, from, calls, whole, dataLength - writtenLength);
        calls := calls + 1;
        if r.Again? {
          return Pending;
        }
        if r.Error? {
          socketFailed := true;
          return Failed;
        }
        var n := Bytes(r.n, dataLength - writtenLength);
        CutSent(n);
        sent := sent + region[writtenLength..writtenLength + n];
        writtenLength := writtenLength + n;
      }
      DrainNothing(socket, calls);
      return Completed;
    }

    lemma CutSent(n: nat)
      requires writtenLength + n <= dataLength <= region.Length
      ensures sent + region[writtenLength..dataLength]
           == sent + region[writtenLength..writtenLength + n] + region[writtenLength + n..dataLength]
    {
      assert region[writtenLength..dataLength]
          == region[writtenLength..writtenLength + n] + region[writtenLength + n..dataLength];
      Assoc(sent, region[writtenLength..writtenLength + n], region[writtenLength + n..dataLength]);
    }

    /** Takes one result of the generator. Its bytes become a chunk; after a stop the terminator
        follows, unless the socket asks to wait during the stop's own bytes: then the stop is
        forgotten, and the generator is asked again. */
    method ResumeStream(r: StreamResult) returns (status: StreamStatus)
      requires Streaming() && writtenLength == dataLength && !ended && RESERVE + |r.data| + 2 <= region.Length
      modifies this, region
      ensures status.Closed? <==> Refused(r) || socketFailed
      ensures !status.Closed? ==> Streaming() && pieces == old(pieces) + if r.data == "" then [] else [r.data]
      ensures calls >= old(calls) && (status.Waiting? ==> calls > old(calls)) && (Unfailing() ==> !socketFailed)
      ensures Willing(old(calls)) ==> !status.Waiting?
      ensures status.More? ==> r.action.Continue? && !ended && writtenLength == dataLength
      ensures status.Done? ==> !r.action.Continue? && ended && Delivered()
      ensures status.Waiting? && !ended ==> r.data != ""
      ensures !status.Closed? ==>
              (ended <==> !r.action.Continue? && (r.data == "" || TakesChunk(socket, old(calls), r.data)))
      ensures !status.Closed? && !ended ==>
              TakenDown(socket, old(calls), calls, Framed(r), dataLength - writtenLength)
    {
      hide Chunks, Sizes, Decode, Pieces, TakenDown;
      if r.action.Continue? && r.data == "" {
        return Closed;
      }
      if |r.data| >= 0x1000_0000 {
        return Closed;
      }
      Emptied();
      TakenNone(socket, calls, 0);
      if r.data != "" {
        if Willing(calls) {
          TakesAll(socket, calls, |Chunk(StreamDigits(r.data), r.data)|);
        }
        var drained := SendChunk(r.data);
        if drained.Failed? {
          return Closed;
        }
        if drained.Pending? {
          return Waiting;
        }
      } else {
        assert pieces + [] == pieces;
      }
      if r.action.Continue? {
        return More;
      }
      status := SendEnd();
    }

    lemma Emptied()
      requires Streaming() && writtenLength == dataLength
      ensures sent == head + Chunks(StreamDigits, pieces) + if ended then TERMINATOR else ""
    {
      assert region[writtenLength..dataLength] == "";
      assert sent + "" == sent;
    }

    method SendChunk(data: string) returns (drained: FlushStatus)
      requires Streaming() && writtenLength == dataLength && !ended && 0 < |data| < 0x1000_0000
              && RESERVE + |data| + 2 <= region.Length
      modifies this`writtenLength, this`dataLength, this`sent, this`socketFailed, this`pieces, this`calls, region
      ensures drained.Completed? <==> TakesChunk(socket, old(calls), data)
      ensures drained.Failed? <==> socketFailed
      ensures !drained.Failed? ==> Streaming() && pieces == old(pieces) + [data]
      ensures calls >= old(calls) && (!drained.Completed? ==> calls > old(calls)) && (Unfailing() ==> !socketFailed)
      ensures drained.Completed? ==> writtenLength == dataLength
      ensures !drained.Failed? ==>
              TakenDown(socket, old(calls), calls, |Chunk(StreamDigits(data), data)|, dataLength - writtenLength)
    {
      hide Chunks, Sizes, Pieces, ShortHex, TakenDown;
      Emptied();
      forall i | 0 <= i < |data| {
        region[RESERVE + i] := data[i];
      }
      assert region[RESERVE..RESERVE + |data|] == data;
      Frame(data);
      StreamSizes(data);
      AddChunk(StreamDigits, pieces, data);
      Assoc(head, Chunks(StreamDigits, pieces), Chunk(StreamDigits(data), data));
      pieces := pieces + [data];
      assert head + Chunks(StreamDigits, pieces) + "" == head + Chunks(StreamDigits, pieces);
      drained := Drain();
    }

    method SendEnd() returns (status: StreamStatus)
      requires Streaming() && writtenLength == dataLength && !ended
      modifies this`writtenLength, this`dataLength, this`sent, this`socketFailed, this`ended, this`calls, region
      ensures ended && !status.More? && (status.Closed? <==> socketFailed)
      ensures calls >= old(calls) && (status.Waiting? ==> calls > old(calls)) && (Unfailing() ==> !socketFailed)
      ensures Willing(old(calls)) ==> !status.Waiting?
      ensures !status.Closed? ==> Streaming()
      ensures status.Done? ==> Delivered()
    {
      hide Chunks, Sizes, Pieces, Decode, TakenDown;
      Emptied();
      forall i | 0 <= i < 5 {
        region[i] := TERMINATOR[i];
      }
      assert region[0..5] == TERMINATOR;
      assert sent + "" == sent;
      writtenLength, dataLength, ended := 0, 5, true;
      if Willing(calls) {
        TakesAll(socket, calls, 5);
      }
      var drained := Drain();
      match drained
      case Failed => return Closed;
      case Pending => return Waiting;
      case Completed =>
        Emptied();
        AllOut();
        return Done;
    }

    lemma AllOut()
      requires Streaming() && writtenLength == dataLength && ended
      ensures Delivered()
    {
      Emptied();
      ChunkedBodyDecodes(StreamDigits, pieces);
      Assoc(head, Chunks(StreamDigits, pieces), TERMINATOR);
      assert sent[|head|..] == Chunks(StreamDigits, pieces) + TERMINATOR;
    }

    /** The socket is ready again: the rest of what is buffered, and then the generator's turn, unless
        the terminator was what was left. */
    method FinishPartial() returns (status: StreamStatus)
      requires Streaming()
      modifies this`writtenLength, this`sent, this`socketFailed, this`calls
      ensures status.Closed? <==> socketFailed
      ensures !status.Closed? ==> Streaming()
      ensures status.More? <==> !ended && DrainFrom(socket, old(calls), dataLength - old(writtenLength)).Completed?
      ensures status.More? ==> writtenLength == dataLength
      ensures status.Done? ==> ended && Delivered()
      ensures calls >= old(calls) && (status.Waiting? ==> calls > old(calls)) && (Unfailing() ==> !socketFailed)
      ensures Willing(old(calls)) ==> !status.Waiting?
      ensures !status.Closed? ==>
              TakenDown(socket, old(calls), calls, dataLength - old(writtenLength), dataLength - writtenLength)
    {
      hide TakenDown, DrainFrom, Chunks, Sizes, Decode, Pieces, OnTheWire;
      if Willing(calls) {
        TakesAll(socket, calls, dataLength - writtenLength);
      }
      var drained := Drain();
      match drained
      case Failed => return Closed;
      case Pending => return Waiting;
      case Completed =>
        if !ended {
          return More;
        }
        AllOut();
        return Done;
    }

    /** The generator's `stop`th result is its first stop and nothing before is refused; the socket never
        fails and from its `n`th answer on takes bytes, and before that no stop's own bytes are due. */
    ghost predicate EndsAt(gen: nat -> StreamResult, stop: nat, i: nat, n: nat) {
      && i <= n && Unfailing() && Willing(n) && StopsAt(gen, stop) && (i == n || gen(stop).data == "")
    }

    /** One turn asks the generator. */
    ghost predicate Asking(gen: nat -> StreamResult, p: Progress, q: Progress) {
      && p.status.More? && q.asked == p.asked + 1 && q.turn == p.turn + 1 && p.calls <= q.calls
      && (q.status.Closed? ==> Refused(gen(p.asked)) || !Unfailing())
      && (q.status.Waiting? ==> p.calls < q.calls && !Willing(p.calls))
      && (q.status.More? ==> gen(p.asked).action.Continue? && !q.ended)
      && (q.status.Done? || (q.ended && !q.status.Closed?) ==> !gen(p.asked).action.Continue?)
      && (q.status.Waiting? && !gen(p.asked).action.Continue? && gen(p.asked).data == "" ==> q.ended)
    }

    /** One turn finds the socket ready. */
    ghost predicate Resuming(p: Progress, q: Progress) {
      && p.status.Waiting? && q.asked == p.asked && q.turn == p.turn + 1 && q.ended == p.ended && p.calls <= q.calls
      && (q.status.Closed? ==> !Unfailing())
      && (q.status.Waiting? ==> p.calls < q.calls && !Willing(p.calls))
      && (q.status.More? ==> !p.ended) && (q.status.Done? ==> p.ended)
    }

    lemma TurnOnTime(gen: nat -> StreamResult, p: Progress, q: Progress, stop: nat, i: nat, n: nat)
      requires EndsAt(gen, stop, i, n) && OnTime(p, stop, i, n) && (Asking(gen, p, q) || Resuming(p, q))
      ensures OnTime(q, stop, i, n)
    {
      assert q.status.Waiting? ==> p.calls < n;
      if p.status.More? && p.asked < stop {
        assert gen(p.asked).action.Continue?;
      }
    }

    /** What holds between turns: `at` holds the socket's answers used up before each question. */
    ghost predicate Told(gen: nat -> StreamResult, status: StreamStatus, at: seq<nat>, from: nat)
      reads this, region
    {
      var asked := |at|;
      && from <= calls && (if asked > 0 then at[0] == from else calls == from && status.More?)
      && (!status.Closed? ==> Streaming() && Pieces(pieces) == Said(gen, asked))
      && (status.More? ==> !ended && writtenLength == dataLength)
      && (status.Done? ==> ended && Delivered())
      && (!status.Closed? && ended ==> asked > 0 && !gen(asked - 1).action.Continue?)
      && (!status.Closed? && !ended && asked > 0 ==>
            && TakenDown(socket, at[asked - 1], calls, Framed(gen(asked - 1)), dataLength - writtenLength)
            && (gen(asked - 1).action.Continue? || Forgotten(gen(asked - 1), at[asked - 1])))
      && forall k | 0 <= k < asked - 1 ::
           && TakenDown(socket, at[k], at[k + 1], Framed(gen(k)), 0)
           && (gen(k).action.Continue? || Forgotten(gen(k), at[k]))
    }

    /** The socket asks to wait during a result's own bytes. */
    ghost predicate Forgotten(r: StreamResult, i: nat) { r.data != "" && !TakesChunk(socket, i, r.data) }

    method Ask(gen: nat -> StreamResult, asked: nat, ghost at: seq<nat>, ghost from: nat, ghost turn: nat)
      returns (status: StreamStatus)
      requires asked == |at| && Told(gen, More, at, from) && RESERVE + |gen(asked).data| + 2 <= region.Length
      modifies this, region
      ensures Told(gen, status, at + [old(calls)], from)
      ensures Asking(gen, Progress(More, false, old(calls), asked, turn),
                     Progress(status, ended, calls, asked + 1, turn + 1))
    {
      hide Chunks, Sizes, Decode, DrainFrom, TakesChunk, TakenDown, Framed, OnTheWire, Pieces, Said, Delivered;
      SaidNext(pieces, gen, asked);
      status := ResumeStream(gen(asked));
    }

    method Ready(gen: nat -> StreamResult, ghost at: seq<nat>, ghost from: nat, ghost turn: nat)
      returns (status: StreamStatus)
      requires Told(gen, Waiting, at, from)
      modifies this`writtenLength, this`sent, this`socketFailed, this`calls
      ensures Told(gen, status, at, from)
      ensures Resuming(Progress(Waiting, ended, old(calls), |at|, turn), Progress(status, ended, calls, |at|, turn + 1))
    {
      hide Chunks, Sizes, Decode, DrainFrom, TakesChunk, TakenDown, Framed, OnTheWire, Pieces, Said;
      ghost var was, left, last := calls, dataLength - writtenLength, |at| - 1;
      status := FinishPartial();
      if !status.Closed? && !ended {
        TakenFurther(socket, at[last], was, calls, Framed(gen(last)), left, dataLength - writtenLength);
      }
    }

    /** A whole stream over `turns` turns of the event loop, each of which asks the generator or finds
        the socket ready; `at` holds the socket's answers used up before each question. A stop is
        followed by another question exactly when its own bytes had to wait; when stops carry no bytes
        none is, and a decoder recovers exactly what the generator said up to its first stop. With a
        socket that comes to take bytes, a generator that stops and turns enough, this is what happens. */
    method Stream(gen: nat -> StreamResult, turns: nat) returns (status: StreamStatus, asked: nat, ghost at: seq<nat>)
      requires Streaming() && writtenLength == dataLength && !ended && pieces == []
      requires forall k :: RESERVE + |gen(k).data| + 2 <= region.Length
      modifies this, region
      ensures |at| == asked && (asked > 0 ==> at[0] == old(calls))
      ensures forall k | 0 <= k < asked - 1 :: TakenDown(socket, at[k], at[k + 1], Framed(gen(k)), 0)
      ensures !status.Closed? ==> Streaming() && Pieces(pieces) == Said(gen, asked)
      ensures status.Done? ==> asked > 0 && !gen(asked - 1).action.Continue?
      ensures status.Done? ==> head <= sent && Decode(sent[|head|..]) == Some((Said(gen, asked), ""))
      ensures forall k | 0 <= k < asked - 1 && !gen(k).action.Continue? ::
              gen(k).data != "" && !TakesChunk(socket, at[k], gen(k).data)
      ensures QuietStops(gen) ==> forall k | 0 <= k < asked - 1 :: gen(k).action.Continue?
      ensures forall stop: nat, n: nat | EndsAt(gen, stop, old(calls), n) && turns > stop + n - old(calls) ::
              status.Done? && asked == stop + 1
    {
      hide EndsAt, OnTime, Told, Asking, Resuming, Chunks, Sizes, Decode, Pieces, Said, OnTheWire, TakenDown, Framed,
          TakesChunk, DrainFrom, Refused, Willing, Unfailing, StopsAt;
      status, asked, at := More, 0, [];
      ghost var from := calls;
      var turn := 0;
      forall stop: nat, n: nat | EndsAt(gen, stop, from, n)
        ensures OnTime(Progress(More, false, from, 0, 0), stop, from, n)
      {
        StartsOnTime(gen, stop, from, n);
      }
      StartsTold(gen);
      while turn < turns && (status.More? || status.Waiting?)
        invariant asked == |at| && Told(gen, status, at, from)
        invariant forall stop: nat, n: nat | EndsAt(gen, stop, from, n) ::
                    OnTime(Progress(status, ended, calls, asked, turn), stop, from, n)
      {
        ghost var p := Progress(status, ended, calls, asked, turn);
        if status.More? {
          NotEnded(gen, at, from);
          at := at + [calls];
          status := Ask(gen, asked, at[..asked], from, turn);
          asked := asked + 1;
        } else {
          status := Ready(gen, at, from, turn);
        }
        turn := turn + 1;
        forall stop: nat, n: nat | EndsAt(gen, stop, from, n)
          ensures OnTime(Progress(status, ended, calls, asked, turn), stop, from, n)
        {
          TurnOnTime(gen, p, Progress(status, ended, calls, asked, turn), stop, from, n);
        }
      }
      ToldAll(gen, status, at, from);
      forall stop: nat, n: nat | EndsAt(gen, stop, from, n) && turns > stop + n - from
        ensures status.Done? && asked == stop + 1
      {
        EndsInTime(gen, Progress(status, ended, calls, asked, turn), stop, from, n);
      }
    }

    lemma StartsTold(gen: nat -> StreamResult)
      requires Streaming() && writtenLength == dataLength && !ended && pieces == []
      ensures Told(gen, More, [], calls)
    {
    }

    lemma NotEnded(gen: nat -> StreamResult, at: seq<nat>, from: nat)
      requires Told(gen, More, at, from)
      ensures !ended
    {
    }

    /** What the turns together keep. */
    lemma ToldAll(gen: nat -> StreamResult, status: StreamStatus, at: seq<nat>, from: nat)
      requires Told(gen, status, at, from)
      ensures |at| > 0 ==> at[0] == from
      ensures forall k | 0 <= k < |at| - 1 :: TakenDown(socket, at[k], at[k + 1], Framed(gen(k)), 0)
      ensures !status.Closed? ==> Streaming() && Pieces(pieces) == Said(gen, |at|)
      ensures status.Done? ==> |at| > 0 && !gen(|at| - 1).action.Continue?
      ensures status.Done? ==> head <= sent && Decode(sent[|head|..]) == Some((Said(gen, |at|), ""))
      ensures forall k | 0 <= k < |at| - 1 && !gen(k).action.Continue? ::
                gen(k).data != "" && !TakesChunk(socket, at[k], gen(k).data)
      ensures QuietStops(gen) ==> forall k | 0 <= k < |at| - 1 :: gen(k).action.Continue?
    {
      hide Chunks, Sizes, Decode, DrainFrom, TakesChunk, TakenDown, Framed, OnTheWire, Said;
    }

    lemma StartsOnTime(gen: nat -> StreamResult, stop: nat, i: nat, n: nat)
      requires EndsAt(gen, stop, i, n)
      ensures OnTime(Progress(More, false, i, 0, 0), stop, i, n)
    {
    }

    /** A stream on time that has used its turns up, or wants no more, has ended. */
    lemma EndsInTime(gen: nat -> StreamResult, p: Progress, stop: nat, i: nat, n: nat)
      requires EndsAt(gen, stop, i, n) && OnTime(p, stop, i, n)
      requires p.turn > stop + n - i || !(p.status.More? || p.status.Waiting?)
      ensures p.status.Done? && p.asked == stop + 1
    {
    }
  }

  /** Everything the generator said in its first n results. */
  function Said(gen: nat -> StreamResult, n: nat): string {
    if n == 0 then "" else Said(gen, n - 1) + gen(n - 1).data
  }

  /** No stop carries bytes of its own. */
  ghost predicate QuietStops(gen: nat -> StreamResult) {
    forall k :: !gen(k).action.Continue? ==> gen(k).data == ""
  }

  lemma SaidNext(pieces: seq<string>, gen: nat -> StreamResult, n: nat)
    requires Pieces(pieces) == Said(gen, n)
    ensures Pieces(pieces + if gen(n).data == "" then [] else [gen(n).data]) == Said(gen, n + 1)
  {
    var data := gen(n).data;
    AddChunk(StreamDigits, pieces, data);
    if data == "" {
      assert pieces + [] == pieces && Said(gen, n) + data == Said(gen, n);
    }
  }

  /** A run in which a stop is forgotten: the generator says "a" and stops, the socket asks to wait,
      and the generator is asked again; what it says then is sent too. */
  method ForgottenStop() returns (sender: StreamSender, first: StreamStatus, second: StreamStatus, third: StreamStatus)
    ensures first == Waiting && second == More && third == Done
    ensures Decode(sender.sent) == Some(("a" + "b", ""))
  {
    hide Decode, Chunks, Pieces, Chunk, DrainFrom, TakesChunk, Sizes, StreamSender.Streaming, StreamSender.Delivered;
    var socket := (i: nat) => if i == 0 then Again else Took(0);
    sender := new StreamSender(RESERVE + 3, "", socket);
    WaitsAtOnce(socket, "a");
    first := sender.ResumeStream(StreamResult("a", StopAndAlive));
    second := sender.FinishPartial();
    third := sender.ResumeStream(StreamResult("b", StopAndAlive));
    DeliveredPieces(sender, "a", "b");
  }

  lemma DeliveredPieces(sender: StreamSender, a: string, b: string)
    requires sender.Delivered() && sender.head == "" && sender.pieces == [a] + [b]
    ensures Decode(sender.sent) == Some((a + b, ""))
  {
    TwoPieces(a, b);
    assert sender.sent[0..] == sender.sent;
  }

  lemma WaitsAtOnce(socket: nat -> WriteResult, data: string)
    requires socket(0).Again? && data != ""
    ensures !TakesChunk(socket, 0, data)
  {
  }

  lemma {:induction false} TakesAll(socket: nat -> WriteResult, i: nat, left: nat)
    requires forall j | j >= i :: socket(j).Took?
    ensures DrainFrom(socket, i, left) == Completed
    decreases left
  {
    if left > 0 {
      TakesAll(socket, i + 1, left - Bytes(socket(i).n, left));
    }
  }

  lemma TwoPieces(a: string, b: string)
    ensures Pieces([a] + [b]) == a + b
  {
    assert Pieces([]) == "" && "" + a == a && [] + [a] == [a];
    AddChunk(StreamDigits, [], a);
    AddChunk(StreamDigits, [a], b);
  }

  lemma ChunkIs(data: string)
    ensures Chunk(StreamDigits(data), data) == ShortHex(|data|) + CRLF + data + CRLF
  {
  }

  lemma SevenDigits()
    ensures Pow16(7) == 0x1000_0000
  {
    assert Pow16(2) == 0x100;
    assert Pow16(4) == 0x1_0000;
    assert Pow16(6) == 0x100_0000;
  }

  lemma Cut(s: string, a: nat, b: nat, c: nat, d: nat)
    requires a <= b <= c <= d <= |s|
    ensures s[a..d] == s[a..b] + s[b..c] + s[c..d]
  {
  }
}
