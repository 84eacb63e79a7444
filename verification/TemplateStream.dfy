/** The generator that streams a compiled template: whatever buffers it is handed, the bytes it
    returns are the chunks' contents, once and in order. */
module TemplateStream {
  import opened Helpers
  import opened TemplateExpr
  import opened TemplateValues
  import opened TemplateIR
  import opened TemplateCode
  import opened TemplateMachine
  import opened TemplateSimulation
  import opened TemplateRerun

  /** The text of a value; a missing value has none, and containers are only named. */
  function SerializeVal(number: int -> string, r: Ref): string {
    if r.Dead? then ""
    else
      match r.value
      case Null => "null"
      case Bool(b) => if b then "true" else "false"
      case Num(n) => number(n)
      case Str(s) => s
      case Arr(_) => "object"
      case Obj(_) => "object"
  }

  function ChunkBytes(file: string, number: int -> string, chunk: Chunk): string {
    match chunk
    case FileChunk(off, len) => if off + len <= |file| then file[off..off + len] else ""
    case ValueChunk(r) => SerializeVal(number, r)
  }

  function Bytes(file: string, number: int -> string, chunks: seq<Chunk>): string {
    if chunks == [] then "" else ChunkBytes(file, number, chunks[0]) + Bytes(file, number, chunks[1..])
  }

  // ---------------------------------------------------------------- the generator

  datatype ChunkType = Monostate | FileType | VariableType

  datatype StreamAction = Continue | StopAndAliveConn | StopAndCloseConn

  /** What asking again after the end `c` says has no bytes. */
  ghost predicate QuietAgain(file: string, number: int -> string, sem: Semantics, code: seq<SymOp>, c: Config) {
    forall c', more | Again(sem, code, c, c', more) :: Bytes(file, number, more) == ""
  }

  /** What asking again returns has no bytes if and only if rereading the tree says none. */
  lemma QuietAgainIff(file: string, number: int -> string, sem: Semantics, t: Tree, ctx: Context, c: Config,
                      out: seq<Chunk>)
    requires Runnable(t) && Size(t) < WORD
    requires Reaches(sem, Generate(t, 0), Config(0, 0, ctx), c, out) && StepOf(sem, Generate(t, 0), c) == End
    ensures QuietAgain(file, number, sem, Generate(t, 0), c)
            <==> Bytes(file, number, Reread(sem, t, Visible(ctx))) == ""
  {
    hide Generate, Size, Runnable, Run, Visible, Interp, Reaches, Restarts, Bytes, StepOf, Reread, Again;
    var code, more := Generate(t, 0), Reread(sem, t, Visible(ctx));
    EndMetAgain(sem, t, ctx, c, out, more);
    forall c', said | Again(sem, code, c, c', said) ensures said == more {
      EndMetAgain(sem, t, ctx, c, out, said);
    }
  }

  /** Something is said behind the end. */
  lemma SaidBehind(file: string, number: int -> string, sem: Semantics, code: seq<SymOp>, c: Config)
    returns (said: string)
    requires !QuietAgain(file, number, sem, code, c)
    ensures said != "" && forall c', more | Again(sem, code, c, c', more) :: Bytes(file, number, more) == said
    ensures exists c', more :: Again(sem, code, c, c', more)
  {
    hide Run, StepOf, Bytes;
    var c', more :| Again(sem, code, c, c', more) && Bytes(file, number, more) != "";
    said := Bytes(file, number, more);
    forall d, out | Again(sem, code, c, d, out) ensures out == more {
      EndUnique(sem, code, Resumed(c), c', d, more, out);
    }
  }

  lemma NoBytes(file: string, number: int -> string)
    ensures Bytes(file, number, []) == ""
  {
  }

  /** No loop behind the last output: nothing is said behind the end. */
  lemma PlainQuiet(file: string, number: int -> string, sem: Semantics, code: seq<SymOp>, ctx: Context, c: Config,
                   out: seq<Chunk>)
    requires PlainTail(code) && Reaches(sem, code, Config(0, 0, ctx), c, out) && StepOf(sem, code, c) == End
    ensures QuietAgain(file, number, sem, code, c)
  {
    hide Run, Reaches, StepOf, PlainTail, Bytes;
    EndsAgain(sem, code, 0, ctx, c, out);
    forall c', more | Again(sem, code, c, c', more) ensures Bytes(file, number, more) == "" {
      EndUnique(sem, code, Resumed(c), c, c', [], more);
      NoBytes(file, number);
    }
  }

  class TemplateGenerator {
    const file: string
    const code: seq<SymOp>
    const sem: Semantics
    const number: int -> string
    const wholeReads: bool       // whether a read inside the file brings all that was asked for
    var ctx: Context
    var currentType: ChunkType
    var currentState: nat
    var currentOffset: nat
    var maxSize: nat
    var carry: string
    ghost const tree: Tree       // what the code was compiled from
    ghost var todo: seq<Chunk>   // chunks the code has still to produce before its next end
    ghost var fin: Config        // that end
    ghost var readFailed: bool

    /** A generator for the code of a runnable tree. */
    constructor (file: string, code: seq<SymOp>, sem: Semantics, number: int -> string, ctx: Context, wholeReads: bool,
                 ghost t: Tree)
      requires Runnable(t) && Size(t) < WORD && code == Generate(t, 0)
      requires forall i | 0 <= i < |code| && code[i].Literal? :: code[i].off + code[i].len <= |file|
      ensures Valid() && !readFailed && Rest() == Bytes(file, number, Interp(sem, t, Visible(ctx)).1)
      ensures this.file == file && this.code == code && this.sem == sem && this.number == number
              && this.wholeReads == wholeReads
      ensures Reaches(sem, code, Config(0, 0, ctx), fin, Interp(sem, t, Visible(ctx)).1)
              && StepOf(sem, code, fin) == End
    {
      hide Runnable, Size, Generate, Interp, Visible, Reaches, StepOf;
      ghost var end := CodeFollowsTree(sem, t, ctx);
      this.file, this.code, this.sem, this.number, this.ctx, this.wholeReads := file, code, sem, number, ctx,
          wholeReads;
      currentType, currentState, currentOffset, maxSize, carry := Monostate, 0, 0, 0, "";
      tree, todo, fin, readFailed := t, Interp(sem, t, Visible(ctx)).1, end, false;
    }

    ghost predicate Fixed() {
      && Runnable(tree) && Size(tree) < WORD && code == Generate(tree, 0)
      && forall i | 0 <= i < |code| && code[i].Literal? :: code[i].off + code[i].len <= |file|
    }

    /** The current chunk lies in its source. */
    predicate ChunkHeld()
      reads this`currentType, this`currentOffset, this`maxSize, this`carry
    {
      && currentOffset <= maxSize && (currentType.FileType? ==> maxSize <= |file|)
          && (currentType.VariableType? ==> maxSize == |carry|)
    }

    ghost predicate Ahead()
      reads this`currentState, this`ctx, this`fin, this`todo
    {
      && Reaches(sem, code, Config(currentState, currentState, ctx), fin, todo) && StepOf(sem, code, fin) == End
    }

    /** The end ahead is that of a reading of the template from its beginning. */
    ghost predicate OnRound()
      reads this`fin
    {
      exists ctx0, out :: Reaches(sem, code, Config(0, 0, ctx0), fin, out)
    }

    ghost predicate Valid()
      reads this
    {
      && Fixed() && (!currentType.Monostate? ==> ChunkHeld()) && Ahead()
      && (OnRound() || (todo == [] && currentType.Monostate?))
    }

    /** What is left of the current chunk. */
    ghost function Left(): string
      requires !currentType.Monostate? ==> ChunkHeld()
      reads this
    {
      match currentType
      case Monostate => ""
      case FileType => file[currentOffset..maxSize]
      case VariableType => carry[currentOffset..maxSize]
    }

    /** Every byte still to be returned before the next end of the template. */
    ghost function Rest(): string
      requires Valid()
      reads this
    {
      Left() + Bytes(file, number, todo)
    }

    /** Nothing is said behind the next end: it is never asked behind, or has nothing to say then. */
    ghost predicate Settled()
      requires Valid()
      reads this
    {
      Rest() == "" || QuietAgain(file, number, sem, code, fin)
    }

    /** The end `end` has been met, and what is ahead is what asking again behind it brings. */
    ghost predicate Behind(end: Config)
      reads this`currentType, this`fin, this`todo
    {
      currentType.Monostate? && Again(sem, code, end, fin, todo)
    }

    /** Copies the next bytes of `src` into the buffer, as many as both allow. */
    method Copy(src: string, n: nat, buf: array<char>, bufferOffset: nat) returns (bufferOffset': nat)
      requires currentOffset + n <= |src| && bufferOffset + n <= buf.Length
      modifies buf, this`currentOffset
      ensures currentOffset == old(currentOffset) + n && bufferOffset' == bufferOffset + n
      ensures buf[..bufferOffset'] == old(buf[..bufferOffset]) + src[old(currentOffset)..currentOffset]
    {
      var from := currentOffset;
      forall i | 0 <= i < n {
        buf[bufferOffset + i] := src[from + i];
      }
      currentOffset := currentOffset + n;
      bufferOffset' := bufferOffset + n;
    }

    method DrainCarry(buf: array<char>, bufferOffset: nat) returns (bufferOffset': nat, done: bool)
      requires currentOffset <= maxSize <= |carry| && bufferOffset <= buf.Length
      modifies buf, this`currentOffset
      ensures bufferOffset <= bufferOffset' <= buf.Length && old(currentOffset) <= currentOffset <= maxSize
      ensures buf[..bufferOffset'] == old(buf[..bufferOffset]) + carry[old(currentOffset)..currentOffset]
      ensures done <==> currentOffset == maxSize
      ensures !done ==> bufferOffset' == buf.Length
    {
      var remaining := maxSize - currentOffset;
      var toRead := if remaining < buf.Length - bufferOffset then remaining else buf.Length - bufferOffset;
      bufferOffset' := Copy(carry, toRead, buf, bufferOffset);
      done := currentOffset >= maxSize;
    }

    /** Reads inside a file may come up short, but not empty, or fail. */
    method ReadAt(toRead: nat) returns (n: int)
      modifies this`readFailed
      ensures -1 <= n <= toRead && (n == 0 ==> toRead == 0) && (readFailed <==> old(readFailed) || n < 0)
      ensures wholeReads && n >= 0 ==> n == toRead
    {
      n :| -1 <= n <= toRead && (n == 0 ==> toRead == 0) && (wholeReads && n >= 0 ==> n == toRead);
      readFailed := readFailed || n < 0;
    }

    method DrainFile(buf: array<char>, bufferOffset: nat) returns (bufferOffset': nat, r: int)
      requires currentOffset <= maxSize <= |file| && bufferOffset <= buf.Length && !readFailed
      modifies buf, this`currentOffset, this`readFailed
      ensures bufferOffset <= bufferOffset' <= buf.Length && old(currentOffset) <= currentOffset <= maxSize
      ensures buf[..bufferOffset'] == old(buf[..bufferOffset]) + file[old(currentOffset)..currentOffset]
      ensures readFailed <==> r < 0
      ensures r >= 0 ==> (r > 0 <==> currentOffset == maxSize)
      ensures r == 0 && bufferOffset < buf.Length ==> bufferOffset < bufferOffset'
      ensures r == 0 && wholeReads ==> bufferOffset' == buf.Length
    {
      var remaining := maxSize - currentOffset;
      var toRead := if remaining < buf.Length - bufferOffset then remaining else buf.Length - bufferOffset;
      var writtenBytes := ReadAt(toRead);
      if writtenBytes < 0 {
        return bufferOffset, -1;
      }
      bufferOffset' := Copy(file, writtenBytes, buf, bufferOffset);
      r := if currentOffset >= maxSize then 1 else 0;
    }

    /** One call of the emitted switch: runs cases from `currentState` up to a chunk or the end. */
    method GetState() returns (chunk: Option<Chunk>)
      requires Fixed() && Ahead()
      modifies this`currentState, this`ctx, this`todo
      ensures chunk.None? ==> old(todo) == todo == [] && Config(currentState, currentState, ctx) == Resumed(fin)
      ensures chunk.Some? ==> Ahead() && old(todo) == [chunk.value] + todo
      ensures chunk.Some? && chunk.value.FileChunk? ==> chunk.value.off + chunk.value.len <= |file|
    {
      hide Runnable, Size, Generate;
      var c := Config(currentState, currentState, ctx);
      ghost var n: nat :| Run(sem, code, c, n) == (fin, todo);
      while StepOf(sem, code, c).Move?
        invariant Run(sem, code, c, n) == (fin, todo)
        decreases n
      {
        c := StepOf(sem, code, c).to;
        n := n - 1;
      }
      match StepOf(sem, code, c)
      case Emit(out, next) =>
        EmitHere(c, n);
        currentState, ctx, todo := next, c.ctx, todo[1..];
        chunk := Some(out);
      case End =>
        currentState, ctx := c.state, c.ctx;
        chunk := None;
    }

    lemma EmitHere(c: Config, n: nat)
      requires Run(sem, code, c, n) == (fin, todo) && StepOf(sem, code, c).Emit? && StepOf(sem, code, fin) == End
      ensures var next := StepOf(sem, code, c).next;
              todo != [] && todo[0] == StepOf(sem, code, c).chunk
              && Reaches(sem, code, Config(next, next, c.ctx), fin, todo[1..])
    {
      var next := StepOf(sem, code, c).next;
      assert n > 0;
      assert Run(sem, code, Config(next, next, c.ctx), n - 1).1 == todo[1..];
    }

    /** Puts as much of the current chunk into the buffer as fits: 1 when the chunk is done. */
    method Drain(buf: array<char>, bufferOffset: nat) returns (bufferOffset': nat, r: int)
      requires !currentType.Monostate? && ChunkHeld() && bufferOffset <= buf.Length && !readFailed
      modifies buf, this`currentOffset, this`readFailed
      ensures ChunkHeld() && bufferOffset <= bufferOffset' <= buf.Length && (readFailed <==> r < 0)
      ensures old(buf[..bufferOffset] + Left()) == buf[..bufferOffset'] + Left()
      ensures r > 0 ==> Left() == ""
      ensures r == 0 && bufferOffset < buf.Length ==> bufferOffset < bufferOffset'
      ensures r == 0 && wholeReads ==> bufferOffset' == buf.Length
    {
      if currentType.FileType? {
        bufferOffset', r := DrainFile(buf, bufferOffset);
      } else {
        var done;
        bufferOffset', done := DrainCarry(buf, bufferOffset);
        r := if done then 1 else 0;
      }
    }

    /** Makes a produced chunk the current one; false for a value that has no text. */
    method Begin(chunk: Chunk) returns (some: bool)
      requires chunk.FileChunk? ==> chunk.off + chunk.len <= |file|
      modifies this`currentType, this`currentOffset, this`maxSize, this`carry
      ensures some <==> !currentType.Monostate?
      ensures some ==> ChunkHeld()
      ensures (if some then Left() else "") == ChunkBytes(file, number, chunk)
    {
      match chunk
      case FileChunk(off, len) =>
        currentType, currentOffset, maxSize := FileType, off, off + len;
        some := true;
      case ValueChunk(value) =>
        carry := SerializeVal(number, value);
        some := carry != "";
        currentType := if some then VariableType else Monostate;
        currentOffset, maxSize := 0, |carry|;
    }

    /** Asks the code for a chunk and puts it into the buffer. None at the end of the template, behind
        which what is ahead is what asking again brings; otherwise as for `Drain`, a chunk without
        text counting as done. */
    method NextChunk(buf: array<char>, bufferOffset: nat) returns (bufferOffset': nat, r: Option<int>)
      requires Valid() && currentType.Monostate? && bufferOffset <= buf.Length && !readFailed
      modifies this, buf
      ensures bufferOffset <= bufferOffset' <= buf.Length && (readFailed <==> r.Some? && r.value < 0)
      ensures r.None? ==> bufferOffset' == bufferOffset && buf[..] == old(buf[..]) && old(todo) == []
                          && (old(OnRound()) ==> Valid() && Behind(old(fin)))
      ensures r.Some? ==> Valid() && OnRound() && fin == old(fin) && |todo| < |old(todo)|
                          && old(buf[..bufferOffset] + Rest()) == buf[..bufferOffset'] + Rest()
      ensures r.Some? && r.value == 0 && bufferOffset < buf.Length ==> bufferOffset < bufferOffset'
      ensures r.Some? && r.value == 0 && wholeReads ==> bufferOffset' == buf.Length
      ensures r.Some? && r.value > 0 ==> currentType.Monostate?
    {
      hide Reaches, Bytes, Fixed, StepOf, OnRound, Behind, Again, Left;
      BytesHead(file, number, todo);
      LeftNothing();
      var chunk := GetState();
      if chunk.None? {
        AskAgain();
        return bufferOffset, None;
      }
      var done: int;
      bufferOffset', done := PutChunk(chunk.value, buf, bufferOffset);
      r := Some(done);
    }

    lemma LeftNothing()
      ensures currentType.Monostate? ==> Left() == ""
    {
    }

    /** Puts a chunk the code has produced into the buffer: as for `Drain`. */
    method PutChunk(chunk: Chunk, buf: array<char>, bufferOffset: nat) returns (bufferOffset': nat, r: int)
      requires Fixed() && Ahead() && OnRound() && currentType.Monostate? && bufferOffset <= buf.Length && !readFailed
      requires chunk.FileChunk? ==> chunk.off + chunk.len <= |file|
      modifies this`currentType, this`currentOffset, this`maxSize, this`carry, this`readFailed, buf
      ensures Valid() && bufferOffset <= bufferOffset' <= buf.Length && (readFailed <==> r < 0)
      ensures old(buf[..bufferOffset]) + (ChunkBytes(file, number, chunk) + Bytes(file, number, todo))
              == buf[..bufferOffset'] + Rest()
      ensures r == 0 && bufferOffset < buf.Length ==> bufferOffset < bufferOffset'
      ensures r == 0 && wholeReads ==> bufferOffset' == buf.Length
      ensures r > 0 ==> currentType.Monostate?
    {
      hide Reaches, Bytes, Fixed, OnRound, Ahead, ChunkBytes;
      var some := Begin(chunk);
      if !some {
        return bufferOffset, 1;
      }
      Assoc(buf[..bufferOffset], Left(), Bytes(file, number, todo));
      bufferOffset', r := Drain(buf, bufferOffset);
      Assoc(buf[..bufferOffset'], Left(), Bytes(file, number, todo));
      if r > 0 {
        currentType := Monostate;
      }
    }

    /** The end has been met: what is ahead now is what asking again brings. */
    ghost method AskAgain()
      requires Fixed() && currentType.Monostate? && StepOf(sem, code, fin) == End
              && Config(currentState, currentState, ctx) == Resumed(fin)
      modifies this`fin, this`todo
      ensures old(OnRound()) ==> Valid() && Behind(old(fin))
    {
      hide Reaches, Runnable, Size, Generate, StepOf;
      if OnRound() {
        var ctx0, out :| Reaches(sem, code, Config(0, 0, ctx0), fin, out);
        var anew;
        todo := Reread(sem, tree, Visible(ctx0));
        fin, anew := AskedAgain(sem, tree, ctx0, fin, out);
      }
    }

    /** Fills the buffer with new chunks until it is full or the template ends. */
    method NewChunks(buf: array<char>, start: nat) returns (size: nat, action: StreamAction)
      requires Valid() && currentType.Monostate? && start < buf.Length && !readFailed && (start > 0 ==> OnRound())
      modifies this, buf
      ensures size <= buf.Length && (action.StopAndCloseConn? <==> readFailed)
      ensures action.Continue? ==> Valid() && size > 0 && Advances(old(fin), old(buf[..start] + Rest()), buf[..size])
      ensures action.Continue? && wholeReads && size < buf.Length ==>
              Behind(old(fin)) && old(buf[..start] + Rest()) == buf[..size]
      ensures action.StopAndAliveConn? ==> size == start == 0 && old(Rest()) == ""
    {
      hide Reaches, Bytes, Fixed, ChunkHeld, Ahead, OnRound, Again;
      var bufferOffset := start;
      ghost var all, end := buf[..start] + Rest(), fin;
      while true
        invariant start <= bufferOffset <= buf.Length && Valid() && currentType.Monostate? && !readFailed
        invariant fin == end && (OnRound() || (todo == [] && bufferOffset == 0))
        invariant buf[..bufferOffset] + Rest() == all
        decreases |todo|
      {
        BytesHead(file, number, todo);
        var r: Option<int>;
        bufferOffset, r := NextChunk(buf, bufferOffset);
        if r.None? {
          return bufferOffset, if bufferOffset > 0 then Continue else StopAndAliveConn;
        }
        if r.value < 0 {
          return 0, StopAndCloseConn;
        }
        if r.value == 0 {
          return bufferOffset, Continue;
        }
      }
    }

    /** What was due is what was returned and then what is due, up to the same end; or all that was
        due up to the end has been returned, and what is due is what lies behind it. */
    ghost predicate Advances(end: Config, due: string, returned: string)
      requires Valid()
      reads this
    {
      || (fin == end && due == returned + Rest())
      || (Behind(end) && due == returned)
    }

    /** Nothing said behind the end: what was due is what was returned and what is due. */
    lemma AdvanceSettled(end: Config, due: string, returned: string)
      requires Valid() && Advances(end, due, returned) && returned != ""
      requires due == "" || QuietAgain(file, number, sem, code, end)
      ensures Settled() && due == returned + Rest()
    {
      hide Reaches, Fixed, Ahead, OnRound, Again, Bytes;
      if Behind(end) && due == returned {
        assert Again(sem, code, end, fin, todo);
        assert returned + "" == returned;
      }
    }

    /** What is said behind the end is due once the end has been met. */
    lemma BehindDue(end: Config, c': Config, more: seq<Chunk>)
      requires Valid() && Behind(end) && Again(sem, code, end, c', more)
      ensures Rest() == Bytes(file, number, more)
    {
      hide Fixed, Ahead, OnRound, Bytes, Run, StepOf;
      EndUnique(sem, code, Resumed(end), fin, c', todo, more);
      assert "" + Bytes(file, number, todo) == Bytes(file, number, todo);
    }

    /** On the way to saying `whole`, or beyond it, the generator stays so. */
    lemma AdvanceOn(end: Config, due: string, returned: string, data: string, whole: string)
      requires Valid() && Advances(end, due, returned)
      ensures OnTheWay(data, due, whole) ==> OnTheWay(data + returned, Rest(), whole)
    {
      hide Reaches, Fixed, Ahead, OnRound, Again, Bytes;
      if data + due == whole {
        Assoc(data, returned, Rest());
      }
    }

    /** No more is returned than was due. */
    lemma AdvanceBelow(end: Config, due: string, returned: string)
      requires Valid() && Advances(end, due, returned)
      ensures |returned| <= |due|
    {
      hide Reaches, Fixed, Ahead, OnRound, Again, Bytes;
    }

    /** Fills a buffer. Bytes returned are exactly the next ones due; the stream ends, keeping the
        connection, only when none is due; it is given up only for a failed read. */
    method Next(buf: array<char>) returns (size: nat, action: StreamAction)
      requires Valid() && !readFailed && buf.Length > 0
      modifies this, buf
      ensures size <= buf.Length && (action.StopAndCloseConn? <==> readFailed)
      ensures action.Continue? ==> Valid() && size > 0 && Advances(old(fin), old(Rest()), buf[..size])
      ensures action.Continue? && wholeReads && size < buf.Length ==> Behind(old(fin)) && old(Rest()) == buf[..size]
      ensures action.StopAndAliveConn? ==> size == 0 && old(Rest()) == ""
    {
      hide Reaches, Bytes, Fixed, Ahead, OnRound, Again;
      var bufferOffset := 0;
      if !currentType.Monostate? {
        var r: int;
        Assoc(buf[..0], Left(), Bytes(file, number, todo));
        bufferOffset, r := Drain(buf, 0);
        Assoc(buf[..bufferOffset], Left(), Bytes(file, number, todo));
        if r < 0 {
          return 0, StopAndCloseConn;
        }
        if r == 0 {
          return bufferOffset, Continue;
        }
        currentType := Monostate;
        if bufferOffset >= buf.Length {
          return bufferOffset, Continue;
        }
      }
      size, action := NewChunks(buf, bufferOffset);
    }
  }

  /** One of the two begins the other. */
  predicate OneBegins(a: string, b: string) { a <= b || b <= a }

  /** What has been said and what is due are the whole, or the whole has been said. */
  predicate OnTheWay(data: string, due: string, whole: string) { data + due == whole || whole <= data }

  lemma BytesHead(file: string, number: int -> string, chunks: seq<Chunk>)
    ensures chunks == [] ==> Bytes(file, number, chunks) == ""
    ensures chunks != [] ==>
            Bytes(file, number, chunks) == ChunkBytes(file, number, chunks[0]) + Bytes(file, number, chunks[1..])
  {
  }

  /** A whole response: buffers of any sizes, until the stream stops or they run out. When nothing is
      said behind the end of the template, everything returned is everything it has to say, in order,
      whatever the sizes, and as many buffers as there are bytes bring the stream to its end. When
      something is, a first buffer with room to spare makes the stream go on with it. */
  method Pump(gen: TemplateGenerator, sizes: seq<nat>) returns (data: string, action: StreamAction)
    requires gen.Valid() && !gen.readFailed && forall n <- sizes :: n > 0
    modifies gen
    ensures action.Continue? ==> gen.Valid() && |data| >= |sizes|
    ensures action.StopAndCloseConn? <==> gen.readFailed
    ensures old(gen.Settled()) ==>
              && (action.Continue? ==> old(gen.Rest()) == data + gen.Rest())
              && (action.StopAndAliveConn? ==> data == old(gen.Rest()))
              && (|sizes| > |old(gen.Rest())| ==> !action.Continue?)
    ensures old(!gen.Settled()) && gen.wholeReads && |sizes| >= 2 && sizes[0] > |old(gen.Rest())| && !gen.readFailed ==>
              && old(gen.Rest()) < data
              && forall c', more | Again(gen.sem, gen.code, old(gen.fin), c', more) ::
                   OneBegins(data, old(gen.Rest()) + Bytes(gen.file, gen.number, more))
  {
    hide gen.Fixed, gen.Ahead, gen.OnRound, gen.Behind, gen.Advances, Bytes, QuietAgain, Again;
    data, action := "", Continue;
    var i := 0;
    ghost var all, end, settled := gen.Rest(), gen.fin, gen.Settled();
    ghost var again := "";
    if !settled {
      again := SaidBehind(gen.file, gen.number, gen.sem, gen.code, end);
    }
    while i < |sizes|
      invariant i <= |sizes| && gen.Valid() && !gen.readFailed && action.Continue? && |data| >= i
      invariant settled ==> gen.Settled() && all == data + gen.Rest()
      invariant !settled && gen.wholeReads && |sizes| >= 2 && sizes[0] > |all| ==>
                  (i == 0 ==>
                     && gen.Rest() == all && gen.fin == end && data == "" && all != ""
                     && again != "")
                  && (i == 1 ==> data == all && gen.Rest() == again)
                  && (i >= 1 ==> OnTheWay(data, gen.Rest(), all + again))
                  && (i >= 2 ==> all < data)
    {
      assert sizes[i] in sizes;
      var buf := new char[sizes[i]];
      ghost var due, from := gen.Rest(), gen.fin;
      var size;
      size, action := gen.Next(buf);
      if !action.Continue? {
        return;
      }
      if settled {
        gen.AdvanceSettled(from, due, buf[..size]);
        Assoc(data, buf[..size], gen.Rest());
      } else if gen.wholeReads && |sizes| >= 2 && sizes[0] > |all| && i == 0 {
        gen.AdvanceBelow(from, due, buf[..size]);
        ghost var c', more :| Again(gen.sem, gen.code, end, c', more);
        gen.BehindDue(from, c', more);
      } else if i > 0 {
        gen.AdvanceOn(from, due, buf[..size], data, all + again);
      }
      data := data + buf[..size];
      i := i + 1;
    }
  }
}
