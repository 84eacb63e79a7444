/** The JSON writer: two bit masks and a depth stand for the stack of open containers. */
module JsonWriters {
  import opened Helpers
  import opened JsonSpec
  import G = JsonGrammar

  const MAX_DEPTH := 63

  // ---------------------------------------------------------------- 64-bit masks

  /** Bit i of a mask. */
  predicate Bit(m: nat, i: nat) { if i == 0 then m % 2 == 1 else Bit(m / 2, i - 1) }

  /** The mask with 1 << i or-ed in. */
  function SetBit(m: nat, i: nat): nat { if i == 0 then m / 2 * 2 + 1 else SetBit(m / 2, i - 1) * 2 + m % 2 }

  /** The mask with 1 << i taken out. */
  function ClearBit(m: nat, i: nat): nat { if i == 0 then m / 2 * 2 else ClearBit(m / 2, i - 1) * 2 + m % 2 }

  lemma {:induction false} BitsAfter(m: nat, i: nat, j: nat)
    ensures Bit(SetBit(m, i), j) == (i == j || Bit(m, j))
    ensures Bit(ClearBit(m, i), j) == (i != j && Bit(m, j))
    decreases i
  {
    if i > 0 {
      assert SetBit(m, i) / 2 == SetBit(m / 2, i - 1) && SetBit(m, i) % 2 == m % 2;
      assert ClearBit(m, i) / 2 == ClearBit(m / 2, i - 1) && ClearBit(m, i) % 2 == m % 2;
      if j > 0 {
        BitsAfter(m / 2, i - 1, j - 1);
      }
    }
  }

  /** A mask of w bits stays one. */
  lemma {:induction false} MaskWidth(m: nat, i: nat, w: nat)
    requires m < Pow2(w) && i < w
    ensures SetBit(m, i) < Pow2(w) && ClearBit(m, i) < Pow2(w)
    decreases w
  {
    hide Pow2, SetBit, ClearBit;
    PowerStep(w);
    SetStep(m, i);
    ClearStep(m, i);
    HalfBelow(m, Pow2(w - 1));
    if i > 0 {
      MaskWidth(m / 2, i - 1, w - 1);
      TwiceBelow(SetBit(m / 2, i - 1), m, Pow2(w - 1));
      TwiceBelow(ClearBit(m / 2, i - 1), m, Pow2(w - 1));
    } else {
      TwiceBelow(m / 2, 1, Pow2(w - 1));
    }
  }

  lemma {:induction false} SetStep(m: nat, i: nat)
    ensures SetBit(m, i) == if i == 0 then m / 2 * 2 + 1 else SetBit(m / 2, i - 1) * 2 + m % 2
  {
  }

  lemma {:induction false} ClearStep(m: nat, i: nat)
    ensures ClearBit(m, i) == if i == 0 then m / 2 * 2 else ClearBit(m / 2, i - 1) * 2 + m % 2
  {
  }

  lemma HalfBelow(m: nat, p: nat)
    requires m < 2 * p
    ensures m / 2 < p
  {
  }

  lemma TwiceBelow(half: nat, m: nat, p: nat)
    requires half < p
    ensures half * 2 + m % 2 < 2 * p
  {
  }

  lemma PowerStep(w: nat)
    requires w > 0
    ensures Pow2(w) == 2 * Pow2(w - 1)
  {
  }

  lemma {:induction false} NoBits(i: nat)
    ensures !Bit(0, i)
    decreases i
  {
    if i > 0 { NoBits(i - 1); }
  }

  // ---------------------------------------------------------------- the explicit stack

  /** An open container: what closes it, and whether something was written in it. */
  datatype Frame = Frame(isArray: bool, started: bool)

  /** `outside` says whether something was written behind the closed root; `over` counts containers
      asked for beyond the depth limit. */
  datatype Writer = Writer(stack: seq<Frame>, outside: bool, over: nat, text: string)

  const START := Writer([Frame(false, false)], false, 0, "{")

  function Opening(isArray: bool): string { if isArray then "[" else "{" }

  function Closing(isArray: bool): string { if isArray then "]" else "}" }

  function KeyText(key: Option<string>): string {
    if key.Some? then Quoted(key.value) + ":" else ""
  }

  /** A comma unless nothing stands before in the current container. */
  function Comma(w: Writer): Writer {
    if w.stack == [] then w.(text := w.text + Separator(!w.outside), outside := true)
    else
      var n := |w.stack| - 1;
      w.(text := w.text + Separator(!w.stack[n].started), stack := w.stack[n := w.stack[n].(started := true)])
  }

  function Value(w: Writer, key: Option<string>, text: string): Writer {
    var c := Comma(w);
    c.(text := c.text + KeyText(key) + text)
  }

  function Open(w: Writer, key: Option<string>, isArray: bool): Writer {
    if w.over > 0 || |w.stack| >= MAX_DEPTH then w.(over := w.over + 1)
    else
      var v := Value(w, key, Opening(isArray));
      v.(stack := v.stack + [Frame(isArray, false)])
  }

  function Close(w: Writer): Writer {
    if w.over > 0 then w.(over := w.over - 1)
    else if w.stack == [] then w
    else
      var n := |w.stack| - 1;
      w.(stack := w.stack[..n], text := w.text + Closing(w.stack[n].isArray))
  }

  lemma CommaOver(w: Writer)
    ensures Comma(w).over == w.over
  {
  }

  /** A container begun and ended is one element; beyond the depth limit it leaves no trace, and what was
      open stays open. */
  lemma EmptyContainer(w: Writer, key: Option<string>, isArray: bool)
    ensures if w.over > 0 || |w.stack| >= 63 then Close(Open(w, key, isArray)) == w
            else Close(Open(w, key, isArray)) == Value(w, key, if isArray then "[]" else "{}")
  {
    if w.over == 0 && |w.stack| < 63 {
      hide Comma, KeyText;
      CommaOver(w);
      var v := Value(w, key, Opening(isArray));
      assert (v.stack + [Frame(isArray, false)])[..|v.stack|] == v.stack;
      Assoc(Comma(w).text + KeyText(key), Opening(isArray), Closing(isArray));
    }
  }

  /** What the destructor does: closes whatever is open. */
  function Finish(w: Writer): Writer
    decreases |w.stack|, w.over
  {
    if w.stack == [] then w else Finish(Close(w))
  }

  class JsonWriter {
    var out: string
    var commas: nat
    var closes: nat
    var over: nat
    var depth: nat
    ghost var w: Writer

    ghost predicate Valid()
      reads this
    {
      && depth == |w.stack| <= MAX_DEPTH && over == w.over && out == w.text
      && commas < Pow2(64) && closes < Pow2(64) && Bit(commas, 0) == w.outside
      && forall i | 0 <= i < depth :: Bit(closes, i) == w.stack[i].isArray && Bit(commas, i + 1) == w.stack[i].started
    }

    constructor ()
      ensures Valid() && w == START
    {
      out, commas, closes, over, depth, w := "{", 0, 0, 0, 1, START;
      new;
      NoBits(0);
      NoBits(1);
    }

    method Raw(s: string)
      modifies this`out
      ensures out == old(out) + s
    {
      out := out + s;
    }

    method WriteComma()
      requires Valid()
      modifies this`out, this`commas, this`w
      ensures Valid() && w == Comma(old(w))
    {
      hide Bit, SetBit, Pow2;
      forall i { BitsAfter(commas, depth, i); }
      MaskWidth(commas, depth, 64);
      CurrentBit(w, commas);
      if Bit(commas, depth) {
        Raw(",");
      }
      assert out + "" == out;
      commas := SetBit(commas, depth);
      w := Comma(w);
    }

    /** Appends a string escaped: stretches that need no escaping in one piece. */
    method Escaped(s: string)
      modifies this`out
      ensures out == old(out) + Escape(s)
    {
      hide Escape, EscapeChar;
      var p, start := 0, 0;
      EscapeNothing();
      assert out + "" == out && s[..0] == "";
      while p < |s|
        invariant start <= p <= |s| && out == old(out) + Escape(s[..start])
        invariant forall i | start <= i < p :: EscapeChar(s[i]) == [s[i]]
      {
        var esc := EscapeChar(s[p]);
        if esc != [s[p]] {
          EscapeParts(s, start, p);
          Concat(old(out), Escape(s[..start]), s[start..p], esc);
          if p > start {
            Raw(s[start..p]);
          }
          Raw(esc);
          start := p + 1;
        }
        p := p + 1;
      }
      EscapeRest(s, start);
      Concat(old(out), Escape(s[..start]), s[start..], "");
      if p > start {
        Raw(s[start..p]);
      }
    }

    method WKey(key: string)
      modifies this`out
      ensures out == old(out) + (Quoted(key) + ":")
    {
      hide Escape;
      Raw("\"");
      Escaped(key);
      Raw("\":");
      assert old(out) + "\"" + Escape(key) + "\":" == old(out) + ("\"" + Escape(key) + "\"" + ":");
    }

    method WStr(s: string)
      modifies this`out
      ensures out == old(out) + Quoted(s)
    {
      hide Escape;
      Raw("\"");
      Escaped(s);
      Raw("\"");
      assert old(out) + "\"" + Escape(s) + "\"" == old(out) + ("\"" + Escape(s) + "\"");
    }

    /** A value that is not a container. `text` is written as it is unless it is to be quoted. */
    method Write(key: Option<string>, text: string, quote: bool)
      requires Valid()
      modifies this
      ensures Valid() && w == Value(old(w), key, if quote then Quoted(text) else text)
    {
      hide Bit, SetBit, ClearBit, Quoted, Escape, Pow2, Comma;
      WriteComma();
      Concat(out, KeyText(key), if quote then Quoted(text) else text, "");
      if key.Some? {
        WKey(key.value);
      }
      if quote {
        WStr(text);
      } else {
        Raw(text);
      }
      w := Value(old(w), key, if quote then Quoted(text) else text);
    }

    /** Opens an object or an array; beyond the depth limit it is only counted. */
    method Begin(key: Option<string>, isArray: bool)
      requires Valid()
      modifies this
      ensures Valid() && w == Open(old(w), key, isArray)
    {
      hide Bit, SetBit, ClearBit, Quoted, Escape, Pow2, Value;
      if over > 0 || depth >= MAX_DEPTH {
        over := over + 1;
        w := Open(w, key, isArray);
        return;
      }
      ValueKeeps(w, key, Opening(isArray));
      Write(key, Opening(isArray), false);
      MaskWidth(closes, depth, 64);
      MaskWidth(commas, depth + 1, 64);
      var closes', commas' := if isArray then SetBit(closes, depth) else ClearBit(closes, depth),
          ClearBit(commas, depth + 1);
      forall i ensures Bit(closes', i) == if i == depth then isArray else Bit(closes, i) {
        BitsAfter(closes, depth, i);
      }
      forall i ensures Bit(commas', i) == (i != depth + 1 && Bit(commas, i)) {
        BitsAfter(commas, depth + 1, i);
      }
      closes, commas := closes', commas';
      depth := depth + 1;
      w := w.(stack := w.stack + [Frame(isArray, false)]);
    }

    /** Closes the container opened last, if any is open. */
    method End()
      requires Valid()
      modifies this
      ensures Valid() && w == Close(old(w))
    {
      hide Bit, Pow2;
      if over > 0 {
        over := over - 1;
        w := Close(w);
        return;
      }
      if depth == 0 {
        return;
      }
      depth := depth - 1;
      Raw(if Bit(closes, depth) then "]" else "}");
      w := Close(w);
    }

    /** What the destructor leaves. */
    method Destroy()
      requires Valid()
      modifies this
      ensures Valid() && w == Finish(old(w))
    {
      while depth > 0
        invariant Valid() && Finish(w) == Finish(old(w))
        decreases |w.stack|, w.over
      {
        End();
      }
    }

    // ---------------------------------------------------------------- documents

    /** Writes a value tree the way a handler does. */
    method WriteTree(key: Option<string>, v: Json)
      requires Valid()
      modifies this
      ensures Valid() && w == Emit(old(w), key, v)
      decreases v, 1
    {
      match v
      case Str(t) => Write(key, t, true);
      case Int(n) => Write(key, IntText(n), false);
      case Bool(b) => Write(key, if b then "true" else "false", false);
      case Null => Write(key, "null", false);
      case Arr(items) =>
        Begin(key, true);
        WriteItems(items);
        End();
      case Obj(members) =>
        Begin(key, false);
        WriteMembers(members);
        End();
    }

    method WriteItems(items: Items)
      requires Valid()
      modifies this
      ensures Valid() && w == EmitItems(old(w), items)
      decreases items, 0
    {
      if items.Item? {
        WriteTree(None, items.head);
        WriteItems(items.tail);
      }
    }

    method WriteMembers(members: Members)
      requires Valid()
      modifies this
      ensures Valid() && w == EmitMembers(old(w), members)
      decreases members, 0
    {
      if members.Member? {
        WriteTree(Some(members.key), members.value);
        WriteMembers(members.rest);
      }
    }
  }

  /** A whole document of at most 63 nested containers, the root among them, is derived by the grammar
      and read back as the tree it was written from. */
  method WriteDocument(members: Members) returns (text: string)
    requires 1 + MembersDepth(members) <= MAX_DEPTH
    ensures Read(text) == Some((Obj(members), "")) && G.Spelled(Obj(members), text)
  {
    hide Read, Text, EmitMembers, Finish, G.Spelled;
    var writer := new JsonWriter();
    writer.WriteMembers(members);
    DocumentText(members);
    writer.Destroy();
    text := writer.out;
    ReadText(Obj(members), "");
    G.TextWritten(Obj(members));
    assert Text(Obj(members)) + "" == Text(Obj(members));
  }

  function Emit(w: Writer, key: Option<string>, v: Json): Writer
    decreases v, 1
  {
    match v
    case Arr(items) => Close(EmitItems(Open(w, key, true), items))
    case Obj(members) => Close(EmitMembers(Open(w, key, false), members))
    case _ => Value(w, key, Text(v))
  }

  function EmitItems(w: Writer, items: Items): Writer
    decreases items, 0
  {
    if items.NoItems? then w else EmitItems(Emit(w, None, items.head), items.tail)
  }

  function EmitMembers(w: Writer, members: Members): Writer
    decreases members, 0
  {
    if members.NoMembers? then w else EmitMembers(Emit(w, Some(members.key), members.value), members.rest)
  }

  /** How many containers a value nests. */
  function Depth(v: Json): nat {
    match v
    case Arr(items) => 1 + ItemsDepth(items)
    case Obj(members) => 1 + MembersDepth(members)
    case _ => 0
  }

  function ItemsDepth(items: Items): nat {
    if items.NoItems? then 0 else Max(Depth(items.head), ItemsDepth(items.tail))
  }

  function MembersDepth(members: Members): nat {
    if members.NoMembers? then 0 else Max(Depth(members.value), MembersDepth(members.rest))
  }

  function Max(a: nat, b: nat): nat { if a >= b then a else b }

  /** Within the limit, and inside a container. */
  predicate Room(w: Writer, depth: nat) {
    w.over == 0 && w.stack != [] && |w.stack| + depth <= MAX_DEPTH
  }

  /** The writer with more text in its current container. */
  function With(w: Writer, text: string): Writer
    requires w.stack != []
  {
    var n := |w.stack| - 1;
    w.(text := w.text + text, stack := w.stack[n := w.stack[n].(started := true)])
  }

  function Started(w: Writer): bool
    requires w.stack != []
  {
    w.stack[|w.stack| - 1].started
  }

  lemma ValueIs(w: Writer, key: Option<string>, text: string)
    requires w.stack != []
    ensures Value(w, key, text) == With(w, Separator(!Started(w)) + (KeyText(key) + text))
  {
    hide KeyText, Separator;
    Concat(w.text, Separator(!Started(w)), KeyText(key), text);
    Concat(w.text + Separator(!Started(w)), KeyText(key), text, "");
    assert Separator(!Started(w)) + (KeyText(key) + text) == Separator(!Started(w)) + KeyText(key) + text;
  }

  lemma ValueKeeps(w: Writer, key: Option<string>, text: string)
    ensures var v := Value(w, key, text); |v.stack| == |w.stack| && v.over == w.over
  {
  }

  lemma WithTwice(w: Writer, a: string, b: string)
    requires w.stack != []
    ensures With(w, a).stack != [] && With(With(w, a), b) == With(w, a + b) && Started(With(w, a))
  {
    assert w.text + a + b == w.text + (a + b);
  }

  /** Writing a value writes its text, set off from what stands before. */
  lemma {:induction false} EmitText(w: Writer, key: Option<string>, v: Json)
    requires Room(w, Depth(v))
    ensures Emit(w, key, v) == With(w, Separator(!Started(w)) + (KeyText(key) + Text(v)))
    decreases v, 1
  {
    hide Quoted, IntText, ItemsText, MembersText, Value, With, EmitItems, EmitMembers, KeyText;
    match v
    case Arr(items) =>
      ContainerOpens(w, key, true);
      EmitItemsText(Open(w, key, true), items);
      ContainerCloses(w, key, true, ItemsText(items, true));
    case Obj(members) =>
      ContainerOpens(w, key, false);
      EmitMembersText(Open(w, key, false), members);
      ContainerCloses(w, key, false, MembersText(members, true));
    case _ => ValueIs(w, key, Text(v));
  }

  lemma ContainerOpens(w: Writer, key: Option<string>, isArray: bool)
    requires Room(w, 1)
    ensures var o := Open(w, key, isArray);
            o.over == 0 && |o.stack| == |w.stack| + 1 && !Started(o) && o.outside == w.outside
  {
    ValueKeeps(w, key, Opening(isArray));
  }

  lemma ContainerCloses(w: Writer, key: Option<string>, isArray: bool, inside: string)
    requires Room(w, 1)
    ensures Open(w, key, isArray).stack != []
    ensures Close(if inside == "" then Open(w, key, isArray) else With(Open(w, key, isArray), inside))
         == With(w, Separator(!Started(w)) + (KeyText(key) + (Opening(isArray) + inside + Closing(isArray))))
  {
    hide KeyText, Opening, Closing;
    ValueIs(w, key, Opening(isArray));
    var before := Separator(!Started(w)) + (KeyText(key) + Opening(isArray));
    var n := |w.stack|;
    var o := With(w, before).stack + [Frame(isArray, false)];
    assert o[..n] == With(w, before).stack && o[n := Frame(isArray, true)][..n] == With(w, before).stack;
    assert w.text + before + inside + Closing(isArray)
        == w.text + (Separator(!Started(w)) + (KeyText(key) + (Opening(isArray) + inside + Closing(isArray))));
    assert inside == "" ==> w.text + before + inside == w.text + before;
  }

  lemma {:induction false} EmitItemsText(w: Writer, items: Items)
    requires Room(w, ItemsDepth(items))
    ensures EmitItems(w, items) == if items.NoItems? then w else With(w, ItemsText(items, !Started(w)))
    ensures items.NoItems? <==> ItemsText(items, !Started(w)) == ""
    decreases items, 0
  {
    hide Emit, With, Text, Started, ItemsText, KeyText, Separator;
    if items.Item? {
      EmitText(w, None, items.head);
      var first := Separator(!Started(w)) + (KeyText(None) + Text(items.head));
      WithKeeps(w, first);
      EmitItemsText(With(w, first), items.tail);
      WithTwice(w, first, ItemsText(items.tail, false));
      FirstItem(items, !Started(w));
      assert first + "" == first;
    } else {
      NothingInside();
    }
  }

  lemma FirstItem(items: Items, isFirst: bool)
    requires items.Item?
    ensures ItemsText(items, isFirst)
         == Separator(isFirst) + (KeyText(None) + Text(items.head)) + ItemsText(items.tail, false)
    ensures ItemsText(items, isFirst) != ""
  {
    hide Text, Separator;
    TextNotEmpty(items.head);
    assert KeyText(None) + Text(items.head) == Text(items.head);
  }

  lemma NothingInside()
    ensures forall isFirst :: ItemsText(NoItems, isFirst) == "" && MembersText(NoMembers, isFirst) == ""
  {
  }

  lemma {:induction false} EmitMembersText(w: Writer, members: Members)
    requires Room(w, MembersDepth(members))
    ensures EmitMembers(w, members) == if members.NoMembers? then w else With(w, MembersText(members, !Started(w)))
    ensures members.NoMembers? <==> MembersText(members, !Started(w)) == ""
    decreases members, 0
  {
    hide Emit, With, Text, Started, MembersText, KeyText, Separator;
    if members.Member? {
      EmitText(w, Some(members.key), members.value);
      var first := Separator(!Started(w)) + (KeyText(Some(members.key)) + Text(members.value));
      WithKeeps(w, first);
      EmitMembersText(With(w, first), members.rest);
      WithTwice(w, first, MembersText(members.rest, false));
      FirstMember(members, !Started(w));
      assert first + "" == first;
    } else {
      NothingInside();
    }
  }

  lemma FirstMember(members: Members, isFirst: bool)
    requires members.Member?
    ensures MembersText(members, isFirst)
         == Separator(isFirst) + (KeyText(Some(members.key)) + Text(members.value)) + MembersText(members.rest, false)
    ensures MembersText(members, isFirst) != ""
  {
    hide Text, Separator, Quoted;
    TextNotEmpty(members.value);
    Assoc(Separator(isFirst), Quoted(members.key) + ":", Text(members.value));
    Assoc(Separator(isFirst), Quoted(members.key), ":");
  }

  lemma WithKeeps(w: Writer, text: string)
    requires w.stack != []
    ensures var v := With(w, text); v.over == w.over && |v.stack| == |w.stack| && Started(v)
  {
  }

  lemma TextNotEmpty(v: Json)
    ensures Text(v) != ""
  {
    TextFront(v, "");
    assert Text(v) + "" == Text(v);
  }

  lemma DocumentText(members: Members)
    requires 1 + MembersDepth(members) <= MAX_DEPTH
    ensures Finish(EmitMembers(START, members)).text == Text(Obj(members))
  {
    hide EmitMembers, MembersText;
    EmitMembersText(START, members);
    var w := EmitMembers(START, members);
    assert |w.stack| == 1 && w.over == 0 && !w.stack[0].isArray;
    assert Close(w).stack == [];
    assert Finish(w) == Close(w);
    assert "{" + "" + "}" == "{" + "}";
  }

  lemma Concat(a: string, b: string, c: string, d: string)
    ensures a + b + c + d == a + (b + c + d) && c + "" == c && (c == "" ==> a + b + d == a + (b + c + d))
    ensures a + b + c == a + (b + c) && (c == "" ==> b + c == b) && b + c + "" == b + c
  {
  }

  lemma EscapeNothing()
    ensures Escape("") == ""
  {
  }

  /** The comma bit at the current depth is the current container's. */
  lemma CurrentBit(w: Writer, commas: nat)
    requires Bit(commas, 0) == w.outside && forall i | 0 <= i < |w.stack| :: Bit(commas, i + 1) == w.stack[i].started
    ensures Bit(commas, |w.stack|) == if w.stack == [] then w.outside else w.stack[|w.stack| - 1].started
  {
    if w.stack != [] {
      assert Bit(commas, |w.stack| - 1 + 1) == w.stack[|w.stack| - 1].started;
    }
  }

  lemma {:induction false} EscapeJoin(a: string, b: string)
    ensures Escape(a + b) == Escape(a) + Escape(b)
    decreases |a|
  {
    if a == "" {
      assert a + b == b;
    } else {
      assert (a + b)[1..] == a[1..] + b;
      EscapeJoin(a[1..], b);
    }
  }

  lemma {:induction false} EscapePlain(s: string)
    requires forall i | 0 <= i < |s| :: EscapeChar(s[i]) == [s[i]]
    ensures Escape(s) == s
    decreases |s|
  {
    hide EscapeChar;
    if s != "" {
      EscapePlain(s[1..]);
    }
  }

  lemma EscapeParts(s: string, start: nat, p: nat)
    requires start <= p < |s| && forall i | start <= i < p :: EscapeChar(s[i]) == [s[i]]
    ensures Escape(s[..p + 1]) == Escape(s[..start]) + s[start..p] + EscapeChar(s[p])
  {
    hide EscapeChar;
    assert s[..p + 1] == s[..start] + s[start..p] + [s[p]];
    EscapeJoin(s[..start] + s[start..p], [s[p]]);
    EscapeJoin(s[..start], s[start..p]);
    EscapePlain(s[start..p]);
    assert [s[p]][1..] == "";
  }

  lemma {:induction false} EscapeRest(s: string, start: nat)
    requires start <= |s| && forall i | start <= i < |s| :: EscapeChar(s[i]) == [s[i]]
    ensures Escape(s) == Escape(s[..start]) + s[start..]
  {
    hide EscapeChar;
    assert s == s[..start] + s[start..];
    EscapeJoin(s[..start], s[start..]);
    EscapePlain(s[start..]);
  }
}
