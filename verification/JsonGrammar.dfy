/** The grammar of RFC 8259 without blanks, as a relation between values and texts; what the writer
    writes is derived by it. */
module JsonGrammar {
  import opened Helpers
  import opened JsonSpec
  import R = ResponseSpec

  predicate Digit(c: char) { '0' <= c <= '9' }

  /** The two-character escapes of section 7. */
  predicate Escaped(c: char, e: char) {
    || (e == '"' && c as int == 0x22)
    || (e == '\\' && c as int == 0x5C)
    || (e == '/' && c as int == 0x2F)
    || (e == 'b' && c as int == 0x08)
    || (e == 'f' && c as int == 0x0C)
    || (e == 'n' && c as int == 0x0A)
    || (e == 'r' && c as int == 0x0D)
    || (e == 't' && c as int == 0x09)
  }

  function HexValue(c: char): int {
    if '0' <= c <= '9' then c as int - '0' as int
    else if 'a' <= c <= 'f' then 10 + c as int - 'a' as int
    else if 'A' <= c <= 'F' then 10 + c as int - 'A' as int
    else -1
  }

  predicate Hex(c: char) { '0' <= c <= '9' || 'a' <= c <= 'f' || 'A' <= c <= 'F' }

  /** Section 7: a character stands for itself unless it is a quotation mark, a reverse solidus or a
      control character. */
  predicate CharSpelled(c: char, t: string) {
    || (t == [c] && c as int >= 0x20 && c as int != 0x22 && c as int != 0x5C)
    || (|t| == 2 && t[0] == '\\' && Escaped(c, t[1]))
    || (|t| == 6 && t[0] == '\\' && t[1] == 'u' && Hex(t[2]) && Hex(t[3]) && Hex(t[4]) && Hex(t[5])
        && c as int == 0x1000 * HexValue(t[2]) + 0x100 * HexValue(t[3]) + 0x10 * HexValue(t[4]) + HexValue(t[5]))
  }

  ghost predicate CharsSpelled(s: string, t: string)
    decreases |s|
  {
    if s == "" then t == ""
    else exists k: nat | k <= |t| :: CharSpelled(s[0], t[..k]) && CharsSpelled(s[1..], t[k..])
  }

  ghost predicate StringSpelled(s: string, t: string) {
    |t| >= 2 && t[0] == '"' && t[|t| - 1] == '"' && CharsSpelled(s, t[1..|t| - 1])
  }

  /** Section 6: digits without leading zeros, behind a minus for negative numbers. */
  predicate IntSpelled(n: int, t: string) {
    if n < 0 then t != "" && t[0] == '-' && NatSpelled(-n, t[1..]) else NatSpelled(n, t)
  }

  predicate NatSpelled(n: nat, t: string) {
    && t != "" && (forall c <- t :: Digit(c))
    && (|t| > 1 ==> t[0] != '0')
    && R.Decimal(t) == n
  }

  ghost predicate Spelled(v: Json, t: string)
    decreases v, 0
  {
    match v
    case Str(s) => StringSpelled(s, t)
    case Int(n) => IntSpelled(n, t)
    case Bool(b) => t == if b then "true" else "false"
    case Null => t == "null"
    case Arr(items) => |t| >= 2 && t[0] == '[' && t[|t| - 1] == ']' && ItemsSpelled(items, t[1..|t| - 1])
    case Obj(members) => |t| >= 2 && t[0] == '{' && t[|t| - 1] == '}' && MembersSpelled(members, t[1..|t| - 1])
  }

  /** Section 5: values with commas between them. */
  ghost predicate ItemsSpelled(items: Items, t: string)
    decreases items, 0
  {
    match items
    case NoItems => t == ""
    case Item(v, tail) =>
      if tail.NoItems? then Spelled(v, t)
      else exists k: nat | k < |t| :: t[k] == ',' && Spelled(v, t[..k]) && ItemsSpelled(tail, t[k + 1..])
  }

  /** Section 4: a name, a colon and a value each, with commas between them. */
  ghost predicate MembersSpelled(members: Members, t: string)
    decreases members, 1
  {
    match members
    case NoMembers => t == ""
    case Member(key, v, rest) =>
      if rest.NoMembers? then PairSpelled(key, v, t)
      else exists k: nat | k < |t| :: t[k] == ',' && PairSpelled(key, v, t[..k]) && MembersSpelled(rest, t[k + 1..])
  }

  ghost predicate PairSpelled(key: string, v: Json, t: string)
    decreases v, 1
  {
    exists k: nat | k < |t| :: t[k] == ':' && StringSpelled(key, t[..k]) && Spelled(v, t[k + 1..])
  }

  // ---------------------------------------------------------------- what is written

  lemma HexSpells(d: nat)
    requires d < 16
    ensures Hex(HEX[d]) && HexValue(HEX[d]) == d
  {
    HexRead(d);
  }

  lemma EscapeSpells(c: char)
    ensures CharSpelled(c, EscapeChar(c))
  {
    if (c as int) < 0x20 {
      HexSpells(c as int / 16);
      HexSpells(c as int % 16);
    }
  }

  lemma {:induction false} CharsWritten(s: string)
    ensures CharsSpelled(s, Escape(s))
    decreases |s|
  {
    if s != "" {
      EscapeSpells(s[0]);
      CharsWritten(s[1..]);
      var k := |EscapeChar(s[0])|;
      assert Escape(s)[..k] == EscapeChar(s[0]) && Escape(s)[k..] == Escape(s[1..]);
    }
  }

  lemma QuotedWritten(s: string)
    ensures StringSpelled(s, Quoted(s))
  {
    CharsWritten(s);
    assert Quoted(s)[1..|Quoted(s)| - 1] == Escape(s);
  }

  lemma IntWritten(n: int)
    ensures IntSpelled(n, IntText(n))
  {
    NatRead(if n < 0 then -n else n);
    if n < 0 {
      assert IntText(n)[1..] == NatText(-n);
    }
  }

  /** The text of every value is derived by the grammar. */
  lemma {:induction false} TextWritten(v: Json)
    ensures Spelled(v, Text(v))
    decreases v, 0
  {
    match v
    case Str(s) => QuotedWritten(s);
    case Int(n) => IntWritten(n);
    case Bool(_) =>
    case Null =>
    case Arr(items) =>
      ItemsWritten(items);
      assert Text(v)[1..|Text(v)| - 1] == ItemsText(items, true);
    case Obj(members) =>
      MembersWritten(members);
      assert Text(v)[1..|Text(v)| - 1] == MembersText(members, true);
  }

  lemma {:induction false} ItemsWritten(items: Items)
    ensures ItemsSpelled(items, ItemsText(items, true))
    decreases items, 0
  {
    if items.Item? {
      hide Spelled, ItemsSpelled, Text, ItemsText;
      TextWritten(items.head);
      ItemsWritten(items.tail);
      FirstItem(items.head, items.tail);
      ItemsJoin(items.head, items.tail, Text(items.head), ItemsText(items.tail, true));
    }
  }

  /** The first item, and behind a comma the others. */
  lemma FirstItem(v: Json, tail: Items)
    ensures ItemsText(Item(v, tail), true)
         == if tail.NoItems? then Text(v) else Text(v) + ("," + ItemsText(tail, true))
  {
    hide Text;
    if tail.Item? {
      Assoc(",", Text(tail.head), ItemsText(tail.tail, false));
      assert "" + Text(tail.head) == Text(tail.head) && "" + Text(v) == Text(v);
    }
  }

  lemma ItemsJoin(v: Json, tail: Items, t: string, later: string)
    requires Spelled(v, t) && ItemsSpelled(tail, later)
    ensures ItemsSpelled(Item(v, tail), if tail.NoItems? then t else t + ("," + later))
  {
    hide Spelled;
    var all := t + ("," + later);
    assert all[..|t|] == t && all[|t|] == ',' && all[|t| + 1..] == later;
  }

  function Pair(key: string, v: Json): string { Quoted(key) + ":" + Text(v) }

  lemma PairWritten(key: string, v: Json)
    requires Spelled(v, Text(v))
    ensures PairSpelled(key, v, Pair(key, v))
  {
    hide Spelled, StringSpelled, Text, Quoted;
    QuotedWritten(key);
    var t, k := Pair(key, v), |Quoted(key)|;
    assert t[..k] == Quoted(key) && t[k] == ':' && t[k + 1..] == Text(v);
  }

  lemma {:induction false} MembersWritten(members: Members)
    ensures MembersSpelled(members, MembersText(members, true))
    decreases members, 0
  {
    if members.Member? {
      hide Spelled, MembersSpelled, PairSpelled, Text, MembersText, Pair;
      TextWritten(members.value);
      PairWritten(members.key, members.value);
      MembersWritten(members.rest);
      FirstMember(members.key, members.value, members.rest);
      MembersJoin(members.key, members.value, members.rest, Pair(members.key, members.value),
                  MembersText(members.rest, true));
    }
  }

  lemma FirstMember(key: string, v: Json, rest: Members)
    ensures MembersText(Member(key, v, rest), true)
         == if rest.NoMembers? then Pair(key, v) else Pair(key, v) + ("," + MembersText(rest, true))
  {
    hide Text, Quoted;
    assert "" + Quoted(key) + ":" + Text(v) == Pair(key, v);
    if rest.Member? {
      LaterMembers(rest);
    }
  }

  lemma LaterMembers(members: Members)
    requires members.Member?
    ensures MembersText(members, false) == "," + MembersText(members, true)
  {
    hide Text, Quoted;
    var k, t, more := Quoted(members.key), Text(members.value), MembersText(members.rest, false);
    assert "," + k + ":" + t + more == "," + ("" + k + ":" + t + more);
  }

  lemma MembersJoin(key: string, v: Json, rest: Members, t: string, later: string)
    requires PairSpelled(key, v, t) && MembersSpelled(rest, later)
    ensures MembersSpelled(Member(key, v, rest), if rest.NoMembers? then t else t + ("," + later))
  {
    hide PairSpelled;
    var all := t + ("," + later);
    assert all[..|t|] == t && all[|t|] == ',' && all[|t| + 1..] == later;
  }
}
