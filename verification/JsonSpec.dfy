/** JSON values, their compact text, and a reader after RFC 8259; reading undoes writing. */
module JsonSpec {
  import opened Helpers
  import R = ResponseSpec

  datatype Json = Str(s: string) | Int(n: int) | Bool(b: bool) | Null | Arr(items: Items) | Obj(members: Members)

  datatype Items = NoItems | Item(head: Json, tail: Items)

  datatype Members = NoMembers | Member(key: string, value: Json, rest: Members)

  // ---------------------------------------------------------------- strings

  const HEX: seq<char> := "0123456789abcdef"

  /** Section 7 of RFC 8259: quotation mark, reverse solidus and control characters are escaped. */
  function EscapeChar(c: char): string {
    if c == '"' then "\\\""
    else if c == '\\' then "\\\\"
    else if c == '\n' then "\\n"
    else if c == '\r' then "\\r"
    else if c == '\t' then "\\t"
    else if c == '\U{08}' then "\\b"
    else if c == '\U{0C}' then "\\f"
    else if (c as int) < 0x20 then "\\u00" + [HEX[c as int / 16]] + [HEX[c as int % 16]]
    else [c]
  }

  function Escape(s: string): string {
    if s == "" then "" else EscapeChar(s[0]) + Escape(s[1..])
  }

  function Quoted(s: string): string { "\"" + Escape(s) + "\"" }

  function HexDigit(c: char): Option<nat> {
    if '0' <= c <= '9' then Some((c - '0') as nat)
    else if 'a' <= c <= 'f' then Some(10 + (c - 'a') as nat)
    else if 'A' <= c <= 'F' then Some(10 + (c - 'A') as nat)
    else None
  }

  /** One character of a string body and what follows it. */
  function ReadChar(s: string): (r: Option<(char, string)>)
    ensures r.Some? ==> |r.value.1| < |s|
  {
    if s == "" || (s[0] as int) < 0x20 || s[0] == '"' then None
    else if s[0] != '\\' then Some((s[0], s[1..]))
    else if |s| < 2 then None
    else
      match s[1]
      case '"' => Some(('"', s[2..]))
      case '\\' => Some(('\\', s[2..]))
      case '/' => Some(('/', s[2..]))
      case 'b' => Some(('\U{08}', s[2..]))
      case 'f' => Some(('\U{0C}', s[2..]))
      case 'n' => Some(('\n', s[2..]))
      case 'r' => Some(('\r', s[2..]))
      case 't' => Some(('\t', s[2..]))
      case 'u' => ReadUnicode(s)
      case _ => None
  }

  /** `\uXXXX` outside the surrogates. */
  function ReadUnicode(s: string): (r: Option<(char, string)>)
    ensures r.Some? ==> |r.value.1| < |s|
  {
    if |s| < 6 || HexDigit(s[2]).None? || HexDigit(s[3]).None? || HexDigit(s[4]).None? || HexDigit(s[5]).None? then None
    else
      var code := HexDigit(s[2]).value * 0x1000 + HexDigit(s[3]).value * 0x100 + HexDigit(s[4]).value * 0x10
          + HexDigit(s[5]).value;
      if code < 0xD800 then Some((code as char, s[6..])) else None
  }

  /** The rest of a string, behind its opening quote. */
  function ReadString(s: string): (r: Option<(string, string)>)
    ensures r.Some? ==> |r.value.1| < |s|
    decreases |s|
  {
    if s != "" && s[0] == '"' then Some(("", s[1..]))
    else
      match ReadChar(s)
      case None => None
      case Some(c) =>
        match ReadString(c.1)
        case None => None
        case Some(r) => Some(([c.0] + r.0, r.1))
  }

  lemma HexRead(d: nat)
    requires d < 16
    ensures HexDigit(HEX[d]) == Some(d)
  {
    assert HEX[0] == '0' && HEX[1] == '1' && HEX[2] == '2' && HEX[3] == '3' && HEX[4] == '4' && HEX[5] == '5'
        && HEX[6] == '6' && HEX[7] == '7';
    assert HEX[8] == '8' && HEX[9] == '9' && HEX[10] == 'a' && HEX[11] == 'b' && HEX[12] == 'c' && HEX[13] == 'd'
        && HEX[14] == 'e' && HEX[15] == 'f';
  }

  lemma ControlRead(c: char, rest: string)
    requires (c as int) < 0x20
    ensures ReadUnicode("\\u00" + [HEX[c as int / 16]] + [HEX[c as int % 16]] + rest) == Some((c, rest))
  {
    var s := "\\u00" + [HEX[c as int / 16]] + [HEX[c as int % 16]] + rest;
    HexRead(c as int / 16);
    HexRead(c as int % 16);
    assert s[2] == '0' && s[3] == '0' && s[4] == HEX[c as int / 16] && s[5] == HEX[c as int % 16];
    assert s[6..] == rest;
  }

  lemma CharRead(c: char, rest: string)
    ensures ReadChar(EscapeChar(c) + rest) == Some((c, rest))
    ensures (EscapeChar(c) + rest)[0] != '"'
  {
    var s := EscapeChar(c) + rest;
    if (c as int) < 0x20 && c !in "\n\r\t\U{08}\U{0C}" {
      ControlRead(c, rest);
    } else if |EscapeChar(c)| == 2 {
      assert s[2..] == rest;
    } else {
      assert s[1..] == rest;
    }
  }

  lemma {:induction false} StringRead(s: string, rest: string)
    ensures ReadString(Escape(s) + "\"" + rest) == Some((s, rest))
    decreases |s|
  {
    if s == "" {
      assert Escape(s) + "\"" + rest == "\"" + rest;
      assert ("\"" + rest)[1..] == rest;
    } else {
      var behind := Escape(s[1..]) + "\"" + rest;
      assert Escape(s) + "\"" + rest == EscapeChar(s[0]) + behind;
      CharRead(s[0], behind);
      StringRead(s[1..], rest);
      assert [s[0]] + s[1..] == s;
    }
  }

  // ---------------------------------------------------------------- numbers

  function IntText(n: int): string { if n < 0 then "-" + NatText(-n) else NatText(n) }

  predicate IsDigit(c: char) { '0' <= c <= '9' }

  function DigitsOf(s: string): string {
    if s == "" || !IsDigit(s[0]) then "" else [s[0]] + DigitsOf(s[1..])
  }

  /** A natural number without fraction or exponent, and without leading zeros. */
  function ReadNat(s: string): (r: Option<(nat, string)>)
    ensures r.Some? ==> |r.value.1| < |s|
  {
    var digits := DigitsOf(s);
    DigitsFirst(s);
    var rest := s[|digits|..];
    if digits == "" || (|digits| > 1 && digits[0] == '0') || (rest != "" && rest[0] in ".eE") then None
    else Some((R.Decimal(digits), rest))
  }

  function ReadInt(s: string): (r: Option<(Json, string)>)
    ensures r.Some? ==> |r.value.1| < |s|
  {
    if s != "" && s[0] == '-' then
      match ReadNat(s[1..])
      case None => None
      case Some(n) => Some((Int(0 - n.0), n.1))
    else
      match ReadNat(s)
      case None => None
      case Some(n) => Some((Int(n.0), n.1))
  }

  lemma {:induction false} DigitsFirst(s: string)
    ensures DigitsOf(s) <= s
    decreases |s|
  {
    if s != "" && IsDigit(s[0]) {
      DigitsFirst(s[1..]);
    }
  }

  /** What may follow a value: the end or one of the separators. */
  predicate Ends(rest: string) { rest == "" || rest[0] in ",]}" }

  lemma {:induction false} DigitsWhole(digits: string, rest: string)
    requires (forall c <- digits :: IsDigit(c)) && Ends(rest)
    ensures DigitsOf(digits + rest) == digits
    decreases |digits|
  {
    if digits == "" {
      assert digits + rest == rest;
    } else {
      assert (digits + rest)[1..] == digits[1..] + rest;
      DigitsWhole(digits[1..], rest);
    }
  }

  lemma {:induction false} NatRead(n: nat)
    ensures var s := NatText(n);
            R.Decimal(s) == n && (forall c <- s :: IsDigit(c)) && (|s| > 1 ==> s[0] != '0') && (s[0] == '0' ==> n == 0)
    decreases n
  {
    R.DigitRead(n % 10);
    DigitIs(n % 10);
    if n < 10 {
      assert [DIGITS[n]][..0] == "";
    } else {
      NatRead(n / 10);
      var s := NatText(n);
      assert s[..|s| - 1] == NatText(n / 10);
    }
  }

  lemma DigitIs(d: nat)
    requires d < 10
    ensures IsDigit(DIGITS[d]) && (DIGITS[d] == '0' ==> d == 0)
  {
    R.DigitRead(d);
    assert DIGITS[0] == '0' && DIGITS[1] == '1' && DIGITS[2] == '2' && DIGITS[3] == '3' && DIGITS[4] == '4';
    assert DIGITS[5] == '5' && DIGITS[6] == '6' && DIGITS[7] == '7' && DIGITS[8] == '8' && DIGITS[9] == '9';
  }

  lemma NatReads(n: nat, rest: string)
    requires Ends(rest)
    ensures ReadNat(NatText(n) + rest) == Some((n, rest)) && (NatText(n) + rest)[0] != '-'
  {
    hide NatText;
    var digits := NatText(n);
    NatRead(n);
    DigitsWhole(digits, rest);
    assert (digits + rest)[|digits|..] == rest;
    assert (digits + rest)[0] == digits[0] && digits[0] in digits;
  }

  lemma IntRead(n: int, rest: string)
    requires Ends(rest)
    ensures ReadInt(IntText(n) + rest) == Some((Int(n), rest))
  {
    hide ReadNat, NatText;
    if n < 0 {
      NatReads(-n, rest);
      assert (IntText(n) + rest)[1..] == NatText(-n) + rest;
    } else {
      NatReads(n, rest);
    }
  }

  // ---------------------------------------------------------------- values

  /** The compact text of a value. */
  function Text(v: Json): string
    decreases v, 0
  {
    match v
    case Str(s) => Quoted(s)
    case Int(n) => IntText(n)
    case Bool(b) => if b then "true" else "false"
    case Null => "null"
    case Arr(items) => "[" + ItemsText(items, true) + "]"
    case Obj(members) => "{" + MembersText(members, true) + "}"
  }

  function Separator(first: bool): string { if first then "" else "," }

  function ItemsText(items: Items, first: bool): string
    decreases items, 0
  {
    match items
    case NoItems => ""
    case Item(v, tail) => Separator(first) + Text(v) + ItemsText(tail, false)
  }

  function MembersText(members: Members, first: bool): string
    decreases members, 0
  {
    match members
    case NoMembers => ""
    case Member(key, v, rest) => Separator(first) + Quoted(key) + ":" + Text(v) + MembersText(rest, false)
  }

  /** A value at the front of a text, and what follows it. Blanks are not expected. */
  function Read(s: string): (r: Option<(Json, string)>)
    ensures r.Some? ==> |r.value.1| < |s|
    decreases |s|, 2
  {
    if s == "" then None
    else if s[0] == '"' then
      match ReadString(s[1..])
      case None => None
      case Some(r) => Some((Str(r.0), r.1))
    else if s[0] == '[' then
      if |s| > 1 && s[1] == ']' then Some((Arr(NoItems), s[2..]))
      else
        match ReadItems(s[1..])
        case None => None
        case Some(r) => Some((Arr(r.0), r.1))
    else if s[0] == '{' then
      if |s| > 1 && s[1] == '}' then Some((Obj(NoMembers), s[2..]))
      else
        match ReadMembers(s[1..])
        case None => None
        case Some(r) => Some((Obj(r.0), r.1))
    else if "true" <= s then Some((Bool(true), s[4..]))
    else if "false" <= s then Some((Bool(false), s[5..]))
    else if "null" <= s then Some((Null, s[4..]))
    else ReadInt(s)
  }

  /** One or more items, up to and including the closing bracket. */
  function ReadItems(s: string): (r: Option<(Items, string)>)
    ensures r.Some? ==> |r.value.1| < |s|
    decreases |s|, 3
  {
    match Read(s)
    case None => None
    case Some(v) =>
      if v.1 == "" then None
      else if v.1[0] == ']' then Some((Item(v.0, NoItems), v.1[1..]))
      else if v.1[0] != ',' then None
      else
        match ReadItems(v.1[1..])
        case None => None
        case Some(r) => Some((Item(v.0, r.0), r.1))
  }

  /** One or more members, up to and including the closing brace. */
  function ReadMembers(s: string): (r: Option<(Members, string)>)
    ensures r.Some? ==> |r.value.1| < |s|
    decreases |s|, 3
  {
    if s == "" || s[0] != '"' then None
    else
      match ReadString(s[1..])
      case None => None
      case Some(k) =>
        if k.1 == "" || k.1[0] != ':' then None
        else
          match Read(k.1[1..])
          case None => None
          case Some(v) =>
            if v.1 == "" then None
            else if v.1[0] == '}' then Some((Member(k.0, v.0, NoMembers), v.1[1..]))
            else if v.1[0] != ',' then None
            else
              match ReadMembers(v.1[1..])
              case None => None
              case Some(r) => Some((Member(k.0, v.0, r.0), r.1))
  }

  lemma ReadWord(v: Json, rest: string)
    requires v.Bool? || v.Null?
    ensures Read(Text(v) + rest) == Some((v, rest))
  {
    hide ReadString, ReadInt, ReadItems, ReadMembers;
    var s := Text(v) + rest;
    if v.Null? {
      assert s[..4] == "null" && s[4..] == rest;
    } else {
      assert s[..if v.b then 4 else 5] == Text(v) && s[if v.b then 4 else 5..] == rest;
    }
  }

  lemma ReadNumber(n: int, rest: string)
    requires Ends(rest)
    ensures Read(Text(Int(n)) + rest) == Some((Int(n), rest))
  {
    hide ReadString, ReadInt, ReadItems, ReadMembers, IntText;
    IntRead(n, rest);
    IntFront(n, rest);
  }

  lemma ReadQuoted(t: string, rest: string)
    ensures Read(Text(Str(t)) + rest) == Some((Str(t), rest))
  {
    hide ReadString, ReadInt, ReadItems, ReadMembers, Escape;
    StringRead(t, rest);
    assert (Text(Str(t)) + rest)[1..] == Escape(t) + "\"" + rest;
  }

  lemma ReadArray(items: Items, rest: string)
    requires items.Item? ==> ReadItems(ItemsText(items, true) + "]" + rest) == Some((items, rest))
    ensures Read(Text(Arr(items)) + rest) == Some((Arr(items), rest))
  {
    hide ReadString, ReadInt, ReadItems, ReadMembers, ItemsText;
    var s := Text(Arr(items)) + rest;
    if items.NoItems? {
      NothingInside();
      assert s[2..] == rest;
    } else {
      assert s[1..] == ItemsText(items, true) + "]" + rest;
      ItemsFront(items, rest);
    }
  }

  lemma ReadObject(members: Members, rest: string)
    requires members.Member? ==> ReadMembers(MembersText(members, true) + "}" + rest) == Some((members, rest))
    ensures Read(Text(Obj(members)) + rest) == Some((Obj(members), rest))
  {
    hide ReadString, ReadInt, ReadItems, ReadMembers, MembersText;
    var s := Text(Obj(members)) + rest;
    if members.NoMembers? {
      NothingInside();
      assert s[2..] == rest;
    } else {
      assert s[1..] == MembersText(members, true) + "}" + rest;
      MembersFront(members, rest);
    }
  }

  lemma NothingInside()
    ensures ItemsText(NoItems, true) == "" && MembersText(NoMembers, true) == ""
  {
  }

  /** Reading undoes writing. */
  lemma {:induction false} ReadText(v: Json, rest: string)
    requires Ends(rest)
    ensures Read(Text(v) + rest) == Some((v, rest))
    decreases v, 0
  {
    hide Read, Text, ReadItems, ReadMembers, ItemsText, MembersText;
    match v
    case Str(t) => ReadQuoted(t, rest);
    case Int(n) => ReadNumber(n, rest);
    case Bool(b) => ReadWord(v, rest);
    case Null => ReadWord(v, rest);
    case Arr(items) =>
      if items.Item? { ReadItemsText(items, rest); }
      ReadArray(items, rest);
    case Obj(members) =>
      if members.Member? { ReadMembersText(members, rest); }
      ReadObject(members, rest);
  }

  /** A number begins like no other value. */
  lemma IntFront(n: int, rest: string)
    ensures var s := IntText(n) + rest; s != "" && (IsDigit(s[0]) || s[0] == '-')
  {
    var m := if n < 0 then -n else n;
    NatRead(m);
    assert NatText(m)[0] in NatText(m);
  }

  /** No value begins with a closing bracket or brace. */
  lemma TextFront(v: Json, rest: string)
    ensures var s := Text(v) + rest; s != "" && s[0] !in "]},"
  {
    hide Escape, IntText;
    if v.Int? {
      IntFront(v.n, rest);
    }
  }

  lemma ItemsFront(items: Items, rest: string)
    requires items.Item?
    ensures var s := ItemsText(items, true) + "]" + rest; s != "" && s[0] != ']'
  {
    hide Text;
    var tail := ItemsText(items.tail, false) + "]" + rest;
    TextFront(items.head, tail);
    assert ItemsText(items, true) + "]" + rest == Text(items.head) + tail;
  }

  lemma MembersFront(members: Members, rest: string)
    requires members.Member?
    ensures var s := MembersText(members, true) + "}" + rest; s != "" && s[0] == '"'
  {
  }

  lemma {:induction false} ReadItemsText(items: Items, rest: string)
    requires items.Item?
    ensures ReadItems(ItemsText(items, true) + "]" + rest) == Some((items, rest))
    decreases items, 1
  {
    hide Text, Read;
    var behind := ItemsText(items.tail, false) + "]" + rest;
    var s := ItemsText(items, true) + "]" + rest;
    assert s == Text(items.head) + behind;
    if items.tail.NoItems? {
      assert behind == "]" + rest;
      ReadText(items.head, behind);
      assert behind[1..] == rest;
    } else {
      LaterItems(items.tail);
      assert behind == "," + (ItemsText(items.tail, true) + "]" + rest);
      ReadText(items.head, behind);
      ReadItemsText(items.tail, rest);
      assert behind[1..] == ItemsText(items.tail, true) + "]" + rest;
    }
  }

  lemma LaterItems(items: Items)
    requires items.Item?
    ensures ItemsText(items, false) == "," + ItemsText(items, true)
  {
    hide Text;
    Apart("", Text(items.head), ItemsText(items.tail, false));
    Apart(",", Text(items.head), ItemsText(items.tail, false));
  }

  lemma Apart(a: string, b: string, c: string)
    ensures a + b + c == a + (b + c) && (a == "" ==> a + b + c == b + c)
  {
  }

  lemma {:induction false} ReadMembersText(members: Members, rest: string)
    requires members.Member?
    ensures ReadMembers(MembersText(members, true) + "}" + rest) == Some((members, rest))
    decreases members, 1
  {
    hide Text, Read, Escape, ReadString;
    var behind := MembersText(members.rest, false) + "}" + rest;
    var value := Text(members.value) + behind;
    var s := MembersText(members, true) + "}" + rest;
    MemberParts(members, rest);
    StringRead(members.key, ":" + value);
    assert s[1..] == Escape(members.key) + "\"" + (":" + value);
    assert (":" + value)[1..] == value;
    if members.rest.NoMembers? {
      assert behind == "}" + rest;
      ReadText(members.value, behind);
      assert behind[1..] == rest;
    } else {
      LaterMembers(members.rest);
      assert behind == "," + (MembersText(members.rest, true) + "}" + rest);
      ReadText(members.value, behind);
      ReadMembersText(members.rest, rest);
      assert behind[1..] == MembersText(members.rest, true) + "}" + rest;
    }
  }

  lemma MemberParts(members: Members, rest: string)
    requires members.Member?
    ensures MembersText(members, true) + "}" + rest
         == "\"" + (Escape(members.key) + "\""
                    + (":" + (Text(members.value) + (MembersText(members.rest, false) + "}" + rest))))
  {
    hide Text, Escape;
    Regrouped(Escape(members.key), Text(members.value), MembersText(members.rest, false), rest);
  }

  lemma Regrouped(key: string, value: string, more: string, rest: string)
    ensures "" + ("\"" + key + "\"") + ":" + value + more + "}" + rest
            == "\"" + (key + "\"" + (":" + (value + (more + "}" + rest))))
  {
  }

  lemma LaterMembers(members: Members)
    requires members.Member?
    ensures MembersText(members, false) == "," + MembersText(members, true)
  {
    hide Text, Quoted;
    LaterParts(Quoted(members.key), Text(members.value), MembersText(members.rest, false));
  }

  lemma LaterParts(key: string, value: string, more: string)
    ensures "," + key + ":" + value + more == "," + ("" + key + ":" + value + more)
  {
  }
}
