/** Paths and route texts as segments between slashes: what a pattern matches and captures, and which
    pattern a route text spells, said on the text as a whole. */
module RoutePaths {
  import opened Helpers
  import opened RouteSpec

  // ---------------------------------------------------------------- texts between slashes

  function Joined(ss: seq<string>): string {
    if ss == [] then "" else if |ss| == 1 then ss[0] else ss[0] + "/" + Joined(ss[1..])
  }

  predicate Plain(s: string) { '/' !in s }

  /** One segment and a closing slash. */
  predicate Closed(s: string) { s != "" && s[|s| - 1] == '/' && Plain(s[..|s| - 1]) }

  /** A path is its segments with slashes between them, and perhaps one slash behind the last. Without
      that slash the last is not empty, and is not itself a segment that such a slash closes. */
  predicate Spells(ss: seq<string>, path: string) {
    if ss == [] then path == ""
    else
      var last := ss[|ss| - 1];
      || (path == Joined(ss) + "/" && Plain(last))
      || (path == Joined(ss) && last != "" && !Closed(last))
  }

  lemma JoinedTwo(s: string, ss: seq<string>)
    requires ss != []
    ensures Joined([s] + ss) == s + "/" + Joined(ss)
  {
    assert ([s] + ss)[1..] == ss;
  }

  lemma {:induction false} JoinedEmpty(ss: seq<string>)
    requires ss != [] && Joined(ss) == ""
    ensures ss == [""]
  {
  }

  lemma NothingSpelled(ss: seq<string>)
    ensures Spells(ss, "") <==> ss == []
    ensures forall path :: Spells([], path) ==> path == ""
  {
    if ss != [] && Spells(ss, "") {
      JoinedEmpty(ss);
    }
  }

  /** The first slash stands behind the first segment. */
  lemma {:induction false} FirstSlash(s: string, from: nat, rest: string)
    requires Plain(s) && from <= |s|
    ensures Find(s, '/', from) == |s| && Find(s + "/" + rest, '/', from) == |s|
    decreases |s| - from
  {
    if from < |s| {
      assert s[from] in s;
      FirstSlash(s, from + 1, rest);
    }
  }

  lemma HeadPlain(path: string)
    ensures Plain(Head(path))
    ensures path == Head(path) || path == Head(path) + "/" + Rest(path)
  {
    var i := Find(path, '/', 0);
    if i < |path| {
      assert path == path[..i] + "/" + path[i + 1..];
    }
  }

  lemma HeadIs(s: string, rest: string)
    requires Plain(s)
    ensures Head(s) == s && Rest(s) == ""
    ensures Head(s + "/" + rest) == s && Rest(s + "/" + rest) == rest
  {
    FirstSlash(s, 0, rest);
    assert s[..|s|] == s;
    var path := s + "/" + rest;
    assert path[..|s|] == s && path[|s| + 1..] == rest;
  }

  /** One segment in front of the rest of a path. */
  lemma SpellsFirst(path: string, ss: seq<string>)
    requires path != ""
    ensures ss != [] && Plain(ss[0]) ==>
              (Spells(ss, path) <==> ss[0] == Head(path) && Spells(ss[1..], Rest(path)))
  {
    hide Closed;
    HeadPlain(path);
    if ss != [] && Plain(ss[0]) {
      assert ss == [ss[0]] + ss[1..];
      if |ss| == 1 {
        OneSpelled(path, ss[0]);
        NothingSpelled([]);
      } else {
        JoinedTwo(ss[0], ss[1..]);
        MoreSpelled(path, ss[0], ss[1..]);
      }
    }
  }

  lemma OneSpelled(path: string, s: string)
    requires path != "" && Plain(s)
    ensures Spells([s], path) <==> s == Head(path) && Rest(path) == ""
  {
    HeadPlain(path);
    HeadIs(s, "");
    assert s + "/" + "" == s + "/";
    if s == Head(path) && Rest(path) == "" && path != s {
      assert path == s + "/" + "";
    }
    PlainNotClosed(s);
  }

  lemma PlainNotClosed(s: string)
    requires Plain(s)
    ensures !Closed(s)
  {
    if s != "" {
      assert s[|s| - 1] in s;
    }
  }

  lemma MoreSpelled(path: string, s: string, ss: seq<string>)
    requires path != "" && Plain(s) && ss != [] && Joined([s] + ss) == s + "/" + Joined(ss)
    ensures Spells([s] + ss, path) <==> s == Head(path) && Spells(ss, Rest(path))
  {
    hide Spells, Head, Rest;
    if Spells([s] + ss, path) {
      MoreHeaded(path, s, ss);
    }
    if s == Head(path) && Spells(ss, Rest(path)) {
      HeadedMore(path, s, ss);
    }
  }

  lemma MoreHeaded(path: string, s: string, ss: seq<string>)
    requires Plain(s) && ss != [] && Joined([s] + ss) == s + "/" + Joined(ss) && Spells([s] + ss, path)
    ensures s == Head(path) && Spells(ss, Rest(path))
  {
    hide Closed, Plain, Joined, Head, Rest;
    var all := [s] + ss;
    assert all[|all| - 1] == ss[|ss| - 1];
    if path == Joined(all) + "/" && Plain(ss[|ss| - 1]) {
      assert path == s + "/" + (Joined(ss) + "/");
      HeadIs(s, Joined(ss) + "/");
    } else {
      HeadIs(s, Joined(ss));
    }
  }

  lemma HeadedMore(path: string, s: string, ss: seq<string>)
    requires ss != [] && Joined([s] + ss) == s + "/" + Joined(ss) && s == Head(path) && Spells(ss, Rest(path))
    ensures Spells([s] + ss, path)
  {
    hide Closed, Plain, Joined, Head, Rest;
    var all := [s] + ss;
    assert all[|all| - 1] == ss[|ss| - 1];
    HeadPlain(path);
    RestSpelled(path, ss);
    assert s + "/" + (Joined(ss) + "/") == s + "/" + Joined(ss) + "/";
  }

  lemma RestSpelled(path: string, ss: seq<string>)
    requires ss != [] && Spells(ss, Rest(path))
    ensures path == Head(path) + "/" + Rest(path)
  {
    NothingSpelled(ss);
    HeadPlain(path);
    var i := Find(path, '/', 0);
    assert i < |path|;
    assert path == path[..i] + "/" + path[i + 1..];
  }

  // ---------------------------------------------------------------- what is matched and captured

  /** The segments fit a pattern and leave its captures: a name is itself, a string parameter captures its
      segment, any other one what is read from it, and a last `*` everything. */
  predicate Fits(reader: Reader, p: Pattern, ss: seq<string>, cs: seq<Capture>)
    decreases |p|
  {
    if p == [] then ss == [] && cs == []
    else
      && ss != []
      && match p[0]
         case Static(name) =>
           if name == "*" then |p| == |ss| == 1 && cs == [Text(ss[0])]
           else Plain(ss[0]) && ss[0] == name && Fits(reader, p[1..], ss[1..], cs)
         case Param(kind) =>
           && Plain(ss[0]) && cs != []
           && (if kind == STRING then cs[0] == Text(ss[0]) else reader(kind, ss[0]) == Some(cs[0]))
           && Fits(reader, p[1..], ss[1..], cs[1..])
  }

  /** All of a path but a slash that closes its only segment. */
  lemma SwallowedAll(path: string, s: string)
    requires path != ""
    ensures Spells([s], path) <==> s == Swallowed(path)
  {
    HeadPlain(path);
    if Rest(path) == "" {
      if Plain(s) {
        OneSpelled(path, s);
      } else if Spells([s], path) {
        assert path == s;
        ClosedHead(path);
      }
    } else {
      NotClosedLong(path);
    }
  }

  lemma ClosedHead(path: string)
    requires Rest(path) == "" && !Plain(path)
    ensures Closed(path)
  {
    var i := Find(path, '/', 0);
    HeadPlain(path);
    assert path == Head(path) + "/";
  }

  lemma NotClosedLong(path: string)
    requires Rest(path) != ""
    ensures path == Head(path) + "/" + Rest(path) && !Closed(path)
    ensures forall s | path == s + "/" || path == s :: !Plain(s)
  {
    var i := Find(path, '/', 0);
    HeadPlain(path);
    assert i < |path| - 1 && path[i] == '/';
    assert path[i] in path[..|path| - 1] && path[i] in path;
    forall s | path == s + "/" || path == s ensures !Plain(s) {
      assert s[i] == '/' && s[i] in s;
    }
  }

  /** The path is spelled by segments that fit the pattern and leave the captures. */
  ghost predicate Takes(reader: Reader, p: Pattern, path: string, cs: seq<Capture>) {
    exists ss :: Spells(ss, path) && Fits(reader, p, ss, cs)
  }

  /** A pattern matches a path with some captures exactly when it takes it with them. */
  lemma MatchesIff(reader: Reader, p: Pattern, path: string, cs: seq<Capture>)
    ensures Matches(reader, p, path) == Some(cs) <==> Takes(reader, p, path, cs)
  {
    if Matches(reader, p, path) == Some(cs) {
      var ss := MatchSpelled(reader, p, path);
    }
    if ss :| Spells(ss, path) && Fits(reader, p, ss, cs) {
      SpelledMatch(reader, p, path, ss, cs);
    }
  }

  lemma {:induction false} MatchSpelled(reader: Reader, p: Pattern, path: string) returns (ss: seq<string>)
    requires Matches(reader, p, path).Some?
    ensures Spells(ss, path) && Fits(reader, p, ss, Matches(reader, p, path).value)
    decreases |p|
  {
    hide Spells, Swallowed, Head, Rest, Plain;
    NothingSpelled([]);
    if p == [] {
      ss := [];
    } else if p[0] == WILDCARD {
      ss := [Swallowed(path)];
      SwallowedAll(path, Swallowed(path));
      AtEnd(reader, p[1..]);
    } else {
      HeadPlain(path);
      var more := MatchSpelled(reader, p[1..], Rest(path));
      ss := [Head(path)] + more;
      assert ss[1..] == more;
      SpellsFirst(path, ss);
    }
  }

  lemma AtEnd(reader: Reader, p: Pattern)
    ensures Matches(reader, p, "") == if p == [] then Some([]) else None
  {
  }

  lemma {:induction false} SpelledMatch(reader: Reader, p: Pattern, path: string, ss: seq<string>, cs: seq<Capture>)
    requires Spells(ss, path) && Fits(reader, p, ss, cs)
    ensures Matches(reader, p, path) == Some(cs)
    decreases |p|
  {
    hide Spells, Swallowed, Head, Rest, Plain;
    NothingSpelled(ss);
    if p != [] {
      if p[0] == WILDCARD {
        assert ss == [ss[0]];
        SwallowedAll(path, ss[0]);
        AtEnd(reader, p[1..]);
        assert p[1..] == [] && [Text(ss[0])] + [] == cs;
      } else {
        SpellsFirst(path, ss);
        SpelledMatch(reader, p[1..], Rest(path), ss[1..], if p[0].Static? then cs else cs[1..]);
        assert p[0].Param? ==> [cs[0]] + cs[1..] == cs;
      }
    }
  }

  /** Under a last `*` no character of a path is lost: it is the segments taken before, joined by
      slashes, and the last capture, with at most one slash behind it. */
  lemma WildcardKeepsAll(reader: Reader, p: Pattern, path: string, cs: seq<Capture>)
    requires Matches(reader, p + [WILDCARD], path) == Some(cs)
    ensures cs != [] && cs[|cs| - 1].Text?
    ensures exists ss | |ss| == |p| ::
              && Fits(reader, p, ss, cs[..|cs| - 1])
              && var whole := Joined(ss + [cs[|cs| - 1].s]); path == whole || path == whole + "/"
  {
    hide Plain;
    var all := MatchSpelled(reader, p + [WILDCARD], path);
    FitsLast(reader, p, all, cs);
    assert all == all[..|p|] + [all[|p|]];
  }

  lemma {:induction false} FitsLast(reader: Reader, p: Pattern, ss: seq<string>, cs: seq<Capture>)
    requires Fits(reader, p + [WILDCARD], ss, cs)
    ensures |ss| == |p| + 1 && cs != [] && cs[|cs| - 1] == Text(ss[|p|]) && Fits(reader, p, ss[..|p|], cs[..|cs| - 1])
    decreases |p|
  {
    if p == [] {
      assert p + [WILDCARD] == [WILDCARD];
    } else {
      assert (p + [WILDCARD])[1..] == p[1..] + [WILDCARD];
      var cs' := if p[0].Static? then cs else cs[1..];
      FitsLast(reader, p[1..], ss[1..], cs');
      assert ss[..|p|][1..] == ss[1..][..|p| - 1];
      if p[0].Param? {
        assert cs[..|cs| - 1][1..] == cs'[..|cs'| - 1];
      }
    }
  }

  // ---------------------------------------------------------------- route texts

  function KindText(kind: ParamType): string {
    match kind
    case UINT => "uint"
    case INT => "int"
    case UUID => "uuid"
    case STRING => "string"
  }

  predicate Bracketed(s: string) { |s| > 0 && s[0] == '<' && s[|s| - 1] == '>' }

  /** A name stands for itself, and `<type>` or `<name:type>` for a parameter. */
  ghost predicate Writes(seg: Segment, s: string) {
    match seg
    case Static(name) => s == name && !Bracketed(s)
    case Param(kind) =>
      || s == "<" + KindText(kind) + ">"
      || exists n: string :: n != "" && ':' !in n && s == "<" + n + ":" + KindText(kind) + ">"
  }

  ghost predicate WritesAll(p: Pattern, ss: seq<string>) {
    |p| == |ss| && forall i | 0 <= i < |p| :: Plain(ss[i]) && Writes(p[i], ss[i])
  }

  lemma {:induction false} FirstColon(n: string, from: nat, rest: string)
    requires ':' !in n && from <= |n|
    ensures Find(n, ':', from) == |n| && Find(n + ":" + rest, ':', from) == |n|
    decreases |n| - from
  {
    if from < |n| {
      assert n[from] in n;
      FirstColon(n, from + 1, rest);
    }
  }

  lemma KindRead(kind: ParamType, name: string)
    ensures KindNamed(name) == Some(kind) <==> name == KindText(kind)
    ensures ':' !in KindText(kind) && KindText(kind) != ""
  {
  }

  lemma ParamRead(kind: ParamType, s: string, inner: string)
    requires s == "<" + inner + ">" && inner != ""
    ensures var colon := Find(inner, ':', 0);
            SegmentNamed(s) == if colon < |inner| && (colon == 0 || colon == |inner| - 1) then None
                               else match KindNamed(if colon == |inner| then inner else inner[colon + 1..])
                                    case Some(k) => Some(Param(k))
                                    case None => None
  {
    assert s[1..|s| - 1] == inner;
  }

  lemma {:induction false} FirstColonIs(inner: string, colon: nat)
    requires colon < |inner| && colon == Find(inner, ':', 0)
    ensures ':' !in inner[..colon] && inner == inner[..colon] + ":" + inner[colon + 1..]
  {
    forall i | 0 <= i < colon ensures inner[..colon][i] != ':' {
    }
  }

  /** A segment's text is read as exactly what it is written for. */
  lemma SegmentRead(seg: Segment, s: string)
    ensures SegmentNamed(s) == Some(seg) <==> Writes(seg, s)
  {
    if Bracketed(s) && |s| > 2 {
      var inner := s[1..|s| - 1];
      assert s == "<" + inner + ">";
      if seg.Param? {
        ParamText(seg.kind, s, inner);
      } else {
        ParamRead(INT, s, inner);
      }
    } else if seg.Param? {
      KindRead(seg.kind, "");
    }
  }

  lemma ParamText(kind: ParamType, s: string, inner: string)
    requires s == "<" + inner + ">" && inner != ""
    ensures SegmentNamed(s) == Some(Param(kind)) <==> Writes(Param(kind), s)
  {
    hide SegmentNamed, KindText;
    if SegmentNamed(s) == Some(Param(kind)) {
      ParamWritten(kind, s, inner);
    }
    if s == "<" + KindText(kind) + ">" {
      BareRead(kind, s);
    } else if n: string :| n != "" && ':' !in n && s == "<" + n + ":" + KindText(kind) + ">" {
      NamedRead(kind, s, n);
    }
  }

  lemma ParamWritten(kind: ParamType, s: string, inner: string)
    requires s == "<" + inner + ">" && inner != "" && SegmentNamed(s) == Some(Param(kind))
    ensures Writes(Param(kind), s)
  {
    hide SegmentNamed, KindNamed, KindText, Find;
    ParamRead(kind, s, inner);
    var colon := Find(inner, ':', 0);
    KindRead(kind, if colon == |inner| then inner else inner[colon + 1..]);
    if colon < |inner| {
      FirstColonIs(inner, colon);
      var n := inner[..colon];
      assert "<" + (n + ":" + KindText(kind)) + ">" == "<" + n + ":" + KindText(kind) + ">";
    }
  }

  lemma BareRead(kind: ParamType, s: string)
    requires s == "<" + KindText(kind) + ">"
    ensures SegmentNamed(s) == Some(Param(kind))
  {
    hide SegmentNamed, KindNamed, KindText;
    KindRead(kind, KindText(kind));
    FirstColon(KindText(kind), 0, "");
    ParamRead(kind, s, KindText(kind));
  }

  lemma NamedRead(kind: ParamType, s: string, n: string)
    requires n != "" && ':' !in n && s == "<" + n + ":" + KindText(kind) + ">"
    ensures SegmentNamed(s) == Some(Param(kind))
  {
    hide SegmentNamed, KindNamed, KindText, Find;
    var inner := n + ":" + KindText(kind);
    assert s == "<" + inner + ">";
    KindRead(kind, KindText(kind));
    FirstColon(n, 0, KindText(kind));
    ParamRead(kind, s, inner);
    assert inner[|n| + 1..] == KindText(kind);
  }

  /** A route text has a pattern exactly when its segments are written for the pattern's. */
  lemma SegmentsIff(route: string, p: Pattern)
    ensures Segments(route) == Some(p) <==> exists ss :: Spells(ss, route) && WritesAll(p, ss)
  {
    if Segments(route) == Some(p) {
      var ss := RouteSpelled(route);
    }
    if ss :| Spells(ss, route) && WritesAll(p, ss) {
      SpelledRoute(route, p, ss);
    }
  }

  lemma {:induction false} RouteSpelled(route: string) returns (ss: seq<string>)
    requires Segments(route).Some?
    ensures Spells(ss, route) && WritesAll(Segments(route).value, ss)
    decreases |route|
  {
    hide Spells, Head, Rest, Plain, SegmentNamed, Writes;
    NothingSpelled([]);
    if route == "" {
      ss := [];
    } else {
      HeadPlain(route);
      var seg, p := SegmentNamed(Head(route)).value, Segments(Rest(route)).value;
      SegmentRead(seg, Head(route));
      var more := RouteSpelled(Rest(route));
      ss := [Head(route)] + more;
      assert ss[1..] == more;
      SpellsFirst(route, ss);
      assert Segments(route).value == [seg] + p;
    }
  }

  lemma {:induction false} SpelledRoute(route: string, p: Pattern, ss: seq<string>)
    requires Spells(ss, route) && WritesAll(p, ss)
    ensures Segments(route) == Some(p)
    decreases |p|
  {
    hide Spells, Head, Rest, Plain, SegmentNamed, Writes;
    NothingSpelled(ss);
    if p != [] {
      assert Plain(ss[0]) && Writes(p[0], ss[0]);
      SpellsFirst(route, ss);
      SegmentRead(p[0], ss[0]);
      SpelledRoute(Rest(route), p[1..], ss[1..]);
      assert [p[0]] + p[1..] == p;
    }
  }

  /** One leading slash makes no difference. */
  lemma LeadingSlash(route: string)
    ensures StripRoute("/" + route) == route
    ensures route == "" || route[0] != '/' ==> StripRoute(route) == route
  {
  }
}
