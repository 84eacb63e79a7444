/** What routing promises: route patterns, when a pattern matches a path, and with which captures. */
module RouteSpec {
  import opened Helpers

  datatype ParamType = UINT | INT | UUID | STRING

  datatype Segment = Static(name: string) | Param(kind: ParamType)

  /** What a parameter or a wildcard captures. */
  datatype Capture = Number(n: int) | Id(raw: seq<bv8>) | Text(s: string)

  type Pattern = seq<Segment>

  // ---------------------------------------------------------------- paths

  function StripRoute(route: string): string {
    if route != "" && route[0] == '/' then route[1..] else route
  }

  /** The first segment of a path and what follows its slash. */
  function Head(path: string): string { path[..Find(path, '/', 0)] }

  function Rest(path: string): (r: string)
    ensures path != "" ==> |r| < |path|
  {
    var i := Find(path, '/', 0);
    if i == |path| then "" else path[i + 1..]
  }

  /** What a wildcard swallows: everything, but not a lone slash at the end. */
  function Swallowed(path: string): string {
    if Rest(path) == "" then Head(path) else Head(path) + "/" + Rest(path)
  }

  // ---------------------------------------------------------------- route texts

  function KindNamed(name: string): Option<ParamType> {
    if name == "uint" then Some(UINT)
    else if name == "int" then Some(INT)
    else if name == "uuid" then Some(UUID)
    else if name == "string" then Some(STRING)
    else None
  }

  /** `<type>` and `<name:type>` are parameters; everything else stands for itself. */
  function SegmentNamed(s: string): Option<Segment> {
    if s == "" || s[0] != '<' || s[|s| - 1] != '>' then Some(Static(s))
    else if |s| <= 2 then None
    else
      var inner := s[1..|s| - 1];
      var colon := Find(inner, ':', 0);
      if colon < |inner| && (colon == 0 || colon == |inner| - 1) then None
      else
        match KindNamed(if colon == |inner| then inner else inner[colon + 1..])
        case Some(kind) => Some(Param(kind))
        case None => None
  }

  /** The segments of a route text; None if one is malformed. */
  function Segments(route: string): Option<Pattern>
    decreases |route|
  {
    if route == "" then Some([])
    else
      match SegmentNamed(Head(route))
      case None => None
      case Some(seg) =>
        match Segments(Rest(route))
        case None => None
        case Some(more) => Some([seg] + more)
  }

  const WILDCARD := Static("*")

  predicate WildcardLast(p: Pattern) {
    forall i | 0 <= i < |p| - 1 :: p[i] != WILDCARD
  }

  // ---------------------------------------------------------------- matching

  /** How parameter texts are read; a string parameter takes any text. */
  type Reader = (ParamType, string) -> Option<Capture>

  function Read(reader: Reader, kind: ParamType, text: string): Option<Capture> {
    if kind == STRING then Some(Text(text)) else reader(kind, text)
  }

  /** The captures with which a pattern matches a path. */
  function Matches(reader: Reader, p: Pattern, path: string): Option<seq<Capture>>
    decreases |p|
  {
    if path == "" || p == [] then (if path == "" && p == [] then Some([]) else None)
    else
      match p[0]
      case Static(name) =>
        if name == "*" then Capturing(Text(Swallowed(path)), Matches(reader, p[1..], ""))
        else if name == Head(path) then Matches(reader, p[1..], Rest(path))
        else None
      case Param(kind) =>
        match Read(reader, kind, Head(path))
        case None => None
        case Some(c) => Capturing(c, Matches(reader, p[1..], Rest(path)))
  }

  function Capturing(c: Capture, more: Option<seq<Capture>>): Option<seq<Capture>> {
    match more
    case None => None
    case Some(cs) => Some([c] + cs)
  }

  /** A registered pattern and the node its handler is kept at. */
  datatype Route = Route(pattern: Pattern, node: nat)

  /** The first route that matches, with its captures. */
  function FirstMatch(reader: Reader, routes: seq<Route>, path: string): Option<(nat, seq<Capture>)>
    decreases |routes|
  {
    if routes == [] then None
    else
      match Matches(reader, routes[0].pattern, path)
      case Some(cs) => Some((routes[0].node, cs))
      case None => FirstMatch(reader, routes[1..], path)
  }

  lemma {:induction false} FirstMatchIff(reader: Reader, routes: seq<Route>, path: string)
    ensures FirstMatch(reader, routes, path).Some? <==> exists r <- routes :: Matches(reader, r.pattern, path).Some?
    decreases |routes|
  {
    if routes != [] {
      FirstMatchIff(reader, routes[1..], path);
      if exists r <- routes :: Matches(reader, r.pattern, path).Some? {
        var r :| r in routes && Matches(reader, r.pattern, path).Some?;
        assert r == routes[0] || r in routes[1..];
      }
      if Matches(reader, routes[0].pattern, path).Some? {
        assert routes[0] in routes;
      }
    }
  }

  lemma {:induction false} FirstMatchJoin(reader: Reader, a: seq<Route>, b: seq<Route>, path: string)
    ensures FirstMatch(reader, a + b, path)
         == if FirstMatch(reader, a, path).Some? then FirstMatch(reader, a, path) else FirstMatch(reader, b, path)
    decreases |a|
  {
    if a == [] {
      assert a + b == b;
    } else {
      assert (a + b)[1..] == a[1..] + b;
      FirstMatchJoin(reader, a[1..], b, path);
    }
  }

  // ---------------------------------------------------------------- below one segment

  /** The routes of a child, seen from its parent. */
  function Below(seg: Segment, routes: seq<Route>): (r: seq<Route>)
    ensures |r| == |routes|
  {
    seq(|routes|, i requires 0 <= i < |routes| => Route([seg] + routes[i].pattern, routes[i].node))
  }

  lemma Step(reader: Reader, seg: Segment, p: Pattern, path: string)
    requires path != ""
    ensures Matches(reader, [seg] + p, path)
         == if seg == WILDCARD then Capturing(Text(Swallowed(path)), Matches(reader, p, ""))
            else if seg.Static? then (if seg.name == Head(path) then Matches(reader, p, Rest(path)) else None)
            else if Read(reader, seg.kind, Head(path)).None? then None
            else Capturing(Read(reader, seg.kind, Head(path)).value, Matches(reader, p, Rest(path)))
  {
    assert ([seg] + p)[1..] == p;
  }

  function WithCapture(c: Capture, hit: Option<(nat, seq<Capture>)>): Option<(nat, seq<Capture>)> {
    match hit
    case None => None
    case Some(h) => Some((h.0, [c] + h.1))
  }

  lemma {:induction false} BelowMatch(reader: Reader, seg: Segment, routes: seq<Route>, path: string)
    requires path != ""
    ensures FirstMatch(reader, Below(seg, routes), path)
         == if seg == WILDCARD then WithCapture(Text(Swallowed(path)), FirstMatch(reader, routes, ""))
            else if seg.Static? then (if seg.name == Head(path) then FirstMatch(reader, routes, Rest(path)) else None)
            else if Read(reader, seg.kind, Head(path)).None? then None
            else WithCapture(Read(reader, seg.kind, Head(path)).value, FirstMatch(reader, routes, Rest(path)))
    decreases |routes|
  {
    if routes != [] {
      assert Below(seg, routes)[1..] == Below(seg, routes[1..]);
      Step(reader, seg, routes[0].pattern, path);
      BelowMatch(reader, seg, routes[1..], path);
    }
  }

  lemma {:induction false} NoneBelowAtEnd(reader: Reader, seg: Segment, routes: seq<Route>)
    ensures FirstMatch(reader, Below(seg, routes), "") == None
    decreases |routes|
  {
    if routes != [] {
      assert Below(seg, routes)[1..] == Below(seg, routes[1..]);
      NoneBelowAtEnd(reader, seg, routes[1..]);
    }
  }
}
