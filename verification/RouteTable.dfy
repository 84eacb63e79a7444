/** Setting a router up, as a flat table: one row for each place routes lead to, in the order in which
    matching tries them. A static segment shares its place, every parameter makes one of its own. */
module RouteTables {
  import opened Helpers
  import opened RouteSpec

  // ---------------------------------------------------------------- the commands

  /** A router is set up by declaring routes inside nested groups. */
  datatype Command = Declare(route: string, handler: nat) | Open(prefix: string) | Close

  function RouteText(cmd: Command): string
    requires !cmd.Close?
  {
    StripRoute(if cmd.Declare? then cmd.route else cmd.prefix)
  }

  /** Its text is well formed and has a wildcard at most at the end. */
  predicate Accepted(cmd: Command) {
    cmd.Close? || (Segments(RouteText(cmd)).Some? && WildcardLast(Segments(RouteText(cmd)).value))
  }

  function PatternOf(cmd: Command): Pattern
    requires Accepted(cmd) && !cmd.Close?
  {
    Segments(RouteText(cmd)).value
  }

  predicate WellFormed(cmds: seq<Command>, depth: nat)
    decreases |cmds|
  {
    cmds != [] ==>
      && Accepted(cmds[0]) && (cmds[0].Close? ==> depth > 0)
      && WellFormed(cmds[1..], if cmds[0].Open? then depth + 1 else if cmds[0].Close? then depth - 1 else depth)
  }

  // ---------------------------------------------------------------- the table

  /** One segment on the way to a place; parameters of the same kind are told apart by `copy`. */
  datatype Branch = Branch(seg: Segment, copy: nat)

  type Place = seq<Branch>

  datatype Row = Row(place: Place, handler: Option<nat>)

  function PatternAt(place: Place): (p: Pattern)
    ensures |p| == |place|
  {
    seq(|place|, i requires 0 <= i < |place| => place[i].seg)
  }

  predicate HasPlace(rows: seq<Row>, place: Place) { exists r <- rows :: r.place == place }

  /** The row put in behind the last one at or below a place. */
  function Behind(rows: seq<Row>, at: Place, row: Row): seq<Row>
    decreases |rows|
  {
    if rows == [] then []
    else if at <= rows[|rows| - 1].place then rows + [row]
    else Behind(rows[..|rows| - 1], at, row) + [rows[|rows| - 1]]
  }

  /** One segment on from a place: to the place a static segment already has there, else to a new one. */
  function Reach(rows: seq<Row>, at: Place, seg: Segment): (seq<Row>, Place) {
    if seg.Static? && HasPlace(rows, at + [Branch(seg, 0)]) then (rows, at + [Branch(seg, 0)])
    else
      var place := at + [Branch(seg, if seg.Static? then 0 else |rows|)];
      (Behind(rows, at, Row(place, None)), place)
  }

  function Walk(rows: seq<Row>, at: Place, segs: Pattern): (seq<Row>, Place)
    decreases |segs|
  {
    if segs == [] then (rows, at)
    else
      var r := Reach(rows, at, segs[0]);
      Walk(r.0, r.1, segs[1..])
  }

  function Answering(rows: seq<Row>, place: Place, handler: nat): (r: seq<Row>)
    ensures |r| == |rows|
  {
    seq(|rows|, i requires 0 <= i < |rows| =>
      if rows[i].place == place then Row(place, Some(handler)) else rows[i])
  }

  datatype Table = Table(rows: seq<Row>, current: Place, outer: seq<Place>)

  const START := Table([Row([], None)], [], [])

  function Do(cmd: Command, t: Table): Table
    requires Accepted(cmd) && (cmd.Close? ==> t.outer != [])
  {
    match cmd
    case Declare(_, handler) =>
      var r := Walk(t.rows, t.current, PatternOf(cmd));
      t.(rows := Answering(r.0, r.1, handler))
    case Open(_) =>
      var r := Walk(t.rows, t.current, PatternOf(cmd));
      Table(r.0, r.1, t.outer + [t.current])
    case Close => Table(t.rows, t.outer[|t.outer| - 1], t.outer[..|t.outer| - 1])
  }

  /** A whole set-up. */
  function SetUp(cmds: seq<Command>, t: Table): Table
    requires WellFormed(cmds, |t.outer|)
    decreases |cmds|
  {
    if cmds == [] then t else SetUp(cmds[1..], Do(cmds[0], t))
  }

  /** The handler of the first row that matches, with its captures. */
  function FirstRow(reader: Reader, rows: seq<Row>, path: string): Option<(nat, seq<Capture>)>
    decreases |rows|
  {
    if rows == [] then None
    else if rows[0].handler.Some? && Matches(reader, PatternAt(rows[0].place), path).Some? then
      Some((rows[0].handler.value, Matches(reader, PatternAt(rows[0].place), path).value))
    else FirstRow(reader, rows[1..], path)
  }

  // ---------------------------------------------------------------- the patterns declared

  /** The patterns of the open groups, outermost first, and of the innermost one. */
  datatype Groups = Groups(outer: seq<Pattern>, current: Pattern)

  function After(cmd: Command, g: Groups): Groups
    requires Accepted(cmd) && (cmd.Close? ==> g.outer != [])
  {
    match cmd
    case Declare(_, _) => g
    case Open(_) => Groups(g.outer + [g.current], g.current + PatternOf(cmd))
    case Close => Groups(g.outer[..|g.outer| - 1], g.outer[|g.outer| - 1])
  }

  /** The patterns declared: each its groups' segments followed by its own. */
  function Declared(cmds: seq<Command>, g: Groups): set<Pattern>
    requires WellFormed(cmds, |g.outer|)
    decreases |cmds|
  {
    if cmds == [] then {}
    else (if cmds[0].Declare? then {g.current + PatternOf(cmds[0])} else {}) + Declared(cmds[1..], After(cmds[0], g))
  }

  ghost function RowPatterns(rows: seq<Row>): set<Pattern> {
    set i | 0 <= i < |rows| && rows[i].handler.Some? :: PatternAt(rows[i].place)
  }

  predicate InGroups(t: Table, g: Groups) {
    && PatternAt(t.current) == g.current && |t.outer| == |g.outer|
    && forall i | 0 <= i < |t.outer| :: PatternAt(t.outer[i]) == g.outer[i]
  }

  lemma DoDepth(cmd: Command, t: Table)
    requires Accepted(cmd) && (cmd.Close? ==> t.outer != [])
    ensures |Do(cmd, t).outer|
         == if cmd.Open? then |t.outer| + 1 else if cmd.Close? then |t.outer| - 1 else |t.outer|
  {
    hide Walk;
  }
}
