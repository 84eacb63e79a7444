/** Which of the handlers declared for a pattern answers it: the one declared last at the place where
    the pattern was declared first. */
module RouteAnswers {
  import opened Helpers
  import opened RouteSpec
  import opened RouteTables

  // ---------------------------------------------------------------- where a row goes

  lemma {:induction false} BehindIs(rows: seq<Row>, at: Place, row: Row) returns (k: nat)
    requires HasPlace(rows, at)
    ensures 0 < k <= |rows| && at <= rows[k - 1].place && forall j | k <= j < |rows| :: !(at <= rows[j].place)
    ensures Behind(rows, at, row) == rows[..k] + [row] + rows[k..]
    decreases |rows|
  {
    var n := |rows| - 1;
    if at <= rows[n].place {
      k := |rows|;
      assert rows[..k] == rows && rows + [row] + [] == rows + [row];
    } else {
      PlaceBefore(rows, at);
      k := BehindIs(rows[..n], at, row);
      Split(rows, k, row);
    }
  }

  lemma PlaceBefore(rows: seq<Row>, at: Place)
    requires HasPlace(rows, at) && !(at <= rows[|rows| - 1].place)
    ensures HasPlace(rows[..|rows| - 1], at)
  {
    var r :| r in rows && r.place == at;
    var i :| 0 <= i < |rows| && rows[i] == r;
    assert rows[..|rows| - 1][i] == r;
  }

  lemma Split(rows: seq<Row>, k: nat, row: Row)
    requires k < |rows|
    ensures var n := |rows| - 1; rows[..n][..k] + [row] + rows[..n][k..] + [rows[n]] == rows[..k] + [row] + rows[k..]
  {
  }

  /** A row put in at k. */
  function Inserted(rows: seq<Row>, k: nat, row: Row): (r: seq<Row>)
    requires k <= |rows|
    ensures |r| == |rows| + 1
  {
    rows[..k] + [row] + rows[k..]
  }

  /** Where the row at j of the larger table was before; k itself is the new one. */
  lemma InsertedAt(rows: seq<Row>, k: nat, row: Row, j: nat)
    requires k <= |rows| && j <= |rows|
    ensures Inserted(rows, k, row)[j] == if j < k then rows[j] else if j == k then row else rows[j - 1]
  {
  }

  // ---------------------------------------------------------------- tables as set-ups make them

  predicate PlaceWithin(place: Place, n: nat) {
    forall i | 0 <= i < |place| :: place[i].copy < n && (place[i].seg.Static? ==> place[i].copy == 0)
  }

  /** Places are told apart, by parameters numbered below the size of the table. */
  predicate Proper(rows: seq<Row>) {
    && (forall i, j | 0 <= i < j < |rows| :: rows[i].place != rows[j].place)
    && forall i | 0 <= i < |rows| :: PlaceWithin(rows[i].place, |rows|)
  }

  /** A row leaves the way to a place at its dth branch. */
  predicate Leaves(rows: seq<Row>, place: Place, d: nat, j: nat) {
    d < |place| && j < |rows| && place[..d] <= rows[j].place && !(place[..d + 1] <= rows[j].place)
  }

  predicate Follows(rows: seq<Row>, place: Place, d: nat, i: nat) {
    d < |place| && i < |rows| && place[..d + 1] <= rows[i].place
  }

  /** Wherever a parameter stands on the way to a place, its rows are the last ones there. */
  ghost predicate Latest(rows: seq<Row>, place: Place) {
    forall d: nat, i: nat, j: nat | d < |place| && place[d].seg.Param? && Follows(rows, place, d, i)
        && Leaves(rows, place, d, j) ::
      j < i
  }

  ghost predicate Sound(t: Table) {
    && Proper(t.rows) && HasPlace(t.rows, t.current) && Latest(t.rows, t.current)
    && Stacked(t.outer, t.current) && forall p <- t.outer :: HasPlace(t.rows, p)
  }

  /** Each open group lies within the one outside it. */
  predicate Stacked(outer: seq<Place>, current: Place) {
    && (outer != [] ==> outer[|outer| - 1] <= current)
    && forall i, j | 0 <= i < j < |outer| :: outer[i] <= outer[j]
  }

  lemma LatestAbove(rows: seq<Row>, place: Place, above: Place)
    requires Latest(rows, place) && above <= place
    ensures Latest(rows, above)
  {
    forall d: nat, i: nat, j: nat
      | d < |above| && above[d].seg.Param? && Follows(rows, above, d, i) && Leaves(rows, above, d, j)
      ensures j < i
    {
      assert place[..d] == above[..d] && place[..d + 1] == above[..d + 1];
      assert Follows(rows, place, d, i) && Leaves(rows, place, d, j);
    }
  }

  // ---------------------------------------------------------------- one segment on

  lemma HasPlaceAt(rows: seq<Row>, place: Place) returns (i: nat)
    requires HasPlace(rows, place)
    ensures i < |rows| && rows[i].place == place
  {
    var r :| r in rows && r.place == place;
    i :| 0 <= i < |rows| && rows[i] == r;
  }

  lemma HasPlaceIs(rows: seq<Row>, i: nat)
    requires i < |rows|
    ensures HasPlace(rows, rows[i].place)
  {
    assert rows[i] in rows;
  }

  lemma PlaceKept(rows: seq<Row>, k: nat, row: Row, place: Place)
    requires k <= |rows| && (HasPlace(rows, place) || place == row.place)
    ensures HasPlace(Inserted(rows, k, row), place)
  {
    var rows' := Inserted(rows, k, row);
    if HasPlace(rows, place) {
      var i := HasPlaceAt(rows, place);
      InsertedAt(rows, k, row, if i < k then i else i + 1);
      HasPlaceIs(rows', if i < k then i else i + 1);
    } else {
      InsertedAt(rows, k, row, k);
      HasPlaceIs(rows', k);
    }
  }

  /** The place a segment leads to is new, or the static one that is there. */
  lemma NewPlaceWithin(rows: seq<Row>, at: Place, seg: Segment)
    requires Proper(rows) && HasPlace(rows, at) && rows != []
    requires seg.Static? ==> !HasPlace(rows, at + [Branch(seg, 0)])
    ensures var place := at + [Branch(seg, if seg.Static? then 0 else |rows|)];
            PlaceWithin(place, |rows| + 1) && forall i | 0 <= i < |rows| :: rows[i].place != place
  {
    var place := at + [Branch(seg, if seg.Static? then 0 else |rows|)];
    var a := HasPlaceAt(rows, at);
    assert PlaceWithin(at, |rows|);
    forall i | 0 <= i < |rows| ensures rows[i].place != place {
      HasPlaceIs(rows, i);
      if rows[i].place == place && seg.Param? {
        LastWithin(rows[i].place, place, |rows|);
      }
    }
  }

  lemma ProperInserted(rows: seq<Row>, k: nat, row: Row)
    requires Proper(rows) && k <= |rows| && PlaceWithin(row.place, |rows| + 1)
    requires forall i | 0 <= i < |rows| :: rows[i].place != row.place
    ensures Proper(Inserted(rows, k, row))
  {
    var rows' := Inserted(rows, k, row);
    forall i | 0 <= i < |rows'| ensures PlaceWithin(rows'[i].place, |rows'|) {
      InsertedAt(rows, k, row, i);
      if i != k {
        assert PlaceWithin(rows[if i < k then i else i - 1].place, |rows|);
      }
    }
    forall i, j | 0 <= i < j < |rows'| ensures rows'[i].place != rows'[j].place {
      InsertedAt(rows, k, row, i);
      InsertedAt(rows, k, row, j);
    }
  }

  /** A row behind everything at or below `at` comes behind all that leave the way to it. */
  lemma LatestInserted(rows: seq<Row>, at: Place, k: nat, row: Row)
    requires Latest(rows, at) && 0 < k <= |rows| && at <= rows[k - 1].place && at < row.place
    ensures Latest(Inserted(rows, k, row), at)
  {
    hide Inserted;
    var rows' := Inserted(rows, k, row);
    forall d: nat, i: nat, j: nat | d < |at| && at[d].seg.Param? && Follows(rows', at, d, i) && Leaves(rows', at, d, j)
      ensures j < i
    {
      InsertedAt(rows, k, row, i);
      InsertedAt(rows, k, row, j);
      PrefixOf(at, row.place, d + 1);
      PrefixOf(at, rows[k - 1].place, d + 1);
      assert j != k;
      assert Leaves(rows, at, d, if j < k then j else j - 1);
      if i != k {
        assert Follows(rows, at, d, if i < k then i else i - 1);
      } else {
        assert Follows(rows, at, d, k - 1);
      }
    }
  }

  lemma PrefixOf<T>(a: seq<T>, b: seq<T>, n: nat)
    requires a <= b && n <= |a|
    ensures a[..n] <= b
  {
  }

  /** The new branch itself: when it is a parameter, nothing else goes through it yet. */
  lemma LatestNew(rows: seq<Row>, at: Place, k: nat, row: Row)
    requires k <= |rows| && Latest(Inserted(rows, k, row), at) && |row.place| == |at| + 1 && at <= row.place
    requires forall j | k <= j < |rows| :: !(at <= rows[j].place)
    requires row.place[|at|].seg.Param? ==> forall i | 0 <= i < |rows| :: !(row.place <= rows[i].place)
    ensures Latest(Inserted(rows, k, row), row.place)
  {
    hide Inserted;
    var rows', place := Inserted(rows, k, row), row.place;
    forall d: nat, i: nat, j: nat
      | d < |place| && place[d].seg.Param? && Follows(rows', place, d, i) && Leaves(rows', place, d, j)
      ensures j < i
    {
      InsertedAt(rows, k, row, i);
      InsertedAt(rows, k, row, j);
      if d < |at| {
        assert place[..d] == at[..d] && place[..d + 1] == at[..d + 1];
        assert Follows(rows', at, d, i) && Leaves(rows', at, d, j);
      } else {
        assert place[..d] == at && place[..d + 1] == place;
      }
    }
  }

  lemma LastWithin(whole: Place, place: Place, n: nat)
    requires PlaceWithin(whole, n) && place <= whole && place != []
    ensures place[|place| - 1].copy < n
  {
    assert whole[|place| - 1] == place[|place| - 1];
  }

  lemma NothingThrough(rows: seq<Row>, place: Place)
    requires Proper(rows) && place != [] && place[|place| - 1].copy == |rows|
    ensures forall i | 0 <= i < |rows| :: !(place <= rows[i].place)
  {
    forall i | 0 <= i < |rows| ensures !(place <= rows[i].place) {
      if place <= rows[i].place {
        LastWithin(rows[i].place, place, |rows|);
      }
    }
  }

  lemma LatestStatic(rows: seq<Row>, at: Place, b: Branch)
    requires Latest(rows, at) && b.seg.Static?
    ensures Latest(rows, at + [b])
  {
    var place := at + [b];
    forall d: nat, i: nat, j: nat
      | d < |place| && place[d].seg.Param? && Follows(rows, place, d, i) && Leaves(rows, place, d, j)
      ensures j < i
    {
      assert place[..d] == at[..d] && place[..d + 1] == at[..d + 1];
      assert Follows(rows, at, d, i) && Leaves(rows, at, d, j);
    }
  }

  /** One segment on, everything stays in order and in place. */
  lemma ReachSound(rows: seq<Row>, at: Place, seg: Segment)
    requires Proper(rows) && HasPlace(rows, at) && Latest(rows, at)
    ensures var (rows', place) := Reach(rows, at, seg);
            && Proper(rows') && HasPlace(rows', place) && Latest(rows', place) && |place| == |at| + 1 && at <= place
            && PatternAt(place) == PatternAt(at) + [seg] && Grows(rows, rows')
  {
    hide Proper, Latest, HasPlace, Inserted;
    var a := HasPlaceAt(rows, at);
    var (rows', place) := Reach(rows, at, seg);
    if seg.Static? && HasPlace(rows, at + [Branch(seg, 0)]) {
      LatestStatic(rows, at, Branch(seg, 0));
      GrowsNot(rows);
    } else {
      var row := Row(place, None);
      var k := BehindIs(rows, at, row);
      NewPlaceWithin(rows, at, seg);
      ProperInserted(rows, k, row);
      PlaceKept(rows, k, row, place);
      LatestInserted(rows, at, k, row);
      if seg.Param? {
        NothingThrough(rows, place);
      }
      LatestNew(rows, at, k, row);
      GrowsInserted(rows, k, row);
      InsertedIs(rows, k, row);
    }
  }

  lemma InsertedIs(rows: seq<Row>, k: nat, row: Row)
    requires k <= |rows|
    ensures Inserted(rows, k, row) == rows[..k] + [row] + rows[k..]
  {
  }

  // ---------------------------------------------------------------- growing tables

  /** Rows stay, in their order, and new ones have no handler. */
  ghost predicate Grows(rows: seq<Row>, rows': seq<Row>) {
    && (forall p | HasPlace(rows, p) :: HasPlace(rows', p))
    && (forall p: Pattern, i: nat | IsFirst(rows, p, i) ::
        exists i': nat :: IsFirst(rows', p, i') && rows'[i'] == rows[i])
    && (forall r <- rows' | r.handler.Some? :: r in rows)
    && (forall r <- rows :: r in rows')
  }

  /** The first row with the pattern that has a handler. */
  predicate IsFirst(rows: seq<Row>, p: Pattern, i: nat) {
    i < |rows| && Answers(rows[i], p) && forall j | 0 <= j < i :: !Answers(rows[j], p)
  }

  predicate Answers(r: Row, p: Pattern) { r.handler.Some? && PatternAt(r.place) == p }

  lemma GrowsNot(rows: seq<Row>)
    ensures Grows(rows, rows)
  {
  }

  lemma GrowsInserted(rows: seq<Row>, k: nat, row: Row)
    requires k <= |rows| && row.handler.None?
    ensures Grows(rows, Inserted(rows, k, row))
  {
    hide HasPlace, PatternAt;
    var rows' := Inserted(rows, k, row);
    forall p | HasPlace(rows, p) ensures HasPlace(rows', p) {
      PlaceKept(rows, k, row, p);
    }
    forall p: Pattern, i: nat | IsFirst(rows, p, i)
        ensures exists i': nat :: IsFirst(rows', p, i') && rows'[i'] == rows[i] {
      FirstInserted(rows, k, row, p, i);
    }
    forall r <- rows ensures r in rows' {
      var i :| 0 <= i < |rows| && rows[i] == r;
      InsertedAt(rows, k, row, if i < k then i else i + 1);
    }
  }

  lemma FirstInserted(rows: seq<Row>, k: nat, row: Row, p: Pattern, i: nat)
    requires k <= |rows| && row.handler.None? && IsFirst(rows, p, i)
    ensures var i' := if i < k then i else i + 1;
            IsFirst(Inserted(rows, k, row), p, i') && Inserted(rows, k, row)[i'] == rows[i]
  {
    hide Inserted;
    var rows' := Inserted(rows, k, row);
    var i' := if i < k then i else i + 1;
    InsertedAt(rows, k, row, i');
    forall j | 0 <= j < i' ensures !Answers(rows'[j], p) {
      InsertedAt(rows, k, row, j);
    }
  }

  lemma GrowsFurther(a: seq<Row>, b: seq<Row>, c: seq<Row>)
    requires Grows(a, b) && Grows(b, c)
    ensures Grows(a, c)
  {
    hide HasPlace, Answers;
    forall p: Pattern, i: nat | IsFirst(a, p, i) ensures exists i': nat :: IsFirst(c, p, i') && c[i'] == a[i] {
      var i1: nat :| IsFirst(b, p, i1) && b[i1] == a[i];
      var i2: nat :| IsFirst(c, p, i2) && c[i2] == b[i1];
    }
    forall r <- c | r.handler.Some? ensures r in a {
      assert r in b;
    }
  }

  lemma {:induction false} WalkSound(rows: seq<Row>, at: Place, segs: Pattern)
    requires Proper(rows) && HasPlace(rows, at) && Latest(rows, at)
    ensures var (rows', place) := Walk(rows, at, segs);
            && Proper(rows') && HasPlace(rows', place) && Latest(rows', place) && at <= place
            && PatternAt(place) == PatternAt(at) + segs && Grows(rows, rows')
    decreases |segs|
  {
    hide Proper, Latest, HasPlace, Grows, Reach, PatternAt;
    if segs == [] {
      GrowsNot(rows);
      assert PatternAt(at) + [] == PatternAt(at);
    } else {
      ReachSound(rows, at, segs[0]);
      var (rows1, at1) := Reach(rows, at, segs[0]);
      WalkSound(rows1, at1, segs[1..]);
      var (rows', place) := Walk(rows1, at1, segs[1..]);
      GrowsFurther(rows, rows1, rows');
      assert PatternAt(at) + [segs[0]] + segs[1..] == PatternAt(at) + segs;
      PrefixTrans(at, at1, place);
    }
  }

  // ---------------------------------------------------------------- one command

  lemma AnsweringKeeps(rows: seq<Row>, place: Place, handler: nat)
    requires Proper(rows)
    ensures var rows' := Answering(rows, place, handler);
            && Proper(rows') && (forall p | HasPlace(rows, p) :: HasPlace(rows', p))
            && forall p | Latest(rows, p) :: Latest(rows', p)
  {
    var rows' := Answering(rows, place, handler);
    assert forall i | 0 <= i < |rows| :: rows'[i].place == rows[i].place;
    forall i | 0 <= i < |rows'| ensures PlaceWithin(rows'[i].place, |rows'|) {
      assert PlaceWithin(rows[i].place, |rows|);
    }
    forall p | HasPlace(rows, p) ensures HasPlace(rows', p) {
      var i := HasPlaceAt(rows, p);
      HasPlaceIs(rows', i);
    }
    forall p | Latest(rows, p) ensures Latest(rows', p) {
      SamePlacesLatest(rows, rows', p);
    }
  }

  lemma SamePlacesLatest(rows: seq<Row>, rows': seq<Row>, p: Place)
    requires Latest(rows, p) && |rows'| == |rows| && forall i | 0 <= i < |rows| :: rows'[i].place == rows[i].place
    ensures Latest(rows', p)
  {
    forall d: nat, i: nat, j: nat | d < |p| && p[d].seg.Param? && Follows(rows', p, d, i) && Leaves(rows', p, d, j)
      ensures j < i
    {
      assert Follows(rows, p, d, i) && Leaves(rows, p, d, j);
    }
  }

  lemma DoSound(cmd: Command, t: Table)
    requires Sound(t) && Accepted(cmd) && (cmd.Close? ==> t.outer != [])
    ensures Sound(Do(cmd, t))
  {
    hide Proper, HasPlace, Latest, Walk, Grows, Answering, PatternOf, PatternAt, Accepted;
    match cmd
    case Declare(_, handler) =>
      WalkSound(t.rows, t.current, PatternOf(cmd));
      var (rows, place) := Walk(t.rows, t.current, PatternOf(cmd));
      GrowsPlaces(t.rows, rows);
      LatestAbove(rows, place, t.current);
      AnsweringKeeps(rows, place, handler);
    case Open(_) =>
      WalkSound(t.rows, t.current, PatternOf(cmd));
      GrowsPlaces(t.rows, Walk(t.rows, t.current, PatternOf(cmd)).0);
      StackedOpen(t.outer, t.current, Walk(t.rows, t.current, PatternOf(cmd)).1);
    case Close =>
      var n := |t.outer| - 1;
      assert t.outer[n] in t.outer;
      LatestAbove(t.rows, t.current, t.outer[n]);
      StackedClose(t.outer, t.current);
      assert forall p <- t.outer[..n] :: p in t.outer;
  }

  lemma GrowsPlaces(rows: seq<Row>, rows': seq<Row>)
    requires Grows(rows, rows')
    ensures forall p | HasPlace(rows, p) :: HasPlace(rows', p)
  {
  }

  lemma StackedOpen(outer: seq<Place>, current: Place, place: Place)
    requires Stacked(outer, current) && current <= place
    ensures Stacked(outer + [current], place)
  {
    forall i, j | 0 <= i < j < |outer + [current]| ensures (outer + [current])[i] <= (outer + [current])[j] {
      if j == |outer| {
        PrefixTrans(outer[i], outer[|outer| - 1], current);
      }
    }
  }

  lemma StackedClose(outer: seq<Place>, current: Place)
    requires Stacked(outer, current) && outer != []
    ensures Stacked(outer[..|outer| - 1], outer[|outer| - 1])
  {
  }

  lemma StartSound()
    ensures Sound(START)
  {
    assert START.rows[0] in START.rows;
  }

  // ---------------------------------------------------------------- the patterns of a set-up

  lemma GrowsPatterns(rows: seq<Row>, rows': seq<Row>)
    requires Grows(rows, rows')
    ensures RowPatterns(rows') == RowPatterns(rows)
  {
    hide PatternAt, HasPlace, IsFirst;
    forall p | p in RowPatterns(rows) ensures p in RowPatterns(rows') {
      var i :| 0 <= i < |rows| && rows[i].handler.Some? && PatternAt(rows[i].place) == p;
      assert rows[i] in rows';
      var j :| 0 <= j < |rows'| && rows'[j] == rows[i];
    }
    forall p | p in RowPatterns(rows') ensures p in RowPatterns(rows) {
      var i :| 0 <= i < |rows'| && rows'[i].handler.Some? && PatternAt(rows'[i].place) == p;
      assert rows'[i] in rows';
      var j :| 0 <= j < |rows| && rows[j] == rows'[i];
    }
  }

  lemma AnsweringPatterns(rows: seq<Row>, place: Place, handler: nat)
    requires HasPlace(rows, place)
    ensures RowPatterns(Answering(rows, place, handler)) == RowPatterns(rows) + {PatternAt(place)}
  {
    hide PatternAt;
    var rows' := Answering(rows, place, handler);
    var k := HasPlaceAt(rows, place);
    assert rows'[k] == Row(place, Some(handler));
    forall p | p in RowPatterns(rows) ensures p in RowPatterns(rows') {
      var i :| 0 <= i < |rows| && rows[i].handler.Some? && PatternAt(rows[i].place) == p;
      assert rows'[i].handler.Some? && rows'[i].place == rows[i].place;
    }
    forall p | p in RowPatterns(rows') ensures p in RowPatterns(rows) + {PatternAt(place)} {
      var i :| 0 <= i < |rows'| && rows'[i].handler.Some? && PatternAt(rows'[i].place) == p;
    }
  }

  lemma DoPatterns(cmd: Command, t: Table, g: Groups)
    requires Sound(t) && InGroups(t, g) && Accepted(cmd) && (cmd.Close? ==> t.outer != [])
    ensures InGroups(Do(cmd, t), After(cmd, g))
    ensures RowPatterns(Do(cmd, t).rows) == RowPatterns(t.rows) + if cmd.Declare? then {g.current + PatternOf(cmd)}
            else {}
  {
    hide Proper, HasPlace, Latest, Walk, Grows, Answering, PatternOf, PatternAt, Accepted, RowPatterns;
    if !cmd.Close? {
      WalkSound(t.rows, t.current, PatternOf(cmd));
      var (rows, place) := Walk(t.rows, t.current, PatternOf(cmd));
      GrowsPatterns(t.rows, rows);
      if cmd.Declare? {
        AnsweringPatterns(rows, place, cmd.handler);
      }
    }
  }

  /** A set-up gives handlers to exactly the patterns declared. */
  lemma {:induction false} SetUpDeclares(cmds: seq<Command>, t: Table, g: Groups)
    requires Sound(t) && InGroups(t, g) && WellFormed(cmds, |t.outer|)
    ensures Sound(SetUp(cmds, t)) && RowPatterns(SetUp(cmds, t).rows) == RowPatterns(t.rows) + Declared(cmds, g)
    decreases |cmds|
  {
    hide Sound, RowPatterns, Do, After, PatternOf, Accepted;
    if cmds != [] {
      DoSound(cmds[0], t);
      DoPatterns(cmds[0], t, g);
      DoDepth(cmds[0], t);
      GroupsDepth(cmds[0], t, g);
      SetUpDeclares(cmds[1..], Do(cmds[0], t), After(cmds[0], g));
    }
  }

  lemma GroupsDepth(cmd: Command, t: Table, g: Groups)
    requires InGroups(t, g) && Accepted(cmd) && (cmd.Close? ==> t.outer != [])
    ensures |After(cmd, g).outer| == |Do(cmd, t).outer|
  {
    DoDepth(cmd, t);
  }

  lemma StartGroups()
    ensures InGroups(START, Groups([], []))
  {
    assert PatternAt([]) == [];
  }

  /** From an empty router exactly the patterns declared get handlers. */
  lemma StartDeclares(cmds: seq<Command>)
    requires WellFormed(cmds, 0)
    ensures Sound(SetUp(cmds, START)) && RowPatterns(SetUp(cmds, START).rows) == Declared(cmds, Groups([], []))
  {
    hide Sound, RowPatterns, SetUp, Declared;
    StartSound();
    StartGroups();
    NoneAtStart();
    SetUpDeclares(cmds, START, Groups([], []));
  }

  lemma NoneAtStart()
    ensures RowPatterns(START.rows) == {}
  {
  }

  // ---------------------------------------------------------------- which place answers

  lemma {:induction false} FirstDifference<T>(a: seq<T>, b: seq<T>) returns (d: nat)
    requires |a| == |b| && a != b
    ensures d < |a| && a[..d] == b[..d] && a[d] != b[d]
    decreases |a|
  {
    var n := |a| - 1;
    if a[..n] != b[..n] {
      d := FirstDifference(a[..n], b[..n]);
      assert a[..n][..d] == a[..d] && b[..n][..d] == b[..d];
    } else {
      d := n;
      assert a == a[..n] + [a[n]] && b == b[..n] + [b[n]];
    }
  }

  /** Of the places with a pattern, the one being declared comes last. */
  lemma Precedes(rows: seq<Row>, place: Place, i: nat, j: nat)
    requires Proper(rows) && Latest(rows, place) && i < |rows| && j < |rows| && rows[i].place == place && j != i
    requires PatternAt(rows[j].place) == PatternAt(place)
    ensures j < i
  {
    var other := rows[j].place;
    assert |other| == |PatternAt(other)| && |place| == |PatternAt(place)|;
    assert other != place;
    var d := FirstDifference(place, other);
    assert PatternAt(place)[d] == PatternAt(other)[d];
    assert PlaceWithin(place, |rows|) && PlaceWithin(other, |rows|);
    assert place[..d + 1][d] != other[d];
    assert Follows(rows, place, d, i) && Leaves(rows, place, d, j);
  }

  lemma {:induction false} FirstExists(rows: seq<Row>, p: Pattern)
    ensures (exists i: nat :: IsFirst(rows, p, i)) <==> exists r <- rows :: Answers(r, p)
    decreases |rows|
  {
    hide Answers;
    if exists r <- rows :: Answers(r, p) {
      var n := |rows| - 1;
      if exists r <- rows[..n] :: Answers(r, p) {
        FirstExists(rows[..n], p);
        var i: nat :| IsFirst(rows[..n], p, i);
        assert IsFirst(rows, p, i);
      } else {
        forall j | 0 <= j < n ensures !Answers(rows[j], p) {
          assert rows[..n][j] in rows[..n];
        }
        var r :| r in rows && Answers(r, p);
        var i :| 0 <= i < |rows| && rows[i] == r;
        assert IsFirst(rows, p, n);
      }
    }
    if i: nat :| IsFirst(rows, p, i) {
      assert rows[i] in rows;
    }
  }

  /** Declaring a pattern again leaves it with the place that answered it. */
  lemma AnsweringFirst(rows: seq<Row>, place: Place, handler: nat, p: Pattern, i: nat)
    requires Proper(rows) && HasPlace(rows, place) && Latest(rows, place)
            && IsFirst(Answering(rows, place, handler), p, i)
    ensures (exists j: nat :: IsFirst(rows, p, j)) ==> IsFirst(rows, p, i)
    ensures !(exists j: nat :: IsFirst(rows, p, j)) ==> PatternAt(place) == p && rows[i].place == place
  {
    hide PatternAt, Proper, Latest;
    var rows' := Answering(rows, place, handler);
    var k := HasPlaceAt(rows, place);
    OthersSame(rows, place, handler, k);
    if j: nat :| IsFirst(rows, p, j) {
      if PatternAt(place) == p && k != j {
        Precedes(rows, place, k, j);
      }
      OnlyFirst(rows', p, i, j);
    } else {
      FirstExists(rows, p);
      assert rows[i] in rows;
    }
  }

  lemma OthersSame(rows: seq<Row>, place: Place, handler: nat, k: nat)
    requires Proper(rows) && k < |rows| && rows[k].place == place
    ensures forall x | 0 <= x < |rows| && x != k :: Answering(rows, place, handler)[x] == rows[x]
    ensures Answering(rows, place, handler)[k] == Row(place, Some(handler))
  {
  }

  lemma OnlyFirst(rows: seq<Row>, p: Pattern, i: nat, j: nat)
    requires IsFirst(rows, p, i) && j < |rows| && Answers(rows[j], p) && forall x | 0 <= x < j :: !Answers(rows[x], p)
    ensures i == j
  {
  }

  /** The place a declaration leads to. */
  function PlaceOf(cmd: Command, t: Table): Place
    requires Accepted(cmd) && cmd.Declare?
  {
    Walk(t.rows, t.current, PatternOf(cmd)).1
  }

  predicate Declares(cmd: Command, t: Table, p: Pattern)
    requires Accepted(cmd)
  {
    cmd.Declare? && PatternAt(t.current) + PatternOf(cmd) == p
  }

  /** Where a pattern is declared first. */
  function FirstPlace(cmds: seq<Command>, t: Table, p: Pattern): Option<Place>
    requires WellFormed(cmds, |t.outer|)
    decreases |cmds|
  {
    if cmds == [] then None
    else if Declares(cmds[0], t, p) then Some(PlaceOf(cmds[0], t))
    else
      DoDepth(cmds[0], t);
      FirstPlace(cmds[1..], Do(cmds[0], t), p)
  }

  /** The handler declared last at a place. */
  function LastAt(cmds: seq<Command>, t: Table, place: Place): Option<nat>
    requires WellFormed(cmds, |t.outer|)
    decreases |cmds|
  {
    if cmds == [] then None
    else
      DoDepth(cmds[0], t);
      var later := LastAt(cmds[1..], Do(cmds[0], t), place);
      if later.Some? then later
      else if cmds[0].Declare? && PlaceOf(cmds[0], t) == place then Some(cmds[0].handler)
      else None
  }

  /** The first row for a pattern after one command. */
  lemma DoFirst(cmd: Command, t: Table, p: Pattern, i: nat)
    requires Sound(t) && Accepted(cmd) && (cmd.Close? ==> t.outer != []) && IsFirst(Do(cmd, t).rows, p, i)
    ensures forall j: nat | IsFirst(t.rows, p, j) :: Do(cmd, t).rows[i].place == t.rows[j].place
    ensures !(exists j: nat :: IsFirst(t.rows, p, j)) ==>
            Declares(cmd, t, p) && Do(cmd, t).rows[i].place == PlaceOf(cmd, t)
  {
    hide Proper, HasPlace, Latest, Walk, Answering, PatternOf, PatternAt, Accepted, IsFirst, Grows;
    if cmd.Close? {
      forall j: nat | IsFirst(t.rows, p, j) ensures i == j {
        FirstUnique(t.rows, p, i, j);
      }
    } else {
      WalkSound(t.rows, t.current, PatternOf(cmd));
      var (rows, place) := Walk(t.rows, t.current, PatternOf(cmd));
      GrowsFirst(t.rows, rows, p);
      if cmd.Declare? {
        AnsweringFirst(rows, place, cmd.handler, p, i);
        AnsweringPlaces(rows, place, cmd.handler);
      }
      FirstBelow(Do(cmd, t).rows, p, i);
      forall j: nat | IsFirst(t.rows, p, j) ensures Do(cmd, t).rows[i].place == t.rows[j].place {
        FirstBelow(t.rows, p, j);
        var j': nat :| IsFirst(rows, p, j') && j' < |rows| && rows[j'] == t.rows[j];
        FirstUnique(rows, p, i, j');
      }
    }
  }

  lemma FirstBelow(rows: seq<Row>, p: Pattern, i: nat)
    requires IsFirst(rows, p, i)
    ensures i < |rows|
  {
  }

  lemma FirstUnique(rows: seq<Row>, p: Pattern, i: nat, j: nat)
    requires IsFirst(rows, p, i) && IsFirst(rows, p, j)
    ensures i == j
  {
  }

  lemma AnsweringPlaces(rows: seq<Row>, place: Place, handler: nat)
    ensures forall i | 0 <= i < |rows| :: Answering(rows, place, handler)[i].place == rows[i].place
  {
  }

  lemma GrowsFirst(rows: seq<Row>, rows': seq<Row>, p: Pattern)
    requires Grows(rows, rows')
    ensures forall i: nat | IsFirst(rows, p, i) ::
              i < |rows| && exists i': nat :: IsFirst(rows', p, i') && i' < |rows'| && rows'[i'] == rows[i]
    ensures (exists i: nat :: IsFirst(rows', p, i)) ==> exists i: nat :: IsFirst(rows, p, i)
  {
    hide HasPlace, Answers;
    if i: nat :| IsFirst(rows', p, i) {
      AnswersHandled(rows'[i], p);
      assert rows'[i] in rows';
      FirstExists(rows, p);
    }
  }

  lemma AnswersHandled(r: Row, p: Pattern)
    requires Answers(r, p)
    ensures r.handler.Some?
  {
  }

  // ---------------------------------------------------------------- and with which handler

  /** The handler at a place. */
  function HandlerAt(rows: seq<Row>, place: Place): Option<nat> {
    if rows == [] then None else if rows[0].place == place then rows[0].handler else HandlerAt(rows[1..], place)
  }

  lemma {:induction false} HandlerAtIs(rows: seq<Row>, place: Place)
    ensures forall i: nat | i < |rows| && rows[i].place == place && (forall j | 0 <= j < i :: rows[j].place != place) ::
              HandlerAt(rows, place) == rows[i].handler
    ensures !HasPlace(rows, place) ==> HandlerAt(rows, place) == None
    decreases |rows|
  {
    if rows != [] {
      HandlerAtIs(rows[1..], place);
      if !HasPlace(rows, place) {
        HasPlaceIs(rows, 0);
        assert forall r <- rows[1..] :: r in rows;
      }
      forall i: nat | i < |rows| && rows[i].place == place && forall j | 0 <= j < i :: rows[j].place != place
        ensures HandlerAt(rows, place) == rows[i].handler
      {
        if i > 0 {
          assert rows[1..][i - 1] == rows[i];
          forall j | 0 <= j < i - 1 ensures rows[1..][j].place != place {
            assert rows[1..][j] == rows[j + 1];
          }
        }
      }
    }
  }

  lemma HandlerAtRow(rows: seq<Row>, i: nat)
    requires Proper(rows) && i < |rows|
    ensures HandlerAt(rows, rows[i].place) == rows[i].handler
  {
    HandlerAtIs(rows, rows[i].place);
  }

  lemma GrowsHandlers(rows: seq<Row>, rows': seq<Row>, place: Place)
    requires Grows(rows, rows') && Proper(rows) && Proper(rows')
    ensures HandlerAt(rows', place) == HandlerAt(rows, place)
  {
    hide HandlerAt, Proper, IsFirst;
    HandlerAtIs(rows, place);
    HandlerAtIs(rows', place);
    if HasPlace(rows, place) {
      var i := HasPlaceAt(rows, place);
      assert rows[i] in rows';
      var j :| 0 <= j < |rows'| && rows'[j] == rows[i];
      HandlerAtRow(rows, i);
      HandlerAtRow(rows', j);
    } else if HasPlace(rows', place) {
      var j := HasPlaceAt(rows', place);
      HandlerAtRow(rows', j);
      assert rows'[j] in rows';
    }
  }

  lemma AnsweringHandlers(rows: seq<Row>, place: Place, handler: nat, q: Place)
    requires Proper(rows) && HasPlace(rows, place)
    ensures HandlerAt(Answering(rows, place, handler), q) == if q == place then Some(handler) else HandlerAt(rows, q)
  {
    hide HandlerAt, Proper, Latest;
    var rows' := Answering(rows, place, handler);
    AnsweringKeeps(rows, place, handler);
    AnsweringPlaces(rows, place, handler);
    HandlerAtIs(rows, q);
    HandlerAtIs(rows', q);
    if HasPlace(rows, q) {
      var i := HasPlaceAt(rows, q);
      HandlerAtRow(rows, i);
      HandlerAtRow(rows', i);
    } else if HasPlace(rows', q) {
      var i := HasPlaceAt(rows', q);
      HasPlaceIs(rows, i);
    }
  }

  lemma DoHandlers(cmd: Command, t: Table, q: Place)
    requires Sound(t) && Accepted(cmd) && (cmd.Close? ==> t.outer != [])
    ensures HandlerAt(Do(cmd, t).rows, q)
         == if cmd.Declare? && PlaceOf(cmd, t) == q then Some(cmd.handler) else HandlerAt(t.rows, q)
  {
    hide Proper, HasPlace, Latest, Walk, Grows, Answering, PatternOf, PatternAt, Accepted, HandlerAt;
    if !cmd.Close? {
      WalkSound(t.rows, t.current, PatternOf(cmd));
      var (rows, place) := Walk(t.rows, t.current, PatternOf(cmd));
      GrowsHandlers(t.rows, rows, q);
      if cmd.Declare? {
        AnsweringHandlers(rows, place, cmd.handler, q);
      }
    }
  }

  lemma {:induction false} SetUpHandlers(cmds: seq<Command>, t: Table, q: Place)
    requires Sound(t) && WellFormed(cmds, |t.outer|)
    ensures var last := LastAt(cmds, t, q);
            HandlerAt(SetUp(cmds, t).rows, q) == if last.Some? then last else HandlerAt(t.rows, q)
    decreases |cmds|
  {
    hide Sound, Do, PlaceOf, Accepted, HandlerAt;
    if cmds != [] {
      DoSound(cmds[0], t);
      DoHandlers(cmds[0], t, q);
      DoDepth(cmds[0], t);
      SetUpHandlers(cmds[1..], Do(cmds[0], t), q);
    }
  }

  lemma {:induction false} SetUpFirst(cmds: seq<Command>, t: Table, p: Pattern, i: nat)
    requires Sound(t) && WellFormed(cmds, |t.outer|) && IsFirst(SetUp(cmds, t).rows, p, i)
    ensures forall j: nat | IsFirst(t.rows, p, j) :: SetUp(cmds, t).rows[i].place == t.rows[j].place
    ensures !(exists j: nat :: IsFirst(t.rows, p, j)) ==> FirstPlace(cmds, t, p) == Some(SetUp(cmds, t).rows[i].place)
    decreases |cmds|
  {
    hide Sound, Do, PlaceOf, Accepted, Declares, Answers;
    if cmds == [] {
      forall j: nat | IsFirst(t.rows, p, j) ensures i == j {
        FirstUnique(t.rows, p, i, j);
      }
    } else {
      DoSound(cmds[0], t);
      DoDepth(cmds[0], t);
      var t1 := Do(cmds[0], t);
      SetUpFirst(cmds[1..], t1, p, i);
      if j: nat :| IsFirst(t1.rows, p, j) {
        DoFirst(cmds[0], t, p, j);
      }
      FirstStays(cmds[0], t, p);
    }
  }

  /** A pattern that is answered stays so; one that is not is answered only by its declaration. */
  lemma FirstStays(cmd: Command, t: Table, p: Pattern)
    requires Sound(t) && Accepted(cmd) && (cmd.Close? ==> t.outer != [])
    ensures (exists j: nat :: IsFirst(Do(cmd, t).rows, p, j))
            <==> (exists j: nat :: IsFirst(t.rows, p, j)) || Declares(cmd, t, p)
  {
    hide Proper, HasPlace, Latest, Walk, Answering, PatternOf, PatternAt, Accepted, IsFirst, Sound, Do;
    var g := GroupsOf(t);
    DoPatterns(cmd, t, g);
    PatternsFirst(t.rows, p);
    PatternsFirst(Do(cmd, t).rows, p);
  }

  lemma GroupsOf(t: Table) returns (g: Groups)
    ensures InGroups(t, g) && g.current == PatternAt(t.current)
  {
    hide PatternAt;
    g := Groups(seq(|t.outer|, i requires 0 <= i < |t.outer| => PatternAt(t.outer[i])), PatternAt(t.current));
  }

  lemma PatternsFirst(rows: seq<Row>, p: Pattern)
    ensures p in RowPatterns(rows) <==> exists j: nat :: IsFirst(rows, p, j)
  {
    hide PatternAt, IsFirst;
    FirstExists(rows, p);
    if p in RowPatterns(rows) {
      var i :| 0 <= i < |rows| && rows[i].handler.Some? && PatternAt(rows[i].place) == p;
      assert rows[i] in rows && Answers(rows[i], p);
    }
    if exists r <- rows :: Answers(r, p) {
      var r :| r in rows && Answers(r, p);
      var i :| 0 <= i < |rows| && rows[i] == r;
    }
  }

  // ---------------------------------------------------------------- the rule

  /** After a whole set-up the first row that answers a pattern is at the place where the pattern was
      declared first, and has the handler declared last at that place. */
  lemma AnswerRule(cmds: seq<Command>, p: Pattern, i: nat)
    requires WellFormed(cmds, 0) && IsFirst(SetUp(cmds, START).rows, p, i)
    ensures var r := SetUp(cmds, START).rows[i];
            FirstPlace(cmds, START, p) == Some(r.place) && r.handler == LastAt(cmds, START, r.place)
  {
    hide SetUp, FirstPlace, LastAt, HandlerAt, PatternAt, Sound;
    StartSound();
    NoneAtStart();
    PatternsFirst(START.rows, p);
    SetUpFirst(cmds, START, p, i);
    var r := SetUp(cmds, START).rows[i];
    SetUpHandlers(cmds, START, r.place);
    StartDeclares(cmds);
    SoundProper(SetUp(cmds, START));
    HandlerAtRow(SetUp(cmds, START).rows, i);
    StartHandlers(r.place);
  }

  lemma SoundProper(t: Table)
    requires Sound(t)
    ensures Proper(t.rows)
  {
  }

  lemma StartHandlers(q: Place)
    ensures HandlerAt(START.rows, q) == None
  {
    assert START.rows[1..] == [];
    assert HandlerAt([], q) == None;
  }

  lemma {:induction false} FirstRowAt(reader: Reader, rows: seq<Row>, path: string) returns (i: nat)
    requires FirstRow(reader, rows, path).Some?
    ensures i < |rows| && IsFirst(rows, PatternAt(rows[i].place), i)
    ensures var hit := FirstRow(reader, rows, path).value;
            rows[i].handler == Some(hit.0) && Matches(reader, PatternAt(rows[i].place), path) == Some(hit.1)
    ensures forall j | 0 <= j < i && rows[j].handler.Some? :: Matches(reader, PatternAt(rows[j].place), path).None?
    decreases |rows|
  {
    hide Matches, PatternAt;
    if rows[0].handler.Some? && Matches(reader, PatternAt(rows[0].place), path).Some? {
      i := 0;
    } else {
      var k := FirstRowAt(reader, rows[1..], path);
      i := k + 1;
      assert rows[i] == rows[1..][k];
      forall j | 0 <= j < i ensures rows[j].handler.Some? ==> Matches(reader, PatternAt(rows[j].place), path).None? {
        if j > 0 {
          assert rows[j] == rows[1..][j - 1];
        }
      }
    }
  }

  /** A lookup is answered, for a declared pattern that matches, by the handler declared last at the
      place where that pattern was declared first. */
  lemma LookupRule(reader: Reader, cmds: seq<Command>, path: string) returns (p: Pattern)
    requires WellFormed(cmds, 0) && FirstRow(reader, SetUp(cmds, START).rows, path).Some?
    ensures var hit := FirstRow(reader, SetUp(cmds, START).rows, path).value;
            && Matches(reader, p, path) == Some(hit.1) && p in Declared(cmds, Groups([], []))
            && FirstPlace(cmds, START, p).Some? && LastAt(cmds, START, FirstPlace(cmds, START, p).value) == Some(hit.0)
  {
    hide SetUp, FirstPlace, LastAt, Matches, PatternAt, FirstRow, Sound, Declared, RowPatterns, IsFirst;
    var rows := SetUp(cmds, START).rows;
    var i := FirstRowAt(reader, rows, path);
    p := PatternAt(rows[i].place);
    AnswerRule(cmds, p, i);
    StartDeclares(cmds);
    PatternsFirst(rows, p);
  }

  // ---------------------------------------------------------------- patterns without parameters

  predicate AllStatic(p: Pattern) { forall i | 0 <= i < |p| :: p[i].Static? }

  /** The one place of a pattern without parameters. */
  function PlainPlace(p: Pattern): Place { seq(|p|, i requires 0 <= i < |p| => Branch(p[i], 0)) }

  lemma PlainOnly(place: Place, n: nat)
    requires PlaceWithin(place, n) && AllStatic(PatternAt(place))
    ensures place == PlainPlace(PatternAt(place))
  {
    forall i | 0 <= i < |place| ensures place[i] == Branch(PatternAt(place)[i], 0) {
      assert PatternAt(place)[i] == place[i].seg;
    }
  }

  lemma PlainPattern(p: Pattern)
    ensures PatternAt(PlainPlace(p)) == p
  {
  }

  /** The handler a pattern is declared with last. */
  function LastDeclared(cmds: seq<Command>, t: Table, p: Pattern): Option<nat>
    requires WellFormed(cmds, |t.outer|)
    decreases |cmds|
  {
    if cmds == [] then None
    else
      DoDepth(cmds[0], t);
      var later := LastDeclared(cmds[1..], Do(cmds[0], t), p);
      if later.Some? then later else if Declares(cmds[0], t, p) then Some(cmds[0].handler) else None
  }

  /** Without parameters every declaration leads to the same place. */
  lemma PlaceOfStatic(cmd: Command, t: Table, p: Pattern)
    requires Sound(t) && Accepted(cmd) && cmd.Declare? && AllStatic(p)
    ensures Declares(cmd, t, p) <==> PlaceOf(cmd, t) == PlainPlace(p)
  {
    hide Latest, Walk, Grows, PatternOf, PatternAt, Accepted, PlaceWithin, PlainPlace, HasPlace;
    WalkSound(t.rows, t.current, PatternOf(cmd));
    var (rows, place) := Walk(t.rows, t.current, PatternOf(cmd));
    var k := HasPlaceAt(rows, place);
    assert PlaceWithin(rows[k].place, |rows|);
    PlainPattern(p);
    if PatternAt(place) == p {
      PlainOnly(place, |rows|);
    }
  }

  lemma {:induction false} LastAtStatic(cmds: seq<Command>, t: Table, p: Pattern)
    requires Sound(t) && WellFormed(cmds, |t.outer|) && AllStatic(p)
    ensures LastAt(cmds, t, PlainPlace(p)) == LastDeclared(cmds, t, p)
    ensures FirstPlace(cmds, t, p).Some? ==> FirstPlace(cmds, t, p).value == PlainPlace(p)
    decreases |cmds|
  {
    hide Sound, Do, PlaceOf, Accepted, Declares, PlainPlace, AllStatic;
    if cmds != [] {
      DoSound(cmds[0], t);
      DoDepth(cmds[0], t);
      if cmds[0].Declare? {
        PlaceOfStatic(cmds[0], t, p);
      } else {
        DeclaresOnly(cmds[0], t, p);
      }
      LastAtStatic(cmds[1..], Do(cmds[0], t), p);
    }
  }

  lemma DeclaresOnly(cmd: Command, t: Table, p: Pattern)
    requires Accepted(cmd) && !cmd.Declare?
    ensures !Declares(cmd, t, p)
  {
  }

  /** A pattern without parameters is answered by the handler declared last for it. */
  lemma StaticAnswer(cmds: seq<Command>, p: Pattern, i: nat)
    requires WellFormed(cmds, 0) && AllStatic(p) && IsFirst(SetUp(cmds, START).rows, p, i)
    ensures SetUp(cmds, START).rows[i].handler == LastDeclared(cmds, START, p)
  {
    hide SetUp, FirstPlace, LastAt, LastDeclared, PatternAt, Sound, AllStatic, PlainPlace, IsFirst;
    StartSound();
    AnswerRule(cmds, p, i);
    LastAtStatic(cmds, START, p);
  }

  // ---------------------------------------------------------------- the same route declared twice

  lemma {:induction false} WalkExtends(rows: seq<Row>, at: Place, segs: Pattern)
    ensures at <= Walk(rows, at, segs).1
    decreases |segs|
  {
    hide Behind;
    if segs != [] {
      var (rows1, at1) := Reach(rows, at, segs[0]);
      WalkExtends(rows1, at1, segs[1..]);
      PrefixTrans(at, at1, Walk(rows1, at1, segs[1..]).1);
    }
  }

  lemma {:induction false} BehindGrows(rows: seq<Row>, at: Place, row: Row)
    ensures |Behind(rows, at, row)| >= |rows|
    decreases |rows|
  {
    if rows != [] {
      BehindGrows(rows[..|rows| - 1], at, row);
    }
  }

  /** A walk over a parameter ends at a place of its own. */
  lemma {:induction false} WalkFresh(rows: seq<Row>, at: Place, segs: Pattern, n: nat)
    requires n <= |rows| && !AllStatic(segs)
    ensures !PlaceWithin(Walk(rows, at, segs).1, n)
    decreases |segs|
  {
    hide Behind;
    var (rows1, at1) := Reach(rows, at, segs[0]);
    var place := Walk(rows1, at1, segs[1..]).1;
    if segs[0].Param? {
      WalkExtends(rows1, at1, segs[1..]);
      assert place[|at|] == at1[|at|] && at1[|at|].copy == |rows|;
    } else {
      BehindGrows(rows, at, Row(at1, None));
      WalkFresh(rows1, at1, segs[1..], n);
    }
  }

  /** Of one route declared twice the second handler answers if and only if it has no parameter. */
  lemma DeclaredTwice(route: string, first: nat, second: nat)
    requires Accepted(Declare(route, first))
    ensures var cmds := [Declare(route, first), Declare(route, second)];
            var p := PatternOf(cmds[0]);
            && WellFormed(cmds, 0) && FirstPlace(cmds, START, p).Some?
            && LastAt(cmds, START, FirstPlace(cmds, START, p).value) == Some(if AllStatic(p) then second else first)
  {
    hide Walk, Latest, AllStatic, PatternAt, Segments, WildcardLast, Proper, PlaceWithin, HasPlace;
    var cmds := [Declare(route, first), Declare(route, second)];
    var p := PatternOf(cmds[0]);
    var t := Do(cmds[0], START);
    var place, again := PlaceOf(cmds[0], START), PlaceOf(cmds[1], t);
    StartSound();
    StartPattern(p);
    DoSound(cmds[0], START);
    Declaring(cmds[0], START);
    if AllStatic(p) {
      PlaceOfStatic(cmds[0], START, p);
      PlaceOfStatic(cmds[1], t, p);
    } else {
      WalkFresh(t.rows, t.current, p, |t.rows|);
    }
    assert cmds[1..] == [cmds[1]] && [cmds[1]][1..] == [];
    DoDepth(cmds[0], START);
    LastOfOne(cmds[1], t, place);
  }

  lemma StartPattern(p: Pattern)
    ensures PatternAt(START.current) + p == p
  {
  }

  /** The place declared is in the table, among parameters numbered below its size. */
  lemma Declaring(cmd: Command, t: Table)
    requires Sound(t) && Accepted(cmd) && cmd.Declare?
    ensures PlaceWithin(PlaceOf(cmd, t), |Do(cmd, t).rows|) && Do(cmd, t).current == t.current
  {
    hide Latest, Walk, Grows, PatternOf, PatternAt, Accepted, HasPlace, PlaceWithin;
    WalkSound(t.rows, t.current, PatternOf(cmd));
    var (rows, place) := Walk(t.rows, t.current, PatternOf(cmd));
    var k := HasPlaceAt(rows, place);
    assert PlaceWithin(rows[k].place, |rows|);
  }

  lemma LastOfOne(cmd: Command, t: Table, place: Place)
    requires Accepted(cmd) && cmd.Declare?
    ensures WellFormed([cmd], |t.outer|)
    ensures LastAt([cmd], t, place) == if PlaceOf(cmd, t) == place then Some(cmd.handler) else None
  {
    hide Walk;
    assert [cmd][1..] == [];
    DoDepth(cmd, t);
    assert LastAt([], Do(cmd, t), place) == None;
  }
}
