/** The route trie: mutating insertion with a cursor for nested groups, and the backtracking matcher. */
module RouteTries {
  import opened Helpers
  import opened RouteSpec
  import opened RouteTables
  import opened RouteNodes
  import opened RouteOrders
  import RouteAnswers
  import RoutePaths

  class RouteTrie {
    const reader: Reader
    var nodes: seq<Node>
    var insertCursor: nat
    var cursorStack: seq<nat>
    var outParams: seq<Capture>
    ghost var pats: seq<Pattern>     // what each node's routes begin with
    ghost var places: seq<Place>     // and its place in the table

    ghost predicate Valid()
      reads this
    {
      && Shaped(nodes, pats) && Connected(nodes) && |nodes| == |pats| == |places| && Tabled()
      && insertCursor < |nodes| && forall c <- cursorStack :: c < |nodes|
    }

    /** Every node has its row. */
    ghost predicate Tabled()
      reads this`nodes, this`pats, this`places
    {
      && Placed(nodes, places) && |places| == |nodes| == |pats| && |RowsIn(nodes, places)| == |nodes|
      && forall n | 0 <= n < |nodes| :: pats[n] == PatternAt(places[n])
    }

    /** The trie as a table. */
    ghost function Rows(): seq<Row>
      requires Valid()
      reads this
    {
      RowsIn(nodes, places)
    }

    constructor (reader: Reader)
      ensures Valid() && this.reader == reader && nodes == [Node([], None)] && outParams == []
      ensures insertCursor == 0 && cursorStack == [] && InTable(START)
    {
      this.reader := reader;
      nodes, pats, insertCursor, cursorStack, outParams := [Node([], None)], [[]], 0, [], [];
      places := [[]];
      new;
      EmptyTable();
    }

    /** Looks the path up below a node. A hit is the first route that matches, and its captures are
        appended; a miss leaves the captures as they were. */
    method MatchNode(n: nat, path: string) returns (hit: Option<nat>)
      requires Valid() && n < |nodes|
      modifies this`outParams
      ensures Found(hit, FirstMatch(reader, Routes(nodes, pats, n), path), old(outParams), outParams)
      decreases |path|, 1
    {
      hide Routes, Beneath, FirstMatch, Connected;
      if path == "" {
        OwnMatch(nodes, pats, n);
        return if nodes[n].callback.None? then None else Some(n);
      }
      RoutesMatch(nodes, pats, n, path);
      var k := 0;
      while k < |nodes[n].children|
        invariant k <= |nodes[n].children| && outParams == old(outParams)
        invariant FirstMatch(reader, Routes(nodes, pats, n), path)
                == FirstMatch(reader, Beneath(nodes, pats, n, k), path)
      {
        var child := nodes[n].children[k];
        assert child in nodes[n].children && EdgeFits(pats, n, child);
        BeneathMatch(nodes, pats, n, k, path);
        hit := MatchChild(child, path);
        if hit.Some? {
          return;
        }
        k := k + 1;
      }
      NoneBeneath(nodes, pats, n, path);
      return None;
    }

    /** Looks the path up through one child: its segment must fit, and a capture it makes is dropped
        again when the rest of the path leads nowhere. */
    method MatchChild(child: Edge, path: string) returns (hit: Option<nat>)
      requires Valid() && child.child < |nodes| && path != ""
      modifies this`outParams
      ensures Found(hit, FirstMatch(reader, Below(child.seg, Routes(nodes, pats, child.child)), path), old(outParams),
                    outParams)
      decreases |path|, 0
    {
      hide Routes, FirstMatch, Below, Connected, Shaped, Read;
      BelowMatch(reader, child.seg, Routes(nodes, pats, child.child), path);
      var segment, rest := Head(path), Rest(path);
      match child.seg
      case Static(name) =>
        if name == "*" {
          outParams := outParams + [Text(if rest != "" then segment + "/" + rest else segment)];
          hit := MatchNode(child.child, "");
          if hit.None? {
            outParams := outParams[..|outParams| - 1];
          }
        } else if name == segment {
          hit := MatchNode(child.child, rest);
        } else {
          hit := None;
        }
      case Param(kind) =>
        var val := Read(reader, kind, segment);
        if val.None? {
          return None;
        }
        outParams := outParams + [val.value];
        hit := MatchNode(child.child, rest);
        if hit.None? {
          outParams := outParams[..|outParams| - 1];
        }
    }

    lemma RoutesMatch(nodes: seq<Node>, pats: seq<Pattern>, n: nat, path: string)
      requires Shaped(nodes, pats) && n < |nodes| && path != ""
      ensures FirstMatch(reader, Routes(nodes, pats, n), path) == FirstMatch(reader, Beneath(nodes, pats, n, 0), path)
    {
      FirstMatchJoin(reader, Own(nodes[n], n), Beneath(nodes, pats, n, 0), path);
    }

    lemma BeneathMatch(nodes: seq<Node>, pats: seq<Pattern>, n: nat, k: nat, path: string)
      requires Shaped(nodes, pats) && n < |nodes| && k < |nodes[n].children|
      ensures var e := nodes[n].children[k];
              && e.child < |nodes|
              && FirstMatch(reader, Beneath(nodes, pats, n, k), path)
                 == var here := FirstMatch(reader, Below(e.seg, Routes(nodes, pats, e.child)), path);
                    if here.Some? then here else FirstMatch(reader, Beneath(nodes, pats, n, k + 1), path)
    {
      var e := nodes[n].children[k];
      assert e in nodes[n].children;
      FirstMatchJoin(reader, Below(e.seg, Routes(nodes, pats, e.child)), Beneath(nodes, pats, n, k + 1), path);
    }

    lemma NoneBeneath(nodes: seq<Node>, pats: seq<Pattern>, n: nat, path: string)
      requires Shaped(nodes, pats) && n < |nodes|
      ensures FirstMatch(reader, Beneath(nodes, pats, n, |nodes[n].children|), path) == None
    {
    }

    lemma OwnMatch(nodes: seq<Node>, pats: seq<Pattern>, n: nat)
      requires Shaped(nodes, pats) && n < |nodes|
      ensures FirstMatch(reader, Routes(nodes, pats, n), "") == if nodes[n].callback.Some? then Some((n, [])) else None
    {
      BeneathAtEnd(nodes, pats, n, 0);
      FirstMatchJoin(reader, Own(nodes[n], n), Beneath(nodes, pats, n, 0), "");
    }

    lemma {:induction false} BeneathAtEnd(nodes: seq<Node>, pats: seq<Pattern>, n: nat, k: nat)
      requires Shaped(nodes, pats) && n < |nodes| && k <= |nodes[n].children|
      ensures FirstMatch(reader, Beneath(nodes, pats, n, k), "") == None
      decreases |nodes[n].children| - k
    {
      if k < |nodes[n].children| {
        var e := nodes[n].children[k];
        assert e in nodes[n].children;
        NoneBelowAtEnd(reader, e.seg, Routes(nodes, pats, e.child));
        BeneathAtEnd(nodes, pats, n, k + 1);
        FirstMatchJoin(reader, Below(e.seg, Routes(nodes, pats, e.child)), Beneath(nodes, pats, n, k + 1), "");
      }
    }

    ghost function Listed(): seq<Route>
      requires Valid()
      reads this
    {
      Routes(nodes, pats, 0)
    }

    /** The patterns that have a handler. */
    ghost function Registered(): set<Pattern>
      requires Valid()
      reads this
    {
      PatternsOf(nodes, pats)
    }

    /** Adds a child below a node: a new place in the table. */
    method AddChild(cur: nat, seg: Segment) returns (next: nat)
      requires Valid() && cur < |nodes|
      requires seg.Static? ==> !HasPlace(Rows(), places[cur] + [Branch(seg, 0)])
      modifies this`nodes, this`pats, this`places
      ensures Valid() && Kept() && next < |nodes| && pats[next] == old(pats[cur]) + [seg]
      ensures (Rows(), places[next]) == Reach(old(Rows()), old(places[cur]), seg)
      ensures Grown(old(nodes), old(pats), nodes, pats) && Listed() == old(Listed())
    {
      hide Routes, Shaped, Connected, Placed, RowsIn, HasPlace, Behind, PatternAt;
      ghost var copy := if seg.Static? then 0 else |nodes|;
      AddShaped(nodes, pats, cur, seg);
      AddConnected(nodes, cur, seg);
      AddKeepsRoutes(nodes, pats, cur, seg, 0);
      NewRow(nodes, pats, places, cur, seg, copy);
      next := |nodes|;
      pats := WithPattern(pats, cur, seg);
      places := WithPlace(places, places[cur] + [Branch(seg, copy)]);
      nodes := nodes[cur := nodes[cur].(children := nodes[cur].children + [Edge(seg, next)])] + [Node([], None)];
    }

    /** Nodes keep their patterns and places. */
    twostate predicate Kept()
      reads this
    {
      && |old(pats)| <= |pats| && old(pats) == pats[..|old(pats)|]
      && |old(places)| <= |places| && old(places) == places[..|old(places)|]
    }

    /** The static child with this name. */
    method FindStatic(cur: nat, name: string) returns (next: Option<nat>)
      requires Valid() && cur < |nodes|
      ensures next.Some? ==> next.value < |nodes| && pats[next.value] == pats[cur] + [Static(name)]
      ensures next.Some? ==> places[next.value] == places[cur] + [Branch(Static(name), 0)]
      ensures next.Some? <==> HasPlace(Rows(), places[cur] + [Branch(Static(name), 0)])
    {
      hide Routes, Connected, Placed, RowsIn, HasPlace, PatternAt;
      StaticChild(nodes, places, cur, name);
      var k := 0;
      while k < |nodes[cur].children|
        invariant k <= |nodes[cur].children|
        invariant forall j | 0 <= j < k :: nodes[cur].children[j].seg != Static(name)
      {
        var e := nodes[cur].children[k];
        if e.seg == Static(name) {
          assert e in nodes[cur].children && EdgeFits(pats, cur, e);
          return Some(e.child);
        }
        k := k + 1;
      }
      return None;
    }

    /** One segment down: to the static child of that name, else to a new child. */
    method Descend(cur: nat, seg: Segment, last: bool) returns (next: Option<nat>)
      requires Valid() && cur < |nodes|
      modifies this`nodes, this`pats, this`places
      ensures Valid() && Kept() && Grown(old(nodes), old(pats), nodes, pats) && Listed() == old(Listed())
      ensures next.Some? ==>
                && next.value < |nodes| && pats[next.value] == old(pats[cur]) + [seg]
                && (Rows(), places[next.value]) == Reach(old(Rows()), old(places[cur]), seg)
      ensures next.None? ==> seg == WILDCARD && !last
    {
      hide Routes, Shaped, Connected, Placed, RowsIn, HasPlace, Behind, PatternAt, Grown, Tabled;
      GrownStart(nodes, pats);
      next := None;
      if seg.Static? {
        next := FindStatic(cur, seg.name);
      }
      if next.None? {
        if seg == WILDCARD && !last {
          return None;
        }
        var child := AddChild(cur, seg);
        next := Some(child);
      }
    }

    /** Walks a route text down from the cursor: static segments share nodes, every parameter gets
        its own. None when the text is malformed, or puts something behind a new wildcard. */
    method InsertRoute(fullRoute: string) returns (node: Option<nat>)
      requires Valid()
      modifies this`nodes, this`pats, this`places
      ensures Valid() && Kept() && Grown(old(nodes), old(pats), nodes, pats) && Listed() == old(Listed())
      ensures var segs := Segments(StripRoute(fullRoute));
              && (node.Some? ==>
                    && segs.Some? && node.value < |nodes|
                    && pats[node.value] == old(pats[insertCursor]) + segs.value
                    && (Rows(), places[node.value]) == Walk(old(Rows()), old(places[insertCursor]), segs.value))
              && (segs.Some? && WildcardLast(segs.value) ==> node.Some?)
    {
      hide Routes, Shaped, Connected, Grown, Segments, SegmentNamed, WildcardLast, Rest, Head, Placed, RowsIn,
          Reach, Tabled;
      var current: nat := insertCursor;
      GrownStart(nodes, pats);
      var route := StripRoute(fullRoute);
      ghost var all, done: Pattern := Segments(route), [];
      ghost var base, from, rows := pats[insertCursor], places[insertCursor], Rows();
      assert base + [] == base;
      JoinNothing(all);
      while route != ""
        invariant Valid() && Grown(old(nodes), old(pats), nodes, pats) && Listed() == old(Listed())
        invariant Kept() && current < |nodes| && pats[current] == base + done
        invariant all == Joined(done, Segments(route))
        invariant all.Some? ==> Walk(rows, from, all.value) == Walk(Rows(), places[current], Segments(route).value)
        decreases |route|
      {
        var segment := SegmentNamed(Head(route));
        RestShorter(route);
        if segment.None? {
          JoinStuck(done, route);
          return None;
        }
        ghost var above, ns, ps := done, nodes, pats;
        JoinStep(done, route);
        if all.Some? {
          WalkStep(Rows(), places[current], route);
        }
        route := Rest(route);
        done := done + [segment.value];
        var next := Descend(current, segment.value, route == "");
        GrownFurther(old(nodes), old(pats), ns, ps, nodes, pats);
        if next.None? {
          WildcardInside(above, route);
          return None;
        }
        current := next.value;
      }
      JoinEnd(done);
      return Some(current);
    }

    /** Registers a handler for a route below the current group. Its row then has it, and no other row
        changes. */
    method Insert(fullRoute: string, handler: nat) returns (node: Option<nat>)
      requires Valid()
      modifies this`nodes, this`pats, this`places
      ensures Valid() && Kept()
      ensures var segs := Segments(StripRoute(fullRoute));
              && (segs.Some? && WildcardLast(segs.value) ==> node.Some?)
              && (node.Some? ==>
                    && segs.Some? && node.value < |nodes| && nodes[node.value].callback == Some(handler)
                    && pats[node.value] == old(pats[insertCursor]) + segs.value
                    && Registered() == old(Registered()) + {old(pats[insertCursor]) + segs.value}
                    && Elsewhere(Listed(), node.value) == Elsewhere(old(Listed()), node.value)
                    && var r := Walk(old(Rows()), old(places[insertCursor]), segs.value);
                       Rows() == Answering(r.0, r.1, handler))
    {
      hide Routes, Shaped, Connected, Elsewhere, Segments, Placed, RowsIn, Walk, Answering, PatternAt, WithHandler;
      node := InsertRoute(fullRoute);
      if node.Some? {
        GrownRegistered(old(nodes), old(pats), nodes, pats);
        HandlerShaped(nodes, pats, node.value, handler);
        HandlerKeepsOthers(nodes, pats, node.value, handler, 0);
        HandlerRegistered(nodes, pats, node.value, handler);
        HandlerRows(nodes, places, node.value, handler);
        HandlerSet(nodes, node.value, handler);
        nodes := nodes[node.value := nodes[node.value].(callback := Some(handler))];
      }
    }

    /** Opens a group: routes inserted from now on hang below its prefix. */
    method PushGroup(prefix: string) returns (ok: bool)
      requires Valid()
      modifies this`nodes, this`pats, this`places, this`insertCursor, this`cursorStack
      ensures Valid() && Kept() && Listed() == old(Listed()) && Registered() == old(Registered())
      ensures var segs := Segments(StripRoute(prefix));
              && (segs.Some? && WildcardLast(segs.value) ==> ok)
              && (ok ==>
                    && segs.Some? && cursorStack == old(cursorStack) + [old(insertCursor)]
                    && pats[insertCursor] == old(pats[insertCursor]) + segs.value
                    && (Rows(), places[insertCursor]) == Walk(old(Rows()), old(places[insertCursor]), segs.value))
    {
      hide Routes, Shaped, Connected, Segments, Placed, RowsIn, Walk, Tabled;
      var node := InsertRoute(prefix);
      GrownRegistered(old(nodes), old(pats), nodes, pats);
      if node.Some? {
        cursorStack := cursorStack + [insertCursor];
        insertCursor := node.value;
      }
      return node.Some?;
    }

    /** Closes the group opened last. */
    method PopGroup() returns (ok: bool)
      requires Valid()
      modifies this`insertCursor, this`cursorStack
      ensures Valid() && ok == (old(cursorStack) != [])
      ensures ok ==> old(cursorStack) == cursorStack + [insertCursor]
    {
      if cursorStack == [] {
        return false;
      }
      hide Shaped, Connected;
      ghost var stack := cursorStack;
      assert stack[|stack| - 1] in stack;
      insertCursor := cursorStack[|cursorStack| - 1];
      cursorStack := cursorStack[..|cursorStack| - 1];
      forall c <- cursorStack ensures c in stack {
      }
      return true;
    }

    /** Finds the handler of a request path. There is one exactly when a registered pattern matches;
        it is the handler of the first row of the table that does, with that row's captures. */
    method Match(requestPath: string) returns (hit: Option<nat>)
      requires Valid() && outParams == []
      modifies this`outParams
      ensures hit.Some? <==> exists p <- Registered() :: Matches(reader, p, StripRoute(requestPath)).Some?
      ensures hit.Some? ==> hit.value < |nodes| && nodes[hit.value].callback.Some?
                            && Matches(reader, pats[hit.value], StripRoute(requestPath)) == Some(outParams)
      ensures hit.Some? ==> RoutePaths.Takes(reader, pats[hit.value], StripRoute(requestPath), outParams)
      ensures hit.None? ==> outParams == []
      ensures Found(hit, FirstMatch(reader, Listed(), StripRoute(requestPath)), [], outParams)
      ensures FirstRow(reader, Rows(), StripRoute(requestPath))
           == if hit.Some? then Some((nodes[hit.value].callback.value, outParams)) else None
    {
      hide Routes, Shaped, Connected, Matches, FirstMatch, FirstRow, Placed, RowsIn, PatternAt, RoutePaths.Takes;
      var path := StripRoute(requestPath);
      hit := MatchNode(0, path);
      FirstMatchIff(reader, Listed(), path);
      ListedRegistered(path);
      TableMatch(reader, nodes, pats, places, path);
      if hit.Some? {
        FirstMatchIs(reader, Listed(), path);
        ghost var r :| r in Listed() && Matches(reader, r.pattern, path).Some?
            && FirstMatch(reader, Listed(), path) == Some((r.node, Matches(reader, r.pattern, path).value));
        assert [] + Matches(reader, r.pattern, path).value == Matches(reader, r.pattern, path).value;
        RoutesAreHandlers(nodes, pats, r);
        RoutePaths.MatchesIff(reader, r.pattern, path, outParams);
      }
    }

    /** The trie and its cursors are where the table says. */
    ghost predicate InTable(t: Table)
      requires Valid()
      reads this
    {
      && Rows() == t.rows && places[insertCursor] == t.current && |cursorStack| == |t.outer|
      && forall i | 0 <= i < |cursorStack| :: cursorStack[i] < |places| && places[cursorStack[i]] == t.outer[i]
    }

    /** A router's whole set-up: the trie is then the table the commands make, and exactly the patterns
        declared are registered, each below the groups that were open when it was declared. */
    method Register(cmds: seq<Command>)
      requires Valid() && insertCursor == 0 && cursorStack == [] && InTable(START)
      requires WellFormed(cmds, 0)
      modifies this`nodes, this`pats, this`places, this`insertCursor, this`cursorStack
      ensures Valid() && InTable(SetUp(cmds, START))
      ensures Registered() == Declared(cmds, Groups([], []))
    {
      hide Routes, Shaped, Connected, Placed, RowsIn, InTable, Do, Tabled;
      ghost var t := START;
      var i := 0;
      while i < |cmds|
        invariant i <= |cmds| && Valid() && InTable(t) && WellFormed(cmds[i..], |t.outer|)
        invariant SetUp(cmds[i..], t) == SetUp(cmds, START)
      {
        var cmd := cmds[i];
        assert cmds[i..][0] == cmd && cmds[i..][1..] == cmds[i + 1..];
        DoDepth(cmd, t);
        Execute(cmd, t);
        t := Do(cmd, t);
        i := i + 1;
      }
      assert cmds[i..] == [];
      InTableRows(t);
      RegisteredRows();
      RouteAnswers.StartDeclares(cmds);
    }

    lemma InTableRows(t: Table)
      requires Valid() && InTable(t)
      ensures Rows() == t.rows
    {
    }

    /** One command takes the trie from one table to the next. */
    method Execute(cmd: Command, ghost t: Table)
      requires Valid() && InTable(t) && Accepted(cmd) && (cmd.Close? ==> t.outer != [])
      modifies this`nodes, this`pats, this`places, this`insertCursor, this`cursorStack
      ensures Valid() && InTable(Do(cmd, t))
    {
      hide Valid, InTable, Do;
      match cmd
      case Declare(_, _) => ExecuteDeclare(cmd, t);
      case Open(_) => ExecuteOpen(cmd, t);
      case Close => ExecuteClose(t);
    }

    method ExecuteDeclare(cmd: Command, ghost t: Table)
      requires Valid() && InTable(t) && cmd.Declare? && Accepted(cmd)
      modifies this`nodes, this`pats, this`places
      ensures Valid() && InTable(Do(cmd, t))
    {
      hide Routes, Shaped, Connected, Segments, WildcardLast, Placed, RowsIn, Walk, Tabled, Answering;
      var node := Insert(cmd.route, cmd.handler);
    }

    method ExecuteOpen(cmd: Command, ghost t: Table)
      requires Valid() && InTable(t) && cmd.Open? && Accepted(cmd)
      modifies this`nodes, this`pats, this`places, this`insertCursor, this`cursorStack
      ensures Valid() && InTable(Do(cmd, t))
    {
      hide Routes, Shaped, Connected, Segments, WildcardLast, Placed, RowsIn, Walk, Tabled;
      var ok := PushGroup(cmd.prefix);
    }

    method ExecuteClose(ghost t: Table)
      requires Valid() && InTable(t) && t.outer != []
      modifies this`insertCursor, this`cursorStack
      ensures Valid() && InTable(Do(Close, t))
    {
      hide Routes, Shaped, Connected, Placed, RowsIn, Tabled;
      ghost var stack := cursorStack;
      var ok := PopGroup();
      assert insertCursor == stack[|stack| - 1] && cursorStack == stack[..|stack| - 1];
    }

    /** Exactly the patterns of the rows with handlers are registered. */
    lemma RegisteredRows()
      requires Valid()
      ensures Registered() == RowPatterns(Rows())
    {
      hide Shaped, Connected, PatternAt;
      OrderWithin(nodes, places, 0);
      var o := Order(nodes, 0);
      forall p | p in Registered() ensures p in RowPatterns(Rows()) {
        var c :| 0 <= c < |nodes| && nodes[c].callback.Some? && pats[c] == p;
        OrderComplete(nodes, places, 0, c);
        var i :| 0 <= i < |o| && o[i] == c;
        assert Rows()[i] == RowAt(nodes, places, o, i);
      }
      forall p | p in RowPatterns(Rows()) ensures p in Registered() {
        var i :| 0 <= i < |Rows()| && Rows()[i].handler.Some? && PatternAt(Rows()[i].place) == p;
        assert Rows()[i] == RowAt(nodes, places, o, i);
      }
    }

    lemma ListedRegistered(path: string)
      requires Valid()
      ensures (exists r <- Listed() :: Matches(reader, r.pattern, path).Some?)
              <==> exists p <- Registered() :: Matches(reader, p, path).Some?
    {
      hide Routes, Shaped, Connected, Matches;
      if exists r <- Listed() :: Matches(reader, r.pattern, path).Some? {
        var r :| r in Listed() && Matches(reader, r.pattern, path).Some?;
        RoutesAreHandlers(nodes, pats, r);
        assert r.pattern in Registered();
      }
      if exists p <- Registered() :: Matches(reader, p, path).Some? {
        var p :| p in Registered() && Matches(reader, p, path).Some?;
        var c :| 0 <= c < |nodes| && nodes[c].callback.Some? && pats[c] == p;
        RoutesAreHandlers(nodes, pats, Route(p, c));
        assert Matches(reader, Route(p, c).pattern, path).Some?;
      }
    }
  }

  /** A lookup in a router set up by `cmds`: it is answered if and only if some declared pattern matches,
      with the captures of such a pattern, and by the handler that was declared last at the place where
      that pattern was declared first. */
  method Lookup(reader: Reader, cmds: seq<Command>, requestPath: string)
    returns (handler: Option<nat>, params: seq<Capture>)
    requires WellFormed(cmds, 0)
    ensures handler.Some? <==>
              exists p <- Declared(cmds, Groups([], [])) :: Matches(reader, p, StripRoute(requestPath)).Some?
    ensures handler.Some? ==>
              exists p <- Declared(cmds, Groups([], [])) ::
                && Matches(reader, p, StripRoute(requestPath)) == Some(params)
                && RoutePaths.Takes(reader, p, StripRoute(requestPath), params)
                && RouteAnswers.FirstPlace(cmds, START, p).Some?
                && handler == RouteAnswers.LastAt(cmds, START, RouteAnswers.FirstPlace(cmds, START, p).value)
    ensures handler.None? ==> params == []
  {
    hide Matches, FirstRow, FirstMatch, Declared, SetUp, RouteAnswers.FirstPlace, RouteAnswers.LastAt,
        RouteTrie.InTable,
      Shaped, Connected, Placed, RowsIn;
    var trie := new RouteTrie(reader);
    trie.Register(cmds);
    trie.InTableRows(SetUp(cmds, START));
    var hit := trie.Match(requestPath);
    params := trie.outParams;
    if hit.None? {
      return None, params;
    }
    handler := trie.nodes[hit.value].callback;
    var p := RouteAnswers.LookupRule(reader, cmds, StripRoute(requestPath));
    RoutePaths.MatchesIff(reader, p, StripRoute(requestPath), params);
  }

  lemma {:induction false} FirstMatchIs(reader: Reader, routes: seq<Route>, path: string)
    requires FirstMatch(reader, routes, path).Some?
    ensures exists r <- routes :: Matches(reader, r.pattern, path).Some?
              && FirstMatch(reader, routes, path) == Some((r.node, Matches(reader, r.pattern, path).value))
    decreases |routes|
  {
    if Matches(reader, routes[0].pattern, path).Some? {
      assert routes[0] in routes;
    } else {
      FirstMatchIs(reader, routes[1..], path);
      var r :| r in routes[1..] && Matches(reader, r.pattern, path).Some?
          && FirstMatch(reader, routes[1..], path) == Some((r.node, Matches(reader, r.pattern, path).value));
      assert r in routes;
    }
  }

  ghost function PatternsOf(nodes: seq<Node>, pats: seq<Pattern>): set<Pattern>
    requires |nodes| == |pats|
  {
    set c | 0 <= c < |nodes| && nodes[c].callback.Some? :: pats[c]
  }

  lemma GrownRegistered(nodes0: seq<Node>, pats0: seq<Pattern>, nodes: seq<Node>, pats: seq<Pattern>)
    requires Grown(nodes0, pats0, nodes, pats)
    ensures PatternsOf(nodes, pats) == PatternsOf(nodes0, pats0)
    ensures |pats0| <= |pats| && pats0 == pats[..|pats0|]
  {
    forall p | p in PatternsOf(nodes0, pats0) ensures p in PatternsOf(nodes, pats) {
      var c :| 0 <= c < |nodes0| && nodes0[c].callback.Some? && pats0[c] == p;
      assert nodes[c].callback.Some? && pats[c] == p;
    }
    forall p | p in PatternsOf(nodes, pats) ensures p in PatternsOf(nodes0, pats0) {
      var c :| 0 <= c < |nodes| && nodes[c].callback.Some? && pats[c] == p;
      assert nodes0[c].callback.Some? && pats0[c] == p;
    }
  }

  lemma HandlerShaped(nodes: seq<Node>, pats: seq<Pattern>, m: nat, handler: nat)
    requires Shaped(nodes, pats) && Connected(nodes) && m < |nodes|
    ensures Shaped(WithHandler(nodes, m, handler), pats) && Connected(WithHandler(nodes, m, handler))
  {
    var nodes' := WithHandler(nodes, m, handler);
    forall c | 0 < c < |nodes'| ensures HasParent(nodes', c) {
      assert HasParent(nodes, c);
      var n: nat, k: nat :| n < c && n < |nodes| && k < |nodes[n].children| && nodes[n].children[k].child == c;
      assert nodes'[n].children[k].child == c;
    }
  }

  lemma HandlerRegistered(nodes: seq<Node>, pats: seq<Pattern>, m: nat, handler: nat)
    requires |nodes| == |pats| && m < |nodes|
    ensures PatternsOf(WithHandler(nodes, m, handler), pats) == PatternsOf(nodes, pats) + {pats[m]}
  {
    var nodes' := WithHandler(nodes, m, handler);
    assert nodes'[m].callback.Some?;
    forall p | p in PatternsOf(nodes, pats) ensures p in PatternsOf(nodes', pats) {
      var c :| 0 <= c < |nodes| && nodes[c].callback.Some? && pats[c] == p;
      assert nodes'[c].callback.Some?;
    }
    forall p | p in PatternsOf(nodes', pats) ensures p in PatternsOf(nodes, pats) + {pats[m]} {
      var c :| 0 <= c < |nodes'| && nodes'[c].callback.Some? && pats[c] == p;
      assert c != m ==> nodes[c].callback.Some?;
    }
  }

  /** The segments already walked in front of those still to come. */
  function Joined(done: Pattern, more: Option<Pattern>): Option<Pattern> {
    match more
    case None => None
    case Some(p) => Some(done + p)
  }

  lemma JoinNothing(p: Option<Pattern>)
    ensures Joined([], p) == p
  {
    if p.Some? {
      assert [] + p.value == p.value;
    }
  }

  lemma JoinEnd(done: Pattern)
    ensures Joined(done, Segments("")) == Some(done)
  {
    assert done + [] == done;
  }

  lemma {:induction false} JoinStep(done: Pattern, route: string)
    requires route != "" && SegmentNamed(Head(route)).Some?
    ensures Joined(done, Segments(route)) == Joined(done + [SegmentNamed(Head(route)).value], Segments(Rest(route)))
  {
    var seg, more := SegmentNamed(Head(route)).value, Segments(Rest(route));
    if more.Some? {
      assert done + ([seg] + more.value) == done + [seg] + more.value;
    }
  }

  lemma RestShorter(route: string)
    requires route != ""
    ensures |Rest(route)| < |route|
  {
  }

  lemma JoinStuck(done: Pattern, route: string)
    requires route != "" && SegmentNamed(Head(route)).None?
    ensures Joined(done, Segments(route)) == None
  {
  }

  lemma WildcardInside(done: Pattern, rest: string)
    requires rest != ""
    ensures var all := Joined(done + [WILDCARD], Segments(rest)); all.Some? ==> !WildcardLast(all.value)
  {
    var all := Joined(done + [WILDCARD], Segments(rest));
    if all.Some? {
      assert Segments(rest).value != [];
      assert all.value[|done|] == WILDCARD;
    }
  }

  /** A trie with nothing but its root. */
  lemma EmptyTable()
    ensures var nodes, places := [Node([], None)], [[]];
            Placed(nodes, places) && RowsIn(nodes, places) == START.rows && PatternAt(places[0]) == []
  {
    var nodes, places: seq<Place> := [Node([], None)], [[]];
    assert OrderBeneath(nodes, 0, 0) == [];
    assert Order(nodes, 0) == [0];
  }

  lemma HandlerSet(nodes: seq<Node>, m: nat, handler: nat)
    requires m < |nodes|
    ensures WithHandler(nodes, m, handler) == nodes[m := nodes[m].(callback := Some(handler))]
  {
  }

  /** The row a new child gets. */
  lemma NewRow(nodes: seq<Node>, pats: seq<Pattern>, places: seq<Place>, cur: nat, seg: Segment, copy: nat)
    requires Placed(nodes, places) && Connected(nodes) && |places| == |nodes| == |pats| && cur < |nodes|
    requires |RowsIn(nodes, places)| == |nodes| && copy == (if seg.Static? then 0 else |nodes|)
    requires seg.Static? ==> !HasPlace(RowsIn(nodes, places), places[cur] + [Branch(seg, 0)])
    requires forall n | 0 <= n < |nodes| :: pats[n] == PatternAt(places[n])
    ensures var place := places[cur] + [Branch(seg, copy)];
            var nodes', pats', places' := WithChild(nodes, cur, seg), WithPattern(pats, cur, seg),
                WithPlace(places, place);
            && Placed(nodes', places') && RowsIn(nodes', places')
                == Behind(RowsIn(nodes, places), places[cur], Row(place, None))
            && |RowsIn(nodes', places')| == |nodes'| == |places'| == |pats'|
            && (RowsIn(nodes', places'), place) == Reach(RowsIn(nodes, places), places[cur], seg)
            && forall n | 0 <= n < |nodes'| :: pats'[n] == PatternAt(places'[n])
  {
    hide Placed, RowsIn, Behind, Connected, PatternAt;
    NewPlaceFor(nodes, places, cur, seg, copy);
    AddRows(nodes, places, cur, seg, copy);
    HasRow(nodes, places, cur);
    BehindSize(RowsIn(nodes, places), places[cur], Row(places[cur] + [Branch(seg, copy)], None));
    PatternNext(places[cur], seg, copy);
  }

  lemma NewPlaceFor(nodes: seq<Node>, places: seq<Place>, cur: nat, seg: Segment, copy: nat)
    requires Placed(nodes, places) && Connected(nodes) && cur < |nodes|
    requires copy == (if seg.Static? then 0 else |nodes|)
    requires seg.Static? ==> !HasPlace(RowsIn(nodes, places), places[cur] + [Branch(seg, 0)])
    ensures |places| == |nodes| && NewPlace(nodes, places, cur, seg, copy)
  {
    hide RowsIn, Connected, Placed, HasPlace;
    PlacedSize(nodes, places);
    var place := places[cur] + [Branch(seg, copy)];
    if place in places {
      var m :| 0 <= m < |places| && places[m] == place;
      HasRow(nodes, places, m);
      CopyBelow(nodes, places, m);
    }
  }

  lemma CopyBelow(nodes: seq<Node>, places: seq<Place>, m: nat)
    requires Placed(nodes, places) && m < |places| && places[m] != []
    ensures places[m][|places[m]| - 1].copy < |nodes|
  {
  }

  lemma PatternNext(place: Place, seg: Segment, copy: nat)
    ensures PatternAt(place + [Branch(seg, copy)]) == PatternAt(place) + [seg]
  {
  }

  lemma WalkStep(rows: seq<Row>, at: Place, route: string)
    requires route != "" && SegmentNamed(Head(route)).Some? && Segments(route).Some?
    ensures Segments(Rest(route)).Some?
    ensures var r := Reach(rows, at, SegmentNamed(Head(route)).value);
            Walk(rows, at, Segments(route).value) == Walk(r.0, r.1, Segments(Rest(route)).value)
  {
    var seg, more := SegmentNamed(Head(route)).value, Segments(Rest(route)).value;
    assert ([seg] + more)[1..] == more;
  }
}
