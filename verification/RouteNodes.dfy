/** The nodes of the route trie, in the order they were made, with their children in the order they
    were added, and the routes they stand for. */
module RouteNodes {
  import opened Helpers
  import opened RouteSpec

  datatype Edge = Edge(seg: Segment, child: nat)

  datatype Node = Node(children: seq<Edge>, callback: Option<nat>)

  /** Children come after their parents, and every edge spells the child's pattern. */
  predicate Shaped(nodes: seq<Node>, pats: seq<Pattern>) {
    && |nodes| == |pats| > 0 && pats[0] == []
    && forall n | 0 <= n < |nodes| :: forall e <- nodes[n].children :: EdgeFits(pats, n, e)
  }

  predicate EdgeFits(pats: seq<Pattern>, n: nat, e: Edge) {
    n < |pats| && n < e.child < |pats| && pats[e.child] == pats[n] + [e.seg]
  }

  /** Every node but the first is some node's child. */
  ghost predicate Connected(nodes: seq<Node>) {
    forall c | 0 < c < |nodes| :: HasParent(nodes, c)
  }

  ghost predicate HasParent(nodes: seq<Node>, c: nat) {
    exists n: nat, k: nat | n < c && n < |nodes| && k < |nodes[n].children| :: nodes[n].children[k].child == c
  }

  /** The routes at and below a node, in the order in which matching tries them. */
  ghost function Routes(nodes: seq<Node>, pats: seq<Pattern>, n: nat): seq<Route>
    requires Shaped(nodes, pats) && n < |nodes|
    decreases |nodes| - n, 1, 0
  {
    Own(nodes[n], n) + Beneath(nodes, pats, n, 0)
  }

  function Own(node: Node, n: nat): seq<Route> {
    if node.callback.Some? then [Route([], n)] else []
  }

  /** The routes through the children from the k-th on. */
  ghost function Beneath(nodes: seq<Node>, pats: seq<Pattern>, n: nat, k: nat): seq<Route>
    requires Shaped(nodes, pats) && n < |nodes| && k <= |nodes[n].children|
    decreases |nodes| - n, 0, |nodes[n].children| - k
  {
    if k == |nodes[n].children| then []
    else
      var e := nodes[n].children[k];
      assert e in nodes[n].children;
      Below(e.seg, Routes(nodes, pats, e.child)) + Beneath(nodes, pats, n, k + 1)
  }

  /** What a lookup does to its result and to the captures. */
  ghost predicate Found(hit: Option<nat>, first: Option<(nat, seq<Capture>)>, before: seq<Capture>,
                        after: seq<Capture>) {
    match first
    case None => hit == None && after == before
    case Some(m) => hit == Some(m.0) && after == before + m.1
  }

  // ---------------------------------------------------------------- adding a node

  function WithChild(nodes: seq<Node>, cur: nat, seg: Segment): seq<Node>
    requires cur < |nodes|
  {
    nodes[cur := nodes[cur].(children := nodes[cur].children + [Edge(seg, |nodes|)])] + [Node([], None)]
  }

  function WithPattern(pats: seq<Pattern>, cur: nat, seg: Segment): seq<Pattern>
    requires cur < |pats|
  {
    pats + [pats[cur] + [seg]]
  }

  lemma AddShaped(nodes: seq<Node>, pats: seq<Pattern>, cur: nat, seg: Segment)
    requires Shaped(nodes, pats) && cur < |nodes|
    ensures Shaped(WithChild(nodes, cur, seg), WithPattern(pats, cur, seg))
  {
    var nodes', pats' := WithChild(nodes, cur, seg), WithPattern(pats, cur, seg);
    forall n | 0 <= n < |nodes'| ensures forall e <- nodes'[n].children :: EdgeFits(pats', n, e) {
      forall e <- nodes'[n].children ensures EdgeFits(pats', n, e) {
        assert n < |nodes|;
        if e in nodes[n].children {
          assert EdgeFits(pats, n, e);
        }
      }
    }
  }

  lemma AddConnected(nodes: seq<Node>, cur: nat, seg: Segment)
    requires Connected(nodes) && cur < |nodes|
    ensures Connected(WithChild(nodes, cur, seg))
  {
    var nodes' := WithChild(nodes, cur, seg);
    forall c | 0 < c < |nodes'| ensures HasParent(nodes', c) {
      if c == |nodes| {
        assert nodes'[cur].children[|nodes[cur].children|].child == c;
      } else {
        assert HasParent(nodes, c);
        var n: nat, k: nat :| n < c && n < |nodes| && k < |nodes[n].children| && nodes[n].children[k].child == c;
        assert nodes'[n].children[k].child == c;
      }
    }
  }

  /** A new node has no handler, so no route appears or moves. */
  lemma {:induction false} AddKeepsRoutes(nodes: seq<Node>, pats: seq<Pattern>, cur: nat, seg: Segment, n: nat)
    requires Shaped(nodes, pats) && cur < |nodes| && n < |nodes|
    requires Shaped(WithChild(nodes, cur, seg), WithPattern(pats, cur, seg))
    ensures Routes(WithChild(nodes, cur, seg), WithPattern(pats, cur, seg), n) == Routes(nodes, pats, n)
    decreases |nodes| - n, 1, 0
  {
    AddKeepsBeneath(nodes, pats, cur, seg, n, 0);
  }

  lemma {:induction false} AddKeepsBeneath(nodes: seq<Node>, pats: seq<Pattern>, cur: nat, seg: Segment, n: nat, k: nat)
    requires Shaped(nodes, pats) && cur < |nodes| && n < |nodes| && k <= |nodes[n].children|
    requires Shaped(WithChild(nodes, cur, seg), WithPattern(pats, cur, seg))
    ensures Beneath(WithChild(nodes, cur, seg), WithPattern(pats, cur, seg), n, k) == Beneath(nodes, pats, n, k)
    decreases |nodes| - n, 0, |nodes[n].children| - k
  {
    var nodes', pats' := WithChild(nodes, cur, seg), WithPattern(pats, cur, seg);
    if k < |nodes[n].children| {
      var e := nodes[n].children[k];
      assert e in nodes[n].children && EdgeFits(pats, n, e);
      assert nodes'[n].children[k] == e;
      AddKeepsRoutes(nodes, pats, cur, seg, e.child);
      AddKeepsBeneath(nodes, pats, cur, seg, n, k + 1);
    } else if n == cur {
      NewNodeEmpty(nodes, pats, cur, seg);
    }
  }

  lemma NewNodeEmpty(nodes: seq<Node>, pats: seq<Pattern>, cur: nat, seg: Segment)
    requires Shaped(nodes, pats) && cur < |nodes|
    requires Shaped(WithChild(nodes, cur, seg), WithPattern(pats, cur, seg))
    ensures Beneath(WithChild(nodes, cur, seg), WithPattern(pats, cur, seg), cur, |nodes[cur].children|) == []
  {
    var nodes', pats' := WithChild(nodes, cur, seg), WithPattern(pats, cur, seg);
    var k := |nodes[cur].children|;
    assert nodes'[cur].children[k] == Edge(seg, |nodes|) && |nodes'[cur].children| == k + 1;
    assert Beneath(nodes', pats', cur, k + 1) == [];
    assert Beneath(nodes', pats', |nodes|, 0) == [];
    assert Routes(nodes', pats', |nodes|) == [];
  }

  // ---------------------------------------------------------------- setting a handler

  /** The routes not kept at node m. */
  function Elsewhere(routes: seq<Route>, m: nat): seq<Route> {
    if routes == [] then []
    else (if routes[0].node == m then [] else [routes[0]]) + Elsewhere(routes[1..], m)
  }

  lemma {:induction false} ElsewhereJoin(a: seq<Route>, b: seq<Route>, m: nat)
    ensures Elsewhere(a + b, m) == Elsewhere(a, m) + Elsewhere(b, m)
    decreases |a|
  {
    if a == [] {
      assert a + b == b;
    } else {
      assert (a + b)[1..] == a[1..] + b;
      ElsewhereJoin(a[1..], b, m);
    }
  }

  lemma {:induction false} ElsewhereBelow(seg: Segment, routes: seq<Route>, m: nat)
    ensures Elsewhere(Below(seg, routes), m) == Below(seg, Elsewhere(routes, m))
    decreases |routes|
  {
    if routes != [] {
      assert Below(seg, routes)[1..] == Below(seg, routes[1..]);
      ElsewhereBelow(seg, routes[1..], m);
    }
  }

  function WithHandler(nodes: seq<Node>, m: nat, handler: nat): seq<Node>
    requires m < |nodes|
  {
    nodes[m := nodes[m].(callback := Some(handler))]
  }

  /** Setting a handler leaves every other route where it was among the others. */
  lemma {:induction false} HandlerKeepsOthers(nodes: seq<Node>, pats: seq<Pattern>, m: nat, handler: nat, n: nat)
    requires Shaped(nodes, pats) && m < |nodes| && n < |nodes| && Shaped(WithHandler(nodes, m, handler), pats)
    ensures Elsewhere(Routes(WithHandler(nodes, m, handler), pats, n), m) == Elsewhere(Routes(nodes, pats, n), m)
    decreases |nodes| - n, 1, 0
  {
    var nodes' := WithHandler(nodes, m, handler);
    HandlerKeepsBeneath(nodes, pats, m, handler, n, 0);
    ElsewhereJoin(Own(nodes[n], n), Beneath(nodes, pats, n, 0), m);
    ElsewhereJoin(Own(nodes'[n], n), Beneath(nodes', pats, n, 0), m);
    assert Elsewhere(Own(nodes[n], n), m) == Elsewhere(Own(nodes'[n], n), m);
  }

  lemma {:induction false} HandlerKeepsBeneath(nodes: seq<Node>, pats: seq<Pattern>, m: nat, handler: nat, n: nat,
      k: nat)
    requires Shaped(nodes, pats) && m < |nodes| && n < |nodes| && k <= |nodes[n].children|
            && Shaped(WithHandler(nodes, m, handler), pats)
    ensures |WithHandler(nodes, m, handler)[n].children| == |nodes[n].children|
    ensures Elsewhere(Beneath(WithHandler(nodes, m, handler), pats, n, k), m)
            == Elsewhere(Beneath(nodes, pats, n, k), m)
    decreases |nodes| - n, 0, |nodes[n].children| - k
  {
    var nodes' := WithHandler(nodes, m, handler);
    if k < |nodes[n].children| {
      var e := nodes[n].children[k];
      assert e in nodes[n].children && EdgeFits(pats, n, e);
      var old', new' := Routes(nodes, pats, e.child), Routes(nodes', pats, e.child);
      HandlerKeepsOthers(nodes, pats, m, handler, e.child);
      HandlerKeepsBeneath(nodes, pats, m, handler, n, k + 1);
      ElsewhereJoin(Below(e.seg, old'), Beneath(nodes, pats, n, k + 1), m);
      ElsewhereJoin(Below(e.seg, new'), Beneath(nodes', pats, n, k + 1), m);
      ElsewhereBelow(e.seg, old', m);
      ElsewhereBelow(e.seg, new', m);
    }
  }

  // ---------------------------------------------------------------- routes and nodes with handlers

  /** A route found below a node is kept at a node with a handler and spells the rest of its pattern. */
  lemma {:induction false} RouteIsNode(nodes: seq<Node>, pats: seq<Pattern>, n: nat, r: Route)
    requires Shaped(nodes, pats) && n < |nodes| && r in Routes(nodes, pats, n)
    ensures n <= r.node < |nodes| && nodes[r.node].callback.Some? && pats[r.node] == pats[n] + r.pattern
    decreases |nodes| - n, 1, 0
  {
    if r in Beneath(nodes, pats, n, 0) {
      BeneathIsNode(nodes, pats, n, 0, r);
    }
  }

  lemma {:induction false} BeneathIsNode(nodes: seq<Node>, pats: seq<Pattern>, n: nat, k: nat, r: Route)
    requires Shaped(nodes, pats) && n < |nodes| && k <= |nodes[n].children| && r in Beneath(nodes, pats, n, k)
    ensures n <= r.node < |nodes| && nodes[r.node].callback.Some? && pats[r.node] == pats[n] + r.pattern
    decreases |nodes| - n, 0, |nodes[n].children| - k
  {
    var e := nodes[n].children[k];
    assert e in nodes[n].children && EdgeFits(pats, n, e);
    var below := Routes(nodes, pats, e.child);
    if r in Beneath(nodes, pats, n, k + 1) {
      BeneathIsNode(nodes, pats, n, k + 1, r);
    } else {
      var q := OfBelow(e.seg, below, r);
      RouteIsNode(nodes, pats, e.child, q);
      Assoc(pats[n], [e.seg], q.pattern);
    }
  }

  lemma OfBelow(seg: Segment, below: seq<Route>, r: Route) returns (q: Route)
    requires r in Below(seg, below)
    ensures q in below && r == Route([seg] + q.pattern, q.node)
  {
    var i :| 0 <= i < |below| && Below(seg, below)[i] == r;
    q := below[i];
  }

  lemma InBeneath(nodes: seq<Node>, pats: seq<Pattern>, n: nat, r: Route)
    requires Shaped(nodes, pats) && n < |nodes| && r in Beneath(nodes, pats, n, 0)
    ensures r in Routes(nodes, pats, n)
  {
  }

  lemma ParentOf(nodes: seq<Node>, pats: seq<Pattern>, c: nat) returns (p: nat, j: nat)
    requires Shaped(nodes, pats) && Connected(nodes) && 0 < c < |nodes|
    ensures p < c && j < |nodes[p].children| && nodes[p].children[j].child == c
    ensures pats[c] == pats[p] + [nodes[p].children[j].seg]
  {
    assert HasParent(nodes, c);
    p, j :| p < c && p < |nodes| && j < |nodes[p].children| && nodes[p].children[j].child == c;
    assert nodes[p].children[j] in nodes[p].children && EdgeFits(pats, p, nodes[p].children[j]);
  }

  lemma {:induction false} BeneathHas(nodes: seq<Node>, pats: seq<Pattern>, n: nat, k: nat, j: nat, r: Route)
    requires Shaped(nodes, pats) && n < |nodes| && k <= j < |nodes[n].children|
    requires nodes[n].children[j] in nodes[n].children && nodes[n].children[j].child < |nodes|
    requires r in Routes(nodes, pats, nodes[n].children[j].child)
    ensures Route([nodes[n].children[j].seg] + r.pattern, r.node) in Beneath(nodes, pats, n, k)
    decreases j - k
  {
    var e := nodes[n].children[k];
    assert e in nodes[n].children && EdgeFits(pats, n, e);
    if k < j {
      BeneathHas(nodes, pats, n, k + 1, j, r);
    } else {
      var below := Routes(nodes, pats, e.child);
      var i :| 0 <= i < |below| && below[i] == r;
      assert Below(e.seg, below)[i] == Route([e.seg] + r.pattern, r.node);
    }
  }

  /** A route listed below a node is listed from the root. */
  lemma {:induction false} ListedFromRoot(nodes: seq<Node>, pats: seq<Pattern>, n: nat, r: Route)
    requires Shaped(nodes, pats) && Connected(nodes) && n < |nodes| && r in Routes(nodes, pats, n)
    ensures Route(pats[n] + r.pattern, r.node) in Routes(nodes, pats, 0)
    decreases n
  {
    hide Shaped, Connected, Routes, Beneath;
    RootEmpty(nodes, pats);
    if n == 0 {
      assert [] + r.pattern == r.pattern;
    } else {
      var p, j := ParentOf(nodes, pats, n);
      var e := nodes[p].children[j];
      BeneathHas(nodes, pats, p, 0, j, r);
      var up := Route([e.seg] + r.pattern, r.node);
      InBeneath(nodes, pats, p, up);
      ListedFromRoot(nodes, pats, p, up);
      Assoc(pats[p], [e.seg], r.pattern);
    }
  }

  lemma RootEmpty(nodes: seq<Node>, pats: seq<Pattern>)
    requires Shaped(nodes, pats)
    ensures |nodes| == |pats| > 0 && pats[0] == []
  {
  }

  /** From the root exactly the nodes with handlers are listed, each with its pattern. */
  lemma RoutesAreHandlers(nodes: seq<Node>, pats: seq<Pattern>, r: Route)
    requires Shaped(nodes, pats) && Connected(nodes)
    ensures r in Routes(nodes, pats, 0) <==>
            r.node < |nodes| && nodes[r.node].callback.Some? && r.pattern == pats[r.node]
  {
    if r in Routes(nodes, pats, 0) {
      RouteIsNode(nodes, pats, 0, r);
      assert [] + r.pattern == r.pattern;
    }
    if r.node < |nodes| && nodes[r.node].callback.Some? && r.pattern == pats[r.node] {
      var own := Route([], r.node);
      assert own in Own(nodes[r.node], r.node);
      ListedFromRoot(nodes, pats, r.node, own);
      assert pats[r.node] + [] == pats[r.node];
    }
  }

  /** Nodes were only added, without handlers. */
  ghost predicate Grown(nodes0: seq<Node>, pats0: seq<Pattern>, nodes: seq<Node>, pats: seq<Pattern>) {
    && |nodes0| == |pats0| <= |nodes| == |pats| && pats0 == pats[..|pats0|]
    && (forall c | 0 <= c < |nodes0| :: nodes[c].callback == nodes0[c].callback)
    && (forall c | |nodes0| <= c < |nodes| :: nodes[c].callback == None)
  }

  lemma GrownStart(nodes: seq<Node>, pats: seq<Pattern>)
    requires |nodes| == |pats|
    ensures Grown(nodes, pats, nodes, pats)
  {
  }

  lemma GrownFurther(nodes0: seq<Node>, pats0: seq<Pattern>, nodes1: seq<Node>, pats1: seq<Pattern>, nodes2: seq<Node>,
                     pats2: seq<Pattern>)
    requires Grown(nodes0, pats0, nodes1, pats1) && Grown(nodes1, pats1, nodes2, pats2)
    ensures Grown(nodes0, pats0, nodes2, pats2)
    ensures |pats0| <= |pats2| && forall c | 0 <= c < |pats0| :: pats2[c] == pats0[c]
  {
    assert pats2[..|pats0|] == pats1[..|pats0|];
  }
}
