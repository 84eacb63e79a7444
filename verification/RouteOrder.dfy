/** The order in which the trie tries its nodes is the order of the flat table. */
module RouteOrders {
  import opened Helpers
  import opened RouteSpec
  import opened RouteTables
  import opened RouteNodes

  predicate Rising(nodes: seq<Node>) {
    forall n | 0 <= n < |nodes| :: forall e <- nodes[n].children :: n < e.child < |nodes|
  }

  /** A node and everything below it, in the order in which matching goes through them. */
  ghost function Order(nodes: seq<Node>, n: nat): seq<nat>
    requires Rising(nodes) && n < |nodes|
    decreases |nodes| - n, 1, 0
  {
    [n] + OrderBeneath(nodes, n, 0)
  }

  ghost function OrderBeneath(nodes: seq<Node>, n: nat, k: nat): seq<nat>
    requires Rising(nodes) && n < |nodes| && k <= |nodes[n].children|
    decreases |nodes| - n, 0, |nodes[n].children| - k
  {
    if k == |nodes[n].children| then []
    else
      var e := nodes[n].children[k];
      assert e in nodes[n].children;
      Order(nodes, e.child) + OrderBeneath(nodes, n, k + 1)
  }

  /** The edge leads one branch on, a static one to the place all its routes share. */
  predicate EdgePlaced(places: seq<Place>, n: nat, e: Edge) {
    && n < |places| && e.child < |places| && |places[e.child]| == |places[n]| + 1
    && places[e.child] == places[n] + [places[e.child][|places[n]|]]
    && places[e.child][|places[n]|].seg == e.seg && (e.seg.Static? ==> places[e.child][|places[n]|].copy == 0)
  }

  /** Every node has a place of its own, which its edges spell. */
  ghost predicate Placed(nodes: seq<Node>, places: seq<Place>) {
    && Rising(nodes) && |nodes| == |places| > 0 && places[0] == []
    && (forall n | 0 <= n < |nodes| :: forall e <- nodes[n].children :: EdgePlaced(places, n, e))
    && (forall i, j | 0 <= i < j < |places| :: places[i] != places[j])
    && (forall n | 0 <= n < |nodes| :: ChildrenApart(nodes[n].children))
    && (forall m | 0 <= m < |places| && places[m] != [] :: places[m][|places[m]| - 1].copy < |nodes|)
  }

  predicate ChildrenApart(es: seq<Edge>) {
    forall j, k | 0 <= j < k < |es| :: es[j].child != es[k].child
  }

  predicate Under(places: seq<Place>, at: Place, m: nat) { m < |places| && at <= places[m] }

  // ---------------------------------------------------------------- what stands below a place

  /** Two beginnings of the same sequence: the shorter one begins the longer one. */
  lemma Comparable<T>(a: seq<T>, b: seq<T>, c: seq<T>)
    requires a <= c && b <= c
    ensures if |a| <= |b| then a <= b else b <= a
  {
  }

  lemma PlacedSize(nodes: seq<Node>, places: seq<Place>)
    requires Placed(nodes, places)
    ensures Rising(nodes) && |places| == |nodes|
  {
  }

  lemma ChildUnder(nodes: seq<Node>, places: seq<Place>, n: nat, k: nat)
    requires Placed(nodes, places) && n < |nodes| && k < |nodes[n].children|
    ensures var e := nodes[n].children[k];
            n < e.child < |nodes| && EdgePlaced(places, n, e) && places[n] <= places[e.child]
  {
    var e := nodes[n].children[k];
    assert e in nodes[n].children;
  }

  lemma {:induction false} OrderUnder(nodes: seq<Node>, places: seq<Place>, n: nat, m: nat)
    requires Placed(nodes, places) && n < |nodes| && m in Order(nodes, n)
    ensures m < |nodes| && places[n] <= places[m]
    decreases |nodes| - n, 1, 0
  {
    hide Placed, EdgePlaced;
    PlacedSize(nodes, places);
    if m != n {
      var j := BeneathUnder(nodes, places, n, 0, m);
      ChildUnder(nodes, places, n, j);
      PrefixTrans(places[n], places[nodes[n].children[j].child], places[m]);
    }
  }

  lemma {:induction false} BeneathUnder(nodes: seq<Node>, places: seq<Place>, n: nat, k: nat, m: nat) returns (j: nat)
    requires Placed(nodes, places) && n < |nodes| && k <= |nodes[n].children| && m in OrderBeneath(nodes, n, k)
    ensures k <= j < |nodes[n].children| && nodes[n].children[j].child < |nodes| && m < |nodes|
    ensures places[nodes[n].children[j].child] <= places[m]
    decreases |nodes| - n, 0, |nodes[n].children| - k
  {
    hide Placed, EdgePlaced;
    PlacedSize(nodes, places);
    ChildUnder(nodes, places, n, k);
    var e := nodes[n].children[k];
    if m in Order(nodes, e.child) {
      OrderUnder(nodes, places, e.child, m);
      j := k;
    } else {
      j := BeneathUnder(nodes, places, n, k + 1, m);
    }
  }

  /** With a node its children are in the order. */
  lemma {:induction false} OrderHasChild(nodes: seq<Node>, n: nat, q: nat, j: nat)
    requires Rising(nodes) && n < |nodes| && q < |nodes| && j < |nodes[q].children| && q in Order(nodes, n)
    ensures nodes[q].children[j].child in Order(nodes, n)
    decreases |nodes| - n, 1, 0
  {
    if q == n {
      BeneathHasChild(nodes, n, 0, j);
    } else {
      BeneathKeepsChild(nodes, n, 0, q, j);
    }
  }

  lemma {:induction false} BeneathHasChild(nodes: seq<Node>, n: nat, k: nat, j: nat)
    requires Rising(nodes) && n < |nodes| && k <= j < |nodes[n].children|
    ensures nodes[n].children[j].child in OrderBeneath(nodes, n, k)
    decreases j - k
  {
    var e := nodes[n].children[k];
    assert e in nodes[n].children;
    if k < j {
      BeneathHasChild(nodes, n, k + 1, j);
    } else {
      assert Order(nodes, e.child)[0] == e.child;
    }
  }

  lemma {:induction false} BeneathKeepsChild(nodes: seq<Node>, n: nat, k: nat, q: nat, j: nat)
    requires Rising(nodes) && n < |nodes| && k <= |nodes[n].children| && q < |nodes| && j < |nodes[q].children|
    requires q in OrderBeneath(nodes, n, k)
    ensures nodes[q].children[j].child in OrderBeneath(nodes, n, k)
    decreases |nodes| - n, 0, |nodes[n].children| - k
  {
    var e := nodes[n].children[k];
    assert e in nodes[n].children;
    if q in Order(nodes, e.child) {
      OrderHasChild(nodes, e.child, q, j);
    } else {
      BeneathKeepsChild(nodes, n, k + 1, q, j);
    }
  }

  /** Every node at or below a place is in the order of that place's node. */
  lemma {:induction false} OrderComplete(nodes: seq<Node>, places: seq<Place>, n: nat, m: nat)
    requires Placed(nodes, places) && Connected(nodes) && n < |nodes| && m < |nodes| && places[n] <= places[m]
    ensures m in Order(nodes, n)
    decreases m
  {
    hide EdgePlaced, Order, OrderBeneath, Placed;
    PlacedSize(nodes, places);
    if places[n] == places[m] {
      SamePlace(nodes, places, n, m);
      OrderHasSelf(nodes, n);
    } else {
      var q, j := ParentOf(nodes, places, m, |places[n]|);
      Shorter(places[n], places[q], places[m]);
      OrderComplete(nodes, places, n, q);
      OrderHasChild(nodes, n, q, j);
    }
  }

  lemma OrderHasSelf(nodes: seq<Node>, n: nat)
    requires Rising(nodes) && n < |nodes|
    ensures n in Order(nodes, n)
  {
  }

  lemma SamePlace(nodes: seq<Node>, places: seq<Place>, n: nat, m: nat)
    requires Placed(nodes, places) && n < |places| && m < |places| && places[n] == places[m]
    ensures n == m
  {
  }

  lemma ParentOf(nodes: seq<Node>, places: seq<Place>, m: nat, depth: nat) returns (q: nat, j: nat)
    requires Placed(nodes, places) && Connected(nodes) && m < |nodes| && depth < |places[m]|
    ensures q < m && q < |nodes| && j < |nodes[q].children| && nodes[q].children[j].child == m
    ensures EdgePlaced(places, q, nodes[q].children[j]) && |places[q]| == |places[m]| - 1
    ensures places[q] == places[m][..|places[m]| - 1] && Rising(nodes)
  {
    assert m > 0;
    assert HasParent(nodes, m);
    q, j :| q < m && q < |nodes| && j < |nodes[q].children| && nodes[q].children[j].child == m;
    ChildUnder(nodes, places, q, j);
    assert places[m] == places[q] + [places[m][|places[q]|]];
  }

  lemma Shorter<T>(a: seq<T>, b: seq<T>, c: seq<T>)
    requires a <= c && |a| < |c| && |b| == |c| - 1 && b == c[..|c| - 1]
    ensures a <= b
  {
  }

  // ---------------------------------------------------------------- putting a node in

  /** A node put in behind the last one at or below a place. */
  function Put(o: seq<nat>, places: seq<Place>, at: Place, m: nat): seq<nat>
    decreases |o|
  {
    if o == [] then []
    else if Under(places, at, o[|o| - 1]) then o + [m]
    else Put(o[..|o| - 1], places, at, m) + [o[|o| - 1]]
  }

  lemma {:induction false} PutNone(o: seq<nat>, places: seq<Place>, at: Place, m: nat)
    requires forall x <- o :: !Under(places, at, x)
    ensures Put(o, places, at, m) == o
    decreases |o|
  {
    if o != [] {
      PutNone(o[..|o| - 1], places, at, m);
    }
  }

  predicate AnyUnder(o: seq<nat>, places: seq<Place>, at: Place) { exists x <- o :: Under(places, at, x) }

  lemma {:induction false} PutJoin(a: seq<nat>, b: seq<nat>, places: seq<Place>, at: Place, m: nat)
    ensures Put(a + b, places, at, m)
         == if AnyUnder(b, places, at) then a + Put(b, places, at, m) else Put(a, places, at, m) + b
    decreases |b|
  {
    hide Put, Under, AnyUnder;
    LastUnder(b, places, at);
    if b == [] {
      assert a + b == a && Put(a, places, at, m) + b == Put(a, places, at, m);
    } else {
      var n := |b| - 1;
      assert (a + b)[..|a + b| - 1] == a + b[..n] && (a + b)[|a + b| - 1] == b[n];
      PutStep(a + b, places, at, m);
      PutStep(b, places, at, m);
      if Under(places, at, b[n]) {
        Assoc(a, b, [m]);
      } else {
        PutJoin(a, b[..n], places, at, m);
        assert b[..n] + [b[n]] == b;
        Assoc(a, Put(b[..n], places, at, m), [b[n]]);
        Assoc(Put(a, places, at, m), b[..n], [b[n]]);
      }
    }
  }

  lemma PutStep(o: seq<nat>, places: seq<Place>, at: Place, m: nat)
    requires o != []
    ensures Put(o, places, at, m)
         == if Under(places, at, o[|o| - 1]) then o + [m] else Put(o[..|o| - 1], places, at, m) + [o[|o| - 1]]
  {
  }

  lemma LastUnder(b: seq<nat>, places: seq<Place>, at: Place)
    ensures AnyUnder(b, places, at)
            <==> b != [] && (Under(places, at, b[|b| - 1]) || AnyUnder(b[..|b| - 1], places, at))
  {
    if AnyUnder(b, places, at) {
      var x :| x in b && Under(places, at, x);
      var i :| 0 <= i < |b| && b[i] == x;
      assert i < |b| - 1 ==> b[..|b| - 1][i] == x;
    }
  }

  // ---------------------------------------------------------------- a child more

  lemma AddRising(nodes: seq<Node>, cur: nat, seg: Segment)
    requires Rising(nodes) && cur < |nodes|
    ensures Rising(WithChild(nodes, cur, seg))
  {
    var nodes' := WithChild(nodes, cur, seg);
    forall n | 0 <= n < |nodes'| ensures forall e <- nodes'[n].children :: n < e.child < |nodes'| {
      forall e <- nodes'[n].children ensures n < e.child < |nodes'| {
        assert n < |nodes|;
        if e !in nodes[n].children {
          assert e == Edge(seg, |nodes|);
        }
      }
    }
  }

  lemma ChildKept(nodes: seq<Node>, cur: nat, seg: Segment, n: nat, k: nat)
    requires cur < |nodes| && n < |nodes| && k < |nodes[n].children|
    ensures var nodes' := WithChild(nodes, cur, seg);
            && |nodes'[n].children| == |nodes[n].children| + (if n == cur then 1 else 0)
            && nodes'[n].children[k] == nodes[n].children[k] && nodes[n].children[k] in nodes'[n].children
  {
    assert WithChild(nodes, cur, seg)[n].children[k] in WithChild(nodes, cur, seg)[n].children;
  }

  /** Strictly below the node nothing changes. */
  lemma {:induction false} AddSameBelow(nodes: seq<Node>, places: seq<Place>, cur: nat, seg: Segment, n: nat)
    requires Placed(nodes, places) && cur < |nodes| && n < |nodes| && Rising(WithChild(nodes, cur, seg))
    requires places[cur] <= places[n] && n != cur
    ensures Order(WithChild(nodes, cur, seg), n) == Order(nodes, n)
    decreases |nodes| - n, 1, 0
  {
    AddSameBeneath(nodes, places, cur, seg, n, 0);
  }

  lemma {:induction false} AddSameBeneath(nodes: seq<Node>, places: seq<Place>, cur: nat, seg: Segment, n: nat, k: nat)
    requires Placed(nodes, places) && cur < |nodes| && n < |nodes| && Rising(WithChild(nodes, cur, seg))
    requires places[cur] <= places[n] && n != cur && k <= |nodes[n].children|
    ensures OrderBeneath(WithChild(nodes, cur, seg), n, k) == OrderBeneath(nodes, n, k)
    decreases |nodes| - n, 0, |nodes[n].children| - k
  {
    hide Placed, Order;
    PlacedSize(nodes, places);
    if k < |nodes[n].children| {
      ChildKept(nodes, cur, seg, n, k);
      BelowBelow(nodes, places, cur, n, k);
      AddSameBelow(nodes, places, cur, seg, nodes[n].children[k].child);
      AddSameBeneath(nodes, places, cur, seg, n, k + 1);
    }
  }

  lemma BelowBelow(nodes: seq<Node>, places: seq<Place>, cur: nat, n: nat, k: nat)
    requires Placed(nodes, places) && cur < |nodes| && n < |nodes| && k < |nodes[n].children|
            && places[cur] <= places[n]
    ensures var c := nodes[n].children[k].child; n < c < |nodes| && places[cur] <= places[c] && c != cur
  {
    ChildUnder(nodes, places, n, k);
    PrefixTrans(places[cur], places[n], places[nodes[n].children[k].child]);
  }

  /** At the node itself the new one comes last. */
  lemma {:induction false} AddLast(nodes: seq<Node>, places: seq<Place>, cur: nat, seg: Segment, k: nat)
    requires Placed(nodes, places) && cur < |nodes| && Rising(WithChild(nodes, cur, seg)) && k <= |nodes[cur].children|
    ensures |WithChild(nodes, cur, seg)[cur].children| == |nodes[cur].children| + 1
    ensures OrderBeneath(WithChild(nodes, cur, seg), cur, k) == OrderBeneath(nodes, cur, k) + [|nodes|]
    decreases |nodes[cur].children| - k
  {
    hide Placed, Order;
    PlacedSize(nodes, places);
    if k < |nodes[cur].children| {
      ChildKept(nodes, cur, seg, cur, k);
      BelowBelow(nodes, places, cur, cur, k);
      AddSameBelow(nodes, places, cur, seg, nodes[cur].children[k].child);
      AddLast(nodes, places, cur, seg, k + 1);
      Assoc(Order(nodes, nodes[cur].children[k].child), OrderBeneath(nodes, cur, k + 1), [|nodes|]);
    } else {
      NewLast(nodes, cur, seg);
    }
  }

  lemma NewLast(nodes: seq<Node>, cur: nat, seg: Segment)
    requires cur < |nodes| && Rising(WithChild(nodes, cur, seg))
    ensures OrderBeneath(WithChild(nodes, cur, seg), cur, |nodes[cur].children|) == [|nodes|]
  {
    var nodes' := WithChild(nodes, cur, seg);
    var k := |nodes[cur].children|;
    assert nodes'[cur].children[k] == Edge(seg, |nodes|) && |nodes'[cur].children| == k + 1;
    assert OrderBeneath(nodes', |nodes|, 0) == [];
    assert OrderBeneath(nodes', cur, k + 1) == [];
  }

  /** Anywhere else it goes behind the last node at or below its parent. */
  lemma {:induction false} AddOrder(nodes: seq<Node>, places: seq<Place>, cur: nat, seg: Segment, n: nat)
    requires Placed(nodes, places) && cur < |nodes| && n < |nodes| && Rising(WithChild(nodes, cur, seg))
    requires n == cur || !(places[cur] <= places[n])
    ensures Order(WithChild(nodes, cur, seg), n) == Put(Order(nodes, n), places, places[cur], |nodes|)
    decreases |nodes| - n, 1, 0
  {
    hide Placed, OrderBeneath, WithChild, Put;
    PlacedSize(nodes, places);
    var below := OrderBeneath(nodes, n, 0);
    if n == cur {
      AddLast(nodes, places, cur, seg, 0);
      PutLast(nodes, places, cur);
      Assoc([cur], below, [|nodes|]);
    } else {
      AddBeneath(nodes, places, cur, seg, n, 0);
      PutJoin([n], below, places, places[cur], |nodes|);
      PutNone([n], places, places[cur], |nodes|);
      if forall x <- below :: !Under(places, places[cur], x) {
        PutNone(below, places, places[cur], |nodes|);
      }
    }
  }

  lemma PutLast(nodes: seq<Node>, places: seq<Place>, cur: nat)
    requires Placed(nodes, places) && Rising(nodes) && cur < |nodes|
    ensures Put(Order(nodes, cur), places, places[cur], |nodes|) == Order(nodes, cur) + [|nodes|]
  {
    hide Placed, OrderBeneath;
    PlacedSize(nodes, places);
    var o := Order(nodes, cur);
    assert o[|o| - 1] in o;
    OrderUnder(nodes, places, cur, o[|o| - 1]);
  }

  lemma {:induction false} AddBeneath(nodes: seq<Node>, places: seq<Place>, cur: nat, seg: Segment, n: nat, k: nat)
    requires Placed(nodes, places) && cur < |nodes| && n < |nodes| && Rising(WithChild(nodes, cur, seg))
    requires !(places[cur] <= places[n]) && k <= |nodes[n].children|
    ensures OrderBeneath(WithChild(nodes, cur, seg), n, k)
            == Put(OrderBeneath(nodes, n, k), places, places[cur], |nodes|)
    decreases |nodes| - n, 0, |nodes[n].children| - k
  {
    hide Placed, Order, Put;
    PlacedSize(nodes, places);
    if k < |nodes[n].children| {
      ChildKept(nodes, cur, seg, n, k);
      ChildUnder(nodes, places, n, k);
      var c := nodes[n].children[k].child;
      var a, b := Order(nodes, c), OrderBeneath(nodes, n, k + 1);
      OtherChild(nodes, places, cur, n, k);
      AddOrder(nodes, places, cur, seg, c);
      AddBeneath(nodes, places, cur, seg, n, k + 1);
      PutJoin(a, b, places, places[cur], |nodes|);
      if exists x <- b :: Under(places, places[cur], x) {
        NotBoth(nodes, places, cur, n, k);
        PutNone(a, places, places[cur], |nodes|);
      } else {
        PutNone(b, places, places[cur], |nodes|);
      }
    } else {
      PutNone([], places, places[cur], |nodes|);
    }
  }

  lemma OtherChild(nodes: seq<Node>, places: seq<Place>, cur: nat, n: nat, k: nat)
    requires Placed(nodes, places) && cur < |nodes| && n < |nodes| && k < |nodes[n].children|
    requires !(places[cur] <= places[n])
    ensures var c := nodes[n].children[k].child; n < c < |nodes| && (c == cur || !(places[cur] <= places[c]))
  {
    ChildUnder(nodes, places, n, k);
    var c := nodes[n].children[k].child;
    if places[cur] <= places[c] {
      Comparable(places[cur], places[n], places[c]);
      assert |places[cur]| == |places[c]|;
      SamePlace(nodes, places, cur, c);
    }
  }

  /** At most one child of a node has the place below it. */
  lemma NotBoth(nodes: seq<Node>, places: seq<Place>, cur: nat, n: nat, k: nat)
    requires Placed(nodes, places) && cur < |nodes| && n < |nodes| && k < |nodes[n].children|
    requires !(places[cur] <= places[n]) && nodes[n].children[k].child < |nodes|
    requires exists x <- OrderBeneath(nodes, n, k + 1) :: Under(places, places[cur], x)
    ensures forall x <- Order(nodes, nodes[n].children[k].child) :: !Under(places, places[cur], x)
  {
    hide Placed, EdgePlaced, Order, OrderBeneath;
    PlacedSize(nodes, places);
    var at := places[cur];
    var y :| y in OrderBeneath(nodes, n, k + 1) && Under(places, at, y);
    var j := BeneathUnder(nodes, places, n, k + 1, y);
    var c := nodes[n].children[k].child;
    TwoChildren(nodes, places, n, k, j);
    forall x <- Order(nodes, c) ensures !Under(places, at, x) {
      OrderUnder(nodes, places, c, x);
      if Under(places, at, x) {
        OneBranch(nodes, places, n, k, at, places[x]);
        OneBranch(nodes, places, n, j, at, places[y]);
      }
    }
  }

  lemma TwoChildren(nodes: seq<Node>, places: seq<Place>, n: nat, k: nat, j: nat)
    requires Placed(nodes, places) && n < |nodes| && k < j < |nodes[n].children|
    ensures var c, d := nodes[n].children[k].child, nodes[n].children[j].child;
            c < |nodes| && d < |nodes| && places[c] != places[d]
  {
    ChildUnder(nodes, places, n, k);
    ChildUnder(nodes, places, n, j);
    assert ChildrenApart(nodes[n].children);
    if places[nodes[n].children[k].child] == places[nodes[n].children[j].child] {
      SamePlace(nodes, places, nodes[n].children[k].child, nodes[n].children[j].child);
    }
  }

  /** A place below a child, where it is not at or above its parent, begins with the child's place. */
  lemma OneBranch(nodes: seq<Node>, places: seq<Place>, n: nat, k: nat, at: Place, x: Place)
    requires Placed(nodes, places) && n < |nodes| && k < |nodes[n].children| && nodes[n].children[k].child < |nodes|
    requires places[nodes[n].children[k].child] <= x && at <= x && !(at <= places[n])
    ensures |at| > |places[n]| && places[nodes[n].children[k].child] == at[..|places[n]| + 1]
  {
    var c := nodes[n].children[k].child;
    ChildUnder(nodes, places, n, k);
    PrefixTrans(places[n], places[c], x);
    Comparable(at, places[n], x);
    Comparable(places[c], at, x);
  }

  // ---------------------------------------------------------------- the table of a trie

  predicate Within(o: seq<nat>, n: nat) { forall i | 0 <= i < |o| :: o[i] < n }

  /** The rows of some nodes. */
  ghost function RowsOf(nodes: seq<Node>, places: seq<Place>, o: seq<nat>): (rows: seq<Row>)
    requires |nodes| == |places| && Within(o, |nodes|)
    ensures |rows| == |o|
  {
    seq(|o|, i requires 0 <= i < |o| => RowAt(nodes, places, o, i))
  }

  ghost function RowAt(nodes: seq<Node>, places: seq<Place>, o: seq<nat>, i: nat): Row
    requires |nodes| == |places| && Within(o, |nodes|) && i < |o|
  {
    Row(places[o[i]], nodes[o[i]].callback)
  }

  lemma OrderWithin(nodes: seq<Node>, places: seq<Place>, n: nat)
    requires Placed(nodes, places) && n < |nodes|
    ensures Rising(nodes) && Within(Order(nodes, n), |nodes|)
  {
    hide Placed, Order;
    PlacedSize(nodes, places);
    var o := Order(nodes, n);
    forall i | 0 <= i < |o| ensures o[i] < |nodes| {
      assert o[i] in o;
      OrderUnder(nodes, places, n, o[i]);
    }
  }

  /** The whole trie as a table. */
  ghost function RowsIn(nodes: seq<Node>, places: seq<Place>): seq<Row>
    requires Placed(nodes, places)
  {
    OrderWithin(nodes, places, 0);
    RowsOf(nodes, places, Order(nodes, 0))
  }

  lemma {:induction false} PutWithin(o: seq<nat>, places: seq<Place>, at: Place, m: nat, n: nat)
    requires Within(o, n) && m < n
    ensures Within(Put(o, places, at, m), n)
    decreases |o|
  {
    if o != [] && !Under(places, at, o[|o| - 1]) {
      PutWithin(o[..|o| - 1], places, at, m, n);
    }
  }

  function WithPlace(places: seq<Place>, place: Place): seq<Place> { places + [place] }

  /** Putting a node in is putting its row in. */
  lemma {:induction false} PutRows(nodes: seq<Node>, places: seq<Place>, cur: nat, seg: Segment, place: Place,
                                   o: seq<nat>)
    requires |nodes| == |places| && cur < |nodes| && Within(o, |nodes|)
    requires Within(Put(o, places, places[cur], |nodes|), |nodes| + 1)
    ensures RowsOf(WithChild(nodes, cur, seg), WithPlace(places, place), Put(o, places, places[cur], |nodes|))
         == Behind(RowsOf(nodes, places, o), places[cur], Row(place, None))
    decreases |o|
  {
    var nodes', places' := WithChild(nodes, cur, seg), WithPlace(places, place);
    var at := places[cur];
    var rows := RowsOf(nodes, places, o);
    if o != [] {
      var n := |o| - 1;
      var x := o[n];
      assert rows[n] == Row(places[x], nodes[x].callback);
      assert RowsOf(nodes, places, o[..n]) == rows[..n];
      if Under(places, at, x) {
        SameRows(nodes, places, cur, seg, place, o);
        assert RowsOf(nodes', places', o + [|nodes|]) == RowsOf(nodes', places', o) + [Row(place, None)];
      } else {
        var front := Put(o[..n], places, at, |nodes|);
        PutWithin(o[..n], places, at, |nodes|, |nodes| + 1);
        PutRows(nodes, places, cur, seg, place, o[..n]);
        assert RowsOf(nodes', places', front + [x]) == RowsOf(nodes', places', front) + [rows[n]];
      }
    }
  }

  lemma SameRows(nodes: seq<Node>, places: seq<Place>, cur: nat, seg: Segment, place: Place, o: seq<nat>)
    requires |nodes| == |places| && cur < |nodes| && Within(o, |nodes|)
    ensures Within(o, |nodes| + 1)
    ensures RowsOf(WithChild(nodes, cur, seg), WithPlace(places, place), o) == RowsOf(nodes, places, o)
  {
    forall i | 0 <= i < |o|
      ensures o[i] < |nodes| && WithChild(nodes, cur, seg)[o[i]].callback == nodes[o[i]].callback
    {
    }
  }

  // ---------------------------------------------------------------- adding to the trie and to the table

  /** A new place for a child of `cur`. */
  predicate NewPlace(nodes: seq<Node>, places: seq<Place>, cur: nat, seg: Segment, copy: nat) {
    && cur < |places| && (seg.Static? ==> copy == 0) && copy < |nodes| + 1
    && places[cur] + [Branch(seg, copy)] !in places
  }

  lemma AddPlaced(nodes: seq<Node>, places: seq<Place>, cur: nat, seg: Segment, copy: nat)
    requires Placed(nodes, places) && cur < |nodes| && NewPlace(nodes, places, cur, seg, copy)
    ensures Placed(WithChild(nodes, cur, seg), WithPlace(places, places[cur] + [Branch(seg, copy)]))
  {
    var place := places[cur] + [Branch(seg, copy)];
    var nodes', places' := WithChild(nodes, cur, seg), WithPlace(places, place);
    AddRising(nodes, cur, seg);
    forall n | 0 <= n < |nodes'|
      ensures ChildrenApart(nodes'[n].children) && forall e <- nodes'[n].children :: EdgePlaced(places', n, e)
    {
      if n < |nodes| {
        AddEdges(nodes, places, cur, seg, copy, n);
      }
    }
  }

  lemma AddEdges(nodes: seq<Node>, places: seq<Place>, cur: nat, seg: Segment, copy: nat, n: nat)
    requires Placed(nodes, places) && cur < |nodes| && n < |nodes| && NewPlace(nodes, places, cur, seg, copy)
    ensures var nodes' := WithChild(nodes, cur, seg);
            var places' := WithPlace(places, places[cur] + [Branch(seg, copy)]);
            ChildrenApart(nodes'[n].children) && forall e <- nodes'[n].children :: EdgePlaced(places', n, e)
  {
    var nodes' := WithChild(nodes, cur, seg);
    var places' := WithPlace(places, places[cur] + [Branch(seg, copy)]);
    assert ChildrenApart(nodes[n].children);
    forall e <- nodes[n].children ensures EdgePlaced(places', n, e) && e.child < |nodes| {
      assert EdgePlaced(places, n, e);
    }
  }

  lemma HasRow(nodes: seq<Node>, places: seq<Place>, m: nat)
    requires Placed(nodes, places) && Connected(nodes) && m < |nodes|
    ensures HasPlace(RowsIn(nodes, places), places[m])
  {
    OrderWithin(nodes, places, 0);
    OrderComplete(nodes, places, 0, m);
    var o := Order(nodes, 0);
    var i :| 0 <= i < |o| && o[i] == m;
    assert RowsIn(nodes, places)[i] == RowAt(nodes, places, o, i);
  }

  lemma RowIsNode(nodes: seq<Node>, places: seq<Place>, place: Place) returns (m: nat)
    requires Placed(nodes, places) && HasPlace(RowsIn(nodes, places), place)
    ensures m < |nodes| && places[m] == place
  {
    OrderWithin(nodes, places, 0);
    var o := Order(nodes, 0);
    var r :| r in RowsIn(nodes, places) && r.place == place;
    var i :| 0 <= i < |o| && RowsIn(nodes, places)[i] == r;
    m := o[i];
  }

  /** Adding a child adds its row behind those at or below its parent. */
  lemma AddRows(nodes: seq<Node>, places: seq<Place>, cur: nat, seg: Segment, copy: nat)
    requires Placed(nodes, places) && Connected(nodes) && cur < |nodes| && NewPlace(nodes, places, cur, seg, copy)
    ensures var place := places[cur] + [Branch(seg, copy)];
            && Placed(WithChild(nodes, cur, seg), WithPlace(places, place))
            && RowsIn(WithChild(nodes, cur, seg), WithPlace(places, place))
               == Behind(RowsIn(nodes, places), places[cur], Row(place, None))
  {
    hide Order, Put, RowsOf, Behind, EdgePlaced, Connected;
    var place := places[cur] + [Branch(seg, copy)];
    AddPlaced(nodes, places, cur, seg, copy);
    AddRising(nodes, cur, seg);
    RootAbove(nodes, places, cur);
    AddOrder(nodes, places, cur, seg, 0);
    OrderWithin(nodes, places, 0);
    OrderWithin(WithChild(nodes, cur, seg), WithPlace(places, place), 0);
    PutRows(nodes, places, cur, seg, place, Order(nodes, 0));
  }

  lemma RootAbove(nodes: seq<Node>, places: seq<Place>, cur: nat)
    requires Placed(nodes, places) && cur < |nodes|
    ensures cur == 0 || !(places[cur] <= places[0])
  {
    if cur != 0 {
      assert places[0] != places[cur];
    }
  }

  /** There are as many rows as nodes. */
  lemma {:induction false} BehindSize(rows: seq<Row>, at: Place, row: Row)
    requires HasPlace(rows, at)
    ensures |Behind(rows, at, row)| == |rows| + 1
    decreases |rows|
  {
    var n := |rows| - 1;
    if !(at <= rows[n].place) {
      var r :| r in rows && r.place == at;
      var i :| 0 <= i < |rows| && rows[i] == r;
      assert rows[..n][i] == r;
      BehindSize(rows[..n], at, row);
    }
  }

  lemma {:induction false} HandlerOrder(nodes: seq<Node>, m: nat, handler: nat, n: nat)
    requires Rising(nodes) && m < |nodes| && n < |nodes| && Rising(WithHandler(nodes, m, handler))
    ensures Order(WithHandler(nodes, m, handler), n) == Order(nodes, n)
    decreases |nodes| - n, 1, 0
  {
    HandlerBeneath(nodes, m, handler, n, 0);
  }

  lemma {:induction false} HandlerBeneath(nodes: seq<Node>, m: nat, handler: nat, n: nat, k: nat)
    requires Rising(nodes) && m < |nodes| && n < |nodes| && Rising(WithHandler(nodes, m, handler))
    requires k <= |nodes[n].children|
    ensures |WithHandler(nodes, m, handler)[n].children| == |nodes[n].children|
    ensures OrderBeneath(WithHandler(nodes, m, handler), n, k) == OrderBeneath(nodes, n, k)
    decreases |nodes| - n, 0, |nodes[n].children| - k
  {
    if k < |nodes[n].children| {
      assert nodes[n].children[k] in nodes[n].children;
      HandlerOrder(nodes, m, handler, nodes[n].children[k].child);
      HandlerBeneath(nodes, m, handler, n, k + 1);
    }
  }

  /** Setting a node's handler sets that of its row. */
  lemma HandlerRows(nodes: seq<Node>, places: seq<Place>, m: nat, handler: nat)
    requires Placed(nodes, places) && m < |nodes|
    ensures Placed(WithHandler(nodes, m, handler), places)
    ensures RowsIn(WithHandler(nodes, m, handler), places) == Answering(RowsIn(nodes, places), places[m], handler)
  {
    var nodes' := WithHandler(nodes, m, handler);
    HandlerOrder(nodes, m, handler, 0);
    OrderWithin(nodes, places, 0);
    var o := Order(nodes, 0);
    forall i | 0 <= i < |o|
      ensures RowAt(nodes', places, o, i)
           == if places[o[i]] == places[m] then Row(places[m], Some(handler)) else RowAt(nodes, places, o, i)
    {
      if places[o[i]] == places[m] {
        SamePlace(nodes, places, o[i], m);
      }
    }
  }

  /** A node has a static child of that name exactly when the table has the place. */
  lemma StaticChild(nodes: seq<Node>, places: seq<Place>, cur: nat, name: string)
    requires Placed(nodes, places) && Connected(nodes) && cur < |nodes|
    ensures HasPlace(RowsIn(nodes, places), places[cur] + [Branch(Static(name), 0)])
            <==> exists e <- nodes[cur].children :: e.seg == Static(name)
    ensures forall e <- nodes[cur].children | e.seg == Static(name) ::
              e.child < |nodes| && places[e.child] == places[cur] + [Branch(Static(name), 0)]
  {
    hide RowsIn;
    var place := places[cur] + [Branch(Static(name), 0)];
    forall e <- nodes[cur].children | e.seg == Static(name)
      ensures e.child < |nodes| && places[e.child] == place && HasPlace(RowsIn(nodes, places), place)
    {
      assert EdgePlaced(places, cur, e);
      HasRow(nodes, places, e.child);
    }
    if HasPlace(RowsIn(nodes, places), place) {
      var m := RowIsNode(nodes, places, place);
      var q, j := ParentOf(nodes, places, m, 0);
      assert places[q] == places[cur];
      SamePlace(nodes, places, q, cur);
      assert nodes[q].children[j] in nodes[cur].children && nodes[q].children[j].seg == Static(name);
    }
  }

  // ---------------------------------------------------------------- matching in the trie and in the table

  /** The routes of the nodes with handlers among some nodes. */
  ghost function Kept(nodes: seq<Node>, pats: seq<Pattern>, o: seq<nat>): seq<Route>
    requires |nodes| == |pats| && Within(o, |nodes|)
  {
    if o == [] then []
    else KeptOne(nodes, pats, o[0]) + Kept(nodes, pats, o[1..])
  }

  ghost function KeptOne(nodes: seq<Node>, pats: seq<Pattern>, n: nat): seq<Route>
    requires |nodes| == |pats| && n < |nodes|
  {
    if nodes[n].callback.Some? then [Route(pats[n], n)] else []
  }

  lemma {:induction false} KeptJoin(nodes: seq<Node>, pats: seq<Pattern>, a: seq<nat>, b: seq<nat>)
    requires |nodes| == |pats| && Within(a, |nodes|) && Within(b, |nodes|)
    ensures Within(a + b, |nodes|) && Kept(nodes, pats, a + b) == Kept(nodes, pats, a) + Kept(nodes, pats, b)
    decreases |a|
  {
    hide Kept;
    KeptStep(nodes, pats, a);
    if a == [] {
      assert a + b == b && [] + Kept(nodes, pats, b) == Kept(nodes, pats, b);
    } else {
      assert (a + b)[1..] == a[1..] + b;
      KeptJoin(nodes, pats, a[1..], b);
      KeptStep(nodes, pats, a + b);
      Assoc(KeptOne(nodes, pats, a[0]), Kept(nodes, pats, a[1..]), Kept(nodes, pats, b));
    }
  }

  lemma KeptStep(nodes: seq<Node>, pats: seq<Pattern>, o: seq<nat>)
    requires |nodes| == |pats| && Within(o, |nodes|)
    ensures Kept(nodes, pats, o) == if o == [] then [] else KeptOne(nodes, pats, o[0]) + Kept(nodes, pats, o[1..])
  {
  }

  /** Routes seen from further up. */
  function Prefixed(p: Pattern, routes: seq<Route>): (r: seq<Route>)
    ensures |r| == |routes|
  {
    seq(|routes|, i requires 0 <= i < |routes| => Route(p + routes[i].pattern, routes[i].node))
  }

  /** The routes below a node, from the root, are those of its order. */
  lemma {:induction false} OrderRoutes(nodes: seq<Node>, pats: seq<Pattern>, n: nat)
    requires Shaped(nodes, pats) && Rising(nodes) && n < |nodes| && Within(Order(nodes, n), |nodes|)
    ensures Prefixed(pats[n], Routes(nodes, pats, n)) == Kept(nodes, pats, Order(nodes, n))
    decreases |nodes| - n, 1, 0
  {
    hide Shaped, Kept, Prefixed, Beneath, OrderBeneath, Own;
    ShapedSize(nodes, pats);
    var below := OrderBeneath(nodes, n, 0);
    WithinParts([n], below, |nodes|);
    BeneathRoutes(nodes, pats, n, 0);
    KeptJoin(nodes, pats, [n], below);
    OwnKept(nodes, pats, n);
    PrefixedJoin(pats[n], Own(nodes[n], n), Beneath(nodes, pats, n, 0));
  }

  lemma PrefixedJoin(p: Pattern, a: seq<Route>, b: seq<Route>)
    ensures Prefixed(p, a + b) == Prefixed(p, a) + Prefixed(p, b)
  {
  }

  lemma ShapedSize(nodes: seq<Node>, pats: seq<Pattern>)
    requires Shaped(nodes, pats)
    ensures |pats| == |nodes|
  {
  }

  lemma OwnKept(nodes: seq<Node>, pats: seq<Pattern>, n: nat)
    requires |nodes| == |pats| && n < |nodes|
    ensures Within([n], |nodes|) && Prefixed(pats[n], Own(nodes[n], n)) == Kept(nodes, pats, [n])
  {
    assert pats[n] + [] == pats[n];
    assert [n][1..] == [];
    assert Kept(nodes, pats, []) == [];
  }

  lemma {:induction false} BeneathRoutes(nodes: seq<Node>, pats: seq<Pattern>, n: nat, k: nat)
    requires Shaped(nodes, pats) && Rising(nodes) && n < |nodes| && k <= |nodes[n].children|
    requires Within(OrderBeneath(nodes, n, k), |nodes|)
    ensures Prefixed(pats[n], Beneath(nodes, pats, n, k)) == Kept(nodes, pats, OrderBeneath(nodes, n, k))
    decreases |nodes| - n, 0, |nodes[n].children| - k
  {
    if k < |nodes[n].children| {
      var e := nodes[n].children[k];
      assert e in nodes[n].children && EdgeFits(pats, n, e);
      var a, b := Order(nodes, e.child), OrderBeneath(nodes, n, k + 1);
      WithinParts(a, b, |nodes|);
      OrderRoutes(nodes, pats, e.child);
      BeneathRoutes(nodes, pats, n, k + 1);
      KeptJoin(nodes, pats, a, b);
      BelowPrefixed(pats[n], e.seg, Routes(nodes, pats, e.child));
      PrefixedJoin(pats[n], Below(e.seg, Routes(nodes, pats, e.child)), Beneath(nodes, pats, n, k + 1));
    }
  }

  lemma WithinParts(a: seq<nat>, b: seq<nat>, n: nat)
    requires Within(a + b, n)
    ensures Within(a, n) && Within(b, n)
  {
    forall i | 0 <= i < |a| ensures a[i] < n {
      assert (a + b)[i] == a[i];
    }
    forall i | 0 <= i < |b| ensures b[i] < n {
      assert (a + b)[|a| + i] == b[i];
    }
  }

  lemma BelowPrefixed(p: Pattern, seg: Segment, routes: seq<Route>)
    ensures Prefixed(p, Below(seg, routes)) == Prefixed(p + [seg], routes)
  {
    forall i | 0 <= i < |routes| ensures Prefixed(p, Below(seg, routes))[i] == Prefixed(p + [seg], routes)[i] {
      assert p + ([seg] + routes[i].pattern) == p + [seg] + routes[i].pattern;
    }
  }

  /** The first matching row of some nodes is the first matching route. */
  lemma {:induction false} FirstRowIs(reader: Reader, nodes: seq<Node>, pats: seq<Pattern>, places: seq<Place>,
                                      o: seq<nat>, path: string)
    requires |nodes| == |pats| == |places| && Within(o, |nodes|)
    requires forall m | 0 <= m < |nodes| :: pats[m] == PatternAt(places[m])
    ensures match FirstMatch(reader, Kept(nodes, pats, o), path)
            case None => FirstRow(reader, RowsOf(nodes, places, o), path) == None
            case Some(m) =>
              && m.0 < |nodes| && nodes[m.0].callback.Some?
              && FirstRow(reader, RowsOf(nodes, places, o), path) == Some((nodes[m.0].callback.value, m.1))
    decreases |o|
  {
    hide Matches, PatternAt;
    if o != [] {
      assert RowsOf(nodes, places, o)[0] == RowAt(nodes, places, o, 0);
      assert RowsOf(nodes, places, o)[1..] == RowsOf(nodes, places, o[1..]);
      FirstRowIs(reader, nodes, pats, places, o[1..], path);
      if nodes[o[0]].callback.Some? {
        assert Kept(nodes, pats, o)[1..] == Kept(nodes, pats, o[1..]);
      } else {
        assert Kept(nodes, pats, o) == Kept(nodes, pats, o[1..]);
      }
    }
  }

  /** The trie finds what the table finds first. */
  lemma TableMatch(reader: Reader, nodes: seq<Node>, pats: seq<Pattern>, places: seq<Place>, path: string)
    requires Shaped(nodes, pats) && Placed(nodes, places) && forall m | 0 <= m < |nodes| ::
            pats[m] == PatternAt(places[m])
    ensures match FirstMatch(reader, Routes(nodes, pats, 0), path)
            case None => FirstRow(reader, RowsIn(nodes, places), path) == None
            case Some(m) =>
              && m.0 < |nodes| && nodes[m.0].callback.Some?
              && FirstRow(reader, RowsIn(nodes, places), path) == Some((nodes[m.0].callback.value, m.1))
  {
    hide PatternAt, FirstMatch, FirstRow, EdgePlaced, RowsOf, Order, Routes;
    OrderWithin(nodes, places, 0);
    OrderRoutes(nodes, pats, 0);
    RootPrefixed(Routes(nodes, pats, 0));
    FirstRowIs(reader, nodes, pats, places, Order(nodes, 0), path);
  }

  lemma RootPrefixed(routes: seq<Route>)
    ensures Prefixed([], routes) == routes
  {
    forall i | 0 <= i < |routes| ensures Prefixed([], routes)[i] == routes[i] {
      assert [] + routes[i].pattern == routes[i].pattern;
    }
  }
}
