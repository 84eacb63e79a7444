/** The request rate limiter as it is kept: pool slots threaded by index into a doubly linked list,
    and a hash index from identity to slot. */
module RequestRateLimiters {
  import opened Helpers
  import opened LimiterSpec

  const NONE := 0xFFFF_FFFF

  /** A pool slot: an entry and its neighbours in the list. */
  datatype Node = Node(entry: Entry, prev: nat, next: nat)

  predicate NoRepeat(order: seq<nat>) {
    forall i, j | 0 <= i < j < |order| :: order[i] != order[j]
  }

  function PrevOf(order: seq<nat>, i: nat): nat
    requires i < |order|
  {
    if i == 0 then NONE else order[i - 1]
  }

  function NextOf(order: seq<nat>, i: nat): nat
    requires i < |order|
  {
    if i == |order| - 1 then NONE else order[i + 1]
  }

  /** head, tail and the links thread exactly the slots of `order`, each once, in that order. */
  predicate Threaded(ns: seq<Node>, order: seq<nat>, head: nat, tail: nat) {
    && NoRepeat(order) && (forall i | 0 <= i < |order| :: order[i] < |ns|)
    && head == (if order == [] then NONE else order[0])
    && tail == (if order == [] then NONE else order[|order| - 1])
    && forall i | 0 <= i < |order| :: ns[order[i]].prev == PrevOf(order, i) && ns[order[i]].next == NextOf(order, i)
  }

  /** The index and the nodes' keys are inverse to one another. */
  predicate Indexed(ns: seq<Node>, order: seq<nat>, index: map<Ip, nat>) {
    && (forall i | 0 <= i < |order| ::
          order[i] < |ns| && ns[order[i]].entry.key in index && index[ns[order[i]].entry.key] == order[i])
    && (forall k <- index :: index[k] in order && index[k] < |ns| && ns[index[k]].entry.key == k)
  }

  function EntriesOf(ns: seq<Node>, order: seq<nat>): (es: seq<Entry>)
    requires forall i | 0 <= i < |order| :: order[i] < |ns|
    ensures |es| == |order|
  {
    seq(|order|, i requires 0 <= i < |order| => ns[order[i]].entry)
  }

  predicate SameEntries(ns: seq<Node>, ns': seq<Node>) {
    |ns| == |ns'| && forall i | 0 <= i < |ns| :: ns[i].entry == ns'[i].entry
  }

  // ---------------------------------------------------------------- the links as values

  predicate LinksIn(n: Node, size: nat) {
    (n.prev != NONE ==> n.prev < size) && (n.next != NONE ==> n.next < size)
  }

  /** The pool after a slot is taken out of the list. */
  function Unhook(ns: seq<Node>, idx: nat): (r: seq<Node>)
    requires idx < |ns| && LinksIn(ns[idx], |ns|)
    ensures SameEntries(ns, r)
  {
    var n := ns[idx];
    var a := if n.prev != NONE then ns[n.prev := ns[n.prev].(next := n.next)] else ns;
    var b := if n.next != NONE then a[n.next := a[n.next].(prev := n.prev)] else a;
    b[idx := b[idx].(prev := NONE, next := NONE)]
  }

  /** The pool after a slot is put in front of the list. */
  function HookFront(ns: seq<Node>, idx: nat, head: nat): (r: seq<Node>)
    requires idx < |ns| && (head != NONE ==> head < |ns|)
    ensures SameEntries(ns, r)
  {
    var a := ns[idx := ns[idx].(prev := NONE, next := head)];
    if head != NONE then a[head := a[head].(prev := idx)] else a
  }

  lemma SlotLinks(ns: seq<Node>, order: seq<nat>, head: nat, tail: nat, i: nat)
    requires Threaded(ns, order, head, tail) && |ns| < NONE && i < |order|
    ensures order[i] < |ns| && ns[order[i]].prev == PrevOf(order, i) && ns[order[i]].next == NextOf(order, i)
    ensures LinksIn(ns[order[i]], |ns|)
    ensures ns[order[i]].prev != NONE <==> i > 0
    ensures ns[order[i]].next != NONE <==> i + 1 < |order|
  {
    if i > 0 { assert order[i - 1] < |ns|; }
    if i + 1 < |order| { assert order[i + 1] < |ns|; }
  }

  lemma WithoutNoRepeat(order: seq<nat>, i: nat)
    requires NoRepeat(order) && i < |order|
    ensures NoRepeat(Without(order, i)) && order[i] !in Without(order, i)
  {
    var rest := Without(order, i);
    forall k | 0 <= k < |rest| ensures rest[k] == order[if k < i then k else k + 1] {
    }
  }

  lemma UnhookAt(ns: seq<Node>, idx: nat, at: nat)
    requires idx < |ns| && LinksIn(ns[idx], |ns|) && at < |ns| && at != idx
    ensures var n, m := ns[idx], Unhook(ns, idx)[at];
            && m.next == (if n.prev != NONE && n.prev == at then n.next else ns[at].next)
            && m.prev == (if n.next != NONE && n.next == at then n.prev else ns[at].prev)
  {
  }

  /** Slots at different positions differ. */
  lemma Apart(order: seq<nat>, i: nat, j: nat)
    requires NoRepeat(order) && i < |order| && j < |order|
    ensures order[i] == order[j] <==> i == j
  {
    assert i < j ==> order[i] != order[j];
    assert j < i ==> order[j] != order[i];
  }

  /** A slot's links after the slot at position i is taken out: they skip that slot. */
  lemma UnhookLinks(ns: seq<Node>, order: seq<nat>, head: nat, tail: nat, i: nat, j: nat)
    requires Threaded(ns, order, head, tail) && |ns| < NONE && i < |order| && j < |order| && i != j
    requires order[i] < |ns| && LinksIn(ns[order[i]], |ns|) && order[j] < |ns|
    ensures var m := Unhook(ns, order[i])[order[j]];
            && m.prev == PrevOf(order, if j == i + 1 then i else j)
            && m.next == NextOf(order, if j + 1 == i then i else j)
  {
    assert NoRepeat(order);
    hide Threaded, Unhook, NoRepeat, LinksIn;
    SlotLinks(ns, order, head, tail, i);
    SlotLinks(ns, order, head, tail, j);
    Apart(order, i, j);
    UnhookAt(ns, order[i], order[j]);
    if i > 0 { Apart(order, i - 1, j); }
    if i + 1 < |order| { Apart(order, i + 1, j); }
  }

  lemma WithoutAt<T>(s: seq<T>, i: nat, k: nat)
    requires i < |s| && k < |s| - 1
    ensures |Without(s, i)| == |s| - 1 && Without(s, i)[k] == s[if k < i then k else k + 1]
  {
  }

  lemma WithoutLinks(order: seq<nat>, i: nat, k: nat)
    requires i < |order| && k < |order| - 1
    ensures var j := if k < i then k else k + 1;
            && k < |Without(order, i)|
            && PrevOf(Without(order, i), k) == PrevOf(order, if j == i + 1 then i else j)
            && NextOf(Without(order, i), k) == NextOf(order, if j + 1 == i then i else j)
  {
    hide Without;
    WithoutAt(order, i, k);
    if k > 0 { WithoutAt(order, i, k - 1); }
    if k + 1 < |order| - 1 { WithoutAt(order, i, k + 1); }
  }

  lemma UnhookThreads(ns: seq<Node>, order: seq<nat>, head: nat, tail: nat, i: nat, head': nat, tail': nat)
    requires Threaded(ns, order, head, tail) && |ns| < NONE && i < |order|
    requires order[i] < |ns| && LinksIn(ns[order[i]], |ns|)
    requires head' == if ns[order[i]].prev != NONE then head else ns[order[i]].next
    requires tail' == if ns[order[i]].next != NONE then tail else ns[order[i]].prev
    ensures Threaded(Unhook(ns, order[i]), Without(order, i), head', tail')
    ensures var n := Unhook(ns, order[i])[order[i]]; n.prev == n.next == NONE
  {
    hide Unhook, LinksIn, NoRepeat, Without;
    var ns', order' := Unhook(ns, order[i]), Without(order, i);
    assert |order'| == |order| - 1 by { WithoutLength(order, i); }
    forall k | 0 <= k < |order'|
      ensures order'[k] < |ns'| && ns'[order'[k]].prev == PrevOf(order', k) && ns'[order'[k]].next == NextOf(order', k)
    {
      var j := if k < i then k else k + 1;
      WithoutAt(order, i, k);
      UnhookLinks(ns, order, head, tail, i, j);
      WithoutLinks(order, i, k);
    }
    WithoutNoRepeat(order, i);
    WithoutEnds(ns, order, head, tail, i);
    UnhookedAlone(ns, order[i]);
  }

  lemma WithoutOne<T>(s: seq<T>, i: nat)
    requires i < |s|
    ensures forall x <- Without(s, i) :: x in s
  {
  }

  lemma WithoutLength<T>(s: seq<T>, i: nat)
    requires i < |s|
    ensures |Without(s, i)| == |s| - 1
  {
  }

  lemma EndsOf(ns: seq<Node>, order: seq<nat>, head: nat, tail: nat)
    requires Threaded(ns, order, head, tail)
    ensures order != [] ==> head == order[0] && tail == order[|order| - 1]
  {
  }

  lemma WithoutEnds(ns: seq<Node>, order: seq<nat>, head: nat, tail: nat, i: nat)
    requires Threaded(ns, order, head, tail) && |ns| < NONE && i < |order| && order[i] < |ns|
    ensures var rest := Without(order, i);
            && (if ns[order[i]].prev != NONE then head else ns[order[i]].next) == (if rest == [] then NONE else rest[0])
            && (if ns[order[i]].next != NONE then tail else ns[order[i]].prev)
                == (if rest == [] then NONE else rest[|rest| - 1])
  {
    hide Threaded, Without, NoRepeat;
    WithoutLength(order, i);
    EndsOf(ns, order, head, tail);
    SlotLinks(ns, order, head, tail, i);
    if |order| > 1 {
      WithoutAt(order, i, 0);
      WithoutAt(order, i, |order| - 2);
    }
  }

  lemma UnhookedAlone(ns: seq<Node>, idx: nat)
    requires idx < |ns| && LinksIn(ns[idx], |ns|)
    ensures var n := Unhook(ns, idx)[idx]; n.prev == n.next == NONE
  {
  }

  lemma HookAt(ns: seq<Node>, idx: nat, head: nat, at: nat)
    requires idx < |ns| && (head != NONE ==> head < |ns| && head != idx) && at < |ns|
    ensures var m := HookFront(ns, idx, head)[at];
            && m.next == (if at == idx then head else ns[at].next)
            && m.prev == (if at == idx then NONE else if head != NONE && at == head then idx else ns[at].prev)
  {
  }

  lemma HookLinks(ns: seq<Node>, order: seq<nat>, head: nat, tail: nat, idx: nat, k: nat)
    requires Threaded(ns, order, head, tail) && |ns| < NONE && idx < |ns| && idx !in order && k <= |order|
    requires head != NONE ==> head < |ns|
    ensures var ns', order' := HookFront(ns, idx, head), [idx] + order;
            order'[k] < |ns| && ns'[order'[k]].prev == PrevOf(order', k) && ns'[order'[k]].next == NextOf(order', k)
  {
    assert NoRepeat(order) && head == if order == [] then NONE else order[0];
    hide Threaded, HookFront, NoRepeat;
    HookAt(ns, idx, head, ([idx] + order)[k]);
    if k > 0 {
      SlotLinks(ns, order, head, tail, k - 1);
      Apart(order, 0, k - 1);
    }
  }

  lemma HookThreads(ns: seq<Node>, order: seq<nat>, head: nat, tail: nat, idx: nat)
    requires Threaded(ns, order, head, tail) && |ns| < NONE && idx < |ns| && idx !in order
    ensures head != NONE ==> head < |ns|
    ensures Threaded(HookFront(ns, idx, head), [idx] + order, idx, if tail == NONE then idx else tail)
  {
    hide HookFront, PrevOf, NextOf;
    var ns', order' := HookFront(ns, idx, head), [idx] + order;
    forall k | 0 <= k < |order'|
      ensures order'[k] < |ns'| && ns'[order'[k]].prev == PrevOf(order', k) && ns'[order'[k]].next == NextOf(order', k)
    {
      HookLinks(ns, order, head, tail, idx, k);
    }
    PrependNoRepeat(order, idx);
  }

  lemma PrependNoRepeat(order: seq<nat>, idx: nat)
    requires NoRepeat(order) && idx !in order
    ensures NoRepeat([idx] + order)
  {
  }

  // ---------------------------------------------------------------- entries and index

  lemma SameEntriesOf(ns: seq<Node>, ns': seq<Node>, order: seq<nat>)
    requires SameEntries(ns, ns') && forall i | 0 <= i < |order| :: order[i] < |ns|
    ensures EntriesOf(ns', order) == EntriesOf(ns, order)
  {
  }

  lemma EntriesWithout(ns: seq<Node>, order: seq<nat>, i: nat)
    requires i < |order| && forall k | 0 <= k < |order| :: order[k] < |ns|
    ensures forall k | 0 <= k < |Without(order, i)| :: Without(order, i)[k] < |ns|
    ensures EntriesOf(ns, Without(order, i)) == Without(EntriesOf(ns, order), i)
  {
  }

  lemma EntriesPrepend(ns: seq<Node>, order: seq<nat>, idx: nat)
    requires idx < |ns| && forall k | 0 <= k < |order| :: order[k] < |ns|
    ensures forall k | 0 <= k < |[idx] + order| :: ([idx] + order)[k] < |ns|
    ensures EntriesOf(ns, [idx] + order) == [ns[idx].entry] + EntriesOf(ns, order)
  {
  }

  /** Changing an entry outside the list changes none in it. */
  lemma EntriesOutside(ns: seq<Node>, order: seq<nat>, idx: nat, n: Node)
    requires idx < |ns| && idx !in order && forall k | 0 <= k < |order| :: order[k] < |ns|
    ensures EntriesOf(ns[idx := n], order) == EntriesOf(ns, order)
  {
    forall k | 0 <= k < |order| ensures ns[idx := n][order[k]] == ns[order[k]] {
      assert order[k] in order;
    }
  }

  /** Where the index finds a key is where the list holds it. */
  lemma Locate(ns: seq<Node>, order: seq<nat>, index: map<Ip, nat>, key: Ip) returns (i: nat)
    requires Indexed(ns, order, index) && key in index
    ensures i < |order| && order[i] == index[key] && IndexOf(EntriesOf(ns, order), key) == i
  {
    i :| 0 <= i < |order| && order[i] == index[key];
    var es := EntriesOf(ns, order);
    assert es[i].key == key;
    var j := IndexOf(es, key);
    IndexOfWithin(es, key, i);
    assert es[j].key == key && order[j] == index[es[j].key];
    EntryAt(ns, order, index, j);
    EntryAt(ns, order, index, i);
    i := j;
  }

  lemma IndexOfWithin(es: seq<Entry>, key: Ip, i: nat)
    requires i < |es| && es[i].key == key
    ensures IndexOf(es, key) <= i
  {
    var j := IndexOf(es, key);
    assert es[i].key == key;
  }

  lemma EntryAt(ns: seq<Node>, order: seq<nat>, index: map<Ip, nat>, i: nat)
    requires Indexed(ns, order, index) && i < |order|
    ensures EntriesOf(ns, order)[i].key in index && index[EntriesOf(ns, order)[i].key] == order[i]
  {
  }

  lemma NotTracked(ns: seq<Node>, order: seq<nat>, index: map<Ip, nat>, key: Ip)
    requires Indexed(ns, order, index) && key !in index
    ensures IndexOf(EntriesOf(ns, order), key) == |order|
  {
    var i := IndexOf(EntriesOf(ns, order), key);
    if i < |order| {
      EntryAt(ns, order, index, i);
      assert false;
    }
  }

  lemma IndexedDrop(ns: seq<Node>, ns': seq<Node>, order: seq<nat>, index: map<Ip, nat>, i: nat)
    requires Indexed(ns, order, index) && NoRepeat(order) && SameEntries(ns, ns') && i < |order|
    ensures Indexed(ns', Without(order, i), index - {ns[order[i]].entry.key})
  {
    var rest, index' := Without(order, i), index - {ns[order[i]].entry.key};
    forall k | 0 <= k < |rest|
      ensures rest[k] < |ns'| && ns'[rest[k]].entry.key in index' && index'[ns'[rest[k]].entry.key] == rest[k]
    {
      var j := if k < i then k else k + 1;
      Apart(order, i, j);
      assert rest[k] == order[j];
    }
    forall key <- index' ensures index'[key] in rest && index'[key] < |ns'| && ns'[index'[key]].entry.key == key {
      var j: nat :| j < |order| && order[j] == index[key];
      assert j != i;
      assert rest[if j < i then j else j - 1] == order[j];
    }
  }

  lemma IndexedAdd(ns: seq<Node>, ns': seq<Node>, order: seq<nat>, index: map<Ip, nat>, idx: nat, key: Ip)
    requires Indexed(ns, order, index) && idx < |ns| == |ns'| && idx !in order && key !in index
    requires ns'[idx].entry.key == key && forall i | 0 <= i < |ns| && i != idx :: ns'[i].entry == ns[i].entry
    ensures Indexed(ns', [idx] + order, index[key := idx])
  {
    var order', index' := [idx] + order, index[key := idx];
    forall k | 0 <= k < |order'|
      ensures order'[k] < |ns'| && ns'[order'[k]].entry.key in index' && index'[ns'[order'[k]].entry.key] == order'[k]
    {
      if k > 0 {
        assert order'[k] == order[k - 1] && order[k - 1] in order;
      }
    }
    forall other <- index' ensures index'[other] in order' && index'[other] < |ns'|
        && ns'[index'[other]].entry.key == other {
      if other != key {
        assert index[other] in order;
      }
    }
  }

  lemma ToFrontAt<T>(s: seq<T>, i: nat, k: nat)
    requires i < |s| && k < |s|
    ensures |ToFront(s, i)| == |s| && ToFront(s, i)[k] == s[if k == 0 then i else if k <= i then k - 1 else k]
  {
  }

  lemma ToFrontHas<T>(s: seq<T>, i: nat, x: T)
    requires i < |s|
    ensures x in ToFront(s, i) <==> x in s
  {
    if x in s {
      var j :| 0 <= j < |s| && s[j] == x;
      ToFrontAt(s, i, if j == i then 0 else if j < i then j + 1 else j);
    }
    if x in ToFront(s, i) {
      var k :| 0 <= k < |ToFront(s, i)| && ToFront(s, i)[k] == x;
      ToFrontAt(s, i, k);
    }
  }

  lemma IndexedTouch(ns: seq<Node>, ns': seq<Node>, order: seq<nat>, index: map<Ip, nat>, i: nat)
    requires Indexed(ns, order, index) && SameEntries(ns, ns') && i < |order|
    ensures Indexed(ns', ToFront(order, i), index)
  {
    hide ToFront;
    var order' := ToFront(order, i);
    forall k | 0 <= k < |order'| ensures order'[k] in order {
      ToFrontHas(order, i, order'[k]);
    }
    forall s <- order ensures s in order' {
      ToFrontHas(order, i, s);
    }
  }

  lemma EntriesTouch(ns: seq<Node>, ns': seq<Node>, order: seq<nat>, i: nat)
    requires SameEntries(ns, ns') && i < |order| && forall k | 0 <= k < |order| :: order[k] < |ns|
    ensures |ToFront(order, i)| == |order| && forall k | 0 <= k < |order| :: ToFront(order, i)[k] < |ns'|
    ensures EntriesOf(ns', ToFront(order, i)) == ToFront(EntriesOf(ns, order), i)
  {
    var es := EntriesOf(ns, order);
    forall k | 0 <= k < |order|
      ensures |ToFront(order, i)| == |ToFront(es, i)| == |order| && ToFront(order, i)[k] < |ns'|
      ensures ns'[ToFront(order, i)[k]].entry == ToFront(es, i)[k]
    {
      ToFrontAt(order, i, k);
      ToFrontAt(es, i, k);
    }
    ToFrontAt(order, i, 0);
    ToFrontAt(es, i, 0);
    assert forall k | 0 <= k < |order| :: EntriesOf(ns', ToFront(order, i))[k] == ToFront(es, i)[k];
  }

  /** The last idle entry is the only one that is idle with none idle behind it. */
  lemma LastIdleIs(es: seq<Entry>, i: int)
    requires -1 <= i < |es| && (i >= 0 ==> es[i].refCount == 0) && forall j | i < j < |es| :: es[j].refCount > 0
    ensures LastIdle(es) == i
  {
    var v := LastIdle(es);
    assert v >= 0 ==> es[v].refCount == 0;
    assert i >= 0 ==> es[i].refCount == 0;
  }

  // ---------------------------------------------------------------- slots in use

  lemma {:induction false} SlotCount(taken: set<nat>, n: nat)
    requires forall s <- taken :: s < n
    ensures |taken| <= n && (|taken| == n ==> forall s | 0 <= s < n :: s in taken)
    ensures (forall s | 0 <= s < n :: s in taken) ==> |taken| == n
    decreases n
  {
    if n == 0 {
      assert taken == {};
    } else {
      SlotCount(taken - {n - 1}, n - 1);
      if n - 1 in taken {
        assert |taken - {n - 1}| == |taken| - 1;
        if |taken| == n {
          forall s | 0 <= s < n ensures s in taken {
            assert s < n - 1 ==> s in taken - {n - 1};
          }
        }
      } else {
        assert taken - {n - 1} == taken;
      }
    }
  }

  class RequestRateLimiter {
    const cfg: Config
    const normalize: Ip -> Ip
    const pool: array<Node>
    var taken: set<nat>
    var index: map<Ip, nat>
    var head: nat
    var tail: nat
    ghost var order: seq<nat>

    ghost predicate Linked()
      reads this, pool
    {
      pool.Length < NONE && Threaded(pool[..], order, head, tail)
    }

    ghost predicate Valid()
      reads this, pool
    {
      && Sane(cfg) && Linked() && Indexed(pool[..], order, index)
      && (forall s <- taken :: s < pool.Length) && forall s <- order :: s in taken
    }

    ghost function Contents(): Lru
      requires Valid()
      reads this, pool
    {
      Lru(EntriesOf(pool[..], order), if pool.Length > |taken| then pool.Length - |taken| else 0)
    }

    /** Unhooks the slot at position i of the list. */
    method Unlink(idx: nat, ghost i: nat)
      requires Linked() && i < |order| && order[i] == idx
      modifies pool, this`head, this`tail, this`order
      ensures Linked() && order == Without(old(order), i) && SameEntries(old(pool[..]), pool[..])
      ensures pool[idx].prev == pool[idx].next == NONE
    {
      hide Threaded;
      ghost var before := pool[..];
      SlotLinks(before, order, head, tail, i);
      ghost var h, t := head, tail;
      var node := pool[idx];
      if node.prev != NONE {
        pool[node.prev] := pool[node.prev].(next := node.next);
      } else {
        head := node.next;
      }
      if node.next != NONE {
        pool[node.next] := pool[node.next].(prev := node.prev);
      } else {
        tail := node.prev;
      }
      pool[idx] := pool[idx].(prev := NONE, next := NONE);
      assert pool[..] == Unhook(before, idx);
      UnhookThreads(before, order, h, t, i, head, tail);
      order := Without(order, i);
    }

    /** Hooks a slot in at the front. */
    method LinkFront(idx: nat)
      requires Linked() && idx !in order && idx < pool.Length
      modifies pool, this`head, this`tail, this`order
      ensures Linked() && order == [idx] + old(order) && SameEntries(old(pool[..]), pool[..])
    {
      hide Threaded;
      ghost var before := pool[..];
      HookThreads(before, order, head, tail, idx);
      ghost var h := head;
      pool[idx] := pool[idx].(prev := NONE, next := head);
      if head != NONE {
        pool[head] := pool[head].(prev := idx);
      }
      head := idx;
      if tail == NONE {
        tail := idx;
      }
      assert pool[..] == HookFront(before, idx, h);
      order := [idx] + order;
    }

    /** Moves a slot to the front. */
    method Touch(idx: nat, ghost i: nat)
      requires Linked() && i < |order| && order[i] == idx
      modifies pool, this`head, this`tail, this`order
      ensures Linked() && order == ToFront(old(order), i) && SameEntries(old(pool[..]), pool[..])
    {
      if idx == head {
        assert i == 0;
        assert order == ToFront(order, 0);
        return;
      }
      Unlink(idx, i);
      LinkFront(idx);
    }

    /** A slot that is not in use, NONE when every slot is. */
    method AllocSlot() returns (idx: nat)
      requires Valid()
      modifies this`taken
      ensures Valid()
      ensures idx == NONE ==> Contents().free == 0 && taken == old(taken)
      ensures idx != NONE ==> idx < pool.Length && idx !in old(taken) && taken == old(taken) + {idx}
      ensures idx != NONE ==> |taken| == |old(taken)| + 1 && |taken| <= pool.Length
    {
      hide Threaded, Indexed, EntriesOf;
      SlotCount(taken, pool.Length);
      idx := 0;
      while idx < pool.Length && idx in taken
        invariant idx <= pool.Length && forall s | 0 <= s < idx :: s in taken
      {
        idx := idx + 1;
      }
      if idx == pool.Length {
        return NONE;
      }
      taken := taken + {idx};
      SlotCount(taken, pool.Length);
    }

    /** The slot touched longest ago that no connection holds, with its place in the list. */
    method FindVictim() returns (victim: nat, ghost i: int)
      requires Valid()
      ensures i == LastIdle(Contents().entries)
      ensures if i < 0 then victim == NONE else i < |order| && victim == order[i] && victim != NONE
    {
      hide Indexed, Threaded, LastIdle;
      ListEnds();
      victim := tail;
      i := |order| - 1;
      while victim != NONE && pool[victim].entry.refCount > 0
        invariant -1 <= i < |order|
        invariant if i < 0 then victim == NONE else victim == order[i] && victim != NONE && victim < pool.Length
        invariant forall j | i < j < |order| :: Contents().entries[j].refCount > 0
        decreases i
      {
        SlotLinks(pool[..], order, head, tail, i);
        victim := pool[victim].prev;
        i := i - 1;
        if i >= 0 { SlotLinks(pool[..], order, head, tail, i); }
      }
      LastIdleIs(Contents().entries, i);
    }

    lemma ListEnds()
      requires Linked()
      ensures order == [] ==> tail == NONE
      ensures order != [] ==> tail == order[|order| - 1] && tail < pool.Length && tail != NONE
      ensures order != [] ==> head == order[0] && head < pool.Length && head != NONE
    {
    }

    ghost function Entries(): seq<Entry>
      requires Valid()
      reads this, pool
    {
      EntriesOf(pool[..], order)
    }

    /** Moves a tracked identity to the front. */
    method TouchKey(key: Ip) returns (idx: nat, ghost i: nat)
      requires Valid() && key in index
      modifies pool, this`head, this`tail, this`order
      ensures Valid() && i == IndexOf(old(Entries()), key) < |old(order)| && idx == index[key]
      ensures Entries() == ToFront(old(Entries()), i)
      ensures order != [] && order[0] == idx
    {
      hide Threaded, Indexed, EntriesOf, SameEntries, ToFront;
      ghost var ns, o := pool[..], order;
      ThreadedParts(ns, o, head, tail);
      i := Locate(ns, o, index, key);
      idx := index[key];
      Touch(idx, i);
      IndexedTouch(ns, pool[..], o, index, i);
      EntriesTouch(ns, pool[..], o, i);
      ToFrontAt(o, i, 0);
      forall s <- order ensures s in taken {
        ToFrontHas(o, i, s);
      }
    }

    /** Forgets the identity at position i of the list; its slot stays in use. */
    method Evict(idx: nat, ghost i: nat)
      requires Valid() && i < |order| && order[i] == idx
      modifies pool, this`head, this`tail, this`order, this`index
      ensures Valid() && Entries() == Without(old(Entries()), i) && order == Without(old(order), i)
      ensures index == old(index) - {old(pool[idx].entry.key)}
    {
      hide Threaded, Indexed, EntriesOf, SameEntries, Without;
      ghost var ns, o := pool[..], order;
      ThreadedParts(ns, o, head, tail);
      WithoutOne(o, i);
      var key := pool[idx].entry.key;
      Unlink(idx, i);
      index := index - {key};
      IndexedDrop(ns, pool[..], o, old(index), i);
      EntriesWithout(ns, o, i);
      SameEntriesOf(ns, pool[..], order);
    }

    /** Puts a new identity into a slot outside the list. When the index cannot take its key nothing
        changes, and the slot stays taken outside the list: it is lost. */
    method Track(key: Ip, idx: nat, insertOk: bool, now: int) returns (ok: bool)
      requires Valid() && idx in taken && idx !in order && key !in index
      modifies pool, this`head, this`tail, this`order, this`index
      ensures Valid() && ok == insertOk
      ensures Entries() == (if ok then [Entry(key, 0, Bucket(0, now))] else []) + old(Entries())
      ensures ok ==> order == [idx] + old(order)
      ensures !ok ==> idx in taken && idx !in order && order == old(order) && index == old(index)
    {
      hide Threaded, Indexed, EntriesOf;
      if !insertOk {
        assert [] + Entries() == Entries();
        return false;
      }
      ghost var ns := pool[..];
      index := index[key := idx];
      pool[idx] := pool[idx].(entry := Entry(key, 0, Bucket(0, now)));
      StillThreaded(ns, pool[..], order, head, tail);
      EntriesOutside(ns, order, idx, pool[idx]);
      ghost var ns1 := pool[..];
      assert ns1 == ns[idx := pool[idx]];
      LinkFront(idx);
      EntriesPrepend(ns1, old(order), idx);
      SameEntriesOf(ns1, pool[..], order);
      IndexedAdd(ns, pool[..], old(order), old(index), idx, key);
      return true;
    }

    /** A slot for an identity not tracked so far: an unused one or the victim's. */
    method TakeSlot() returns (idx: nat)
      requires Valid()
      modifies this, pool
      ensures Valid() && (idx != NONE ==> idx in taken && idx !in order) && forall k <- index :: k in old(index)
      ensures var l, v := old(Contents()), LastIdle(old(Entries()));
              && (idx == NONE <==> l.free == 0 && v < 0)
              && (idx == NONE ==> Contents() == l)
              && (idx != NONE && l.free > 0 ==> Contents() == Lru(l.entries, l.free - 1))
              && (idx != NONE && l.free == 0 ==> Contents() == Lru(Without(l.entries, v), 0))
    {
      hide Threaded, Indexed, EntriesOf, SameEntries, ToFront, LastIdle, Without;
      idx := AllocSlot();
      if idx == NONE {
        ghost var v;
        idx, v := FindVictim();
        if idx == NONE {
          return;
        }
        ThreadedParts(pool[..], order, head, tail);
        WithoutNoRepeat(order, v);
        Evict(idx, v);
      }
    }

    /** Finds an identity or tracks it; NONE when every tracked identity has a connection open, or
        when the index cannot take the key. */
    method FindOrCreate(ip: Ip, insertOk: bool, now: int) returns (idx: nat, wasCreated: bool)
      requires Valid()
      modifies this, pool
      ensures Valid()
      ensures var r := LimiterSpec.FindOrCreate(old(Contents()), normalize(ip), insertOk, now);
              && Contents() == r.0
              && r.1 == (if idx == NONE then Missing else if wasCreated then Created else Existing)
      ensures idx != NONE ==> order != [] && order[0] == idx
    {
      hide Threaded, Indexed, EntriesOf, SameEntries, ToFront, IndexOf, LastIdle, Without;
      var key := normalize(ip);
      wasCreated := false;
      if key in index {
        ghost var i;
        idx, i := TouchKey(key);
        assert idx in taken;
        return;
      }
      NotTracked(pool[..], order, index, key);
      idx := TakeSlot();
      if idx == NONE {
        return;
      }
      wasCreated := Track(key, idx, insertOk, now);
      if !wasCreated {
        assert [] + Entries() == Entries();
        idx := NONE;
      }
    }

    /** Overwrites a tracked entry, keeping its key. */
    method SetEntry(idx: nat, e: Entry, ghost i: nat)
      requires Valid() && i < |order| && order[i] == idx && e.key == Entries()[i].key
      modifies pool
      ensures Valid() && Entries() == old(Entries())[i := e]
    {
      hide Threaded, Indexed, EntriesOf;
      ghost var ns := pool[..];
      ThreadedParts(ns, order, head, tail);
      EntrySlot(ns, order, i);
      pool[idx] := pool[idx].(entry := e);
      assert pool[..] == ns[idx := ns[idx].(entry := e)];
      EntriesUpdate(ns, order, index, i, e);
      StillThreaded(ns, pool[..], order, head, tail);
    }

    lemma SlotEntry(i: nat)
      requires Valid() && i < |order|
      ensures order[i] < pool.Length && Entries()[i] == pool[order[i]].entry
    {
    }

    constructor (cfg: Config, normalize: Ip -> Ip, capacity: nat)
      requires Sane(cfg) && capacity < NONE
      ensures Valid() && fresh(pool) && Contents() == Lru([], capacity) && this.cfg == cfg
              && this.normalize == normalize
    {
      this.cfg, this.normalize := cfg, normalize;
      pool := new Node[capacity](_ => Node(Entry(Ip(0, [], 0), 0, Bucket(0, 0)), NONE, NONE));
      taken, index, head, tail, order := {}, map[], NONE, NONE, [];
    }

    /** Counts one more connection on an identity. */
    method Acquire(ip: Ip, insertOk: bool, now: int) returns (ok: bool)
      requires Valid()
      modifies this, pool
      ensures Valid() && (Contents(), ok) == LimiterSpec.Acquire(cfg, old(Contents()), normalize(ip), insertOk, now)
    {
      hide Threaded, Indexed, EntriesOf, SameEntries, ToFront, LimiterSpec.FindOrCreate;
      var idx, wasCreated := FindOrCreate(ip, insertOk, now);
      if idx == NONE {
        return false;
      }
      SlotEntry(0);
      FoundInFront(old(Contents()), normalize(ip), insertOk, now);
      var e := pool[idx].entry;
      if wasCreated {
        e := e.(bucket := e.bucket.(tokens := cfg.burst));
      }
      FrontSet(Entries(), e.(refCount := e.refCount + 1));
      SetEntry(idx, e.(refCount := e.refCount + 1), 0);
      return true;
    }

    /** Refills a bucket by the whole tokens its time is worth, and spends one if there is one. */
    method Spend(b: Bucket, now: int) returns (bucket: Bucket, ok: bool)
      requires Sane(cfg)
      ensures (bucket, ok) == TakeToken(cfg, b, now)
    {
      bucket := b;
      var elapsedMs := if now > bucket.lastRefill then (now - bucket.lastRefill) / cfg.ticksPerMs else 0;
      var refill := (elapsedMs * cfg.rate) % U64 / 1000;
      if refill > 0 {
        bucket := Bucket(Min(cfg.burst, (bucket.tokens + refill % U32) % U32), now);
      }
      ok := bucket.tokens > 0;
      if ok {
        bucket := bucket.(tokens := bucket.tokens - 1);
      }
      TakeTokenIs(cfg, b, now);
    }

    /** Lets a request of a tracked identity pass if its bucket has a token. */
    method AllowRequest(ip: Ip, now: int) returns (ok: bool)
      requires Valid()
      modifies this, pool
      ensures Valid() && (Contents(), ok) == LimiterSpec.AllowRequest(cfg, old(Contents()), normalize(ip), now)
    {
      hide Threaded, Indexed, EntriesOf, SameEntries, TakeToken;
      var key := normalize(ip);
      if key !in index {
        NotTracked(pool[..], order, index, key);
        return false;
      }
      var idx;
      ghost var i;
      idx, i := TouchKey(key);
      SlotEntry(0);
      var e := pool[idx].entry;
      var bucket;
      bucket, ok := Spend(e.bucket, now);
      FrontSet(Entries(), e.(bucket := bucket));
      ToFrontAt(old(Entries()), i, 0);
      SetEntry(idx, e.(bucket := bucket), 0);
    }

    /** Counts one connection less on a tracked identity. */
    method Release(ip: Ip)
      requires Valid()
      modifies pool
      ensures Valid() && Contents() == LimiterSpec.Release(old(Contents()), normalize(ip))
    {
      hide Threaded, Indexed, EntriesOf, SameEntries;
      var key := normalize(ip);
      if key !in index {
        NotTracked(pool[..], order, index, key);
        return;
      }
      ghost var i := Locate(pool[..], order, index, key);
      SlotEntry(i);
      var idx := index[key];
      var e := pool[idx].entry;
      SetEntry(idx, e.(refCount := if e.refCount > 0 then e.refCount - 1 else 0), i);
    }
  }

  lemma FrontSet(es: seq<Entry>, e: Entry)
    requires es != []
    ensures es[0 := e] == [e] + es[1..]
  {
  }

  lemma EntrySlot(ns: seq<Node>, order: seq<nat>, i: nat)
    requires i < |order| && forall k | 0 <= k < |order| :: order[k] < |ns|
    ensures EntriesOf(ns, order)[i] == ns[order[i]].entry
  {
  }

  lemma EntriesUpdate(ns: seq<Node>, order: seq<nat>, index: map<Ip, nat>, i: nat, e: Entry)
    requires NoRepeat(order) && Indexed(ns, order, index) && i < |order| && e.key == ns[order[i]].entry.key
    ensures var ns' := ns[order[i] := ns[order[i]].(entry := e)];
            Indexed(ns', order, index) && EntriesOf(ns', order) == EntriesOf(ns, order)[i := e]
  {
    var ns' := ns[order[i] := ns[order[i]].(entry := e)];
    forall k | 0 <= k < |order| ensures ns'[order[k]].entry == (if k == i then e else ns[order[k]].entry) {
      Apart(order, i, k);
    }
  }

  lemma TakeTokenIs(cfg: Config, b: Bucket, now: int)
    requires Sane(cfg)
    ensures var elapsedMs := if now > b.lastRefill then (now - b.lastRefill) / cfg.ticksPerMs else 0;
            var refill := (elapsedMs * cfg.rate) % U64 / 1000;
            var b' := if refill > 0 then Bucket(Min(cfg.burst, (b.tokens + refill % U32) % U32), now) else b;
            TakeToken(cfg, b, now) == if b'.tokens > 0 then (b'.(tokens := b'.tokens - 1), true) else (b', false)
  {
  }

  lemma ThreadedParts(ns: seq<Node>, order: seq<nat>, head: nat, tail: nat)
    requires Threaded(ns, order, head, tail)
    ensures NoRepeat(order) && forall i | 0 <= i < |order| :: order[i] < |ns|
  {
  }

  lemma StillThreaded(ns: seq<Node>, ns': seq<Node>, order: seq<nat>, head: nat, tail: nat)
    requires Threaded(ns, order, head, tail) && |ns| == |ns'|
    requires forall i | 0 <= i < |ns| :: ns'[i].prev == ns[i].prev && ns'[i].next == ns[i].next
    ensures Threaded(ns', order, head, tail)
  {
  }
}
