/** Identical requests in flight on one endpoint share one connection: the first is served, the
    others wait for its outcome. */
module EndpointCoalescing {
  import opened Helpers

  const NO_SLOT := 0xFFFF_FFFF

  /** A client's request: the client's slot and the generation it had when it asked. */
  datatype Ticket = Ticket(client: nat, generationId: nat)

  /** What a connection slot is doing; the client is gone when it gave up on a request already sent. */
  datatype Work = Idle | Serving(client: Option<Ticket>, coalesceKey: nat)

  datatype Entry = Entry(inflight: nat, waiters: seq<Ticket>)

  type Pending = map<nat, Entry>

  /** A suspended request is resumed with success or failure. */
  datatype Wake = Wake(ticket: Ticket, success: bool)

  datatype SendResult = Parked | Started | PoolExhausted | Failed

  // ---------------------------------------------------------------- tickets

  function Woken(wakes: seq<Wake>): multiset<Ticket> {
    if wakes == [] then multiset{} else multiset{wakes[0].ticket} + Woken(wakes[1..])
  }

  lemma {:induction false} WokenJoin(a: seq<Wake>, b: seq<Wake>)
    ensures Woken(a + b) == Woken(a) + Woken(b)
  {
    if a == [] {
      assert a + b == b;
    } else {
      assert (a + b)[1..] == a[1..] + b;
      WokenJoin(a[1..], b);
    }
  }

  predicate Current(generations: seq<nat>, t: Ticket) {
    t.client < |generations| && generations[t.client] == t.generationId
  }

  /** The wakes due to a list of waiters: those still connected, in order. */
  function WakesFor(ts: seq<Ticket>, generations: seq<nat>, outcome: Ticket -> bool): seq<Wake> {
    if ts == [] then []
    else
      (if Current(generations, ts[0]) then [Wake(ts[0], outcome(ts[0]))] else [])
        + WakesFor(ts[1..], generations, outcome)
  }

  /** The waiters whose client has left. */
  function Stale(ts: seq<Ticket>, generations: seq<nat>): multiset<Ticket> {
    if ts == [] then multiset{}
    else (if Current(generations, ts[0]) then multiset{} else multiset{ts[0]}) + Stale(ts[1..], generations)
  }

  /** Every waiter is either woken or has left. */
  lemma {:induction false} WaitersSettled(ts: seq<Ticket>, generations: seq<nat>, outcome: Ticket -> bool)
    ensures Woken(WakesFor(ts, generations, outcome)) + Stale(ts, generations) == multiset(ts)
    ensures forall t <- Stale(ts, generations) :: !Current(generations, t)
    ensures forall w <- WakesFor(ts, generations, outcome) ::
            Current(generations, w.ticket) && w.success == outcome(w.ticket)
  {
    hide Woken, WakesFor, Stale, Current;
    if ts == [] {
      NoneSettled(generations, outcome);
    } else {
      WaitersSettled(ts[1..], generations, outcome);
      OneSettled(ts, generations, outcome);
      assert ts == [ts[0]] + ts[1..];
    }
  }

  /** The places of the waiters that have not left, all of them and in order. */
  ghost predicate Staying(ts: seq<Ticket>, generations: seq<nat>, at: seq<nat>) {
    && (forall k | 0 <= k < |at| :: at[k] < |ts|)
    && (forall j, k | 0 <= j < k < |at| :: at[j] < at[k])
    && forall i | 0 <= i < |ts| ::
         i in at <==> ts[i].client < |generations| && generations[ts[i].client] == ts[i].generationId
  }

  predicate WokenAt(ts: seq<Ticket>, outcome: Ticket -> bool, at: seq<nat>, wakes: seq<Wake>) {
    |wakes| == |at| && forall k | 0 <= k < |at| :: at[k] < |ts| && wakes[k] == Wake(ts[at[k]], outcome(ts[at[k]]))
  }

  /** The waiters woken are those that have not left, in the order in which they came. */
  lemma {:induction false} WakesInOrder(ts: seq<Ticket>, generations: seq<nat>, outcome: Ticket -> bool)
    returns (at: seq<nat>)
    ensures Staying(ts, generations, at) && WokenAt(ts, outcome, at, WakesFor(ts, generations, outcome))
    decreases |ts|
  {
    hide WakesFor, Stale, Woken, Current, Staying, WokenAt;
    NoneSettled(generations, outcome);
    if ts == [] {
      at := [];
      NobodyStays(generations, outcome);
    } else {
      var n := |ts| - 1;
      at := WakesInOrder(ts[..n], generations, outcome);
      assert ts == ts[..n] + [ts[n]];
      WakesForJoin(ts[..n], [ts[n]], generations, outcome);
      OneSettled([ts[n]], generations, outcome);
      assert [ts[n]][1..] == [];
      var wakes := WakesFor(ts[..n], generations, outcome);
      if Current(generations, ts[n]) {
        OneStays(ts, generations, outcome, at, wakes);
        at := at + [n];
        assert WakesFor([ts[n]], generations, outcome) == [Wake(ts[n], outcome(ts[n]))];
      } else {
        OneLeaves(ts, generations, outcome, at, wakes);
        assert wakes + [] == wakes;
      }
    }
  }

  lemma NobodyStays(generations: seq<nat>, outcome: Ticket -> bool)
    ensures Staying([], generations, []) && WokenAt([], outcome, [], [])
  {
  }

  lemma OneStays(ts: seq<Ticket>, generations: seq<nat>, outcome: Ticket -> bool, at: seq<nat>, wakes: seq<Wake>)
    requires ts != [] && Staying(ts[..|ts| - 1], generations, at) && WokenAt(ts[..|ts| - 1], outcome, at, wakes)
    requires Current(generations, ts[|ts| - 1])
    ensures Staying(ts, generations, at + [|ts| - 1])
    ensures WokenAt(ts, outcome, at + [|ts| - 1], wakes + [Wake(ts[|ts| - 1], outcome(ts[|ts| - 1]))])
  {
    var n := |ts| - 1;
    assert forall i | 0 <= i < n :: ts[..n][i] == ts[i];
  }

  lemma OneLeaves(ts: seq<Ticket>, generations: seq<nat>, outcome: Ticket -> bool, at: seq<nat>, wakes: seq<Wake>)
    requires ts != [] && Staying(ts[..|ts| - 1], generations, at) && WokenAt(ts[..|ts| - 1], outcome, at, wakes)
    requires !Current(generations, ts[|ts| - 1])
    ensures Staying(ts, generations, at) && WokenAt(ts, outcome, at, wakes)
  {
    var n := |ts| - 1;
    assert forall i | 0 <= i < n :: ts[..n][i] == ts[i];
  }

  lemma NoneSettled(generations: seq<nat>, outcome: Ticket -> bool)
    ensures WakesFor([], generations, outcome) == [] && Stale([], generations) == multiset{} && Woken([]) == multiset{}
  {
  }

  lemma OneSettled(ts: seq<Ticket>, generations: seq<nat>, outcome: Ticket -> bool)
    requires ts != []
    ensures var wakes, rest := WakesFor(ts, generations, outcome), WakesFor(ts[1..], generations, outcome);
            if Current(generations, ts[0]) then
              && wakes == [Wake(ts[0], outcome(ts[0]))] + rest && Woken(wakes) == multiset{ts[0]} + Woken(rest)
              && Stale(ts, generations) == Stale(ts[1..], generations)
            else wakes == rest && Stale(ts, generations) == multiset{ts[0]} + Stale(ts[1..], generations)
  {
    var wakes, rest := WakesFor(ts, generations, outcome), WakesFor(ts[1..], generations, outcome);
    if Current(generations, ts[0]) {
      assert wakes[1..] == rest;
    } else {
      assert wakes == rest;
    }
  }

  lemma {:induction false} WakesForJoin(a: seq<Ticket>, b: seq<Ticket>, generations: seq<nat>, outcome: Ticket -> bool)
    ensures WakesFor(a + b, generations, outcome) == WakesFor(a, generations, outcome)
            + WakesFor(b, generations, outcome)
  {
    hide WakesFor, Woken, Stale, Current;
    if a == [] {
      assert a + b == b;
      NoneSettled(generations, outcome);
    } else {
      assert (a + b)[1..] == a[1..] + b;
      WakesForJoin(a[1..], b, generations, outcome);
      OneSettled(a, generations, outcome);
      OneSettled(a + b, generations, outcome);
    }
  }

  function Waiters(pending: Pending, key: nat): seq<Ticket> {
    if key in pending then pending[key].waiters else []
  }

  /** The requests that depend on a slot: its own and those parked on its key. */
  function Depending(w: Work, pending: Pending): multiset<Ticket> {
    match w
    case Idle => multiset{}
    case Serving(client, key) =>
      (if client.Some? then multiset{client.value} else multiset{}) + multiset(Waiters(pending, key))
  }

  function AllDepending(works: seq<Work>, pending: Pending): multiset<Ticket> {
    if works == [] then multiset{} else Depending(works[0], pending) + AllDepending(works[1..], pending)
  }

  lemma AllDependingHead(works: seq<Work>, pending: Pending)
    requires works != []
    ensures AllDepending(works, pending) == Depending(works[0], pending) + AllDepending(works[1..], pending)
  {
  }

  lemma Rotate<T>(a: multiset<T>, b: multiset<T>, c: multiset<T>, d: multiset<T>, e: multiset<T>)
    ensures a + b + c == c + b + a
    ensures b + c == d + e ==> a + b + c == a + d + e
  {
    assert a + b + c == a + (b + c) && a + d + e == a + (d + e);
  }

  lemma {:induction false} DependingUpdate(works: seq<Work>, pending: Pending, i: nat, w: Work, pending': Pending)
    requires i < |works| && forall j | 0 <= j < |works| && j != i ::
            Depending(works[j], pending') == Depending(works[j], pending)
    ensures AllDepending(works[i := w], pending') + Depending(works[i], pending)
            == AllDepending(works, pending) + Depending(w, pending')
  {
    hide Depending, AllDepending;
    var rest := works[1..];
    AllDependingHead(works, pending);
    AllDependingHead(works[i := w], pending');
    if i == 0 {
      assert works[0 := w][1..] == rest;
      SameDepending(rest, pending, pending');
      Rotate(Depending(w, pending'), AllDepending(rest, pending), Depending(works[0], pending), multiset{}, multiset{});
    } else {
      assert works[i := w][1..] == rest[i - 1 := w];
      assert forall j | 0 <= j < |rest| && j != i - 1 :: rest[j] == works[j + 1];
      DependingUpdate(rest, pending, i - 1, w, pending');
      Rotate(Depending(works[0], pending), AllDepending(rest[i - 1 := w], pending'), Depending(works[i], pending),
             AllDepending(rest, pending), Depending(w, pending'));
    }
  }

  lemma {:induction false} SameDepending(works: seq<Work>, pending: Pending, pending': Pending)
    requires forall w <- works :: Depending(w, pending') == Depending(w, pending)
    ensures AllDepending(works, pending') == AllDepending(works, pending)
  {
    if works != [] {
      SameDepending(works[1..], pending, pending');
    }
  }

  lemma {:induction false} NoneDepending(works: seq<Work>, pending: Pending)
    requires forall w <- works :: w.Idle?
    ensures AllDepending(works, pending) == multiset{}
  {
    if works != [] {
      NoneDepending(works[1..], pending);
    }
  }

  /** An entry exists for a key exactly while one slot serves that key, and names that slot. */
  ghost predicate KeysMatch(works: seq<Work>, pending: Pending) {
    && (forall k <- pending :: k != 0 && pending[k].inflight < |works|
                               && works[pending[k].inflight].Serving? && works[pending[k].inflight].coalesceKey == k)
    && (forall i | 0 <= i < |works| && works[i].Serving? && works[i].coalesceKey != 0 ::
          works[i].coalesceKey in pending && pending[works[i].coalesceKey].inflight == i)
  }

  lemma OneSlotPerKey(works: seq<Work>, pending: Pending, key: nat)
    requires KeysMatch(works, pending) && key != 0
    ensures key in pending <==> exists i | 0 <= i < |works| :: works[i].Serving? && works[i].coalesceKey == key
    ensures forall i, j | 0 <= i < |works| && 0 <= j < |works| && works[i].Serving? && works[j].Serving?
                          && works[i].coalesceKey == works[j].coalesceKey == key :: i == j
  {
  }

  lemma KeysErase(works: seq<Work>, pending: Pending, i: nat)
    requires KeysMatch(works, pending) && i < |works| && works[i].Serving?
    ensures KeysMatch(works[i := Idle], pending - {works[i].coalesceKey})
    ensures forall j | 0 <= j < |works| && j != i ::
            Depending(works[j], pending - {works[i].coalesceKey}) == Depending(works[j], pending)
  {
    var key := works[i].coalesceKey;
    forall j | 0 <= j < |works| && j != i && works[j].Serving?
      ensures Waiters(pending - {key}, works[j].coalesceKey) == Waiters(pending, works[j].coalesceKey)
    {
      assert works[j].coalesceKey == key ==> key == 0;
    }
  }

  lemma KeysStart(works: seq<Work>, pending: Pending, i: nat, t: Ticket, key: nat)
    requires KeysMatch(works, pending) && i < |works| && works[i].Idle? && key !in pending
    ensures var pending' := if key == 0 then pending else pending[key := Entry(i, [])];
            && KeysMatch(works[i := Serving(Some(t), key)], pending')
            && (forall j | 0 <= j < |works| && j != i :: Depending(works[j], pending') == Depending(works[j], pending))
            && Depending(Serving(Some(t), key), pending') == multiset{t}
  {
  }

  lemma KeysPark(works: seq<Work>, pending: Pending, key: nat, t: Ticket)
    requires KeysMatch(works, pending) && key in pending
    ensures var e := pending[key]; var pending' := pending[key := e.(waiters := e.waiters + [t])];
            && KeysMatch(works, pending') && e.inflight < |works|
            && (forall j | 0 <= j < |works| && j != e.inflight ::
                Depending(works[j], pending') == Depending(works[j], pending))
            && Depending(works[e.inflight], pending') == Depending(works[e.inflight], pending) + multiset{t}
  {
    var e := pending[key];
    var i := e.inflight;
    assert multiset(e.waiters + [t]) == multiset(e.waiters) + multiset{t};
    forall j | 0 <= j < |works| && j != i && works[j].Serving? ensures works[j].coalesceKey != key {
      assert works[j].coalesceKey == key ==> j == i;
    }
  }

  lemma Grouped<T>(a: multiset<T>, b: multiset<T>, c: multiset<T>)
    ensures a + b + c == a + (b + c) && a + multiset{} == a
  {
  }

  function ClientWake(client: Option<Ticket>, success: bool): seq<Wake> {
    if client.Some? then [Wake(client.value, success)] else []
  }

  function ClientTicket(client: Option<Ticket>): multiset<Ticket> {
    if client.Some? then multiset{client.value} else multiset{}
  }

  /** The resumptions that end a slot's request. */
  function Answers(client: Option<Ticket>, waiters: seq<Ticket>, generations: seq<nat>, outcome: Ticket -> bool,
                   success: bool, clientFirst: bool): seq<Wake> {
    if clientFirst then ClientWake(client, success) + WakesFor(waiters, generations, outcome)
    else WakesFor(waiters, generations, outcome) + ClientWake(client, success)
  }

  /** They answer the slot's own client and every waiter that has not left. */
  lemma AnswersSettle(client: Option<Ticket>, waiters: seq<Ticket>, generations: seq<nat>, outcome: Ticket -> bool,
                      success: bool, clientFirst: bool)
    ensures Woken(Answers(client, waiters, generations, outcome, success, clientFirst)) + Stale(waiters, generations)
         == ClientTicket(client) + multiset(waiters)
  {
    var c, w := ClientWake(client, success), WakesFor(waiters, generations, outcome);
    hide WakesFor, Stale;
    WaitersSettled(waiters, generations, outcome);
    WokenJoin(c, w);
    WokenJoin(w, c);
    assert Woken(c) == ClientTicket(client) by {
      if client.Some? { assert c[1..] == []; }
    }
    Grouped(ClientTicket(client), Woken(w), Stale(waiters, generations));
    assert Woken(w) + ClientTicket(client) == ClientTicket(client) + Woken(w);
  }

  lemma Balance<T>(w: multiset<T>, a: multiset<T>, c: multiset<T>, ws: multiset<T>, d: multiset<T>, n: multiset<T>,
                   s: multiset<T>)
    requires n + s == c + ws
    ensures w + (a + c + ws) + d == w + n + a + (d + s)
  {
    assert w + (a + c + ws) + d == w + a + d + (c + ws);
    assert w + n + a + (d + s) == w + a + d + (n + s);
  }

  /** Everything that holds between steps: the keys name the slots that serve them; a request that
      was accepted has been answered, or waits for a slot's outcome, or its client has left; and
      nobody connected waits twice. */
  ghost predicate Books(works: seq<Work>, pending: Pending, generations: seq<nat>, wakes: seq<Wake>,
                        asked: multiset<Ticket>, dropped: multiset<Ticket>) {
    && |works| < NO_SLOT && KeysMatch(works, pending)
    && asked == Woken(wakes) + AllDepending(works, pending) + dropped
    && (forall t <- dropped :: !Current(generations, t))
    && (forall t <- asked :: t.client < |generations| && t.generationId <= generations[t.client])
    && (forall i | 0 <= i < |works| && works[i].Serving? && works[i].client.Some? ::
        Current(generations, works[i].client.value))
    && (forall t <- AllDepending(works, pending) | Current(generations, t) :: AllDepending(works, pending)[t] == 1)
  }

  lemma BooksEmpty(works: seq<Work>, generations: seq<nat>)
    requires |works| < NO_SLOT && forall w <- works :: w.Idle?
    ensures Books(works, map[], generations, [], multiset{}, multiset{})
  {
    hide AllDepending;
    NoneDepending(works, map[]);
    assert forall i | 0 <= i < |works| :: works[i] in works;
    assert AllDepending(works, map[]) == multiset{};
  }

  /** Of a connected client's requests every one has been answered once, but for at most one that
      is still waiting for a slot's outcome. */
  lemma AnsweredOnce(works: seq<Work>, pending: Pending, generations: seq<nat>, wakes: seq<Wake>,
                     asked: multiset<Ticket>, dropped: multiset<Ticket>, t: Ticket)
    requires Books(works, pending, generations, wakes, asked, dropped) && Current(generations, t)
    ensures asked[t] == Woken(wakes)[t] + if t in AllDepending(works, pending) then 1 else 0
  {
    assert t !in dropped;
  }

  /** A slot that ends its request: its client and its waiters no longer depend on it. */
  lemma SlotEnds(works: seq<Work>, pending: Pending, i: nat)
    requires KeysMatch(works, pending) && i < |works| && works[i].Serving?
    ensures var w := works[i];
            && KeysMatch(works[i := Idle], pending - {w.coalesceKey})
            && AllDepending(works[i := Idle], pending - {w.coalesceKey}) + ClientTicket(w.client)
                + multiset(Waiters(pending, w.coalesceKey))
               == AllDepending(works, pending)
  {
    hide KeysMatch, AllDepending;
    var w := works[i];
    KeysErase(works, pending, i);
    DependingUpdate(works, pending, i, Idle, pending - {w.coalesceKey});
    Grouped(AllDepending(works[i := Idle], pending - {w.coalesceKey}), ClientTicket(w.client),
            multiset(Waiters(pending, w.coalesceKey)));
  }

  /** Ending a slot's request with the answers due keeps the books. */
  lemma BooksSettle(works: seq<Work>, pending: Pending, generations: seq<nat>, wakes: seq<Wake>,
                    asked: multiset<Ticket>, dropped: multiset<Ticket>,
                    i: nat, outcome: Ticket -> bool, success: bool, clientFirst: bool)
    requires Books(works, pending, generations, wakes, asked, dropped) && i < |works| && works[i].Serving?
    ensures var waiters := Waiters(pending, works[i].coalesceKey);
            Books(works[i := Idle], pending - {works[i].coalesceKey}, generations,
                  wakes + Answers(works[i].client, waiters, generations, outcome, success, clientFirst), asked,
                      dropped + Stale(waiters, generations))
  {
    hide KeysMatch, AllDepending, WakesFor, Stale, Woken, Answers, Current;
    var client, waiters := works[i].client, Waiters(pending, works[i].coalesceKey);
    var works', pending' := works[i := Idle], pending - {works[i].coalesceKey};
    var answers := Answers(client, waiters, generations, outcome, success, clientFirst);
    SlotEnds(works, pending, i);
    AnswersSettle(client, waiters, generations, outcome, success, clientFirst);
    WokenJoin(wakes, answers);
    WaitersSettled(waiters, generations, outcome);
    Balance(Woken(wakes), AllDepending(works', pending'), ClientTicket(client), multiset(waiters), dropped,
            Woken(answers), Stale(waiters, generations));
    forall t <- AllDepending(works', pending') | Current(generations, t)
        ensures AllDepending(works', pending')[t] == 1 {
      assert AllDepending(works, pending)[t] >= AllDepending(works', pending')[t];
    }
  }

  /** A request that starts on an idle slot. */
  lemma BooksStart(works: seq<Work>, pending: Pending, generations: seq<nat>, wakes: seq<Wake>,
                   asked: multiset<Ticket>, dropped: multiset<Ticket>,
                   i: nat, t: Ticket, key: nat)
    requires Books(works, pending, generations, wakes, asked, dropped) && Current(generations, t)
            && t !in AllDepending(works, pending)
    requires i < |works| && works[i].Idle? && key !in pending
    ensures Books(works[i := Serving(Some(t), key)], if key == 0 then pending else pending[key := Entry(i, [])],
                  generations,
                  wakes, asked + multiset{t}, dropped)
  {
    hide KeysMatch, AllDepending, Woken, Depending;
    var works', pending' := works[i := Serving(Some(t), key)],
        if key == 0 then pending else pending[key := Entry(i, [])];
    KeysStart(works, pending, i, t, key);
    IdleDepends(pending);
    DependingUpdate(works, pending, i, Serving(Some(t), key), pending');
    OneMore(AllDepending(works', pending'), AllDepending(works, pending), Woken(wakes), dropped, t);
  }

  lemma IdleDepends(pending: Pending)
    ensures Depending(Idle, pending) == multiset{}
  {
  }

  /** A request that joins those waiting for its key. */
  lemma BooksPark(works: seq<Work>, pending: Pending, generations: seq<nat>, wakes: seq<Wake>, asked: multiset<Ticket>,
                  dropped: multiset<Ticket>,
                  t: Ticket, key: nat)
    requires Books(works, pending, generations, wakes, asked, dropped) && Current(generations, t)
            && t !in AllDepending(works, pending)
    requires key in pending
    ensures Books(works, pending[key := pending[key].(waiters := pending[key].waiters + [t])], generations, wakes,
                  asked + multiset{t}, dropped)
  {
    hide KeysMatch, AllDepending, Woken, Depending;
    var e := pending[key];
    var pending' := pending[key := e.(waiters := e.waiters + [t])];
    KeysPark(works, pending, key, t);
    DependingUpdate(works, pending, e.inflight, works[e.inflight], pending');
    assert works[e.inflight := works[e.inflight]] == works;
    Rotate(AllDepending(works, pending'), Depending(works[e.inflight], pending), multiset{t}, multiset{}, multiset{});
    Cancelled(AllDepending(works, pending'), Depending(works[e.inflight], pending), AllDepending(works, pending), t);
    OneMore(AllDepending(works, pending'), AllDepending(works, pending), Woken(wakes), dropped, t);
  }

  lemma Cancelled<T>(a': multiset<T>, d: multiset<T>, a: multiset<T>, t: T)
    requires a' + d == a + (d + multiset{t})
    ensures a' == a + multiset{t}
  {
    forall x ensures a'[x] == (a + multiset{t})[x] {
      assert (a' + d)[x] == (a + (d + multiset{t}))[x];
    }
  }

  lemma OneMore<T>(a': multiset<T>, a: multiset<T>, w: multiset<T>, d: multiset<T>, t: T)
    requires a' + multiset{} == a + multiset{t} || a' == a + multiset{t}
    ensures w + a' + d == w + a + d + multiset{t}
    ensures forall x :: a'[x] == a[x] + if x == t then 1 else 0
  {
    assert a' + multiset{} == a';
  }

  function Left(generations: seq<nat>, id: nat): seq<nat>
    requires id < |generations|
  {
    generations[id := generations[id] + 1]
  }

  /** A client that is not served by any slot leaves. */
  lemma BooksLeave(works: seq<Work>, pending: Pending, generations: seq<nat>, wakes: seq<Wake>,
                   asked: multiset<Ticket>, dropped: multiset<Ticket>, id: nat)
    requires Books(works, pending, generations, wakes, asked, dropped) && id < |generations|
    requires forall i | 0 <= i < |works| && works[i].Serving? :: works[i].client != Some(Ticket(id, generations[id]))
    ensures Books(works, pending, Left(generations, id), wakes, asked, dropped)
  {
    hide KeysMatch, AllDepending, Woken;
    var generations' := Left(generations, id);
    forall t <- dropped ensures !Current(generations', t) {
      assert t in asked;
    }
    forall t | Current(generations', t) && t in AllDepending(works, pending) ensures Current(generations, t) {
      assert t in asked;
    }
  }

  /** A slot loses its client: only that request stops depending on it. */
  lemma OrphanDepends(works: seq<Work>, pending: Pending, i: nat, t: Ticket)
    requires i < |works| && works[i].Serving? && works[i].client == Some(t) && AllDepending(works, pending)[t] <= 1
    ensures var works' := works[i := works[i].(client := None)];
            && AllDepending(works, pending) == AllDepending(works', pending) + multiset{t}
            && t !in AllDepending(works', pending) && t !in Waiters(pending, works[i].coalesceKey)
  {
    hide AllDepending, Waiters;
    var works' := works[i := works[i].(client := None)];
    var ws := multiset(Waiters(pending, works[i].coalesceKey));
    DependingUpdate(works, pending, i, works'[i], pending);
    Orphaned(AllDepending(works, pending), AllDepending(works', pending), ws, t, multiset{}, multiset{});
    DependingBelow(works', pending, i);
    assert multiset{} + ws == ws;
    assert t in ws ==> AllDepending(works', pending)[t] > 0;
  }

  lemma Dependent(works: seq<Work>, pending: Pending, i: nat)
    requires i < |works| && works[i].Serving? && works[i].client.Some?
    ensures works[i].client.value in AllDepending(works, pending)
  {
    DependingBelow(works, pending, i);
    assert works[i].client.value in Depending(works[i], pending);
  }

  lemma MoveOver<T>(w: multiset<T>, all: multiset<T>, all': multiset<T>, d: multiset<T>, t: T)
    requires all == all' + multiset{t}
    ensures w + all + d == w + all' + (d + multiset{t}) && forall x :: all'[x] == all[x] - if x == t then 1 else 0
  {
  }

  /** A slot goes on without its client, who leaves. */
  lemma BooksAbort(works: seq<Work>, pending: Pending, generations: seq<nat>, wakes: seq<Wake>,
                   asked: multiset<Ticket>, dropped: multiset<Ticket>, i: nat, t: Ticket)
    requires Books(works, pending, generations, wakes, asked, dropped) && i < |works| && works[i].Serving?
            && works[i].client == Some(t)
    ensures t.client < |generations| && generations[t.client] == t.generationId
    ensures Books(works[i := works[i].(client := None)], pending, Left(generations, t.client), wakes, asked,
                  dropped + multiset{t})
    ensures t !in Waiters(pending, works[i].coalesceKey)
  {
    hide KeysMatch, AllDepending, Woken, Depending;
    var works', generations' := works[i := works[i].(client := None)], Left(generations, t.client);
    OrphanKeys(works, pending, i);
    Dependent(works, pending, i);
    OrphanDepends(works, pending, i, t);
    var all' := AllDepending(works', pending);
    MoveOver(Woken(wakes), AllDepending(works, pending), all', dropped, t);
    forall x <- dropped + multiset{t} ensures !Current(generations', x) {
      assert x in asked;
    }
    forall j | 0 <= j < |works'| && works'[j].Serving? && works'[j].client.Some?
        ensures Current(generations', works'[j].client.value) {
      Dependent(works', pending, j);
    }
    forall x <- all' | Current(generations', x) ensures all'[x] == 1 {
      assert x in asked && Current(generations, x);
    }
  }

  lemma OrphanKeys(works: seq<Work>, pending: Pending, i: nat)
    requires KeysMatch(works, pending) && i < |works| && works[i].Serving?
    ensures KeysMatch(works[i := works[i].(client := None)], pending)
  {
  }

  lemma Orphaned<T>(all: multiset<T>, all': multiset<T>, ws: multiset<T>, t: T, w: multiset<T>, d: multiset<T>)
    requires all' + (multiset{t} + ws) == all + (multiset{} + ws)
    ensures all == all' + multiset{t} && w + all + d == w + all' + (d + multiset{t})
  {
    forall x ensures all[x] == (all' + multiset{t})[x] {
      assert (all' + (multiset{t} + ws))[x] == (all + (multiset{} + ws))[x];
    }
  }

  lemma {:induction false} DependingBelow(works: seq<Work>, pending: Pending, i: nat)
    requires i < |works|
    ensures Depending(works[i], pending) <= AllDepending(works, pending)
  {
    hide Depending, AllDepending;
    AllDependingHead(works, pending);
    if i > 0 {
      DependingBelow(works[1..], pending, i - 1);
    }
  }

  /** Whether a waiter is woken does not change when somebody else leaves. */
  lemma {:induction false} OthersWoken(ts: seq<Ticket>, generations: seq<nat>, id: nat, outcome: Ticket -> bool)
    requires id < |generations| && Ticket(id, generations[id]) !in ts && forall t <- ts ::
            t.client == id ==> t.generationId <= generations[id]
    ensures WakesFor(ts, Left(generations, id), outcome) == WakesFor(ts, generations, outcome)
    ensures Stale(ts, Left(generations, id)) == Stale(ts, generations)
  {
    if ts != [] {
      OthersWoken(ts[1..], generations, id, outcome);
    }
  }

  /** A slot is lost because its client leaves. */
  lemma BooksClose(works: seq<Work>, pending: Pending, generations: seq<nat>, wakes: seq<Wake>,
                   asked: multiset<Ticket>, dropped: multiset<Ticket>, i: nat, t: Ticket)
    requires Books(works, pending, generations, wakes, asked, dropped) && i < |works| && works[i].Serving?
            && works[i].client == Some(t)
    ensures t.client < |generations|
    ensures var waiters := Waiters(pending, works[i].coalesceKey);
            Books(works[i := Idle], pending - {works[i].coalesceKey}, Left(generations, t.client),
                  wakes + WakesFor(waiters, generations, Never), asked,
                      dropped + multiset{t} + Stale(waiters, generations))
  {
    hide Books, AllDepending, KeysMatch, WakesFor, Stale;
    var waiters := Waiters(pending, works[i].coalesceKey);
    BooksAbort(works, pending, generations, wakes, asked, dropped, i, t);
    var works1, generations' := works[i := works[i].(client := None)], Left(generations, t.client);
    BooksSettle(works1, pending, generations', wakes, asked, dropped + multiset{t}, i, Never, false, false);
    WaitersKnown(works, pending, generations, wakes, asked, dropped, i);
    OthersWoken(waiters, generations, t.client, Never);
    assert works1[i := Idle] == works[i := Idle];
    assert WakesFor(waiters, generations, Never) + [] == WakesFor(waiters, generations, Never);
  }

  lemma WaitersKnown(works: seq<Work>, pending: Pending, generations: seq<nat>, wakes: seq<Wake>,
                     asked: multiset<Ticket>, dropped: multiset<Ticket>, i: nat)
    requires Books(works, pending, generations, wakes, asked, dropped) && i < |works| && works[i].Serving?
    ensures forall t <- Waiters(pending, works[i].coalesceKey) ::
            t.client < |generations| && t.generationId <= generations[t.client]
  {
    hide KeysMatch, AllDepending, Woken;
    DependingBelow(works, pending, i);
    forall t <- Waiters(pending, works[i].coalesceKey) ensures t in asked {
      assert t in multiset(Waiters(pending, works[i].coalesceKey));
      assert t in Depending(works[i], pending);
    }
  }

  predicate AllFailed(wakes: seq<Wake>) { forall w <- wakes :: !w.success }

  lemma AllFail(wakes: seq<Wake>, client: Option<Ticket>, waiters: seq<Ticket>, generations: seq<nat>)
    ensures AllFailed((wakes + WakesFor(waiters, generations, Never))[|wakes|..])
    ensures AllFailed((wakes + WakesFor(waiters, generations, Never) + ClientWake(client, false))[|wakes|..])
    ensures AllFailed((wakes + ClientWake(client, false) + WakesFor(waiters, generations, Never))[|wakes|..])
  {
    hide WakesFor, Stale, Woken, Current;
    WaitersSettled(waiters, generations, Never);
    var a, b := WakesFor(waiters, generations, Never), ClientWake(client, false);
    assert (wakes + a)[|wakes|..] == a && AllFailed(a) && AllFailed(b);
    assert (wakes + a + b)[|wakes|..] == a + b && (wakes + b + a)[|wakes|..] == b + a;
  }

  class Coalescer {
    const works: array<Work>
    var pending: Pending
    var generations: seq<nat>
    var wakes: seq<Wake>                 // resumptions so far, in order
    ghost var asked: multiset<Ticket>    // requests accepted so far
    ghost var dropped: multiset<Ticket>  // requests whose client left first

    ghost predicate Valid()
      reads this, works
    {
      Books(works[..], pending, generations, wakes, asked, dropped)
    }

    constructor (slots: nat, clients: nat)
      requires slots < NO_SLOT
      ensures Valid() && fresh(works) && pending == map[] && wakes == [] && asked == dropped == multiset{}
    {
      works := new Work[slots](_ => Idle);
      pending, wakes, asked, dropped := map[], [], multiset{}, multiset{};
      generations := seq(clients, _ => 1);
      new;
      BooksEmpty(works[..], generations);
    }

    /** Resumes waiters with the outcome that is due to each, skipping those whose client left. */
    method WakeWaiters(waiters: seq<Ticket>, outcome: Ticket -> bool)
      modifies this`wakes
      ensures wakes == old(wakes) + WakesFor(waiters, generations, outcome)
    {
      var i := 0;
      while i < |waiters|
        invariant i <= |waiters| && wakes == old(wakes) + WakesFor(waiters[..i], generations, outcome)
      {
        var w := waiters[i];
        WakesForJoin(waiters[..i], [w], generations, outcome);
        assert waiters[..i + 1] == waiters[..i] + [w];
        assert [w][1..] == [];
        if w.client < |generations| && generations[w.client] == w.generationId {
          wakes := wakes + [Wake(w, outcome(w))];
        }
        i := i + 1;
      }
      assert waiters[..i] == waiters;
    }

    /** The slot's own client, if it is still there, is resumed. */
    method WakeClient(client: Option<Ticket>, success: bool)
      modifies this`wakes
      ensures wakes == old(wakes) + ClientWake(client, success)
    {
      if client.Some? {
        wakes := wakes + [Wake(client.value, success)];
      }
    }

    /** A slot stops serving: its entry goes with it. */
    method Unregister(i: nat) returns (client: Option<Ticket>, waiters: seq<Ticket>)
      requires i < works.Length && works[i].Serving?
      modifies works, this`pending
      ensures client == old(works[i].client) && waiters == Waiters(old(pending), old(works[i].coalesceKey))
      ensures works[..] == old(works[..])[i := Idle] && pending == old(pending) - {old(works[i].coalesceKey)}
    {
      client, waiters := works[i].client, [];
      if works[i].coalesceKey in pending {
        waiters := pending[works[i].coalesceKey].waiters;
        pending := pending - {works[i].coalesceKey};
      }
      works[i] := Idle;
    }

    /** A request finished: every waiter gets its copy of the result, then the slot's own client. */
    method CompleteSingleSlotRequest(i: nat, cloned: Ticket -> bool)
      requires Valid() && i < works.Length && works[i].Serving?
      modifies this, works
      ensures Valid() && works[..] == old(works[..])[i := Idle] && pending == old(pending) - {old(works[i].coalesceKey)}
      ensures generations == old(generations) && asked == old(asked)
      ensures wakes == old(wakes) + WakesFor(Waiters(old(pending), old(works[i].coalesceKey)), generations, cloned)
              + if old(works[i].client).Some? then [Wake(old(works[i].client).value, true)] else []
    {
      hide Books, WakesFor, Waiters;
      BooksSettle(works[..], pending, generations, wakes, asked, dropped, i, cloned, true, false);
      dropped := dropped + Stale(Waiters(pending, works[i].coalesceKey), generations);
      var client, waiters := Unregister(i);
      WakeWaiters(waiters, cloned);
      WakeClient(client, true);
      Assoc(old(wakes), WakesFor(waiters, generations, cloned), ClientWake(client, true));
    }

    /** The slot was lost: every waiter fails, then the slot's own client. */
    method ReleaseEndpoint(i: nat)
      requires Valid() && i < works.Length && works[i].Serving?
      modifies this, works
      ensures Valid() && works[..] == old(works[..])[i := Idle] && pending == old(pending) - {old(works[i].coalesceKey)}
      ensures generations == old(generations) && asked == old(asked)
      ensures wakes == old(wakes) + WakesFor(Waiters(old(pending), old(works[i].coalesceKey)), generations, Never)
              + if old(works[i].client).Some? then [Wake(old(works[i].client).value, false)] else []
      ensures AllFailed(wakes[|old(wakes)|..])
      ensures dropped == old(dropped) + Stale(Waiters(old(pending), old(works[i].coalesceKey)), generations)
    {
      hide Books, WakesFor, Waiters, AllFailed, Stale;
      BooksSettle(works[..], pending, generations, wakes, asked, dropped, i, Never, false, false);
      dropped := dropped + Stale(Waiters(pending, works[i].coalesceKey), generations);
      var client, waiters := Unregister(i);
      WakeWaiters(waiters, Never);
      WakeClient(client, false);
      Assoc(old(wakes), WakesFor(waiters, generations, Never), ClientWake(client, false));
      AllFail(old(wakes), client, waiters, generations);
    }

    /** The response could not be parsed: the slot's own client fails, then every waiter. */
    method FailSlotOnParseError(i: nat)
      requires Valid() && i < works.Length && works[i].Serving?
      modifies this, works
      ensures Valid() && works[..] == old(works[..])[i := Idle] && pending == old(pending) - {old(works[i].coalesceKey)}
      ensures generations == old(generations) && asked == old(asked)
      ensures wakes == old(wakes)
              + (if old(works[i].client).Some? then [Wake(old(works[i].client).value, false)] else [])
              + WakesFor(Waiters(old(pending), old(works[i].coalesceKey)), generations, Never)
      ensures AllFailed(wakes[|old(wakes)|..])
    {
      hide Books, WakesFor, Waiters, AllFailed, Stale;
      BooksSettle(works[..], pending, generations, wakes, asked, dropped, i, Never, false, true);
      dropped := dropped + Stale(Waiters(pending, works[i].coalesceKey), generations);
      WakeClient(works[i].client, false);
      var client, waiters := Unregister(i);
      WakeWaiters(waiters, Never);
      Assoc(old(wakes), ClientWake(client, false), WakesFor(waiters, generations, Never));
      AllFail(old(wakes), client, waiters, generations);
    }

    /** An idle slot, if there is one. */
    method FindIdle() returns (i: nat)
      requires works.Length < NO_SLOT
      ensures if i == NO_SLOT then forall j | 0 <= j < works.Length ::
              works[j].Serving? else i < works.Length && works[i].Idle?
    {
      i := 0;
      while i < works.Length && works[i].Serving?
        invariant i <= works.Length && forall j | 0 <= j < i :: works[j].Serving?
      {
        i := i + 1;
      }
      if i == works.Length {
        i := NO_SLOT;
      }
    }

    /** A connected client asks. With a key that is being served it waits for that outcome; else it
        takes a slot of its own, whose key others may then join. A request that could not be written
        out (`sent` false) is refused at once and nobody waits for it. */
    method SendPayload(id: nat, coalesceKey: nat, sent: bool) returns (r: SendResult)
      requires Valid() && id < |generations|
      requires Ticket(id, generations[id]) !in AllDepending(works[..], pending)
      modifies this, works
      ensures Valid() && wakes == old(wakes) && generations == old(generations) && dropped == old(dropped)
      ensures r.Parked? <==> coalesceKey in old(pending)
      ensures r.PoolExhausted? <==> coalesceKey !in old(pending) && forall j | 0 <= j < works.Length ::
              old(works[j]).Serving?
      ensures r.Parked? || r.Started? ==> asked == old(asked) + multiset{Ticket(id, generations[id])}
      ensures r.Started? <==> sent && coalesceKey !in old(pending) && exists j | 0 <= j < works.Length ::
              old(works[j]).Idle?
      ensures r.PoolExhausted? || r.Failed? ==>
              asked == old(asked) && works[..] == old(works[..]) && pending == old(pending)
      ensures r.Parked? ==>
                var e := old(pending)[coalesceKey];
                && works[..] == old(works[..])
                && pending == old(pending)[coalesceKey := Entry(e.inflight, e.waiters + [Ticket(id, generations[id])])]
      ensures r.Started? ==>
                var w := Serving(Some(Ticket(id, generations[id])), coalesceKey);
                exists i | 0 <= i < works.Length ::
                  && old(works[i]).Idle? && works[..] == old(works[..])[i := w]
                  && pending == if coalesceKey == 0 then old(pending) else old(pending)[coalesceKey := Entry(i, [])]
    {
      hide KeysMatch, AllDepending, Woken;
      var t := Ticket(id, generations[id]);
      if coalesceKey != 0 && coalesceKey in pending {
        BooksPark(works[..], pending, generations, wakes, asked, dropped, t, coalesceKey);
        var it := pending[coalesceKey];
        pending := pending[coalesceKey := it.(waiters := it.waiters + [t])];
        asked := asked + multiset{t};
        return Parked;
      }
      ZeroUnused(works[..], pending);
      var i := FindIdle();
      if i == NO_SLOT {
        return PoolExhausted;
      }
      if !sent {
        return Failed;
      }
      BooksStart(works[..], pending, generations, wakes, asked, dropped, i, t, coalesceKey);
      if coalesceKey != 0 {
        pending := pending[coalesceKey := Entry(i, [])];
      }
      works[i] := Serving(Some(t), coalesceKey);
      asked := asked + multiset{t};
      assert works[..] == old(works[..])[i := Serving(Some(t), coalesceKey)];
      return Started;
    }

    /** The slot that serves a client, as the client's own link says. */
    method EndpointOf(t: Ticket) returns (i: nat)
      requires works.Length < NO_SLOT
      ensures if i == NO_SLOT then forall j | 0 <= j < works.Length && works[j].Serving? :: works[j].client != Some(t)
              else i < works.Length && works[i].Serving? && works[i].client == Some(t)
    {
      i := 0;
      while i < works.Length && !(works[i].Serving? && works[i].client == Some(t))
        invariant i <= works.Length && forall j | 0 <= j < i && works[j].Serving? :: works[j].client != Some(t)
      {
        i := i + 1;
      }
      if i == works.Length {
        i := NO_SLOT;
      }
    }

    /** A client leaves. A slot that served it is lost and its waiters fail, unless the protocol can
        call the request off (`graceful`): then the slot goes on for them. */
    method ReleaseClient(id: nat, graceful: bool)
      requires Valid() && id < |generations|
      modifies this, works
      ensures Valid() && asked == old(asked) && generations == Left(old(generations), id)
      ensures (forall j | 0 <= j < works.Length && old(works[j]).Serving? ::
               old(works[j]).client != Some(Ticket(id, old(generations)[id]))) ==>
                works[..] == old(works[..]) && pending == old(pending) && wakes == old(wakes)
      ensures forall j | 0 <= j < works.Length && old(works[j]).Serving?
              && old(works[j]).client == Some(Ticket(id, old(generations)[id])) ::
                if graceful then
                  wakes == old(wakes) && pending == old(pending)
                  && works[..] == old(works[..])[j := Serving(None, old(works[j]).coalesceKey)]
                else
                  && wakes == old(wakes)
                      + WakesFor(Waiters(old(pending), old(works[j]).coalesceKey), old(generations), Never)
                  && AllFailed(wakes[|old(wakes)|..])
                  && pending == old(pending) - {old(works[j]).coalesceKey} && works[..] == old(works[..])[j := Idle]
    {
      hide Books, WakesFor, Waiters, AllDepending, Stale, AllFailed;
      var t := Ticket(id, generations[id]);
      SlotCount(works[..], pending, generations, wakes, asked, dropped);
      var i := EndpointOf(t);
      ghost var works0 := works[..];
      if i == NO_SLOT {
        BooksLeave(works[..], pending, generations, wakes, asked, dropped, id);
      } else {
        OnlySlot(works0, pending, generations, wakes, asked, dropped, i, t);
        if graceful {
          BooksAbort(works[..], pending, generations, wakes, asked, dropped, i, t);
          works[i] := works[i].(client := None);
          assert works[..] == works0[i := works0[i].(client := None)];
          dropped := dropped + multiset{t};
        } else {
          BooksClose(works[..], pending, generations, wakes, asked, dropped, i, t);
          dropped := dropped + multiset{t} + Stale(Waiters(pending, works[i].coalesceKey), generations);
          var client, waiters := Unregister(i);
          WakeWaiters(waiters, Never);
          AllFail(old(wakes), None, waiters, generations);
        }
      }
      generations := generations[id := generations[id] + 1];
    }
  }

  lemma ZeroUnused(works: seq<Work>, pending: Pending)
    requires KeysMatch(works, pending)
    ensures 0 !in pending
  {
  }

  lemma SlotCount(works: seq<Work>, pending: Pending, generations: seq<nat>, wakes: seq<Wake>, asked: multiset<Ticket>,
                  dropped: multiset<Ticket>)
    requires Books(works, pending, generations, wakes, asked, dropped)
    ensures |works| < NO_SLOT
  {
  }

  /** No two slots serve the same connected client. */
  lemma OnlySlot(works: seq<Work>, pending: Pending, generations: seq<nat>, wakes: seq<Wake>, asked: multiset<Ticket>,
                 dropped: multiset<Ticket>, i: nat, t: Ticket)
    requires Books(works, pending, generations, wakes, asked, dropped) && i < |works| && works[i].Serving?
            && works[i].client == Some(t)
    ensures forall j | 0 <= j < |works| && works[j].Serving? && works[j].client == Some(t) :: j == i
  {
    hide KeysMatch, AllDepending, Woken;
    Dependent(works, pending, i);
    OrphanDepends(works, pending, i, t);
    var works' := works[i := works[i].(client := None)];
    forall j | 0 <= j < |works| && works[j].Serving? && works[j].client == Some(t) && j != i ensures false {
      Dependent(works', pending, j);
    }
  }

  /** Failure for everyone. */
  function Never(t: Ticket): bool { false }
}
