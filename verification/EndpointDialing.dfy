/** Reconnecting background slots: backoff, the walk over resolved addresses, and how often a slot is
    dialled before it is given up. */
module EndpointDialing {
  import opened Helpers

  // ---------------------------------------------------------------- backoff

  /** What `n` doublings of the base come to, up to the cap. */
  function BackoffCap(base: nat, max: nat, n: nat): nat { Min(base * Pow2(n), max) }

  /** A delay drawn for the attempt behind `n` earlier ones. */
  predicate Drawn(delay: nat, base: nat, max: nat, n: nat) {
    1 <= delay && (BackoffCap(base, max, n) > 0 ==> delay <= BackoffCap(base, max, n))
        && (BackoffCap(base, max, n) == 0 ==> delay == 1)
  }

  /** The delay is drawn below base * 2^attempt, capped, and is at least a second; every delay between can
      be drawn. The doubling stops at the cap, so it does not overflow 64 bits for 32-bit settings. */
  method ComputeBackoffSeconds(base: nat, max: nat, attempt: nat, random: nat) returns (delay: nat)
    ensures Drawn(delay, base, max, attempt)
    ensures 1 <= random <= BackoffCap(base, max, attempt) ==> delay == random
  {
    var exp := base;
    var i := 0;
    while i < attempt && exp < max
      invariant i <= attempt && exp == base * Pow2(i) && (i > 0 ==> exp < 2 * max)
    {
      exp := exp * 2;
      i := i + 1;
    }
    Doubled(base, i, attempt, max);
    var cap := Min(exp, max);
    var jittered := if cap == 0 then 0 else random % (cap + 1);
    delay := if jittered < 1 then 1 else jittered;
    assert 1 <= random <= cap ==> jittered == random by {
      if 1 <= random <= cap {
        Quotient(random, cap + 1, 0, random);
      }
    }
  }

  lemma {:induction false} PowMono(i: nat, j: nat)
    requires i <= j
    ensures Pow2(i) <= Pow2(j)
    decreases j
  {
    if i < j {
      PowMono(i, j - 1);
    }
  }

  lemma Doubled(base: nat, i: nat, attempt: nat, max: nat)
    requires i <= attempt && (i == attempt || base * Pow2(i) >= max)
    ensures Min(base * Pow2(i), max) == Min(base * Pow2(attempt), max)
  {
    PowMono(i, attempt);
    MulMono(Pow2(i), Pow2(attempt), base);
  }

  // ---------------------------------------------------------------- dialling

  lemma RoundSpent(rounds: nat, addresses: nat, tried: nat)
    requires tried <= addresses
    ensures rounds * addresses + tried <= (rounds + 1) * addresses
  {
  }

  datatype Status = Pending | ConnectFailure | SslFailure | SocketFailure

  datatype State = Free | Dialing | Awaiting | Pooled

  /** Everything about a slot that changes, and its settings. */
  datatype View = View(state: State, generationId: nat, addrsTried: nat, reconnectAttempts: nat,
                       outcomes: seq<Status>, rounds: nat, addresses: nat, maxReconnectAttempts: nat,
                       backoffBase: nat, backoffMax: nat)

  /** The dials of a walk over the addresses left: on as long as one refuses, up to one that does not. */
  predicate Walked(left: nat, more: seq<Status>, underway: bool) {
    && |more| <= left
    && (forall i | 0 <= i < |more| - 1 :: more[i] == ConnectFailure)
    && (underway <==> more != [] && more[|more| - 1] == Pending)
    && (|more| < left ==> more != [] && more[|more| - 1] != ConnectFailure)
  }

  /** A failed dial is followed by a walk unless the failure came later or was not a refusal. A slot whose
      walk is not under way is given up if it may not try again, and waits otherwise. */
  predicate AfterFailure(refused: bool, fatal: bool, left: nat, attempts: nat, max: nat, more: seq<Status>,
                         state: State) {
    && (if refused && !fatal then Walked(left, more, state == Dialing) else more == [] && state != Dialing)
    && (state != Dialing ==> state == if fatal || attempts >= max then Free else Awaiting)
  }

  /** A round: the first address is dialled, if there is one, and a failure is dealt with at once. */
  predicate RoundOf(addresses: nat, attempts: nat, max: nat, more: seq<Status>, state: State) {
    if addresses == 0 then AfterFailure(true, false, 0, attempts, max, more, state)
    else
      && more != []
      && if more[0] == Pending then more == [Pending] && state == Dialing
         else AfterFailure(more[0] != SslFailure, false, addresses - 1, attempts, max, more[1..], state)
  }

  datatype Reason = Error | Timeout | TlsError

  /** A slot that connects on its own, with no client waiting, to a name with fixed addresses. */
  class BackgroundSlot {
    const addresses: nat
    const maxReconnectAttempts: nat
    const backoffBase: nat
    const backoffMax: nat
    var state: State
    var generationId: nat
    var addrsTried: nat
    var reconnectAttempts: nat
    ghost var outcomes: seq<Status>    // of the connect attempts since the slot was leased
    ghost var rounds: nat              // delays waited out since the slot was made

    ghost function Seen(): View
      reads this
    {
      View(state, generationId, addrsTried, reconnectAttempts, outcomes, rounds, addresses, maxReconnectAttempts,
           backoffBase, backoffMax)
    }

    /** Until it is pooled or given up a slot is dialled at most once per address and round, and there
        are at most maxReconnectAttempts + 1 rounds. */
    ghost predicate Valid()
      reads this
    {
      && (state.Dialing? || state.Awaiting? ==>
            && reconnectAttempts <= maxReconnectAttempts && addrsTried <= addresses
            && |outcomes| <= reconnectAttempts * addresses + addrsTried)
      && (state.Awaiting? ==> addrsTried == 0)
      && |outcomes| <= (maxReconnectAttempts + 1) * addresses
    }

    constructor (addresses: nat, maxReconnectAttempts: nat, backoffBase: nat, backoffMax: nat)
      ensures Valid() && state == Free && rounds == generationId == 0
      ensures this.addresses == addresses && this.maxReconnectAttempts == maxReconnectAttempts
      ensures this.backoffBase == backoffBase && this.backoffMax == backoffMax
    {
      this.addresses, this.maxReconnectAttempts, this.backoffBase, this.backoffMax := addresses, maxReconnectAttempts,
          backoffBase, backoffMax;
      state, generationId, addrsTried, reconnectAttempts, outcomes, rounds := Free, 0, 0, 0, [], 0;
    }

    /** Dials one address: the next one of the endpoint's, which its slots take in turn. Without any
        there is nothing to dial. */
    method WrapConnect() returns (status: Status)
      requires Valid() && state.Dialing? && (addrsTried < addresses || addresses == 0)
      modifies this`addrsTried, this`outcomes
      ensures Valid() && addrsTried == old(addrsTried) + (if addresses == 0 then 0 else 1)
      ensures outcomes == old(outcomes) + if addresses == 0 then [] else [status]
      ensures addresses == 0 ==> status == ConnectFailure
    {
      if addresses == 0 {
        return ConnectFailure;
      }
      RoundsBound(reconnectAttempts, maxReconnectAttempts, addresses);
      addrsTried := addrsTried + 1;
      status :| true;
      outcomes := outcomes + [status];
    }

    /** Dials on until an address does not refuse, as often as the round still allows. */
    method TryNextAddress() returns (underway: bool)
      requires Valid() && state.Dialing?
      modifies this`addrsTried, this`outcomes
      ensures Valid() && old(outcomes) <= outcomes && addrsTried == old(addrsTried) + |outcomes| - |old(outcomes)|
      ensures Walked(addresses - old(addrsTried), outcomes[|old(outcomes)|..], underway)
    {
      while addrsTried < addresses
        invariant Valid() && old(outcomes) <= outcomes
        invariant addrsTried == old(addrsTried) + |outcomes| - |old(outcomes)|
        invariant forall i | |old(outcomes)| <= i < |outcomes| :: outcomes[i] == ConnectFailure
        decreases addresses - addrsTried
      {
        var status := WrapConnect();
        if status == Pending {
          return true;
        }
        if status != ConnectFailure {
          break;
        }
      }
      return false;
    }

    /** A connect attempt failed: the next address, another round after a delay, or the end. A slot is
        given up exactly when the failure is fatal or every round has been used. */
    method HandleConnectFailure(fatal: bool, reason: Reason, alive: bool, random: nat) returns (delay: Option<nat>)
      requires Valid() && state.Dialing?
      modifies this`state, this`addrsTried, this`reconnectAttempts, this`outcomes
      ensures Valid() && |outcomes| <= (maxReconnectAttempts + 1) * addresses
      ensures delay.Some? <==> state.Awaiting?
      ensures delay.Some? ==> Drawn(delay.value, backoffBase, backoffMax, old(reconnectAttempts))
      ensures reconnectAttempts == old(reconnectAttempts) + if state.Awaiting? then 1 else 0
      ensures old(outcomes) <= outcomes
              && AfterFailure(reason == Error && !alive, fatal, addresses - old(addrsTried), old(reconnectAttempts),
                              maxReconnectAttempts, outcomes[|old(outcomes)|..], state)
    {
      var addressRefused := !fatal && reason == Error && !alive;
      if addressRefused {
        var underway := TryNextAddress();
        if underway {
          return None;
        }
      }
      var exhausted := reconnectAttempts >= maxReconnectAttempts;
      if fatal || exhausted {
        state := Free;
        return None;
      }
      var backoff := ScheduleReconnect(random);
      return Some(backoff);
    }

    /** Parks the slot for a delay drawn by the number of attempts already made; all addresses are
        open to it again. */
    method ScheduleReconnect(random: nat) returns (delay: nat)
      requires Valid() && state.Dialing? && reconnectAttempts < maxReconnectAttempts
      modifies this`state, this`addrsTried, this`reconnectAttempts
      ensures Valid() && state == Awaiting && reconnectAttempts == old(reconnectAttempts) + 1 && addrsTried == 0
      ensures Drawn(delay, backoffBase, backoffMax, old(reconnectAttempts))
    {
      hide Drawn;
      RoundSpent(reconnectAttempts, addresses, addrsTried);
      state := Awaiting;
      addrsTried := 0;
      delay := ComputeBackoffSeconds(backoffBase, backoffMax, reconnectAttempts, random);
      reconnectAttempts := reconnectAttempts + 1;
    }

    /** The delay is over: dials again. */
    method Reconnect(random: nat) returns (delay: Option<nat>)
      requires Valid() && state.Awaiting?
      modifies this`state, this`addrsTried, this`reconnectAttempts, this`outcomes, this`rounds
      ensures Valid() && |outcomes| <= (maxReconnectAttempts + 1) * addresses && rounds == old(rounds) + 1
      ensures delay.Some? <==> state.Awaiting?
      ensures delay.Some? ==> Drawn(delay.value, backoffBase, backoffMax, old(reconnectAttempts))
      ensures reconnectAttempts == old(reconnectAttempts) + if state.Awaiting? then 1 else 0
      ensures old(outcomes) <= outcomes
              && RoundOf(addresses, old(reconnectAttempts), maxReconnectAttempts, outcomes[|old(outcomes)|..], state)
    {
      rounds := rounds + 1;
      state := Dialing;
      delay := Dial(random);
    }

    /** Dials, and deals with a failure at once. */
    method Dial(random: nat) returns (delay: Option<nat>)
      requires Valid() && state.Dialing? && addrsTried == 0
      modifies this`state, this`addrsTried, this`reconnectAttempts, this`outcomes
      ensures Valid() && |outcomes| <= (maxReconnectAttempts + 1) * addresses
      ensures delay.Some? <==> state.Awaiting?
      ensures delay.Some? ==> Drawn(delay.value, backoffBase, backoffMax, old(reconnectAttempts))
      ensures reconnectAttempts == old(reconnectAttempts) + if state.Awaiting? then 1 else 0
      ensures old(outcomes) <= outcomes
              && RoundOf(addresses, old(reconnectAttempts), maxReconnectAttempts, outcomes[|old(outcomes)|..], state)
    {
      var s := WrapConnect();
      if s == Pending {
        return None;
      }
      delay := HandleConnectFailure(false, if s == SslFailure then TlsError else Error, false, random);
    }

    /** The slot is leased anew and begins to dial. */
    method Lease()
      requires Valid() && state.Free?
      modifies this`state, this`generationId, this`addrsTried, this`reconnectAttempts, this`outcomes
      ensures Valid() && state == Dialing && generationId == old(generationId) + 1
              && addrsTried == reconnectAttempts == 0 && outcomes == []
    {
      state, generationId, addrsTried, reconnectAttempts, outcomes := Dialing, generationId + 1, 0, 0, [];
    }

    /** The connection is up and pooled: past failures are forgotten. */
    method Connected()
      requires Valid() && state.Dialing?
      modifies this`state, this`reconnectAttempts
      ensures Valid() && state == Pooled && reconnectAttempts == 0
    {
      state := Pooled;
      reconnectAttempts := 0;
    }

    /** The slot is torn down, whatever it was doing; an entry that parked it stays behind. */
    method Release()
      requires Valid()
      modifies this`state
      ensures Valid() && state == Free
    {
      state := Free;
    }
  }

  lemma RoundsBound(r: nat, max: nat, n: nat)
    requires r <= max
    ensures r * n + n <= (max + 1) * n
  {
    MulMono(r + 1, max + 1, n);
  }

  // ---------------------------------------------------------------- the queue of parked slots

  datatype PendingReconnect = PendingReconnect(wakeAtMs: nat, slotIdx: nat, generationId: nat)

  /** Where every entry went: handled ones were due and dialled if their slot was live, the others
      are still queued, with those parked again. */
  ghost predicate Accounted(parked: seq<PendingReconnect>, pending: seq<PendingReconnect>,
                            handled: multiset<PendingReconnect>,
                            dialled: seq<PendingReconnect>, again: seq<PendingReconnect>,
                                live: PendingReconnect -> bool, now: nat) {
    && |pending| + |handled| == |parked| + |again| && |again| <= |dialled|
    && multiset(pending) + handled == multiset(parked) + multiset(again)
    && (forall p <- handled :: p.wakeAtMs <= now)
    && (forall p <- again :: p.wakeAtMs >= now + 1000)
    && forall p :: multiset(dialled)[p] == if live(p) then handled[p] else 0
  }

  /** The entry's slot is still the one that was parked. */
  predicate LiveIn(views: seq<View>, p: PendingReconnect) {
    p.slotIdx < |views| && views[p.slotIdx].state.Awaiting? && views[p.slotIdx].generationId == p.generationId
  }

  /** The entry parks no slot any more, and never will. */
  predicate StaleIn(views: seq<View>, p: PendingReconnect) {
    && p.slotIdx < |views| && p.generationId <= views[p.slotIdx].generationId
    && (p.generationId == views[p.slotIdx].generationId ==>
          views[p.slotIdx].state.Free? || views[p.slotIdx].state.Pooled?)
  }

  /** Slot `i` has an entry of its present lease. */
  ghost predicate Parks(q: seq<PendingReconnect>, views: seq<View>, i: nat)
    requires i < |views|
  {
    exists p <- q :: p.slotIdx == i && p.generationId == views[i].generationId
  }

  /** No slot has two live entries, every parked slot has one, and what is not live is stale; but
      slot `k` has no entry of its present lease. */
  ghost predicate Queues(q: seq<PendingReconnect>, views: seq<View>, k: nat) {
    && (forall p <- q ::
          if p.slotIdx == k < |views| then p.generationId < views[k].generationId
          else LiveIn(views, p) || StaleIn(views, p))
    && (forall a, b | 0 <= a < b < |q| && LiveIn(views, q[a]) && LiveIn(views, q[b]) :: q[a].slotIdx != q[b].slotIdx)
    && forall i | 0 <= i < |views| && i != k && views[i].state.Awaiting? :: Parks(q, views, i)
  }

  /** Slot `k` may go on in the same lease or in a later one. */
  lemma QueuesKept(q: seq<PendingReconnect>, views: seq<View>, k: nat, view: View)
    requires k < |views| && Queues(q, views, k) && view.generationId >= views[k].generationId
    ensures Queues(q, views[k := view], k)
  {
    var views' := views[k := view];
    forall p <- q ensures p.slotIdx != k ==>
        LiveIn(views', p) == LiveIn(views, p) && StaleIn(views', p) == StaleIn(views, p) {
    }
    forall i | 0 <= i < |views'| && i != k && views'[i].state.Awaiting? ensures Parks(q, views', i) {
      assert Parks(q, views, i);
    }
  }

  /** A free slot is leased anew. */
  lemma LeaseKeeps(q: seq<PendingReconnect>, views: seq<View>, k: nat, view: View)
    requires k < |views| && Queues(q, views, |views|) && views[k].state.Free?
            && view.generationId > views[k].generationId
    ensures Queues(q, views[k := view], k)
  {
    var views' := views[k := view];
    forall p <- q ensures p.slotIdx != k ==>
        LiveIn(views', p) == LiveIn(views, p) && StaleIn(views', p) == StaleIn(views, p) {
    }
    forall i | 0 <= i < |views'| && i != k && views'[i].state.Awaiting? ensures Parks(q, views', i) {
      assert Parks(q, views, i);
    }
  }

  /** A slot is freed or pooled. */
  lemma FreedKeeps(q: seq<PendingReconnect>, views: seq<View>, k: nat, view: View)
    requires k < |views| && Queues(q, views, |views|) && view.generationId == views[k].generationId
    requires view.state.Free? || view.state.Pooled?
    ensures Queues(q, views[k := view], |views|)
  {
    var views' := views[k := view];
    forall p <- q ensures LiveIn(views', p) ==> LiveIn(views, p) {
    }
    forall i | 0 <= i < |views'| && views'[i].state.Awaiting? ensures Parks(q, views', i) {
      assert Parks(q, views, i);
    }
  }

  lemma ParkedNow(q: seq<PendingReconnect>, views: seq<View>, p: PendingReconnect)
    requires Queues(q, views, p.slotIdx) && LiveIn(views, p)
    ensures Queues(q + [p], views, |views|)
  {
    var q' := q + [p];
    forall i | 0 <= i < |views| && views[i].state.Awaiting? ensures Parks(q', views, i) {
      if i == p.slotIdx {
        assert q'[|q|] in q';
      } else {
        assert Parks(q, views, i);
        var x :| 0 <= x < |q| && q[x].slotIdx == i && q[x].generationId == views[i].generationId;
        assert q'[x] == q[x];
      }
    }
  }

  lemma NotParked(q: seq<PendingReconnect>, views: seq<View>, k: nat)
    requires k < |views| && Queues(q, views, k) && !views[k].state.Awaiting?
    ensures Queues(q, views, |views|)
  {
  }

  lemma DialingUnparked(q: seq<PendingReconnect>, views: seq<View>, k: nat)
    requires k < |views| && Queues(q, views, |views|) && views[k].state.Dialing?
    ensures Queues(q, views, k)
  {
  }

  /** An entry goes; the last one moves into its place. */
  lemma Removed(q: seq<PendingReconnect>, views: seq<View>, i: nat)
    requires Queues(q, views, |views|) && i < |q|
    ensures Queues(Swapped(q, i), views, if LiveIn(views, q[i]) then q[i].slotIdx else |views|)
    ensures forall p <- Swapped(q, i) ::
              p in q && (LiveIn(views, q[i]) && p.slotIdx == q[i].slotIdx ==> !LiveIn(views, p))
  {
    var q', k := Swapped(q, i), if LiveIn(views, q[i]) then q[i].slotIdx else |views|;
    forall x | 0 <= x < |q'| ensures q'[x] == q[if x == i then |q| - 1 else x] {
    }
    forall j | 0 <= j < |views| && j != k && views[j].state.Awaiting? ensures Parks(q', views, j) {
      assert Parks(q, views, j);
      var x :| 0 <= x < |q| && q[x].slotIdx == j && q[x].generationId == views[j].generationId;
      assert LiveIn(views, q[x]) && x != i;
      assert q'[if x < |q| - 1 then x else i] == q[x];
    }
  }

  /** A slot has begun one more round of the same lease. */
  predicate Woken(before: View, after: View) {
    && after.rounds == before.rounds + 1 && after.generationId == before.generationId
    && after.reconnectAttempts == before.reconnectAttempts + (if after.state.Awaiting? then 1 else 0)
    && before.outcomes <= after.outcomes
    && RoundOf(before.addresses, before.reconnectAttempts, before.maxReconnectAttempts,
               after.outcomes[|before.outcomes|..], after.state)
  }

  /** The entry waits for a delay drawn by the attempts its slot had made. */
  predicate DelayDrawn(p: PendingReconnect, before: View, now: nat) {
    && p.wakeAtMs >= now + 1000
    && Drawn((p.wakeAtMs - now) / 1000, before.backoffBase, before.backoffMax, before.reconnectAttempts)
  }

  lemma DrawnFrom(delay: nat, before: View, p: PendingReconnect, now: nat)
    requires Drawn(delay, before.backoffBase, before.backoffMax, before.reconnectAttempts)
    requires p.wakeAtMs == now + delay * 1000
    ensures DelayDrawn(p, before, now)
  {
  }

  /** The due entry at `i` is gone. If it was live its slot was woken and may be parked anew; no other
      slot has changed. */
  predicate Handled(q: seq<PendingReconnect>, i: nat, views: seq<View>, q': seq<PendingReconnect>, views': seq<View>,
                    next: seq<PendingReconnect>, now: nat) {
    && i < |q| && q' == Swapped(q, i) + next && |views'| == |views| && (forall p <- Swapped(q, i) :: p in q)
    && if LiveIn(views, q[i]) then
         var k := q[i].slotIdx;
         && Woken(views[k], views'[k]) && views' == views[k := views'[k]] && |next| <= 1
         && (forall p <- next :: p.slotIdx == k && DelayDrawn(p, views[k], now))
         && (forall p <- Swapped(q, i) | p.slotIdx == k :: !LiveIn(views, p) && !LiveIn(views', p))
       else next == [] && views' == views
  }

  /** Where a sweep of the queue stands: the slots of the entries dialled are woken, the others are as
      they were, and no slot is dialled again. */
  ghost predicate Sweeping(start: seq<View>, views: seq<View>, pending: seq<PendingReconnect>,
                           dialled: seq<PendingReconnect>, again: seq<PendingReconnect>, now: nat) {
    && |views| == |start|
    && (forall k | 0 <= k < |views| ::
          if k in SlotsOf(dialled) then Woken(start[k], views[k]) else views[k] == start[k])
    && (forall p <- again :: p.slotIdx < |start| && DelayDrawn(p, start[p.slotIdx], now))
    && forall p <- pending | p.wakeAtMs <= now ::
         LiveIn(views, p) == LiveIn(start, p) && (LiveIn(views, p) ==> p.slotIdx !in SlotsOf(dialled))
  }

  lemma SweepStart(start: seq<View>, pending: seq<PendingReconnect>, now: nat)
    ensures Sweeping(start, start, pending, [], [], now)
  {
  }

  lemma SweepEnd(start: seq<View>, views: seq<View>, pending: seq<PendingReconnect>, dialled: seq<PendingReconnect>,
                 again: seq<PendingReconnect>, now: nat)
    requires Sweeping(start, views, pending, dialled, again, now)
    ensures |views| == |start| && forall p <- again :: p.slotIdx < |start| && DelayDrawn(p, start[p.slotIdx], now)
    ensures forall k | 0 <= k < |views| ::
              if k in SlotsOf(dialled) then Woken(start[k], views[k]) else views[k] == start[k]
  {
  }

  lemma SweepStep(start: seq<View>, q: seq<PendingReconnect>, i: nat, views: seq<View>, q': seq<PendingReconnect>,
                  views': seq<View>, dialled: seq<PendingReconnect>, again: seq<PendingReconnect>,
                  next: seq<PendingReconnect>, now: nat)
    requires Sweeping(start, views, q, dialled, again, now) && Handled(q, i, views, q', views', next, now)
    requires q[i].wakeAtMs <= now
    ensures Sweeping(start, views', q', if LiveIn(start, q[i]) then dialled + [q[i]] else dialled, again + next, now)
    ensures |next| <= (if LiveIn(start, q[i]) then 1 else 0) && q' == Swapped(q, i) + next
    ensures forall p <- next :: p.wakeAtMs >= now + 1000
  {
    hide SlotsOf, Swapped, Drawn, Woken;
    SlotsMore(dialled, q[i]);
    var k := q[i].slotIdx;
    if LiveIn(views, q[i]) {
      forall p <- q' | p.wakeAtMs <= now
        ensures LiveIn(views', p) == LiveIn(start, p) && (LiveIn(views', p) ==> p.slotIdx !in SlotsOf(dialled + [q[i]]))
      {
        assert p in Swapped(q, i);
      }
    }
  }

  /** The slots of an endpoint and the queue of those that wait for their next round. */
  class Reconnects {
    const slots: seq<BackgroundSlot>
    var pendingReconnects: seq<PendingReconnect>

    constructor (slots: seq<BackgroundSlot>)
      requires forall i, j | 0 <= i < j < |slots| :: slots[i] != slots[j]
      requires forall s <- slots :: s.Valid() && s.state == Free
      ensures Valid() && this.slots == slots && pendingReconnects == []
    {
      this.slots, pendingReconnects := slots, [];
    }

    ghost function Views(): (v: seq<View>)
      reads slots
      ensures |v| == |slots|
    {
      seq(|slots|, i requires 0 <= i < |slots| reads slots => slots[i].Seen())
    }

    ghost predicate SlotsValid()
      reads slots
    {
      && (forall i, j | 0 <= i < j < |slots| :: slots[i] != slots[j])
      && forall s <- slots :: s.Valid()
    }

    ghost predicate QueuedBut(k: nat)
      reads this, slots
    {
      Queues(pendingReconnects, Views(), k)
    }

    ghost predicate Valid()
      reads this, slots
    {
      SlotsValid() && QueuedBut(|slots|)
    }

    /** Puts slot `k` into the queue if it waits for another round. */
    method Park(k: nat, delay: Option<nat>, now: nat)
      requires SlotsValid() && QueuedBut(k) && k < |slots| && (delay.Some? <==> slots[k].state.Awaiting?)
      modifies this
      ensures Valid()
      ensures pendingReconnects == old(pendingReconnects)
                + if delay.Some? then [PendingReconnect(now + delay.value * 1000, k, slots[k].generationId)] else []
    {
      hide Queues, SlotsValid;
      if delay.Some? {
        ParkedNow(pendingReconnects, Views(), PendingReconnect(now + delay.value * 1000, k, slots[k].generationId));
        pendingReconnects := pendingReconnects + [PendingReconnect(now + delay.value * 1000, k, slots[k].generationId)];
      } else {
        NotParked(pendingReconnects, Views(), k);
      }
    }

    method LeaseSlot(k: nat)
      requires Valid() && k < |slots| && slots[k].state.Free?
      modifies slots
      ensures SlotsValid() && QueuedBut(k) && forall j | 0 <= j < |slots| && j != k :: unchanged(slots[j])
      ensures slots[k].state.Dialing? && slots[k].addrsTried == slots[k].reconnectAttempts == 0
      ensures slots[k].generationId == old(slots[k].generationId) + 1 && slots[k].outcomes == []
    {
      hide BackgroundSlot.Valid, Queues;
      ghost var views := Views();
      slots[k].Lease();
      LeaseKeeps(pendingReconnects, views, k, Views()[k]);
      assert Views() == views[k := Views()[k]];
    }

    /** Leases a slot and dials. */
    method Start(k: nat, now: nat, random: nat) returns (delay: Option<nat>)
      requires Valid() && k < |slots| && slots[k].state.Free?
      modifies this, slots
      ensures Valid() && forall j | 0 <= j < |slots| && j != k :: unchanged(slots[j])
      ensures delay.Some? ==> Drawn(delay.value, slots[k].backoffBase, slots[k].backoffMax, 0)
      ensures slots[k].generationId == old(slots[k].generationId) + 1
              && RoundOf(slots[k].addresses, 0, slots[k].maxReconnectAttempts, slots[k].outcomes, slots[k].state)
      ensures pendingReconnects == old(pendingReconnects)
                + if delay.Some? then [PendingReconnect(now + delay.value * 1000, k, old(slots[k].generationId) + 1)]
                    else []
    {
      hide BackgroundSlot.Valid, Drawn, Queues;
      LeaseSlot(k);
      ghost var views := Views();
      delay := slots[k].Dial(random);
      QueuesKept(pendingReconnects, views, k, Views()[k]);
      assert Views() == views[k := Views()[k]];
      Park(k, delay, now);
    }

    /** A dial of slot `k` has failed. */
    method Fail(k: nat, fatal: bool, reason: Reason, alive: bool, now: nat, random: nat) returns (delay: Option<nat>)
      requires Valid() && k < |slots| && slots[k].state.Dialing?
      modifies this, slots
      ensures Valid() && forall j | 0 <= j < |slots| && j != k :: unchanged(slots[j])
      ensures delay.Some? ==> Drawn(delay.value, slots[k].backoffBase, slots[k].backoffMax,
                                    old(slots[k].reconnectAttempts))
      ensures old(slots[k].outcomes) <= slots[k].outcomes && old(slots[k].addrsTried) <= slots[k].addresses
              && AfterFailure(reason == Error && !alive, fatal, slots[k].addresses - old(slots[k].addrsTried),
                              old(slots[k].reconnectAttempts), slots[k].maxReconnectAttempts,
                              slots[k].outcomes[|old(slots[k].outcomes)|..], slots[k].state)
      ensures pendingReconnects == old(pendingReconnects)
                + if delay.Some? then [PendingReconnect(now + delay.value * 1000, k, old(slots[k].generationId))]
                    else []
    {
      assert slots[k].addrsTried <= slots[k].addresses by {
        assert slots[k].Valid();
      }
      hide BackgroundSlot.Valid, Drawn, Queues;
      ghost var views := Views();
      DialingUnparked(pendingReconnects, views, k);
      delay := slots[k].HandleConnectFailure(fatal, reason, alive, random);
      QueuesKept(pendingReconnects, views, k, Views()[k]);
      assert Views() == views[k := Views()[k]];
      Park(k, delay, now);
    }

    /** Slot `k` is torn down while it waits or at any other time: its entry, if it has one, is stale. */
    method Release(k: nat)
      requires Valid() && k < |slots|
      modifies slots
      ensures slots[k].state == Free && slots[k].generationId == old(slots[k].generationId)
      ensures Valid() && forall j | 0 <= j < |slots| && j != k :: unchanged(slots[j])
    {
      hide BackgroundSlot.Valid, Queues;
      ghost var views := Views();
      slots[k].Release();
      FreedKeeps(pendingReconnects, views, k, Views()[k]);
      assert Views() == views[k := Views()[k]];
    }

    method Connected(k: nat)
      requires Valid() && k < |slots| && slots[k].state.Dialing?
      modifies slots
      ensures slots[k].state == Pooled && slots[k].reconnectAttempts == 0
      ensures Valid() && forall j | 0 <= j < |slots| && j != k :: unchanged(slots[j])
    {
      hide BackgroundSlot.Valid, Queues;
      ghost var views := Views();
      slots[k].Connected();
      FreedKeeps(pendingReconnects, views, k, Views()[k]);
      assert Views() == views[k := Views()[k]];
    }

    /** Wakes the parked slots whose delay is over. Each due entry leaves the queue once; its slot, if
        it is still the one parked, begins its next round, exactly one, and may be parked again for at
        least a second. All other entries and slots stay as they are, in whatever order. */
    method HandleReconnects(now: nat, random: nat -> nat)
      returns (ghost dialled: seq<PendingReconnect>, ghost again: seq<PendingReconnect>)
      requires Valid()
      modifies this, slots
      ensures Valid() && forall p <- pendingReconnects :: p.wakeAtMs > now
      ensures forall p :: multiset(dialled)[p]
                       == if p.wakeAtMs <= now && LiveIn(old(Views()), p) then multiset(old(pendingReconnects))[p]
                           else 0
      ensures forall p :: multiset(pendingReconnects)[p]
                       == (if p.wakeAtMs <= now then 0 else multiset(old(pendingReconnects))[p]) + multiset(again)[p]
      ensures forall p <- again :: p.slotIdx < |slots| && DelayDrawn(p, old(Views())[p.slotIdx], now)
      ensures forall k | 0 <= k < |slots| ::
                if k in SlotsOf(dialled) then Woken(old(Views())[k], Views()[k]) else Views()[k] == old(Views())[k]
    {
      hide Accounted, Valid, Views, LiveIn, SlotsOf, Swapped, SlotsValid, QueuedBut, Queues, Sweeping, Handled,
          DelayDrawn, Woken;
      ghost var parked, start := pendingReconnects, Views();
      ghost var live := p => LiveIn(start, p);
      dialled, again := [], [];
      ghost var handled: multiset<PendingReconnect> := multiset{};
      AccountStart(parked, live, now);
      SweepStart(start, parked, now);
      var i := 0;
      while i < |pendingReconnects|
        invariant i <= |pendingReconnects| && Accounted(parked, pendingReconnects, handled, dialled, again, live, now)
        invariant forall j | 0 <= j < i :: pendingReconnects[j].wakeAtMs > now
        invariant Valid() && Sweeping(start, Views(), pendingReconnects, dialled, again, now)
        decreases |parked| - |handled|, |pendingReconnects| - i
      {
        if pendingReconnects[i].wakeAtMs > now {
          i := i + 1;
        } else {
          ghost var q, views, due := pendingReconnects, Views(), pendingReconnects[i];
          var next := HandleDue(i, now, random(i));
          SweepStep(start, q, i, views, pendingReconnects, Views(), dialled, again, next, now);
          AccountStep(parked, q, handled, dialled, again, live, now, i, next);
          Erase(q, i);
          handled := handled + multiset{due};
          dialled := if live(due) then dialled + [due] else dialled;
          again := again + next;
        }
      }
      AccountEnd(parked, pendingReconnects, handled, dialled, again, live, now);
      SweepEnd(start, Views(), pendingReconnects, dialled, again, now);
    }

    /** Takes a due entry out of the queue and, if its slot is still parked by it, wakes the slot. */
    method HandleDue(i: nat, now: nat, random: nat) returns (ghost next: seq<PendingReconnect>)
      requires Valid() && i < |pendingReconnects|
      modifies this, slots
      ensures Valid() && Handled(old(pendingReconnects), i, old(Views()), pendingReconnects, Views(), next, now)
    {
      hide BackgroundSlot.Valid, Drawn, Queues, SlotsValid;
      var due := pendingReconnects[i];
      ghost var views := Views();
      Removed(pendingReconnects, views, i);
      var last := |pendingReconnects| - 1;
      pendingReconnects := pendingReconnects[i := pendingReconnects[last]][..last];
      next := [];
      if due.slotIdx < |slots| && slots[due.slotIdx].state.Awaiting?
         && slots[due.slotIdx].generationId == due.generationId
      {
        var k := due.slotIdx;
        var delay := Wake(k, now, random);
        next := if delay.Some? then [PendingReconnect(now + delay.value * 1000, k, due.generationId)] else [];
        assert Views() == views[k := Views()[k]];
        if delay.Some? {
          DrawnFrom(delay.value, views[k], next[0], now);
        }
      } else {
        assert Views() == views;
      }
    }

    /** The next round of slot `k`, whose entry has been taken out of the queue. */
    method Wake(k: nat, now: nat, random: nat) returns (delay: Option<nat>)
      requires SlotsValid() && QueuedBut(k) && k < |slots| && slots[k].state.Awaiting?
      modifies this, slots
      ensures Valid()
      ensures delay.Some? ==> Drawn(delay.value, slots[k].backoffBase, slots[k].backoffMax,
                                    old(slots[k].reconnectAttempts))
      ensures pendingReconnects == old(pendingReconnects)
                + if delay.Some? then [PendingReconnect(now + delay.value * 1000, k, old(slots[k].generationId))]
                    else []
      ensures Woken(old(slots[k].Seen()), slots[k].Seen())
      ensures forall j | 0 <= j < |slots| && j != k :: unchanged(slots[j])
    {
      hide BackgroundSlot.Valid, Drawn, Queues;
      ghost var views := Views();
      delay := slots[k].Reconnect(random);
      QueuesKept(pendingReconnects, views, k, Views()[k]);
      assert Views() == views[k := Views()[k]];
      Park(k, delay, now);
    }
  }

  function SlotsOf(ps: seq<PendingReconnect>): set<nat> { set p <- ps :: p.slotIdx }

  lemma SlotsMore(ps: seq<PendingReconnect>, p: PendingReconnect)
    ensures SlotsOf(ps + [p]) == SlotsOf(ps) + {p.slotIdx}
  {
    forall k | k in SlotsOf(ps) + {p.slotIdx} ensures k in SlotsOf(ps + [p]) {
      assert (ps + [p])[|ps|] == p;
      if k in SlotsOf(ps) {
        var i :| 0 <= i < |ps| && ps[i].slotIdx == k;
        assert (ps + [p])[i] == ps[i];
      }
    }
  }

  /** The queue with the last element moved into the hole at i. */
  function Swapped(s: seq<PendingReconnect>, i: nat): seq<PendingReconnect>
    requires i < |s|
  {
    s[i := s[|s| - 1]][..|s| - 1]
  }

  lemma AccountStart(parked: seq<PendingReconnect>, live: PendingReconnect -> bool, now: nat)
    ensures Accounted(parked, parked, multiset{}, [], [], live, now)
  {
  }

  lemma AccountStep(parked: seq<PendingReconnect>, pending: seq<PendingReconnect>, handled: multiset<PendingReconnect>,
                    dialled: seq<PendingReconnect>, again: seq<PendingReconnect>, live: PendingReconnect -> bool,
                    now: nat, i: nat, next: seq<PendingReconnect>)
    requires Accounted(parked, pending, handled, dialled, again, live, now) && i < |pending|
            && pending[i].wakeAtMs <= now
    requires |next| <= (if live(pending[i]) then 1 else 0) && forall p <- next :: p.wakeAtMs >= now + 1000
    ensures Accounted(parked, Swapped(pending, i) + next, handled + multiset{pending[i]},
                      if live(pending[i]) then dialled + [pending[i]] else dialled, again + next, live, now)
    ensures |handled| < |parked|
  {
    hide Swapped;
    Erase(pending, i);
    HandledLess(parked, handled, again, pending, pending[i], now);
    MoveCounted(multiset(pending), handled, multiset(parked), multiset(again), multiset(Swapped(pending, i)),
                pending[i], multiset(next));
  }

  lemma MoveCounted<T>(pending: multiset<T>, handled: multiset<T>, parked: multiset<T>, again: multiset<T>,
                       rest: multiset<T>, due: T, next: multiset<T>)
    requires pending + handled == parked + again && pending == rest + multiset{due}
    ensures rest + next + (handled + multiset{due}) == parked + (again + next)
  {
    assert rest + next + (handled + multiset{due}) == pending + handled + next;
  }

  lemma AccountEnd(parked: seq<PendingReconnect>, pending: seq<PendingReconnect>, handled: multiset<PendingReconnect>,
                   dialled: seq<PendingReconnect>, again: seq<PendingReconnect>, live: PendingReconnect -> bool,
                       now: nat)
    requires Accounted(parked, pending, handled, dialled, again, live, now) && forall j | 0 <= j < |pending| ::
            pending[j].wakeAtMs > now
    ensures forall p :: multiset(dialled)[p] == if p.wakeAtMs <= now && live(p) then multiset(parked)[p] else 0
    ensures forall p ::
            multiset(pending)[p] == (if p.wakeAtMs <= now then 0 else multiset(parked)[p]) + multiset(again)[p]
    ensures forall p <- again :: p.wakeAtMs >= now + 1000
    ensures |again| <= |dialled|
  {
    forall p: PendingReconnect
      ensures handled[p] == if p.wakeAtMs <= now then multiset(parked)[p] else 0
      ensures multiset(pending)[p] == (if p.wakeAtMs <= now then 0 else multiset(parked)[p]) + multiset(again)[p]
    {
      assert (multiset(pending) + handled)[p] == (multiset(parked) + multiset(again))[p];
      if p.wakeAtMs <= now {
        assert p !in pending && p !in again;
      } else {
        assert p !in handled;
      }
    }
  }

  lemma SwappedAt(s: seq<PendingReconnect>, i: nat)
    requires i < |s| - 1
    ensures Swapped(s, i) == s[..i] + [s[|s| - 1]] + s[i + 1..|s| - 1]
  {
  }

  lemma Parted(s: seq<PendingReconnect>, i: nat)
    requires i < |s| - 1
    ensures s == s[..i] + [s[i]] + s[i + 1..|s| - 1] + [s[|s| - 1]]
  {
  }

  lemma Exchanged<T>(a: seq<T>, x: T, b: seq<T>, y: T)
    ensures multiset(a + [x] + b + [y]) == multiset(a + [y] + b) + multiset{x}
  {
  }

  /** Moving the last element into a hole takes out exactly the element that was there. */
  lemma Erase(s: seq<PendingReconnect>, i: nat)
    requires i < |s|
    ensures |Swapped(s, i)| == |s| - 1 && multiset(s) == multiset(Swapped(s, i)) + multiset{s[i]}
    ensures forall j | 0 <= j < i :: Swapped(s, i)[j] == s[j]
  {
    hide Swapped;
    SwappedKeeps(s, i);
    if i == |s| - 1 {
      EraseLast(s);
    } else {
      SwappedAt(s, i);
      Parted(s, i);
      Exchanged(s[..i], s[i], s[i + 1..|s| - 1], s[|s| - 1]);
    }
  }

  lemma SwappedKeeps(s: seq<PendingReconnect>, i: nat)
    requires i < |s|
    ensures |Swapped(s, i)| == |s| - 1 && forall j | 0 <= j < i :: Swapped(s, i)[j] == s[j]
  {
  }

  lemma EraseLast(s: seq<PendingReconnect>)
    requires s != []
    ensures multiset(s) == multiset(Swapped(s, |s| - 1)) + multiset{s[|s| - 1]}
  {
    assert Swapped(s, |s| - 1) == s[..|s| - 1];
    assert s == s[..|s| - 1] + [s[|s| - 1]];
  }

  lemma HandledLess(parked: seq<PendingReconnect>, handled: multiset<PendingReconnect>, again: seq<PendingReconnect>,
                    pending: seq<PendingReconnect>, due: PendingReconnect, now: nat)
    requires multiset(pending) + handled == multiset(parked) + multiset(again)
    requires (forall p <- handled :: p.wakeAtMs <= now) && (forall p <- again :: p.wakeAtMs >= now + 1000)
    requires due in pending && due.wakeAtMs <= now
    ensures |handled| < |parked|
  {
    var more := handled + multiset{due};
    forall p ensures more[p] <= multiset(parked)[p] {
      assert (multiset(pending) + handled)[p] == (multiset(parked) + multiset(again))[p];
      if more[p] > 0 {
        assert p !in again;
      }
    }
    assert multiset(parked) == more + (multiset(parked) - more);
  }
}
