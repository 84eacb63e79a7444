/** Runs of the rate limiter: who stays tracked, in which order, and how many requests pass. */
module LimiterRuns {
  import opened Helpers
  import opened LimiterSpec

  /** One call of the limiter; `insertOk` says whether the index could take a new key. */
  datatype Op = DoAcquire(key: Ip, insertOk: bool, now: int) | DoAllow(key: Ip, now: int) | DoRelease(key: Ip)

  function Step(cfg: Config, l: Lru, op: Op): (Lru, bool)
    requires Sane(cfg)
  {
    match op
    case DoAcquire(key, insertOk, now) => Acquire(cfg, l, key, insertOk, now)
    case DoAllow(key, now) => AllowRequest(cfg, l, key, now)
    case DoRelease(key) => (Release(l, key), true)
  }

  function Lookup(l: Lru, key: Ip): Option<Entry> {
    var i := IndexOf(l.entries, key);
    if i < |l.entries| then Some(l.entries[i]) else None
  }

  // ---------------------------------------------------------------- lookups after list operations

  lemma LookupIs(l: Lru, i: nat)
    requires Distinct(l.entries) && i < |l.entries|
    ensures Lookup(l, l.entries[i].key) == Some(l.entries[i])
  {
    var j := IndexOf(l.entries, l.entries[i].key);
    assert l.entries[i].key == l.entries[i].key;
  }

  lemma AbsentKey(es: seq<Entry>, key: Ip)
    requires IndexOf(es, key) == |es|
    ensures forall x <- es :: x.key != key
  {
  }

  lemma NoneTracked(es: seq<Entry>, key: Ip)
    requires forall x <- es :: x.key != key
    ensures IndexOf(es, key) == |es|
  {
  }

  /** Two lists with the same entries have the same lookups. */
  lemma SameLookups(l: Lru, l': Lru, key: Ip)
    requires Distinct(l.entries) && Distinct(l'.entries)
    requires forall e: Entry | e.key == key :: e in l.entries <==> e in l'.entries
    ensures Lookup(l, key) == Lookup(l', key)
  {
    var i := IndexOf(l.entries, key);
    if i < |l.entries| {
      assert l.entries[i] in l'.entries;
      var k: nat :| k < |l'.entries| && l'.entries[k] == l.entries[i];
      LookupIs(l', k);
    } else {
      AbsentKey(l.entries, key);
      forall x <- l'.entries ensures x.key != key {
      }
      NoneTracked(l'.entries, key);
    }
  }

  lemma WithoutDistinct(es: seq<Entry>, i: nat)
    requires Distinct(es) && i < |es|
    ensures Distinct(Without(es, i)) && es[i] !in Without(es, i)
    ensures forall e: Entry :: e in es <==> e == es[i] || e in Without(es, i)
    ensures forall e <- Without(es, i) :: e.key != es[i].key
  {
    var rest := Without(es, i);
    forall k | 0 <= k < |rest| ensures rest[k] == es[if k < i then k else k + 1] {
    }
    forall e <- es ensures e == es[i] || e in rest {
      var k :| 0 <= k < |es| && es[k] == e;
      assert k != i ==> rest[if k < i then k else k - 1] == e;
    }
  }

  lemma PrependDistinct(e: Entry, es: seq<Entry>)
    requires Distinct(es) && forall x <- es :: x.key != e.key
    ensures Distinct([e] + es)
  {
  }

  lemma LookupPrepend(e: Entry, es: seq<Entry>, key: Ip, free: nat, free': nat)
    ensures Lookup(Lru([e] + es, free), key) == if e.key == key then Some(e) else Lookup(Lru(es, free'), key)
  {
    assert ([e] + es)[1..] == es;
  }

  lemma LookupWithout(l: Lru, i: nat, key: Ip, free: nat)
    requires Distinct(l.entries) && i < |l.entries|
    ensures Distinct(Without(l.entries, i))
    ensures Lookup(Lru(Without(l.entries, i), free), key) == if l.entries[i].key == key then None else Lookup(l, key)
  {
    var l' := Lru(Without(l.entries, i), free);
    WithoutDistinct(l.entries, i);
    if l.entries[i].key == key {
      NoneTracked(l'.entries, key);
    } else {
      SameLookups(l, l', key);
    }
  }

  /** Overwriting an entry in place. */
  lemma LookupUpdate(l: Lru, i: nat, e: Entry, key: Ip)
    requires Distinct(l.entries) && i < |l.entries| && e.key == l.entries[i].key
    ensures Distinct(l.entries[i := e])
    ensures Lookup(l.(entries := l.entries[i := e]), key) == if e.key == key then Some(e) else Lookup(l, key)
  {
    var l' := l.(entries := l.entries[i := e]);
    if e.key == key {
      LookupIs(l', i);
    } else {
      var j := IndexOf(l.entries, key);
      if j < |l.entries| {
        assert l'.entries[j] == l.entries[j];
        LookupIs(l', j);
        LookupIs(l, j);
      } else {
        AbsentKey(l.entries, key);
        NoneTracked(l'.entries, key);
      }
    }
  }

  /** The entry found for `key` moved to the front and overwritten. */
  lemma LookupTouched(l: Lru, i: nat, e: Entry, key: Ip)
    requires Distinct(l.entries) && i < |l.entries| && e.key == l.entries[i].key
    ensures ToFront(l.entries, i) != []
    ensures var l' := SetFront(Lru(ToFront(l.entries, i), l.free), e);
            && Distinct(l'.entries) && l'.entries == [e] + Without(l.entries, i)
            && Lookup(l', key) == if e.key == key then Some(e) else Lookup(l, key)
  {
    var rest := Without(l.entries, i);
    assert ToFront(l.entries, i)[1..] == rest;
    WithoutDistinct(l.entries, i);
    PrependDistinct(e, rest);
    LookupPrepend(e, rest, key, l.free, l.free);
    LookupWithout(l, i, key, l.free);
  }

  // ---------------------------------------------------------------- what one call does to whom

  /** Acquiring counts a connection on the identity, with a full bucket if it was not tracked, and
      changes nobody else, except that one idle identity may be forgotten to make room. */
  lemma AcquireEffect(cfg: Config, l: Lru, key: Ip, insertOk: bool, now: int, other: Ip)
    requires Distinct(l.entries)
    ensures var (l', ok) := Acquire(cfg, l, key, insertOk, now);
            && Distinct(l'.entries)
            && (ok ==> Lookup(l', key) == Some(match Lookup(l, key)
                                               case Some(e) => e.(refCount := e.refCount + 1)
                                               case None => Entry(key, 1, Bucket(cfg.burst, now))))
            && (!ok ==> Lookup(l, key) == Lookup(l', key) == None)
            && (Lookup(l, key).Some? ==> ok)
            && (other != key ==>
                  Lookup(l', other) == Lookup(l, other)
                  || (Lookup(l', other) == None && Lookup(l, other).value.refCount == 0 && l.free == 0))
  {
    hide Distinct, IndexOf, LastIdle, Without;
    var i := IndexOf(l.entries, key);
    if i < |l.entries| {
      var e := l.entries[i];
      LookupTouched(l, i, e.(refCount := e.refCount + 1), key);
      LookupTouched(l, i, e.(refCount := e.refCount + 1), other);
      FrontKept(l, i);
    } else {
      AcquireNew(cfg, l, key, insertOk, now, other);
    }
  }

  lemma FrontKept(l: Lru, i: nat)
    requires i < |l.entries|
    ensures ToFront(l.entries, i) != [] && ToFront(l.entries, i)[0] == l.entries[i]
  {
  }

  lemma {:induction false} AcquireNew(cfg: Config, l: Lru, key: Ip, insertOk: bool, now: int, other: Ip)
    requires Distinct(l.entries) && IndexOf(l.entries, key) == |l.entries|
    ensures var (l', ok) := Acquire(cfg, l, key, insertOk, now);
            && Distinct(l'.entries)
            && Lookup(l', key) == (if ok then Some(Entry(key, 1, Bucket(cfg.burst, now))) else None)
            && (other != key ==>
                  Lookup(l', other) == Lookup(l, other)
                  || (Lookup(l', other) == None && Lookup(l, other).value.refCount == 0 && l.free == 0))
  {
    hide Distinct, LastIdle, Without, IndexOf;
    var v := LastIdle(l.entries);
    var rest := if l.free > 0 || v < 0 then l.entries else Without(l.entries, v);
    if l.free == 0 && v >= 0 {
      LookupWithout(l, v, other, 0);
      LookupWithout(l, v, key, 0);
      LookupIs(l, v);
    }
    var e := Entry(key, 1, Bucket(cfg.burst, now));
    AbsentKey(rest, key);
    PrependDistinct(e, rest);
    LookupPrepend(e, rest, key, l.free, l.free);
    LookupPrepend(e, rest, other, l.free, l.free);
    assert forall x: Entry {:trigger [x] + rest} :: ([x] + rest)[1..] == rest;
    assert Lookup(Acquire(cfg, l, key, insertOk, now).0, other)
        == Lookup(Lru(Acquire(cfg, l, key, insertOk, now).0.entries, l.free), other);
  }

  /** A request touches its identity's bucket and nothing else. */
  lemma AllowEffect(cfg: Config, l: Lru, key: Ip, now: int, other: Ip)
    requires Sane(cfg) && Distinct(l.entries)
    ensures var (l', ok) := AllowRequest(cfg, l, key, now);
            && Distinct(l'.entries)
            && (Lookup(l, key) == None ==> !ok && l' == l)
            && (Lookup(l, key).Some? ==>
                  var e := Lookup(l, key).value; var r := TakeToken(cfg, e.bucket, now);
                  ok == r.1 && Lookup(l', key) == Some(e.(bucket := r.0)))
            && (other != key ==> Lookup(l', other) == Lookup(l, other))
  {
    hide Distinct, IndexOf, TakeToken, ToFront;
    var i := IndexOf(l.entries, key);
    if i < |l.entries| {
      var e := l.entries[i].(bucket := TakeToken(cfg, l.entries[i].bucket, now).0);
      LookupTouched(l, i, e, key);
      LookupTouched(l, i, e, other);
    }
  }

  /** The tokens in a bucket once what is due at `now` has been refilled. */
  function TokensAt(cfg: Config, b: Bucket, now: int): nat
    requires Sane(cfg)
  {
    var refill := Refill(cfg, b, now);
    if refill == 0 then b.tokens else Min(cfg.burst, (b.tokens + refill % U32) % U32)
  }

  /** A new identity is tracked exactly when the index takes it and a slot is free or can be freed. */
  lemma AcquiredIff(cfg: Config, l: Lru, key: Ip, insertOk: bool, now: int)
    ensures Acquire(cfg, l, key, insertOk, now).1 <==>
            Lookup(l, key).Some? || (insertOk && (l.free > 0 || exists e <- l.entries :: e.refCount == 0))
  {
    if e :| e in l.entries && e.refCount == 0 {
      var j :| 0 <= j < |l.entries| && l.entries[j] == e;
      assert j <= LastIdle(l.entries);
    }
  }

  /** Releasing counts one connection less on the identity and does nothing else. */
  lemma ReleaseEffect(l: Lru, key: Ip, other: Ip)
    requires Distinct(l.entries)
    ensures var l' := Release(l, key);
            && Distinct(l'.entries)
            && (Lookup(l, key) == None ==> l' == l)
            && (Lookup(l, key).Some? ==>
                  var e := Lookup(l, key).value;
                  Lookup(l', key) == Some(e.(refCount := if e.refCount > 0 then e.refCount - 1 else 0)))
            && (other != key ==> Lookup(l', other) == Lookup(l, other))
  {
    hide Distinct, IndexOf;
    var i := IndexOf(l.entries, key);
    if i < |l.entries| {
      var e := l.entries[i];
      var e' := e.(refCount := if e.refCount > 0 then e.refCount - 1 else 0);
      LookupUpdate(l, i, e', key);
      LookupUpdate(l, i, e', other);
    }
  }

  // ---------------------------------------------------------------- order of last touch

  function Run(cfg: Config, l: Lru, ops: seq<Op>): Lru
    requires Sane(cfg)
    decreases |ops|
  {
    if ops == [] then l else Run(cfg, Step(cfg, l, ops[0]).0, ops[1..])
  }

  /** Calls that find or create an identity touch it. */
  predicate Touches(cfg: Config, l: Lru, op: Op)
    requires Sane(cfg)
  {
    match op
    case DoAcquire(_, _, _) => Step(cfg, l, op).1
    case DoAllow(key, _) => Lookup(l, key).Some?
    case DoRelease(_) => false
  }

  /** The identities touched by a run, the last one first, in front of those touched before. */
  function TouchLog(cfg: Config, l: Lru, ops: seq<Op>, log: seq<Ip>): seq<Ip>
    requires Sane(cfg)
    decreases |ops|
  {
    if ops == [] then log
    else TouchLog(cfg, Step(cfg, l, ops[0]).0, ops[1..], if Touches(cfg, l, ops[0]) then [ops[0].key] + log else log)
  }

  function Age(log: seq<Ip>, key: Ip): (n: nat)
    ensures n <= |log| && (n < |log| <==> key in log)
  {
    if log == [] then 0 else if log[0] == key then 0 else 1 + Age(log[1..], key)
  }

  /** The list is in order of last touch. */
  predicate ByRecency(es: seq<Entry>, log: seq<Ip>) {
    && (forall e <- es :: e.key in log)
    && forall i, j | 0 <= i < j < |es| :: Age(log, es[i].key) < Age(log, es[j].key)
  }

  lemma RecencyWithout(es: seq<Entry>, log: seq<Ip>, i: nat)
    requires ByRecency(es, log) && i < |es|
    ensures ByRecency(Without(es, i), log)
  {
    var rest := Without(es, i);
    forall k | 0 <= k < |rest| ensures rest[k] == es[if k < i then k else k + 1] {
    }
    forall a, b | 0 <= a < b < |rest| ensures Age(log, rest[a].key) < Age(log, rest[b].key) {
      var a', b' := if a < i then a else a + 1, if b < i then b else b + 1;
      assert rest[a] == es[a'] && rest[b] == es[b'];
    }
  }

  lemma RecencyPrepend(e: Entry, es: seq<Entry>, log: seq<Ip>)
    requires ByRecency(es, log) && forall x <- es :: x.key != e.key
    ensures ByRecency([e] + es, [e.key] + log)
  {
    hide Age;
    var es', log' := [e] + es, [e.key] + log;
    AgeFront(e.key, log, e.key);
    forall i, j | 0 <= i < j < |es'| ensures Age(log', es'[i].key) < Age(log', es'[j].key) {
      assert es'[j] == es[j - 1] && es[j - 1] in es;
      AgeFront(e.key, log, es[j - 1].key);
      if i > 0 {
        assert es'[i] == es[i - 1] && es[i - 1] in es;
        AgeFront(e.key, log, es[i - 1].key);
      }
    }
  }

  lemma AgeFront(key: Ip, log: seq<Ip>, k: Ip)
    ensures Age([key] + log, k) == if k == key then 0 else Age(log, k) + 1
  {
    assert ([key] + log)[1..] == log;
  }

  lemma RecencyUpdate(es: seq<Entry>, log: seq<Ip>, i: nat, e: Entry)
    requires ByRecency(es, log) && i < |es| && e.key == es[i].key
    ensures ByRecency(es[i := e], log)
  {
    forall x <- es[i := e] ensures x.key in log {
      var k :| 0 <= k < |es| && es[i := e][k] == x;
      assert es[k] in es;
    }
  }

  lemma StepByRecency(cfg: Config, l: Lru, op: Op, log: seq<Ip>)
    requires Sane(cfg) && Distinct(l.entries) && ByRecency(l.entries, log)
    ensures var l' := Step(cfg, l, op).0;
            Distinct(l'.entries) && ByRecency(l'.entries, if Touches(cfg, l, op) then [op.key] + log else log)
  {
    hide Distinct, ByRecency, Age, IndexOf, LastIdle, Without, TakeToken;
    var i := IndexOf(l.entries, op.key);
    match op
    case DoAcquire(key, insertOk, now) =>
      AcquireEffect(cfg, l, key, insertOk, now, key);
      AcquireByRecency(cfg, l, key, insertOk, now, log);
    case DoAllow(key, now) =>
      AllowEffect(cfg, l, key, now, key);
      if i < |l.entries| {
        TouchByRecency(l, i, l.entries[i].(bucket := TakeToken(cfg, l.entries[i].bucket, now).0), log);
      }
    case DoRelease(key) =>
      ReleaseEffect(l, key, key);
      if i < |l.entries| {
        var e := l.entries[i];
        RecencyUpdate(l.entries, log, i, e.(refCount := if e.refCount > 0 then e.refCount - 1 else 0));
      }
  }

  lemma TouchByRecency(l: Lru, i: nat, e: Entry, log: seq<Ip>)
    requires Distinct(l.entries) && ByRecency(l.entries, log) && i < |l.entries| && e.key == l.entries[i].key
    ensures ToFront(l.entries, i) != []
    ensures ByRecency(SetFront(Lru(ToFront(l.entries, i), l.free), e).entries, [e.key] + log)
  {
    hide ByRecency;
    LookupTouched(l, i, e, e.key);
    RecencyWithout(l.entries, log, i);
    WithoutDistinct(l.entries, i);
    RecencyPrepend(e, Without(l.entries, i), log);
  }

  lemma AcquireByRecency(cfg: Config, l: Lru, key: Ip, insertOk: bool, now: int, log: seq<Ip>)
    requires Distinct(l.entries) && ByRecency(l.entries, log)
    ensures var (l', ok) := Acquire(cfg, l, key, insertOk, now);
            ByRecency(l'.entries, if ok then [key] + log else log)
  {
    hide Distinct, ByRecency, IndexOf, LastIdle, Without;
    var i := IndexOf(l.entries, key);
    if i < |l.entries| {
      var e := l.entries[i];
      FrontKept(l, i);
      TouchByRecency(l, i, e.(refCount := e.refCount + 1), log);
    } else {
      var v := LastIdle(l.entries);
      var rest := if l.free > 0 || v < 0 then l.entries else Without(l.entries, v);
      AbsentKey(l.entries, key);
      if l.free == 0 && v >= 0 {
        RecencyWithout(l.entries, log, v);
        WithoutKeys(l.entries, v, key);
      }
      var e := Entry(key, 1, Bucket(cfg.burst, now));
      RecencyPrepend(e, rest, log);
      assert forall x: Entry {:trigger [x] + rest} :: ([x] + rest)[1..] == rest;
    }
  }

  lemma WithoutKeys(es: seq<Entry>, i: nat, key: Ip)
    requires i < |es| && forall x <- es :: x.key != key
    ensures forall x <- Without(es, i) :: x.key != key
  {
    forall x <- Without(es, i) ensures x in es {
    }
  }

  /** After any calls the list is in order of last touch, no identity twice. Together with the
      choice of victim: the identity forgotten is, of those no connection holds, the one touched
      longest ago. */
  lemma {:induction false} RunByRecency(cfg: Config, l: Lru, ops: seq<Op>, log: seq<Ip>)
    requires Sane(cfg) && Distinct(l.entries) && ByRecency(l.entries, log)
    ensures Distinct(Run(cfg, l, ops).entries) && ByRecency(Run(cfg, l, ops).entries, TouchLog(cfg, l, ops, log))
    decreases |ops|
  {
    if ops != [] {
      hide Distinct, ByRecency;
      StepByRecency(cfg, l, ops[0], log);
      RunByRecency(cfg, Step(cfg, l, ops[0]).0, ops[1..], if Touches(cfg, l, ops[0]) then [ops[0].key] + log else log);
    }
  }

  /** While a connection holds an identity it is not forgotten, whoever else calls. */
  lemma HeldStays(cfg: Config, l: Lru, op: Op, key: Ip)
    requires Sane(cfg) && Distinct(l.entries) && key != op.key
    requires Lookup(l, key).Some? && Lookup(l, key).value.refCount > 0
    ensures Lookup(Step(cfg, l, op).0, key) == Lookup(l, key)
  {
    match op
    case DoAcquire(k, insertOk, now) => AcquireEffect(cfg, l, k, insertOk, now, key);
    case DoAllow(k, now) => AllowEffect(cfg, l, k, now, key);
    case DoRelease(k) => ReleaseEffect(l, k, key);
  }

  /** The identity that a call forgets was held by no connection, and of all such identities it is
      the one touched longest ago. */
  lemma ForgottenWasOldest(cfg: Config, l: Lru, op: Op, log: seq<Ip>, victim: Ip)
    requires Sane(cfg) && Distinct(l.entries) && ByRecency(l.entries, log)
    requires Lookup(l, victim).Some? && Lookup(Step(cfg, l, op).0, victim).None?
    ensures Lookup(l, victim).value.refCount == 0 && victim != op.key
    ensures forall e <- l.entries | e.refCount == 0 :: Age(log, e.key) <= Age(log, victim)
  {
    hide ByRecency, LastIdle, Distinct, Age;
    match op
    case DoAllow(key, now) => AllowEffect(cfg, l, key, now, victim);
    case DoRelease(key) => ReleaseEffect(l, key, victim);
    case DoAcquire(key, insertOk, now) =>
      AcquireEffect(cfg, l, key, insertOk, now, victim);
      VictimIs(cfg, l, key, insertOk, now, victim);
      LastIdleOldest(l.entries, log);
  }

  lemma LastIdleOldest(entries: seq<Entry>, log: seq<Ip>)
    requires ByRecency(entries, log) && LastIdle(entries) >= 0
    ensures forall e <- entries | e.refCount == 0 :: Age(log, e.key) <= Age(log, entries[LastIdle(entries)].key)
  {
    hide Age;
    forall e <- entries | e.refCount == 0 ensures Age(log, e.key) <= Age(log, entries[LastIdle(entries)].key) {
      var j :| 0 <= j < |entries| && entries[j] == e;
      assert j <= LastIdle(entries);
    }
  }

  lemma VictimIs(cfg: Config, l: Lru, key: Ip, insertOk: bool, now: int, victim: Ip)
    requires Distinct(l.entries) && victim != key
    requires Lookup(l, victim).Some? && Lookup(Acquire(cfg, l, key, insertOk, now).0, victim).None?
    ensures var v := LastIdle(l.entries); v >= 0 && l.entries[v].key == victim
  {
    hide IndexOf, LastIdle, Distinct, Without;
    var i := IndexOf(l.entries, key);
    var v := LastIdle(l.entries);
    if i < |l.entries| {
      var e := l.entries[i];
      FrontKept(l, i);
      LookupTouched(l, i, e.(refCount := e.refCount + 1), victim);
    } else {
      var rest := if l.free > 0 || v < 0 then l.entries else Without(l.entries, v);
      if l.free == 0 && v >= 0 {
        LookupWithout(l, v, victim, 0);
      }
      LookupPrepend(Entry(key, 1, Bucket(cfg.burst, now)), rest, victim, l.free, l.free);
      assert forall x: Entry {:trigger [x] + rest} :: ([x] + rest)[1..] == rest;
      assert Lookup(Acquire(cfg, l, key, insertOk, now).0, victim)
          == Lookup(Lru(Acquire(cfg, l, key, insertOk, now).0.entries, l.free), victim);
    }
  }

  // ---------------------------------------------------------------- lost slots

  /** Entries and unused slots together: what the limiter can still track. */
  function Capacity(l: Lru): nat { |l.entries| + l.free }

  /** A call that takes a slot for a new identity, and then finds that the index cannot hold its key. */
  predicate LosesSlot(l: Lru, op: Op) {
    op.DoAcquire? && !op.insertOk && Lookup(l, op.key).None? && (l.free > 0 || LastIdle(l.entries) >= 0)
  }

  /** Such calls of a run. */
  function Losses(cfg: Config, l: Lru, ops: seq<Op>): nat
    requires Sane(cfg)
    decreases |ops|
  {
    if ops == [] then 0 else (if LosesSlot(l, ops[0]) then 1 else 0) + Losses(cfg, Step(cfg, l, ops[0]).0, ops[1..])
  }

  lemma FoundCapacity(l: Lru, key: Ip, insertOk: bool, now: int)
    ensures Capacity(FindOrCreate(l, key, insertOk, now).0)
         == Capacity(l) - if LosesSlot(l, DoAcquire(key, insertOk, now)) then 1 else 0
  {
    hide LastIdle;
  }

  lemma StepCapacity(cfg: Config, l: Lru, op: Op)
    requires Sane(cfg)
    ensures Capacity(Step(cfg, l, op).0) == Capacity(l) - if LosesSlot(l, op) then 1 else 0
  {
    hide TakeToken, LastIdle, IndexOf, FindOrCreate;
    match op
    case DoAllow(key, now) =>
    case DoRelease(key) =>
    case DoAcquire(key, insertOk, now) => FoundInFront(l, key, insertOk, now); FoundCapacity(l, key, insertOk, now);
  }

  /** What can be tracked shrinks by one slot at each refused insert, and never otherwise. */
  lemma {:induction false} RunCapacity(cfg: Config, l: Lru, ops: seq<Op>)
    requires Sane(cfg)
    ensures Capacity(Run(cfg, l, ops)) + Losses(cfg, l, ops) == Capacity(l)
    decreases |ops|
  {
    if ops != [] {
      StepCapacity(cfg, l, ops[0]);
      RunCapacity(cfg, Step(cfg, l, ops[0]).0, ops[1..]);
    }
  }
}
