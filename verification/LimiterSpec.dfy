/** What the request rate limiter promises: a bounded move-to-front list of identities, each with a
    token bucket. */
module LimiterSpec {
  import opened Helpers

  /** An address; limiters key on its subnet, with the port dropped. */
  datatype Ip = Ip(family: nat, raw: seq<bv8>, port: nat)

  datatype Bucket = Bucket(tokens: nat, lastRefill: int)

  datatype Entry = Entry(key: Ip, refCount: nat, bucket: Bucket)

  /** Tracked identities, the one touched last in front, and the number of slots never used. */
  datatype Lru = Lru(entries: seq<Entry>, free: nat)

  const U32 := 0x1_0000_0000
  const U64 := 0x1_0000_0000_0000_0000

  /** `ticksPerMs` is the resolution of the clock. */
  datatype Config = Config(burst: nat, rate: nat, ticksPerMs: nat)

  predicate Sane(cfg: Config) { cfg.burst < U32 && cfg.rate < U32 && cfg.ticksPerMs > 0 }

  // ---------------------------------------------------------------- the move-to-front list

  /** Position of an identity, or the length of the list. */
  function IndexOf(es: seq<Entry>, key: Ip): (i: nat)
    ensures i <= |es| && (i < |es| ==> es[i].key == key) && forall j | 0 <= j < i :: es[j].key != key
  {
    if es == [] then 0 else if es[0].key == key then 0 else 1 + IndexOf(es[1..], key)
  }

  function Without<T>(s: seq<T>, i: nat): seq<T>
    requires i < |s|
  {
    s[..i] + s[i + 1..]
  }

  function ToFront<T>(s: seq<T>, i: nat): seq<T>
    requires i < |s|
  {
    [s[i]] + Without(s, i)
  }

  /** The last entry no connection holds open; -1 if there is none. */
  function LastIdle(es: seq<Entry>): (i: int)
    ensures -1 <= i < |es| && (i >= 0 ==> es[i].refCount == 0) && forall j | i < j < |es| :: es[j].refCount > 0
  {
    if es == [] then -1
    else if es[|es| - 1].refCount == 0 then |es| - 1
    else LastIdle(es[..|es| - 1])
  }

  /** No identity is tracked twice. */
  predicate Distinct(es: seq<Entry>) {
    forall i, j | 0 <= i < j < |es| :: es[i].key != es[j].key
  }

  datatype Found = Missing | Existing | Created

  /** Finds an identity and moves it to the front, or tracks it anew in an unused slot or in that of
      the idle identity touched longest ago. When the index cannot take the new key, the slot is
      lost and the evicted identity stays forgotten. */
  function FindOrCreate(l: Lru, key: Ip, insertOk: bool, now: int): (Lru, Found) {
    var i := IndexOf(l.entries, key);
    var blank := Entry(key, 0, Bucket(0, now));
    if i < |l.entries| then (Lru(ToFront(l.entries, i), l.free), Existing)
    else if l.free > 0 then
      if insertOk then (Lru([blank] + l.entries, l.free - 1), Created) else (Lru(l.entries, l.free - 1), Missing)
    else
      var v := LastIdle(l.entries);
      if v < 0 then (l, Missing)
      else if insertOk then (Lru([blank] + Without(l.entries, v), 0), Created)
      else (Lru(Without(l.entries, v), 0), Missing)
  }

  function SetFront(l: Lru, e: Entry): Lru
    requires l.entries != []
  {
    l.(entries := [e] + l.entries[1..])
  }

  lemma FoundInFront(l: Lru, key: Ip, insertOk: bool, now: int)
    ensures var r := FindOrCreate(l, key, insertOk, now); !r.1.Missing? ==>
            r.0.entries != [] && r.0.entries[0].key == key
  {
  }

  /** Counts one more connection on an identity; a new identity starts with a full bucket. */
  function Acquire(cfg: Config, l: Lru, key: Ip, insertOk: bool, now: int): (Lru, bool) {
    var r := FindOrCreate(l, key, insertOk, now);
    if r.1.Missing? then (r.0, false)
    else
      FoundInFront(l, key, insertOk, now);
      var e := r.0.entries[0];
      var b := if r.1.Created? then e.bucket.(tokens := cfg.burst) else e.bucket;
      (SetFront(r.0, Entry(key, e.refCount + 1, b)), true)
  }

  /** Whole milliseconds since the last refill times the rate, in 64-bit arithmetic. */
  function Refill(cfg: Config, b: Bucket, now: int): nat
    requires Sane(cfg)
  {
    var elapsedMs := if now > b.lastRefill then (now - b.lastRefill) / cfg.ticksPerMs else 0;
    (elapsedMs * cfg.rate) % U64 / 1000
  }

  /** Refills, in 32-bit arithmetic up to the burst size, and takes a token if there is one. */
  function TakeToken(cfg: Config, b: Bucket, now: int): (r: (Bucket, bool))
    requires Sane(cfg)
  {
    var refill := Refill(cfg, b, now);
    var b' := if refill > 0 then Bucket(Min(cfg.burst, (b.tokens + refill % U32) % U32), now) else b;
    if b'.tokens > 0 then (b'.(tokens := b'.tokens - 1), true) else (b', false)
  }

  function AllowRequest(cfg: Config, l: Lru, key: Ip, now: int): (Lru, bool)
    requires Sane(cfg)
  {
    var i := IndexOf(l.entries, key);
    if i == |l.entries| then (l, false)
    else
      var r := TakeToken(cfg, l.entries[i].bucket, now);
      (SetFront(Lru(ToFront(l.entries, i), l.free), l.entries[i].(bucket := r.0)), r.1)
  }

  function Release(l: Lru, key: Ip): Lru {
    var i := IndexOf(l.entries, key);
    if i == |l.entries| then l
    else
      var e := l.entries[i];
      l.(entries := l.entries[i := e.(refCount := if e.refCount > 0 then e.refCount - 1 else 0)])
  }
}
