/** How many requests the token buckets let through. */
module LimiterBound {
  import opened Helpers
  import opened LimiterSpec
  import opened LimiterRuns

  /** Whole milliseconds since the last refill. */
  function ElapsedMs(cfg: Config, b: Bucket, now: int): nat
    requires Sane(cfg)
  {
    if now > b.lastRefill then (now - b.lastRefill) / cfg.ticksPerMs else 0
  }

  /** Whole milliseconds of a stretch of time, rounded down and rounded up. */
  function FloorMs(cfg: Config, ticks: nat): nat
    requires Sane(cfg)
  {
    ticks / cfg.ticksPerMs
  }

  function CeilMs(cfg: Config, ticks: nat): nat
    requires Sane(cfg)
  {
    (ticks + cfg.ticksPerMs - 1) / cfg.ticksPerMs
  }

  lemma RefillIs(cfg: Config, b: Bucket, now: int)
    requires Sane(cfg)
    ensures Refill(cfg, b, now) == (ElapsedMs(cfg, b, now) * cfg.rate) % U64 / 1000
  {
  }

  lemma ElapsedTicks(cfg: Config, b: Bucket, now: int)
    requires Sane(cfg) && now >= b.lastRefill
    ensures now - b.lastRefill - cfg.ticksPerMs < ElapsedMs(cfg, b, now) * cfg.ticksPerMs <= now - b.lastRefill
  {
    DivisionBounds(now - b.lastRefill, cfg.ticksPerMs);
  }

  lemma DivisionBounds(a: nat, d: nat)
    requires d > 0
    ensures a - d < a / d * d <= a
  {
    assert a == a / d * d + a % d;
  }

  lemma ModBelow(a: nat, m: nat)
    requires m > 0
    ensures a % m <= a
  {
    assert a == a / m * m + a % m;
    MulNonneg(a / m, m);
  }

  lemma MulNonneg(a: int, b: int)
    requires a >= 0 && b >= 0
    ensures a * b >= 0
  {
  }

  lemma Cancel(a: int, c: int, u: nat)
    requires u > 0 && a * u < (c + 1) * u
    ensures a <= c
  {
    if a > c {
      MulMono(c + 1, a, u);
    }
  }

  /** Either nothing was refilled, or everything refilled is in the bucket or beyond the burst. */
  lemma TakeCases(cfg: Config, b: Bucket, now: int)
    requires Sane(cfg) && b.tokens <= cfg.burst
    ensures var (b', ok) := TakeToken(cfg, b, now);
            var taken := if ok then 1 else 0;
            && b'.tokens <= cfg.burst
            && (Refill(cfg, b, now) == 0 ==> taken + b'.tokens == b.tokens && b'.lastRefill == b.lastRefill)
            && (Refill(cfg, b, now) > 0 ==>
                  && taken + b'.tokens <= b.tokens + Refill(cfg, b, now)
                  && taken + b'.tokens <= cfg.burst && b'.lastRefill == now)
  {
    hide Refill;
    RefillRange(cfg, b, now);
  }

  /** Without wrap-around a request passes exactly when the tokens left and the `whole` ones that `ms`
      milliseconds are worth come to one at least, within the burst; and it spends one of them. The
      time of the last refill moves when something is refilled. */
  lemma TokensExact(cfg: Config, b: Bucket, now: int, ms: nat, whole: nat)
    requires Sane(cfg) && b.tokens <= cfg.burst
    requires if now < b.lastRefill then ms == 0
             else b.lastRefill + ms * cfg.ticksPerMs <= now < b.lastRefill + (ms + 1) * cfg.ticksPerMs
    requires 1000 * whole <= ms * cfg.rate < 1000 * (whole + 1) && ms * cfg.rate < U64 && b.tokens + whole < U32
    ensures var t := Min(cfg.burst, b.tokens + whole);
            && TokensAt(cfg, b, now) == t
            && TakeToken(cfg, b, now)
            == (Bucket(if t > 0 then t - 1 else 0, if whole > 0 then now else b.lastRefill), t > 0)
  {
    hide Refill;
    if now >= b.lastRefill {
      Quotient(now - b.lastRefill, cfg.ticksPerMs, ms, now - b.lastRefill - ms * cfg.ticksPerMs);
    }
    RefillIs(cfg, b, now);
    assert ElapsedMs(cfg, b, now) == ms;
    Quotient(ms * cfg.rate, U64, 0, ms * cfg.rate);
    Quotient(ms * cfg.rate, 1000, whole, ms * cfg.rate - 1000 * whole);
    assert Refill(cfg, b, now) == whole;
    Quotient(whole, U32, 0, whole);
    Quotient(b.tokens + whole, U32, 0, b.tokens + whole);
  }

  function Taken(ok: bool): nat { if ok then 1 else 0 }

  /** Whole milliseconds add up to no more than the whole milliseconds of the sum. */
  lemma FloorJoin(x: nat, y: nat, g: nat)
    requires g > 0
    ensures x / g + y / g <= (x + y) / g
  {
    DivisionBounds(x, g);
    DivisionBounds(y, g);
    DivisionBounds(x + y, g);
    assert (x / g + y / g) * g == x / g * g + y / g * g;
    assert ((x + y) / g + 1) * g == (x + y) / g * g + g;
    Cancel(x / g + y / g, (x + y) / g, g);
  }

  /** Milliseconds up to `now`, and from a refill then up to `to`, are milliseconds up to `to`. */
  lemma ElapsedJoin(cfg: Config, b: Bucket, b': Bucket, now: int, to: int)
    requires Sane(cfg) && b.lastRefill <= now <= to && b'.lastRefill == now
    ensures ElapsedMs(cfg, b, now) + ElapsedMs(cfg, b', to) <= ElapsedMs(cfg, b, to)
  {
    FloorJoin(now - b.lastRefill, to - now, cfg.ticksPerMs);
    assert 0 / cfg.ticksPerMs == 0;
  }

  /** A refill is worth at most the whole milliseconds since the last one. */
  lemma RefillWorth(cfg: Config, b: Bucket, now: int)
    requires Sane(cfg)
    ensures Refill(cfg, b, now) * 1000 <= ElapsedMs(cfg, b, now) * cfg.rate
  {
    hide ElapsedMs;
    var ms := ElapsedMs(cfg, b, now);
    RefillIs(cfg, b, now);
    ModBelow(ms * cfg.rate, U64);
    DivisionBounds((ms * cfg.rate) % U64, 1000);
  }

  /** Taking a token pays for it out of the bucket or the whole milliseconds since the last refill,
      seen from any later time; the bucket never holds more than the burst size. */
  lemma TakePays(cfg: Config, b: Bucket, now: int, to: int)
    requires Sane(cfg) && b.lastRefill <= now <= to && b.tokens <= cfg.burst
    ensures var (b', ok) := TakeToken(cfg, b, now);
            && b'.tokens <= cfg.burst && b.lastRefill <= b'.lastRefill <= now
            && (Taken(ok) + b'.tokens) * 1000 + ElapsedMs(cfg, b', to) * cfg.rate
               <= b.tokens * 1000 + ElapsedMs(cfg, b, to) * cfg.rate
  {
    hide TakeToken, Refill, ElapsedMs;
    var (b', ok) := TakeToken(cfg, b, now);
    TakeCases(cfg, b, now);
    if Refill(cfg, b, now) > 0 {
      RefillWorth(cfg, b, now);
      ElapsedJoin(cfg, b, b', now, to);
      PaidByTime(ElapsedMs(cfg, b, now), ElapsedMs(cfg, b', to), ElapsedMs(cfg, b, to), cfg.rate);
    } else {
      SameElapsed(cfg, b, b', to);
    }
  }

  lemma PaidByTime(first: nat, later: nat, whole: nat, rate: nat)
    requires first + later <= whole
    ensures first * rate + later * rate <= whole * rate
  {
    MulMono(first + later, whole, rate);
  }

  lemma SameElapsed(cfg: Config, b: Bucket, b': Bucket, to: int)
    requires Sane(cfg) && b'.lastRefill == b.lastRefill
    ensures ElapsedMs(cfg, b', to) == ElapsedMs(cfg, b, to)
  {
  }

  lemma RefillRange(cfg: Config, b: Bucket, now: int)
    requires Sane(cfg)
    ensures Refill(cfg, b, now) % U32 <= Refill(cfg, b, now)
    ensures (b.tokens + Refill(cfg, b, now) % U32) % U32 <= b.tokens + Refill(cfg, b, now)
  {
    ModBelow(Refill(cfg, b, now), U32);
    ModBelow(b.tokens + Refill(cfg, b, now) % U32, U32);
  }

  // ---------------------------------------------------------------- over runs

  /** The clock does not run backwards and stays within [from, to]. */
  predicate Clocked(ops: seq<Op>, from: int, to: int)
    decreases |ops|
  {
    if ops == [] then from <= to
    else match ops[0]
         case DoAllow(_, now) => from <= now && Clocked(ops[1..], now, to)
         case DoAcquire(_, _, now) => from <= now && Clocked(ops[1..], now, to)
         case DoRelease(_) => Clocked(ops[1..], from, to)
  }

  /** The identity is tracked all along, so its bucket is never replaced. */
  predicate Kept(cfg: Config, l: Lru, ops: seq<Op>, key: Ip)
    requires Sane(cfg)
    decreases |ops|
  {
    Lookup(l, key).Some? && (ops != [] ==> Kept(cfg, Step(cfg, l, ops[0]).0, ops[1..], key))
  }

  /** Requests of the identity that pass. */
  function Allowed(cfg: Config, l: Lru, ops: seq<Op>, key: Ip): nat
    requires Sane(cfg)
    decreases |ops|
  {
    if ops == [] then 0
    else
      var r := Step(cfg, l, ops[0]);
      (if ops[0].DoAllow? && ops[0].key == key && r.1 then 1 else 0) + Allowed(cfg, r.0, ops[1..], key)
  }

  predicate Spends(op: Op, key: Ip) { op.DoAllow? && op.key == key }

  function BucketOf(l: Lru, key: Ip): Bucket
    requires Lookup(l, key).Some?
  {
    Lookup(l, key).value.bucket
  }

  /** While an identity stays tracked, only its own requests change its bucket. */
  lemma StepBucket(cfg: Config, l: Lru, op: Op, key: Ip)
    requires Sane(cfg) && Distinct(l.entries) && Lookup(l, key).Some? && Lookup(Step(cfg, l, op).0, key).Some?
    ensures var (l', ok) := Step(cfg, l, op);
            && Distinct(l'.entries)
            && (!Spends(op, key) ==> BucketOf(l', key) == BucketOf(l, key))
            && (Spends(op, key) ==> (BucketOf(l', key), ok) == TakeToken(cfg, BucketOf(l, key), op.now))
  {
    match op
    case DoAcquire(k, insertOk, now) => AcquireEffect(cfg, l, k, insertOk, now, key);
    case DoAllow(k, now) => AllowEffect(cfg, l, k, now, key);
    case DoRelease(k) => ReleaseEffect(l, k, key);
  }

  function TimeOf(op: Op, from: int): int {
    if op.DoRelease? then from else op.now
  }

  lemma KeptStep(cfg: Config, l: Lru, ops: seq<Op>, key: Ip, from: int, to: int)
    requires Sane(cfg) && ops != [] && Kept(cfg, l, ops, key) && Clocked(ops, from, to)
    ensures var (l', ok) := Step(cfg, l, ops[0]);
            && Lookup(l, key).Some? && Lookup(l', key).Some? && Kept(cfg, l', ops[1..], key)
            && from <= TimeOf(ops[0], from) && Clocked(ops[1..], TimeOf(ops[0], from), to)
            && Allowed(cfg, l, ops, key) == Taken(Spends(ops[0], key) && ok) + Allowed(cfg, l', ops[1..], key)
  {
  }

  lemma ClockEnds(ops: seq<Op>, from: int, to: int)
    requires Clocked(ops, from, to)
    ensures from <= to
    decreases |ops|
  {
    if ops != [] {
      ClockEnds(ops[1..], TimeOf(ops[0], from), to);
    }
  }

  /** Everything let through is paid for by the tokens at the start and the whole milliseconds since
      the last refill. */
  lemma {:induction false} BudgetBound(cfg: Config, l: Lru, ops: seq<Op>, key: Ip, from: int, to: int)
    requires Sane(cfg) && Distinct(l.entries) && Kept(cfg, l, ops, key) && Clocked(ops, from, to)
    requires Lookup(l, key).Some? && BucketOf(l, key).tokens <= cfg.burst && BucketOf(l, key).lastRefill <= from
    ensures Allowed(cfg, l, ops, key) * 1000
         <= BucketOf(l, key).tokens * 1000 + ElapsedMs(cfg, BucketOf(l, key), to) * cfg.rate
    decreases |ops|
  {
    hide Kept, Allowed, Step, TakeToken, ElapsedMs, Distinct, Lookup, Clocked;
    var b := BucketOf(l, key);
    ClockEnds(ops, from, to);
    MulNonneg(ElapsedMs(cfg, b, to), cfg.rate);
    if ops == [] {
      NoneAllowed(cfg, l, key);
    } else {
      KeptStep(cfg, l, ops, key, from, to);
      StepBucket(cfg, l, ops[0], key);
      var (l', ok) := Step(cfg, l, ops[0]);
      var now := TimeOf(ops[0], from);
      ClockEnds(ops[1..], now, to);
      if Spends(ops[0], key) {
        TakePays(cfg, b, now, to);
      }
      BudgetBound(cfg, l', ops[1..], key, now, to);
    }
  }

  lemma NoneAllowed(cfg: Config, l: Lru, key: Ip)
    requires Sane(cfg)
    ensures Allowed(cfg, l, [], key) == 0
  {
  }

  lemma DivideBound(a: nat, c: nat, u: nat, r: nat)
    requires u > 0 && a * u <= c * u + r
    ensures a <= c + r / u
  {
    DivisionBounds(r, u);
    assert (c + r / u + 1) * u == c * u + r / u * u + u;
    Cancel(a, c + r / u, u);
  }

  /** From the creation of an identity's bucket at t0 until `to`, no more requests pass than the burst
      size and what the rate grants in the whole milliseconds of that time, rounded down. */
  lemma SinceCreation(cfg: Config, l: Lru, ops: seq<Op>, key: Ip, t0: int, to: int)
    requires Sane(cfg) && Distinct(l.entries) && Kept(cfg, l, ops, key) && Clocked(ops, t0, to)
    requires Lookup(l, key).Some? && BucketOf(l, key) == Bucket(cfg.burst, t0)
    ensures t0 <= to && Allowed(cfg, l, ops, key) <= cfg.burst + FloorMs(cfg, to - t0) * cfg.rate / 1000
  {
    hide Allowed, Kept, Clocked, Lookup, Distinct;
    ClockEnds(ops, t0, to);
    BudgetBound(cfg, l, ops, key, t0, to);
    ElapsedFloor(cfg, Bucket(cfg.burst, t0), to);
    MulNonneg(FloorMs(cfg, to - t0), cfg.rate);
    DivideBound(Allowed(cfg, l, ops, key), cfg.burst, 1000, FloorMs(cfg, to - t0) * cfg.rate);
  }

  lemma ElapsedFloor(cfg: Config, b: Bucket, to: int)
    requires Sane(cfg) && b.lastRefill <= to
    ensures ElapsedMs(cfg, b, to) == FloorMs(cfg, to - b.lastRefill)
  {
    assert 0 / cfg.ticksPerMs == 0;
  }

  // ---------------------------------------------------------------- later windows

  /** What a later refill is worth, when at time s less than one token had accrued. */
  lemma LateRefill(cfg: Config, b: Bucket, s: int, now: int)
    requires Sane(cfg) && s <= now && Refill(cfg, b, s) == 0
    ensures ElapsedMs(cfg, b, s) <= ElapsedMs(cfg, b, now)
    ensures Refill(cfg, b, now) * 1000 <= 1000 + (ElapsedMs(cfg, b, now) - ElapsedMs(cfg, b, s)) * cfg.rate
  {
    hide Refill, ElapsedMs;
    var f1, f2 := ElapsedMs(cfg, b, s), ElapsedMs(cfg, b, now);
    RefillIs(cfg, b, s);
    RefillIs(cfg, b, now);
    ElapsedGap(cfg, b, s, now);
    RefillGap(f1, f2, cfg.rate);
  }

  lemma RefillGap(f1: nat, f2: nat, rate: nat)
    requires f1 <= f2 && (f1 * rate) % U64 / 1000 == 0
    ensures (f2 * rate) % U64 / 1000 * 1000 <= 1000 + (f2 - f1) * rate
  {
    MulNonneg(f2 - f1, rate);
    assert f1 * rate + (f2 - f1) * rate == f2 * rate;
    ModSum(f1 * rate, (f2 - f1) * rate, U64);
    DivisionBounds((f2 * rate) % U64, 1000);
    DivisionBounds((f1 * rate) % U64, 1000);
  }

  /** Between two times lie at most as many whole milliseconds as the time between them rounded up. */
  lemma ElapsedGap(cfg: Config, b: Bucket, s: int, now: int)
    requires Sane(cfg) && s <= now
    ensures ElapsedMs(cfg, b, s) <= ElapsedMs(cfg, b, now) <= ElapsedMs(cfg, b, s) + CeilMs(cfg, now - s)
  {
    if s > b.lastRefill {
      FloorBetween(s - b.lastRefill, now - s, cfg.ticksPerMs);
    } else if now > b.lastRefill {
      FloorBetween(0, now - b.lastRefill, cfg.ticksPerMs);
      CeilMono(now - b.lastRefill, now - s, cfg.ticksPerMs);
      assert 0 / cfg.ticksPerMs == 0;
    }
  }

  lemma FloorBetween(x: nat, y: nat, g: nat)
    requires g > 0
    ensures x / g <= (x + y) / g <= x / g + (y + g - 1) / g
  {
    DivisionBounds(x, g);
    DivisionBounds(y + g - 1, g);
    DivisionBounds(x + y, g);
    var a, c := x / g, (y + g - 1) / g;
    assert (a + c + 1) * g == a * g + c * g + g;
    assert ((x + y) / g + 1) * g == (x + y) / g * g + g;
    Cancel((x + y) / g, a + c, g);
    Cancel(a, (x + y) / g, g);
  }

  lemma CeilMono(y: nat, z: nat, g: nat)
    requires g > 0 && y <= z
    ensures (y + g - 1) / g <= (z + g - 1) / g
  {
    FloorBetween(y + g - 1, z - y, g);
  }

  lemma ModSum(a: nat, b: int, m: nat)
    requires m > 0 && b >= 0
    ensures (a + b) % m <= a % m + b
  {
    assert a == a / m * m + a % m;
    assert a + b == (a + b) / m * m + (a + b) % m;
    assert ((a + b) / m + 1) * m == (a + b) / m * m + m;
    Cancel(a / m, (a + b) / m, m);
    MulMono(a / m, (a + b) / m, m);
  }

  /** The milliseconds that a first refill in a window, and then the rest of the window, can use. */
  lemma WindowMs(cfg: Config, b: Bucket, b': Bucket, s: int, now: int, to: int)
    requires Sane(cfg) && s <= now <= to && b.lastRefill <= now && b'.lastRefill == now
    ensures ElapsedMs(cfg, b, s) <= ElapsedMs(cfg, b, now)
    ensures ElapsedMs(cfg, b, now) - ElapsedMs(cfg, b, s) + ElapsedMs(cfg, b', to) <= CeilMs(cfg, to - s)
  {
    hide ElapsedMs, CeilMs;
    ElapsedGap(cfg, b, s, now);
    ElapsedGap(cfg, b, s, to);
    ElapsedJoin(cfg, b, b', now, to);
  }

  /** After a request at time s that found less than a token accrued. */
  lemma {:induction false} AfterLateStart(cfg: Config, l: Lru, ops: seq<Op>, key: Ip, s: int, from: int, to: int)
    requires Sane(cfg) && Distinct(l.entries) && Kept(cfg, l, ops, key) && Clocked(ops, from, to) && s <= from <= to
    requires Lookup(l, key).Some? && BucketOf(l, key).tokens <= cfg.burst && Refill(cfg, BucketOf(l, key), s) == 0
    ensures Allowed(cfg, l, ops, key) * 1000
         <= (BucketOf(l, key).tokens + 1) * 1000 + CeilMs(cfg, to - s) * cfg.rate
    decreases |ops|
  {
    hide Kept, Allowed, Step, TakeToken, ElapsedMs, CeilMs, Distinct, Lookup, Clocked, Refill;
    var b := BucketOf(l, key);
    MulNonneg(CeilMs(cfg, to - s), cfg.rate);
    if ops == [] {
      NoneAllowed(cfg, l, key);
    } else {
      KeptStep(cfg, l, ops, key, from, to);
      StepBucket(cfg, l, ops[0], key);
      var (l', ok) := Step(cfg, l, ops[0]);
      var now := TimeOf(ops[0], from);
      ClockEnds(ops[1..], now, to);
      if !Spends(ops[0], key) {
        AfterLateStart(cfg, l', ops[1..], key, s, now, to);
      } else if Refill(cfg, b, now) == 0 {
        TakeCases(cfg, b, now);
        RefillKept(cfg, b, BucketOf(l', key), s);
        AfterLateStart(cfg, l', ops[1..], key, s, now, to);
      } else {
        RefilledLate(cfg, b, s, now, to);
        TakeCases(cfg, b, now);
        BudgetBound(cfg, l', ops[1..], key, now, to);
      }
    }
  }

  /** A bucket refilled late in a window: what it holds then, and what the rest of the window can
      still bring, is one token and the milliseconds of the window on top of what it held. */
  lemma RefilledLate(cfg: Config, b: Bucket, s: int, now: int, to: int)
    requires Sane(cfg) && s <= now <= to && b.tokens <= cfg.burst && Refill(cfg, b, s) == 0 < Refill(cfg, b, now)
    ensures var (b', ok) := TakeToken(cfg, b, now);
            (Taken(ok) + b'.tokens) * 1000 + ElapsedMs(cfg, b', to) * cfg.rate
              <= (b.tokens + 1) * 1000 + CeilMs(cfg, to - s) * cfg.rate
  {
    hide TakeToken, Refill, ElapsedMs, CeilMs;
    var (b', ok) := TakeToken(cfg, b, now);
    TakeCases(cfg, b, now);
    RefillLater(cfg, b, now);
    LateRefill(cfg, b, s, now);
    WindowMs(cfg, b, b', s, now, to);
    PaidByTime(ElapsedMs(cfg, b, now) - ElapsedMs(cfg, b, s), ElapsedMs(cfg, b', to), CeilMs(cfg, to - s), cfg.rate);
  }

  lemma RefillLater(cfg: Config, b: Bucket, now: int)
    requires Sane(cfg) && Refill(cfg, b, now) > 0
    ensures b.lastRefill <= now
  {
  }

  lemma RefillKept(cfg: Config, b: Bucket, b': Bucket, s: int)
    requires Sane(cfg) && b'.lastRefill == b.lastRefill
    ensures Refill(cfg, b', s) == Refill(cfg, b, s)
  {
  }

  /** From any time on, whatever went before: in a window no more requests pass than the burst size,
      one, and what the rate grants in the milliseconds of the window, rounded up to whole ones. */
  lemma {:induction false} WindowBound(cfg: Config, l: Lru, ops: seq<Op>, key: Ip, from: int, to: int)
    requires Sane(cfg) && Distinct(l.entries) && Kept(cfg, l, ops, key) && Clocked(ops, from, to) && from <= to
    requires Lookup(l, key).Some? && BucketOf(l, key).tokens <= cfg.burst
    ensures Allowed(cfg, l, ops, key) * 1000 <= (cfg.burst + 1) * 1000 + CeilMs(cfg, to - from) * cfg.rate
    decreases |ops|
  {
    hide Kept, Allowed, Step, TakeToken, ElapsedMs, CeilMs, Distinct, Lookup, Clocked, Refill;
    var b := BucketOf(l, key);
    MulNonneg(CeilMs(cfg, to - from), cfg.rate);
    if ops == [] {
      NoneAllowed(cfg, l, key);
    } else {
      KeptStep(cfg, l, ops, key, from, to);
      StepBucket(cfg, l, ops[0], key);
      var (l', ok) := Step(cfg, l, ops[0]);
      var now := TimeOf(ops[0], from);
      ClockEnds(ops[1..], now, to);
      LaterWindow(cfg, from, now, to);
      if !Spends(ops[0], key) {
        WindowBound(cfg, l', ops[1..], key, now, to);
      } else {
        TakeCases(cfg, b, now);
        var b' := BucketOf(l', key);
        if Refill(cfg, b, now) == 0 {
          RefillKept(cfg, b, b', now);
          AfterLateStart(cfg, l', ops[1..], key, now, now, to);
        } else {
          BudgetBound(cfg, l', ops[1..], key, now, to);
          WindowMs(cfg, b', b', now, now, to);
          PaidByTime(0, ElapsedMs(cfg, b', to), CeilMs(cfg, to - now), cfg.rate);
        }
      }
    }
  }

  lemma LaterWindow(cfg: Config, from: int, now: int, to: int)
    requires Sane(cfg) && from <= now <= to
    ensures CeilMs(cfg, to - now) * cfg.rate <= CeilMs(cfg, to - from) * cfg.rate
  {
    CeilMono(to - now, to - from, cfg.ticksPerMs);
    MulMono(CeilMs(cfg, to - now), CeilMs(cfg, to - from), cfg.rate);
  }

  /** In a window of whole milliseconds no more requests pass than the burst size, one, and what the
      rate grants in the window, whatever the resolution of the clock. */
  lemma WholeWindowBound(cfg: Config, l: Lru, ops: seq<Op>, key: Ip, from: int, ms: nat)
    requires Sane(cfg) && Distinct(l.entries) && Kept(cfg, l, ops, key)
            && Clocked(ops, from, from + ms * cfg.ticksPerMs)
    requires Lookup(l, key).Some? && BucketOf(l, key).tokens <= cfg.burst
    ensures Allowed(cfg, l, ops, key) <= cfg.burst + 1 + ms * cfg.rate / 1000
  {
    hide Kept, Allowed, Distinct, Lookup, Clocked;
    var to := from + ms * cfg.ticksPerMs;
    MulNonneg(ms, cfg.ticksPerMs);
    WindowBound(cfg, l, ops, key, from, to);
    WholeCeil(ms, cfg.ticksPerMs);
    MulNonneg(ms, cfg.rate);
    DivideBound(Allowed(cfg, l, ops, key), cfg.burst + 1, 1000, ms * cfg.rate);
  }

  lemma WholeCeil(ms: nat, g: nat)
    requires g > 0
    ensures ms * g >= 0 && (ms * g + g - 1) / g == ms
  {
    MulNonneg(ms, g);
    DivisionBounds(ms * g + g - 1, g);
    var c := (ms * g + g - 1) / g;
    assert (ms + 1) * g == ms * g + g && (c + 1) * g == c * g + g;
    Cancel(c, ms, g);
    Cancel(ms, c, g);
  }

  /** No bucket of the list holds more than the burst size. */
  predicate WithinBurst(cfg: Config, l: Lru) {
    forall e <- l.entries :: e.bucket.tokens <= cfg.burst
  }

  /** That is so after any calls. */
  lemma {:induction false} RunWithinBurst(cfg: Config, l: Lru, ops: seq<Op>)
    requires Sane(cfg) && Distinct(l.entries) && WithinBurst(cfg, l)
    ensures WithinBurst(cfg, Run(cfg, l, ops)) && Distinct(Run(cfg, l, ops).entries)
    decreases |ops|
  {
    if ops != [] {
      var l' := Step(cfg, l, ops[0]).0;
      StepDistinct(cfg, l, ops[0]);
      forall e <- l'.entries ensures e.bucket.tokens <= cfg.burst {
        var i :| 0 <= i < |l'.entries| && l'.entries[i] == e;
        LookupIs(l', i);
        StepTokens(cfg, l, ops[0], e.key);
      }
      RunWithinBurst(cfg, l', ops[1..]);
    }
  }

  lemma StepDistinct(cfg: Config, l: Lru, op: Op)
    requires Sane(cfg) && Distinct(l.entries)
    ensures Distinct(Step(cfg, l, op).0.entries)
  {
    match op
    case DoAcquire(k, insertOk, now) => AcquireEffect(cfg, l, k, insertOk, now, k);
    case DoAllow(k, now) => AllowEffect(cfg, l, k, now, k);
    case DoRelease(k) => ReleaseEffect(l, k, k);
  }

  lemma StepTokens(cfg: Config, l: Lru, op: Op, key: Ip)
    requires Sane(cfg) && Distinct(l.entries) && WithinBurst(cfg, l) && Lookup(Step(cfg, l, op).0, key).Some?
    ensures BucketOf(Step(cfg, l, op).0, key).tokens <= cfg.burst
  {
    hide Refill;
    if Lookup(l, key).Some? {
      StepBucket(cfg, l, op, key);
      TakeCases(cfg, BucketOf(l, key), TimeOf(op, 0));
    } else {
      match op
      case DoAcquire(k, insertOk, now) => AcquireEffect(cfg, l, k, insertOk, now, key);
      case DoAllow(k, now) => AllowEffect(cfg, l, k, now, key);
      case DoRelease(k) => ReleaseEffect(l, k, key);
    }
  }
}
