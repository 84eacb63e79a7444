/** When the plain bound, burst + rate * window, holds for a window that begins late in a bucket's
    life: exactly when the fraction of a token already on its way does not come on top of the burst. */
module LimiterWindow {
  import opened Helpers
  import opened LimiterSpec
  import opened LimiterRuns
  import opened LimiterBound

  /** A token, in the smallest units of time times rate. */
  function Unit(cfg: Config): nat { 1000 * cfg.ticksPerMs }

  /** Milliseconds since the last refill are worth at most the time since then. */
  lemma MsInTicks(cfg: Config, b: Bucket, now: int)
    requires Sane(cfg) && now >= b.lastRefill
    ensures ElapsedMs(cfg, b, now) * cfg.rate * cfg.ticksPerMs <= cfg.rate * (now - b.lastRefill)
  {
    ElapsedTicks(cfg, b, now);
    var ms, g := ElapsedMs(cfg, b, now), cfg.ticksPerMs;
    MulMono(ms * g, now - b.lastRefill, cfg.rate);
    assert ms * cfg.rate * g == ms * g * cfg.rate;
  }

  lemma RefillBound(cfg: Config, b: Bucket, now: int)
    requires Sane(cfg) && now >= b.lastRefill
    ensures Refill(cfg, b, now) * Unit(cfg) <= cfg.rate * (now - b.lastRefill)
  {
    hide Refill, ElapsedMs;
    RefillWorth(cfg, b, now);
    MsInTicks(cfg, b, now);
    MulMono(Refill(cfg, b, now) * 1000, ElapsedMs(cfg, b, now) * cfg.rate, cfg.ticksPerMs);
    assert Refill(cfg, b, now) * 1000 * cfg.ticksPerMs == Refill(cfg, b, now) * Unit(cfg);
  }

  /** What is let through, in units. */
  lemma BudgetInTicks(cfg: Config, l: Lru, ops: seq<Op>, key: Ip, from: int, to: int)
    requires Sane(cfg) && Distinct(l.entries) && Kept(cfg, l, ops, key) && Clocked(ops, from, to)
    requires Lookup(l, key).Some? && BucketOf(l, key).tokens <= cfg.burst && BucketOf(l, key).lastRefill <= from
    ensures Allowed(cfg, l, ops, key) * Unit(cfg)
         <= BucketOf(l, key).tokens * Unit(cfg) + cfg.rate * (to - BucketOf(l, key).lastRefill)
  {
    hide Kept, Allowed, Distinct, Lookup, Clocked, ElapsedMs;
    var b := BucketOf(l, key);
    ClockEnds(ops, from, to);
    BudgetBound(cfg, l, ops, key, from, to);
    MsInTicks(cfg, b, to);
    InUnits(Allowed(cfg, l, ops, key), b.tokens, ElapsedMs(cfg, b, to) * cfg.rate, cfg.ticksPerMs);
  }

  lemma InUnits(a: nat, tokens: nat, more: int, g: nat)
    requires a * 1000 <= tokens * 1000 + more
    ensures a * (1000 * g) <= tokens * (1000 * g) + more * g
  {
    MulMono(a * 1000, tokens * 1000 + more, g);
    assert (tokens * 1000 + more) * g == tokens * 1000 * g + more * g;
    assert a * 1000 * g == a * (1000 * g) && tokens * 1000 * g == tokens * (1000 * g);
  }

  /** Within [from, to] no run of calls lets more requests of the identity through than the burst size
      and what the rate grants in the time that has passed. */
  ghost predicate PlainBound(cfg: Config, l: Lru, key: Ip, from: int, to: int)
    requires Sane(cfg)
  {
    forall ops, x | x <= to && Clocked(ops, from, x) && Kept(cfg, l, ops, key) ::
      Allowed(cfg, l, ops, key) * Unit(cfg) <= cfg.burst * Unit(cfg) + cfg.rate * (x - from)
  }

  /** The tokens of the bucket at a time when nothing is refilled, and the first refill behind it. */
  function Drawn(cfg: Config, b: Bucket, now: int): nat
    requires Sane(cfg)
  {
    b.tokens + Min(cfg.burst, Refill(cfg, b, now) % U32)
  }

  /** Drawing the bucket at `s`, when less than a token has accrued, and again at `now` stays within
      the plain bound. */
  ghost predicate FitsWindow(cfg: Config, b: Bucket, from: int, to: int)
    requires Sane(cfg)
  {
    forall s, now | from <= s <= now <= to && Refill(cfg, b, s) == 0 ::
      Drawn(cfg, b, now) * Unit(cfg) <= cfg.burst * Unit(cfg) + cfg.rate * (now - from)
  }

  // ---------------------------------------------------------------- it suffices

  /** A refill fills the bucket, in 32-bit arithmetic, up to the burst size. */
  lemma TakeRefills(cfg: Config, b: Bucket, now: int)
    requires Sane(cfg) && Refill(cfg, b, now) > 0
    ensures var (b', ok) := TakeToken(cfg, b, now);
            && Taken(ok) + b'.tokens == Min(cfg.burst, (b.tokens + Refill(cfg, b, now) % U32) % U32)
            && Taken(ok) + b'.tokens <= Min(cfg.burst, b.tokens + Refill(cfg, b, now) % U32) && b'.lastRefill == now
  {
    hide Refill;
    ModBelow(b.tokens + Refill(cfg, b, now) % U32, U32);
  }

  /** With `j` tokens drawn from bucket `b0` since `from0` and no refill yet. */
  lemma {:induction false} AfterDraw(cfg: Config, l: Lru, ops: seq<Op>, key: Ip, b0: Bucket, j: nat, s: int,
                                     from0: int, from: int, to: int)
    requires Sane(cfg) && Distinct(l.entries) && Kept(cfg, l, ops, key) && Clocked(ops, from, to)
    requires j <= b0.tokens <= cfg.burst && Lookup(l, key).Some? && BucketOf(l, key) == b0.(tokens := b0.tokens - j)
    requires FitsWindow(cfg, b0, from0, to) && from0 <= from
            && (j > 0 ==> from0 <= s <= from && Refill(cfg, b0, s) == 0)
    ensures (j + Allowed(cfg, l, ops, key)) * Unit(cfg) <= cfg.burst * Unit(cfg) + cfg.rate * (to - from0)
    decreases |ops|
  {
    hide Kept, Allowed, Step, TakeToken, Unit, Distinct, Lookup, Clocked, Refill;
    var b := BucketOf(l, key);
    ClockEnds(ops, from, to);
    if ops == [] {
      NoneAllowed(cfg, l, key);
      MulMono(j, cfg.burst, Unit(cfg));
      MulNonneg(cfg.rate, to - from0);
    } else {
      KeptStep(cfg, l, ops, key, from, to);
      StepBucket(cfg, l, ops[0], key);
      var (l', ok) := Step(cfg, l, ops[0]);
      var now := TimeOf(ops[0], from);
      var more := Allowed(cfg, l', ops[1..], key);
      ClockEnds(ops[1..], now, to);
      if Spends(ops[0], key) {
        var b' := BucketOf(l', key);
        RefillKept(cfg, b0, b, now);
        if Refill(cfg, b, now) == 0 {
          TakeCases(cfg, b, now);
          AfterDraw(cfg, l', ops[1..], key, b0, j + Taken(ok), if ok then now else s, from0, now, to);
        } else {
          TakeRefills(cfg, b, now);
          BudgetInTicks(cfg, l', ops[1..], key, now, to);
          DrawnWithin(cfg, b0, j, b'.tokens + Taken(ok), s, from0, now, to);
          WindowParts(j, Taken(ok), b'.tokens, more, Unit(cfg), cfg.burst, cfg.rate, from0, now, to);
        }
      } else {
        AfterDraw(cfg, l', ops[1..], key, b0, j, s, from0, now, to);
      }
    }
  }

  lemma DrawnWithin(cfg: Config, b0: Bucket, j: nat, filled: nat, s: int, from0: int, now: int, to: int)
    requires Sane(cfg) && FitsWindow(cfg, b0, from0, to) && from0 <= now <= to && j <= b0.tokens
    requires j > 0 ==> from0 <= s <= now && Refill(cfg, b0, s) == 0
    requires filled <= Min(cfg.burst, b0.tokens - j + Refill(cfg, b0, now) % U32)
    ensures (j + filled) * Unit(cfg) <= cfg.burst * Unit(cfg) + cfg.rate * (now - from0)
  {
    hide Refill, Unit;
    MulNonneg(cfg.rate, now - from0);
    if j > 0 {
      MulMono(j + filled, Drawn(cfg, b0, now), Unit(cfg));
    } else {
      MulMono(filled, cfg.burst, Unit(cfg));
    }
  }

  lemma WindowParts(j: nat, taken: nat, left: nat, more: nat, unit: nat, burst: nat, rate: nat, from: int, now: int,
                    to: int)
    requires (j + (left + taken)) * unit <= burst * unit + rate * (now - from)
    requires more * unit <= left * unit + rate * (to - now)
    ensures (j + (taken + more)) * unit <= burst * unit + rate * (to - from)
  {
    assert (j + (left + taken)) * unit == j * unit + left * unit + taken * unit;
    assert (j + (taken + more)) * unit == j * unit + taken * unit + more * unit;
    assert rate * (to - from) == rate * (now - from) + rate * (to - now);
  }

  // ---------------------------------------------------------------- it is needed

  function Requests(key: Ip, now: int, n: nat): seq<Op> {
    if n == 0 then [] else [DoAllow(key, now)] + Requests(key, now, n - 1)
  }

  lemma {:induction false} RequestsClocked(key: Ip, now: int, n: nat, rest: seq<Op>, from: int, to: int)
    requires from <= now && Clocked(rest, now, to)
    ensures Clocked(Requests(key, now, n) + rest, from, to)
    decreases n
  {
    if n == 0 {
      assert Requests(key, now, n) + rest == rest;
      LaterClock(rest, from, now, to);
    } else {
      RequestsClocked(key, now, n - 1, rest, now, to);
      assert (Requests(key, now, n) + rest)[1..] == Requests(key, now, n - 1) + rest;
    }
  }

  lemma {:induction false} LaterClock(ops: seq<Op>, from: int, later: int, to: int)
    requires from <= later && Clocked(ops, later, to)
    ensures Clocked(ops, from, to)
    decreases |ops|
  {
    if ops != [] && ops[0].DoRelease? {
      LaterClock(ops[1..], from, later, to);
    }
  }

  /** One request in front of a run. */
  lemma OneRequest(cfg: Config, l: Lru, key: Ip, now: int, rest: seq<Op>) returns (l': Lru)
    requires Sane(cfg) && Distinct(l.entries) && Lookup(l, key).Some?
    ensures Distinct(l'.entries) && Lookup(l', key).Some? && BucketOf(l', key)
            == TakeToken(cfg, BucketOf(l, key), now).0
    ensures Kept(cfg, l, [DoAllow(key, now)] + rest, key) <==> Kept(cfg, l', rest, key)
    ensures Allowed(cfg, l, [DoAllow(key, now)] + rest, key)
         == Taken(TakeToken(cfg, BucketOf(l, key), now).1) + Allowed(cfg, l', rest, key)
  {
    hide TakeToken, Distinct, Lookup, AllowRequest;
    AllowEffect(cfg, l, key, now, key);
    l' := AllowRequest(cfg, l, key, now).0;
    assert ([DoAllow(key, now)] + rest)[1..] == rest;
  }

  /** As many requests as there are tokens, at a time when nothing is refilled: all of them pass. */
  lemma {:induction false} Drain(cfg: Config, l: Lru, key: Ip, now: int, n: nat, rest: seq<Op>) returns (l': Lru)
    requires Sane(cfg) && Distinct(l.entries) && Lookup(l, key).Some?
    requires n <= BucketOf(l, key).tokens && Refill(cfg, BucketOf(l, key), now) == 0
    ensures Distinct(l'.entries) && Lookup(l', key).Some?
    ensures BucketOf(l', key) == BucketOf(l, key).(tokens := BucketOf(l, key).tokens - n)
    ensures Kept(cfg, l, Requests(key, now, n) + rest, key) <==> Kept(cfg, l', rest, key)
    ensures Allowed(cfg, l, Requests(key, now, n) + rest, key) == n + Allowed(cfg, l', rest, key)
    decreases n
  {
    hide Kept, Allowed, Distinct, Lookup, Refill;
    if n == 0 {
      l' := l;
      assert Requests(key, now, n) + rest == rest;
    } else {
      var b := BucketOf(l, key);
      var next := Requests(key, now, n - 1) + rest;
      var l1 := OneRequest(cfg, l, key, now, next);
      RefillKept(cfg, b, BucketOf(l1, key), now);
      l' := Drain(cfg, l1, key, now, n - 1, rest);
      assert Requests(key, now, n) + rest == [DoAllow(key, now)] + next;
    }
  }

  /** The run that draws the bucket at `s` and what a refill has brought at `now`. */
  function Draws(cfg: Config, b: Bucket, key: Ip, s: int, now: int): seq<Op>
    requires Sane(cfg)
  {
    Requests(key, s, b.tokens) + Requests(key, now, Min(cfg.burst, Refill(cfg, b, now) % U32))
  }

  lemma DrawsPass(cfg: Config, l: Lru, key: Ip, s: int, now: int)
    requires Sane(cfg) && Distinct(l.entries) && Lookup(l, key).Some?
    requires Refill(cfg, BucketOf(l, key), s) == 0 && s <= now
    ensures var b := BucketOf(l, key);
            var ops := Draws(cfg, b, key, s, now);
            Kept(cfg, l, ops, key) && Allowed(cfg, l, ops, key) == Drawn(cfg, b, now)
  {
    hide Kept, Allowed, Distinct, Lookup, Refill;
    var b := BucketOf(l, key);
    var m := Min(cfg.burst, Refill(cfg, b, now) % U32);
    var second := Requests(key, now, m);
    var l1 := Drain(cfg, l, key, s, b.tokens, second);
    var last: Lru;
    if m == 0 {
      last := l1;
    } else {
      RefillKept(cfg, b, BucketOf(l1, key), now);
      var l2 := OneRequest(cfg, l1, key, now, Requests(key, now, m - 1) + []);
      FullBucket(cfg, BucketOf(l1, key), now);
      NothingAtOnce(cfg, m - 1, now);
      last := Drain(cfg, l2, key, now, m - 1, []);
      assert [DoAllow(key, now)] + (Requests(key, now, m - 1) + []) == second;
    }
    KeptEmpty(cfg, last, key);
    NoneAllowed(cfg, last, key);
  }

  lemma KeptEmpty(cfg: Config, l: Lru, key: Ip)
    requires Sane(cfg) && Lookup(l, key).Some?
    ensures Kept(cfg, l, [], key)
  {
  }

  /** An empty bucket that is refilled: the first request passes. */
  lemma FullBucket(cfg: Config, b: Bucket, now: int)
    requires Sane(cfg) && b.tokens == 0 && Refill(cfg, b, now) % U32 > 0 && cfg.burst > 0
    ensures TakeToken(cfg, b, now) == (Bucket(Min(cfg.burst, Refill(cfg, b, now) % U32) - 1, now), true)
  {
    hide Refill;
  }

  lemma NothingAtOnce(cfg: Config, t: nat, now: int)
    requires Sane(cfg)
    ensures Refill(cfg, Bucket(t, now), now) == 0
  {
  }

  /** The plain bound holds in every window of [from, to] beginning at `from`, whatever is called,
      exactly when the bucket at that time fits. */
  lemma WindowExact(cfg: Config, l: Lru, key: Ip, from: int, to: int)
    requires Sane(cfg) && Distinct(l.entries) && Lookup(l, key).Some? && BucketOf(l, key).tokens <= cfg.burst
    ensures PlainBound(cfg, l, key, from, to) <==> FitsWindow(cfg, BucketOf(l, key), from, to)
  {
    hide Kept, Allowed, Unit, Distinct, Lookup, Clocked, Refill, Draws, Drawn;
    var b := BucketOf(l, key);
    if FitsWindow(cfg, b, from, to) {
      forall ops, x | x <= to && Clocked(ops, from, x) && Kept(cfg, l, ops, key)
        ensures Allowed(cfg, l, ops, key) * Unit(cfg) <= cfg.burst * Unit(cfg) + cfg.rate * (x - from)
      {
        AfterDraw(cfg, l, ops, key, b, 0, from, from, from, x);
      }
    }
    if PlainBound(cfg, l, key, from, to) {
      forall s, now | from <= s <= now <= to && Refill(cfg, b, s) == 0
        ensures Drawn(cfg, b, now) * Unit(cfg) <= cfg.burst * Unit(cfg) + cfg.rate * (now - from)
      {
        DrawsPass(cfg, l, key, s, now);
        DrawsClocked(cfg, b, key, from, s, now);
      }
    }
  }

  lemma DrawsClocked(cfg: Config, b: Bucket, key: Ip, from: int, s: int, now: int)
    requires Sane(cfg) && from <= s <= now
    ensures Clocked(Draws(cfg, b, key, s, now), from, now)
  {
    hide Refill;
    var m := Min(cfg.burst, Refill(cfg, b, now) % U32);
    assert Requests(key, now, m) + [] == Requests(key, now, m);
    RequestsClocked(key, now, m, [], s, now);
    RequestsClocked(key, s, b.tokens, Requests(key, now, m), from, now);
  }

  // ---------------------------------------------------------------- what that means

  /** What the bucket holds and what has accrued since its last refill is within the burst. */
  predicate WithinBudget(cfg: Config, b: Bucket, from: int) {
    b.tokens * Unit(cfg) + cfg.rate * (from - b.lastRefill) <= cfg.burst * Unit(cfg)
  }

  /** A bucket within its budget fits every window. */
  lemma BudgetFits(cfg: Config, b: Bucket, from: int, to: int)
    requires Sane(cfg) && WithinBudget(cfg, b, from) && b.lastRefill <= from
    ensures FitsWindow(cfg, b, from, to)
  {
    hide Refill, Unit, Drawn;
    forall s, now | from <= s <= now <= to && Refill(cfg, b, s) == 0
      ensures Drawn(cfg, b, now) * Unit(cfg) <= cfg.burst * Unit(cfg) + cfg.rate * (now - from)
    {
      RefillBound(cfg, b, now);
      DrawnRefill(cfg, b, now);
      DrawnPaid(Drawn(cfg, b, now), b.tokens, Refill(cfg, b, now), Unit(cfg), cfg.burst, cfg.rate, b.lastRefill, from,
                now);
    }
  }

  lemma DrawnRefill(cfg: Config, b: Bucket, now: int)
    requires Sane(cfg)
    ensures Drawn(cfg, b, now) <= b.tokens + Refill(cfg, b, now)
  {
    hide Refill;
    RefillRange(cfg, b, now);
  }

  lemma DrawnPaid(d: nat, tokens: nat, refill: nat, unit: nat, burst: nat, rate: nat, last: int, from: int, now: int)
    requires d <= tokens + refill && refill * unit <= rate * (now - last)
    requires tokens * unit + rate * (from - last) <= burst * unit
    ensures d * unit <= burst * unit + rate * (now - from)
  {
    MulMono(d, tokens + refill, unit);
    assert (tokens + refill) * unit == tokens * unit + refill * unit;
    assert rate * (now - last) == rate * (from - last) + rate * (now - from);
  }

  /** What `e` milliseconds grant beyond the tokens they refill, in thousandths of a token: the part
      that is rounded off, and everything above the burst. */
  function Surplus(cfg: Config, e: nat): int { e * cfg.rate - 1000 * Min(cfg.burst, e * cfg.rate / 1000) }

  /** The least surplus of up to `n` milliseconds that refill something. */
  function LeastSurplus(cfg: Config, n: nat): int
    requires 1000 <= n * cfg.rate
  {
    if n > 0 && 1000 <= (n - 1) * cfg.rate then
      var least := LeastSurplus(cfg, n - 1);
      if Surplus(cfg, n) <= least then Surplus(cfg, n) else least
    else Surplus(cfg, n)
  }

  /** The milliseconds that refill a whole burst; waiting longer gains nothing. */
  function FillMs(cfg: Config): nat { if cfg.rate == 0 then 0 else (1000 * cfg.burst + cfg.rate - 1) / cfg.rate }

  /** What the bucket holds and what has accrued since its last refill is within the burst and the
      least surplus of the refills that can come. */
  predicate WithinSurplus(cfg: Config, b: Bucket, from: int, ms: nat) {
    1000 <= ms * cfg.rate ==>
      b.tokens * Unit(cfg) + cfg.rate * (from - b.lastRefill)
        <= cfg.burst * Unit(cfg) + LeastSurplus(cfg, ms) * cfg.ticksPerMs
  }

  /** As long as time times rate does not wrap, the plain bound holds from `from` up to `to` exactly
      when a whole token has accrued by then, which the first request turns into a refill, or bucket
      and time since the last refill leave the surplus of every refill that can come before `to`. */
  lemma WindowBudget(cfg: Config, l: Lru, key: Ip, from: int, to: int)
    requires Sane(cfg) && Distinct(l.entries) && Lookup(l, key).Some? && BucketOf(l, key).tokens <= cfg.burst
    requires BucketOf(l, key).lastRefill <= from <= to
    requires ElapsedMs(cfg, BucketOf(l, key), to) * cfg.rate < U64 && cfg.burst + cfg.rate / 1000 < U32
    ensures var b := BucketOf(l, key);
            PlainBound(cfg, l, key, from, to) <==>
              || 1000 <= ElapsedMs(cfg, b, from) * cfg.rate
              || WithinSurplus(cfg, b, from, Min(FillMs(cfg), ElapsedMs(cfg, b, to)))
  {
    hide PlainBound, FitsWindow, Lookup, Distinct, Refill, Unit, ElapsedMs, WithinSurplus, FillMs;
    var b := BucketOf(l, key);
    WindowExact(cfg, l, key, from, to);
    if 1000 <= ElapsedMs(cfg, b, from) * cfg.rate {
      AccruedFits(cfg, b, from, to);
    } else if WithinSurplus(cfg, b, from, Min(FillMs(cfg), ElapsedMs(cfg, b, to))) {
      SurplusFits(cfg, b, from, to);
    } else {
      OverSurplus(cfg, b, from, to);
    }
  }

  lemma {:induction false} LeastAtMost(cfg: Config, n: nat, e: nat)
    requires 1000 <= e * cfg.rate && e <= n && 1000 <= n * cfg.rate
    ensures LeastSurplus(cfg, n) <= Surplus(cfg, e)
    decreases n
  {
    hide Surplus;
    if e < n {
      MulMono(e, n - 1, cfg.rate);
      LeastAtMost(cfg, n - 1, e);
    }
  }

  lemma {:induction false} LeastTaken(cfg: Config, n: nat) returns (e: nat)
    requires 1000 <= n * cfg.rate
    ensures 1000 <= e * cfg.rate && e <= n && Surplus(cfg, e) == LeastSurplus(cfg, n)
    decreases n
  {
    hide Surplus;
    e := n;
    if n > 0 && 1000 <= (n - 1) * cfg.rate && LeastSurplus(cfg, n) != Surplus(cfg, n) {
      e := LeastTaken(cfg, n - 1);
    }
  }

  /** With the rate within the burst a second leaves no surplus: bucket and time since the last refill
      must then come to no more than the burst. */
  lemma NoSurplus(cfg: Config, n: nat)
    requires 0 < cfg.rate <= cfg.burst && 1000 <= n
    ensures 1000 <= n * cfg.rate && LeastSurplus(cfg, n) == 0
  {
    hide LeastSurplus;
    MulMono(1000, n, cfg.rate);
    LeastAtMost(cfg, n, 1000);
    var e := LeastTaken(cfg, n);
    SurplusNonneg(cfg, e);
    SurplusOfSecond(cfg);
  }

  lemma SurplusNonneg(cfg: Config, e: nat)
    ensures Surplus(cfg, e) >= 0
  {
    MulNonneg(e, cfg.rate);
  }

  lemma SurplusOfSecond(cfg: Config)
    requires cfg.rate <= cfg.burst
    ensures Surplus(cfg, 1000) == 0
  {
  }

  /** In `FillMs` milliseconds a whole burst is refilled, and little more. */
  lemma FillBounds(cfg: Config)
    requires cfg.rate > 0
    ensures 1000 * cfg.burst <= FillMs(cfg) * cfg.rate < 1000 * cfg.burst + cfg.rate
  {
    DivisionBounds(1000 * cfg.burst + cfg.rate - 1, cfg.rate);
  }

  /** A refill that can come leaves at least the least surplus. */
  lemma SurplusAhead(cfg: Config, e: nat, top: nat)
    requires 1000 <= e * cfg.rate && e <= top && 0 < cfg.burst
    ensures var ms := Min(FillMs(cfg), top);
            1000 <= ms * cfg.rate && LeastSurplus(cfg, ms) <= Surplus(cfg, e)
  {
    hide FillMs, LeastSurplus, Surplus;
    RatePositive(e, cfg.rate);
    FillBounds(cfg);
    var fill := FillMs(cfg);
    if e <= fill {
      MulMono(e, Min(fill, top), cfg.rate);
      LeastAtMost(cfg, Min(fill, top), e);
    } else {
      LeastAtMost(cfg, fill, fill);
      SurplusBeyond(cfg, fill, e);
    }
  }

  lemma RatePositive(e: nat, rate: nat)
    requires 1000 <= e * rate
    ensures rate > 0
  {
  }

  /** Past a full refill the surplus only grows. */
  lemma SurplusBeyond(cfg: Config, fill: nat, e: nat)
    requires fill <= e && 1000 * cfg.burst <= fill * cfg.rate
    ensures Surplus(cfg, fill) <= Surplus(cfg, e)
  {
    MulMono(fill, e, cfg.rate);
    Thousands(cfg.burst, fill * cfg.rate);
    Thousands(cfg.burst, e * cfg.rate);
  }

  lemma Thousands(a: nat, x: nat)
    requires 1000 * a <= x
    ensures a <= x / 1000
  {
  }

  lemma SurplusFits(cfg: Config, b: Bucket, from: int, to: int)
    requires Sane(cfg) && b.lastRefill <= from <= to && b.tokens <= cfg.burst && ElapsedMs(cfg, b, to) * cfg.rate < U64
    requires WithinSurplus(cfg, b, from, Min(FillMs(cfg), ElapsedMs(cfg, b, to)))
    ensures FitsWindow(cfg, b, from, to)
  {
    hide Refill, Unit, ElapsedMs, WithinSurplus, Drawn, FillMs;
    forall s, now | from <= s <= now <= to && Refill(cfg, b, s) == 0
      ensures Drawn(cfg, b, now) * Unit(cfg) <= cfg.burst * Unit(cfg) + cfg.rate * (now - from)
    {
      SurplusFitsAt(cfg, b, from, now, to);
    }
  }

  lemma SurplusFitsAt(cfg: Config, b: Bucket, from: int, now: int, to: int)
    requires Sane(cfg) && b.lastRefill <= from <= now <= to && b.tokens <= cfg.burst
    requires ElapsedMs(cfg, b, to) * cfg.rate < U64
    requires WithinSurplus(cfg, b, from, Min(FillMs(cfg), ElapsedMs(cfg, b, to)))
    ensures Drawn(cfg, b, now) * Unit(cfg) <= cfg.burst * Unit(cfg) + cfg.rate * (now - from)
  {
    hide Refill, ElapsedMs, FillMs, LeastSurplus;
    var e, top := ElapsedMs(cfg, b, now), ElapsedMs(cfg, b, to);
    ElapsedGap(cfg, b, now, to);
    MulMono(e, top, cfg.rate);
    RefillIs(cfg, b, now);
    Unwrapped(e * cfg.rate);
    var refill := Refill(cfg, b, now);
    ModBelow(refill, U32);
    MulNonneg(cfg.rate, now - from);
    if e * cfg.rate < 1000 || cfg.burst == 0 {
      MulMono(Drawn(cfg, b, now), cfg.burst, Unit(cfg));
    } else {
      SurplusAhead(cfg, e, top);
      MsInTicks(cfg, b, now);
      WithinAdds(b.tokens, cfg.burst, Min(cfg.burst, refill % U32), Min(cfg.burst, refill), e * cfg.rate,
                 LeastSurplus(cfg, Min(FillMs(cfg), top)), cfg.ticksPerMs, cfg.rate * (from - b.lastRefill),
                 cfg.rate * (now - b.lastRefill));
      assert cfg.rate * (now - b.lastRefill) == cfg.rate * (from - b.lastRefill) + cfg.rate * (now - from);
    }
  }

  lemma WithinAdds(t: nat, burst: nat, drawn: nat, refill: nat, granted: nat, least: int, g: nat, since: int, all: int)
    requires t * (1000 * g) + since <= burst * (1000 * g) + least * g
    requires least <= granted - 1000 * refill && drawn <= refill && granted * g <= all
    ensures (t + drawn) * (1000 * g) <= burst * (1000 * g) + all - since
  {
    MulMono(least, granted - 1000 * refill, g);
    MulMono(drawn, refill, 1000 * g);
    assert (granted - 1000 * refill) * g == granted * g - refill * (1000 * g);
    assert (t + drawn) * (1000 * g) == t * (1000 * g) + drawn * (1000 * g);
  }

  lemma AccruedFits(cfg: Config, b: Bucket, from: int, to: int)
    requires Sane(cfg) && ElapsedMs(cfg, b, to) * cfg.rate < U64 && 1000 <= ElapsedMs(cfg, b, from) * cfg.rate
    ensures FitsWindow(cfg, b, from, to)
  {
    hide Refill, Unit, ElapsedMs;
    forall s | from <= s <= to ensures Refill(cfg, b, s) != 0 {
      AccruedRefills(cfg, b, from, s, to);
    }
  }

  /** A whole token that has accrued is there at any later time too. */
  lemma AccruedRefills(cfg: Config, b: Bucket, from: int, s: int, to: int)
    requires Sane(cfg) && from <= s <= to
    requires ElapsedMs(cfg, b, to) * cfg.rate < U64 && 1000 <= ElapsedMs(cfg, b, from) * cfg.rate
    ensures Refill(cfg, b, s) > 0
  {
    hide Refill, ElapsedMs;
    ElapsedGap(cfg, b, from, s);
    ElapsedGap(cfg, b, s, to);
    MulMono(ElapsedMs(cfg, b, from), ElapsedMs(cfg, b, s), cfg.rate);
    MulMono(ElapsedMs(cfg, b, s), ElapsedMs(cfg, b, to), cfg.rate);
    RefillIs(cfg, b, s);
    Unwrapped(ElapsedMs(cfg, b, s) * cfg.rate);
  }

  lemma Unwrapped(a: nat)
    requires a < U64
    ensures a % U64 == a && (1000 <= a ==> a / 1000 > 0) && (a < 1000 ==> a / 1000 == 0)
  {
  }

  /** Drawn again after the milliseconds with the least surplus, a bucket over its budget gives too
      much. */
  lemma OverSurplus(cfg: Config, b: Bucket, from: int, to: int)
    requires Sane(cfg) && b.lastRefill <= from <= to && ElapsedMs(cfg, b, to) * cfg.rate < U64
    requires cfg.burst + cfg.rate / 1000 < U32 && ElapsedMs(cfg, b, from) * cfg.rate < 1000
    requires !WithinSurplus(cfg, b, from, Min(FillMs(cfg), ElapsedMs(cfg, b, to)))
    ensures !FitsWindow(cfg, b, from, to)
  {
    hide Refill, ElapsedMs, Drawn, FitsWindow, FillMs, LeastSurplus;
    var e := LeastTaken(cfg, Min(FillMs(cfg), ElapsedMs(cfg, b, to)));
    var now := b.lastRefill + e * cfg.ticksPerMs;
    LaterRefill(cfg, b, e, from, to);
    if FitsWindow(cfg, b, from, to) {
      FitsAt(cfg, b, from, to, from, now);
      FitsSurplus(b.tokens, cfg.burst, Min(cfg.burst, e * cfg.rate / 1000), e * cfg.rate, cfg.ticksPerMs,
                  cfg.rate * (from - b.lastRefill), cfg.rate * (now - from));
    }
  }

  lemma FitsSurplus(t: nat, burst: nat, drawn: nat, granted: nat, g: nat, since: int, rest: int)
    requires (t + drawn) * (1000 * g) <= burst * (1000 * g) + rest && rest == granted * g - since
    ensures t * (1000 * g) + since <= burst * (1000 * g) + (granted - 1000 * drawn) * g
  {
    assert (t + drawn) * (1000 * g) == t * (1000 * g) + drawn * (1000 * g);
    assert (granted - 1000 * drawn) * g == granted * g - drawn * (1000 * g);
  }

  lemma FitsAt(cfg: Config, b: Bucket, from: int, to: int, s: int, now: int)
    requires Sane(cfg) && FitsWindow(cfg, b, from, to) && from <= s <= now <= to && Refill(cfg, b, s) == 0
    ensures Drawn(cfg, b, now) * Unit(cfg) <= cfg.burst * Unit(cfg) + cfg.rate * (now - from)
  {
  }

  /** What there is to draw `e` milliseconds behind the last refill. */
  lemma LaterRefill(cfg: Config, b: Bucket, e: nat, from: int, to: int)
    requires Sane(cfg) && b.lastRefill <= from <= to && ElapsedMs(cfg, b, to) * cfg.rate < U64
    requires cfg.burst + cfg.rate / 1000 < U32 && ElapsedMs(cfg, b, from) * cfg.rate < 1000 <= e * cfg.rate
    requires e <= FillMs(cfg) && e <= ElapsedMs(cfg, b, to)
    ensures var now := b.lastRefill + e * cfg.ticksPerMs;
            && Refill(cfg, b, from) == 0 && from <= now <= to
            && Drawn(cfg, b, now) == b.tokens + Min(cfg.burst, e * cfg.rate / 1000)
            && cfg.rate * (now - from) == e * cfg.rate * cfg.ticksPerMs - cfg.rate * (from - b.lastRefill)
  {
    hide Refill, FillMs;
    var g := cfg.ticksPerMs;
    var now := b.lastRefill + e * g;
    MulNonneg(e, g);
    RefillIs(cfg, b, from);
    Unwrapped(ElapsedMs(cfg, b, from) * cfg.rate);
    LaterTimes(cfg, b, e, from, to);
    RefillIs(cfg, b, now);
    MulMono(e, ElapsedMs(cfg, b, to), cfg.rate);
    Unwrapped(e * cfg.rate);
    FewRefilled(cfg, e);
    TimesRate(cfg.rate, e, g, b.lastRefill, from);
  }

  lemma TimesRate(rate: nat, e: nat, g: nat, last: int, from: int)
    ensures rate * (last + e * g - from) == e * rate * g - rate * (from - last)
  {
    assert rate * (last + e * g - from) == rate * (e * g) - rate * (from - last);
    assert rate * (e * g) == e * rate * g;
  }

  /** What is refilled within `FillMs` milliseconds fits 32 bits. */
  lemma FewRefilled(cfg: Config, e: nat)
    requires cfg.burst + cfg.rate / 1000 < U32 && e <= FillMs(cfg) && 1000 <= e * cfg.rate
    ensures e * cfg.rate / 1000 % U32 == e * cfg.rate / 1000
  {
    hide FillMs;
    RatePositive(e, cfg.rate);
    FillBounds(cfg);
    MulMono(e, FillMs(cfg), cfg.rate);
    SplitThousands(e * cfg.rate, cfg.burst, cfg.rate);
  }

  lemma SplitThousands(x: nat, a: nat, r: nat)
    requires x < 1000 * a + r
    ensures x / 1000 <= a + r / 1000
  {
  }

  lemma LaterTimes(cfg: Config, b: Bucket, e: nat, from: int, to: int)
    requires Sane(cfg) && b.lastRefill <= from <= to && e <= ElapsedMs(cfg, b, to)
    requires ElapsedMs(cfg, b, from) * cfg.rate < e * cfg.rate
    ensures var now := b.lastRefill + e * cfg.ticksPerMs;
            from <= now <= to && ElapsedMs(cfg, b, now) == e
  {
    var g := cfg.ticksPerMs;
    var f, top := ElapsedMs(cfg, b, from), ElapsedMs(cfg, b, to);
    hide ElapsedMs;
    if e <= f {
      MulMono(e, f, cfg.rate);
    }
    ElapsedTicks(cfg, b, from);
    ElapsedTicks(cfg, b, to);
    MulMono(f + 1, e, g);
    assert (f + 1) * g == f * g + g;
    MulMono(e, top, g);
    MulNonneg(e, g);
    ElapsedFloor(cfg, b, b.lastRefill + e * g);
    DivideExactly(e, g);
  }

  lemma DivideExactly(a: nat, d: nat)
    requires d > 0
    ensures a * d / d == a
  {
    DivisionBounds(a * d, d);
    var q := a * d / d;
    assert (a + 1) * d == a * d + d && (q + 1) * d == q * d + d;
    Cancel(q, a, d);
    Cancel(a, q, d);
  }

  // ---------------------------------------------------------------- inputs on which it fails

  /** A limiter that tracks one identity. */
  function Tracking(key: Ip, b: Bucket): Lru { Lru([Entry(key, 0, b)], 0) }

  /** The plain bound fails: with a burst and a rate of one and a bucket full since 0, two requests
      pass within a millisecond. */
  lemma PlainBoundFails(key: Ip)
    ensures var cfg := Config(1, 1, 1);
            !PlainBound(cfg, Tracking(key, Bucket(1, 0)), key, 999, 1000)
  {
    var cfg := Config(1, 1, 1);
    var b := Bucket(1, 0);
    TrackingFinds(key, b);
    assert Refill(cfg, b, 999) == 0 && Refill(cfg, b, 1000) == 1;
    assert Drawn(cfg, b, 1000) * Unit(cfg) > cfg.burst * Unit(cfg) + cfg.rate * (1000 - 999);
    WindowExact(cfg, Tracking(key, b), key, 999, 1000);
  }

  /** The rounding up of a window to whole milliseconds is needed: with a clock in nanoseconds, a burst
      of two and a rate of two thousand, four requests pass within a nanosecond. */
  lemma TokenOfSlackFails(key: Ip) returns (ops: seq<Op>)
    ensures var cfg := Config(2, 2000, 1_000_000);
            var l := Tracking(key, Bucket(2, 0));
            && Clocked(ops, 999_999, 1_000_000) && Kept(cfg, l, ops, key) && Allowed(cfg, l, ops, key) == 4
            && 4 * Unit(cfg) > (cfg.burst + 1) * Unit(cfg) + cfg.rate * 1
  {
    var cfg := Config(2, 2000, 1_000_000);
    var b := Bucket(2, 0);
    TrackingFinds(key, b);
    assert Refill(cfg, b, 999_999) == 0 && Refill(cfg, b, 1_000_000) == 2;
    ops := Draws(cfg, b, key, 999_999, 1_000_000);
    DrawsPass(cfg, Tracking(key, b), key, 999_999, 1_000_000);
    DrawsClocked(cfg, b, key, 999_999, 999_999, 1_000_000);
  }

  lemma TrackingFinds(key: Ip, b: Bucket)
    ensures var l := Tracking(key, b); Distinct(l.entries) && Lookup(l, key).Some? && BucketOf(l, key) == b
  {
  }
}
