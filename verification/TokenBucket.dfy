/** The per-session packet limiter: an integer token bucket that drops the remainder of
    every refill, sandwiched between two ideal fluid buckets. Times are milliseconds. */
module TokenBucket {

  datatype Bucket = Bucket(burst: int, tokens: int, last: int)

  datatype Verdict = Verdict(bucket: Bucket, ok: bool)

  function Min(a: int, b: int): int {
    if a < b then a else b
  }

  function Init(rate: int, now: int): Bucket {
    Bucket(rate * 2, rate * 2, now)
  }

  function Refill(b: Bucket, now: int): Bucket {
    var elapsed := now - b.last;
    if elapsed > 0 && b.burst > 0 then
      var refill := elapsed * (b.burst / 2) / 1000;
      if refill > 0 then Bucket(b.burst, Min(b.burst, b.tokens + refill), now) else b
    else
      b
  }

  /** One packet: refill, take a token even when there is none, and look at what was there. */
  function Check(b: Bucket, now: int): Verdict {
    var f := Refill(b, now);
    Verdict(f.(tokens := f.tokens - 1), f.tokens > 0)
  }

  class RateLimiter {
    var rateBurst: int
    var rateTokens: int
    var lastRefillMs: int

    ghost function State(): Bucket
      reads this
    {
      Bucket(rateBurst, rateTokens, lastRefillMs)
    }

    constructor ()
      ensures State() == Bucket(0, 0, 0)
    {
      rateBurst, rateTokens, lastRefillMs := 0, 0, 0;
    }

    method InitRateLimit(ratePerSec: int, now: int)
      modifies this
      ensures State() == Init(ratePerSec, now)
    {
      rateBurst := ratePerSec * 2;
      rateTokens := rateBurst;
      lastRefillMs := now;
    }

    method CheckRateLimit(now: int) returns (ok: bool)
      modifies this
      ensures Verdict(State(), ok) == Check(old(State()), now)
    {
      var elapsed := now - lastRefillMs;
      if elapsed > 0 && rateBurst > 0 {
        var refill := elapsed * (rateBurst / 2) / 1000;
        if refill > 0 {
          rateTokens := Min(rateBurst, rateTokens + refill);
          lastRefillMs := now;
        }
      }
      var prev := rateTokens;
      rateTokens := rateTokens - 1;
      ok := prev > 0;
    }
  }

  // ----- runs -----

  ghost predicate Nondecreasing(ts: seq<int>) {
    forall i, j :: 0 <= i < j < |ts| ==> ts[i] <= ts[j]
  }

  /** The bucket after one check at each of the given times. */
  function After(b: Bucket, ts: seq<int>): Bucket {
    if ts == [] then b else Check(After(b, ts[..|ts| - 1]), ts[|ts| - 1]).bucket
  }

  /** Whether the i-th check of the run passes. */
  predicate Accepts(b: Bucket, ts: seq<int>, i: nat)
    requires i < |ts|
  {
    Check(After(b, ts[..i]), ts[i]).ok
  }

  /** The times of the checks that pass. */
  function AcceptedTimes(b: Bucket, ts: seq<int>): (ps: seq<int>)
    ensures |ps| <= |ts|
  {
    if ts == [] then []
    else
      var n := |ts| - 1;
      AcceptedTimes(b, ts[..n]) + (if Accepts(b, ts, n) then [ts[n]] else [])
  }

  // ----- the ideal -----

  /** A fluid bucket: it fills continuously at `rate` units a millisecond up to `capacity`,
      and a packet costs `cost` units. Nothing is rounded. */
  datatype Fluid = Fluid(rate: int, capacity: int, cost: int, level: int, at: int)

  function Rise(f: Fluid, now: int): Fluid {
    f.(level := Min(f.capacity, f.level + f.rate * (now - f.at)), at := now)
  }

  function Pour(f: Fluid, now: int): Fluid {
    var g := Rise(f, now);
    g.(level := g.level - f.cost)
  }

  function PourAll(f: Fluid, ts: seq<int>): Fluid {
    if ts == [] then f else Pour(PourAll(f, ts[..|ts| - 1]), ts[|ts| - 1])
  }

  /** Every packet of the traffic finds its whole cost in the fluid bucket. */
  ghost predicate Conforms(f: Fluid, ts: seq<int>) {
    forall i :: 0 <= i < |ts| ==> f.cost <= Rise(PourAll(f, ts[..i]), ts[i]).level
  }

  /** Full at time t0; `perSecond` packets a second, room for `packets` packets. Levels are in
      thousandths of a packet. */
  function FullFluid(perSecond: int, packets: int, t0: int): Fluid {
    Fluid(perSecond, 1000 * packets, 1000, 1000 * packets, t0)
  }

  /** As FullFluid at half the rate; levels are in two-thousandths of a packet. */
  function HalfRateFluid(perSecond: int, packets: int, t0: int): Fluid {
    Fluid(perSecond, 2000 * packets, 2000, 2000 * packets, t0)
  }

  // ----- arithmetic -----

  lemma RateSplits(rate: int, a: int, b: int, c: int)
    ensures rate * (c - a) == rate * (b - a) + rate * (c - b)
  {
  }

  lemma RateMonotone(rate: int, a: int, b: int)
    requires 0 <= rate && a <= b
    ensures 0 <= rate * (b - a)
  {
  }

  lemma {:induction false} AfterKeeps(rate: int, t0: int, ts: seq<int>)
    requires Nondecreasing([t0] + ts)
    ensures var b := After(Init(rate, t0), ts);
      b.burst == 2 * rate && b.tokens <= b.burst && t0 <= b.last <= ([t0] + ts)[|ts|]
  {
    if ts != [] {
      var n := |ts| - 1;
      assert [t0] + ts[..n] == ([t0] + ts)[..|ts|];
      AfterKeeps(rate, t0, ts[..n]);
      assert ([t0] + ts)[n] <= ([t0] + ts)[|ts|] == ts[n];
    }
  }

  /** What a check does, seen from outside: `e` thousandths of a token have accrued since the
      last refill. Below 1000 nothing is refilled and they stay accrued; otherwise `k` tokens are
      refilled, all the whole ones and at least half of what accrued, and the remainder is
      forgotten. */
  ghost predicate ChecksTo(b: Bucket, e: int, k: int, left: int, v: Verdict) {
    && 0 <= e
    && (if e < 1000 then k == 0 && left == e else 1000 * k <= e < 1000 * k + 1000 && e < 2000 * k && left == 0)
    && v.bucket.tokens == (if k == 0 then b.tokens else Min(b.burst, b.tokens + k)) - 1
    && (v.ok <==> v.bucket.tokens >= 0)
  }

  lemma RefillIs(rate: int, b: Bucket, now: int, e: int, k: int)
    requires b.burst == 2 * rate && 0 < rate && b.last <= now
    requires e == rate * (now - b.last) && 1000 * k <= e < 1000 * k + 1000
    ensures 0 <= e && 0 <= k
    ensures Refill(b, now) == if k == 0 then b else Bucket(b.burst, Min(b.burst, b.tokens + k), now)
  {
    assert b.burst / 2 == rate && (now - b.last) * rate == e;
    RateMonotone(rate, b.last, now);
    if now == b.last {
      assert e == 0;
    }
  }

  lemma CheckBounds(rate: int, b: Bucket, now: int) returns (k: int)
    requires b.burst == 2 * rate && 0 < rate && b.last <= now
    ensures var v := Check(b, now);
      ChecksTo(b, rate * (now - b.last), k, rate * (now - v.bucket.last), v)
  {
    var e := rate * (now - b.last);
    k := e / 1000;
    RefillIs(rate, b, now, e, k);
    assert rate * (now - now) == 0;
  }

  lemma RiseFurther(f: Fluid, a: int, b: int)
    requires 0 <= f.rate && a <= b
    ensures Rise(f, b).level == Min(f.capacity, Rise(f, a).level + f.rate * (b - a))
  {
    RateSplits(f.rate, f.at, a, b);
    RateMonotone(f.rate, a, b);
  }

  lemma RiseAtOnce(f: Fluid, now: int)
    ensures f.at == now ==> Rise(f, now).level == Min(f.capacity, f.level)
    ensures f.rate * (now - now) == 0
  {
  }

  lemma ConformsSnoc(f: Fluid, ps: seq<int>, t: int)
    requires Conforms(f, ps) && f.cost <= Rise(PourAll(f, ps), t).level
    ensures Conforms(f, ps + [t])
  {
    forall i | 0 <= i < |ps + [t]|
      ensures f.cost <= Rise(PourAll(f, (ps + [t])[..i]), (ps + [t])[i]).level
    {
      if i < |ps| {
        assert (ps + [t])[..i] == ps[..i];
      } else {
        assert (ps + [t])[..i] == ps;
      }
    }
  }

  // ----- upper simulation -----

  /** The fluid holds at least what the bucket's tokens and its unrefilled time are worth. */
  ghost predicate FluidCovers(f: Fluid, b: Bucket, now: int) {
    Rise(f, now).level >= Min(f.capacity, 1000 * b.tokens + f.rate * (now - b.last))
  }

  /** The bucket's tokens, counted double, and its unrefilled time are worth at least what
      the half-rate fluid holds. */
  ghost predicate CoversFluid(f: Fluid, b: Bucket, now: int) {
    Rise(f, now).level <= 2000 * b.tokens + f.rate * (now - b.last)
  }

  /** FluidCovers for a fluid that was last touched just now. */
  lemma CoversNow(f: Fluid, b: Bucket, now: int, accrued: int)
    requires f.at == now && f.level <= f.capacity && accrued == f.rate * (now - b.last)
    ensures FluidCovers(f, b, now) <==> f.level >= Min(f.capacity, 1000 * b.tokens + accrued)
    ensures CoversFluid(f, b, now) <==> f.level <= 2000 * b.tokens + accrued
  {
    RiseAtOnce(f, now);
  }

  /** Room for one packet beyond the burst is enough; room for the burst alone is enough where
      no part of a token is ever left unrefilled, as at 1000 packets a second and more. */
  ghost predicate RoomEnough(rate: int, room: int) {
    room == 2 * rate + 1 || (room == 2 * rate && 1000 <= rate)
  }

  lemma NoPartOfAToken(rate: int, dt: int, e: int)
    requires 1000 <= rate && e == rate * dt && 0 <= e
    ensures e == 0 || 1000 <= e
  {
    if 1 <= dt {
      RateMonotone(rate, 1, dt);
      RateSplits(rate, 0, 1, dt);
    }
  }

  lemma UpperStep(f: Fluid, b: Bucket, t: int, v: Verdict, k: int, e: int, left: int)
    requires f.cost == 1000 && b.tokens <= b.burst
    requires f.capacity == 1000 * (b.burst + 1) || (f.capacity == 1000 * b.burst && (e == 0 || 1000 <= e))
    requires e == f.rate * (t - b.last) && left == f.rate * (t - v.bucket.last) && ChecksTo(b, e, k, left, v)
    requires FluidCovers(f, b, t)
    ensures if v.ok then f.cost <= Rise(f, t).level && FluidCovers(Pour(f, t), v.bucket, t)
      else FluidCovers(f, v.bucket, t)
  {
    CoversNow(Pour(f, t), v.bucket, t, left);
    CoversNow(Rise(f, t), v.bucket, t, left);
  }

  lemma PourAllKeeps(f: Fluid, ps: seq<int>)
    ensures var g := PourAll(f, ps); g.rate == f.rate && g.capacity == f.capacity && g.cost == f.cost
  {
  }

  lemma CoversLater(f: Fluid, b: Bucket, now: int, t: int)
    requires 0 <= f.rate && now <= t
    ensures FluidCovers(f, b, now) ==> FluidCovers(f, b, t)
    ensures CoversFluid(f, b, now) ==> CoversFluid(f, b, t)
  {
    RiseFurther(f, now, t);
    RateSplits(f.rate, b.last, now, t);
    RateMonotone(f.rate, now, t);
  }

  lemma {:induction false} UpperInvariant(rate: int, room: int, t0: int, ts: seq<int>)
    requires 0 < rate && RoomEnough(rate, room) && Nondecreasing([t0] + ts)
    ensures var f := FullFluid(rate, room, t0);
      var ps := AcceptedTimes(Init(rate, t0), ts);
      Conforms(f, ps) && FluidCovers(PourAll(f, ps), After(Init(rate, t0), ts), ([t0] + ts)[|ts|])
  {
    if ts != [] {
      var n := |ts| - 1;
      var f, b, ps := FullFluid(rate, room, t0), After(Init(rate, t0), ts[..n]), AcceptedTimes(Init(rate, t0), ts[..n]);
      var now, t := ([t0] + ts)[n], ts[n];
      assert [t0] + ts[..n] == ([t0] + ts)[..|ts|];
      assert now <= ([t0] + ts)[|ts|] == t;
      UpperInvariant(rate, room, t0, ts[..n]);
      AfterKeeps(rate, t0, ts[..n]);
      CoverSnoc(rate, room, f, ps, b, now, t);
    }
  }

  lemma CoverSnoc(rate: int, room: int, f: Fluid, ps: seq<int>, b: Bucket, now: int, t: int)
    requires 0 < rate && RoomEnough(rate, room) && f == FullFluid(rate, room, f.at)
    requires b.burst == 2 * rate && b.tokens <= b.burst && b.last <= now <= t
    requires Conforms(f, ps) && FluidCovers(PourAll(f, ps), b, now)
    ensures var v := Check(b, t);
      var qs := ps + (if v.ok then [t] else []);
      Conforms(f, qs) && FluidCovers(PourAll(f, qs), v.bucket, t)
  {
    var g := PourAll(f, ps);
    PourAllKeeps(f, ps);
    CoversLater(g, b, now, t);
    var k := CheckBounds(rate, b, t);
    var e := rate * (t - b.last);
    if 1000 <= rate {
      NoPartOfAToken(rate, t - b.last, e);
    }
    UpperStep(g, b, t, Check(b, t), k, e, rate * (t - Check(b, t).bucket.last));
    if Check(b, t).ok {
      ConformsSnoc(f, ps, t);
      assert (ps + [t])[..|ps|] == ps;
    } else {
      assert ps + [] == ps;
    }
  }

  /** Whatever CheckRateLimit lets through, at any nondecreasing times, an ideal fluid bucket
      of the configured rate with room for burst + 1 packets lets through as well. */
  lemma UpperSimulation(rate: int, t0: int, ts: seq<int>)
    requires Nondecreasing([t0] + ts)
    ensures Conforms(FullFluid(rate, 2 * rate + 1, t0), AcceptedTimes(Init(rate, t0), ts))
  {
    if 0 < rate {
      UpperInvariant(rate, 2 * rate + 1, t0, ts);
    } else {
      NothingWithoutRate(rate, t0, ts);
    }
  }

  /** A rate of zero or less admits nothing at all. */
  lemma {:induction false} NothingWithoutRate(rate: int, t0: int, ts: seq<int>)
    requires rate <= 0
    ensures AcceptedTimes(Init(rate, t0), ts) == []
    ensures After(Init(rate, t0), ts) == Init(rate, t0).(tokens := 2 * rate - |ts|)
  {
    if ts != [] {
      NothingWithoutRate(rate, t0, ts[..|ts| - 1]);
    }
  }

  /** A stretch of conforming traffic is paid for by one full bucket and what rises in it. */
  lemma {:induction false} ConformingWindow(f: Fluid, ps: seq<int>, i: nat, j: nat)
    requires 0 <= f.rate && Conforms(f, ps) && i <= j < |ps|
    ensures var g := PourAll(f, ps[..j + 1]);
      g.at == ps[j] && 0 <= g.level && f.cost * (j - i + 1) + g.level <= f.capacity + f.rate * (ps[j] - ps[i])
    decreases j - i
  {
    PourAllKeeps(f, ps[..j]);
    assert ps[..j + 1][..j] == ps[..j] && ps[..j + 1][j] == ps[j];
    assert PourAll(f, ps[..j + 1]) == Pour(PourAll(f, ps[..j]), ps[j]);
    if i < j {
      ConformingWindow(f, ps, i, j - 1);
      assert ps[..j - 1 + 1] == ps[..j];
      RateSplits(f.rate, ps[i], ps[j - 1], ps[j]);
      CostSplits(f.cost, j - i);
    } else {
      CostSplits(f.cost, 0);
      RiseAtOnce(f, ps[i]);
    }
  }

  lemma CostSplits(cost: int, n: int)
    ensures cost * (n + 1) == cost * n + cost
  {
  }

  /** n packets within `ms` milliseconds: burst + 1, and one more for every 1000 / rate. */
  ghost predicate WithinBurstAndRate(rate: int, n: int, ms: int) {
    1000 * n <= 1000 * (2 * rate + 1) + rate * ms
  }

  /** In any stretch of accepted packets, wherever it starts in the run, there are at most
      burst + 1 packets and one more for every 1000 / rate milliseconds it lasts. */
  lemma WindowBound(rate: int, t0: int, ts: seq<int>, i: nat, j: nat, ms: int)
    requires Nondecreasing([t0] + ts)
    requires var ps := AcceptedTimes(Init(rate, t0), ts); i <= j < |ps| && ms == ps[j] - ps[i]
    ensures WithinBurstAndRate(rate, j - i + 1, ms)
  {
    if rate <= 0 {
      NothingWithoutRate(rate, t0, ts);
    }
    UpperSimulation(rate, t0, ts);
    AcceptedAreOrdered(Init(rate, t0), t0, ts);
    ConformingWindow(FullFluid(rate, 2 * rate + 1, t0), AcceptedTimes(Init(rate, t0), ts), i, j);
  }

  lemma {:induction false} AcceptedAreOrdered(b: Bucket, t0: int, ts: seq<int>)
    requires Nondecreasing([t0] + ts)
    ensures Nondecreasing(AcceptedTimes(b, ts))
    ensures forall p :: p in AcceptedTimes(b, ts) ==> p <= ([t0] + ts)[|ts|]
  {
    if ts != [] {
      assert [t0] + ts[..|ts| - 1] == ([t0] + ts)[..|ts|];
      AcceptedAreOrdered(b, t0, ts[..|ts| - 1]);
      var ps := AcceptedTimes(b, ts[..|ts| - 1]);
      assert forall k :: 0 <= k < |ps| ==> ps[k] in ps;
      assert ([t0] + ts)[|ts| - 1] <= ([t0] + ts)[|ts|];
    }
  }

  // ----- lower simulation -----

  lemma LowerStep(f: Fluid, b: Bucket, t: int, v: Verdict, k: int)
    requires f.capacity == 2000 * b.burst && f.cost == 2000
    requires ChecksTo(b, f.rate * (t - b.last), k, f.rate * (t - v.bucket.last), v)
    requires CoversFluid(f, b, t) && f.cost <= Rise(f, t).level
    ensures v.ok && CoversFluid(Pour(f, t), v.bucket, t)
  {
    CoversNow(Pour(f, t), v.bucket, t, f.rate * (t - v.bucket.last));
  }

  lemma LowerSnoc(rate: int, f: Fluid, b: Bucket, now: int, t: int)
    requires 0 < rate && f.rate == rate && f.capacity == 2000 * b.burst && f.cost == 2000
    requires b.burst == 2 * rate && b.last <= now <= t
    requires CoversFluid(f, b, now) && f.cost <= Rise(f, t).level
    ensures Check(b, t).ok && CoversFluid(Pour(f, t), Check(b, t).bucket, t)
  {
    CoversLater(f, b, now, t);
    var k := CheckBounds(rate, b, t);
    LowerStep(f, b, t, Check(b, t), k);
  }

  lemma {:induction false} LowerInvariant(rate: int, t0: int, ts: seq<int>)
    requires 0 < rate && Nondecreasing([t0] + ts)
    requires Conforms(HalfRateFluid(rate, 2 * rate, t0), ts)
    ensures CoversFluid(PourAll(HalfRateFluid(rate, 2 * rate, t0), ts), After(Init(rate, t0), ts), ([t0] + ts)[|ts|])
    ensures ts != [] ==> Accepts(Init(rate, t0), ts, |ts| - 1)
  {
    if ts != [] {
      var n := |ts| - 1;
      var f := HalfRateFluid(rate, 2 * rate, t0);
      assert [t0] + ts[..n] == ([t0] + ts)[..|ts|];
      assert ([t0] + ts)[n] <= ([t0] + ts)[|ts|] == ts[n];
      assert forall i :: 0 <= i < n ==> ts[..n][..i] == ts[..i];
      LowerInvariant(rate, t0, ts[..n]);
      AfterKeeps(rate, t0, ts[..n]);
      PourAllKeeps(f, ts[..n]);
      LowerSnoc(rate, PourAll(f, ts[..n]), After(Init(rate, t0), ts[..n]), ([t0] + ts)[n], ts[n]);
    }
  }

  lemma NoFluidWithoutRate(rate: int, t0: int, ts: seq<int>)
    requires Conforms(HalfRateFluid(rate, 2 * rate, t0), ts) && ts != []
    ensures 0 < rate
  {
    var f := HalfRateFluid(rate, 2 * rate, t0);
    assert f.cost <= Rise(PourAll(f, ts[..0]), ts[0]).level <= f.capacity;
  }

  /** Rounding loses at most half of the rate: traffic that an ideal fluid bucket of half the
      configured rate and the configured burst lets through is never refused. */
  lemma LowerSimulation(rate: int, t0: int, ts: seq<int>, i: nat)
    requires Nondecreasing([t0] + ts) && i < |ts|
    requires Conforms(HalfRateFluid(rate, 2 * rate, t0), ts)
    ensures Accepts(Init(rate, t0), ts, i)
  {
    NoFluidWithoutRate(rate, t0, ts);
    var us := ts[..i + 1];
    assert forall k :: 0 <= k <= i ==> us[..k] == ts[..k];
    assert [t0] + us == ([t0] + ts)[..i + 2];
    LowerInvariant(rate, t0, us);
    assert us[..i] == ts[..i] && us[i] == ts[i];
  }

  /** A client that leaves time for one whole token between packets is never refused. */
  lemma {:induction false} SteadyClientIsNeverRefused(rate: int, t0: int, ts: seq<int>, gap: int, i: nat)
    requires 1 <= rate && 1000 <= gap * rate && i < |ts|
    requires t0 <= ts[0] && forall k :: 0 < k < |ts| ==> gap <= ts[k] - ts[k - 1]
    ensures Accepts(Init(rate, t0), ts, i)
    ensures var b := After(Init(rate, t0), ts[..i + 1]);
      b.burst == 2 * rate && b.burst - 1 <= b.tokens <= b.burst && b.last <= ts[i] && rate * (ts[i] - b.last) < 1000
  {
    assert ts[..i + 1][..i] == ts[..i] && ts[..i + 1][i] == ts[i];
    var b := After(Init(rate, t0), ts[..i]);
    if i > 0 {
      SteadyClientIsNeverRefused(rate, t0, ts, gap, i - 1);
      assert ts[..i - 1 + 1] == ts[..i];
      RateSplits(rate, b.last, ts[i - 1], ts[i]);
      RateMonotone(rate, b.last, ts[i - 1]);
      RateMonotone(rate, gap, ts[i] - ts[i - 1]);
      RateSplits(rate, 0, gap, ts[i] - ts[i - 1]);
      assert rate * (ts[i] - b.last) >= 1000;
    }
    var k := CheckBounds(rate, b, ts[i]);
  }

  lemma AfterOneMore(b: Bucket, ts: seq<int>, t: int)
    ensures After(b, ts + [t]) == Check(After(b, ts), t).bucket
    ensures AcceptedTimes(b, ts + [t]) == AcceptedTimes(b, ts) + (if Check(After(b, ts), t).ok then [t] else [])
  {
    assert (ts + [t])[..|ts|] == ts;
  }
}
