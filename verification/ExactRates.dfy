/** For which configured rates the packet limiter is as good as its ideal, the fluid bucket of the
    full rate with room for exactly the burst. It refuses nothing that the ideal accepts only at
    multiples of 1000 packets a second, and accepts nothing that the ideal refuses only from 1000
    packets a second on; at any other rate, such as the default of 100, there is traffic that
    shows the difference. */
module ExactRates {
  import opened TokenBucket

  /** Nothing that keeps to the rate and the burst is ever refused. */
  ghost predicate ConformingIsAccepted(rate: int) {
    forall t0: int, ts: seq<int>, i: nat ::
      Nondecreasing([t0] + ts) && Conforms(FullFluid(rate, 2 * rate, t0), ts) && i < |ts| ==> Accepts(Init(rate, t0), ts, i)
  }

  /** Nothing is ever accepted that does not keep to the rate and the burst. */
  ghost predicate AcceptedIsConforming(rate: int) {
    forall t0: int, ts: seq<int> ::
      Nondecreasing([t0] + ts) ==> Conforms(FullFluid(rate, 2 * rate, t0), AcceptedTimes(Init(rate, t0), ts))
  }

  // ----- where it holds -----

  /** The bucket's tokens and its unrefilled time are worth at least what the fluid holds. */
  ghost predicate CoversFullFluid(f: Fluid, b: Bucket, now: int) {
    Rise(f, now).level <= 1000 * b.tokens + f.rate * (now - b.last)
  }

  lemma WholeTokens(rate: int, dt: int) returns (k: int)
    requires rate % 1000 == 0
    ensures rate * dt == 1000 * k
  {
    k := rate / 1000 * dt;
    assert rate == 1000 * (rate / 1000);
  }

  lemma FullStep(f: Fluid, b: Bucket, t: int, v: Verdict, k: int, e: int, whole: int)
    requires f.capacity == 1000 * b.burst && f.cost == 1000
    requires e == f.rate * (t - b.last) && ChecksTo(b, e, k, f.rate * (t - v.bucket.last), v) && e == 1000 * whole
    requires CoversFullFluid(f, b, t) && f.cost <= Rise(f, t).level
    ensures v.ok && CoversFullFluid(Pour(f, t), v.bucket, t)
  {
    RiseAtOnce(Pour(f, t), t);
  }

  lemma FullSnoc(rate: int, f: Fluid, b: Bucket, now: int, t: int)
    requires 0 < rate && rate % 1000 == 0 && f.rate == rate && f.capacity == 1000 * b.burst && f.cost == 1000
    requires b.burst == 2 * rate && b.last <= now <= t
    requires CoversFullFluid(f, b, now) && f.cost <= Rise(f, t).level
    ensures Check(b, t).ok && CoversFullFluid(Pour(f, t), Check(b, t).bucket, t)
  {
    RiseFurther(f, now, t);
    RateSplits(rate, b.last, now, t);
    RateMonotone(rate, now, t);
    var k := CheckBounds(rate, b, t);
    var whole := WholeTokens(rate, t - b.last);
    FullStep(f, b, t, Check(b, t), k, rate * (t - b.last), whole);
  }

  lemma {:induction false} FullInvariant(rate: int, t0: int, ts: seq<int>)
    requires 0 < rate && rate % 1000 == 0 && Nondecreasing([t0] + ts) && Conforms(FullFluid(rate, 2 * rate, t0), ts)
    ensures CoversFullFluid(PourAll(FullFluid(rate, 2 * rate, t0), ts), After(Init(rate, t0), ts), ([t0] + ts)[|ts|])
    ensures ts != [] ==> Accepts(Init(rate, t0), ts, |ts| - 1)
  {
    if ts != [] {
      var n := |ts| - 1;
      var f := FullFluid(rate, 2 * rate, t0);
      assert [t0] + ts[..n] == ([t0] + ts)[..|ts|];
      assert ([t0] + ts)[n] <= ([t0] + ts)[|ts|] == ts[n];
      assert forall i :: 0 <= i < n ==> ts[..n][..i] == ts[..i];
      FullInvariant(rate, t0, ts[..n]);
      AfterKeeps(rate, t0, ts[..n]);
      PourAllKeeps(f, ts[..n]);
      FullSnoc(rate, PourAll(f, ts[..n]), After(Init(rate, t0), ts[..n]), ([t0] + ts)[n], ts[n]);
    }
  }

  lemma WholeRateAccepts(rate: int, t0: int, ts: seq<int>, i: nat)
    requires rate <= 0 || rate % 1000 == 0
    requires Nondecreasing([t0] + ts) && Conforms(FullFluid(rate, 2 * rate, t0), ts) && i < |ts|
    ensures Accepts(Init(rate, t0), ts, i)
  {
    var f, us := FullFluid(rate, 2 * rate, t0), ts[..i + 1];
    assert f.cost <= Rise(PourAll(f, ts[..0]), ts[0]).level <= f.capacity;
    assert forall k :: 0 <= k <= i ==> us[..k] == ts[..k];
    assert [t0] + us == ([t0] + ts)[..i + 2];
    FullInvariant(rate, t0, us);
    assert us[..i] == ts[..i] && us[i] == ts[i];
  }

  // ----- bucket and fluid side by side -----

  /** Both meters, started at time 0, after the same traffic, all of which passed both. */
  datatype Meters = Meters(ts: seq<int>, tokens: int, last: int, level: int, at: int)

  ghost predicate BucketAt(rate: int, m: Meters) {
    && AcceptedTimes(Init(rate, 0), m.ts) == m.ts
    && After(Init(rate, 0), m.ts) == Bucket(2 * rate, m.tokens, m.last)
  }

  ghost predicate FluidAt(rate: int, m: Meters) {
    && Conforms(FullFluid(rate, 2 * rate, 0), m.ts)
    && PourAll(FullFluid(rate, 2 * rate, 0), m.ts) == Fluid(rate, 2000 * rate, 1000, m.level, m.at)
  }

  ghost predicate InStep(rate: int, m: Meters) {
    && Nondecreasing([0] + m.ts) && ([0] + m.ts)[|m.ts|] == m.at
    && BucketAt(rate, m) && FluidAt(rate, m)
  }

  lemma Full(rate: int) returns (m: Meters)
    requires 0 < rate
    ensures InStep(rate, m) && m == Meters([], 2 * rate, 0, 2000 * rate, 0)
  {
    m := Meters([], 2 * rate, 0, 2000 * rate, 0);
  }

  lemma OneLater(ts: seq<int>, t: int)
    requires Nondecreasing([0] + ts) && ([0] + ts)[|ts|] <= t
    ensures Nondecreasing([0] + (ts + [t])) && ([0] + (ts + [t]))[|ts + [t]|] == t
  {
    assert [0] + (ts + [t]) == ([0] + ts) + [t];
  }

  /** What one more packet, at a time when k whole tokens have accrued in the bucket and `risen`
      thousandths in the fluid, makes of the meters. */
  function Sent(rate: int, m: Meters, t: int, k: int, risen: int): Meters {
    Meters(m.ts + [t], (if k == 0 then m.tokens else Min(2 * rate, m.tokens + k)) - 1,
           if k == 0 then m.last else t, Min(2000 * rate, m.level + risen) - 1000, t)
  }

  lemma SentBucket(rate: int, m: Meters, t: int, e: int, k: int, risen: int)
    requires 0 < rate && BucketAt(rate, m) && m.last <= t
    requires e == rate * (t - m.last) && 1000 * k <= e < 1000 * k + 1000
    ensures var n := Sent(rate, m, t, k, risen);
      && After(Init(rate, 0), n.ts) == Bucket(2 * rate, n.tokens, n.last)
      && (Accepts(Init(rate, 0), n.ts, |m.ts|) <==> 0 <= n.tokens)
      && (0 <= n.tokens ==> BucketAt(rate, n))
  {
    RefillIs(rate, Bucket(2 * rate, m.tokens, m.last), t, e, k);
    assert (m.ts + [t])[..|m.ts|] == m.ts;
  }

  lemma SentFluid(rate: int, m: Meters, t: int, k: int, risen: int)
    requires FluidAt(rate, m) && risen == rate * (t - m.at)
    ensures var n := Sent(rate, m, t, k, risen);
      if 0 <= n.level then FluidAt(rate, n) else !Conforms(FullFluid(rate, 2 * rate, 0), n.ts)
  {
    var f := FullFluid(rate, 2 * rate, 0);
    assert (m.ts + [t])[..|m.ts|] == m.ts;
    assert Rise(PourAll(f, m.ts), t).level == Min(2000 * rate, m.level + risen);
    if 1000 <= Min(2000 * rate, m.level + risen) {
      ConformsSnoc(f, m.ts, t);
    }
  }

  /** One packet that both meters let pass. */
  lemma Send(rate: int, m: Meters, t: int, e: int, k: int, risen: int) returns (n: Meters)
    requires 0 < rate && InStep(rate, m) && m.last <= t && m.at <= t
    requires e == rate * (t - m.last) && 1000 * k <= e < 1000 * k + 1000 && risen == rate * (t - m.at)
    requires 0 <= Sent(rate, m, t, k, risen).tokens && 0 <= Sent(rate, m, t, k, risen).level
    ensures n == Sent(rate, m, t, k, risen) && InStep(rate, n)
  {
    n := Sent(rate, m, t, k, risen);
    SentBucket(rate, m, t, e, k, risen);
    SentFluid(rate, m, t, k, risen);
    OneLater(m.ts, t);
  }

  lemma NothingAccrues(rate: int, t: int)
    ensures rate * (t - t) == 0
  {
  }

  /** n more packets at once. */
  lemma {:induction false} SendMore(rate: int, m: Meters, e: int, n: nat) returns (l: Meters)
    requires 0 < rate && InStep(rate, m) && m.last <= m.at && e == rate * (m.at - m.last) && 0 <= e < 1000
    requires n <= m.tokens && 1000 * n <= m.level <= 2000 * rate
    ensures InStep(rate, l) && l.at == m.at && l.last == m.last
    ensures l.tokens == m.tokens - n && l.level == m.level - 1000 * n
    decreases n
  {
    l := m;
    if n > 0 {
      NothingAccrues(rate, m.at);
      l := Send(rate, m, m.at, e, 0, 0);
      l := SendMore(rate, l, e, n - 1);
    }
  }

  // ----- the full rate is refused -----

  /** A number of milliseconds worth a token or more, but not a whole number of tokens. */
  lemma UnevenGap(rate: int) returns (d: int, e: int)
    requires 0 < rate && rate % 1000 != 0
    ensures 0 < d && e == rate * d && 1000 <= e <= 999 + 2 * rate && e % 1000 != 0
  {
    d := 999 / rate + 1;
    e := rate * d;
    assert rate * (999 / rate) + 999 % rate == 999;
    assert e == rate * (999 / rate) + rate;
    if e % 1000 == 0 {
      assert rate * (d + 1) == e + rate;
      d, e := d + 1, e + rate;
    }
  }

  /** An empty bucket is called again after an uneven gap, for as many tokens as were refilled:
      it is empty again, and the fluid is left with the remainder that the refill forgot. */
  lemma Cycle(rate: int, m: Meters, d: int, e: int) returns (n: Meters)
    requires 0 < rate && InStep(rate, m) && m.tokens == 0 && m.last == m.at && 0 <= m.level < 1000
    requires 0 < d && e == rate * d && 1000 <= e <= 999 + 2 * rate
    ensures InStep(rate, n) && n.tokens == 0 && n.last == n.at && n.level == m.level + e % 1000
  {
    var k := e / 1000;
    NothingAccrues(rate, m.at + d);
    n := Send(rate, m, m.at + d, e, k, e);
    n := SendMore(rate, n, 0, k - 1);
  }

  /** Repeated, this leaves a whole token in the fluid and none in the bucket. */
  lemma TokenForgotten(rate: int) returns (m: Meters)
    requires 0 < rate && rate % 1000 != 0
    ensures InStep(rate, m) && m.tokens == 0 && m.last == m.at && 1000 <= m.level
  {
    var d, e := UnevenGap(rate);
    m := Full(rate);
    m := SendMore(rate, m, 0, 2 * rate);
    while m.level < 1000
      invariant InStep(rate, m) && m.tokens == 0 && m.last == m.at && 0 <= m.level
      decreases 1000 - m.level
    {
      m := Cycle(rate, m, d, e);
    }
  }

  lemma UnevenRateRefuses(rate: int) returns (ts: seq<int>)
    requires 0 < rate && rate % 1000 != 0
    ensures ts != [] && Nondecreasing([0] + ts) && Conforms(FullFluid(rate, 2 * rate, 0), ts)
    ensures !Accepts(Init(rate, 0), ts, |ts| - 1)
  {
    var m := TokenForgotten(rate);
    ts := m.ts + [m.at];
    NothingAccrues(rate, m.at);
    SentBucket(rate, m, m.at, 0, 0, 0);
    SentFluid(rate, m, m.at, 0, 0);
    OneLater(m.ts, m.at);
  }

  /** The limiter accepts all traffic that keeps to the configured rate and burst if and only if
      the rate is a whole number of packets a millisecond (or lets nothing pass at all). */
  lemma ConformingIsAcceptedExactly(rate: int)
    ensures ConformingIsAccepted(rate) <==> rate <= 0 || rate % 1000 == 0
  {
    if rate <= 0 || rate % 1000 == 0 {
      forall t0: int, ts: seq<int>, i: nat | Nondecreasing([t0] + ts) && Conforms(FullFluid(rate, 2 * rate, t0), ts) && i < |ts|
        ensures Accepts(Init(rate, t0), ts, i)
      {
        WholeRateAccepts(rate, t0, ts, i);
      }
    } else {
      var ts := UnevenRateRefuses(rate);
      assert !Accepts(Init(rate, 0), ts, |ts| - 1);
    }
  }

  // ----- more than the burst is accepted -----

  /** The first millisecond at which a token has accrued. */
  lemma FirstToken(rate: int) returns (t: int, e: int)
    requires 0 < rate < 1000
    ensures 1 < t && e == rate * t && e - rate == rate * (t - 1) && e - rate < 1000 <= e
  {
    t := 999 / rate + 1;
    e := rate * t;
    assert rate * (999 / rate) + 999 % rate == 999;
    assert e == rate * (999 / rate) + rate;
  }

  /** One packet early, which the bucket lets pass without a refill, and then, at the first
      millisecond worth a token, all of the burst but one. */
  lemma EarlyThenBurst(rate: int) returns (m: Meters)
    requires 0 < rate < 1000
    ensures InStep(rate, m) && m.tokens == 1 && m.last == m.at && m.level < 1000
  {
    var t, e := FirstToken(rate);
    m := Full(rate);
    m := Send(rate, m, 1, rate, 0, rate);
    m := Send(rate, m, t, e, 1, e - rate);
    NothingAccrues(rate, t);
    m := SendMore(rate, m, 0, 2 * rate - 2);
  }

  lemma SlowRateOverfills(rate: int) returns (ts: seq<int>)
    requires 0 < rate < 1000
    ensures Nondecreasing([0] + ts)
    ensures !Conforms(FullFluid(rate, 2 * rate, 0), AcceptedTimes(Init(rate, 0), ts))
  {
    var m := EarlyThenBurst(rate);
    ts := m.ts + [m.at];
    NothingAccrues(rate, m.at);
    SentBucket(rate, m, m.at, 0, 0, 0);
    SentFluid(rate, m, m.at, 0, 0);
    OneLater(m.ts, m.at);
  }

  lemma FastRateFits(rate: int, t0: int, ts: seq<int>)
    requires (rate <= 0 || 1000 <= rate) && Nondecreasing([t0] + ts)
    ensures Conforms(FullFluid(rate, 2 * rate, t0), AcceptedTimes(Init(rate, t0), ts))
  {
    if rate <= 0 {
      NothingWithoutRate(rate, t0, ts);
    } else {
      UpperInvariant(rate, 2 * rate, t0, ts);
    }
  }

  /** The limiter accepts nothing beyond the configured rate and burst if and only if the rate is
      at least one packet a millisecond (or lets nothing pass at all). */
  lemma AcceptedIsConformingExactly(rate: int)
    ensures AcceptedIsConforming(rate) <==> rate <= 0 || 1000 <= rate
  {
    if rate <= 0 || 1000 <= rate {
      forall t0: int, ts: seq<int> | Nondecreasing([t0] + ts)
        ensures Conforms(FullFluid(rate, 2 * rate, t0), AcceptedTimes(Init(rate, t0), ts))
      {
        FastRateFits(rate, t0, ts);
      }
    } else {
      var ts := SlowRateOverfills(rate);
      assert Nondecreasing([0] + ts);
    }
  }
}
