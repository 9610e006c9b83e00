/** The server-wide connection limiter: a fixed window of one minute that every applied policy
    restarts. Times are Unix milliseconds, positive and nondecreasing. */
module GlobalLimiter {

  const REFILL_WINDOW_MS := 60000

  datatype Limiter = Limiter(limit: int, tokens: int, last: int)

  /** What a policy pull found: a number, an explicit null, or neither. */
  datatype Pull = Number(n: int) | Null | Nothing

  datatype Event = Connect(at: int) | Policy(pull: Pull, at: int)

  function Initial(): Limiter {
    Limiter(0, 0, 0)
  }

  predicate RefillDue(l: Limiter, now: int) {
    l.last == 0 || now - l.last >= REFILL_WINDOW_MS
  }

  function Consume(l: Limiter, now: int): (Limiter, bool) {
    if l.limit <= 0 then (l, true)
    else
      var r := if RefillDue(l, now) then Limiter(l.limit, l.limit, now) else l;
      (r.(tokens := r.tokens - 1), r.tokens > 0)
  }

  function Apply(l: Limiter, pull: Pull, now: int): Limiter {
    match pull
    case Number(n) => if n > 0 then Limiter(n, n, now) else l
    case Null => Limiter(0, 0, now)
    case Nothing => l
  }

  class GlobalConnectionLimiter {
    var maxConnectionsPerMinuteTotal: int
    var globalConnTokens: int
    var globalConnLastRefillMs: int

    ghost function State(): Limiter
      reads this
    {
      Limiter(maxConnectionsPerMinuteTotal, globalConnTokens, globalConnLastRefillMs)
    }

    constructor ()
      ensures State() == Initial()
    {
      maxConnectionsPerMinuteTotal, globalConnTokens, globalConnLastRefillMs := 0, 0, 0;
    }

    method ConsumeGlobalConnectionToken(now: int) returns (ok: bool)
      modifies this
      ensures (State(), ok) == Consume(old(State()), now)
    {
      var limitPerMinute := maxConnectionsPerMinuteTotal;
      if limitPerMinute <= 0 {
        return true;
      }
      var last := globalConnLastRefillMs;
      if last == 0 {
        globalConnTokens := limitPerMinute;
        globalConnLastRefillMs := now;
      } else if now - last >= REFILL_WINDOW_MS {
        globalConnTokens := limitPerMinute;
        globalConnLastRefillMs := now;
      }
      var prev := globalConnTokens;
      globalConnTokens := globalConnTokens - 1;
      ok := prev > 0;
    }

    method RefreshTrafficPolicy(pull: Pull, now: int)
      modifies this
      ensures State() == Apply(old(State()), pull, now)
    {
      if pull.Number? && pull.n > 0 {
        maxConnectionsPerMinuteTotal := pull.n;
        globalConnTokens := pull.n;
        globalConnLastRefillMs := now;
      } else if pull.Null? {
        maxConnectionsPerMinuteTotal := 0;
        globalConnTokens := 0;
        globalConnLastRefillMs := now;
      }
    }
  }

  // ----- runs -----

  function Step(l: Limiter, e: Event): Limiter {
    match e
    case Connect(at) => Consume(l, at).0
    case Policy(pull, at) => Apply(l, pull, at)
  }

  function After(l: Limiter, es: seq<Event>): Limiter {
    if es == [] then l else Step(After(l, es[..|es| - 1]), es[|es| - 1])
  }

  /** How many connections the run admits. */
  function Admitted(l: Limiter, es: seq<Event>): nat {
    if es == [] then 0
    else
      var n, e := |es| - 1, es[|es| - 1];
      Admitted(l, es[..n]) + (if e.Connect? && Consume(After(l, es[..n]), e.at).1 then 1 else 0)
  }

  /** A pull that found nothing, or a number that is not positive, changes nothing. */
  predicate TakesEffect(pull: Pull) {
    pull.Null? || (pull.Number? && pull.n > 0)
  }

  /** How many policy pulls of the run took effect. */
  function Applied(es: seq<Event>): nat {
    if es == [] then 0
    else
      var n, e := |es| - 1, es[|es| - 1];
      Applied(es[..n]) + (if e.Policy? && TakesEffect(e.pull) then 1 else 0)
  }

  /** Event times never decrease, from `start` on. */
  ghost predicate Timed(es: seq<Event>, start: int) {
    && (forall i :: 0 <= i < |es| ==> start <= es[i].at)
    && (forall i, j :: 0 <= i < j < |es| ==> es[i].at <= es[j].at)
  }

  /** All of `es` lies in the half-open minute that starts at t. */
  ghost predicate InMinute(es: seq<Event>, t: int) {
    Timed(es, t) && forall i :: 0 <= i < |es| ==> es[i].at < t + 60000
  }

  /** No policy in `es` lifts the limit or sets it above `max`. */
  ghost predicate LimitsWithin(es: seq<Event>, max: int) {
    forall i :: 0 <= i < |es| && es[i].Policy? ==>
      match es[i].pull
      case Number(n) => n <= max
      case Null => false
      case Nothing => true
  }

  function Positive(x: int): nat {
    if x > 0 then x else 0
  }

  lemma {:induction false} RunsCompose(l: Limiter, a: seq<Event>, b: seq<Event>)
    ensures After(l, a + b) == After(After(l, a), b)
    ensures Admitted(l, a + b) == Admitted(l, a) + Admitted(After(l, a), b)
    ensures Applied(a + b) == Applied(a) + Applied(b)
  {
    if b == [] {
      assert a + b == a;
    } else {
      assert (a + b)[..|a + b| - 1] == a + b[..|b| - 1];
      RunsCompose(l, a, b[..|b| - 1]);
    }
  }

  /** From any start whose tokens do not exceed its limit, tokens never exceed the limit. */
  lemma {:induction false} TokensWithinLimit(l: Limiter, es: seq<Event>)
    requires l.limit > 0 ==> l.tokens <= l.limit
    ensures var m := After(l, es); m.limit > 0 ==> m.tokens <= m.limit
  {
    if es != [] {
      TokensWithinLimit(l, es[..|es| - 1]);
    }
  }

  /** Each reset is worth at most `max` admissions, and within one minute the clock can
      cause at most one reset: it happens only while the last reset lies before the minute. */
  lemma {:induction false} WindowInvariant(l: Limiter, es: seq<Event>, t: int, max: int)
    requires 0 < t && 0 < l.limit <= max && l.tokens <= l.limit
    requires InMinute(es, t) && LimitsWithin(es, max)
    ensures var m := After(l, es);
      && 0 < m.limit <= max && m.tokens <= m.limit
      && Admitted(l, es) + Positive(m.tokens) <= max * (1 + Applied(es) + (if m.last >= t then 1 else 0))
  {
    if es == [] {
      assert max * (1 + 0 + 0) == max && max * (1 + 0 + 1) == 2 * max;
    } else {
      var n, e := |es| - 1, es[|es| - 1];
      WindowInvariant(l, es[..n], t, max);
      var k := Applied(es[..n]);
      assert max * (1 + k + 1) == max * (1 + k) + max;
      assert max * (1 + (k + 1) + 1) == max * (1 + k) + 2 * max;
    }
  }

  /** After any run at all: in any minute during which the limits in force are between 1 and
      `max`, at most max * (2 + policies applied in that minute) connections are admitted. */
  lemma MinuteBound(before: seq<Event>, es: seq<Event>, t: int, max: int)
    requires 0 < t && InMinute(es, t) && LimitsWithin(es, max)
    requires 0 < After(Initial(), before).limit <= max
    ensures Admitted(After(Initial(), before), es) <= max * (2 + Applied(es))
  {
    TokensWithinLimit(Initial(), before);
    var l := After(Initial(), before);
    WindowInvariant(l, es, t, max);
    assert max * (1 + Applied(es) + 1) == max * (1 + Applied(es)) + max;
  }

  // ----- stretches without a reset -----

  /** n connection attempts at one time. */
  function Attempts(n: nat, at: int): (es: seq<Event>)
    ensures |es| == n && forall i :: 0 <= i < n ==> es[i] == Connect(at)
  {
    seq(n, _ => Connect(at))
  }

  /** Between resets exactly the tokens that are left are handed out: with none due, n attempts
      admit n connections as long as there are tokens and none after that. */
  lemma {:induction false} AdmittedWithoutReset(l: Limiter, es: seq<Event>)
    requires l.limit > 0
    requires l.last != 0 && forall i :: 0 <= i < |es| ==> es[i].Connect? && es[i].at - l.last < 60000
    ensures Admitted(l, es) == if |es| <= Positive(l.tokens) then |es| else Positive(l.tokens)
    ensures After(l, es) == l.(tokens := l.tokens - |es|)
  {
    if es != [] {
      AdmittedWithoutReset(l, es[..|es| - 1]);
    }
  }

  /** A reset that is due is carried out by the first attempt. */
  lemma AdmittedAfterDueReset(l: Limiter, n: nat, at: int)
    requires l.limit > 0 && RefillDue(l, at) && 0 < n && 0 < at
    ensures Admitted(l, Attempts(n, at)) == if n <= l.limit then n else l.limit
    ensures After(l, Attempts(n, at)) == Limiter(l.limit, l.limit - n, at)
  {
    var one := [Connect(at)];
    assert one[..0] == [];
    assert Attempts(n, at) == one + Attempts(n - 1, at);
    RunsCompose(l, one, Attempts(n - 1, at));
    assert After(l, one) == Limiter(l.limit, l.limit - 1, at) by { assert After(l, []) == l; }
    AdmittedWithoutReset(After(l, one), Attempts(n - 1, at));
  }

  // ----- the limit in force -----

  function Connects(es: seq<Event>): nat {
    if es == [] then 0 else Connects(es[..|es| - 1]) + (if es[|es| - 1].Connect? then 1 else 0)
  }

  ghost predicate SetsLimit(e: Event, n: int) {
    e.Policy? && e.pull == Number(n) && n > 0
  }

  ghost predicate NothingTakesEffect(es: seq<Event>, from: nat) {
    forall j :: from <= j < |es| && es[j].Policy? ==> !TakesEffect(es[j].pull)
  }

  /** The limit in force is that of the last policy that took effect; an explicit null, or no
      policy so far, means there is none. */
  lemma {:induction false} LimitMeaning(es: seq<Event>)
    ensures var limit := After(Initial(), es).limit;
      && limit >= 0
      && (limit > 0 <==> exists i, n :: 0 <= i < |es| && SetsLimit(es[i], n) && NothingTakesEffect(es, i + 1))
      && (forall i, n :: 0 <= i < |es| && SetsLimit(es[i], n) && NothingTakesEffect(es, i + 1) ==> limit == n)
  {
    if es != [] {
      var k, e := |es| - 1, es[|es| - 1];
      LimitMeaning(es[..k]);
      var limit := After(Initial(), es).limit;
      if limit > 0 {
        if e.Policy? && TakesEffect(e.pull) {
          assert SetsLimit(e, limit) && NothingTakesEffect(es, k + 1);
        } else {
          var i, n :| 0 <= i < k && SetsLimit(es[..k][i], n) && NothingTakesEffect(es[..k], i + 1);
          assert SetsLimit(es[i], n) && NothingTakesEffect(es, i + 1);
        }
      }
      forall i, n | 0 <= i < |es| && SetsLimit(es[i], n) && NothingTakesEffect(es, i + 1) ensures limit == n {
        if i < k {
          assert SetsLimit(es[..k][i], n);
          assert NothingTakesEffect(es[..k], i + 1) by {
            assert forall j :: i + 1 <= j < k ==> es[..k][j] == es[j];
          }
        }
      }
    }
  }

  /** Without a limit every attempt is admitted, until a policy sets one. */
  lemma {:induction false} UnlimitedAdmitsAll(l: Limiter, es: seq<Event>)
    requires l.limit <= 0 && forall i, n :: 0 <= i < |es| ==> !SetsLimit(es[i], n)
    ensures Admitted(l, es) == Connects(es) && After(l, es).limit <= 0
  {
    if es != [] {
      var k, e := |es| - 1, es[|es| - 1];
      assert forall i, n :: 0 <= i < k ==> !SetsLimit(es[..k][i], n);
      UnlimitedAdmitsAll(l, es[..k]);
      assert e.Policy? && e.pull.Number? ==> !SetsLimit(e, e.pull.n);
    }
  }

  /** So a freshly started server admits every connection, and so does one whose last policy in
      force was taken back. */
  lemma AdmittedWithoutLimit(before: seq<Event>, es: seq<Event>)
    requires forall i, n :: 0 <= i < |before| && SetsLimit(before[i], n) ==>
      exists j :: i < j < |before| && before[j].Policy? && before[j].pull.Null?
    requires forall i, n :: 0 <= i < |es| ==> !SetsLimit(es[i], n)
    ensures Admitted(After(Initial(), before), es) == Connects(es)
  {
    LimitMeaning(before);
    UnlimitedAdmitsAll(After(Initial(), before), es);
  }

  /** A policy hands out its number of connections at once, whatever was left before. */
  lemma AdmittedAfterPolicy(before: seq<Event>, n: int, at: int, es: seq<Event>)
    requires 0 < n && 0 < at && InMinute(es, at) && forall i :: 0 <= i < |es| ==> es[i].Connect?
    ensures Admitted(After(Initial(), before + [Policy(Number(n), at)]), es) == if |es| <= n then |es| else n
  {
    assert (before + [Policy(Number(n), at)])[..|before|] == before;
    AdmittedWithoutReset(Limiter(n, n, at), es);
  }

  // ----- the bound is attained, and when the advertised cap holds -----

  /** `pulls` policies applied, each followed by as many attempts as it allows. */
  function PullsAndAttempts(max: nat, pulls: nat, at: int): (es: seq<Event>)
    ensures forall i :: 0 <= i < |es| ==> es[i] == Policy(Number(max), at) || es[i] == Connect(at)
  {
    if pulls == 0 then []
    else PullsAndAttempts(max, pulls - 1, at) + [Policy(Number(max), at)] + Attempts(max, at)
  }

  lemma {:induction false} PolicyCounts(es: seq<Event>, n: nat, at: int)
    requires es == Attempts(n, at)
    ensures Applied(es) == 0
  {
    if n > 0 {
      assert es[..|es| - 1] == Attempts(n - 1, at);
      PolicyCounts(es[..|es| - 1], n - 1, at);
    }
  }

  /** One pull followed by as many attempts as it allows. */
  lemma PullAdmits(l: Limiter, max: nat, at: int)
    requires 0 < max && 0 < at
    ensures var es := [Policy(Number(max), at)] + Attempts(max, at);
      Admitted(l, es) == max && Applied(es) == 1 && After(l, es).limit == max
  {
    var p, b := [Policy(Number(max), at)], Attempts(max, at);
    RunsCompose(l, p, b);
    assert p[..0] == [];
    assert After(l, p) == Limiter(max, max, at) && Admitted(l, p) == 0 && Applied(p) == 1;
    AdmittedWithoutReset(Limiter(max, max, at), b);
    PolicyCounts(b, max, at);
  }

  lemma {:induction false} PullsAdmit(l: Limiter, max: nat, pulls: nat, at: int)
    requires 0 < max && 0 < at && l.limit == max
    ensures Admitted(l, PullsAndAttempts(max, pulls, at)) == max * pulls
    ensures Applied(PullsAndAttempts(max, pulls, at)) == pulls
  {
    if pulls > 0 {
      var a, b := PullsAndAttempts(max, pulls - 1, at), [Policy(Number(max), at)] + Attempts(max, at);
      assert PullsAndAttempts(max, pulls, at) == a + b;
      PullsAdmit(l, max, pulls - 1, at);
      RunsCompose(l, a, b);
      PullAdmits(After(l, a), max, at);
      assert max * pulls == max * (pulls - 1) + max;
    }
  }

  /** Left-over tokens are spent first, and a reset that comes due hands out the limit again. */
  lemma AcrossReset(l: Limiter, n: nat, t: int, later: int)
    requires 0 < l.limit && n == l.tokens && 0 < later
    requires !RefillDue(l, t) && RefillDue(l, later)
    ensures var es := Attempts(n, t) + Attempts(l.limit, later);
      Admitted(l, es) == n + l.limit && After(l, es) == Limiter(l.limit, 0, later) && Applied(es) == 0
  {
    var a, b := Attempts(n, t), Attempts(l.limit, later);
    AdmittedWithoutReset(l, a);
    AdmittedAfterDueReset(After(l, a), l.limit, later);
    RunsCompose(l, a, b);
    PolicyCounts(a, n, t);
    PolicyCounts(b, l.limit, later);
  }

  /** MinuteBound cannot be improved: for every limit and every number of policies there is a run
      of the server, and a minute in it, that admits exactly that many. In particular, with no
      pull at all twice the limit can be admitted within one minute. */
  lemma MinuteBoundIsAttained(max: nat, pulls: nat) returns (before: seq<Event>, es: seq<Event>, t: int)
    requires 0 < max
    ensures 0 < t && InMinute(es, t) && LimitsWithin(es, max) && Applied(es) == pulls
    ensures Timed(before + es, 1) && After(Initial(), before).limit == max
    ensures Admitted(After(Initial(), before), es) == max * (2 + pulls)
  {
    t := REFILL_WINDOW_MS;
    before := [Policy(Number(max), 1)];
    PolicyFirst(max);
    es := Attempts(max, t) + Attempts(max, t + 1) + PullsAndAttempts(max, pulls, t + 1);
    BusyTimes(max, pulls, t);
    BusyMinute(Limiter(max, max, 1), max, pulls, t);
  }

  lemma BusyTimes(max: nat, pulls: nat, t: int)
    ensures var es := Attempts(max, t) + Attempts(max, t + 1) + PullsAndAttempts(max, pulls, t + 1);
      InMinute(es, t) && LimitsWithin(es, max)
  {
    var ab, c := Attempts(max, t) + Attempts(max, t + 1), PullsAndAttempts(max, pulls, t + 1);
    assert forall i :: 0 <= i < |ab| ==> ab[i] == Connect(if i < max then t else t + 1);
    assert forall i :: |ab| <= i < |ab + c| ==> (ab + c)[i] == c[i - |ab|];
  }

  lemma PolicyFirst(max: nat)
    requires 0 < max
    ensures After(Initial(), [Policy(Number(max), 1)]) == Limiter(max, max, 1)
  {
    var before := [Policy(Number(max), 1)];
    assert before[..0] == [];
  }

  lemma BusyMinute(l: Limiter, max: nat, pulls: nat, t: int)
    requires 0 < max && l == Limiter(max, max, 1) && t == REFILL_WINDOW_MS
    ensures var es := Attempts(max, t) + Attempts(max, t + 1) + PullsAndAttempts(max, pulls, t + 1);
      Admitted(l, es) == max * (2 + pulls) && Applied(es) == pulls
  {
    var ab, c := Attempts(max, t) + Attempts(max, t + 1), PullsAndAttempts(max, pulls, t + 1);
    AcrossReset(l, max, t, t + 1);
    PullsAdmit(After(l, ab), max, pulls, t + 1);
    RunsCompose(l, ab, c);
    assert max * (2 + pulls) == max + max + max * pulls;
  }

  /** The limiter admits at most `limit` connections in the minute from t, whatever the traffic. */
  ghost predicate CapHolds(l: Limiter, t: int) {
    forall es :: InMinute(es, t) && Applied(es) == 0 ==> Admitted(l, es) <= l.limit
  }

  lemma {:induction false} NothingApplied(es: seq<Event>)
    requires Applied(es) == 0
    ensures forall i :: 0 <= i < |es| && es[i].Policy? ==> !TakesEffect(es[i].pull)
  {
    if es != [] {
      NothingApplied(es[..|es| - 1]);
      assert forall i :: 0 <= i < |es| - 1 ==> es[i] == es[..|es| - 1][i];
    }
  }

  /** The advertised per-minute cap, exactly: while no policy is applied it holds for the minute that
      starts at t if and only if no tokens are left, or a reset has just happened, or one is due
      at once. Otherwise tokens left over from before can be spent, and the reset that falls
      inside the minute hands out the limit again. */
  lemma CapHoldsExactly(l: Limiter, t: int)
    requires 0 < l.limit && l.tokens <= l.limit && 0 <= l.last <= t && 0 < t
    ensures CapHolds(l, t) <==> l.tokens <= 0 || l.last == t || l.last == 0 || t - l.last >= 60000
  {
    if l.tokens <= 0 || l.last == t || RefillDue(l, t) {
      forall es | InMinute(es, t) && Applied(es) == 0 ensures Admitted(l, es) <= l.limit {
        NothingApplied(es);
        CapInvariant(l, es, t);
      }
    } else {
      var es := Attempts(l.tokens, t) + Attempts(l.limit, l.last + REFILL_WINDOW_MS);
      AcrossReset(l, l.tokens, t, l.last + REFILL_WINDOW_MS);
      assert InMinute(es, t);
    }
  }

  lemma {:induction false} CapInvariant(l: Limiter, es: seq<Event>, t: int)
    requires 0 < l.limit && l.tokens <= l.limit && 0 <= l.last <= t && 0 < t
    requires l.tokens <= 0 || l.last == t || RefillDue(l, t)
    requires InMinute(es, t) && forall i :: 0 <= i < |es| && es[i].Policy? ==> !TakesEffect(es[i].pull)
    ensures var m := After(l, es);
      && m.limit == l.limit
      && (if m.last >= t then Admitted(l, es) + Positive(m.tokens) <= l.limit
          else Admitted(l, es) == 0 && m.last == l.last && (m.tokens <= 0 || m == l))
    ensures Admitted(l, es) <= l.limit
  {
    if es != [] {
      CapInvariant(l, es[..|es| - 1], t);
    }
  }
}
