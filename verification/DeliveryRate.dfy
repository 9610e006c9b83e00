/** The receive loop and the limiter together: what a client can get through, and what a
    considerate client never loses. */
module DeliveryRate {
  import opened Bytes
  import opened Frames
  import opened TokenBucket
  import opened Receiver

  /** The times of the first n checks. */
  function CheckTimes(g: Guards, n: nat): (ts: seq<int>)
    ensures |ts| == n && forall i :: 0 <= i < n ==> ts[i] == g.clock(i)
  {
    if n == 0 then [] else CheckTimes(g, n - 1) + [g.clock(n - 1)]
  }

  lemma {:induction false} BucketAtIsAfter(g: Guards, n: nat)
    ensures BucketAt(g, n) == After(g.start, CheckTimes(g, n))
  {
    if n > 0 {
      BucketAtIsAfter(g, n - 1);
      AfterOneMore(g.start, CheckTimes(g, n - 1), g.clock(n - 1));
    }
  }

  lemma {:induction false} AllAccepted(g: Guards, n: nat)
    requires forall i :: 0 <= i < n ==> Check(BucketAt(g, i), g.clock(i)).ok
    ensures AcceptedTimes(g.start, CheckTimes(g, n)) == CheckTimes(g, n)
  {
    if n > 0 {
      AllAccepted(g, n - 1);
      BucketAtIsAfter(g, n - 1);
      assert Check(After(g.start, CheckTimes(g, n - 1)), g.clock(n - 1)).ok;
      AfterOneMore(g.start, CheckTimes(g, n - 1), g.clock(n - 1));
    }
  }

  ghost predicate ClockRuns(g: Guards, t0: int) {
    t0 <= g.clock(0) && forall i: nat, j: nat :: i <= j ==> g.clock(i) <= g.clock(j)
  }

  lemma TimesAreOrdered(g: Guards, n: nat, t0: int)
    requires ClockRuns(g, t0)
    ensures Nondecreasing([t0] + CheckTimes(g, n))
  {
    var ts := CheckTimes(g, n);
    forall i, j | 0 <= i < j < |[t0] + ts| ensures ([t0] + ts)[i] <= ([t0] + ts)[j] {
      assert g.clock(0) <= g.clock(j - 1);
      if i > 0 {
        assert g.clock(i - 1) <= g.clock(j - 1);
      }
    }
  }

  lemma AcceptedAreBounded(rate: int, t0: int, ts: seq<int>, i: nat, j: nat, ms: int)
    requires Nondecreasing([t0] + ts) && AcceptedTimes(Init(rate, t0), ts) == ts
    requires i <= j < |ts| && ms == ts[j] - ts[i]
    ensures WithinBurstAndRate(rate, j - i + 1, ms)
  {
    WindowBound(rate, t0, ts, i, j, ms);
  }

  lemma DeliveredWereAccepted(chunks: seq<seq<byte>>, g: Guards)
    ensures forall k :: 0 <= k < |ReceiveAll(chunks, g).delivered| ==> Check(BucketAt(g, k), g.clock(k)).ok
  {
    var got := ReceiveAll(chunks, g).delivered;
    RunAccounts(chunks, g);
    forall k | 0 <= k < |got| ensures Check(BucketAt(g, k), g.clock(k)).ok {
      assert Passes(got[k], k, g);
    }
  }

  /** Every packet delivered was delivered at the time of an accepted check. */
  lemma DeliveryTimes(chunks: seq<seq<byte>>, g: Guards, rate: int, t0: int) returns (ts: seq<int>)
    requires g.start == Init(rate, t0) && ClockRuns(g, t0)
    ensures |ts| == |ReceiveAll(chunks, g).delivered| && forall k :: 0 <= k < |ts| ==> ts[k] == g.clock(k)
    ensures Nondecreasing([t0] + ts) && AcceptedTimes(Init(rate, t0), ts) == ts
  {
    var n := |ReceiveAll(chunks, g).delivered|;
    ts := CheckTimes(g, n);
    DeliveredWereAccepted(chunks, g);
    AllAccepted(g, n);
    TimesAreOrdered(g, n, t0);
  }

  /** However the stream arrives, in any stretch of packets handed to the handlers there are at
      most burst + 1 packets, and `rate` more for each second the stretch lasts. */
  lemma DeliveredPacketsAreBounded(chunks: seq<seq<byte>>, g: Guards, rate: int, t0: int, i: nat, j: nat)
    requires g.start == Init(rate, t0) && ClockRuns(g, t0)
    requires i <= j < |ReceiveAll(chunks, g).delivered|
    ensures WithinBurstAndRate(rate, j - i + 1, g.clock(j) - g.clock(i))
  {
    var ts := DeliveryTimes(chunks, g, rate, t0);
    AcceptedAreBounded(rate, t0, ts, i, j, g.clock(j) - g.clock(i));
  }

  lemma SteadyCheckPasses(g: Guards, rate: int, t0: int, gap: int, i: nat)
    requires g.start == Init(rate, t0) && 1 <= rate && 1000 <= gap * rate
    requires t0 <= g.clock(0) && forall k: nat :: gap <= g.clock(k + 1) - g.clock(k)
    ensures Check(BucketAt(g, i), g.clock(i)).ok
  {
    var ts := CheckTimes(g, i + 1);
    forall k | 0 < k < |ts| ensures gap <= ts[k] - ts[k - 1] {
      assert gap <= g.clock((k - 1) + 1) - g.clock(k - 1);
    }
    SteadyClientIsNeverRefused(rate, t0, ts, gap, i);
    BucketAtIsAfter(g, i);
    assert ts[..i] == CheckTimes(g, i);
  }

  /** A client whose packets are within the size limit, and are looked at with time for one whole
      token between them, has every one of them delivered and is never disconnected. */
  lemma SteadyClientLosesNothing(chunks: seq<seq<byte>>, g: Guards, rate: int, t0: int, gap: int)
    requires g.start == Init(rate, t0) && 1 <= rate && 1000 <= gap * rate
    requires t0 <= g.clock(0) && forall k: nat :: gap <= g.clock(k + 1) - g.clock(k)
    requires forall f :: f in Parse(Flatten(chunks)).frames ==> |f| <= g.maxPacketSize
    ensures var c := ReceiveAll(chunks, g);
      c.open && Parse(Flatten(chunks)) == Parsed(c.delivered, c.pending)
  {
    var fs := Parse(Flatten(chunks)).frames;
    forall i | 0 <= i < |fs| ensures Passes(fs[i], i, g) {
      SteadyCheckPasses(g, rate, t0, gap, i);
      assert fs[i] in fs;
    }
    UnguardedDelivery(chunks, g);
  }
}
