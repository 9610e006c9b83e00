/** Receiving on one session: the drain loop with its two guards (packet size, packet rate),
    and what a whole run of receive completions hands to the packet handlers. */
module Receiver {
  import opened Bytes
  import opened Frames
  import opened TokenBucket

  /** What the guards are configured with. `clock(k)` is the time read by the k-th check of the
      run: one check is made for each frame that gets past the size guard. */
  datatype Guards = Guards(start: Bucket, maxPacketSize: int, clock: nat -> int)

  /** `open` is false once a guard has refused a frame. */
  datatype Conn = Conn(pending: seq<byte>, delivered: seq<Frame>, bucket: Bucket, open: bool)

  function Start(g: Guards): Conn {
    Conn([], [], g.start, true)
  }

  /** The drain loop of HandleRecv. */
  function Drain(c: Conn, g: Guards): Conn
    decreases |c.pending|
  {
    if !HasFrame(c.pending) then c
    else
      var n := DeclaredTotal(c.pending);
      if n > g.maxPacketSize then c.(open := false)
      else
        var v := Check(c.bucket, g.clock(|c.delivered|));
        if !v.ok then c.(open := false, bucket := v.bucket)
        else Drain(Deliver(c, v.bucket), g)
  }

  /** One turn of the loop. */
  lemma DrainUnfold(c: Conn, g: Guards)
    requires HasFrame(c.pending)
    ensures var n := DeclaredTotal(c.pending);
      var v := Check(c.bucket, g.clock(|c.delivered|));
      Drain(c, g) ==
        if n > g.maxPacketSize then c.(open := false)
        else if !v.ok then c.(open := false, bucket := v.bucket)
        else Drain(Deliver(c, v.bucket), g)
  {
  }

  function Deliver(c: Conn, bucket: Bucket): Conn
    requires HasFrame(c.pending)
  {
    var n := DeclaredTotal(c.pending);
    c.(pending := c.pending[n..], delivered := c.delivered + [c.pending[..n]], bucket := bucket)
  }

  /** One receive completion. After a refusal no receive is posted, so none completes. */
  function Receive(c: Conn, chunk: seq<byte>, g: Guards): Conn {
    if c.open then Drain(c.(pending := c.pending + chunk), g) else c
  }

  function ReceiveAll(chunks: seq<seq<byte>>, g: Guards): Conn {
    if chunks == [] then Start(g)
    else Receive(ReceiveAll(chunks[..|chunks| - 1], g), chunks[|chunks| - 1], g)
  }

  /** The connection after these chunks, which are the first `taken` bytes of the stream. */
  ghost predicate HasReceived(c: Conn, chunks: seq<seq<byte>>, stream: seq<byte>, taken: nat, g: Guards) {
    taken <= |stream| && Flatten(chunks) == stream[..taken] && c == ReceiveAll(chunks, g)
  }

  lemma ReceivesMore(c: Conn, chunks: seq<seq<byte>>, stream: seq<byte>, taken: nat, n: nat, g: Guards)
    requires HasReceived(c, chunks, stream, taken, g) && taken + n <= |stream|
    ensures var chunk := stream[taken..taken + n];
      HasReceived(Receive(c, chunk, g), chunks + [chunk], stream, taken + n, g)
  {
    var chunk := stream[taken..taken + n];
    assert (chunks + [chunk])[..|chunks|] == chunks;
    FlattenLast(chunks, chunk);
    assert stream[..taken] + chunk == stream[..taken + n];
  }

  // ----- the guards, frame by frame -----

  /** The limiter after its first n checks. */
  function BucketAt(g: Guards, n: nat): Bucket {
    if n == 0 then g.start else Check(BucketAt(g, n - 1), g.clock(n - 1)).bucket
  }

  /** Frame number i is let through, given that all frames before it were. */
  predicate Passes(f: Frame, i: nat, g: Guards) {
    |f| <= g.maxPacketSize && Check(BucketAt(g, i), g.clock(i)).ok
  }

  /** `got` is the longest prefix of `frames` in which every frame passes. */
  ghost predicate IsGuardedPrefix(got: seq<Frame>, frames: seq<Frame>, g: Guards) {
    && |got| <= |frames| && got == frames[..|got|]
    && (forall i :: 0 <= i < |got| ==> Passes(got[i], i, g))
    && (|got| < |frames| ==> !Passes(frames[|got|], |got|, g))
  }

  lemma GuardedPrefixIsUnique(a: seq<Frame>, b: seq<Frame>, frames: seq<Frame>, g: Guards)
    requires IsGuardedPrefix(a, frames, g) && IsGuardedPrefix(b, frames, g)
    ensures a == b
  {
    assert forall i :: 0 <= i < |b| ==> b[i] == frames[i];
    assert forall i :: 0 <= i < |a| ==> a[i] == frames[i];
  }

  // ----- what the drain loop keeps -----

  /** The connection accounts for every byte in `received`, and for every verdict so far. */
  ghost predicate Accounts(c: Conn, received: seq<byte>, g: Guards) {
    && received == Flatten(c.delivered) + c.pending
    && (forall i :: 0 <= i < |c.delivered| ==> IsFrame(c.delivered[i]) && Passes(c.delivered[i], i, g))
    && (c.open ==> c.bucket == BucketAt(g, |c.delivered|))
    && (!c.open ==> HasFrame(c.pending) && !Passes(c.pending[..DeclaredTotal(c.pending)], |c.delivered|, g))
  }

  lemma DeliverAccounts(c: Conn, received: seq<byte>, g: Guards)
    requires c.open && Accounts(c, received, g) && HasFrame(c.pending)
    requires Passes(c.pending[..DeclaredTotal(c.pending)], |c.delivered|, g)
    ensures Accounts(Deliver(c, BucketAt(g, |c.delivered| + 1)), received, g)
  {
    var n := DeclaredTotal(c.pending);
    var f := c.pending[..n];
    FlattenLast(c.delivered, f);
    assert c.pending == f + c.pending[n..];
    assert received == (Flatten(c.delivered) + f) + c.pending[n..];
  }

  lemma {:induction false} DrainAccounts(c: Conn, received: seq<byte>, g: Guards)
    requires c.open && Accounts(c, received, g)
    ensures Accounts(Drain(c, g), received, g)
    ensures Drain(c, g).open ==> !HasFrame(Drain(c, g).pending)
    decreases |c.pending|
  {
    if HasFrame(c.pending) {
      var n := DeclaredTotal(c.pending);
      var v := Check(c.bucket, g.clock(|c.delivered|));
      if n <= g.maxPacketSize && v.ok {
        DeliverAccounts(c, received, g);
        DrainAccounts(Deliver(c, v.bucket), received, g);
      }
    }
  }

  /** The connection says everything about the stream it has seen: what was delivered is the
      longest passing prefix of the frames, and what is pending is the rest. */
  lemma AccountsMeansPrefix(c: Conn, received: seq<byte>, g: Guards)
    requires Accounts(c, received, g) && (c.open ==> !HasFrame(c.pending))
    ensures IsGuardedPrefix(c.delivered, Parse(received).frames, g)
    ensures c.open <==> c.delivered == Parse(received).frames
    ensures c.open ==> c.pending == Parse(received).rest
  {
    if c.open {
      ParseIsTheOnlyFraming(c.delivered, c.pending, received);
    } else {
      FramingIsParse(c.delivered, []);
      assert Flatten(c.delivered) + [] == Flatten(c.delivered);
      ParseResumes(Flatten(c.delivered), c.pending);
      assert [] + c.pending == c.pending;
    }
  }

  // ----- whole runs -----

  /** Bytes that arrive after a refusal change nothing. */
  lemma RefusalIsFinal(got: seq<Frame>, received: seq<byte>, more: seq<byte>, g: Guards)
    requires IsGuardedPrefix(got, Parse(received).frames, g) && got != Parse(received).frames
    ensures IsGuardedPrefix(got, Parse(received + more).frames, g) && got != Parse(received + more).frames
  {
    ParseResumes(received, more);
    var fs, all := Parse(received).frames, Parse(received + more).frames;
    assert fs[..|fs|] == fs;
    assert all[|got|] == fs[|got|] && all[..|got|] == fs[..|got|];
  }

  /** What the connection and the bytes received so far have to do with each other. */
  ghost predicate Explains(c: Conn, received: seq<byte>, g: Guards) {
    && IsGuardedPrefix(c.delivered, Parse(received).frames, g)
    && (c.open <==> c.delivered == Parse(received).frames)
    && (c.open ==> c.pending == Parse(received).rest && Accounts(c, received, g))
  }

  lemma ReceiveExplains(c: Conn, received: seq<byte>, chunk: seq<byte>, g: Guards)
    requires Explains(c, received, g)
    ensures Explains(Receive(c, chunk, g), received + chunk, g)
  {
    if c.open {
      var d := c.(pending := c.pending + chunk);
      assert received + chunk == Flatten(d.delivered) + d.pending;
      DrainAccounts(d, received + chunk, g);
      AccountsMeansPrefix(Drain(d, g), received + chunk, g);
    } else {
      RefusalIsFinal(c.delivered, received, chunk, g);
    }
  }

  lemma {:induction false} RunAccounts(chunks: seq<seq<byte>>, g: Guards)
    ensures Explains(ReceiveAll(chunks, g), Flatten(chunks), g)
  {
    if chunks == [] {
      ParseIsFraming([]);
    } else {
      var before, chunk := chunks[..|chunks| - 1], chunks[|chunks| - 1];
      RunAccounts(before, g);
      ReceiveExplains(ReceiveAll(before, g), Flatten(before), chunk, g);
      assert chunks == before + [chunk];
      FlattenLast(before, chunk);
    }
  }

  /** Over any run, the packets handed to the handlers are exactly the longest prefix of the
      frames of the whole stream in which the size guard and the limiter passed each one; while
      nothing was refused they are all the frames, and no byte is lost or invented. */
  lemma GuardedDelivery(chunks: seq<seq<byte>>, g: Guards)
    ensures var c := ReceiveAll(chunks, g); var all := Flatten(chunks);
      && IsGuardedPrefix(c.delivered, Parse(all).frames, g)
      && (c.open <==> c.delivered == Parse(all).frames)
      && (c.open ==> all == Flatten(c.delivered) + c.pending && c.pending == Parse(all).rest)
  {
    RunAccounts(chunks, g);
  }

  /** How the stream was cut into receive completions makes no difference. */
  lemma ChunkingIndependence(a: seq<seq<byte>>, b: seq<seq<byte>>, g: Guards)
    requires Flatten(a) == Flatten(b)
    ensures ReceiveAll(a, g).delivered == ReceiveAll(b, g).delivered
    ensures ReceiveAll(a, g).open == ReceiveAll(b, g).open
    ensures ReceiveAll(a, g).open ==> ReceiveAll(a, g) == ReceiveAll(b, g)
  {
    RunAccounts(a, g);
    RunAccounts(b, g);
    GuardedPrefixIsUnique(ReceiveAll(a, g).delivered, ReceiveAll(b, g).delivered, Parse(Flatten(a)).frames, g);
  }

  /** When no guard has cause to fire, exactly the frames of the stream are delivered. */
  lemma UnguardedDelivery(chunks: seq<seq<byte>>, g: Guards)
    requires forall i :: 0 <= i < |Parse(Flatten(chunks)).frames| ==> Passes(Parse(Flatten(chunks)).frames[i], i, g)
    ensures var c := ReceiveAll(chunks, g);
      c.open && Parse(Flatten(chunks)) == Parsed(c.delivered, c.pending)
  {
    RunAccounts(chunks, g);
  }
}
