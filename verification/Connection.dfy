/** The session object of the receive path: HandleRecv, PostRecv and HandleDisconnect over the
    receive buffer and the rate limiter, in place. */
module Connections {
  import opened Bytes
  import opened Frames
  import opened TokenBucket
  import opened RecvBuffers
  import opened Receiver

  class Connection {
    const buffer: RecvBuffer
    const limiter: RateLimiter
    var delivered: seq<Frame>     // what the packet handlers were called with, in order
    var refused: bool             // a guard fired
    var disconnected: bool
    var posted: bool              // a receive is outstanding
    var offset: int               // where its bytes will be put
    var offered: int              // how many it may bring

    ghost predicate Valid()
      reads this, buffer
    {
      && buffer.Valid()
      && (refused ==> disconnected)
      && (posted ==> !refused && offset == buffer.head && offered == buffer.capacity - buffer.head)
      && (posted && offered == 0 ==> buffer.head - buffer.tail == buffer.capacity)
    }

    ghost function View(): Conn
      requires Valid()
      reads this, buffer, buffer.data, limiter
    {
      Conn(buffer.Pending(), delivered, limiter.State(), !refused)
    }

    constructor (capacity: nat, rate: int, now: int)
      ensures Valid() && fresh(buffer) && fresh(buffer.data) && fresh(limiter)
      ensures View() == Conn([], [], Init(rate, now), true)
      ensures posted && buffer.capacity == capacity && offered == capacity
    {
      var b := new RecvBuffer(capacity);
      var l := new RateLimiter();
      l.InitRateLimit(rate, now);
      buffer, limiter := b, l;
      delivered, refused, disconnected := [], false, false;
      posted, offset, offered := true, 0, capacity;
    }

    /** A completion of the outstanding receive: the kernel has put `chunk`, at most as much as
        was offered, where it was told to, or the receive has failed. An empty completion means
        the peer is gone. `fails` is the answer of the next WSARecv, if there is one. */
    method CompleteReceive(success: bool, chunk: seq<byte>, fails: bool, g: Guards)
      requires Valid() && posted && |chunk| <= offered
      modifies this, buffer, buffer.data, limiter
      ensures Valid()
      ensures View() == if success && chunk != [] then Receive(old(View()), chunk, g) else old(View())
      ensures posted <==> !disconnected
      ensures old(disconnected) || !success || chunk == [] || fails ==> disconnected
      ensures posted && offered == 0 && HEADER_SIZE <= buffer.capacity ==> buffer.capacity < DeclaredTotal(View().pending)
    {
      posted := false;
      if !success || |chunk| == 0 {
        disconnected := true;
        return;
      }
      buffer.Fill(chunk);
      HandleRecv(|chunk|, fails, g, chunk);
    }

    method HandleRecv(bytesTransferred: nat, fails: bool, g: Guards, ghost chunk: seq<byte>)
      requires Valid() && !posted && !refused && buffer.head + bytesTransferred <= buffer.capacity
      requires buffer.data[buffer.head..buffer.head + bytesTransferred] == chunk
      modifies this, buffer, buffer.data, limiter
      ensures Valid()
      ensures View() == Receive(old(View()), chunk, g)
      ensures posted <==> !disconnected
      ensures old(disconnected) || fails ==> disconnected
      ensures posted ==> !HasFrame(View().pending)
    {
      ghost var c := View();
      buffer.Write(bytesTransferred);
      assert View() == c.(pending := c.pending + chunk);
      DrainBuffer(g);
      if !refused {
        PostRecv(fails);
      }
    }

    /** The drain loop: ends with no whole frame left, or with a refusal. */
    method DrainBuffer(g: Guards)
      requires Valid() && !posted && !refused
      modifies this, buffer, limiter
      ensures Valid() && !posted && (old(disconnected) ==> disconnected)
      ensures View() == Drain(old(View()), g)
      ensures !refused ==> !HasFrame(View().pending)
    {
      var found, at, size := buffer.TryGetPacket();
      while found && !refused
        invariant Valid() && !posted && (old(disconnected) ==> disconnected)
        invariant !refused ==> (found <==> HasFrame(buffer.Pending()))
        invariant !refused && found ==> size == DeclaredTotal(buffer.Pending()) && at == buffer.tail
        invariant Drain(old(View()), g) == if refused then View() else Drain(View(), g)
        decreases !refused, |buffer.Pending()|
      {
        DrainUnfold(View(), g);
        GuardAndDeliver(at, size, g);
        if !refused {
          found, at, size := buffer.TryGetPacket();
        }
      }
    }

    /** The body of the drain loop: size guard, rate guard, handler, Pop. */
    method GuardAndDeliver(at: int, size: int, g: Guards)
      requires Valid() && !posted && !refused && HasFrame(buffer.Pending())
      requires size == DeclaredTotal(buffer.Pending()) && at == buffer.tail
      modifies this, buffer, limiter
      ensures Valid() && !posted && (old(disconnected) ==> disconnected)
      ensures var c := old(View()); var v := Check(c.bucket, g.clock(|c.delivered|));
        View() ==
          if size > g.maxPacketSize then c.(open := false)
          else if !v.ok then c.(open := false, bucket := v.bucket)
          else Deliver(c, v.bucket)
    {
      if size > g.maxPacketSize {
        refused, disconnected := true, true;
        return;
      }
      var ok := limiter.CheckRateLimit(g.clock(|delivered|));
      if !ok {
        refused, disconnected := true, true;
        return;
      }
      assert buffer.data[at..at + size] == buffer.Pending()[..size];
      HandlePacket(at, size);
      buffer.Pop(size);
    }

    /** Hands the frame to its handler. A handler that answers may find the socket broken, and
        then it is the handler that ends the session; the drain loop does not look. */
    method HandlePacket(at: int, size: int)
      requires 0 <= at <= at + size <= buffer.data.Length
      modifies `delivered, `disconnected
      ensures delivered == old(delivered) + [buffer.data[at..at + size]]
      ensures old(disconnected) ==> disconnected
    {
      delivered := delivered + [buffer.data[at..at + size]];
      if * {
        disconnected := true;
      }
    }

    /** Posts the next receive; one that WSARecv refuses at once ends the session. */
    method PostRecv(fails: bool)
      requires Valid() && !posted && !refused
      modifies this, buffer, buffer.data
      ensures Valid() && View() == old(View())
      ensures disconnected <==> old(disconnected) || fails
      ensures posted <==> !disconnected
    {
      if disconnected {
        return;
      }
      offset := buffer.GetWriteBufferPtr();
      offered := buffer.GetWriteBufferSize();
      if fails {
        disconnected := true;
        return;
      }
      posted := true;
    }

    /** One receive: it brings as much of what is left of the peer's stream as the network
        chooses. At any time the network may fail, the peer may be gone, or another thread may
        disconnect the session; then it brings nothing. */
    method ServeNext(stream: seq<byte>, taken: nat, g: Guards) returns (n: nat)
      requires Valid() && posted && taken <= |stream|
      modifies this, buffer, buffer.data, limiter
      ensures Valid() && taken + n <= |stream| && (posted ==> 0 < n) && (posted <==> !disconnected)
      ensures View() == if n > 0 then Receive(old(View()), stream[taken..taken + n], g) else old(View())
    {
      if * {
        disconnected := true;
      }
      var success, fails, size: int := *, *, *;
      n := if success && 0 < size <= offered && taken + size <= |stream| then size else 0;
      CompleteReceive(success, stream[taken..taken + n], fails, g);
    }

    /** Receives complete one after the other until none is outstanding. */
    method ReceiveWhilePosted(stream: seq<byte>, g: Guards) returns (chunks: seq<seq<byte>>)
      requires Valid() && posted && View() == Start(g)
      modifies this, buffer, buffer.data, limiter
      ensures Valid() && disconnected && !posted
      ensures Flatten(chunks) <= stream && View() == ReceiveAll(chunks, g)
    {
      chunks := [];
      var taken := 0;
      while posted
        invariant Valid() && (!posted ==> disconnected)
        invariant HasReceived(View(), chunks, stream, taken, g)
        decreases |stream| - taken, posted
      {
        ghost var c := View();
        var n := ServeNext(stream, taken, g);
        if n > 0 {
          ReceivesMore(c, chunks, stream, taken, n, g);
          chunks, taken := chunks + [stream[taken..taken + n]], taken + n;
        }
      }
    }

    /** The life of a session, whatever the network does: what the handlers were called with are
        the frames of the bytes that arrived, up to the first one that a guard refused. */
    method Serve(stream: seq<byte>, g: Guards) returns (chunks: seq<seq<byte>>)
      requires Valid() && posted && View() == Start(g)
      modifies this, buffer, buffer.data, limiter
      ensures Valid() && disconnected && !posted
      ensures Flatten(chunks) <= stream && View() == ReceiveAll(chunks, g)
      ensures IsGuardedPrefix(delivered, Parse(Flatten(chunks)).frames, g)
      ensures !refused ==> delivered == Parse(Flatten(chunks)).frames
    {
      chunks := ReceiveWhilePosted(stream, g);
      GuardedDelivery(chunks, g);
    }
  }
}
