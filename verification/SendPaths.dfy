/** Sending in place: the sessions' send functions and the completion of sends, on the pooled
    contexts themselves. Every method is one or two steps of SendContexts. */
module SendPaths {
  import opened Bytes
  import opened Collections
  import opened Frames
  import opened ObjectPools
  import opened RoomListWire
  import opened SendContexts

  ghost function Ids(cs: seq<IOContext>): (ids: seq<ContextId>)
    ensures |ids| == |cs| && forall i :: 0 <= i < |cs| ==> ids[i] == cs[i].id
  {
    seq(|cs|, i requires 0 <= i < |cs| => cs[i].id)
  }

  ghost function MemoryOf(c: IOContext): Memory
    reads c, c.buffer
  {
    Memory(c.session, c.Message())
  }

  /** What lies in the contexts' memory. */
  ghost function MemoryOfAll(cs: seq<IOContext>): map<ContextId, Memory>
    reads cs, set c | c in cs :: c.buffer
  {
    map id: ContextId | id < |cs| :: MemoryOf(cs[id])
  }

  ghost function Stages(cs: seq<IOContext>, out: set<IOContext>, flying: set<IOContext>): map<ContextId, Stage> {
    map id: ContextId | id < |cs| && cs[id] in out :: if cs[id] in flying then InFlight else Held
  }

  /** `c` is one of the contexts known before, or a new one that comes after them. */
  ghost predicate Next(was: seq<IOContext>, cs: seq<IOContext>, c: IOContext) {
    && (cs == was || cs == was + [c]) && (forall i :: 0 <= i < |cs| ==> cs[i].id == i)
    && c.id < |cs| && cs[c.id] == c
  }

  lemma StagesTaken(was: seq<IOContext>, cs: seq<IOContext>, out: set<IOContext>, flying: set<IOContext>, c: IOContext)
    requires Next(was, cs, c) && c !in flying
    ensures Stages(cs, out + {c}, flying) == Stages(was, out, flying)[c.id := Held]
  {
  }

  lemma StagesReturned(cs: seq<IOContext>, out: set<IOContext>, flying: set<IOContext>, c: IOContext)
    requires (forall i :: 0 <= i < |cs| ==> cs[i].id == i) && c in cs
    ensures Stages(cs, out - {c}, flying - {c}) == Stages(cs, out, flying) - {c.id}
  {
  }

  lemma StagesPosted(cs: seq<IOContext>, out: set<IOContext>, flying: set<IOContext>, c: IOContext)
    requires (forall i :: 0 <= i < |cs| ==> cs[i].id == i) && c in cs && c in out
    ensures Stages(cs, out, flying + {c}) == Stages(cs, out, flying)[c.id := InFlight]
  {
  }

  lemma IdsSnoc(cs: seq<IOContext>, c: IOContext)
    ensures Ids(cs + [c]) == Ids(cs) + [c.id]
  {
  }

  twostate lemma OthersKept(was: seq<IOContext>, new cs: seq<IOContext>, new c: IOContext)
    requires Next(was, cs, c) && forall d :: d in was && d != c ==> unchanged(d) && unchanged(d.buffer)
    ensures MemoryOfAll(cs) == old(MemoryOfAll(was))[c.id := MemoryOf(c)]
  {
    assert cs != was ==> cs[|was|] == c;
    forall id: ContextId | id < |cs| && id != c.id ensures id < |was| && MemoryOf(cs[id]) == old(MemoryOf(was[id])) {
      assert was[id] in was;
    }
  }

  class SendPath {
    const pool: ObjectPool
    var closed: set<SessionId>
    ghost var flying: set<IOContext>     // posted, and not completed
    ghost var log: seq<Entry>

    ghost predicate Valid()
      reads this, pool
    {
      pool.Valid() && flying <= pool.out
    }

    ghost function View(): State
      reads this, pool, pool.all, set c | c in pool.all :: c.buffer
    {
      State(|pool.all|, Ids(pool.pool), Stages(pool.all, pool.out, flying), MemoryOfAll(pool.all), closed, log)
    }

    constructor ()
      ensures Valid() && View() == Initial() && fresh(pool)
    {
      pool := new ObjectPool();
      closed, flying, log := {}, {}, [];
    }

    lemma Known(c: IOContext)
      requires Valid() && c in pool.out
      ensures c.id in View().busy && View().busy[c.id] == (if c in flying then InFlight else Held)
      ensures c.id in View().memory && View().memory[c.id] == MemoryOf(c)
    {
      assert c in pool.all;
    }

    method ReturnContext(c: IOContext)
      requires Valid() && c in pool.out
      modifies pool, `flying, `log
      ensures Valid() && View() == SendContexts.Deallocate(old(View()), c.id)
    {
      StagesReturned(pool.all, pool.out, flying, c);
      IdsSnoc(pool.pool, c);
      pool.Deallocate(c);
      flying, log := flying - {c}, log + [Returned(c.id)];
    }

    /** Takes a context off the pool, or has one made; no other context is touched. */
    method TakeContext(session: SessionId) returns (c: IOContext)
      requires Valid()
      modifies pool, if pool.pool == [] then {} else {pool.pool[0]}
      ensures Valid() && pool.out == old(pool.out) + {c} && c !in flying && c.Recycled(SendIO, session)
      ensures Next(old(pool.all), pool.all, c) && (if old(pool.pool) == [] then fresh(c) && fresh(c.buffer) else c == old(pool.pool[0]))
      ensures var v := old(View());
        if v.free == [] then |pool.all| == v.created + 1 && pool.pool == [] && c.id == v.created
        else |pool.all| == v.created && Ids(pool.pool) == v.free[1..] && c.id == v.free[0]
    {
      c := pool.Allocate(SendIO, session);
      assert c in pool.all;
    }

    /** Takes a context and has it refer to the packet that all receivers share. */
    method BeginShared(session: SessionId, packet: seq<byte>) returns (c: IOContext)
      requires Valid()
      modifies this, pool, if pool.pool == [] then {} else {pool.pool[0]}
      ensures Valid() && View() == SendContexts.Allocate(old(View()), session, packet)
      ensures c in pool.out && c !in flying && c.session == session
    {
      c := TakeContext(session);
      c.Share(packet);
      log := log + [Allocated(c.id, session, packet)];
      StagesTaken(old(pool.all), pool.all, old(pool.out), flying, c);
      OthersKept(old(pool.all), pool.all, c);
    }

    /** Takes a context and fills its own buffer with header and payload. */
    method BeginRaw(session: SessionId, packetId: int, data: seq<byte>) returns (c: IOContext)
      requires Valid() && RawFrame(packetId, data).Some?
      modifies this, pool, if pool.pool == [] then {} else {pool.pool[0], pool.pool[0].buffer}
      ensures Valid() && View() == SendContexts.Allocate(old(View()), session, RawFrame(packetId, data).value)
      ensures c in pool.out && c !in flying && c.session == session
    {
      c := TakeContext(session);
      FillFrame(c.buffer, packetId, data);
      c.wsaBuf := Own(HEADER_SIZE + |data|);
      log := log + [Allocated(c.id, session, c.Message())];
      StagesTaken(old(pool.all), pool.all, old(pool.out), flying, c);
      OthersKept(old(pool.all), pool.all, c);
    }

    method PostSend(c: IOContext, fails: bool)
      requires Valid() && c in pool.out && c !in flying
      modifies this, pool
      ensures Valid() && View() == Step(old(View()), Post(c.id, fails))
    {
      Known(c);
      if c.session in closed {
        ReturnContext(c);
        return;
      }
      if fails {
        closed := closed + {c.session};
        assert View() == old(View()).(closed := closed);
        ReturnContext(c);
      } else {
        StagesPosted(pool.all, pool.out, flying, c);
        flying := flying + {c};
      }
    }

    /** A send is two steps of the model: the context is taken and filled, then posted. A session
        that is disconnected, or a message that does not fit, takes no context. */
    method SendRaw(session: SessionId, packetId: int, data: seq<byte>, fails: bool) returns (sent: bool, ghost id: ContextId)
      requires Valid()
      modifies this, pool, if pool.pool == [] then {} else {pool.pool[0], pool.pool[0].buffer}
      ensures Valid() && (sent <==> session !in old(closed) && RawFrame(packetId, data).Some?)
      ensures if !sent then View() == old(View())
              else var f := RawFrame(packetId, data).value;
                View() == Step(Step(old(View()), Begin(session, f, false)), Post(id, fails))
    {
      id := 0;
      sent := session !in closed && HEADER_SIZE + |data| <= MAX_BUF_SIZE;
      if sent {
        var c := BeginRaw(session, packetId, data);
        id := c.id;
        PostSend(c, fails);
      }
    }

    method SendShared(session: SessionId, packet: seq<byte>, fails: bool) returns (sent: bool, ghost id: ContextId)
      requires Valid()
      modifies this, pool, if pool.pool == [] then {} else {pool.pool[0]}
      ensures Valid() && (sent <==> session !in old(closed))
      ensures if !sent then View() == old(View())
              else View() == Step(Step(old(View()), Begin(session, packet, true)), Post(id, fails))
    {
      id := 0;
      sent := session !in closed;
      if sent {
        var c := BeginShared(session, packet);
        id := c.id;
        PostSend(c, fails);
      }
    }

    /** The completion of a send is dequeued; one that failed ends the session. */
    method CompleteSend(c: IOContext, success: bool)
      requires Valid() && c in flying
      modifies this, pool
      ensures Valid() && View() == Step(old(View()), Complete(c.id, success))
    {
      Known(c);
      if success {
        log := log + [Taken(c.id, c.session, c.Message())];
        assert View() == old(View()).(log := log);
      } else {
        closed := closed + {c.session};
        assert View() == old(View()).(closed := closed);
      }
      ReturnContext(c);
    }

    method Disconnect(session: SessionId)
      modifies `closed
      ensures View() == Step(old(View()), Close(session))
    {
      closed := closed + {session};
    }
  }

  method FillFrame(buffer: array<byte>, packetId: int, data: seq<byte>)
    requires buffer.Length == MAX_BUF_SIZE && RawFrame(packetId, data).Some?
    modifies buffer
    ensures buffer[..HEADER_SIZE + |data|] == RawFrame(packetId, data).value
  {
    var size, id := U16Bytes(|data|), U16Bytes(packetId);
    buffer[0], buffer[1], buffer[2], buffer[3] := size[0], size[1], id[0], id[1];
    for i := 0 to |data|
      invariant buffer[..HEADER_SIZE] == size + id
      invariant buffer[HEADER_SIZE..HEADER_SIZE + i] == data[..i]
    {
      buffer[HEADER_SIZE + i] := data[i];
    }
    assert buffer[..HEADER_SIZE + |data|] == buffer[..HEADER_SIZE] + buffer[HEADER_SIZE..HEADER_SIZE + |data|];
  }
}
