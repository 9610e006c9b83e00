/** The object pool itself: a queue of recycled objects, here the I/O contexts of sends. */
module ObjectPools {
  import opened Bytes
  import opened Collections

  datatype IOType = RecvIO | SendIO | AcceptIO

  /** Where the bytes to be sent lie: in the context's own buffer, or in the shared one. */
  datatype WsaBuf = Unset | Own(len: nat) | Shared

  class IOContext {
    ghost const id: nat                  // its place in the order of construction
    var ioType: IOType
    var session: nat
    var wsaBuf: WsaBuf
    var acceptSocket: Option<nat>
    var sharedBuffer: Option<seq<byte>>
    const buffer: array<byte>

    constructor (ghost id: nat, ioType: IOType, session: nat)
      ensures this.id == id && Recycled(ioType, session) && fresh(buffer) && buffer.Length == MAX_BUF_SIZE
    {
      this.id, this.ioType, this.session := id, ioType, session;
      wsaBuf, acceptSocket, sharedBuffer := Unset, None, None;
      buffer := new byte[MAX_BUF_SIZE](_ => 0);
    }

    /** As good as new, but for the contents of its own buffer. */
    ghost predicate Recycled(ioType: IOType, session: nat)
      reads this
    {
      this.ioType == ioType && this.session == session && wsaBuf == Unset && acceptSocket == None && sharedBuffer == None
    }

    /** What a send takes from the context. */
    ghost function Message(): seq<byte>
      reads this, buffer
    {
      match wsaBuf
      case Unset => []
      case Own(len) => if len <= buffer.Length then buffer[..len] else []
      case Shared => if sharedBuffer.Some? then sharedBuffer.value else []
    }

    method Share(packet: seq<byte>)
      modifies `sharedBuffer, `wsaBuf
      ensures Message() == packet
    {
      sharedBuffer, wsaBuf := Some(packet), Shared;
    }

    /** Recycling replaces type and owner and lets go of the shared buffer and the accept socket;
        the own buffer keeps its old contents. */
    method Reset(ioType: IOType, session: nat)
      modifies this
      ensures Recycled(ioType, session)
    {
      this.ioType, this.session := ioType, session;
      wsaBuf, acceptSocket, sharedBuffer := Unset, None, None;
    }
  }

  class ObjectPool {
    var pool: seq<IOContext>
    ghost var out: set<IOContext>        // handed out and not yet returned
    ghost var all: seq<IOContext>        // every context ever made, in order
    ghost var owner: map<array<byte>, nat>   // whose buffer is whose

    /** Every context made is in the pool once, or out; no two share a buffer. */
    ghost predicate Valid()
      reads this
    {
      && (forall i :: 0 <= i < |all| ==> all[i].id == i && all[i].buffer.Length == MAX_BUF_SIZE)
      && (forall i :: 0 <= i < |all| ==> all[i].buffer in owner && owner[all[i].buffer] == i)
      && (forall i, j :: 0 <= i < j < |pool| ==> pool[i] != pool[j])
      && (forall c :: c in pool ==> c in all)
      && (forall c :: c in out ==> c in all)
      && (forall c :: c in all ==> (c in pool <==> c !in out))
    }

    constructor ()
      ensures Valid() && pool == [] && out == {} && all == []
    {
      pool, out, all, owner := [], {}, [], map[];
    }

    method Allocate(ioType: IOType, session: nat) returns (c: IOContext)
      requires Valid()
      modifies this, if pool == [] then {} else {pool[0]}
      ensures Valid()
      ensures c !in old(out) && out == old(out) + {c} && c.Recycled(ioType, session)
      ensures if old(pool) == [] then fresh(c) && fresh(c.buffer) && pool == [] && all == old(all) + [c]
              else c == old(pool)[0] && pool == old(pool)[1..] && all == old(all)
    {
      if |pool| == 0 {
        c := new IOContext(|all|, ioType, session);
        owner := owner[c.buffer := |all|];
        all := all + [c];
      } else {
        c := pool[0];
        pool := pool[1..];
        c.Reset(ioType, session);
      }
      out := out + {c};
    }

    /** Null is ignored; otherwise callers return only what they were handed, once. */
    method Deallocate(c: IOContext?)
      requires Valid() && (c != null ==> c in out)
      modifies this
      ensures Valid() && all == old(all)
      ensures if c == null then pool == old(pool) && out == old(out)
              else pool == old(pool) + [c] && out == old(out) - {c}
    {
      if c == null {
        return;
      }
      pool := pool + [c];
      out := out - {c};
    }
  }
}
