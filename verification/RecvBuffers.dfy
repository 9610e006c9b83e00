/** The receive buffer of a session: a fixed array with a write cursor `head` and a read
    cursor `tail`, compacted in place when the write cursor reaches the end. */
module RecvBuffers {
  import opened Bytes
  import opened Frames

  class RecvBuffer {
    const capacity: nat
    const data: array<byte>
    var head: int
    var tail: int

    ghost predicate Valid()
      reads this
    {
      data.Length == capacity && 0 <= tail <= head <= capacity
    }

    /** The received bytes that have not been consumed yet. */
    ghost function Pending(): seq<byte>
      requires Valid()
      reads this, data
    {
      data[tail..head]
    }

    constructor (capacity: nat)
      ensures Valid() && fresh(data)
      ensures this.capacity == capacity && Pending() == [] && head == 0
    {
      this.capacity := capacity;
      data := new byte[capacity](_ => 0);
      head, tail := 0, 0;
    }

    /** What the kernel does with a posted receive: put `chunk` at the write cursor. The
        cursor itself has not moved yet. */
    method Fill(chunk: seq<byte>)
      requires Valid() && head + |chunk| <= capacity
      modifies data
      ensures Valid() && Pending() == old(Pending())
      ensures data[head..head + |chunk|] == chunk
    {
      for i := 0 to |chunk|
        invariant data[tail..head] == old(data[tail..head])
        invariant data[head..head + i] == chunk[..i]
      {
        data[head + i] := chunk[i];
        assert data[head..head + i + 1] == data[head..head + i] + [chunk[i]];
      }
    }

    method Write(size: nat)
      requires Valid() && head + size <= capacity
      modifies `head
      ensures Valid() && head == old(head) + size && tail == old(tail)
      ensures Pending() == old(Pending()) + data[old(head)..head]
    {
      head := head + size;
    }

    /** Finds the frame at the read cursor, and finds it exactly when one is complete. */
    method TryGetPacket() returns (found: bool, offset: int, size: int)
      requires Valid()
      ensures found <==> HasFrame(Pending())
      ensures found ==> size == DeclaredTotal(Pending()) && offset == tail && tail + size <= head
      ensures found ==> data[offset..offset + size] == Pending()[..size]
    {
      found, offset, size := false, 0, 0;
      if head - tail < HEADER_SIZE {
        return;
      }
      var total := HEADER_SIZE + U16(data[tail], data[tail + 1]);
      assert Pending()[0] == data[tail] && Pending()[1] == data[tail + 1];
      if head - tail < total {
        return;
      }
      found, offset, size := true, tail, total;
    }

    method Pop(size: int)
      requires Valid() && 0 <= size <= head - tail
      modifies this
      ensures Valid() && Pending() == old(Pending())[size..]
      ensures Pending() == [] ==> head == 0
    {
      tail := tail + size;
      if tail == head {
        tail := 0;
        head := 0;
      }
    }

    /** Where the next receive is written. Afterwards the space offered behind that place is
        zero exactly when the pending bytes fill the whole buffer. */
    method GetWriteBufferPtr() returns (offset: int)
      requires Valid()
      modifies this, data
      ensures Valid() && Pending() == old(Pending())
      ensures offset == head
      ensures capacity - head == 0 <==> |Pending()| == capacity
      ensures old(head) < capacity ==> data[..] == old(data[..]) && head == old(head) && tail == old(tail)
    {
      if head >= capacity {
        Compact();
      }
      offset := head;
    }

    function GetWriteBufferSize(): int
      reads this
    {
      capacity - head
    }

    /** Moves the pending bytes to the front of the same array. Source and destination may
        overlap; copying upwards never overwrites a byte that is still to be read. */
    method Compact()
      requires Valid()
      modifies this, data
      ensures Valid() && tail == 0 && Pending() == old(Pending())
    {
      var size := head - tail;
      if tail > 0 && size > 0 {
        for i := 0 to size
          invariant head == old(head) && tail == old(tail)
          invariant data[..i] == old(data[tail..tail + i])
          invariant forall k :: tail + i <= k < head ==> data[k] == old(data[k])
        {
          data[i] := data[tail + i];
          assert data[..i + 1] == data[..i] + [data[i]];
          assert old(data[tail..tail + i + 1]) == old(data[tail..tail + i]) + [old(data[tail + i])];
        }
      }
      tail := 0;
      head := size;
    }
  }
}
