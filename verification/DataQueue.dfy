/** The blocking queue on the heap: the ring, the flag, and the stretches of code that run while
    the mutex is held. Each is shown to decide and to change the queue exactly as the abstract
    sections say, over the real ring with its two indices. */
module DataQueue {
  import opened Bytes
  import opened QueueSections
  import opened SequentialRing

  class Queue {
    const ring: RingBuffer
    var connected: bool

    ghost predicate Valid()
      reads this, ring, ring.data
    {
      ring.Valid()
    }

    constructor (size: nat)
      ensures fresh(ring) && fresh(ring.data) && ring.data.Length == size
      ensures ring.contents == [] && !connected && (Valid() <==> size > 0)
    {
      ring := new RingBuffer(size);
      connected := false;
    }

    /** The loop head of read and the first test of readWithTimeout, with the copy if there is
        data. */
    method ReadSection(buffer: array<Byte>, n: nat) returns (move: ReadMove)
      requires Valid() && buffer != ring.data && n <= buffer.Length
      modifies ring`rd, ring`contents, buffer
      ensures Valid() && move == ReadHead(old(ring.contents), connected, n)
      ensures move.Deliver? ==> move.count == n || ring.contents == []
      ensures move.Deliver? ==> ring.contents == old(ring.contents)[move.count..]
      ensures move.Deliver? ==> buffer[..] == Patch(old(buffer[..]), 0, old(ring.contents)[..move.count])
      ensures !move.Deliver? ==> ring.contents == old(ring.contents) && buffer[..] == old(buffer[..])
    {
      if ring.AvailableReadSize() == 0 {
        if !connected {
          return ReadLost;
        }
        return ReadSleep;
      }
      var done, _ := ring.Read(buffer, 0, n);
      return Deliver(done);
    }

    /** What a woken reader does before it looks at the ring again. */
    method WokenSection(timed: bool, expired: bool) returns (move: ReadMove)
      requires Valid()
      ensures move == ReadWoken(ring.contents, connected, timed, expired)
    {
      if timed {
        var rc := ring.AvailableReadSize() > 0;
        if !rc {
          if !expired { return ReadSleep; }
          if !connected { return ReadLost; }
          return ReadTimeout;
        }
      }
      if ring.AvailableReadSize() == 0 && !connected { return ReadLost; }
      return Retest;
    }

    /** write from the lock up to its wait or to the end of its copy. */
    method WriteSection(buffer: array<Byte>) returns (move: WriteMove)
      requires Valid() && buffer != ring.data
      modifies ring`wr, ring`contents, ring.data
      ensures Valid() && move == WriteHead(ring.data.Length, old(ring.contents), connected, buffer.Length)
      ensures move.Accept? ==> move.count <= buffer.Length
      ensures move.Accept? ==> ring.contents == old(ring.contents) + buffer[..][..move.count]
      ensures move.Accept? ==> move.count == buffer.Length || |ring.contents| == ring.data.Length - 1
      ensures !move.Accept? ==> ring.contents == old(ring.contents)
    {
      if buffer.Length >= ring.data.Length { return Refuse; }
      if ring.AvailableWriteSize() == 0 {
        if !connected { return WriteLost; }
        return WriteSleep;
      }
      var done, _ := ring.Write(buffer, 0, buffer.Length);
      return Accept(done);
    }

    /** write after its wait: the predicate, then the copy. */
    method WriteWokenSection(buffer: array<Byte>) returns (move: WriteMove)
      requires Valid() && buffer != ring.data && buffer.Length < ring.data.Length
      modifies ring`wr, ring`contents, ring.data
      ensures Valid() && move == WriteWoken(ring.data.Length, old(ring.contents), buffer.Length)
      ensures move.Accept? ==> move.count <= buffer.Length
      ensures move.Accept? ==> ring.contents == old(ring.contents) + buffer[..][..move.count]
      ensures move.Accept? ==> move.count == buffer.Length || |ring.contents| == ring.data.Length - 1
      ensures !move.Accept? ==> ring.contents == old(ring.contents)
    {
      if ring.AvailableWriteSize() == 0 { return WriteSleep; }
      // The source's second test for a full ring cannot succeed after the predicate held.
      var done, _ := ring.Write(buffer, 0, buffer.Length);
      return Accept(done);
    }

    /** setConnectionFlag: raising the flag wakes nobody; clearing it wakes everybody, but only if
        it was set. */
    method SetConnectionFlag(c: bool) returns (wakes: bool)
      modifies this`connected
      ensures connected == c && wakes == (!c && old(connected))
    {
      wakes := false;
      if c {
        connected := c;
      } else if connected {
        connected := false;
        wakes := true;
      }
    }
  }
}
