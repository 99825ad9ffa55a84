/** The ring buffer that ships: plain indices, always used under the queue's mutex. */
module SequentialRing {
  import opened Bytes
  import opened RingCells

  /** The C library's memcpy between two distinct arrays. */
  method Memcpy(dst: array<Byte>, to: nat, src: array<Byte>, from: nat, n: nat)
    requires dst != src && to + n <= dst.Length && from + n <= src.Length
    modifies dst
    ensures dst[..] == Patch(old(dst[..]), to, src[from..from + n])
  {
    forall i | 0 <= i < n { dst[to + i] := src[from + i]; }
  }

  /** Exactly the first `n` bytes of the queue `c0` have moved into the buffer `b0` at `off`,
      which leaves the queue `c1` and the buffer `b1`. */
  ghost predicate Moved(b0: seq<Byte>, c0: seq<Byte>, off: nat, n: nat, b1: seq<Byte>, c1: seq<Byte>)
  {
    && n <= |c0| && off + n <= |b0|
    && c1 == c0[n..]
    && b1 == Patch(b0, off, c0[..n])
  }

  lemma MovedNothing(b: seq<Byte>, c: seq<Byte>, off: nat)
    requires off <= |b|
    ensures Moved(b, c, off, 0, b, c)
  {
  }

  /** Two consecutive partial reads deliver what one read of both lengths would. */
  lemma MovedTwice(b0: seq<Byte>, c0: seq<Byte>, off: nat, k: nat, b1: seq<Byte>, c1: seq<Byte>,
                   more: nat, b2: seq<Byte>, c2: seq<Byte>)
    requires Moved(b0, c0, off, k, b1, c1) && Moved(b1, c1, off + k, more, b2, c2)
    ensures Moved(b0, c0, off, k + more, b2, c2)
  {
    assert c0[..k + more] == c0[..k] + c1[..more];
  }

  class RingBuffer {
    const data: array<Byte>
    var rd: nat
    var wr: nat
    /** The abstract value: the queue of unread bytes. */
    ghost var contents: seq<Byte>

    ghost predicate Valid()
      reads this, data
    {
      && rd < data.Length && wr < data.Length
      && contents == Cells(data[..], rd, wr)
    }

    /** Any size can be asked for; a ring without cells cannot be used. */
    constructor (size: nat)
      ensures fresh(data) && data.Length == size
      ensures contents == [] && (Valid() <==> size > 0)
    {
      data := new Byte[size];
      rd, wr := 0, 0;
      contents := [];
    }

    function AvailableReadSize(): (n: nat)
      requires Valid()
      reads this, data
      ensures n == |contents|
    {
      if rd == wr then 0
      else if rd < wr then wr - rd
      else data.Length - rd + wr
    }

    function AvailableWriteSize(): (n: nat)
      requires Valid()
      reads this, data
      ensures n + |contents| == data.Length - 1
    {
      if rd == wr then data.Length - 1
      else if rd < wr then data.Length - wr + rd - 1
      else rd - wr - 1
    }

    /** One memcpy out of the ring and the index update that follows it. */
    method CopyOut(buffer: array<Byte>, off: nat, n: nat)
      requires Valid() && buffer != data && off + n <= buffer.Length
      requires rd + n <= data.Length && n <= |contents|
      modifies this`rd, this`contents, buffer
      ensures Valid() && rd == Advance(data.Length, old(rd), n)
      ensures Moved(old(buffer[..]), old(contents), off, n, buffer[..], contents)
    {
      AdvanceRead(data[..], rd, wr, n);
      Memcpy(buffer, off, data, rd, n);
      rd := rd + n;
      if rd == data.Length { rd := 0; }
      contents := contents[n..];
    }

    /** One memcpy into the ring and the index update that follows it. */
    method CopyIn(buffer: array<Byte>, off: nat, n: nat)
      requires Valid() && buffer != data && off + n <= buffer.Length
      requires wr + n <= data.Length && n <= data.Length - 1 - |contents|
      modifies this`wr, this`contents, data
      ensures Valid() && wr == Advance(data.Length, old(wr), n)
      ensures contents == old(contents) + buffer[..][off..off + n]
    {
      ghost var before, wr0 := data[..], wr;
      Memcpy(data, wr, buffer, off, n);
      wr := wr + n;
      if wr == data.Length { wr := 0; }
      contents := contents + buffer[..][off..off + n];
      AdvanceWrite(before, data[..], rd, wr0, n);
    }

    /** Moves the oldest bytes into `buffer` from position `off` on. `calls` counts the recursive
        calls: one when the occupied cells wrap and both parts are wanted, otherwise none. */
    method Read(buffer: array<Byte>, off: nat, buflen: nat) returns (done: nat, ghost calls: nat)
      requires Valid() && buffer != data && off + buflen <= buffer.Length
      modifies this`rd, this`contents, buffer
      ensures Valid()
      ensures done == Min(buflen, |old(contents)|)
      ensures Moved(old(buffer[..]), old(contents), off, done, buffer[..], contents)
      ensures calls == if 0 < wr < old(rd) && data.Length - old(rd) < buflen then 1 else 0
      decreases rd, 0
    {
      calls := 0;
      if wr == rd {
        done := 0;
        MovedNothing(buffer[..], contents, off);
      } else if rd < wr {
        done := Min(wr - rd, buflen);
        CopyOut(buffer, off, done);
      } else {
        done := Min(data.Length - rd, buflen);
        CopyOut(buffer, off, done);
        if done < buflen && wr != rd {
          // The source's test for an empty first copy cannot succeed: rd was below data.Length.
          done, calls := ReadMore(buffer, off, done, buflen, old(buffer[..]), old(contents));
        }
      }
    }

    /** The recursive call of Read, after `first` bytes have been copied and the index has wrapped. */
    method ReadMore(buffer: array<Byte>, off: nat, first: nat, buflen: nat, ghost b0: seq<Byte>, ghost c0: seq<Byte>)
      returns (done: nat, ghost calls: nat)
      requires Valid() && buffer != data && off + buflen <= buffer.Length && first < buflen
      requires rd == 0 < wr && Moved(b0, c0, off, first, buffer[..], contents)
      modifies this`rd, this`contents, buffer
      ensures Valid()
      ensures done == Min(buflen, |c0|)
      ensures Moved(b0, c0, off, done, buffer[..], contents)
      ensures calls == 1
      decreases 0, 1
    {
      ghost var b1, c1 := buffer[..], contents;
      assert |c0| == first + |c1|;
      var more, deeper := Read(buffer, off + first, buflen - first);
      ghost var b2, c2 := buffer[..], contents;
      assert Moved(b0, c0, off, first + more, b2, c2) by {
        MovedTwice(b0, c0, off, first, b1, c1, more, b2, c2);
      }
      done, calls := first + more, deeper + 1;
    }

    /** Appends the longest prefix of `buffer[off..off + buflen]` that fits. */
    method Write(buffer: array<Byte>, off: nat, buflen: nat) returns (done: nat, ghost calls: nat)
      requires Valid() && buffer != data && off + buflen <= buffer.Length
      modifies this`wr, this`contents, data
      ensures Valid()
      ensures done == Min(buflen, data.Length - 1 - |old(contents)|)
      ensures contents == old(contents) + buffer[..][off..off + done]
      ensures calls == if 0 < rd <= old(wr) && data.Length - old(wr) < buflen then 1 else 0
      decreases wr
    {
      calls := 0;
      if rd <= wr {
        done := Min(data.Length - wr, buflen);
        if rd == 0 && done == data.Length - wr { done := done - 1; }
        CopyIn(buffer, off, done);
        if done < buflen && rd != 0 {
          // The source's test for an empty first copy cannot succeed: wr was below data.Length.
          var more, deeper := Write(buffer, off + done, buflen - done);
          Appended(old(contents), buffer[..], off, done, more);
          done, calls := done + more, deeper + 1;
        }
      } else {
        done := Min(rd - 1 - wr, buflen);
        CopyIn(buffer, off, done);
      }
    }
  }

  /** Two consecutive partial writes append what one write of both lengths would. */
  lemma Appended(c: seq<Byte>, b: seq<Byte>, off: nat, k: nat, more: nat)
    requires off + k + more <= |b|
    ensures c + b[off..off + k] + b[off + k..off + k + more] == c + b[off..off + k + more]
  {
  }
}
