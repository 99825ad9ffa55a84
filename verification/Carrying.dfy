/** What sendMessage hands over of a list of messages, and what a decoder has taken of it. */
module Carrying {
  import opened Bytes
  import opened Codec
  import opened StreamDecoder
  import L = SendLoop

  // ---------------------------------------------------------------- what sendMessage announces

  /** What the loop hands over of a message: all of it if its size fits a C int. */
  function Carried(m: Message): (b: seq<Byte>)
    ensures |b| == L.Announced(SizeOf(m))
  {
    Encode(m)[..L.Announced(SizeOf(m))]
  }

  function CarriedAll(ms: seq<Message>): seq<Byte>
  {
    if ms == [] then [] else CarriedAll(L.Init(ms)) + Carried(L.Last(ms))
  }

  lemma CarriedSnoc(ms: seq<Message>, k: nat)
    requires k < |ms|
    ensures CarriedAll(ms[..k + 1]) == CarriedAll(ms[..k]) + Carried(ms[k])
  {
    assert L.Init(ms[..k + 1]) == ms[..k];
  }

  lemma {:induction false} CarriedPrefix(ms: seq<Message>, k: nat)
    requires k <= |ms|
    ensures CarriedAll(ms[..k]) <= CarriedAll(ms)
  {
    if k == |ms| {
      assert ms[..k] == ms;
    } else {
      CarriedPrefix(L.Init(ms), k);
      assert L.Init(ms)[..k] == ms[..k];
    }
  }

  /** The queue carries what sendMessage announces: each piece is shorter than the ring. */
  predicate Fits(size: nat, ms: seq<Message>)
  {
    2 <= size && forall i :: 0 <= i < |ms| ==> L.Announced(SizeOf(ms[i])) < size
  }

  /** The size of each message fits a C int. */
  predicate Whole(ms: seq<Message>)
  {
    forall i :: 0 <= i < |ms| ==> SizeOf(ms[i]) < L.INT_LIMIT
  }

  lemma CarriedIsEncoding(m: Message)
    requires SizeOf(m) < L.INT_LIMIT
    ensures Carried(m) == Encode(m)
  {
  }

  lemma {:induction false} CarriedWhole(ms: seq<Message>)
    requires Whole(ms)
    ensures CarriedAll(ms) == EncodeAll(ms)
  {
    if ms != [] {
      var front, m := L.Init(ms), L.Last(ms);
      calc {
        CarriedAll(ms);
        { CarriedWhole(front); CarriedIsEncoding(m); }
        EncodeAll(front) + Encode(m);
        { EncodeAllSnoc(front, m); }
        EncodeAll(front + [m]);
        { assert ms == front + [m]; }
        EncodeAll(ms);
      }
    }
  }

  /** Of a message whose size does not fit a C int some bytes are left out. */
  lemma {:induction false} CarriedLength(ms: seq<Message>)
    ensures |CarriedAll(ms)| <= |EncodeAll(ms)|
    ensures |CarriedAll(ms)| == |EncodeAll(ms)| <==> Whole(ms)
  {
    if ms != [] {
      var front, m := L.Init(ms), L.Last(ms);
      assert ms == front + [m];
      CarriedLength(front);
      EncodeAllSnoc(front, m);
      WholeSnoc(front, m);
    }
  }

  lemma WholeSnoc(ms: seq<Message>, m: Message)
    ensures Whole(ms + [m]) <==> Whole(ms) && SizeOf(m) < L.INT_LIMIT
  {
    if Whole(ms + [m]) {
      assert (ms + [m])[|ms|] == m;
      forall i | 0 <= i < |ms|
        ensures SizeOf(ms[i]) < L.INT_LIMIT
      {
        assert (ms + [m])[i] == ms[i];
      }
    }
  }

  // ---------------------------------------------------------------- the loop's pointer

  /** The bytes behind the loop's pointer; outside the buffer they can be anything. */
  predicate PointsAt(buf: seq<Byte>, l: L.Loop, bytes: seq<Byte>)
  {
    && |bytes| == l.towrite
    && (0 <= l.data && l.towrite <= |buf| - l.data ==> bytes == L.Chunk(buf, l.data, l.towrite))
  }

  /** What the loop has still to write. */
  function Rest(buf: seq<Byte>, l: L.Loop): seq<Byte>
  {
    L.Chunk(buf, l.data, l.towrite)
  }

  ghost predicate LoopOk(buf: seq<Byte>, l: L.Loop)
  {
    l.towrite > 0 ==> 0 <= l.data && l.data + l.towrite <= |buf| && l.towrite < L.INT_LIMIT
  }

  /** The loop's pointer is at the rest of the message. */
  lemma CallsWithRest(buf: seq<Byte>, l: L.Loop, bytes: seq<Byte>)
    requires LoopOk(buf, l) && l.towrite > 0 && PointsAt(buf, l, bytes)
    ensures bytes == Rest(buf, l) != []
  {
  }

  /** At its start the loop has to write what it announces. */
  lemma StartsWithCarried(m: Message)
    ensures LoopOk(Encode(m), L.Start(SizeOf(m))) && Rest(Encode(m), L.Start(SizeOf(m))) == Carried(m)
  {
  }

  /** A number of bytes written moves the pointer over them. */
  lemma LoopMoves(buf: seq<Byte>, l: L.Loop, k: nat)
    requires LoopOk(buf, l) && 0 < k <= |Rest(buf, l)|
    ensures LoopOk(buf, L.Step(l, k)) && Rest(buf, L.Step(l, k)) == Rest(buf, l)[k..]
  {
    L.Int32Fits(l.towrite - k);
  }

  // ---------------------------------------------------------------- what the decoder takes

  lemma SmallIsEncodable(m: Message)
    requires SizeOf(m) < WORD
    ensures Encodable(m)
  {
    SizeBounds(m);
  }

  lemma {:induction false} SizeBounds(fs: seq<Frame>)
    ensures |fs| <= FramesSize(fs)
    ensures forall i :: 0 <= i < |fs| ==> |fs[i]| <= FramesSize(fs)
  {
    if fs != [] {
      SizeBounds(fs[1..]);
      forall i | 0 <= i < |fs|
        ensures |fs[i]| <= FramesSize(fs)
      {
        if i > 0 { assert fs[i] == fs[1..][i - 1]; }
      }
    }
  }

  /** Feeding the decoder and completing a message keep account of the delivered bytes. */
  lemma ChunkArrives(received: seq<Message>, d: Decoder, bytes: seq<Byte>)
    requires Valid(d) && !d.Complete? && 0 < |bytes| <= Want(d) && AllEncodable(received)
    ensures var d' := Feed(d, bytes);
            var before := EncodeAll(received) + Consumed(d) + bytes;
            && Valid(d')
            && (d'.Complete? ==> AllEncodable(received + [d'.m]))
            && (d'.Complete? ==> EncodeAll(received + [d'.m]) + Consumed(START) + [] == before)
            && (!d'.Complete? ==> EncodeAll(received) + Consumed(d') + [] == before)
  {
    var d' := Feed(d, bytes);
    FeedConsumes(d, bytes);
    Assoc(EncodeAll(received), Consumed(d), bytes);
    var now := EncodeAll(received) + Consumed(d');
    assert now + [] == now && now + [] + [] == now;
    if d'.Complete? {
      EncodeAllSnoc(received, d'.m);
    }
  }

  lemma {:induction false} EncodeAllPrefix(ms: seq<Message>, k: nat)
    requires k <= |ms|
    ensures EncodeAll(ms) == EncodeAll(ms[..k]) + EncodeAll(ms[k..])
  {
    assert ms == ms[..k] + ms[k..];
    EncodeAllAppend(ms[..k], ms[k..]);
  }

  lemma WholeIsEncodable(ms: seq<Message>)
    requires Whole(ms)
    ensures AllEncodable(ms)
  {
    forall i | 0 <= i < |ms|
      ensures Encodable(ms[i])
    {
      SmallIsEncodable(ms[i]);
    }
  }

  lemma FirstOfFive(a: seq<Byte>, b: seq<Byte>, c: seq<Byte>, d: seq<Byte>, e: seq<Byte>)
    ensures a <= a + b + c + d + e
  {
  }

  lemma Cancel(a: seq<Byte>, b: seq<Byte>, c: seq<Byte>)
    requires a + b == a + c
    ensures b == c
  {
    assert b == (a + b)[|a|..] == (a + c)[|a|..] == c;
  }

  /** If the receiver's decoder has taken all bytes there are, all messages are complete. */
  lemma AllTaken(received: seq<Message>, ms: seq<Message>, d: Decoder)
    requires AllEncodable(ms) && received <= ms && Valid(d) && !d.Complete?
    requires EncodeAll(ms) == EncodeAll(received) + Consumed(d)
    ensures received == ms && d == START
  {
    var k := |received|;
    EncodeAllPrefix(ms, k);
    assert ms[..k] == received;
    Cancel(EncodeAll(received), Consumed(d), EncodeAll(ms[k..]));
    if k < |ms| {
      TakenTooMuch(d, ms[k], EncodeAll(ms[k..][1..]));
    } else {
      NothingTaken(d);
    }
  }

  /** An unfinished decoder cannot have taken a whole message. */
  lemma TakenTooMuch(d: Decoder, m: Message, more: seq<Byte>)
    requires Valid(d) && !d.Complete? && Encodable(m)
    ensures Consumed(d) != Encode(m) + more
  {
    if Consumed(d) == Encode(m) + more {
      ReadsWithinMessage(d, m, Consumed(d));
    }
  }

  lemma NothingTaken(d: Decoder)
    requires Valid(d) && !d.Complete? && Consumed(d) == []
    ensures d == START
  {
  }

  lemma NothingLeft(b: seq<Byte>)
    ensures b + [] + [] + [] == b
  {
  }
}
