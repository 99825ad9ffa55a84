/** The streaming reader seen from one read call to the next: what it has stored so far and how
    many bytes it asks for. Every call of the line advances it by the chunk that arrived. */
module StreamDecoder {
  import opened Bytes
  import opened Codec

  /** `acc` are the bytes already received of the item being read: the count, the length of the
      next frame, or the bytes of that frame. `fs` are the frames already added to the message. */
  datatype Decoder =
    | Count(acc: seq<Byte>)
    | Length(n: nat, fs: seq<Frame>, acc: seq<Byte>)
    | Body(n: nat, fs: seq<Frame>, len: nat, acc: seq<Byte>)
    | Complete(m: Message)

  const START := Count([])

  predicate Valid(d: Decoder)
  {
    match d
    case Count(acc) => |acc| < 4
    case Length(n, fs, acc) => |fs| < n < WORD && ShortFrames(fs) && |acc| < 4
    case Body(n, fs, len, acc) => |fs| < n < WORD && ShortFrames(fs) && |acc| < len < WORD
    case Complete(m) => Encodable(m)
  }

  /** The length passed to the next read call. */
  function Want(d: Decoder): (k: nat)
    requires Valid(d) && !d.Complete?
    ensures k > 0
  {
    if d.Body? then d.len - |d.acc| else 4 - |d.acc|
  }

  /** The frames the caller finds in the message if reading stops here. */
  function Frames(d: Decoder): (fs: seq<Frame>)
  {
    match d
    case Count(_) => []
    case Length(_, fs, _) => fs
    case Body(_, fs, _, _) => fs
    case Complete(m) => m
  }

  function NextFrame(n: nat, fs: seq<Frame>): (d: Decoder)
  {
    if |fs| == n then Complete(fs) else Length(n, fs, [])
  }

  /** The state after `chunk` has arrived. */
  function Feed(d: Decoder, chunk: seq<Byte>): (d': Decoder)
    requires Valid(d) && !d.Complete? && 0 < |chunk| <= Want(d)
  {
    var acc := d.acc + chunk;
    if |chunk| < Want(d) then d.(acc := acc)
    else
      match d
      case Count(_) => NextFrame(WordValue(acc), [])
      case Length(n, fs, _) =>
        if WordValue(acc) == 0 then NextFrame(n, fs + [[]]) else Body(n, fs, WordValue(acc), [])
      case Body(n, fs, _, _) => NextFrame(n, fs + [acc])
  }

  /** The part of the stream that has been used up. */
  function Consumed(d: Decoder): (b: seq<Byte>)
  {
    match d
    case Count(acc) => acc
    case Length(n, fs, acc) => Word(n) + EncodeFrames(fs) + acc
    case Body(n, fs, len, acc) => Word(n) + EncodeFrames(fs) + Word(len) + acc
    case Complete(m) => Encode(m)
  }

  lemma NextFrameConsumes(n: nat, fs: seq<Frame>)
    requires |fs| <= n < WORD && ShortFrames(fs)
    ensures Valid(NextFrame(n, fs)) && Consumed(NextFrame(n, fs)) == Word(n) + EncodeFrames(fs)
  {
  }

  /** No byte is skipped, repeated or invented: feeding a chunk uses up exactly that chunk. */
  lemma FeedConsumes(d: Decoder, chunk: seq<Byte>)
    requires Valid(d) && !d.Complete? && 0 < |chunk| <= Want(d)
    ensures Valid(Feed(d, chunk))
    ensures Consumed(Feed(d, chunk)) == Consumed(d) + chunk
  {
    if |chunk| < Want(d) {
      PartialFeed(d, chunk);
    } else {
      FullFeed(d, chunk);
    }
  }

  lemma PartialFeed(d: Decoder, chunk: seq<Byte>)
    requires Valid(d) && !d.Complete? && |chunk| < Want(d)
    ensures Valid(d.(acc := d.acc + chunk)) && Consumed(d.(acc := d.acc + chunk)) == Consumed(d) + chunk
  {
    match d
    case Count(acc) =>
    case Length(n, fs, acc) => Assoc(Word(n) + EncodeFrames(fs), acc, chunk);
    case Body(n, fs, len, acc) => Assoc(Word(n) + EncodeFrames(fs) + Word(len), acc, chunk);
  }

  lemma FullFeed(d: Decoder, chunk: seq<Byte>)
    requires Valid(d) && !d.Complete? && |chunk| == Want(d)
    ensures Valid(Feed(d, chunk)) && Consumed(Feed(d, chunk)) == Consumed(d) + chunk
  {
    match d
    case Count(acc) => CountRead(acc + chunk);
    case Length(n, fs, acc) => FullLength(n, fs, acc, chunk);
    case Body(n, fs, len, acc) => FullBody(n, fs, len, acc, chunk);
  }

  lemma CountRead(item: seq<Byte>)
    requires |item| == 4
    ensures Valid(NextFrame(WordValue(item), [])) && Consumed(NextFrame(WordValue(item), [])) == item
  {
    WordOfValue(item);
    NextFrameConsumes(WordValue(item), []);
    assert item + [] == item;
  }

  lemma FullLength(n: nat, fs: seq<Frame>, acc: seq<Byte>, chunk: seq<Byte>)
    requires Valid(Length(n, fs, acc)) && |chunk| == Want(Length(n, fs, acc))
    ensures var d' := Feed(Length(n, fs, acc), chunk);
            Valid(d') && Consumed(d') == Consumed(Length(n, fs, acc)) + chunk
  {
    Assoc(Word(n) + EncodeFrames(fs), acc, chunk);
    LengthRead(n, fs, acc + chunk);
  }

  lemma FullBody(n: nat, fs: seq<Frame>, len: nat, acc: seq<Byte>, chunk: seq<Byte>)
    requires Valid(Body(n, fs, len, acc)) && |chunk| == Want(Body(n, fs, len, acc))
    ensures var d' := Feed(Body(n, fs, len, acc), chunk);
            Valid(d') && Consumed(d') == Consumed(Body(n, fs, len, acc)) + chunk
  {
    Assoc(Word(n) + EncodeFrames(fs) + Word(len), acc, chunk);
    BodyRead(n, fs, acc + chunk);
  }

  lemma LengthRead(n: nat, fs: seq<Frame>, item: seq<Byte>)
    requires |fs| < n < WORD && ShortFrames(fs) && |item| == 4
    ensures var d := if WordValue(item) == 0 then NextFrame(n, fs + [[]]) else Body(n, fs, WordValue(item), []);
            Valid(d) && Consumed(d) == Word(n) + EncodeFrames(fs) + item
  {
    var so := Word(n) + EncodeFrames(fs);
    WordOfValue(item);
    if WordValue(item) == 0 {
      BodyRead(n, fs, []);
    }
    assert so + item + [] == so + item;
  }

  lemma BodyRead(n: nat, fs: seq<Frame>, f: Frame)
    requires |fs| < n < WORD && ShortFrames(fs) && |f| < WORD
    ensures var d := NextFrame(n, fs + [f]);
            Valid(d) && Consumed(d) == Word(n) + EncodeFrames(fs) + Word(|f|) + f
  {
    NextFrameConsumes(n, fs + [f]);
    BytesOfFrames(n, fs, f);
  }

  lemma BytesOfFrames(n: nat, fs: seq<Frame>, f: Frame)
    ensures Word(n) + EncodeFrames(fs + [f]) == Word(n) + EncodeFrames(fs) + Word(|f|) + f
  {
    EncodeSnoc(fs, f);
    Assoc4(Word(n), EncodeFrames(fs), Word(|f|), f);
  }

  /** Chunking does not matter: two consecutive chunks act as one. */
  lemma FeedFeed(d: Decoder, a: seq<Byte>, b: seq<Byte>)
    requires Valid(d) && !d.Complete? && 0 < |a| && 0 < |b| && |a| + |b| <= Want(d)
    ensures Valid(Feed(d, a)) && !Feed(d, a).Complete? && Want(Feed(d, a)) == Want(d) - |a|
    ensures Feed(Feed(d, a), b) == Feed(d, a + b)
  {
    PartialFeed(d, a);
    Assoc(d.acc, a, b);
  }

  // ---------------------------------------------------------------- decoder against encoder

  /** Of two frame lists encoded at the start of one stream the shorter is a prefix of the longer. */
  lemma {:induction false} FramesPrefix(fs: seq<Frame>, gs: seq<Frame>, s: seq<Byte>)
    requires ShortFrames(fs) && ShortFrames(gs) && |fs| <= |gs|
    requires EncodeFrames(fs) <= s && EncodeFrames(gs) <= s
    ensures fs <= gs
    decreases |fs|
  {
    if fs != [] {
      var f, g := fs[0], gs[0];
      HeadFrame(s, 0, f, EncodeFrames(fs[1..]));
      HeadFrame(s, 0, g, EncodeFrames(gs[1..]));
      assert |f| == |g| by { WordInjective(|f|, |g|); }
      FramesPrefix(fs[1..], gs[1..], s[4 + |f|..]);
      assert fs == [f] + fs[1..] && gs == [g] + gs[1..];
    }
  }

  lemma WordInjective(a: nat, b: nat)
    requires a < WORD && b < WORD && Word(a) == Word(b)
    ensures a == b
  {
    WordRoundTrip(a);
    WordRoundTrip(b);
    SmallMod(a, WORD);
    SmallMod(b, WORD);
  }

  /** While a stream that starts with the encoding of `m` is being read, the message holds whole
      frames of `m` only, and the next read asks for no byte beyond the encoding. */
  lemma ReadsWithinMessage(d: Decoder, m: Message, s: seq<Byte>)
    requires Valid(d) && Encodable(m) && Consumed(d) <= s && Encode(m) <= s
    ensures Frames(d) <= m
    ensures d.Complete? ==> d.m == m
    ensures !d.Complete? ==> |Consumed(d)| + Want(d) <= SizeOf(m)
  {
    match d
    case Count(_) =>
    case Complete(m') => EncodingsArePrefixFree(m', m, s);
    case Length(n, fs, acc) => WithinFrame(n, fs, acc, m, s);
    case Body(n, fs, len, acc) =>
      var so := Word(n) + EncodeFrames(fs);
      Assoc(so, Word(len), acc);
      WithinFrame(n, fs, Word(len) + acc, m, s);
      assert Word(len) == Word(|m[|fs|]|) by {
        assert (Word(len) + acc)[..4] == Word(len);
      }
      WordInjective(len, |m[|fs|]|);
  }

  /** The bytes read after `fs` belong to the next frame of `m`. */
  lemma WithinFrame(n: nat, fs: seq<Frame>, part: seq<Byte>, m: Message, s: seq<Byte>)
    requires |fs| < n < WORD && ShortFrames(fs) && Encodable(m)
    requires Word(n) + EncodeFrames(fs) + part <= s && Encode(m) <= s
    ensures n == |m| && fs <= m
    ensures 4 + FramesSize(fs) + 4 + |m[|fs|]| <= SizeOf(m)
    ensures |part| >= 4 ==> part[..4] == Word(|m[|fs|]|)
  {
    Assoc(Word(n), EncodeFrames(fs), part);
    Split(s, Word(n), EncodeFrames(fs) + part);
    Split(s, Word(|m|), EncodeFrames(m));
    WordInjective(n, |m|);
    Split(s[4..], EncodeFrames(fs), part);
    FramesPrefix(fs, m, s[4..]);
    NextIsFrame(fs, m);
    Split(s[4..], EncodeFrames(fs), EncodeFrames(m[|fs|..]));
    FirstOf(m[|fs|..], part, s[4..][FramesSize(fs)..]);
  }

  /** What a stream of at least one encoded frame starts with. */
  lemma FirstOf(gs: seq<Frame>, part: seq<Byte>, tail: seq<Byte>)
    requires gs != [] && EncodeFrames(gs) <= tail && part <= tail
    ensures 4 + |gs[0]| <= FramesSize(gs)
    ensures |part| >= 4 ==> part[..4] == Word(|gs[0]|)
  {
    HeadFrame(tail, 0, gs[0], EncodeFrames(gs[1..]));
    if |part| >= 4 {
      assert part[..4] == tail[..4];
    }
  }

  lemma NextIsFrame(fs: seq<Frame>, m: Message)
    requires fs <= m
    ensures EncodeFrames(m) == EncodeFrames(fs) + EncodeFrames(m[|fs|..])
  {
    assert m == fs + m[|fs|..];
    EncodeAppend(fs, m[|fs|..]);
  }

  // ---------------------------------------------------------------- whole schedules of short reads

  /** Each chunk is not empty and not longer than what is asked for when it arrives. */
  predicate Schedule(d: Decoder, chunks: seq<seq<Byte>>)
    requires Valid(d)
    decreases |chunks|
  {
    chunks == [] ||
    (&& !d.Complete? && 0 < |chunks[0]| <= Want(d)
     && (FeedConsumes(d, chunks[0]); Schedule(Feed(d, chunks[0]), chunks[1..])))
  }

  function FeedAll(d: Decoder, chunks: seq<seq<Byte>>): (d': Decoder)
    requires Valid(d) && Schedule(d, chunks)
    decreases |chunks|
  {
    if chunks == [] then d
    else
      FeedConsumes(d, chunks[0]);
      FeedAll(Feed(d, chunks[0]), chunks[1..])
  }

  function Flatten(chunks: seq<seq<Byte>>): seq<Byte>
  {
    if chunks == [] then [] else chunks[0] + Flatten(chunks[1..])
  }

  lemma {:induction false} FeedAllConsumes(d: Decoder, chunks: seq<seq<Byte>>)
    requires Valid(d) && Schedule(d, chunks)
    ensures Valid(FeedAll(d, chunks)) && Consumed(FeedAll(d, chunks)) == Consumed(d) + Flatten(chunks)
    decreases |chunks|
  {
    if chunks == [] {
      assert Consumed(d) + [] == Consumed(d);
    } else {
      FeedConsumes(d, chunks[0]);
      FeedAllConsumes(Feed(d, chunks[0]), chunks[1..]);
      Assoc(Consumed(d), chunks[0], Flatten(chunks[1..]));
    }
  }

  /** Chunking independence: whatever the schedule of short reads, once it has supplied the bytes
      of an encodable message the reader has that message, and no schedule can supply more. */
  lemma AnyScheduleYieldsTheMessage(chunks: seq<seq<Byte>>, m: Message, more: seq<Byte>)
    requires Encodable(m) && Schedule(START, chunks) && Flatten(chunks) == Encode(m) + more
    ensures more == [] && FeedAll(START, chunks) == Complete(m)
  {
    var d := FeedAll(START, chunks);
    FeedAllConsumes(START, chunks);
    assert Consumed(d) == Encode(m) + more;
    ReadsWithinMessage(d, m, Consumed(d));
  }

  /** And a schedule that has supplied less has produced whole frames of the message only. */
  lemma PartialScheduleYieldsFrames(chunks: seq<seq<Byte>>, m: Message)
    requires Encodable(m) && Schedule(START, chunks) && Flatten(chunks) < Encode(m)
    ensures !FeedAll(START, chunks).Complete? && Frames(FeedAll(START, chunks)) <= m
  {
    var d := FeedAll(START, chunks);
    FeedAllConsumes(START, chunks);
    assert Consumed(d) == Flatten(chunks);
    ReadsWithinMessage(d, m, Encode(m));
  }
}
