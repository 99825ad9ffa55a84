/** The message format: a 32-bit count of frames, then each frame as a 32-bit length and its
    bytes, all words little-endian. */
module Codec {
  import opened Bytes

  type Frame = seq<Byte>
  type Message = seq<Frame>

  datatype Result<T> = Ok(value: T) | EndOfBuffer

  // ---------------------------------------------------------------- the encoding

  function FramesSize(fs: seq<Frame>): (n: nat)
  {
    if fs == [] then 0 else |fs[0]| + 4 + FramesSize(fs[1..])
  }

  function SizeOf(m: Message): (n: nat)
  {
    FramesSize(m) + 4
  }

  function EncodeFrames(fs: seq<Frame>): (b: seq<Byte>)
    ensures |b| == FramesSize(fs)
  {
    if fs == [] then [] else Word(|fs[0]|) + fs[0] + EncodeFrames(fs[1..])
  }

  /** The bytes of a message; counts of 2^32 and more are truncated by the 32-bit stores. */
  function Encode(m: Message): (b: seq<Byte>)
    ensures |b| == SizeOf(m)
  {
    Word(|m|) + EncodeFrames(m)
  }

  predicate ShortFrames(fs: seq<Frame>)
  {
    forall i :: 0 <= i < |fs| ==> |fs[i]| < WORD
  }

  /** The messages whose counts fit the 32-bit words of the format. */
  predicate Encodable(m: Message)
  {
    |m| < WORD && ShortFrames(m)
  }

  lemma {:induction false} EncodeAppend(a: seq<Frame>, b: seq<Frame>)
    ensures EncodeFrames(a + b) == EncodeFrames(a) + EncodeFrames(b)
  {
    if a == [] {
      assert a + b == b;
    } else {
      var t, h := a[1..], Word(|a[0]|) + a[0];
      assert (a + b)[0] == a[0] && (a + b)[1..] == t + b;
      calc {
        EncodeFrames(a + b);
        h + EncodeFrames(t + b);
        { EncodeAppend(t, b); }
        h + (EncodeFrames(t) + EncodeFrames(b));
        { Assoc(h, EncodeFrames(t), EncodeFrames(b)); }
        EncodeFrames(a) + EncodeFrames(b);
      }
    }
  }

  lemma EncodeSnoc(fs: seq<Frame>, f: Frame)
    ensures EncodeFrames(fs + [f]) == EncodeFrames(fs) + Word(|f|) + f
  {
    EncodeAppend(fs, [f]);
    assert [f][1..] == [];
  }

  // ---------------------------------------------------------------- the layout, byte by byte

  /** Where the length of frame `k` lies. */
  function LengthAt(m: Message, k: nat): (at: nat)
    requires k <= |m|
    ensures at <= SizeOf(m)
  {
    PrefixSize(m, k);
    4 + FramesSize(m[..k])
  }

  lemma {:induction false} PrefixSize(m: Message, k: nat)
    requires k <= |m|
    ensures FramesSize(m) == FramesSize(m[..k]) + FramesSize(m[k..])
  {
    if k == 0 {
      assert m[k..] == m;
    } else {
      PrefixSize(m[1..], k - 1);
      assert m[..k][1..] == m[1..][..k - 1] && m[1..][k - 1..] == m[k..];
    }
  }

  /** The encoding starts with the number of frames, least significant byte first. */
  lemma CountLayout(m: Message)
    ensures var n := |m|;
            Encode(m)[..4] == [n % 256, n / 256 % 256, n / 65536 % 256, n / 16777216 % 256]
  {
    WordBytes(|m|);
  }

  /** Frame `k` is its length, least significant byte first, followed by its bytes, and the next
      frame follows directly. */
  lemma FrameLayout(m: Message, k: nat)
    requires k < |m|
    ensures var at, n := LengthAt(m, k), |m[k]|;
            && LengthAt(m, k + 1) == at + 4 + n
            && Encode(m)[at..at + 4] == [n % 256, n / 256 % 256, n / 65536 % 256, n / 16777216 % 256]
            && Encode(m)[at + 4..at + 4 + n] == m[k]
  {
    NextLength(m, k);
    WordBytes(|m[k]|);
    FrameInside(m, k);
  }

  lemma NextLength(m: Message, k: nat)
    requires k < |m|
    ensures LengthAt(m, k + 1) == LengthAt(m, k) + 4 + |m[k]|
  {
    PrefixSize(m[..k + 1], k);
    assert m[..k + 1][..k] == m[..k] && m[..k + 1][k..] == [m[k]];
    SizeOfOne(m[k]);
  }

  lemma FrameInside(m: Message, k: nat)
    requires k < |m| && LengthAt(m, k) + 4 + |m[k]| <= SizeOf(m)
    ensures var at, n := LengthAt(m, k), |m[k]|;
            Encode(m)[at..at + 4] == Word(n) && Encode(m)[at + 4..at + 4 + n] == m[k]
  {
    var before, f, after := m[..k], m[k], m[k + 1..];
    assert m == before + ([f] + after) && ([f] + after)[1..] == after;
    EncodeAppend(before, [f] + after);
    Embedded(Word(|m|), EncodeFrames(before), Word(|f|), f, EncodeFrames(after));
  }

  lemma SizeOfOne(f: Frame)
    ensures FramesSize([f]) == |f| + 4
  {
    var one: seq<Frame> := [f];
    assert one[1..] == [];
  }

  lemma Embedded(a: seq<Byte>, b: seq<Byte>, w: seq<Byte>, f: seq<Byte>, c: seq<Byte>)
    ensures var all, at := a + (b + (w + f + c)), |a| + |b|;
            all[at..at + |w|] == w && all[at + |w|..at + |w| + |f|] == f
  {
  }

  lemma SmallWord(n: nat)
    requires n < 256
    ensures Word(n) == [n, 0, 0, 0]
  {
    WordBytes(n);
  }

  lemma EncodeTwo(f: Frame, g: Frame)
    ensures EncodeFrames([f]) == Word(|f|) + f
    ensures EncodeFrames([f, g]) == Word(|f|) + f + (Word(|g|) + g)
  {
    var one: seq<Frame>, two: seq<Frame> := [g], [f, g];
    EncodeSnoc([], f);
    EncodeSnoc([], g);
    assert [] + [f] == [f] && [] + one == one && two[1..] == one;
  }

  /** The library's own example of an encoding. */
  lemma EncodeExample()
    ensures Encode([[1, 2, 3, 4]]) == [1, 0, 0, 0, 4, 0, 0, 0, 1, 2, 3, 4]
  {
    SmallWord(1);
    SmallWord(4);
    EncodeTwo([1, 2, 3, 4], []);
  }

  // ---------------------------------------------------------------- the parser

  /** The loop of the buffer parser, from cursor `cur` with `n` frames to go. A frame header that
      does not fit is rejected whatever its value: the check that follows it fails. */
  function ParseFrames(b: seq<Byte>, cur: nat, n: nat): (r: Result<seq<Frame>>)
    requires cur <= |b|
    decreases n
  {
    if n == 0 then Ok([])
    else if cur + 4 > |b| then EndOfBuffer
    else
      var len := WordValue(b[cur..cur + 4]);
      if cur + 4 + len > |b| then EndOfBuffer
      else
        match ParseFrames(b, cur + 4 + len, n - 1)
        case EndOfBuffer => EndOfBuffer
        case Ok(fs) => Ok([b[cur + 4..cur + 4 + len]] + fs)
  }

  function Parse(b: seq<Byte>): (r: Result<Message>)
    requires |b| >= 4
  {
    ParseFrames(b, 4, WordValue(b[..4]))
  }

  // ---------------------------------------------------------------- parser against encoder

  /** What a successful parse accepts is exactly the encoding of what it returns. */
  lemma {:induction false} ParseSound(b: seq<Byte>, cur: nat, n: nat)
    requires cur <= |b| && ParseFrames(b, cur, n).Ok?
    ensures var fs := ParseFrames(b, cur, n).value;
            |fs| == n && ShortFrames(fs) && EncodeFrames(fs) <= b[cur..]
    decreases n
  {
    if n > 0 {
      var len := WordValue(b[cur..cur + 4]);
      var next := cur + 4 + len;
      ParseSound(b, next, n - 1);
      ParseSoundStep(b, cur, len, ParseFrames(b, next, n - 1).value);
    }
  }

  lemma ParseSoundStep(b: seq<Byte>, cur: nat, len: nat, rest: seq<Frame>)
    requires cur + 4 + len <= |b| && len == WordValue(b[cur..cur + 4])
    requires EncodeFrames(rest) <= b[cur + 4 + len..]
    ensures EncodeFrames([b[cur + 4..cur + 4 + len]] + rest) <= b[cur..]
  {
    var w, f := b[cur..cur + 4], b[cur + 4..cur + 4 + len];
    assert Word(len) == w by { WordOfValue(w); }
    assert ([f] + rest)[1..] == rest;
    Behind(b, cur, len, EncodeFrames(rest));
  }

  lemma Behind(b: seq<Byte>, cur: nat, len: nat, rest: seq<Byte>)
    requires cur + 4 + len <= |b| && rest <= b[cur + 4 + len..]
    ensures b[cur..cur + 4] + b[cur + 4..cur + 4 + len] + rest <= b[cur..]
  {
  }

  /** And every encoding is parsed back. */
  lemma {:induction false} ParseComplete(b: seq<Byte>, cur: nat, fs: seq<Frame>)
    requires cur <= |b| && ShortFrames(fs) && EncodeFrames(fs) <= b[cur..]
    ensures ParseFrames(b, cur, |fs|) == Ok(fs)
    decreases |fs|
  {
    if fs != [] {
      FirstFrame(b, cur, fs);
      ParseComplete(b, cur + 4 + |fs[0]|, fs[1..]);
      ParseFirst(b, cur, fs);
    }
  }

  lemma ParseFirst(b: seq<Byte>, cur: nat, fs: seq<Frame>)
    requires fs != [] && cur + 4 + |fs[0]| <= |b| && |fs[0]| < WORD
    requires b[cur..cur + 4] == Word(|fs[0]|) && b[cur + 4..cur + 4 + |fs[0]|] == fs[0]
    requires ParseFrames(b, cur + 4 + |fs[0]|, |fs[1..]|) == Ok(fs[1..])
    ensures ParseFrames(b, cur, |fs|) == Ok(fs)
  {
    ParseOne(b, cur, fs[0], fs[1..]);
    assert fs == [fs[0]] + fs[1..];
  }

  lemma FirstFrame(b: seq<Byte>, cur: nat, fs: seq<Frame>)
    requires fs != [] && cur <= |b| && ShortFrames(fs) && EncodeFrames(fs) <= b[cur..]
    ensures cur + 4 + |fs[0]| <= |b| && |fs[0]| < WORD
    ensures b[cur..cur + 4] == Word(|fs[0]|) && b[cur + 4..cur + 4 + |fs[0]|] == fs[0]
    ensures ShortFrames(fs[1..]) && EncodeFrames(fs[1..]) <= b[cur + 4 + |fs[0]|..]
  {
    HeadFrame(b, cur, fs[0], EncodeFrames(fs[1..]));
  }

  lemma ParseOne(b: seq<Byte>, cur: nat, f: Frame, t: seq<Frame>)
    requires cur + 4 + |f| <= |b| && |f| < WORD
    requires b[cur..cur + 4] == Word(|f|) && b[cur + 4..cur + 4 + |f|] == f
    requires ParseFrames(b, cur + 4 + |f|, |t|) == Ok(t)
    ensures ParseFrames(b, cur, |t| + 1) == Ok([f] + t)
  {
    WordRoundTrip(|f|);
    SmallMod(|f|, WORD);
  }

  lemma HeadFrame(b: seq<Byte>, cur: nat, f: Frame, rest: seq<Byte>)
    requires cur <= |b| && Word(|f|) + f + rest <= b[cur..]
    ensures cur + 4 + |f| <= |b|
    ensures b[cur..cur + 4] == Word(|f|) && b[cur + 4..cur + 4 + |f|] == f
    ensures rest <= b[cur + 4 + |f|..]
  {
    Assoc(Word(|f|), f, rest);
    Split(b[cur..], Word(|f|), f + rest);
    Split(b[cur..][4..], f, rest);
    assert b[cur..][4..] == b[cur + 4..];
    assert b[cur + 4..][|f|..] == b[cur + 4 + |f|..];
  }

  lemma ParseOnlyEncodings(b: seq<Byte>, m: Message)
    requires |b| >= 4 && Parse(b) == Ok(m)
    ensures Encodable(m) && Encode(m) <= b
  {
    ParseSound(b, 4, WordValue(b[..4]));
    WordOfValue(b[..4]);
    assert b == b[..4] + b[4..];
  }

  lemma Split(b: seq<Byte>, head: seq<Byte>, tail: seq<Byte>)
    requires head + tail <= b
    ensures b[..|head|] == head && tail <= b[|head|..]
  {
    assert b[..|head + tail|] == head + tail;
    assert b[|head|..][..|tail|] == tail;
  }

  lemma ParseEveryEncoding(b: seq<Byte>, m: Message)
    requires |b| >= 4 && Encodable(m) && Encode(m) <= b
    ensures Parse(b) == Ok(m)
  {
    Split(b, Word(|m|), EncodeFrames(m));
    assert WordValue(b[..4]) == |m| by {
      WordRoundTrip(|m|);
      SmallMod(|m|, WORD);
    }
    ParseComplete(b, 4, m);
  }

  /** The buffer parser accepts exactly the buffers that start with the encoding of an encodable
      message, and it returns that message. */
  lemma ParseIffEncoding(b: seq<Byte>, m: Message)
    requires |b| >= 4
    ensures Parse(b) == Ok(m) <==> Encodable(m) && Encode(m) <= b
  {
    if Parse(b) == Ok(m) { ParseOnlyEncodings(b, m); }
    if Encodable(m) && Encode(m) <= b { ParseEveryEncoding(b, m); }
  }

  lemma ParseTwo(f: Frame, g: Frame)
    requires |f| == 4 && |g| == 2
    ensures Parse([2, 0, 0, 0] + ([4, 0, 0, 0] + f + ([2, 0, 0, 0] + g))) == Ok([f, g])
  {
    SmallWord(2);
    SmallWord(4);
    EncodeTwo(f, g);
    RoundTripIffEncodable([f, g]);
  }

  /** The library's own example of a parse. */
  lemma ParseExample(b: seq<Byte>)
    requires b == [2, 0, 0, 0, 4, 0, 0, 0, 1, 2, 3, 4, 2, 0, 0, 0, 0x55, 0xaa]
    ensures Parse(b) == Ok([[1, 2, 3, 4], [0x55, 0xaa]])
  {
    var f: Frame, g: Frame := [1, 2, 3, 4], [0x55, 0xaa];
    ParseTwo(f, g);
    assert b == [2, 0, 0, 0] + ([4, 0, 0, 0] + f + ([2, 0, 0, 0] + g));
  }

  /** Round trip, exactly for the messages whose counts fit: a larger count is truncated by the
      encoder, so something else (or nothing) comes back. */
  lemma RoundTripIffEncodable(m: Message)
    ensures Parse(Encode(m)) == Ok(m) <==> Encodable(m)
  {
    ParseIffEncoding(Encode(m), m);
  }

  /** Self-delimiting: two encodings that begin the same stream are the same message; in
      particular none is a proper prefix of another. */
  lemma EncodingsArePrefixFree(a: Message, b: Message, s: seq<Byte>)
    requires Encodable(a) && Encodable(b) && Encode(a) <= s && Encode(b) <= s
    ensures a == b
  {
    ParseIffEncoding(s, a);
    ParseIffEncoding(s, b);
  }

  /** A buffer cut short anywhere after the count is rejected, if there is a frame to miss. */
  lemma TruncatedIsRejected(m: Message, k: nat)
    requires Encodable(m) && 4 <= k < SizeOf(m)
    ensures Parse(Encode(m)[..k]) == EndOfBuffer
  {
    var b := Encode(m)[..k];
    if Parse(b).Ok? {
      var m' := Parse(b).value;
      ParseIffEncoding(b, m');
      EncodingsArePrefixFree(m, m', Encode(m));
    }
  }

  /** What the parser makes of the first `bufferLength` bytes of a buffer. It reads the count without
      looking at the length, so below four bytes the count decides alone. */
  function ParseClaimed(memory: seq<Byte>, bufferLength: nat): Result<Message>
    requires 4 <= |memory| && bufferLength <= |memory|
  {
    if bufferLength >= 4 then Parse(memory[..bufferLength])
    else if WordValue(memory[..4]) == 0 then Ok([])
    else EndOfBuffer
  }

  /** In memory that starts with an encoding, a claimed length is accepted exactly if it covers the
      encoding; a message without frames is accepted with any length. */
  lemma AcceptedIffCovered(m: Message, memory: seq<Byte>, bufferLength: nat)
    requires Encodable(m) && Encode(m) <= memory && bufferLength <= |memory|
    ensures ParseClaimed(memory, bufferLength) == if m == [] || bufferLength >= SizeOf(m) then Ok(m) else EndOfBuffer
  {
    var claimed := memory[..bufferLength];
    if bufferLength >= SizeOf(m) {
      assert Encode(m) <= claimed;
      ParseIffEncoding(claimed, m);
    } else if bufferLength >= 4 {
      assert claimed == Encode(m)[..bufferLength];
      TruncatedIsRejected(m, bufferLength);
    } else {
      assert memory[..4] == Encode(m)[..4] == Word(|m|);
      WordRoundTrip(|m|);
      SmallMod(|m|, WORD);
    }
  }

  /** Below four bytes the length plays no part: the message without frames is accepted if the count in
      memory is zero, and nothing else is. */
  lemma ShortClaim(memory: seq<Byte>, bufferLength: nat, m: Message)
    requires 4 <= |memory| && bufferLength <= |memory| && bufferLength < 4
    ensures ParseClaimed(memory, bufferLength) == Ok(m) <==> m == [] && memory[..4] == [0, 0, 0, 0]
  {
    SmallWord(0);
    WordOfValue(memory[..4]);
    WordRoundTrip(0);
  }

  // ---------------------------------------------------------------- streams of messages

  function EncodeAll(ms: seq<Message>): (b: seq<Byte>)
  {
    if ms == [] then [] else Encode(ms[0]) + EncodeAll(ms[1..])
  }

  predicate AllEncodable(ms: seq<Message>)
  {
    forall i :: 0 <= i < |ms| ==> Encodable(ms[i])
  }

  lemma {:induction false} EncodeAllAppend(a: seq<Message>, b: seq<Message>)
    ensures EncodeAll(a + b) == EncodeAll(a) + EncodeAll(b)
  {
    if a == [] {
      assert a + b == b;
    } else {
      var t, h := a[1..], Encode(a[0]);
      assert (a + b)[0] == a[0] && (a + b)[1..] == t + b;
      calc {
        EncodeAll(a + b);
        h + EncodeAll(t + b);
        { EncodeAllAppend(t, b); }
        h + (EncodeAll(t) + EncodeAll(b));
        { Assoc(h, EncodeAll(t), EncodeAll(b)); }
        EncodeAll(a) + EncodeAll(b);
      }
    }
  }

  lemma EncodeAllSnoc(ms: seq<Message>, m: Message)
    ensures EncodeAll(ms + [m]) == EncodeAll(ms) + Encode(m)
  {
    EncodeAllAppend(ms, [m]);
    assert [m][1..] == [];
    assert EncodeAll([m]) == Encode(m);
  }

  /** A stream that starts with the encodings of `rs` and is itself a prefix of the encodings of
      `ms` was made from a message list that starts with `rs`. */
  lemma {:induction false} StreamPrefix(rs: seq<Message>, ms: seq<Message>)
    requires AllEncodable(rs) && AllEncodable(ms)
    requires EncodeAll(rs) <= EncodeAll(ms)
    ensures rs <= ms
  {
    if rs != [] {
      var whole := EncodeAll(ms);
      assert Encode(rs[0]) <= whole;
      assert ms != [];
      EncodingsArePrefixFree(rs[0], ms[0], whole);
      var k := SizeOf(rs[0]);
      assert EncodeAll(rs)[k..] == EncodeAll(rs[1..]);
      assert whole[k..] == EncodeAll(ms[1..]);
      StreamPrefix(rs[1..], ms[1..]);
      assert rs == [rs[0]] + rs[1..] && ms == [ms[0]] + ms[1..];
    }
  }

  /** A concatenation of encodings is the concatenation for exactly one message list. */
  lemma StreamIsUnique(rs: seq<Message>, ms: seq<Message>)
    requires AllEncodable(rs) && AllEncodable(ms) && EncodeAll(rs) == EncodeAll(ms)
    ensures rs == ms
  {
    StreamPrefix(rs, ms);
    StreamPrefix(ms, rs);
  }

  // ---------------------------------------------------------------- the source's loops

  lemma {:induction false} FramesSizeSnoc(fs: seq<Frame>, f: Frame)
    ensures FramesSize(fs + [f]) == FramesSize(fs) + |f| + 4
  {
    if fs == [] {
      assert [f][1..] == [];
      assert fs + [f] == [f];
    } else {
      FramesSizeSnoc(fs[1..], f);
      assert (fs + [f])[1..] == fs[1..] + [f];
    }
  }

  method MessageSize(m: Message) returns (total: nat)
    ensures total == |Encode(m)|
  {
    total := 0;
    for i := 0 to |m|
      invariant total == FramesSize(m[..i])
    {
      FramesSizeSnoc(m[..i], m[i]);
      assert m[..i + 1] == m[..i] + [m[i]];
      total := total + |m[i]| + 4;
    }
    assert m[..|m|] == m;
    total := total + 4;
  }

  /** Stores `s` at `at`: a word store or the memcpy of a frame. */
  method Store(buffer: array<Byte>, at: nat, s: seq<Byte>)
    requires at + |s| <= buffer.Length
    modifies buffer
    ensures buffer[..] == Patch(old(buffer[..]), at, s)
  {
    forall i | 0 <= i < |s| { buffer[at + i] := s[i]; }
  }

  /** Fills exactly the first messageSize() bytes of the buffer with the encoding. */
  method WriteMessage(m: Message, buffer: array<Byte>)
    requires buffer.Length >= SizeOf(m)
    modifies buffer
    ensures buffer[..] == Encode(m) + old(buffer[..])[SizeOf(m)..]
  {
    ghost var before := buffer[..];
    ghost var out := Word(|m|);
    Store(buffer, 0, Word(|m|));
    var b := 4;
    for i := 0 to |m|
      invariant b == |out| <= |before|
      invariant b + FramesSize(m[i..]) == SizeOf(m)
      invariant out == Word(|m|) + EncodeFrames(m[..i])
      invariant buffer[..] == out + before[b..]
    {
      FrameSplit(m, i);
      var f := m[i];
      Store(buffer, b, Word(|f|));
      b := b + 4;
      Store(buffer, b, f);
      b := b + |f|;
      FrameStored(out, before, Word(|f|), f);
      out := out + Word(|f|) + f;
      Assoc4(Word(|m|), EncodeFrames(m[..i]), Word(|f|), f);
    }
    assert m[..|m|] == m;
  }

  /** Storing a frame's length and its bytes behind `out` extends it by them. */
  lemma FrameStored(out: seq<Byte>, before: seq<Byte>, length: seq<Byte>, f: Frame)
    requires |out| + |length| + |f| <= |before|
    ensures Patch(Patch(out + before[|out|..], |out|, length), |out| + |length|, f)
         == (out + length + f) + before[|out + length + f|..]
  {
    PatchEnd(out, before[|out|..], length);
    assert before[|out|..][|length|..] == before[|out + length|..];
    PatchEnd(out + length, before[|out + length|..], f);
    assert before[|out + length|..][|f|..] == before[|out + length + f|..];
  }

  lemma FrameSplit(m: Message, i: nat)
    requires i < |m|
    ensures FramesSize(m[i..]) == |m[i]| + 4 + FramesSize(m[i + 1..])
    ensures FramesSize(m[..i + 1]) == FramesSize(m[..i]) + |m[i]| + 4
    ensures EncodeFrames(m[..i + 1]) == EncodeFrames(m[..i]) + Word(|m[i]|) + m[i]
  {
    assert m[i..][1..] == m[i + 1..];
    assert m[..i + 1] == m[..i] + [m[i]];
    FramesSizeSnoc(m[..i], m[i]);
    EncodeSnoc(m[..i], m[i]);
  }

  /** The buffer parser with its moving cursor. A frame header is read before the length is
      checked; behind `memory` it may have any value, and the result does not depend on it. */
  method ReadMessage(memory: seq<Byte>, bufferLength: nat) returns (r: Result<Message>)
    requires 4 <= |memory| && bufferLength <= |memory|
    ensures r == ParseClaimed(memory, bufferLength)
  {
    ghost var claimed := memory[..bufferLength];
    var frames := WordValue(memory[..4]);
    var current := 4;
    var msg: Message := [];
    if bufferLength >= 4 { ParseFromStart(memory, bufferLength); }
    for i := 0 to frames
      invariant 4 <= current && (bufferLength < 4 ==> i == 0 && msg == [])
      invariant bufferLength >= 4 ==> current <= bufferLength
      invariant bufferLength >= 4 ==> Prepend(msg, ParseFrames(claimed, current, frames - i)) == Parse(claimed)
    {
      var currentFrameLength: nat;
      if current + 4 <= |memory| {
        currentFrameLength := WordValue(memory[current..current + 4]);
      } else {
        currentFrameLength :| 0 <= currentFrameLength < WORD;
      }
      current := current + 4;
      if current + currentFrameLength > bufferLength {
        if bufferLength >= 4 { HeaderFails(memory, bufferLength, current - 4, currentFrameLength, frames - i); }
        return EndOfBuffer;
      }
      ParseNext(memory, bufferLength, current - 4, currentFrameLength, frames - i, msg);
      msg := msg + [memory[current..current + currentFrameLength]];
      current := current + currentFrameLength;
    }
    assert msg + [] == msg;
    r := Ok(msg);
  }

  lemma ParseFromStart(memory: seq<Byte>, bufferLength: nat)
    requires 4 <= bufferLength <= |memory|
    ensures var claimed := memory[..bufferLength];
            Prepend([], ParseFrames(claimed, 4, WordValue(memory[..4]))) == Parse(claimed)
  {
    assert memory[..bufferLength][..4] == memory[..4];
    PrependNothing(Parse(memory[..bufferLength]));
  }

  lemma HeaderFails(memory: seq<Byte>, bufferLength: nat, cur: nat, len: nat, n: nat)
    requires cur <= bufferLength <= |memory| && n > 0 && cur + 4 + len > bufferLength
    requires cur + 4 <= |memory| ==> len == WordValue(memory[cur..cur + 4])
    ensures ParseFrames(memory[..bufferLength], cur, n) == EndOfBuffer
  {
    if cur + 4 <= bufferLength {
      assert memory[..bufferLength][cur..cur + 4] == memory[cur..cur + 4];
    }
  }

  lemma ParseNext(memory: seq<Byte>, bufferLength: nat, cur: nat, len: nat, n: nat, msg: Message)
    requires cur + 4 + len <= bufferLength <= |memory| && n > 0 && len == WordValue(memory[cur..cur + 4])
    ensures Prepend(msg, ParseFrames(memory[..bufferLength], cur, n))
         == Prepend(msg + [memory[cur + 4..cur + 4 + len]], ParseFrames(memory[..bufferLength], cur + 4 + len, n - 1))
  {
    var claimed, frame := memory[..bufferLength], memory[cur + 4..cur + 4 + len];
    assert claimed[cur..cur + 4] == memory[cur..cur + 4];
    assert claimed[cur + 4..cur + 4 + len] == frame;
    PrependStep(msg, frame, ParseFrames(claimed, cur + 4 + len, n - 1));
  }

  ghost function Prepend(fs: seq<Frame>, r: Result<seq<Frame>>): Result<seq<Frame>>
  {
    if r.Ok? then Ok(fs + r.value) else r
  }

  lemma PrependNothing(r: Result<seq<Frame>>)
    ensures Prepend([], r) == r
  {
    if r.Ok? { assert [] + r.value == r.value; }
  }

  lemma PrependStep(fs: seq<Frame>, f: Frame, r: Result<seq<Frame>>)
    ensures Prepend(fs, Prepend([f], r)) == Prepend(fs + [f], r)
  {
    if r.Ok? { assert fs + ([f] + r.value) == fs + [f] + r.value; }
  }

  // ---------------------------------------------------------------- typed frames

  /** Frame::fromValue for an unsigned integer of `width` bytes, and Message::get for it. */
  function FromValue(value: nat, width: nat): (f: Frame)
    requires value < Span(width)
    ensures |f| == width
  {
    ToLE(value, width)
  }

  function GetValue(f: Frame, width: nat): (value: nat)
    requires |f| >= width
    ensures value < Span(width)
  {
    FromLE(f[..width])
  }

  /** A value put into a message is the value got from it, also after the message has been
      encoded and parsed; a longer frame yields its leading bytes. */
  lemma TypedRoundTrip(m: Message, k: nat, value: nat, width: nat, extra: seq<Byte>)
    requires value < Span(width) && k < |m| && Encodable(m)
    requires m[k] == FromValue(value, width) + extra
    ensures Parse(Encode(m)).Ok? && |Parse(Encode(m)).value| == |m|
    ensures |Parse(Encode(m)).value[k]| >= width && GetValue(Parse(Encode(m)).value[k], width) == value
  {
    RoundTripIffEncodable(m);
    assert Parse(Encode(m)).value == m;
    GetAfterFrom(value, width, extra);
  }

  /** The bytes of a value in a frame, least significant first. */
  lemma ValueBytes(value: nat, width: nat, i: nat)
    requires value < Span(width) && i < width
    ensures FromValue(value, width)[i] == value / Span(i) % 256
  {
    ByteAt(value, width, i);
  }

  lemma GetAfterFrom(value: nat, width: nat, extra: seq<Byte>)
    requires value < Span(width)
    ensures GetValue(FromValue(value, width) + extra, width) == value
  {
    assert (FromValue(value, width) + extra)[..width] == FromValue(value, width);
    LoadAfterStore(value, width);
    SmallMod(value, Span(width));
  }
}
