/** Framed messages over a byte stream whose reads and writes may be short. */
module MessageProtocol {
  import opened Bytes
  import opened Codec
  import opened SendLoop
  import opened StreamDecoder

  /** An arbitrary line: `script` decides call by call how it behaves. A number that is not
      positive is the result of that call; a positive one bounds the length of the transfer. */
  class Line {
    const script: nat -> int
    var calls: nat
    var last: int
    var incoming: seq<Byte>
    var accepted: seq<Byte>

    constructor (script: nat -> int, incoming: seq<Byte>)
      ensures this.script == script && this.incoming == incoming
      ensures calls == 0 && accepted == []
    {
      this.script, this.incoming := script, incoming;
      calls, last, accepted := 0, 0, [];
    }

    /** Reading: at least one byte when the script and the stream allow it. */
    method Read(buffer: array<Byte>, off: nat, n: nat) returns (result: int)
      requires n > 0 && off + n <= buffer.Length
      modifies this, buffer
      ensures calls == old(calls) + 1 && last == result && accepted == old(accepted)
      ensures result > 0 <==> script(old(calls)) > 0 && old(incoming) != []
      ensures result <= 0 ==> result == if script(old(calls)) <= 0 then script(old(calls)) else CONNECTION_LOST
      ensures result <= 0 ==> incoming == old(incoming) && buffer[..] == old(buffer[..])
      ensures result > 0 ==> result <= n && result <= |old(incoming)|
      ensures result > 0 ==> incoming == old(incoming)[result..]
      ensures result > 0 ==> buffer[..] == Patch(old(buffer[..]), off, old(incoming)[..result])
    {
      var limit := script(calls);
      calls := calls + 1;
      if limit <= 0 {
        result := limit;
      } else if incoming == [] {
        result := CONNECTION_LOST;
      } else {
        var k := Min(Min(limit, n), Min(|incoming|, INT_LIMIT - 1));
        forall i | 0 <= i < k { buffer[off + i] := incoming[i]; }
        incoming := incoming[k..];
        result := k;
      }
      last := result;
    }

    /** Writing: a positive number of bytes whenever the script is positive. `off` is where the
        caller's pointer is; a range that is not in the buffer adds nothing to what is known of
        the accepted bytes. */
    method Write(buffer: array<Byte>, off: int, n: nat) returns (result: int)
      requires n > 0
      modifies this
      ensures calls == old(calls) + 1 && last == result && incoming == old(incoming)
      ensures Answers(script(old(calls)), result) && result <= n
      ensures accepted == old(accepted) + Chunk(buffer[..], off, result)
    {
      var limit := script(calls);
      calls := calls + 1;
      result := if limit <= 0 then limit else Min(Min(limit, n), INT_LIMIT - 1);
      accepted := accepted + Chunk(buffer[..], off, result);
      last := result;
    }
  }

  /** `result` is a possible answer of a line whose script says `limit`. */
  predicate Answers(limit: int, result: int)
  {
    if limit <= 0 then result == limit else 0 < result <= limit
  }

  /** The message object a caller hands to readMessage; frames are appended in place. */
  class OutMessage {
    var frames: Message

    constructor ()
      ensures frames == []
    {
      frames := [];
    }

    method AddFrame(f: Frame)
      modifies this
      ensures frames == old(frames) + [f]
    {
      frames := frames + [f];
    }
  }

  /** The loop that readMessage runs for the count, for a length and for a frame: read until the
      buffer is full or the line fails. `d0` and `d` are the decoder before and after it. */
  method Fill(line: Line, buffer: array<Byte>, ghost d0: Decoder) returns (rc: int, ghost d: Decoder)
    requires Valid(d0) && (buffer.Length > 0 ==> !d0.Complete? && Want(d0) == buffer.Length)
    modifies line, buffer
    ensures Valid(d) && Consumed(d) + line.incoming == Consumed(d0) + old(line.incoming)
    ensures rc > 0 ==> d == Fed(d0, buffer[..])
    ensures rc <= 0 ==> buffer.Length > 0 && !d.Complete? && Frames(d) == Frames(d0)
    ensures line.calls >= old(line.calls) && (rc <= 0 ==> Failed(line, old(line.calls), rc))
  {
    var bytesRead := 0;
    ghost var s := line.incoming;
    while bytesRead < buffer.Length
      invariant 0 <= bytesRead <= buffer.Length && bytesRead <= |s| && line.calls >= old(line.calls)
      invariant line.incoming == s[bytesRead..] && buffer[..][..bytesRead] == s[..bytesRead]
    {
      ghost var b := buffer[..];
      var result := line.Read(buffer, bytesRead, buffer.Length - bytesRead);
      if result <= 0 {
        d := Fed(d0, s[..bytesRead]);
        FedConsumes(d0, s, bytesRead);
        return result, d;
      }
      FilledMore(b, s, bytesRead, result);
      bytesRead := bytesRead + result;
    }
    d := Fed(d0, s[..bytesRead]);
    FedConsumes(d0, s, bytesRead);
    assert buffer[..][..bytesRead] == buffer[..];
    rc := 1;
  }

  /** The line has been called since `before`, and `rc` is what the last call returned: the script's
      own result, or the loss of the connection if the script would have gone on. */
  ghost predicate Failed(line: Line, before: nat, rc: int)
    reads line
  {
    && rc <= 0 && line.calls > before && rc == line.last
    && var limit := line.script(line.calls - 1);
       && rc == (if limit <= 0 then limit else CONNECTION_LOST)
       && (limit <= 0 || line.incoming == [])
  }

  lemma FilledMore(b: seq<Byte>, s: seq<Byte>, k: nat, r: nat)
    requires k + r <= |b| && k + r <= |s| && b[..k] == s[..k]
    ensures Patch(b, k, s[k..][..r])[..k + r] == s[..k + r]
    ensures s[k..][r..] == s[k + r..]
  {
    assert s[..k + r] == s[..k] + s[k..][..r];
  }

  /** Reading an item in any number of chunks is feeding it in one. */
  lemma FedConsumes(d: Decoder, s: seq<Byte>, k: nat)
    requires Valid(d) && k <= |s| && (k > 0 ==> !d.Complete? && k <= Want(d))
    ensures var d' := Fed(d, s[..k]);
            && Valid(d') && Consumed(d') + s[k..] == Consumed(d) + s
            && (!d.Complete? && k < Want(d) ==> !d'.Complete? && Frames(d') == Frames(d))
  {
    Regroup(Consumed(d), s, k);
    if k > 0 {
      FeedConsumes(d, s[..k]);
    } else {
      assert Consumed(d) + s[..k] == Consumed(d);
    }
  }

  /** The decoder after a possibly empty beginning of the item it waits for. */
  ghost function Fed(d: Decoder, s: seq<Byte>): Decoder
    requires Valid(d) && (s != [] ==> !d.Complete? && |s| <= Want(d))
  {
    if s == [] then d else Feed(d, s)
  }

  /** readMessage on any stream and any line behaviour. The first block of postconditions follows
      the bytes: nothing but what the decoder holds has left the stream. The last one says what
      this means when the stream starts with the encoding of a message `w`: success returns
      exactly `w` and takes exactly its bytes, however the line cut them up; failure is a failure
      of the line during this call, returned as such, and leaves whole frames of `w`. */
  method ReadMessage(line: Line, m: OutMessage) returns (rc: int, ghost d: Decoder)
    requires m.frames == []
    modifies line, m
    ensures Valid(d) && Consumed(d) + line.incoming == old(line.incoming)
    ensures m.frames == Frames(d) && (rc == 1 <==> d.Complete?)
    ensures line.calls >= old(line.calls) && (rc != 1 ==> Failed(line, old(line.calls), rc))
    ensures rc == 1 ==> |old(line.incoming)| >= 4 && Parse(old(line.incoming)) == Ok(m.frames)
    ensures forall w: Message :: Encodable(w) && Encode(w) <= old(line.incoming) ==>
              Outcome(rc, m.frames, w, line, old(line.calls), old(line.incoming))
  {
    ghost var s, before := line.incoming, line.calls;
    rc, d := ReadFrames(line, m);
    if rc == 1 { AgreesWithBuffer(d, s, line.incoming); }
    forall w: Message | Encodable(w) && Encode(w) <= s
      ensures Outcome(rc, m.frames, w, line, before, s)
    {
      OutcomeFor(d, w, s, line.incoming);
    }
  }

  /** What the caller finds after reading from a stream `s` that started with the encoding of `w`,
      on a line that had been called `before` times. */
  ghost predicate Outcome(rc: int, frames: Message, w: Message, line: Line, before: nat, s: seq<Byte>)
    reads line
  {
    if rc == 1 then frames == w && Encode(w) + line.incoming == s
    else frames <= w && line.calls > before && line.script(line.calls - 1) <= 0
  }

  /** Every schedule that is positive from now on delivers: readMessage returns 1 and the message,
      whatever calls the line has seen before. */
  method ReadFromGoodLine(line: Line, m: OutMessage, ghost w: Message) returns (rc: int)
    requires m.frames == [] && Encodable(w) && Encode(w) <= line.incoming
    requires forall i :: i >= line.calls ==> line.script(i) > 0
    modifies line, m
    ensures rc == 1 && m.frames == w && Encode(w) + line.incoming == old(line.incoming)
  {
    ghost var s, before := line.incoming, line.calls;
    ghost var d;
    rc, d := ReadMessage(line, m);
    assert Outcome(rc, m.frames, w, line, before, s);
  }

  /** The streaming reader and the buffer parser agree. */
  lemma AgreesWithBuffer(d: Decoder, s: seq<Byte>, left: seq<Byte>)
    requires Valid(d) && d.Complete? && Consumed(d) + left == s
    ensures |s| >= 4 && Parse(s) == Ok(d.m)
  {
    assert s[..|Consumed(d)|] == Consumed(d);
    ParseIffEncoding(s, d.m);
  }

  lemma OutcomeFor(d: Decoder, w: Message, s: seq<Byte>, left: seq<Byte>)
    requires Valid(d) && Encodable(w) && Encode(w) <= s && Consumed(d) + left == s
    ensures if d.Complete? then d.m == w && Encode(w) + left == s else Frames(d) <= w && left != []
  {
    assert s[..|Consumed(d)|] == Consumed(d);
    ReadsWithinMessage(d, w, s);
  }

  method ReadFrames(line: Line, m: OutMessage) returns (rc: int, ghost d: Decoder)
    requires m.frames == []
    modifies line, m
    ensures Valid(d) && Consumed(d) + line.incoming == old(line.incoming)
    ensures m.frames == Frames(d) && (rc == 1 <==> d.Complete?)
    ensures line.calls >= old(line.calls) && (rc != 1 ==> Failed(line, old(line.calls), rc))
  {
    ghost var s := line.incoming;
    var word := new Byte[4];
    rc, d := Fill(line, word, START);
    if rc <= 0 { return; }
    var frames := WordValue(word[..]);
    WholeItem(START, word[..]);
    for i := 0 to frames
      invariant |m.frames| == i && d == NextFrame(frames, m.frames)
      invariant Valid(d) && Consumed(d) + line.incoming == s && line.calls >= old(line.calls)
    {
      rc, d := ReadFrame(line, m, frames, d);
      if rc <= 0 { return; }
    }
    rc := 1;
  }

  method ReadFrame(line: Line, m: OutMessage, ghost n: nat, ghost d0: Decoder) returns (rc: int, ghost d: Decoder)
    requires Valid(d0) && d0 == Length(n, m.frames, [])
    modifies line, m
    ensures Valid(d) && Consumed(d) + line.incoming == Consumed(d0) + old(line.incoming)
    ensures rc > 0 ==> |m.frames| == |old(m.frames)| + 1 && d == NextFrame(n, m.frames)
    ensures rc <= 0 ==> !d.Complete? && m.frames == Frames(d)
    ensures line.calls >= old(line.calls) && (rc <= 0 ==> Failed(line, old(line.calls), rc))
  {
    ghost var fs := m.frames;
    var frameLength;
    rc, frameLength, d := ReadLength(line, n, fs);
    if rc <= 0 { return; }
    var data;
    rc, data, d := ReadBody(line, frameLength, n, fs);
    if rc <= 0 { return; }
    m.AddFrame(data);
  }

  method ReadLength(line: Line, ghost n: nat, ghost fs: seq<Frame>)
    returns (rc: int, frameLength: nat, ghost d: Decoder)
    requires Valid(Length(n, fs, []))
    modifies line
    ensures Valid(d) && Consumed(d) + line.incoming == Consumed(Length(n, fs, [])) + old(line.incoming)
    ensures rc > 0 ==> frameLength < WORD && d == BeforeBody(n, fs, frameLength)
    ensures rc <= 0 ==> !d.Complete? && Frames(d) == fs
    ensures line.calls >= old(line.calls) && (rc <= 0 ==> Failed(line, old(line.calls), rc))
  {
    var word := new Byte[4];
    rc, d := Fill(line, word, Length(n, fs, []));
    frameLength := WordValue(word[..]);
    LengthItem(n, fs, word[..]);
  }

  method ReadBody(line: Line, frameLength: nat, ghost n: nat, ghost fs: seq<Frame>)
    returns (rc: int, data: Frame, ghost d: Decoder)
    requires Valid(Length(n, fs, [])) && frameLength < WORD && Valid(BeforeBody(n, fs, frameLength))
    modifies line
    ensures Valid(d) && Consumed(d) + line.incoming == Consumed(BeforeBody(n, fs, frameLength)) + old(line.incoming)
    ensures rc > 0 ==> d == NextFrame(n, fs + [data])
    ensures rc <= 0 ==> !d.Complete? && Frames(d) == fs
    ensures line.calls >= old(line.calls) && (rc <= 0 ==> Failed(line, old(line.calls), rc))
  {
    var buffer := new Byte[frameLength];
    rc, d := Fill(line, buffer, BeforeBody(n, fs, frameLength));
    data := buffer[..];
    BodyItem(n, fs, data);
  }

  lemma LengthItem(n: nat, fs: seq<Frame>, item: seq<Byte>)
    requires Valid(Length(n, fs, [])) && |item| == 4
    ensures Fed(Length(n, fs, []), item) == BeforeBody(n, fs, WordValue(item))
    ensures Valid(BeforeBody(n, fs, WordValue(item)))
  {
    WholeItem(Length(n, fs, []), item);
    FeedConsumes(Length(n, fs, []), item);
  }

  lemma BodyItem(n: nat, fs: seq<Frame>, item: seq<Byte>)
    requires Valid(Length(n, fs, [])) && |item| < WORD && Valid(BeforeBody(n, fs, |item|))
    ensures Fed(BeforeBody(n, fs, |item|), item) == NextFrame(n, fs + [item])
  {
    if item != [] { WholeItem(Body(n, fs, |item|, []), item); }
  }

  /** The decoder once the length of the next frame is known; an empty frame needs no read. */
  ghost function BeforeBody(n: nat, fs: seq<Frame>, len: nat): Decoder
  {
    if len == 0 then NextFrame(n, fs + [[]]) else Body(n, fs, len, [])
  }

  /** An item read from its first byte on is held as it is. */
  lemma WholeItem(d: Decoder, item: seq<Byte>)
    requires Valid(d) && !d.Complete? && d.acc == [] && |item| == Want(d)
    ensures d.acc + item == item
  {
  }

  /** sendMessage on any line, for any message. The source's loop need not end, so it is followed
      for up to `patience` writes. If the line takes something at each call, the loop ends and the
      line has accepted the encoding, whole and in order, up to the part of its size that the
      conversion to a C int leaves. */
  method SendMessage(line: Line, m: Message, patience: nat) returns (returned: bool, rc: int, ghost results: seq<int>)
    modifies line
    ensures returned ==> rc == 1
    ensures Sending(line, Encode(m), patience, returned, results, old(line.calls), old(line.accepted))
    ensures line.incoming == old(line.incoming)
    ensures (forall i :: i >= old(line.calls) ==> line.script(i) > 0) && patience >= SizeOf(m) ==>
              returned && line.accepted == old(line.accepted) + Encode(m)[..Announced(SizeOf(m))]
  {
    var size := MessageSize(m);
    var buffer := new Byte[size];
    WriteMessage(m, buffer);
    assert buffer[..] == Encode(m);
    returned, results := SendAll(line, buffer, patience);
    rc := 1;
    if (forall i :: i >= old(line.calls) ==> line.script(i) > 0) && patience >= SizeOf(m) {
      ScriptIsPositive(line.script, old(line.calls), results);
      PositiveResultsEnd(Encode(m), results);
    }
  }

  /** How far the loop is: the results are the line's answers since `before`, the loop has ended if
      and only if `towrite` is used up, and otherwise the patience is; the line has accepted what
      the loop handed over. */
  ghost predicate Sending(line: Line, bytes: seq<Byte>, patience: nat, returned: bool, results: seq<int>,
                          before: nat, start: seq<Byte>)
    reads line
  {
    && |results| <= patience && (returned || |results| == patience)
    && (returned <==> After(|bytes|, results).towrite <= 0)
    && line.calls == before + |results| && Scripted(line.script, before, results)
    && Handed(bytes, results, start, line.accepted)
  }

  /** The loop can get `results`, and with them `accepted` has grown from `start`. */
  ghost predicate Handed(bytes: seq<Byte>, results: seq<int>, start: seq<Byte>, accepted: seq<Byte>)
  {
    Possible(|bytes|, results) && accepted == start + Sent(bytes, results)
  }

  lemma HandedMore(bytes: seq<Byte>, results: seq<int>, start: seq<Byte>, accepted: seq<Byte>, l: Loop, done: int)
    requires Handed(bytes, results, start, accepted)
    requires l == After(|bytes|, results) && done <= l.towrite && l.towrite > 0
    ensures Handed(bytes, results + [done], start, accepted + Chunk(bytes, l.data, done))
    ensures After(|bytes|, results + [done]) == Step(l, done)
  {
    OneMore(bytes, results, done);
    Assoc(start, Sent(bytes, results), Chunk(bytes, l.data, done));
  }

  /** The results are answers to the script from call number `before` on. */
  ghost predicate Scripted(script: nat -> int, before: nat, results: seq<int>)
  {
    forall k :: 0 <= k < |results| ==> Answers(script(before + k), results[k])
  }

  lemma ScriptIsPositive(script: nat -> int, before: nat, results: seq<int>)
    requires Scripted(script, before, results) && forall i :: i >= before ==> script(i) > 0
    ensures forall k :: 0 <= k < |results| ==> results[k] > 0
  {
    forall k | 0 <= k < |results|
      ensures results[k] > 0
    {
      assert script(before + k) > 0;
    }
  }

  lemma ScriptedMore(script: nat -> int, before: nat, results: seq<int>, done: int)
    requires Scripted(script, before, results) && Answers(script(before + |results|), done)
    ensures Scripted(script, before, results + [done])
  {
  }

  /** The loop of sendMessage. */
  method SendAll(line: Line, buffer: array<Byte>, patience: nat) returns (returned: bool, ghost results: seq<int>)
    modifies line
    ensures Sending(line, buffer[..], patience, returned, results, old(line.calls), old(line.accepted))
    ensures line.incoming == old(line.incoming)
  {
    results := [];
    ghost var bytes, before, start := buffer[..], line.calls, line.accepted;
    var l, writes := Start(buffer.Length), 0;
    while l.towrite > 0 && writes < patience
      invariant writes == |results| <= patience && buffer[..] == bytes
      invariant l == After(|bytes|, results) && Handed(bytes, results, start, line.accepted)
      invariant line.calls == before + |results| && Scripted(line.script, before, results)
      invariant line.incoming == old(line.incoming)
      decreases patience - writes
    {
      ghost var accepted := line.accepted;
      var done := line.Write(buffer, l.data, l.towrite);
      ScriptedMore(line.script, before, results, done);
      HandedMore(bytes, results, start, accepted, l, done);
      results := results + [done];
      l := Step(l, done);
      writes := writes + 1;
    }
    returned := l.towrite <= 0;
  }
}
