/** The loop of sendMessage as it is written: the result of each write goes into an unsigned
    variable, is taken off `towrite`, a C int, and moves the pointer `data`, whatever its sign. */
module SendLoop {
  import opened Bytes
  import opened QueueSections

  const INT_LIMIT: int := 0x8000_0000

  // The error codes a line returns in place of a number of bytes.
  const TIMEOUT: int := -1
  const CONNECTION_LOST: int := -2
  const TOO_BIG_BUFFER: int := -3

  /** `data` is the position of the pointer relative to the start of the buffer. */
  datatype Loop = Loop(data: int, towrite: int)

  /** Conversion to a C int keeps the low 32 bits. */
  function Int32(n: int): (r: int)
    ensures -INT_LIMIT <= r < INT_LIMIT
  {
    var low := n % WORD;
    if low < INT_LIMIT then low else low - WORD
  }

  function Start(size: nat): Loop
  {
    Loop(0, Int32(size))
  }

  function Step(l: Loop, done: int): Loop
  {
    Loop(l.data + done, Int32(l.towrite - done))
  }

  function Init<T>(s: seq<T>): seq<T>
    requires s != []
  {
    s[..|s| - 1]
  }

  function Last<T>(s: seq<T>): T
    requires s != []
  {
    s[|s| - 1]
  }

  /** The loop after the writes have returned `results`. */
  function After(size: nat, results: seq<int>): Loop
    decreases |results|
  {
    if results == [] then Start(size) else Step(After(size, Init(results)), Last(results))
  }

  /** The sum of the results, and the sum of those that are numbers of bytes. */
  function Total(results: seq<int>): int
    decreases |results|
  {
    if results == [] then 0 else Total(Init(results)) + Last(results)
  }

  function Took(results: seq<int>): nat
    decreases |results|
  {
    if results == [] then 0 else Took(Init(results)) + (if Last(results) > 0 then Last(results) else 0)
  }

  // ---------------------------------------------------------------- the state of the loop

  lemma Int32Congruent(a: int, b: int, k: int)
    requires a == b + WORD * k
    ensures Int32(a) == Int32(b)
  {
  }

  lemma Int32Minus(a: int, b: int)
    ensures Int32(Int32(a) - b) == Int32(a - b)
  {
    Int32Congruent(a - b, Int32(a) - b, if a % WORD < INT_LIMIT then a / WORD else a / WORD + 1);
  }

  /** A number is unchanged exactly if it is in the range of a C int. */
  lemma Int32Fits(n: int)
    ensures Int32(n) == n <==> -INT_LIMIT <= n < INT_LIMIT
  {
  }

  lemma Int32Overflows(n: int)
    requires INT_LIMIT <= n < WORD
    ensures Int32(n) < 0
  {
  }

  /** The pointer has moved by the sum of the results and `towrite` is the rest, modulo 2^32. */
  lemma {:induction false} LoopState(size: nat, results: seq<int>)
    ensures After(size, results) == Loop(Total(results), Int32(size - Total(results)))
    decreases |results|
  {
    if results != [] {
      LoopState(size, Init(results));
      Int32Minus(size - Total(Init(results)), Last(results));
    }
  }

  /** Pointer and rest add up to the size exactly while the rest is in the range of a C int, and
      then the loop has ended exactly if the results add up to the size. */
  lemma PointerPlusRest(size: nat, results: seq<int>)
    ensures var l := After(size, results);
            && (l.data + l.towrite == size <==> -INT_LIMIT <= size - Total(results) < INT_LIMIT)
            && (l.data + l.towrite == size ==> (l.towrite <= 0 <==> Total(results) >= size))
  {
    LoopState(size, results);
    Int32Fits(size - Total(results));
  }

  // ---------------------------------------------------------------- what the line has taken

  /** `results` are results the loop can get: it goes on only while `towrite` is positive, and no
      write reports more bytes than it was given. */
  ghost predicate Possible(size: nat, results: seq<int>)
    decreases |results|
  {
    results == [] ||
    (&& Possible(size, Init(results))
     && After(size, Init(results)).towrite > 0 && Last(results) <= After(size, Init(results)).towrite)
  }

  /** The bytes of the range a write has taken. A range that is not in the buffer adds nothing: what
      lies there is not known. */
  function Chunk(bytes: seq<Byte>, data: int, done: int): seq<Byte>
  {
    if 0 <= data && 0 <= done <= |bytes| - data then bytes[data..data + done] else []
  }

  /** The bytes the line has taken. */
  function Sent(bytes: seq<Byte>, results: seq<int>): seq<Byte>
    decreases |results|
  {
    if results == [] then []
    else Sent(bytes, Init(results)) + Chunk(bytes, After(|bytes|, Init(results)).data, Last(results))
  }

  /** One more result. */
  lemma OneMore(bytes: seq<Byte>, results: seq<int>, done: int)
    requires Possible(|bytes|, results)
    ensures var l, more := After(|bytes|, results), results + [done];
            && After(|bytes|, more) == Step(l, done)
            && Sent(bytes, more) == Sent(bytes, results) + Chunk(bytes, l.data, done)
            && (l.towrite > 0 && done <= l.towrite ==> Possible(|bytes|, more))
  {
    assert Init(results + [done]) == results && Last(results + [done]) == done;
  }

  predicate NoNegative(results: seq<int>)
  {
    forall k :: 0 <= k < |results| ==> results[k] >= 0
  }

  /** What the first conversion makes of the size: all of it below 2^31, otherwise less. */
  function Announced(size: nat): (n: nat)
    ensures n <= size && (n == size <==> size < INT_LIMIT)
  {
    if Int32(size) > 0 then Int32(size) else 0
  }

  /** Without errors the pointer stays in the buffer. */
  lemma {:induction false} NoErrorsState(size: nat, results: seq<int>)
    requires Possible(size, results) && NoNegative(results)
    ensures 0 <= Total(results) <= Announced(size)
    ensures Announced(size) > 0 ==> After(size, results) == Loop(Total(results), Announced(size) - Total(results))
    ensures results != [] ==> Announced(size) > 0
    decreases |results|
  {
    if results != [] {
      NoErrorsState(size, Init(results));
      LoopState(size, results);
      Int32Minus(size - Total(Init(results)), Last(results));
      Int32Fits(Announced(size) - Total(results));
    }
  }

  /** Without errors the loop hands over the bytes from the start on, one after another. */
  lemma {:induction false} SentIsPrefix(bytes: seq<Byte>, results: seq<int>)
    requires Possible(|bytes|, results) && NoNegative(results)
    ensures 0 <= Total(results) <= Announced(|bytes|)
    ensures Sent(bytes, results) == bytes[..Total(results)]
    decreases |results|
  {
    NoErrorsState(|bytes|, results);
    if results != [] {
      var front := Init(results);
      SentIsPrefix(bytes, front);
      calc {
        Sent(bytes, results);
        { LoopState(|bytes|, front); }
        bytes[..Total(front)] + Chunk(bytes, Total(front), Last(results));
        { TakeMore(bytes, Total(front), Last(results)); }
        bytes[..Total(results)];
      }
    }
  }

  lemma TakeMore(bytes: seq<Byte>, n: nat, k: nat)
    requires n + k <= |bytes|
    ensures bytes[..n] + bytes[n..n + k] == bytes[..n + k]
  {
  }

  /** A line that never fails and always takes something ends the loop. */
  lemma {:induction false} PositiveResultsEnd(bytes: seq<Byte>, results: seq<int>)
    requires Possible(|bytes|, results) && forall k :: 0 <= k < |results| ==> results[k] > 0
    ensures |results| <= Total(results)
    ensures |results| >= Announced(|bytes|) ==> After(|bytes|, results).towrite <= 0
    ensures After(|bytes|, results).towrite <= 0 ==> Sent(bytes, results) == bytes[..Announced(|bytes|)]
    decreases |results|
  {
    SentIsPrefix(bytes, results);
    NoErrorsState(|bytes|, results);
    if results != [] {
      PositiveResultsEnd(bytes, Init(results));
    }
  }

  /** A message of 2 GiB or more is cut: when the loop has ended without an error, the line has taken
      the size modulo 2^32 bytes of it, or nothing if that is 2^31 or more, and so the whole message
      exactly if its size is below 2^31. */
  lemma WholeIffBelowTwoGigabytes(bytes: seq<Byte>, results: seq<int>)
    requires Possible(|bytes|, results) && NoNegative(results) && After(|bytes|, results).towrite <= 0
    ensures var low := |bytes| % WORD;
            Sent(bytes, results) == bytes[..if low < INT_LIMIT then low else 0]
    ensures Sent(bytes, results) == bytes <==> |bytes| < INT_LIMIT
  {
    SentIsPrefix(bytes, results);
    NoErrorsState(|bytes|, results);
  }

  // ---------------------------------------------------------------- errors among the results

  /** The rest has never left the range of a C int. */
  ghost predicate InRange(size: nat, results: seq<int>)
  {
    forall k :: 0 <= k <= |results| ==> size - Total(results[..k]) < INT_LIMIT
  }

  /** The positions from `data` on, `done` of them if that is a number of bytes. */
  function Block(data: int, done: int): (r: seq<int>)
    ensures |r| == if done > 0 then done else 0
  {
    seq(if done > 0 then done else 0, i => data + i)
  }

  /** Where in the buffer, or before it, the line has taken its bytes, in the order it took them. */
  function Positions(size: nat, results: seq<int>): (r: seq<int>)
    ensures |r| == Took(results)
    decreases |results|
  {
    if results == [] then []
    else Positions(size, Init(results)) + Block(After(size, Init(results)).data, Last(results))
  }

  lemma {:induction false} TookAndTotal(results: seq<int>)
    ensures Took(results) >= Total(results)
    ensures Took(results) == Total(results) <==> NoNegative(results)
    decreases |results|
  {
    if results != [] {
      TookAndTotal(Init(results));
      assert NoNegative(results) <==> NoNegative(Init(results)) && Last(results) >= 0 by {
        NegativeSplit(results);
      }
    }
  }

  lemma NegativeSplit(results: seq<int>)
    requires results != []
    ensures NoNegative(results) <==> NoNegative(Init(results)) && Last(results) >= 0
  {
    if NoNegative(Init(results)) && Last(results) >= 0 {
      forall k | 0 <= k < |results|
        ensures results[k] >= 0
      {
        if k < |results| - 1 { assert results[k] == Init(results)[k]; }
      }
    }
  }

  lemma PrefixesOfInit(results: seq<int>)
    requires results != []
    ensures forall k :: 0 <= k < |results| ==> Init(results)[..k] == results[..k]
    ensures results[..|results|] == results
  {
  }

  /** No result takes the loop past the end of the buffer. */
  lemma {:induction false} NeverPastTheEnd(size: nat, results: seq<int>)
    requires Possible(size, results) && InRange(size, results)
    ensures Total(results) <= size
    decreases |results|
  {
    if results != [] {
      var front := Init(results);
      PrefixesOfInit(results);
      NeverPastTheEnd(size, front);
      PointerPlusRest(size, front);
      LoopState(size, front);
    }
  }

  /** Without errors the positions are those of the buffer, in order. */
  lemma {:induction false} PositionsInOrder(size: nat, results: seq<int>)
    requires Possible(size, results) && NoNegative(results)
    ensures Positions(size, results) == Block(0, Total(results))
    decreases |results|
  {
    if results != [] {
      var front := Init(results);
      NoErrorsState(size, front);
      PositionsInOrder(size, front);
      LoopState(size, front);
      BlocksJoin(Total(front), Last(results));
    }
  }

  lemma BlocksJoin(n: nat, k: nat)
    ensures Block(0, n) + Block(n, k) == Block(0, n + k)
  {
  }

  /** When the loop has ended, the line has taken the message as it is, each byte once and in order,
      exactly if no write has failed: an error moves the pointer back, and then more bytes are taken
      than the message has. */
  lemma WholeIffNoErrors(bytes: seq<Byte>, results: seq<int>)
    requires Possible(|bytes|, results) && InRange(|bytes|, results) && After(|bytes|, results).towrite <= 0
    ensures Positions(|bytes|, results) == Block(0, |bytes|) <==> NoNegative(results)
    ensures NoNegative(results) ==> Sent(bytes, results) == bytes
    ensures !NoNegative(results) ==> Took(results) > |bytes|
  {
    assert results[..|results|] == results;
    NeverPastTheEnd(|bytes|, results);
    PointerPlusRest(|bytes|, results);
    TookAndTotal(results);
    if NoNegative(results) {
      SentIsPrefix(bytes, results);
      PositionsInOrder(|bytes|, results);
    }
  }

  /** Some write has taken bytes although the results before it sum to less than nothing. */
  ghost predicate Astray(results: seq<int>)
  {
    exists k :: 0 <= k < |results| && results[k] > 0 && Total(results[..k]) < 0
  }

  ghost predicate SomeInFront(positions: seq<int>)
  {
    exists i :: 0 <= i < |positions| && positions[i] < 0
  }

  lemma InFrontAppend(a: seq<int>, b: seq<int>)
    ensures SomeInFront(a + b) <==> SomeInFront(a) || SomeInFront(b)
  {
    if SomeInFront(a) {
      var i :| 0 <= i < |a| && a[i] < 0;
      assert (a + b)[i] < 0;
    } else if SomeInFront(b) {
      var i :| 0 <= i < |b| && b[i] < 0;
      assert (a + b)[|a| + i] < 0;
    }
  }

  lemma BlockInFront(data: int, done: int)
    ensures SomeInFront(Block(data, done)) <==> done > 0 && data < 0
  {
    if done > 0 && data < 0 {
      assert Block(data, done)[0] < 0;
    }
  }

  /** The line has taken bytes from in front of the buffer exactly if a write succeeded while the
      results before it summed to less than nothing. */
  lemma {:induction false} InFrontIff(size: nat, results: seq<int>)
    ensures SomeInFront(Positions(size, results)) <==> Astray(results)
    decreases |results|
  {
    if results != [] {
      var front := Init(results);
      InFrontIff(size, front);
      LoopState(size, front);
      InFrontAppend(Positions(size, front), Block(Total(front), Last(results)));
      BlockInFront(Total(front), Last(results));
      AstraySplit(results);
    }
  }

  /** Exactly then it has taken bytes that are no part of the message. */
  lemma {:induction false} StrayIff(bytes: seq<Byte>, results: seq<int>)
    requires Possible(|bytes|, results) && InRange(|bytes|, results)
    ensures |Sent(bytes, results)| <= Took(results)
    ensures |Sent(bytes, results)| < Took(results) <==> Astray(results)
    decreases |results|
  {
    if results != [] {
      var front := Init(results);
      PrefixesOfInit(results);
      StrayIff(bytes, front);
      LoopState(|bytes|, front);
      NeverPastTheEnd(|bytes|, front);
      PointerPlusRest(|bytes|, front);
      ChunkLength(bytes, Total(front), Last(results));
      AstraySplit(results);
    }
  }

  lemma ChunkLength(bytes: seq<Byte>, data: int, done: int)
    requires data + done <= |bytes|
    ensures |Chunk(bytes, data, done)| == if done > 0 && data >= 0 then done else 0
  {
  }

  lemma AstraySplit(results: seq<int>)
    requires results != []
    ensures Astray(results) <==> Astray(Init(results)) || (Last(results) > 0 && Total(Init(results)) < 0)
  {
    PrefixesOfInit(results);
    var front := Init(results);
    if Astray(front) {
      var k :| 0 <= k < |front| && front[k] > 0 && Total(front[..k]) < 0;
      assert results[k] > 0 && Total(results[..k]) < 0;
    }
    if Last(results) > 0 && Total(front) < 0 {
      assert results[|results| - 1] > 0 && results[..|results| - 1] == front;
    }
  }

  /** If the first results that are not zero are errors, the first byte taken lies in front of the
      buffer. */
  lemma ErrorsFirst(size: nat, results: seq<int>, k: nat)
    requires k < |results| && results[k] > 0 && Took(results[..k]) == 0 && !NoNegative(results[..k])
    ensures Astray(results)
    ensures Positions(size, results[..k + 1])[0] == Total(results[..k]) < 0
  {
    var front, upto := results[..k], results[..k + 1];
    assert Init(upto) == front && Last(upto) == results[k];
    TookAndTotal(front);
    LoopState(size, front);
  }

  /** How that comes about: the ring is full and disconnected, so the first write reports the loss of
      the connection; a reader drains the ring; and the second write, two bytes longer than the
      message, starts two bytes in front of the buffer. It is accepted whole and ends the loop if it
      fits the ring, and refused otherwise. */
  lemma LostThenStray(ring: nat, size: nat, full: seq<Byte>, connected: bool)
    requires 0 < size < ring && |full| == ring - 1 && size + 2 < INT_LIMIT
    ensures WriteHead(ring, full, false, size) == WriteLost
    ensures var l := After(size, [CONNECTION_LOST]);
            && l == Loop(-2, size + 2)
            && WriteHead(ring, [], connected, l.towrite) == (if size + 2 < ring then Accept(size + 2) else Refuse)
    ensures var results := [CONNECTION_LOST, size + 2];
            && After(size, results) == Loop(size, 0)
            && Positions(size, results) == Block(-2, size + 2)
  {
    var first, both := [CONNECTION_LOST], [CONNECTION_LOST, size + 2];
    assert Init(first) == [] && Init(both) == first;
    assert Total(first) == -2 && Total(both) == size;
    LoopState(size, first);
    LoopState(size, both);
    Int32Fits(size + 2);
    Int32Fits(0);
    assert Positions(size, first) == [];
  }

  // ---------------------------------------------------------------- a message the queue refuses

  /** The results of `n` writes that are all refused. */
  function Refusals(n: nat): (results: seq<int>)
    ensures |results| == n
  {
    seq(n, _ => TOO_BIG_BUFFER)
  }

  lemma {:induction false} RefusalsTotal(n: nat)
    ensures Total(Refusals(n)) == -3 * n
    decreases n
  {
    if n > 0 {
      RefusalsTotal(n - 1);
      assert Init(Refusals(n)) == Refusals(n - 1);
    }
  }

  lemma AfterRefusals(size: nat, n: nat)
    ensures After(size, Refusals(n)) == Loop(-3 * n, Int32(size + 3 * n))
  {
    LoopState(size, Refusals(n));
    RefusalsTotal(n);
  }

  /** A message at least as long as the ring: after `n` refused writes the pointer is 3n bytes in
      front of the buffer, 3n bytes more are asked for than the message has, and the queue refuses
      the next write too, whatever it holds and whether it is connected or not. */
  lemma RefusedAgain(ring: nat, size: nat, n: nat, contents: seq<Byte>, connected: bool)
    requires ring <= size && 0 < size && size + 3 * n < INT_LIMIT
    ensures var l := After(size, Refusals(n));
            && l == Loop(-3 * n, size + 3 * n)
            && l.towrite > 0 && WriteHead(ring, contents, connected, l.towrite).Refuse?
  {
    AfterRefusals(size, n);
    Int32Fits(size + 3 * n);
  }

  /** The number of refusals after which `towrite` overflows. */
  function Overflow(size: nat): (n: nat)
    requires size < INT_LIMIT
    ensures n > 0 && size + 3 * (n - 1) < INT_LIMIT <= size + 3 * n
  {
    (INT_LIMIT - size + 2) / 3
  }

  lemma RefusedState(size: nat, n: nat)
    requires 0 < size < INT_LIMIT && n <= Overflow(size)
    ensures Int32(size + 3 * n) <= 0 <==> n == Overflow(size)
  {
    if n < Overflow(size) {
      Int32Fits(size + 3 * n);
    } else {
      Int32Overflows(size + 3 * n);
    }
  }

  /** So the loop goes on until the C int overflows, and then sendMessage returns as if all was
      well, although no byte has been written. */
  lemma RefusedUntilOverflow(bytes: seq<Byte>, n: nat)
    requires 0 < |bytes| < INT_LIMIT && n <= Overflow(|bytes|)
    ensures After(|bytes|, Refusals(n)).towrite <= 0 <==> n == Overflow(|bytes|)
    ensures Sent(bytes, Refusals(n)) == []
  {
    NothingSent(bytes, n);
    AfterRefusals(|bytes|, n);
    RefusedState(|bytes|, n);
  }

  lemma {:induction false} NothingSent(bytes: seq<Byte>, n: nat)
    ensures Sent(bytes, Refusals(n)) == []
    decreases n
  {
    if n > 0 {
      NothingSent(bytes, n - 1);
      assert Init(Refusals(n)) == Refusals(n - 1);
    }
  }
}
