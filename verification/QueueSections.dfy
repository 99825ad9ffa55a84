/** The blocking queue between two points where its mutex changes hands: what one stretch of
    DataQueue::read, readWithTimeout or write decides from the ring and the connection flag. */
module QueueSections {
  import opened Bytes

  /** What a reader does at a test: copy bytes out, report a lost connection or a timeout, or
      sleep; `Retest` sends it back to the test at the head of its loop. */
  datatype ReadMove = Deliver(count: nat) | ReadLost | ReadTimeout | ReadSleep | Retest

  /** What a writer does at a test: copy bytes in, refuse an oversized buffer, report a lost
      connection, or sleep. */
  datatype WriteMove = Accept(count: nat) | Refuse | WriteLost | WriteSleep

  /** The head of the loop of read, and the single test of readWithTimeout. */
  function ReadHead(contents: seq<Byte>, connected: bool, n: nat): (move: ReadMove)
    ensures move.Deliver? <==> contents != []
    ensures move.ReadLost? <==> contents == [] && !connected
    ensures move.ReadSleep? <==> contents == [] && connected
    ensures move.Deliver? ==> move.count <= n && move.count <= |contents|
    ensures move.Deliver? ==> move.count == n || move.count == |contents|
  {
    if contents == [] then (if !connected then ReadLost else ReadSleep)
    else Deliver(Min(n, |contents|))
  }

  /** After waking: read re-tests the flag; readWithTimeout evaluates its predicate and, if time
      is up, the flag. */
  function ReadWoken(contents: seq<Byte>, connected: bool, timed: bool, expired: bool): (move: ReadMove)
    ensures move.Retest? <==> contents != [] || (!timed && connected)
    ensures move.ReadSleep? <==> contents == [] && timed && !expired
    ensures move.ReadTimeout? <==> contents == [] && timed && expired && connected
    ensures move.ReadLost? <==> contents == [] && !connected && (timed ==> expired)
  {
    if contents != [] then Retest
    else if !timed then (if !connected then ReadLost else Retest)
    else if !expired then ReadSleep
    else if !connected then ReadLost
    else ReadTimeout
  }

  /** The tests of write before it waits. `size` is the size of the ring, one more than it holds. */
  function WriteHead(size: nat, contents: seq<Byte>, connected: bool, len: nat): (move: WriteMove)
    ensures move.Refuse? <==> len >= size
    ensures move.Accept? <==> len < size && |contents| < size - 1
    ensures move.WriteSleep? <==> len < size && |contents| >= size - 1 && connected
    ensures move.WriteLost? <==> len < size && |contents| >= size - 1 && !connected
    ensures move.Accept? ==> |contents| + move.count < size && move.count <= len
    ensures move.Accept? ==> move.count == len || |contents| + move.count == size - 1
  {
    if len >= size then Refuse
    else if |contents| >= size - 1 then (if !connected then WriteLost else WriteSleep)
    else Accept(Min(len, size - 1 - |contents|))
  }

  /** The wait predicate of write, which looks at the space alone. */
  function WriteWoken(size: nat, contents: seq<Byte>, len: nat): (move: WriteMove)
    ensures move.WriteSleep? <==> |contents| >= size - 1
    ensures move.WriteSleep? || move.Accept?
    ensures move.Accept? ==> |contents| + move.count < size && move.count <= len
    ensures move.Accept? ==> move.count == len || |contents| + move.count == size - 1
  {
    if |contents| >= size - 1 then WriteSleep else Accept(Min(len, size - 1 - |contents|))
  }
}
