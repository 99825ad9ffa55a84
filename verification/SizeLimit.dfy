/** The limit on the size of a message: when sending fails, and what sendMessage's loop then does. */
module SizeLimit {
  import opened Bytes
  import opened Carrying
  import opened Codec
  import opened Delivery
  import opened EndToEnd
  import opened MonitorFrames
  import opened Wrappers
  import L = SendLoop
  import Q = Monitor

  // ---------------------------------------------------------------- when a call can fail

  /** More messages behind those in a run do not change it. */
  lemma WiderMove(s: System, ms: seq<Message>, mv: Move)
    requires s.ms <= ms && Enabled(s, mv)
    ensures Enabled(s.(ms := ms), mv)
    ensures Next(s.(ms := ms), mv) == Next(s, mv).(ms := ms)
    ensures Next(s, mv).ms == s.ms
  {
    if mv.Access? && mv.a.Collect? {
      WiderCollect(s.(q := Q.Next(s.q, mv.a)), ms, s.q.pcs[mv.a.t].result);
    }
  }

  lemma WiderCollect(s: System, ms: seq<Message>, result: Q.Result)
    ensures SenderGets(s.(ms := ms), result) == SenderGets(s, result).(ms := ms)
    ensures ReceiverGets(s.(ms := ms), result) == ReceiverGets(s, result).(ms := ms)
    ensures SenderGets(s, result).ms == ReceiverGets(s, result).ms == s.ms
  {
  }

  lemma {:induction false} WiderRun(s: System, ms: seq<Message>, moves: seq<Move>)
    requires s.ms <= ms && Runs(s, moves)
    ensures Runs(s.(ms := ms), moves) && Exec(s.(ms := ms), moves) == Exec(s, moves).(ms := ms)
    decreases |moves|
  {
    if moves != [] {
      WiderMove(s, ms, moves[0]);
      WiderRun(Next(s, moves[0]), ms, moves[1..]);
    }
  }

  /** Some run ends in failure. */
  ghost predicate CanFail(s: System)
  {
    exists e :: Reaches(s, e) && e.failed
  }

  /** A write as long as the ring or longer is refused. */
  lemma RefusedWriteFails(s: System, bytes: seq<Byte>) returns (e: System)
    requires SENDER in s.q.pcs && s.q.pcs[SENDER] == Q.WLock(bytes) && s.q.owner == None && |bytes| >= s.q.size
    ensures Reaches(s, e) && e.failed
  {
    var step, collect := Access(Q.Step(SENDER)), Access(Q.Collect(SENDER));
    var s1 := Next(s, step);
    assert s1.q.pcs[SENDER] == Q.WHead(bytes);
    var s2 := Next(s1, step);
    assert s2.q.pcs[SENDER] == Q.Done(Q.TooBigBuffer);
    e := Next(s2, collect);
    ReachesLater(s2, collect, e);
    ReachesLater(s1, step, e);
    ReachesLater(s, step, e);
  }

  lemma TooLongFails(s: System) returns (e: System)
    requires SENDER in s.q.pcs && Enabled(s, Begin) && s.q.owner == None && s.q.size > 0
    requires L.Announced(SizeOf(s.ms[s.sent])) >= s.q.size
    ensures Reaches(s, e) && e.failed
  {
    var s1 := Next(s, Begin);
    var bytes := Carried(s.ms[s.sent]);
    StartsWithCarried(s.ms[s.sent]);
    assert PointsAt(s1.buf, s1.loop, bytes);
    var call := Access(Q.CallWrite(SENDER, bytes));
    var s2 := Next(s1, call);
    e := RefusedWriteFails(s2, bytes);
    ReachesLater(s1, call, e);
    ReachesLater(s, Begin, e);
  }

  /** Messages before the one that is too long get through. */
  lemma FirstTooLongFails(size: nat, ms: seq<Message>, j: nat)
    requires 2 <= size && j < |ms| && L.Announced(SizeOf(ms[j])) >= size && Fits(size, ms[..j])
    ensures CanFail(Init(size, ms))
  {
    var s0 := Init(size, ms[..j]);
    InitOk(size, ms[..j]);
    var moves := Finish(s0);
    var s := Exec(s0, moves);
    RunKeepsMessages(s0, moves);
    StoppedMutexFree(s);
    StoppedSender(s);
    WiderRun(s0, ms, moves);
    var e := TooLongFails(s.(ms := ms));
    ReachesAfter(Init(size, ms), moves, e);
  }

  lemma {:induction false} FirstTooLong(size: nat, ms: seq<Message>) returns (j: nat)
    requires 2 <= size && !Fits(size, ms)
    ensures j < |ms| && L.Announced(SizeOf(ms[j])) >= size && Fits(size, ms[..j])
  {
    var last := |ms| - 1;
    if Fits(size, ms[..last]) {
      j := last;
    } else {
      j := FirstTooLong(size, ms[..last]);
      assert ms[..last][..j] == ms[..j];
    }
  }

  lemma {:induction false} NoFailure(size: nat, ms: seq<Message>, moves: seq<Move>)
    requires Fits(size, ms) && Runs(Init(size, ms), moves)
    ensures !Exec(Init(size, ms), moves).failed
  {
    InitOk(size, ms);
    RunKeepsInv(Init(size, ms), moves);
  }

  /** The condition is exact, for all messages: on a connected line a call can fail if and only if
      sendMessage announces as many bytes as the ring has cells, or more. */
  lemma FailsIffTooLong(size: nat, ms: seq<Message>)
    requires 2 <= size
    ensures CanFail(Init(size, ms)) <==> exists i :: 0 <= i < |ms| && L.Announced(SizeOf(ms[i])) >= size
  {
    if Fits(size, ms) {
      forall e | Reaches(Init(size, ms), e)
        ensures !e.failed
      {
        var moves :| Runs(Init(size, ms), moves) && Exec(Init(size, ms), moves) == e;
        NoFailure(size, ms, moves);
      }
    } else {
      var j := FirstTooLong(size, ms);
      FirstTooLongFails(size, ms, j);
    }
  }

  // ---------------------------------------------------------------- what the loop does with the refusal

  /** Where the sender can be while every write is refused. */
  ghost predicate RefusedPc(pc: Q.Pc, towrite: int)
  {
    match pc
    case Idle => true
    case WLock(bytes) => |bytes| == towrite
    case WHead(bytes) => |bytes| == towrite
    case Done(TooBigBuffer) => true
    case _ => false
  }

  /** Nobody but the sender writes. */
  ghost predicate OnlySenderWrites(pcs: map<Q.Tid, Q.Pc>)
  {
    forall t :: t in pcs && t != SENDER ==> !Q.Writing(pcs[t])
  }

  /** `n` writes of a message that announces `size` bytes have been refused, and the loop goes on. */
  ghost predicate Refused(s: System, size: nat, n: nat)
  {
    && SENDER in s.q.pcs && OnlySenderWrites(s.q.pcs) && 0 < size && s.q.size <= size
    && size + 3 * n < L.INT_LIMIT && s.loop == L.Loop(-3 * n, size + 3 * n)
    && RefusedPc(s.q.pcs[SENDER], s.loop.towrite)
  }

  /** The sender takes the result of a write. */
  predicate SenderCollects(mv: Move)
  {
    mv == Access(Q.Collect(SENDER))
  }

  function CollectCount(moves: seq<Move>): nat
  {
    if moves == [] then 0 else (if SenderCollects(moves[0]) then 1 else 0) + CollectCount(moves[1..])
  }

  lemma OthersKept(q: Q.State, a: Q.Action)
    requires Q.Enabled(q, a) && OnlySenderWrites(q.pcs) && (a.CallWrite? ==> a.t == SENDER)
    ensures OnlySenderWrites(Q.Next(q, a).pcs)
    ensures a.t != SENDER ==> Q.Next(q, a).written == q.written
  {
    KeysKept(q, a);
    if a.t != SENDER { ReaderStaysReader(q, a); }
    forall t | t in Q.Next(q, a).pcs && t != SENDER
      ensures !Q.Writing(Q.Next(q, a).pcs[t])
    {
      if t != a.t { OtherThread(q, a, t); }
    }
  }

  lemma ReaderStaysReader(q: Q.State, a: Q.Action)
    requires Q.Enabled(q, a) && !Q.Writing(q.pcs[a.t]) && !a.CallWrite?
    ensures Q.Next(q, a).written == q.written
    ensures a.t in Q.Next(q, a).pcs && !Q.Writing(Q.Next(q, a).pcs[a.t])
  {
  }

  /** The sender's own accesses lead to the next refusal. */
  lemma RefusedStep(q: Q.State, size: nat)
    requires SENDER in q.pcs && RefusedPc(q.pcs[SENDER], size) && q.size <= size && Q.CanStep(q, q.pcs[SENDER])
    ensures var q' := Q.StepOf(q, SENDER);
            SENDER in q'.pcs && RefusedPc(q'.pcs[SENDER], size) && q'.written == q.written && q'.size == q.size
  {
  }

  /** As long as `towrite` does not overflow, every move keeps the sender in its loop with nothing
      written; only the result of a write moves the pointer, three bytes back. */
  lemma RefusedMove(s: System, size: nat, n: nat, mv: Move)
    requires Refused(s, size, n) && Enabled(s, mv) && (SenderCollects(mv) ==> size + 3 * (n + 1) < L.INT_LIMIT)
    ensures Refused(Next(s, mv), size, if SenderCollects(mv) then n + 1 else n)
    ensures Next(s, mv).q.written == s.q.written && Next(s, mv).sent == s.sent
  {
    MoveKeepsMessages(s, mv);
    OthersKept(s.q, mv.a);
    if mv.a.t != SENDER {
      OtherThread(s.q, mv.a, SENDER);
      OthersKeepLoop(s, mv.a);
    } else if mv.a.Step? {
      RefusedStep(s.q, s.loop.towrite);
    } else if mv.a.Collect? {
      L.Int32Fits(size + 3 * (n + 1));
    }
  }

  lemma OthersKeepLoop(s: System, a: Q.Action)
    requires Enabled(s, Access(a)) && a.t != SENDER
    ensures Next(s, Access(a)).loop == s.loop && Next(s, Access(a)).sent == s.sent
    ensures Next(s, Access(a)).q == Q.Next(s.q, a)
  {
  }

  lemma {:induction false} RefusedRun(s: System, size: nat, n: nat, moves: seq<Move>)
    requires Refused(s, size, n) && Runs(s, moves) && size + 3 * (n + CollectCount(moves)) < L.INT_LIMIT
    ensures Refused(Exec(s, moves), size, n + CollectCount(moves))
    ensures Exec(s, moves).q.written == s.q.written && Exec(s, moves).sent == s.sent
    decreases |moves|
  {
    if moves != [] {
      RefusedMove(s, size, n, moves[0]);
      RefusedRun(Next(s, moves[0]), size, if SenderCollects(moves[0]) then n + 1 else n, moves[1..]);
    }
  }

  lemma MoveKeepsOthers(s: System, mv: Move)
    requires Enabled(s, mv) && OnlySenderWrites(s.q.pcs)
    ensures OnlySenderWrites(Next(s, mv).q.pcs)
  {
    if mv.Access? {
      OthersKept(s.q, mv.a);
      MoveKeepsMessages(s, mv);
    }
  }

  lemma {:induction false} RunKeepsOthers(s: System, moves: seq<Move>)
    requires Runs(s, moves) && OnlySenderWrites(s.q.pcs)
    ensures OnlySenderWrites(Exec(s, moves).q.pcs)
    decreases |moves|
  {
    if moves != [] {
      MoveKeepsOthers(s, moves[0]);
      RunKeepsOthers(Next(s, moves[0]), moves[1..]);
    }
  }

  lemma RefusedAtFirst(s: System)
    requires Enabled(s, Begin) && OnlySenderWrites(s.q.pcs) && 0 < s.q.size <= L.Announced(SizeOf(s.ms[s.sent]))
    ensures Refused(Next(s, Begin), L.Announced(SizeOf(s.ms[s.sent])), 0)
  {
  }

  /** In any run that hands over a message the queue refuses: until `towrite` overflows, however
      long the run goes on, each collected result is a refusal that moves the pointer three bytes in
      front of the buffer and adds three bytes to what is asked for. Not a byte is written, and
      sendMessage does not return. */
  lemma OversizedSendsNothing(size: nat, ms: seq<Message>, before: seq<Move>, after: seq<Move>)
    requires size > 0 && Runs(Init(size, ms), before)
    requires var s := Exec(Init(size, ms), before);
             && Enabled(s, Begin) && s.sent < |ms| && L.Announced(SizeOf(ms[s.sent])) >= size
             && Runs(Next(s, Begin), after)
             && L.Announced(SizeOf(ms[s.sent])) + 3 * CollectCount(after) < L.INT_LIMIT
    ensures var s := Exec(Init(size, ms), before);
            var s' := Exec(Next(s, Begin), after);
            var n, asked := CollectCount(after), L.Announced(SizeOf(ms[s.sent]));
            && s'.loop == L.Loop(-3 * n, asked + 3 * n)
            && s'.q.written == s.q.written && s'.sent == s.sent + 1
  {
    var s := Exec(Init(size, ms), before);
    RunKeepsMessages(Init(size, ms), before);
    RunKeepsOthers(Init(size, ms), before);
    RefusedAtFirst(s);
    RefusedRun(Next(s, Begin), L.Announced(SizeOf(ms[s.sent])), 0, after);
  }

  // ---------------------------------------------------------------- and how the loop ends

  /** Some bytes the loop's pointer may be at. */
  function Behind(buf: seq<Byte>, l: L.Loop): (bytes: seq<Byte>)
    requires l.towrite >= 0
    ensures PointsAt(buf, l, bytes)
  {
    if 0 <= l.data && l.towrite <= |buf| - l.data then L.Chunk(buf, l.data, l.towrite) else seq(l.towrite, _ => 0)
  }

  /** With the mutex free, a call and two steps bring the sender to the next refusal, and the run can
      go on from there. */
  lemma NextRefusal(s: System, size: nat, n: nat) returns (s3: System)
    requires Refused(s, size, n) && s.q.pcs[SENDER].Idle? && s.q.owner == None
    ensures SENDER in s3.q.pcs && s3.q.pcs[SENDER] == Q.Done(Q.TooBigBuffer) && s3.q.owner == None
    ensures Refused(s3, size, n) && s3.q.written == s.q.written && s3.sent == s.sent
    ensures forall e :: Reaches(s3, e) ==> Reaches(s, e)
  {
    var call := Access(Q.CallWrite(SENDER, Behind(s.buf, s.loop)));
    var step := Access(Q.Step(SENDER));
    RefusedMove(s, size, n, call);
    var s1 := Next(s, call);
    RefusedMove(s1, size, n, step);
    var s2 := Next(s1, step);
    RefusedMove(s2, size, n, step);
    s3 := Next(s2, step);
    forall e | Reaches(s3, e)
      ensures Reaches(s, e)
    {
      ReachesLater(s2, step, e);
      ReachesLater(s1, step, e);
      ReachesLater(s, call, e);
    }
  }

  lemma {:induction false} RefusedToTheEnd(s: System, size: nat, n: nat) returns (e: System)
    requires Refused(s, size, n) && s.q.pcs[SENDER].Idle? && s.q.owner == None
    ensures Reaches(s, e) && SENDER in e.q.pcs && e.q.pcs[SENDER].Idle? && e.loop.towrite <= 0
    ensures e.q.written == s.q.written && e.sent == s.sent
    decreases L.INT_LIMIT - 3 * n
  {
    var collect := Access(Q.Collect(SENDER));
    var s1 := NextRefusal(s, size, n);
    var s2 := Next(s1, collect);
    assert s2.loop == L.Loop(-3 * (n + 1), L.Int32(size + 3 * (n + 1)));
    if size + 3 * (n + 1) < L.INT_LIMIT {
      RefusedMove(s1, size, n, collect);
      e := RefusedToTheEnd(s2, size, n + 1);
    } else {
      L.Int32Overflows(size + 3 * (n + 1));
      e := s2;
    }
    ReachesLater(s1, collect, e);
  }

  /** The overflow is reached: some run ends the loop, so that sendMessage returns 1, although not a
      byte of the message has been written. */
  lemma OversizedReturnsUnsent(s: System) returns (e: System)
    requires Enabled(s, Begin) && s.q.owner == None && OnlySenderWrites(s.q.pcs)
    requires 0 < s.q.size <= L.Announced(SizeOf(s.ms[s.sent]))
    ensures Reaches(Next(s, Begin), e) && SENDER in e.q.pcs && e.q.pcs[SENDER].Idle? && e.loop.towrite <= 0
    ensures e.q.written == s.q.written && e.sent == s.sent + 1
  {
    RefusedAtFirst(s);
    e := RefusedToTheEnd(Next(s, Begin), L.Announced(SizeOf(s.ms[s.sent])), 0);
  }
}
