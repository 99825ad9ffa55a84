/** Nothing deadlocks, every run is bounded, and a run that cannot go on has delivered everything. */
module Delivery {
  import opened Bytes
  import opened Carrying
  import opened Codec
  import opened EndToEnd
  import opened MonitorFrames
  import opened StreamDecoder
  import opened Wrappers
  import Q = Monitor

  // ---------------------------------------------------------------- no deadlock

  /** A wake-up that no notification has caused. */
  predicate Spurious(s: System, mv: Move)
    requires Enabled(s, mv)
  {
    mv.Access? && mv.a.Wake? && !s.q.pcs[mv.a.t].notified
  }

  /** The sender closes its end, which it is free to do or not to do. */
  predicate Closes(mv: Move)
  {
    mv.Access? && mv.a.CallDisconnect?
  }

  /** Nothing can happen any more but spurious wake-ups and a disconnect. */
  ghost predicate Stopped(s: System)
  {
    forall mv :: Enabled(s, mv) ==> Spurious(s, mv) || Closes(mv)
  }

  lemma CannotMove(s: System, mv: Move)
    requires Stopped(s) && !Closes(mv)
    ensures Enabled(s, mv) ==> mv.Access? && mv.a.Wake? && !s.q.pcs[mv.a.t].notified
  {
    assert Enabled(s, mv) ==> Spurious(s, mv) || Closes(mv);
  }

  lemma OwnerCanStep(q: Q.State, t: Q.Tid)
    requires Q.MutexOk(q.owner, q.pcs) && q.owner == Some(t)
    ensures Q.Enabled(q, Q.Step(t))
  {
    assert Q.Holds(q.pcs[t]);
  }

  lemma StoppedMutexFree(s: System)
    requires Inv(s) && Stopped(s)
    ensures s.q.owner == None
  {
    if s.q.owner.Some? {
      OwnerCanStep(s.q, s.q.owner.value);
      CannotMove(s, Access(Q.Step(s.q.owner.value)));
    }
  }

  lemma StoppedReceiver(s: System)
    requires Inv(s) && Stopped(s)
    ensures Q.ReaderStuck(s.q.pcs[RECEIVER]) || s.ended
  {
    StoppedMutexFree(s);
    CannotMove(s, Access(Q.CallRead(RECEIVER, Want(s.d), false)));
    CannotMove(s, Access(Q.Collect(RECEIVER)));
    CannotMove(s, Access(Q.Step(RECEIVER)));
    CannotMove(s, Access(Q.Wake(RECEIVER, false)));
  }

  lemma StoppedSenderPc(s: System)
    requires Inv(s) && Stopped(s)
    ensures s.q.pcs[SENDER].Idle? || Q.WriterStuck(s.q.pcs[SENDER])
  {
    StoppedMutexFree(s);
    CannotMove(s, Access(Q.Collect(SENDER)));
    CannotMove(s, Access(Q.Step(SENDER)));
    CannotMove(s, Access(Q.Wake(SENDER, false)));
  }

  /** The sender cannot be asleep, since the receiver is, or has seen the connection lost. */
  lemma StoppedSenderIdle(s: System)
    requires Inv(s) && Stopped(s)
    ensures s.q.pcs[SENDER].Idle?
  {
    StoppedSenderPc(s);
    StoppedReceiver(s);
    assert Q.LoneOk(s.q.contents, s.q.pcs, RECEIVER);
  }

  lemma StoppedSender(s: System)
    requires Inv(s) && Stopped(s)
    ensures s.q.pcs[SENDER].Idle? && s.loop.towrite <= 0 && (s.closed || s.sent == |s.ms|)
  {
    StoppedSenderIdle(s);
    CannotMove(s, Begin);
    CannotMove(s, Access(Q.CallWrite(SENDER, Rest(s.buf, s.loop))));
  }

  lemma StoppedAllTaken(s: System)
    requires Inv(s) && Whole(s.ms) && Stopped(s)
    ensures EncodeAll(s.ms[..s.sent]) == EncodeAll(s.received) + Consumed(s.d)
  {
    StoppedMutexFree(s);
    StoppedReceiver(s);
    StoppedSender(s);
    Conservation(s);
    assert s.q.contents == [];
    NothingLeft(EncodeAll(s.received) + Consumed(s.d));
  }

  /** No deadlock: whenever nothing can happen any more, everything that was handed over has been
      received, and that is everything unless the sender has closed its end. */
  lemma StoppedMeansDelivered(s: System)
    requires Inv(s) && Whole(s.ms) && Stopped(s)
    ensures s.received == s.ms[..s.sent] && s.d == START && (s.closed || s.received == s.ms)
  {
    StoppedAllTaken(s);
    StoppedSender(s);
    ReceivedIsPrefix(s);
    WholeIsEncodable(s.ms);
    AllTaken(s.received, s.ms[..s.sent], s.d);
  }

  // ---------------------------------------------------------------- a bound on the work

  function SenderRank(pc: Q.Pc): nat
  {
    match pc
    case WAsleep(_, notified) => if notified then 3 else 0
    case WWait(_) => 1
    case WWoken(_) => 2
    case WHead(_) => 2
    case WLock(_) => 3
    case Idle => 4
    case Done(_) => 5
    case FNotifyWriters => 5
    case WNotify(_) => 10
    case FNotifyReaders => 10
    case FStore => 11
    case FTest => 12
    case _ => 0
  }

  function ReceiverRank(pc: Q.Pc): nat
  {
    match pc
    case RAsleep(_, _, notified) => if notified then 4 else 0
    case RWait(_, _) => 1
    case RHead(_, _) => 2
    case RWoken(_, _, _) => 3
    case RNotify(_, _) => 6
    case RLock(_, _) => 7
    case Idle => 8
    case Done(Data(_)) => 9
    case _ => 0
  }

  function Ranks(q: Q.State): nat
    requires SENDER in q.pcs && RECEIVER in q.pcs
  {
    SenderRank(q.pcs[SENDER]) + ReceiverRank(q.pcs[RECEIVER])
  }

  /** What is left to do: messages to hand over, bytes to write and to deliver, closing and learning
      of it, and how far each thread is from its next copy. */
  function Work(s: System): int
    requires SENDER in s.q.pcs && RECEIVER in s.q.pcs
  {
    var total := |CarriedAll(s.ms)|;
    |s.ms| - s.sent + 9 * (total - |s.q.written|) + 8 * (total - |s.q.delivered|)
    + (if s.closed then 0 else 9) + (if s.ended then 0 else 9) + Ranks(s.q)
  }

  lemma WorkIsNatural(s: System)
    requires Inv(s)
    ensures Work(s) >= 0
  {
    CarriedPrefix(s.ms, s.sent);
  }

  lemma SenderWorks(s: System, a: Q.Action)
    requires Inv(s) && Enabled(s, Access(a)) && a.t == SENDER
    ensures Next(s, Access(a)).q.pcs.Keys == s.q.pcs.Keys
    ensures Work(Next(s, Access(a))) <= Work(s) + (if Spurious(s, Access(a)) then 3 else -1)
  {
    KeysKept(s.q, a);
    OtherThread(s.q, a, RECEIVER);
    var pc := s.q.pcs[SENDER];
    if a.Step? && (pc.WHead? || pc.WWoken?) {
      SenderCopies(s, a);
      TestTellsNobody(s.q, SENDER, RECEIVER);
    } else if a.Step? {
      SenderStepWorks(s.q, Rest(s.buf, s.loop), s.closed);
    } else {
      SenderTurns(s.q, a);
    }
  }

  /** Calls, wake-ups and collecting a result. */
  lemma SenderTurns(q: Q.State, a: Q.Action)
    requires SENDER in q.pcs && RECEIVER in q.pcs && a.t == SENDER
    requires match a
             case CallWrite(_, _) => q.pcs[SENDER].Idle?
             case CallDisconnect(_) => q.pcs[SENDER].Idle?
             case Collect(_) => q.pcs[SENDER].Done?
             case Wake(_, _) => q.pcs[SENDER].WAsleep?
             case _ => false
    ensures var q' := Q.Next(q, a);
            && SENDER in q'.pcs && RECEIVER in q'.pcs && q'.written == q.written && q'.delivered == q.delivered
            && Ranks(q') <= Ranks(q) + (if a.CallDisconnect? then 8
                                        else if a.Wake? && !q.pcs[SENDER].notified then 2 else -1)
  {
  }

  lemma SenderStepWorks(q: Q.State, rest: seq<Byte>, closed: bool)
    requires SENDER in q.pcs && RECEIVER in q.pcs
    requires SenderPc(q.pcs[SENDER], rest, closed) && Q.CanStep(q, q.pcs[SENDER])
    requires !q.pcs[SENDER].WHead? && !q.pcs[SENDER].WWoken?
    ensures var q' := Q.StepOf(q, SENDER);
            && SENDER in q'.pcs && RECEIVER in q'.pcs
            && q'.written == q.written && q'.delivered == q.delivered && Ranks(q') < Ranks(q)
  {
  }

  lemma ReceiverWorks(s: System, a: Q.Action)
    requires Inv(s) && Enabled(s, Access(a)) && a.t == RECEIVER
    ensures Next(s, Access(a)).q.pcs.Keys == s.q.pcs.Keys
    ensures Work(Next(s, Access(a))) <= Work(s) + (if Spurious(s, Access(a)) then 3 else -1)
  {
    KeysKept(s.q, a);
    if a.Collect? {
      ReceiverCollectWorks(s);
    } else if !a.Step? {
      ReceiverTurns(s.q, a);
    } else if AtTest(s.q.pcs[RECEIVER]) {
      ReceiverTestWorks(s.q, s.d);
    } else {
      ReceiverStepWorks(s.q, s.d);
    }
  }

  lemma ReceiverCollectWorks(s: System)
    requires Inv(s) && Enabled(s, Access(Q.Collect(RECEIVER)))
    ensures var s' := Next(s, Access(Q.Collect(RECEIVER)));
            SENDER in s'.q.pcs && RECEIVER in s'.q.pcs && Work(s') < Work(s)
  {
    var q', result := Q.Next(s.q, Q.Collect(RECEIVER)), s.q.pcs[RECEIVER].result;
    CollectingKeepsRest(s.(q := q'), result);
    EndsOnLoss(s.(q := q'), result);
  }

  lemma EndsOnLoss(s: System, result: Q.Result)
    ensures ReceiverGets(s, result).ended == (s.ended || (result.ConnectionLost?))
  {
  }

  lemma ReceiverTurns(q: Q.State, a: Q.Action)
    requires SENDER in q.pcs && Q.Enabled(q, a) && a.t == RECEIVER
    requires a.CallRead? || (a.Wake? && q.pcs[RECEIVER].RAsleep?)
    ensures var q' := Q.Next(q, a);
            && SENDER in q'.pcs && RECEIVER in q'.pcs && q'.written == q.written && q'.delivered == q.delivered
            && Ranks(q') <= Ranks(q) + (if a.Wake? && !q.pcs[RECEIVER].notified then 3 else -1)
  {
  }

  lemma ReceiverTestWorks(q: Q.State, d: Decoder)
    requires Valid(d) && !d.Complete? && SENDER in q.pcs
    requires RECEIVER in q.pcs && ReceiverPc(q.pcs[RECEIVER], d, false) && AtTest(q.pcs[RECEIVER])
    ensures var q' := Q.StepOf(q, RECEIVER);
            && SENDER in q'.pcs && RECEIVER in q'.pcs && q'.written == q.written
            && Ranks(q') + 8 * |q.delivered| < Ranks(q) + 8 * |q'.delivered|
  {
    ReceiverTests(q, d);
    TestTellsNobody(q, RECEIVER, SENDER);
  }

  lemma ReceiverStepWorks(q: Q.State, d: Decoder)
    requires Valid(d) && !d.Complete? && SENDER in q.pcs
    requires RECEIVER in q.pcs && ReceiverPc(q.pcs[RECEIVER], d, false) && Q.CanStep(q, q.pcs[RECEIVER])
    requires !q.pcs[RECEIVER].RHead? && !q.pcs[RECEIVER].RWoken?
    ensures var q' := Q.StepOf(q, RECEIVER);
            && SENDER in q'.pcs && RECEIVER in q'.pcs
            && q'.written == q.written && q'.delivered == q.delivered && Ranks(q') < Ranks(q)
  {
  }

  /** Every move that is not a spurious wake-up gets something done. */
  lemma EveryMoveWorks(s: System, mv: Move)
    requires Inv(s) && Enabled(s, mv)
    ensures Next(s, mv).q.pcs.Keys == s.q.pcs.Keys
    ensures Work(Next(s, mv)) <= Work(s) + (if Spurious(s, mv) then 3 else -1)
  {
    if mv.Access? {
      if mv.a.t == SENDER { SenderWorks(s, mv.a); } else { ReceiverWorks(s, mv.a); }
    }
  }

  /** The number of spurious wake-ups in a run. */
  function SpuriousCount(s: System, moves: seq<Move>): nat
    requires Runs(s, moves)
    decreases |moves|
  {
    if moves == [] then 0
    else (if Spurious(s, moves[0]) then 1 else 0) + SpuriousCount(Next(s, moves[0]), moves[1..])
  }

  lemma {:induction false} RunWorks(s: System, moves: seq<Move>)
    requires Inv(s) && Runs(s, moves)
    ensures Inv(Exec(s, moves))
    ensures |moves| + Work(Exec(s, moves)) <= Work(s) + 4 * SpuriousCount(s, moves)
    decreases |moves|
  {
    if moves != [] {
      MoveKeepsInv(s, moves[0]);
      EveryMoveWorks(s, moves[0]);
      RunWorks(Next(s, moves[0]), moves[1..]);
    }
  }

  /** Termination and delivery: a run is no longer than a bound fixed by the messages, plus four
      moves for each spurious wake-up in it; and a run that cannot go on, except by spurious
      wake-ups or by closing, has delivered every message handed over, which is every message
      unless the sender has closed its end before. */
  lemma EverythingIsDelivered(size: nat, ms: seq<Message>, moves: seq<Move>)
    requires Fits(size, ms) && Whole(ms) && Runs(Init(size, ms), moves)
    ensures |moves| <= |ms| + 17 * |EncodeAll(ms)| + 30 + 4 * SpuriousCount(Init(size, ms), moves)
    ensures var s := Exec(Init(size, ms), moves);
            Stopped(s) ==> s.sent <= |ms| && s.received == ms[..s.sent] && (s.closed || s.received == ms)
  {
    InitOk(size, ms);
    RunWorks(Init(size, ms), moves);
    WorkIsNatural(Exec(Init(size, ms), moves));
    RunKeepsMessages(Init(size, ms), moves);
    CarriedWhole(ms);
    if Stopped(Exec(Init(size, ms), moves)) {
      StoppedMeansDelivered(Exec(Init(size, ms), moves));
    }
  }

  /** From every state of the system a run without spurious wake-ups leads to its end, and the
      sender need not close its end on the way. */
  lemma {:induction false} Finish(s: System) returns (moves: seq<Move>)
    requires Inv(s)
    ensures Runs(s, moves) && SpuriousCount(s, moves) == 0
    ensures Inv(Exec(s, moves)) && Stopped(Exec(s, moves)) && Exec(s, moves).closed == s.closed
    decreases Work(s)
  {
    if Stopped(s) {
      moves := [];
    } else {
      var mv :| Enabled(s, mv) && !Spurious(s, mv) && !Closes(mv);
      MoveKeepsInv(s, mv);
      EveryMoveWorks(s, mv);
      WorkIsNatural(s);
      OnlyClosingCloses(s, mv);
      var rest := Finish(Next(s, mv));
      moves := [mv] + rest;
      assert moves[1..] == rest;
    }
  }

  lemma OnlyClosingCloses(s: System, mv: Move)
    requires Enabled(s, mv) && !Closes(mv)
    ensures Next(s, mv).closed == s.closed
  {
  }

  // ---------------------------------------------------------------- the condition is exact

  /** If the size of some message does not fit a C int, not all messages are ever received: the bytes
      handed over are too few. */
  lemma CutIsNotReceived(s: System)
    requires Inv(s) && !Whole(s.ms)
    ensures s.received != s.ms
  {
    CarriedPrefix(s.ms, s.sent);
    CarriedLength(s.ms);
    assert |EncodeAll(s.received)| <= |s.q.delivered| <= |s.q.written| <= |CarriedAll(s.ms)|;
  }

  /** All messages can be received if and only if the size of each fits a C int, and a run that cannot
      go on, with the sender's end still open, has received all if and only if that is so. */
  lemma DeliveredIffWhole(size: nat, ms: seq<Message>)
    requires Fits(size, ms)
    ensures (exists moves :: Runs(Init(size, ms), moves) && Exec(Init(size, ms), moves).received == ms) <==> Whole(ms)
    ensures forall moves :: Runs(Init(size, ms), moves) ==> StoppedOpenIffWhole(Exec(Init(size, ms), moves), ms)
  {
    var s0 := Init(size, ms);
    InitOk(size, ms);
    forall moves | Runs(s0, moves)
      ensures StoppedOpenIffWhole(Exec(s0, moves), ms)
      ensures !Whole(ms) ==> Exec(s0, moves).received != ms
    {
      RunKeepsInv(s0, moves);
      RunKeepsMessages(s0, moves);
      AtTheEnd(Exec(s0, moves));
    }
    if Whole(ms) {
      var moves := Finish(s0);
      RunKeepsMessages(s0, moves);
      StoppedMeansDelivered(Exec(s0, moves));
    }
  }

  ghost predicate StoppedOpenIffWhole(s: System, ms: seq<Message>)
  {
    Stopped(s) && !s.closed ==> (s.received == ms <==> Whole(ms))
  }

  lemma AtTheEnd(s: System)
    requires Inv(s)
    ensures StoppedOpenIffWhole(s, s.ms) && (!Whole(s.ms) ==> s.received != s.ms)
  {
    if !Whole(s.ms) {
      CutIsNotReceived(s);
    } else if Stopped(s) {
      StoppedMeansDelivered(s);
    }
  }

  // ---------------------------------------------------------------- the end of the stream is reported

  /** Some run leads from `s` to `e`. */
  ghost predicate Reaches(s: System, e: System)
  {
    exists moves :: Runs(s, moves) && Exec(s, moves) == e
  }

  lemma ReachesLater(s: System, mv: Move, e: System)
    requires Enabled(s, mv) && (e == Next(s, mv) || Reaches(Next(s, mv), e))
    ensures Reaches(s, e)
  {
    if e == Next(s, mv) {
      var none: seq<Move> := [];
      assert Runs(e, none) && Exec(e, none) == e;
    }
    var moves :| Runs(Next(s, mv), moves) && Exec(Next(s, mv), moves) == e;
    assert ([mv] + moves)[1..] == moves;
    assert Runs(s, [mv] + moves);
  }

  lemma {:induction false} ReachesAfter(s: System, moves: seq<Move>, e: System)
    requires Runs(s, moves) && Reaches(Exec(s, moves), e)
    ensures Reaches(s, e)
    decreases |moves|
  {
    if moves != [] {
      ReachesAfter(Next(s, moves[0]), moves[1..], e);
      ReachesLater(s, moves[0], e);
    }
  }

  /** A notified receiver finds the ring empty and the flag cleared, and its call returns the loss. */
  lemma LossEnds(s: System) returns (e: System)
    requires RECEIVER in s.q.pcs && s.q.pcs[RECEIVER].RAsleep? && !s.q.pcs[RECEIVER].timed
    requires s.q.owner == None && s.q.contents == [] && !s.q.connected
    ensures Reaches(s, e) && e.ended && e.received == s.received
  {
    var wake, step := Access(Q.Wake(RECEIVER, false)), Access(Q.Step(RECEIVER));
    var collect := Access(Q.Collect(RECEIVER));
    var s1 := Next(s, wake);
    var s2 := Next(s1, step);
    assert s2.q.pcs[RECEIVER] == Q.Done(Q.ConnectionLost);
    e := Next(s2, collect);
    ReachesLater(s2, collect, e);
    ReachesLater(s1, step, e);
    ReachesLater(s, wake, e);
  }

  /** Where a disconnect is, with the flag cleared and the receiver asleep. */
  ghost predicate Disconnecting(s: System, pc: Q.Pc)
  {
    && s.q.pcs.Keys == {SENDER, RECEIVER} && s.q.pcs[SENDER] == pc
    && s.q.pcs[RECEIVER].RAsleep? && !s.q.pcs[RECEIVER].timed
    && s.q.owner == None && s.q.contents == [] && (pc.FTest? || pc.FStore? || !s.q.connected)
  }

  /** The rest of a disconnect, once the flag is cleared. */
  lemma NotifyingEnds(s: System) returns (e: System)
    requires Disconnecting(s, Q.FNotifyReaders)
    ensures Reaches(s, e) && e.ended && e.received == s.received
  {
    var step := Access(Q.Step(SENDER));
    var s1 := Next(s, step);
    assert Disconnecting(s1, Q.FNotifyWriters);
    var s2 := Next(s1, step);
    assert Disconnecting(s2, Q.Idle);
    e := LossEnds(s2);
    ReachesLater(s1, step, e);
    ReachesLater(s, step, e);
  }

  lemma DisconnectEnds(s: System) returns (e: System)
    requires Disconnecting(s, Q.FTest) && s.q.connected
    ensures Reaches(s, e) && e.ended && e.received == s.received
  {
    var step := Access(Q.Step(SENDER));
    var s1 := Next(s, step);
    assert Disconnecting(s1, Q.FStore);
    var s2 := Next(s1, step);
    assert Disconnecting(s2, Q.FNotifyReaders);
    e := NotifyingEnds(s2);
    ReachesLater(s1, step, e);
    ReachesLater(s, step, e);
  }

  /** The end of the stream can be reported: for any messages that fit there is a run in which all of
      them are received, the sender disconnects, and then the receiver learns of it. */
  lemma EndIsReported(size: nat, ms: seq<Message>) returns (e: System)
    requires Fits(size, ms) && Whole(ms)
    ensures Reaches(Init(size, ms), e) && e.ended && e.received == ms
  {
    var s0 := Init(size, ms);
    InitOk(size, ms);
    var first := Finish(s0);
    var s := Exec(s0, first);
    RunKeepsMessages(s0, first);
    StoppedMeansDelivered(s);
    StoppedMutexFree(s);
    StoppedReceiver(s);
    StoppedSender(s);
    assert !s.ended;
    var call := Access(Q.CallDisconnect(SENDER));
    var s1 := Next(s, call);
    assert Disconnecting(s1, Q.FTest);
    e := DisconnectEnds(s1);
    ReachesLater(s, call, e);
    ReachesAfter(s0, first, e);
  }
}
