/** One thread sends messages with sendMessage and may then close its end; another receives with
    readMessage, over one direction of a connected in-process line without a receive timeout. The
    threads interleave access by access, as the monitor of the queue lets them. */
module EndToEnd {
  import opened Bytes
  import opened Carrying
  import opened Codec
  import opened MonitorFrames
  import opened StreamDecoder
  import L = SendLoop
  import Q = Monitor

  const SENDER: Q.Tid := 0
  const RECEIVER: Q.Tid := 1

  /** `sent` messages have been handed to sendMessage; `buf` and `loop` are the buffer and the loop
      of the last one, and `closed` says that the sender has begun to disconnect. `received` are
      the messages readMessage has returned, `d` is how far the current call is, and `ended` says
      that a call has reported the loss of the connection. `failed` records any other error. */
  datatype System = System(
    q: Q.State, ms: seq<Message>, sent: nat, buf: seq<Byte>, loop: L.Loop, closed: bool,
    received: seq<Message>, d: Decoder, ended: bool, failed: bool)

  /** `Begin` is the call of sendMessage for the next message; all other moves are accesses to the
      queue and the collection of a result. */
  datatype Move = Begin | Access(a: Q.Action)

  // ---------------------------------------------------------------- the two programs

  /** The actions the two threads' programs allow: the sender writes while its loop lasts and may
      disconnect between messages, the receiver reads until the connection is lost. */
  predicate Follows(s: System, a: Q.Action)
  {
    match a
    case CallRead(t, n, timed) =>
      t == RECEIVER && !timed && !s.ended && Valid(s.d) && !s.d.Complete? && n == Want(s.d)
    case CallWrite(t, bytes) => t == SENDER && s.loop.towrite > 0 && PointsAt(s.buf, s.loop, bytes)
    case CallDisconnect(t) => t == SENDER && s.loop.towrite <= 0 && !s.closed
    case Connect(_) => false
    case Step(_) => true
    case Wake(_, expired) => !expired
    case Collect(_) => true
  }

  predicate Enabled(s: System, mv: Move)
  {
    match mv
    case Begin => SENDER in s.q.pcs && s.q.pcs[SENDER].Idle? && s.loop.towrite <= 0 && !s.closed && s.sent < |s.ms|
    case Access(a) => Q.Enabled(s.q, a) && Follows(s, a)
  }

  /** The value a call returns. */
  function Code(result: Q.Result): int
  {
    match result
    case Data(bytes) => |bytes|
    case Wrote(k) => k
    case ConnectionLost => L.CONNECTION_LOST
    case Timeout => L.TIMEOUT
    case TooBigBuffer => L.TOO_BIG_BUFFER
  }

  /** The sender's loop takes whatever is returned for a number of bytes. */
  function SenderGets(s: System, result: Q.Result): System
  {
    s.(loop := L.Step(s.loop, Code(result)), failed := s.failed || Code(result) < 0)
  }

  /** The receiver's loop stores the chunk; a completed message is returned and the next call
      starts afresh. */
  function ReceiverGets(s: System, result: Q.Result): System
  {
    if result.Data? && Valid(s.d) && !s.d.Complete? && 0 < |result.bytes| <= Want(s.d) then
      var d := Feed(s.d, result.bytes);
      if d.Complete? then s.(received := s.received + [d.m], d := START) else s.(d := d)
    else if result.ConnectionLost? then s.(ended := true)
    else s.(failed := true)
  }

  function Next(s: System, mv: Move): System
    requires Enabled(s, mv)
  {
    match mv
    case Begin =>
      var m := s.ms[s.sent];
      s.(buf := Encode(m), loop := L.Start(SizeOf(m)), sent := s.sent + 1)
    case Access(a) =>
      var s' := s.(q := Q.Next(s.q, a));
      if a.CallDisconnect? then s'.(closed := true)
      else if !a.Collect? then s'
      else if a.t == SENDER then SenderGets(s', s.q.pcs[a.t].result)
      else ReceiverGets(s', s.q.pcs[a.t].result)
  }

  function Init(size: nat, ms: seq<Message>): System
  {
    System(Q.Init(size, {SENDER, RECEIVER}).(connected := true),
           ms, 0, [], L.Loop(0, 0), false, [], START, false, false)
  }

  predicate Runs(s: System, moves: seq<Move>)
    decreases |moves|
  {
    moves == [] || (Enabled(s, moves[0]) && Runs(Next(s, moves[0]), moves[1..]))
  }

  function Exec(s: System, moves: seq<Move>): System
    requires Runs(s, moves)
    decreases |moves|
  {
    if moves == [] then s else Exec(Next(s, moves[0]), moves[1..])
  }

  // ---------------------------------------------------------------- the invariant

  /** The sender's bytes that have not entered the ring yet. */
  function Pending(pc: Q.Pc, rest: seq<Byte>): seq<Byte>
  {
    match pc
    case WNotify(k) => if k <= |rest| then rest[k..] else []
    case Done(Wrote(k)) => if k <= |rest| then rest[k..] else []
    case _ => rest
  }

  /** The receiver's bytes that have left the ring but not reached the decoder yet. */
  function Arriving(pc: Q.Pc): seq<Byte>
  {
    match pc
    case Done(Data(bytes)) => bytes
    case _ => []
  }

  ghost predicate SenderPc(pc: Q.Pc, rest: seq<Byte>, closed: bool)
  {
    match pc
    case Idle => closed ==> rest == []
    case Done(Wrote(k)) => 0 < k <= |rest| && !closed
    case WLock(bytes) => bytes == rest && rest != [] && !closed
    case WHead(bytes) => bytes == rest && rest != [] && !closed
    case WWait(bytes) => bytes == rest && rest != [] && !closed
    case WAsleep(bytes, _) => bytes == rest && rest != [] && !closed
    case WWoken(bytes) => bytes == rest && rest != [] && !closed
    case WNotify(k) => 0 < k <= |rest| && !closed
    case FTest => rest == [] && closed
    case FStore => rest == [] && closed
    case FNotifyReaders => rest == [] && closed
    case FNotifyWriters => rest == [] && closed
    case _ => false
  }

  ghost predicate ReceiverPc(pc: Q.Pc, d: Decoder, ended: bool)
    requires Valid(d) && !d.Complete?
  {
    match pc
    case Idle => true
    case Done(Data(bytes)) => 0 < |bytes| <= Want(d) && !ended
    case Done(ConnectionLost) => !ended
    case RLock(n, timed) => n == Want(d) && !timed && !ended
    case RNotify(n, timed) => n == Want(d) && !timed && !ended
    case RHead(n, timed) => n == Want(d) && !timed && !ended
    case RWait(n, timed) => n == Want(d) && !timed && !ended
    case RAsleep(n, timed, _) => n == Want(d) && !timed && !ended
    case RWoken(n, timed, expired) => n == Want(d) && !timed && !expired && !ended
    case _ => false
  }

  ghost predicate SenderOk(s: System)
    requires SENDER in s.q.pcs
  {
    && s.sent <= |s.ms| && LoopOk(s.buf, s.loop) && |Rest(s.buf, s.loop)| < s.q.size
    && SenderPc(s.q.pcs[SENDER], Rest(s.buf, s.loop), s.closed)
    && s.q.written + Pending(s.q.pcs[SENDER], Rest(s.buf, s.loop)) == CarriedAll(s.ms[..s.sent])
  }

  ghost predicate ReceiverOk(s: System)
    requires RECEIVER in s.q.pcs
  {
    && Valid(s.d) && !s.d.Complete? && AllEncodable(s.received)
    && ReceiverPc(s.q.pcs[RECEIVER], s.d, s.ended)
    && s.q.delivered == EncodeAll(s.received) + Consumed(s.d) + Arriving(s.q.pcs[RECEIVER])
  }

  /** The flag is cleared by the sender only, and the receiver learns of it when the ring is empty. */
  ghost predicate ClosingOk(s: System)
    requires RECEIVER in s.q.pcs
  {
    && (!s.q.connected ==> s.closed)
    && (s.ended || s.q.pcs[RECEIVER] == Q.Done(Q.ConnectionLost) ==> s.closed && s.q.contents == [])
  }

  ghost predicate QueueOk(q: Q.State)
  {
    q.pcs.Keys == {SENDER, RECEIVER} && Q.Inv(q) && Q.LoneInv(q, RECEIVER)
  }

  ghost predicate Inv(s: System)
  {
    QueueOk(s.q) && Fits(s.q.size, s.ms) && !s.failed && SenderOk(s) && ReceiverOk(s) && ClosingOk(s)
  }

  // ---------------------------------------------------------------- what one move changes

  lemma QueueKept(q: Q.State, a: Q.Action)
    requires QueueOk(q) && Q.Enabled(q, a) && (a.CallRead? ==> a.t == RECEIVER)
    ensures QueueOk(Q.Next(q, a))
  {
    Q.StepKeepsInv(q, a);
    Q.LoneStep(q, a, RECEIVER);
    KeysKept(q, a);
  }

  /** The receiver's side is untouched by what the sender does. */
  lemma ReceiverUntouched(s: System, s': System)
    requires RECEIVER in s.q.pcs && RECEIVER in s'.q.pcs && ReceiverOk(s)
    requires s'.received == s.received && s'.d == s.d && s'.ended == s.ended && s'.q.delivered == s.q.delivered
    requires s'.q.pcs[RECEIVER] == s.q.pcs[RECEIVER] || s'.q.pcs[RECEIVER] == Q.Notified(s.q.pcs[RECEIVER])
    ensures ReceiverOk(s')
    ensures s'.q.pcs[RECEIVER] == Q.Done(Q.ConnectionLost) ==> s.q.pcs[RECEIVER] == Q.Done(Q.ConnectionLost)
  {
  }

  lemma SenderUntouched(s: System, s': System)
    requires SENDER in s.q.pcs && SENDER in s'.q.pcs && SenderOk(s)
    requires s'.ms == s.ms && s'.sent == s.sent && s'.buf == s.buf && s'.loop == s.loop && s'.closed == s.closed
    requires s'.q.written == s.q.written && s'.q.size == s.q.size
    requires s'.q.pcs[SENDER] == s.q.pcs[SENDER] || s'.q.pcs[SENDER] == Q.Notified(s.q.pcs[SENDER])
    ensures SenderOk(s')
  {
  }

  /** How the sender's own accesses change the queue: a test may copy, everything else keeps the
      bytes. Once it is closing it changes no bytes. */
  lemma SenderMoves(s: System, a: Q.Action)
    requires Inv(s) && Enabled(s, Access(a)) && a.t == SENDER && !a.Collect?
    ensures var q', rest := Q.Next(s.q, a), Rest(s.buf, s.loop);
            && q'.delivered == s.q.delivered
            && SENDER in q'.pcs && SenderPc(q'.pcs[SENDER], rest, s.closed || a.CallDisconnect?)
            && q'.written + Pending(q'.pcs[SENDER], rest) == s.q.written + Pending(s.q.pcs[SENDER], rest)
            && (s.closed ==> q'.written == s.q.written && q'.contents == s.q.contents)
  {
    var pc := s.q.pcs[SENDER];
    if a.Step? && (pc.WHead? || pc.WWoken?) {
      SenderCopies(s, a);
    } else if a.Step? {
      SenderSteps(s.q, Rest(s.buf, s.loop), s.closed);
    } else if a.CallWrite? {
      CallsWithRest(s.buf, s.loop, a.bytes);
    }
  }

  lemma SenderSteps(q: Q.State, rest: seq<Byte>, closed: bool)
    requires SENDER in q.pcs && SenderPc(q.pcs[SENDER], rest, closed) && Q.CanStep(q, q.pcs[SENDER])
    requires !q.pcs[SENDER].WHead? && !q.pcs[SENDER].WWoken?
    ensures var q' := Q.StepOf(q, SENDER);
            && q'.delivered == q.delivered && q'.written == q.written && q'.contents == q.contents
            && SENDER in q'.pcs && SenderPc(q'.pcs[SENDER], rest, closed)
            && Pending(q'.pcs[SENDER], rest) == Pending(q.pcs[SENDER], rest)
  {
  }

  lemma SenderCopies(s: System, a: Q.Action)
    requires Inv(s) && Enabled(s, Access(a)) && a == Q.Step(SENDER)
    requires s.q.pcs[SENDER].WHead? || s.q.pcs[SENDER].WWoken?
    ensures var q', rest := Q.Next(s.q, a), Rest(s.buf, s.loop);
            && q'.delivered == s.q.delivered && !s.closed
            && SENDER in q'.pcs && SenderPc(q'.pcs[SENDER], rest, false)
            && q'.written + Pending(q'.pcs[SENDER], rest) == s.q.written + rest
            && (q'.pcs[SENDER].WNotify? ==> |q'.written| > |s.q.written|)
            && (!q'.pcs[SENDER].WNotify? ==> q'.pcs[SENDER].WWait? && q'.written == s.q.written)
  {
    var q', rest := Q.Next(s.q, a), Rest(s.buf, s.loop);
    CopyStep(s.q, rest);
    if q'.pcs[SENDER].WNotify? {
      Regroup(s.q.written, rest, q'.pcs[SENDER].count);
    }
  }

  lemma CopyStep(q: Q.State, rest: seq<Byte>)
    requires SENDER in q.pcs && (q.pcs[SENDER] == Q.WHead(rest) || q.pcs[SENDER] == Q.WWoken(rest))
    requires 0 < |rest| < q.size && q.connected
    ensures var q' := Q.StepOf(q, SENDER);
            && SENDER in q'.pcs && q'.delivered == q.delivered
            && (q'.pcs[SENDER] == Q.WWait(rest) || q'.pcs[SENDER].WNotify?)
            && (q'.pcs[SENDER].WWait? ==> q'.written == q.written)
            && (q'.pcs[SENDER].WNotify? ==>
                  var k := q'.pcs[SENDER].count; 0 < k <= |rest| && q'.written == q.written + rest[..k])
  {
  }

  lemma ReceiverMoves(s: System, a: Q.Action)
    requires Inv(s) && Enabled(s, Access(a)) && a.t == RECEIVER && !a.Collect?
    ensures var q' := Q.Next(s.q, a);
            && q'.written == s.q.written && !s.ended
            && RECEIVER in q'.pcs && ReceiverPc(q'.pcs[RECEIVER], s.d, false)
            && Arriving(s.q.pcs[RECEIVER]) == []
            && q'.delivered == s.q.delivered + Arriving(q'.pcs[RECEIVER])
            && (q'.pcs[RECEIVER] == Q.Done(Q.ConnectionLost) ==> q'.contents == [] && !s.q.connected)
  {
    var pc := s.q.pcs[RECEIVER];
    if a.Step? && (pc.RHead? || pc.RWoken?) {
      ReceiverTests(s.q, s.d);
    } else if a.Step? {
      ReceiverSteps(s.q, s.d);
    }
  }

  lemma ReceiverSteps(q: Q.State, d: Decoder)
    requires Valid(d) && !d.Complete?
    requires RECEIVER in q.pcs && ReceiverPc(q.pcs[RECEIVER], d, false) && Q.CanStep(q, q.pcs[RECEIVER])
    requires !q.pcs[RECEIVER].RHead? && !q.pcs[RECEIVER].RWoken?
    ensures var q' := Q.StepOf(q, RECEIVER);
            && q'.written == q.written && q'.delivered == q.delivered
            && RECEIVER in q'.pcs && ReceiverPc(q'.pcs[RECEIVER], d, false) && !q'.pcs[RECEIVER].Done?
            && Arriving(q.pcs[RECEIVER]) == Arriving(q'.pcs[RECEIVER]) == []
  {
  }

  lemma ReceiverTests(q: Q.State, d: Decoder)
    requires Valid(d) && !d.Complete?
    requires RECEIVER in q.pcs && ReceiverPc(q.pcs[RECEIVER], d, false) && AtTest(q.pcs[RECEIVER])
    ensures var q' := Q.StepOf(q, RECEIVER);
            && q'.written == q.written
            && RECEIVER in q'.pcs && ReceiverPc(q'.pcs[RECEIVER], d, false)
            && q'.delivered == q.delivered + Arriving(q'.pcs[RECEIVER])
            && TestOutcome(q, q')
  {
  }

  /** After a test the receiver tests again, sleeps, has got bytes, or knows that there are no more. */
  ghost predicate TestOutcome(q: Q.State, q': Q.State)
    requires RECEIVER in q.pcs && RECEIVER in q'.pcs
  {
    match q'.pcs[RECEIVER]
    case RHead(_, _) => q.pcs[RECEIVER].RWoken?
    case RWait(_, _) => q.pcs[RECEIVER].RHead?
    case Done(Data(bytes)) => bytes != []
    case Done(ConnectionLost) => q'.contents == [] && !q.connected
    case _ => false
  }

  // ---------------------------------------------------------------- every move keeps the invariant

  lemma BeginKeepsInv(s: System)
    requires Inv(s) && Enabled(s, Begin)
    ensures Inv(Next(s, Begin))
  {
    var s', m := Next(s, Begin), s.ms[s.sent];
    StartsWithCarried(m);
    CarriedSnoc(s.ms, s.sent);
    assert s.q.written + [] == s.q.written;
    assert Rest(s.buf, s.loop) == [];
    assert SenderOk(s');
  }

  lemma SenderKeepsInv(s: System, a: Q.Action)
    requires Inv(s) && Enabled(s, Access(a)) && a.t == SENDER && !a.Collect?
    ensures Inv(Next(s, Access(a)))
  {
    var s' := Next(s, Access(a));
    QueueKept(s.q, a);
    FlagKept(s.q, a);
    OtherThread(s.q, a, RECEIVER);
    SenderMoves(s, a);
    ReceiverUntouched(s, s');
    assert SenderOk(s');
    assert ClosingOk(s');
  }

  lemma ReceiverKeepsInv(s: System, a: Q.Action)
    requires Inv(s) && Enabled(s, Access(a)) && a.t == RECEIVER && !a.Collect?
    ensures Inv(Next(s, Access(a)))
  {
    var s' := Next(s, Access(a));
    QueueKept(s.q, a);
    FlagKept(s.q, a);
    OtherThread(s.q, a, SENDER);
    ReceiverMoves(s, a);
    SenderUntouched(s, s');
    assert EncodeAll(s.received) + Consumed(s.d) + [] == EncodeAll(s.received) + Consumed(s.d);
    assert ReceiverOk(s');
    assert ClosingOk(s');
  }

  lemma CollectSenderKeepsInv(s: System)
    requires Inv(s) && Enabled(s, Access(Q.Collect(SENDER)))
    ensures Inv(Next(s, Access(Q.Collect(SENDER))))
  {
    var s' := Next(s, Access(Q.Collect(SENDER)));
    QueueKept(s.q, Q.Collect(SENDER));
    LoopMoves(s.buf, s.loop, s.q.pcs[SENDER].result.count);
    ReceiverUntouched(s, s');
    assert SenderOk(s');
  }

  lemma CollectReceiverKeepsInv(s: System)
    requires Inv(s) && Enabled(s, Access(Q.Collect(RECEIVER)))
    ensures Inv(Next(s, Access(Q.Collect(RECEIVER))))
  {
    var s' := Next(s, Access(Q.Collect(RECEIVER)));
    QueueKept(s.q, Q.Collect(RECEIVER));
    assert Q.Next(s.q, Q.Collect(RECEIVER)) == Q.Goto(s.q, RECEIVER, Q.Idle);
    CollectingKeepsRest(s.(q := s'.q), s.q.pcs[RECEIVER].result);
    SenderUntouched(s, s');
    CollectedOk(s, s');
  }

  /** Collecting a result changes the receiver's own part only. */
  lemma CollectingKeepsRest(s: System, result: Q.Result)
    ensures var s' := ReceiverGets(s, result);
            && s'.q == s.q && s'.ms == s.ms && s'.sent == s.sent
            && s'.buf == s.buf && s'.loop == s.loop && s'.closed == s.closed
  {
  }

  lemma CollectedOk(s: System, s': System)
    requires RECEIVER in s.q.pcs && ReceiverOk(s) && ClosingOk(s) && s.q.pcs[RECEIVER].Done? && !s.failed
    requires s' == ReceiverGets(s.(q := Q.Goto(s.q, RECEIVER, Q.Idle)), s.q.pcs[RECEIVER].result)
    ensures RECEIVER in s'.q.pcs && ReceiverOk(s') && ClosingOk(s') && !s'.failed
  {
    var result := s.q.pcs[RECEIVER].result;
    if result.Data? { ChunkArrives(s.received, s.d, result.bytes); }
  }

  lemma MoveKeepsInv(s: System, mv: Move)
    requires Inv(s) && Enabled(s, mv)
    ensures Inv(Next(s, mv))
  {
    match mv
    case Begin => BeginKeepsInv(s);
    case Access(a) =>
      if a.Collect? {
        if a.t == SENDER { CollectSenderKeepsInv(s); } else { CollectReceiverKeepsInv(s); }
      } else if a.t == SENDER {
        SenderKeepsInv(s, a);
      } else {
        ReceiverKeepsInv(s, a);
      }
  }

  lemma InitOk(size: nat, ms: seq<Message>)
    requires Fits(size, ms)
    ensures Inv(Init(size, ms))
  {
    assert ms[..0] == [];
  }

  lemma {:induction false} RunKeepsInv(s: System, moves: seq<Move>)
    requires Inv(s) && Runs(s, moves)
    ensures Inv(Exec(s, moves))
    decreases |moves|
  {
    if moves != [] {
      MoveKeepsInv(s, moves[0]);
      RunKeepsInv(Next(s, moves[0]), moves[1..]);
    }
  }

  lemma MoveKeepsMessages(s: System, mv: Move)
    requires Enabled(s, mv)
    ensures Next(s, mv).ms == s.ms && Next(s, mv).q.size == s.q.size
    ensures mv.Access? ==> Next(s, mv).q == Q.Next(s.q, mv.a)
  {
    if mv.Access? {
      FlagKept(s.q, mv.a);
      if mv.a.Collect? { CollectingKeepsRest(s.(q := Q.Next(s.q, mv.a)), s.q.pcs[mv.a.t].result); }
    }
  }

  /** The messages to send and the size of the ring never change. */
  lemma {:induction false} RunKeepsMessages(s: System, moves: seq<Move>)
    requires Runs(s, moves)
    ensures Exec(s, moves).ms == s.ms && Exec(s, moves).q.size == s.q.size
    decreases |moves|
  {
    if moves != [] {
      MoveKeepsMessages(s, moves[0]);
      RunKeepsMessages(Next(s, moves[0]), moves[1..]);
    }
  }

  // ---------------------------------------------------------------- safety

  /** All bytes of the messages handed over, from the decoder back to the sender. */
  lemma Conservation(s: System)
    requires Inv(s) && Whole(s.ms)
    ensures EncodeAll(s.ms[..s.sent]) == EncodeAll(s.received) + Consumed(s.d) + Arriving(s.q.pcs[RECEIVER])
                                       + s.q.contents + Pending(s.q.pcs[SENDER], Rest(s.buf, s.loop))
  {
    CarriedWhole(s.ms[..s.sent]);
  }

  lemma ReceivedIsPrefix(s: System)
    requires Inv(s) && Whole(s.ms)
    ensures s.received <= s.ms[..s.sent]
  {
    assert EncodeAll(s.received) <= EncodeAll(s.ms[..s.sent]) by {
      Conservation(s);
      FirstOfFive(EncodeAll(s.received), Consumed(s.d), Arriving(s.q.pcs[RECEIVER]), s.q.contents,
                  Pending(s.q.pcs[SENDER], Rest(s.buf, s.loop)));
    }
    assert AllEncodable(s.received);
    WholeIsEncodable(s.ms[..s.sent]);
    StreamPrefix(s.received, s.ms[..s.sent]);
  }

  /** When the receiver is told that the connection is lost, every message that was handed to
      sendMessage has been received whole, and none is half read. */
  lemma LostAfterTheLast(s: System)
    requires Inv(s) && Whole(s.ms) && (s.ended || s.q.pcs[RECEIVER] == Q.Done(Q.ConnectionLost))
    ensures s.closed && s.received == s.ms[..s.sent] && s.d == START
  {
    var sent := s.ms[..s.sent];
    Conservation(s);
    ReceivedIsPrefix(s);
    WholeIsEncodable(s.ms);
    NothingLeft(EncodeAll(s.received) + Consumed(s.d));
    AllTaken(s.received, sent, s.d);
  }

  /** Safety, end to end: under every interleaving, spurious wake-ups and a disconnect between
      messages included, no call fails, the messages received are the first ones handed over,
      frame for frame, every byte of those is in exactly one place (received, in the decoder,
      arriving, in the ring, or pending at the sender), and the loss of the connection is reported
      only after the sender has closed its end and the last message has been received. */
  lemma MessagesArriveInOrder(size: nat, ms: seq<Message>, moves: seq<Move>)
    requires Fits(size, ms) && Whole(ms) && Runs(Init(size, ms), moves)
    ensures var s := Exec(Init(size, ms), moves);
            && !s.failed && s.sent <= |ms| && s.received <= ms[..s.sent]
            && SENDER in s.q.pcs && RECEIVER in s.q.pcs
            && EncodeAll(ms[..s.sent]) == EncodeAll(s.received) + Consumed(s.d) + Arriving(s.q.pcs[RECEIVER])
                                        + s.q.contents + Pending(s.q.pcs[SENDER], Rest(s.buf, s.loop))
            && (s.ended ==> s.closed && s.received == ms[..s.sent] && s.d == START)
  {
    InitOk(size, ms);
    RunKeepsInv(Init(size, ms), moves);
    RunKeepsMessages(Init(size, ms), moves);
    var s := Exec(Init(size, ms), moves);
    Conservation(s);
    ReceivedIsPrefix(s);
    if s.ended { LostAfterTheLast(s); }
  }
}
