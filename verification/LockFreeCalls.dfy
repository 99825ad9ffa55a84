/** What the calls of the lock-free ring and queue return, judged by the call that was made and the
    state at that moment, over every interleaving that follows. */
module LockFreeCalls {
  import opened Bytes
  import opened LockFreeRing
  import opened RingCells

  predicate IsWriteCall(a: Action)
  {
    a.CallWrite? || a.CallQueueWrite?
  }

  /** The producer makes no further call. */
  predicate NoWriteCall(acts: seq<Action>)
  {
    forall i :: 0 <= i < |acts| ==> !IsWriteCall(acts[i])
  }

  predicate NoReadCall(acts: seq<Action>)
  {
    forall i :: 0 <= i < |acts| ==> !acts[i].CallRead?
  }

  // ---------------------------------------------------------------- ring writes

  function SomeCall(p: Producer): (c: WriteCall)
    requires p.PLoadWr? || p.PLoadRd? || p.PCopy? || (p.PIdle? && p.result.Wrote?)
  {
    if p.PIdle? then p.result.call else p.call
  }

  predicate Writing(p: Producer)
  {
    p.PLoadWr? || p.PLoadRd? || p.PCopy? || (p.PIdle? && p.result.Wrote?)
  }

  /** The producer is in, or has finished, a ring write of `buf` that began with these records. */
  predicate OfCall(p: Producer, buf: seq<Byte>, base: seq<Byte>, room: nat)
  {
    Writing(p) && SomeCall(p).buf == buf && SomeCall(p).base == base && SomeCall(p).room == room
  }

  lemma StepKeepsCall(s: State, a: Action, buf: seq<Byte>, base: seq<Byte>, room: nat)
    requires Inv(s) && Enabled(s, a) && !IsWriteCall(a) && OfCall(s.producer, buf, base, room)
    ensures OfCall(Next(s, a).producer, buf, base, room)
  {
    if a.StepConsumer? { ConsumerLeavesProducer(s); }
    if a.StepProducer? { StepKeepsInv(s, a); ProducerKeepsCall(s, buf, base, room); }
  }

  lemma ConsumerLeavesProducer(s: State)
    ensures NextConsumer(s).producer == s.producer && NextConsumer(s).published == s.published
    ensures NextConsumer(s).connected == s.connected
  {
  }

  lemma ProducerKeepsCall(s: State, buf: seq<Byte>, base: seq<Byte>, room: nat)
    requires OfCall(s.producer, buf, base, room)
    ensures OfCall(NextProducer(s).producer, buf, base, room)
  {
  }

  lemma {:induction false} RunKeepsCall(s: State, acts: seq<Action>, buf: seq<Byte>, base: seq<Byte>, room: nat)
    requires Inv(s) && Runs(s, acts) && NoWriteCall(acts) && OfCall(s.producer, buf, base, room)
    ensures OfCall(Exec(s, acts).producer, buf, base, room)
    decreases |acts|
  {
    if acts != [] {
      StepKeepsInv(s, acts[0]);
      StepKeepsCall(s, acts[0], buf, base, room);
      RunKeepsCall(Next(s, acts[0]), acts[1..], buf, base, room);
    }
  }

  /** A ring write that has returned has published the beginning of its buffer behind what was
      published before it, at least as much as there was room for when it was called. */
  lemma RingWriteOutcome(cells: seq<Byte>, before: seq<Action>, buf: seq<Byte>, after: seq<Action>)
    requires |cells| >= 1 && Runs(Init(cells), before)
    requires var s0 := Exec(Init(cells), before);
             && Enabled(s0, CallWrite(buf)) && Runs(Next(s0, CallWrite(buf)), after) && NoWriteCall(after)
    ensures var s0 := Exec(Init(cells), before);
            var s := Exec(Next(s0, CallWrite(buf)), after);
            && s0.rd < |cells| && s0.wr < |cells|
            && (s.producer.PIdle? ==>
                  && s.producer.result.Wrote?
                  && var done := s.producer.result.call.done;
                     && Min(|buf|, Free(|cells|, s0.rd, s0.wr)) <= done <= |buf|
                     && s.published == s0.published + buf[..done])
  {
    RunKeepsInv(Init(cells), before);
    RunKeepsSize(Init(cells), before);
    var s0 := Exec(Init(cells), before);
    var s1 := Next(s0, CallWrite(buf));
    StepKeepsInv(s0, CallWrite(buf));
    RunKeepsInv(s1, after);
    RunKeepsCall(s1, after, buf, s0.published, Free(|cells|, s0.rd, s0.wr));
  }

  // ---------------------------------------------------------------- ring reads

  predicate OfRead(q: Consumer, want: nat, base: seq<Byte>, ready: nat)
  {
    !q.CIdle? && q.call.want == want && q.call.base == base && q.call.ready == ready
  }

  lemma StepKeepsRead(s: State, a: Action, want: nat, base: seq<Byte>, ready: nat)
    requires Enabled(s, a) && !a.CallRead? && OfRead(s.consumer, want, base, ready)
    ensures OfRead(Next(s, a).consumer, want, base, ready)
  {
    if a.StepProducer? { ProducerLeavesConsumer(s); }
  }

  lemma ProducerLeavesConsumer(s: State)
    ensures NextProducer(s).consumer == s.consumer
  {
  }

  lemma {:induction false} RunKeepsRead(s: State, acts: seq<Action>, want: nat, base: seq<Byte>, ready: nat)
    requires Runs(s, acts) && NoReadCall(acts) && OfRead(s.consumer, want, base, ready)
    ensures OfRead(Exec(s, acts).consumer, want, base, ready)
    decreases |acts|
  {
    if acts != [] {
      StepKeepsRead(s, acts[0], want, base, ready);
      RunKeepsRead(Next(s, acts[0]), acts[1..], want, base, ready);
    }
  }

  /** A ring read that has returned has consumed what it gives, behind what was consumed before it, at
      least as much as was available when it was called and at most what was wanted. */
  lemma RingReadOutcome(cells: seq<Byte>, before: seq<Action>, want: nat, after: seq<Action>)
    requires |cells| >= 1 && Runs(Init(cells), before)
    requires var s0 := Exec(Init(cells), before);
             && Enabled(s0, CallRead(want)) && Runs(Next(s0, CallRead(want)), after) && NoReadCall(after)
    ensures var s0 := Exec(Init(cells), before);
            var s := Exec(Next(s0, CallRead(want)), after);
            && s0.rd < |cells| && s0.wr < |cells|
            && (s.consumer.CDone? ==>
                  var out := s.consumer.call.out;
                  && Min(want, Used(|cells|, s0.rd, s0.wr)) <= |out| <= want
                  && s.consumed == s0.consumed + out)
  {
    RunKeepsInv(Init(cells), before);
    RunKeepsSize(Init(cells), before);
    var s0 := Exec(Init(cells), before);
    var s1 := Next(s0, CallRead(want));
    StepKeepsInv(s0, CallRead(want));
    RunKeepsInv(s1, after);
    RunKeepsRead(s1, after, want, s0.consumed, Used(|cells|, s0.rd, s0.wr));
  }

  // ---------------------------------------------------------------- queue writes

  /** The producer is in, or has finished, a queue write of `buf` that began with `base` published. */
  predicate OfQueueCall(p: Producer, size: nat, buf: seq<Byte>, base: seq<Byte>)
  {
    match p
    case PIdle(TooBig(b, f)) => b == buf && f == base && |buf| >= size
    case PIdle(ConnectionLost(b, f)) => b == buf && f == base && |buf| < size
    case QLoadWr(b, f, _) => b == buf && f == base && |buf| < size
    case QLoadRd(b, f, _, _) => b == buf && f == base && |buf| < size
    case _ =>
      Writing(p) && SomeCall(p).guarded && SomeCall(p).buf == buf && SomeCall(p).base == base && |buf| < size
  }

  lemma QueueTestKeepsCall(s: State, size: nat, buf: seq<Byte>, base: seq<Byte>)
    requires OfQueueCall(s.producer, size, buf, base)
    ensures OfQueueCall(NextProducer(s).producer, size, buf, base)
  {
  }

  lemma StepKeepsQueueCall(s: State, a: Action, size: nat, buf: seq<Byte>, base: seq<Byte>)
    requires Enabled(s, a) && !IsWriteCall(a) && OfQueueCall(s.producer, size, buf, base)
    ensures OfQueueCall(Next(s, a).producer, size, buf, base)
  {
    if a.StepConsumer? { ConsumerLeavesProducer(s); }
    if a.StepProducer? { QueueTestKeepsCall(s, size, buf, base); }
  }

  /** A test of a queue write, under the lock, that finds the space too small and the flag cleared. */
  predicate FindsLoss(s: State, a: Action)
  {
    && a.StepProducer? && s.producer.QLoadRd? && (s.producer.stage == Locked || s.producer.stage == Woken)
    && s.rd < |s.data| && s.producer.w < |s.data|
    && Free(|s.data|, s.rd, s.producer.w) < |s.producer.buf| && !s.connected
  }

  predicate Lost(p: Producer)
  {
    p.PIdle? && p.result.ConnectionLost?
  }

  /** Such a test, and nothing else, ends in the loss of the connection. */
  lemma LostIffFound(s: State, a: Action)
    requires Inv(s) && Enabled(s, a) && !Lost(s.producer)
    ensures Lost(Next(s, a).producer) <==> FindsLoss(s, a)
    ensures FindsLoss(s, a) ==> Free(|s.data|, s.rd, s.wr) < |s.producer.buf|
  {
    if a.StepConsumer? { ConsumerLeavesProducer(s); }
  }

  predicate FoundLoss(s: State, acts: seq<Action>)
    requires Runs(s, acts)
    decreases |acts|
  {
    acts != [] && (FindsLoss(s, acts[0]) || FoundLoss(Next(s, acts[0]), acts[1..]))
  }

  lemma {:induction false} RunKeepsQueueCall(s: State, acts: seq<Action>, size: nat, buf: seq<Byte>, base: seq<Byte>)
    requires Inv(s) && Runs(s, acts) && NoWriteCall(acts) && OfQueueCall(s.producer, size, buf, base)
    ensures OfQueueCall(Exec(s, acts).producer, size, buf, base)
    ensures Lost(Exec(s, acts).producer) && !Lost(s.producer) ==> FoundLoss(s, acts)
    decreases |acts|
  {
    if acts != [] {
      StepKeepsInv(s, acts[0]);
      StepKeepsQueueCall(s, acts[0], size, buf, base);
      if !Lost(s.producer) { LostIffFound(s, acts[0]); }
      RunKeepsQueueCall(Next(s, acts[0]), acts[1..], size, buf, base);
    }
  }

  /** A queue write that has returned has published its whole buffer, or has failed and published
      nothing: it is refused exactly if it is as long as the ring, and reports the loss of the
      connection only if a test under the lock has found the space too small and the flag cleared. */
  lemma QueueWriteOutcome(cells: seq<Byte>, before: seq<Action>, buf: seq<Byte>, after: seq<Action>)
    requires |cells| >= 1 && Runs(Init(cells), before)
    requires var s0 := Exec(Init(cells), before);
             && Enabled(s0, CallQueueWrite(buf)) && Runs(Next(s0, CallQueueWrite(buf)), after) && NoWriteCall(after)
    ensures var s0 := Exec(Init(cells), before);
            var s1 := Next(s0, CallQueueWrite(buf));
            var s := Exec(s1, after);
            s.producer.PIdle? ==>
              && (s.producer.result.TooBig? <==> |buf| >= |cells|)
              && (s.producer.result.Wrote? ==> s.published == s0.published + buf)
              && (!s.producer.result.Wrote? ==> s.published == s0.published)
              && (s.producer.result.ConnectionLost? ==> FoundLoss(s1, after))
              && !s.producer.result.NoWrite?
  {
    RunKeepsInv(Init(cells), before);
    RunKeepsSize(Init(cells), before);
    var s0 := Exec(Init(cells), before);
    var s1 := Next(s0, CallQueueWrite(buf));
    StepKeepsInv(s0, CallQueueWrite(buf));
    RunKeepsInv(s1, after);
    RunKeepsSize(s1, after);
    RunKeepsQueueCall(s1, after, |cells|, buf, s0.published);
    if Exec(s1, after).producer.PIdle? { QueueResult(Exec(s1, after), |cells|, buf, s0.published); }
  }

  lemma QueueResult(s: State, size: nat, buf: seq<Byte>, base: seq<Byte>)
    requires Inv(s) && s.producer.PIdle? && OfQueueCall(s.producer, size, buf, base)
    ensures s.producer.result.TooBig? <==> |buf| >= size
    ensures s.producer.result.Wrote? ==> s.published == base + buf
    ensures !s.producer.result.Wrote? ==> s.published == base
  {
    if s.producer.result.Wrote? {
      var c := s.producer.result.call;
      assert c.buf[..|c.buf|] == c.buf;
    }
  }

  /** What each test of a queue write leads to: a write that fits before locking or after the wait
      enters the ring, one that does not fit waits for room, and the wait ends when there is some. */
  lemma QueueTestDecides(s: State)
    requires Inv(s) && s.producer.QLoadRd?
    ensures var fits := Free(|s.data|, s.rd, s.wr) >= |s.producer.buf|;
            var stage, p := s.producer.stage, NextProducer(s).producer;
            && (p.PLoadWr? <==> (stage == Unlocked && fits) || stage == Woken)
            && (p.QLoadWr? && p.stage == Locked <==> stage == Unlocked && !fits)
            && (p.QLoadWr? && p.stage == Waiting <==>
                  (stage == Locked && (fits || s.connected)) || (stage == Waiting && !fits))
            && (p.QLoadWr? && p.stage == Woken <==> stage == Waiting && fits)
            && (Lost(p) <==> stage == Locked && !fits && !s.connected)
  {
  }

  // ---------------------------------------------------------------- no ring call waits

  /** How many more steps a ring write can take: two passes over the ring at most. */
  function WriteSteps(p: Producer): (n: int)
  {
    match p
    case PLoadWr(c) => Passes(|c.buf|, c.depth)
    case PLoadRd(c, _) => Passes(|c.buf|, c.depth) - 1
    case PCopy(c, _, _, _, k) => Passes(|c.buf|, c.depth) - 2 - k
    case _ => 0
  }

  function ReadSteps(q: Consumer): (n: int)
  {
    match q
    case CLoadWr(c) => Passes(c.want, c.depth)
    case CLoadRd(c, _) => Passes(c.want, c.depth) - 1
    case CCopy(c, _, _, _, chunk) => Passes(c.want, c.depth) - 2 - |chunk|
    case _ => 0
  }

  function Passes(len: nat, depth: nat): int
  {
    if depth == 0 then 2 * (len + 3) else len + 3
  }

  /** A step of a ring write is always possible and uses up one of those left. */
  lemma WriteStepWorks(s: State)
    requires Inv(s) && Writing(s.producer) && !s.producer.PIdle?
    ensures Enabled(s, StepProducer)
    ensures Writing(NextProducer(s).producer)
    ensures 0 <= WriteSteps(NextProducer(s).producer) < WriteSteps(s.producer)
  {
    StepKeepsInv(s, StepProducer);
    WriteStepsNatural(NextProducer(s));
  }

  lemma WriteStepsNatural(s: State)
    requires Inv(s)
    ensures WriteSteps(s.producer) >= 0
  {
  }

  lemma ReadStepLess(s: State)
    requires s.rd < |s.data| && s.wr < |s.data| && ConsumerOk(s.data, s.rd, s.wr, s.consumed, s.consumer)
    requires !s.consumer.CIdle? && !s.consumer.CDone?
    ensures !NextConsumer(s).consumer.CIdle?
    ensures ReadSteps(NextConsumer(s).consumer) < ReadSteps(s.consumer) || NextConsumer(s).crashed
  {
  }

  lemma ReadStepWorks(s: State)
    requires Inv(s) && !s.consumer.CIdle? && !s.consumer.CDone?
    ensures Enabled(s, StepConsumer)
    ensures !NextConsumer(s).consumer.CIdle?
    ensures 0 <= ReadSteps(NextConsumer(s).consumer) < ReadSteps(s.consumer)
  {
    ReadStepLess(s);
    assert Inv(NextConsumer(s)) by { StepKeepsInv(s, StepConsumer); }
    ReadStepsNatural(NextConsumer(s));
  }

  lemma ReadStepsNatural(s: State)
    requires Inv(s)
    ensures ReadSteps(s.consumer) >= 0
  {
  }

  /** How many steps of the producer, and of the consumer, a run has. */
  function Count(acts: seq<Action>, a: Action): nat
  {
    if acts == [] then 0 else (if acts[0] == a then 1 else 0) + Count(acts[1..], a)
  }

  lemma {:induction false} WriteRunWorks(s: State, acts: seq<Action>)
    requires Inv(s) && Writing(s.producer) && Runs(s, acts) && NoWriteCall(acts)
    ensures Count(acts, StepProducer) + WriteSteps(Exec(s, acts).producer) <= WriteSteps(s.producer)
    ensures Inv(Exec(s, acts)) && Writing(Exec(s, acts).producer)
    decreases |acts|
  {
    if acts != [] {
      StepKeepsInv(s, acts[0]);
      if acts[0].StepProducer? { WriteStepWorks(s); }
      if acts[0].StepConsumer? { ConsumerLeavesProducer(s); }
      WriteRunWorks(Next(s, acts[0]), acts[1..]);
    }
  }

  lemma {:induction false} ReadRunWorks(s: State, acts: seq<Action>)
    requires Inv(s) && !s.consumer.CIdle? && Runs(s, acts) && NoReadCall(acts)
    ensures Count(acts, StepConsumer) + ReadSteps(Exec(s, acts).consumer) <= ReadSteps(s.consumer)
    ensures Inv(Exec(s, acts)) && !Exec(s, acts).consumer.CIdle?
    decreases |acts|
  {
    if acts != [] {
      StepKeepsInv(s, acts[0]);
      if acts[0].StepConsumer? { ReadStepWorks(s); }
      if acts[0].StepProducer? { ProducerLeavesConsumer(s); }
      ReadRunWorks(Next(s, acts[0]), acts[1..]);
    }
  }

  /** No ring write waits for the consumer: until it has returned a step of it is possible, and after
      twice its length plus six steps of its own it has returned, whatever the consumer does or
      leaves undone. */
  lemma WriteIsWaitFree(cells: seq<Byte>, before: seq<Action>, buf: seq<Byte>, after: seq<Action>)
    requires |cells| >= 1 && Runs(Init(cells), before)
    requires var s0 := Exec(Init(cells), before);
             && Enabled(s0, CallWrite(buf)) && Runs(Next(s0, CallWrite(buf)), after) && NoWriteCall(after)
    ensures var s := Exec(Next(Exec(Init(cells), before), CallWrite(buf)), after);
            && Count(after, StepProducer) <= 2 * |buf| + 6
            && (!s.producer.PIdle? ==> Enabled(s, StepProducer))
            && (Count(after, StepProducer) == 2 * |buf| + 6 ==> s.producer.PIdle?)
  {
    RunKeepsInv(Init(cells), before);
    var s0 := Exec(Init(cells), before);
    StepKeepsInv(s0, CallWrite(buf));
    WriteRunWorks(Next(s0, CallWrite(buf)), after);
    var s := Exec(Next(s0, CallWrite(buf)), after);
    WriteStepsNatural(s);
    if !s.producer.PIdle? { WriteStepWorks(s); }
  }

  /** Nor does a ring read wait for the producer. */
  lemma ReadIsWaitFree(cells: seq<Byte>, before: seq<Action>, want: nat, after: seq<Action>)
    requires |cells| >= 1 && Runs(Init(cells), before)
    requires var s0 := Exec(Init(cells), before);
             && Enabled(s0, CallRead(want)) && Runs(Next(s0, CallRead(want)), after) && NoReadCall(after)
    ensures var s := Exec(Next(Exec(Init(cells), before), CallRead(want)), after);
            && Count(after, StepConsumer) <= 2 * want + 6
            && (!s.consumer.CDone? ==> Enabled(s, StepConsumer))
            && (Count(after, StepConsumer) == 2 * want + 6 ==> s.consumer.CDone?)
  {
    RunKeepsInv(Init(cells), before);
    var s0 := Exec(Init(cells), before);
    StepKeepsInv(s0, CallRead(want));
    ReadRunWorks(Next(s0, CallRead(want)), after);
    var s := Exec(Next(s0, CallRead(want)), after);
    ReadStepsNatural(s);
    if !s.consumer.CDone? { ReadStepWorks(s); }
  }

  // ---------------------------------------------------------------- the flag

  /** The flag as it was set last; a new queue is not connected. */
  function LastFlag(acts: seq<Action>, before: bool): bool
  {
    if acts == [] then before
    else LastFlag(acts[1..], if acts[0].SetConnected? then acts[0].flag else before)
  }

  lemma StepFlag(s: State, a: Action)
    requires Enabled(s, a)
    ensures Next(s, a).connected == if a.SetConnected? then a.flag else s.connected
  {
    if a.StepConsumer? { ConsumerLeavesProducer(s); }
    if a.StepProducer? { ProducerLeavesFlag(s); }
  }

  lemma ProducerLeavesFlag(s: State)
    ensures NextProducer(s).connected == s.connected
  {
  }

  lemma {:induction false} FlagIsLast(s: State, acts: seq<Action>)
    requires Runs(s, acts)
    ensures Exec(s, acts).connected == LastFlag(acts, s.connected)
    decreases |acts|
  {
    if acts != [] {
      StepFlag(s, acts[0]);
      FlagIsLast(Next(s, acts[0]), acts[1..]);
    }
  }

  lemma FlagFollowsTheRun(cells: seq<Byte>, acts: seq<Action>)
    requires Runs(Init(cells), acts)
    ensures Exec(Init(cells), acts).connected == LastFlag(acts, false)
  {
    FlagIsLast(Init(cells), acts);
  }
}
