/** Disconnecting while others wait: setConnectionFlag stores the flag and notifies without the
    mutex, and a writer that waits looks at the space alone. */
module Disconnect {
  import opened Bytes
  import opened Monitor
  import opened MonitorFrames
  import opened MonitorRuns

  // ---------------------------------------------------------------- a reader sleeps through the loss

  /** The flag has been cleared and everybody notified, and still `r` sleeps in read, un-notified, on
      an empty ring while all other threads are idle. */
  ghost predicate LossMissed(s: State, r: Tid)
  {
    && Frozen(s) && !s.connected && s.contents == []
    && r in s.pcs && ReaderStuck(s.pcs[r]) && !s.pcs[r].timed
    && forall t :: t in s.pcs && t != r ==> s.pcs[t].Idle?
  }

  /** The state after a disconnect that nothing interrupts. */
  function Off(s: State): State
  {
    s.(connected := false, pcs := NotifyWriters(NotifyReaders(s.pcs)))
  }

  /** An idle thread clears the flag and notifies everybody. */
  lemma Disconnects(cast: Cast, s: State, t: Tid)
    requires cast.Reaches(s) && t in s.pcs && s.pcs[t] == Idle && s.connected
    ensures cast.Reaches(Off(s))
  {
    var off := s.(connected := false);
    Then(cast, s, CallDisconnect(t), Goto(s, t, FTest));
    assert Next(Goto(s, t, FTest), Step(t)) == Goto(s, t, FStore);
    Then(cast, Goto(s, t, FTest), Step(t), Goto(s, t, FStore));
    assert Next(Goto(s, t, FStore), Step(t)) == Goto(off, t, FNotifyReaders);
    Then(cast, Goto(s, t, FStore), Step(t), Goto(off, t, FNotifyReaders));
    NotifiesAll(cast, off, t);
  }

  lemma NotifiesAll(cast: Cast, s: State, t: Tid)
    requires cast.Reaches(Goto(s, t, FNotifyReaders)) && t in s.pcs && s.pcs[t] == Idle
    ensures cast.Reaches(s.(pcs := NotifyWriters(NotifyReaders(s.pcs))))
  {
    var before, after := Goto(s, t, FNotifyReaders), Goto(s.(pcs := NotifyReaders(s.pcs)), t, FNotifyWriters);
    assert NotifyReaders(before.pcs)[t := FNotifyWriters] == after.pcs;
    assert Next(before, Step(t)) == after;
    Then(cast, before, Step(t), after);
    NotifiesTheWriters(cast, s.(pcs := NotifyReaders(s.pcs)), t);
  }

  lemma NotifiesTheWriters(cast: Cast, s: State, t: Tid)
    requires cast.Reaches(Goto(s, t, FNotifyWriters)) && t in s.pcs && s.pcs[t] == Idle
    ensures cast.Reaches(s.(pcs := NotifyWriters(s.pcs)))
  {
    var before, after := Goto(s, t, FNotifyWriters), s.(pcs := NotifyWriters(s.pcs));
    assert NotifyWriters(before.pcs)[t := Idle] == after.pcs;
    assert Next(before, Step(t)) == after;
    Then(cast, before, Step(t), after);
  }

  lemma TellsNobody(pcs: map<Tid, Pc>)
    requires forall u :: u in pcs ==> !Asleep(pcs[u])
    ensures NotifyReaders(pcs) == NotifyWriters(pcs) == pcs
  {
  }

  /** The reader has seen the flag set; it is cleared and everybody notified before the reader is
      asleep; the reader falls asleep. */
  lemma SleepsThroughLoss(size: nat, threads: set<Tid>, r: Tid, w: Tid, cast: Cast) returns (s: State)
    requires r in threads && w in threads && r != w && size >= 1
    requires cast.s0 == Init(size, threads) && r in cast.readers
    ensures cast.Reaches(s) && LossMissed(s, r) && Missed(s, r) && Doomed(s, r)
  {
    var s1 := Start(size, threads);
    StartReached(size, threads, cast.readers, cast.writers, r);
    assert cast == Cast(Init(size, threads), cast.readers, cast.writers);
    ReaderAboutToSleep(cast, s1, r, 1);
    var waiting := Enter(s1, r, RWait(1, false));
    Disconnects(cast, waiting, w);
    TellsNobody(waiting.pcs);
    var off := waiting.(connected := false);
    s := Leave(off, r, Stuck(1));
    assert Next(off, Step(r)) == s;
    Then(cast, off, Step(r), s);
  }

  /** The gap: everybody is notified while `r` has tested the flag and is not yet asleep. */
  predicate InGap(s: State, a: Action, r: Tid)
  {
    a.Step? && a.t in s.pcs && s.pcs[a.t].FNotifyReaders? && r in s.pcs && s.pcs[r].RWait?
  }

  /** Some thread has cleared the flag and is about to notify the readers. */
  ghost predicate WakePending(pcs: map<Tid, Pc>)
  {
    exists u :: u in pcs && pcs[u].FNotifyReaders?
  }

  /** `r` sleeps in read or is about to, and nobody has notified it. */
  predicate Dozing(pc: Pc)
  {
    (pc.RWait? || ReaderStuck(pc)) && !pc.timed
  }

  /** `r` has missed the loss: it dozes beside a cleared flag, and nobody is about to notify it. */
  ghost predicate Missed(s: State, r: Tid)
  {
    r in s.pcs && Dozing(s.pcs[r]) && !s.connected && !WakePending(s.pcs)
  }

  lemma PendingKept(s: State, a: Action)
    requires Enabled(s, a) && WakePending(s.pcs) && !(a.Step? && s.pcs[a.t].FNotifyReaders?)
    ensures WakePending(Next(s, a).pcs)
  {
    var u :| u in s.pcs && s.pcs[u].FNotifyReaders?;
    OtherThread(s, a, u);
  }

  /** A thread comes to doze only from dozing, or from a test that has seen the flag set. */
  lemma OwnDoze(s: State, a: Action, r: Tid)
    requires Enabled(s, a) && a.t == r && r in Next(s, a).pcs && Dozing(Next(s, a).pcs[r]) && !Next(s, a).connected
    ensures Dozing(s.pcs[r]) && !s.connected && !s.pcs[r].FNotifyReaders?
  {
  }

  lemma OwnStepMisses(s: State, a: Action, r: Tid)
    requires Enabled(s, a) && a.t == r && Missed(Next(s, a), r)
    ensures Missed(s, r)
  {
    OwnDoze(s, a, r);
    if WakePending(s.pcs) { PendingKept(s, a); }
  }

  lemma StorePends(s: State, a: Action)
    requires Enabled(s, a)
    ensures a.Step? && s.pcs[a.t].FStore? ==> WakePending(Next(s, a).pcs)
  {
    if a.Step? && s.pcs[a.t].FStore? {
      assert Next(s, a).pcs[a.t].FNotifyReaders?;
    }
  }

  lemma OtherStepMisses(s: State, a: Action, r: Tid)
    requires Enabled(s, a) && a.t != r && r in s.pcs && Missed(Next(s, a), r) && !InGap(s, a, r)
    ensures Missed(s, r)
  {
    OtherThread(s, a, r);
    if !a.Connect? { FlagKept(s, a); }
    StorePends(s, a);
    if WakePending(s.pcs) && !(a.Step? && s.pcs[a.t].FNotifyReaders?) {
      PendingKept(s, a);
    }
  }

  /** The only step that makes `r` miss the loss is one in the gap. */
  lemma OnlyTheGapMisses(s: State, a: Action, r: Tid)
    requires Enabled(s, a) && r in s.pcs && !Missed(s, r) && Missed(Next(s, a), r)
    ensures InGap(s, a, r)
  {
    if !InGap(s, a, r) {
      if a.t == r { OwnStepMisses(s, a, r); } else { OtherStepMisses(s, a, r); }
    }
  }

  ghost predicate MissedThroughout(s: State, acts: seq<Action>, r: Tid)
    requires Runs(s, acts)
    decreases |acts|
  {
    Missed(s, r) && (acts == [] || MissedThroughout(Next(s, acts[0]), acts[1..], r))
  }

  /** Some step of the run is in the gap, and from then on to the end `r` has missed the loss. */
  ghost predicate HitsGapForGood(s: State, acts: seq<Action>, r: Tid)
    requires Runs(s, acts)
    decreases |acts|
  {
    && acts != []
    && var s', rest := Next(s, acts[0]), acts[1..];
       (InGap(s, acts[0], r) && MissedThroughout(s', rest, r)) || HitsGapForGood(s', rest, r)
  }

  lemma {:induction false} MissedHitsGap(s: State, acts: seq<Action>, r: Tid)
    requires r in s.pcs && Runs(s, acts) && Missed(Exec(s, acts), r)
    ensures HitsGapForGood(s, acts, r) || MissedThroughout(s, acts, r)
    decreases |acts|
  {
    if acts != [] {
      var s' := Next(s, acts[0]);
      KeysKept(s, acts[0]);
      MissedHitsGap(s', acts[1..], r);
      if MissedThroughout(s', acts[1..], r) && !Missed(s, r) {
        OnlyTheGapMisses(s, acts[0], r);
      }
    }
  }

  lemma {:induction false} ThroughoutToTheEnd(s: State, acts: seq<Action>, r: Tid)
    requires Runs(s, acts) && (MissedThroughout(s, acts, r) || HitsGapForGood(s, acts, r))
    ensures Missed(Exec(s, acts), r)
    decreases |acts|
  {
    if acts != [] {
      ThroughoutToTheEnd(Next(s, acts[0]), acts[1..], r);
    }
  }

  /** The gap is the only cause, with any number of threads, and exactly: at the end of a run a reader
      dozes beside a cleared flag with nobody about to notify it if and only if in that run the
      readers were notified while it stood between its test of the flag and its sleep, and it has
      been left so since. */
  lemma MissedIffGap(size: nat, threads: set<Tid>, acts: seq<Action>, r: Tid)
    requires r in threads && Runs(Init(size, threads), acts)
    ensures Missed(Exec(Init(size, threads), acts), r) <==> HitsGapForGood(Init(size, threads), acts, r)
  {
    if Missed(Exec(Init(size, threads), acts), r) {
      MissedHitsGap(Init(size, threads), acts, r);
    }
    if HitsGapForGood(Init(size, threads), acts, r) {
      ThroughoutToTheEnd(Init(size, threads), acts, r);
    }
  }

  /** `r` dozes beside a cleared flag on an empty ring, and no other thread is on the way to notify
      it: none writes, and none is past the test in setConnectionFlag. */
  ghost predicate Doomed(s: State, r: Tid)
  {
    && !s.connected && s.contents == [] && r in s.pcs && Dozing(s.pcs[r])
    && forall t :: t in s.pcs && t != r ==> Harmless(s.pcs[t])
  }

  predicate Harmless(pc: Pc)
  {
    !Writing(pc) && !pc.WNotify? && !pc.FStore? && !pc.FNotifyReaders?
  }

  /** The gap dooms: the notification is lost if it is the last. */
  lemma GapDooms(s: State, u: Tid, r: Tid)
    requires u in s.pcs && s.pcs[u].FNotifyReaders? && InGap(s, Step(u), r) && !s.pcs[r].timed
    requires !s.connected && s.contents == []
    requires forall t :: t in s.pcs && t != r && t != u ==> Harmless(s.pcs[t])
    ensures Doomed(Next(s, Step(u)), r)
  {
  }

  /** Nothing reaches the doomed reader but a new connection, a write or a spurious wake-up. */
  predicate Hopeless(acts: seq<Action>, r: Tid)
  {
    forall i :: 0 <= i < |acts| ==> !acts[i].Connect? && !acts[i].CallWrite? && !(acts[i].Wake? && acts[i].t == r)
  }

  lemma DoomedStep(s: State, a: Action, r: Tid)
    requires Doomed(s, r) && Enabled(s, a) && !a.Connect? && !a.CallWrite? && !(a.Wake? && a.t == r)
    ensures Doomed(Next(s, a), r)
  {
    var s' := Next(s, a);
    KeysKept(s, a);
    FlagKept(s, a);
    if a.t != r {
      HarmlessStep(s, a);
      DozesOn(s, a, r);
    }
    forall t | t in s'.pcs && t != r && t != a.t
      ensures Harmless(s'.pcs[t])
    {
      OtherThread(s, a, t);
    }
  }

  lemma DozesOn(s: State, a: Action, r: Tid)
    requires Enabled(s, a) && a.t != r && r in s.pcs && Dozing(s.pcs[r]) && Harmless(s.pcs[a.t])
    ensures r in Next(s, a).pcs && Next(s, a).pcs[r] == s.pcs[r]
  {
  }

  lemma HarmlessStep(s: State, a: Action)
    requires Enabled(s, a) && Harmless(s.pcs[a.t]) && !s.connected && s.contents == []
    requires !a.Connect? && !a.CallWrite?
    ensures a.t in Next(s, a).pcs && Harmless(Next(s, a).pcs[a.t]) && Next(s, a).contents == []
  {
  }

  /** Once missed, missed for good: further calls of disconnect do not notify, since they find the
      flag cleared, and the reader sleeps through every run without a new connection, a write or a
      spurious wake-up. */
  lemma {:induction false} MissedForGood(s: State, acts: seq<Action>, r: Tid)
    requires Doomed(s, r) && Runs(s, acts) && Hopeless(acts, r)
    ensures Doomed(Exec(s, acts), r)
    decreases |acts|
  {
    if acts != [] {
      DoomedStep(s, acts[0], r);
      MissedForGood(Next(s, acts[0]), acts[1..], r);
    }
  }

  // ---------------------------------------------------------------- a writer that waits

  /** Thread `t` is in the wait of a write of `bytes`. */
  predicate WaitsWith(s: State, t: Tid, bytes: seq<Byte>)
  {
    && t in s.pcs
    && (s.pcs[t] == WWait(bytes) || s.pcs[t] == WWoken(bytes) || (s.pcs[t].WAsleep? && s.pcs[t].bytes == bytes))
  }

  /** The wait has ended: there was room, and the thread has copied what fits. */
  predicate Copied(s: State, s': State, t: Tid, bytes: seq<Byte>)
  {
    && |s.contents| < s.size - 1
    && var k := Min(|bytes|, s.size - 1 - |s.contents|);
       && t in s'.pcs && s'.pcs[t] == WNotify(k)
       && s'.written == s.written + bytes[..k]
  }

  lemma WaitingStep(s: State, a: Action, t: Tid, bytes: seq<Byte>)
    requires WaitsWith(s, t, bytes) && Enabled(s, a)
    ensures WaitsWith(Next(s, a), t, bytes) || Copied(s, Next(s, a), t, bytes)
  {
    if a.t != t { OtherThread(s, a, t); }
  }

  /** Along the run the thread waits, until it copies or to the end. */
  predicate WaitsUntilCopied(s: State, acts: seq<Action>, t: Tid, bytes: seq<Byte>)
    requires Runs(s, acts)
    decreases |acts|
  {
    && WaitsWith(s, t, bytes)
    && (acts == [] || var s' := Next(s, acts[0]);
                      Copied(s, s', t, bytes) || WaitsUntilCopied(s', acts[1..], t, bytes))
  }

  /** A write that has begun to wait never reports the loss of the connection: in every run, whatever
      happens to the flag, it waits until there is room, and then it copies what fits. */
  lemma {:induction false} WaitingWriteNeverLost(s: State, acts: seq<Action>, t: Tid, bytes: seq<Byte>)
    requires WaitsWith(s, t, bytes) && Runs(s, acts)
    ensures WaitsUntilCopied(s, acts, t, bytes)
    decreases |acts|
  {
    if acts != [] {
      WaitingStep(s, acts[0], t, bytes);
      if WaitsWith(Next(s, acts[0]), t, bytes) {
        WaitingWriteNeverLost(Next(s, acts[0]), acts[1..], t, bytes);
      }
    }
  }

  ghost predicate NobodyReads(pcs: map<Tid, Pc>)
  {
    forall t :: t in pcs ==> !Reading(pcs[t])
  }

  predicate NoReadCalls(acts: seq<Action>)
  {
    forall i :: 0 <= i < |acts| ==> !acts[i].CallRead?
  }

  lemma FullStep(s: State, a: Action)
    requires Enabled(s, a) && |s.contents| >= s.size - 1 && NobodyReads(s.pcs) && !a.CallRead?
    ensures Next(s, a).contents == s.contents && Next(s, a).size == s.size && NobodyReads(Next(s, a).pcs)
  {
    var s' := Next(s, a);
    KeysKept(s, a);
    assert !Reading(s.pcs[a.t]);
    FullOwnStep(s, a);
    forall t | t in s'.pcs && t != a.t
      ensures !Reading(s'.pcs[t])
    {
      OtherThread(s, a, t);
    }
  }

  lemma FullOwnStep(s: State, a: Action)
    requires Enabled(s, a) && |s.contents| >= s.size - 1 && !Reading(s.pcs[a.t]) && !a.CallRead?
    ensures Next(s, a).contents == s.contents && Next(s, a).size == s.size
    ensures a.t in Next(s, a).pcs && !Reading(Next(s, a).pcs[a.t])
  {
  }

  /** So a disconnect does not release a waiting writer: if nobody reads any more it waits for good,
      whoever connects, disconnects or writes. */
  lemma {:induction false} WriterHangs(s: State, acts: seq<Action>, t: Tid, bytes: seq<Byte>)
    requires WaitsWith(s, t, bytes) && |s.contents| >= s.size - 1 && NobodyReads(s.pcs)
    requires Runs(s, acts) && NoReadCalls(acts)
    ensures WaitsWith(Exec(s, acts), t, bytes) && Exec(s, acts).contents == s.contents
    decreases |acts|
  {
    if acts != [] {
      WaitingStep(s, acts[0], t, bytes);
      FullStep(s, acts[0]);
      WriterHangs(Next(s, acts[0]), acts[1..], t, bytes);
    }
  }

  /** Such a state is reached on every ring: a writer fills it, waits in its next write, and another
      thread disconnects. */
  lemma HangingWriterReached(size: nat, threads: set<Tid>, w: Tid, u: Tid) returns (s: State)
    requires size >= 2 && w in threads && u in threads && w != u
    ensures Leads(Init(size, threads), s, {}, {w})
    ensures WaitsWith(s, w, [0]) && !s.connected && |s.contents| == s.size - 1 && NobodyReads(s.pcs)
  {
    var cast := Cast(Init(size, threads), {}, {w});
    var s1 := Start(size, threads);
    StartReached(size, threads, {}, {w}, w);
    WriterCopies(cast, s1, w, FullRing(size));
    WriterTells(cast, With(s1, FullRing(size)), w, size - 1);
    var s2 := Goto(With(s1, FullRing(size)).(pcs := NotifyReaders(s1.pcs)), w, Idle);
    WriterSleeps(cast, s2, w, [0]);
    var s3 := Goto(s2, w, WAsleep([0], false));
    Disconnects(cast, s3, u);
    s := Off(s3);
  }
}
