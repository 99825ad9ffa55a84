/** What the calls of the blocking queue return, over every run and for any number of threads: each
    result is stated from the call that was made and the state of the queue at that moment. */
module QueueResults {
  import opened Bytes
  import opened Monitor
  import opened MonitorFrames
  import opened Wrappers

  // ---------------------------------------------------------------- the history of a thread

  predicate IsCall(a: Action)
  {
    a.CallRead? || a.CallWrite? || a.CallDisconnect?
  }

  /** The last call thread `t` has made in a run, and its last action of any kind. */
  function LastCall(acts: seq<Action>, t: Tid): Option<Action>
    decreases |acts|
  {
    if acts == [] then None
    else
      var a := acts[|acts| - 1];
      if a.t == t && IsCall(a) then Some(a) else LastCall(acts[..|acts| - 1], t)
  }

  function LastOwn(acts: seq<Action>, t: Tid): Option<Action>
    decreases |acts|
  {
    if acts == [] then None
    else if acts[|acts| - 1].t == t then Some(acts[|acts| - 1])
    else LastOwn(acts[..|acts| - 1], t)
  }

  lemma {:induction false} Unsnoc(s: State, acts: seq<Action>)
    requires Runs(s, acts) && acts != []
    ensures var front, a := acts[..|acts| - 1], acts[|acts| - 1];
            Runs(s, front) && Enabled(Exec(s, front), a) && Exec(s, acts) == Next(Exec(s, front), a)
    decreases |acts|
  {
    if |acts| == 1 {
      assert acts[..0] == [] && acts[1..] == [];
    } else {
      var tail := acts[1..];
      Unsnoc(Next(s, acts[0]), tail);
      assert tail[..|tail| - 1] == acts[..|acts| - 1][1..] && tail[|tail| - 1] == acts[|acts| - 1];
    }
  }

  /** The place of thread `t` in the code carries what it was called with, and a woken reader how it
      was woken. */
  ghost predicate FromCall(t: Tid, pc: Pc, call: Option<Action>, own: Option<Action>)
  {
    match pc
    case Idle => true
    case Done(_) => call.Some? && !call.value.CallDisconnect?
    case RLock(n, timed) => call == Some(CallRead(t, n, timed))
    case RNotify(n, timed) => call == Some(CallRead(t, n, timed))
    case RHead(n, timed) => call == Some(CallRead(t, n, timed))
    case RWait(n, timed) => call == Some(CallRead(t, n, timed))
    case RAsleep(n, timed, _) => call == Some(CallRead(t, n, timed))
    case RWoken(n, timed, expired) =>
      call == Some(CallRead(t, n, timed)) && own == Some(Wake(t, expired)) && (expired ==> timed)
    case WLock(bytes) => call == Some(CallWrite(t, bytes))
    case WHead(bytes) => call == Some(CallWrite(t, bytes))
    case WWait(bytes) => call == Some(CallWrite(t, bytes))
    case WAsleep(bytes, _) => call == Some(CallWrite(t, bytes))
    case WWoken(bytes) => call == Some(CallWrite(t, bytes))
    case WNotify(k) => call.Some? && call.value.CallWrite? && k <= |call.value.bytes|
    case _ => call == Some(CallDisconnect(t))
  }

  lemma OwnTurnFromCall(s: State, a: Action, call: Option<Action>, own: Option<Action>)
    requires Enabled(s, a) && !a.Step? && FromCall(a.t, s.pcs[a.t], call, own)
    ensures a.t in Next(s, a).pcs
    ensures FromCall(a.t, Next(s, a).pcs[a.t], if IsCall(a) then Some(a) else call, Some(a))
  {
  }

  lemma OwnStepFromCall(s: State, t: Tid, call: Option<Action>, own: Option<Action>)
    requires Enabled(s, Step(t)) && FromCall(t, s.pcs[t], call, own)
    ensures t in StepOf(s, t).pcs && FromCall(t, StepOf(s, t).pcs[t], call, Some(Step(t)))
  {
  }

  lemma {:induction false} EveryPcFromCall(size: nat, threads: set<Tid>, acts: seq<Action>, t: Tid)
    requires t in threads && Runs(Init(size, threads), acts)
    ensures var s := Exec(Init(size, threads), acts);
            t in s.pcs && FromCall(t, s.pcs[t], LastCall(acts, t), LastOwn(acts, t))
    decreases |acts|
  {
    if acts != [] {
      var front, a := acts[..|acts| - 1], acts[|acts| - 1];
      Unsnoc(Init(size, threads), acts);
      EveryPcFromCall(size, threads, front, t);
      var s := Exec(Init(size, threads), front);
      if a.t != t {
        OtherThread(s, a, t);
      } else if a.Step? {
        OwnStepFromCall(s, t, LastCall(front, t), LastOwn(front, t));
      } else {
        OwnTurnFromCall(s, a, LastCall(front, t), LastOwn(front, t));
      }
    }
  }

  // ---------------------------------------------------------------- every result

  /** Nothing is copied and the flag stays. */
  ghost predicate SameQueue(s: State, s': State)
  {
    s'.contents == s.contents && s'.written == s.written && s'.delivered == s.delivered && s'.connected == s.connected
  }

  /** `result`, returned by the step from `s` to `s'`, is the answer to the call. A read delivers the
      oldest bytes, all that are wanted or all there are. It reports the loss of the connection or,
      if timed and just woken because the time was up, a timeout, on an empty ring only. A write
      is refused if it is as long as the ring, and lost if the ring is full and disconnected. */
  ghost predicate Answers(t: Tid, call: Action, own: Option<Action>, s: State, s': State, result: Result)
    requires t in s.pcs
  {
    match call
    case CallRead(_, n, timed) =>
      (match result
       case Data(bytes) =>
         && s.contents != [] && |bytes| == Min(n, |s.contents|) && s.contents == bytes + s'.contents
         && s'.delivered == s.delivered + bytes && s'.written == s.written
       case ConnectionLost => s.contents == [] && !s.connected && SameQueue(s, s')
       case Timeout => timed && own == Some(Wake(t, true)) && s.contents == [] && s.connected && SameQueue(s, s')
       case _ => false)
    case CallWrite(_, bytes) =>
      (match result
       case Wrote(k) => s.pcs[t] == WNotify(k) && k <= |bytes| && SameQueue(s, s')
       case TooBigBuffer => |bytes| >= s.size && SameQueue(s, s')
       case ConnectionLost => |bytes| < s.size && |s.contents| >= s.size - 1 && !s.connected && SameQueue(s, s')
       case _ => false)
    case _ => false
  }

  predicate Returns(s: State, a: Action)
  {
    && Enabled(s, a) && !s.pcs[a.t].Done?
    && a.t in Next(s, a).pcs && Next(s, a).pcs[a.t].Done?
  }

  lemma StepAnswers(s: State, a: Action, call: Option<Action>, own: Option<Action>)
    requires Returns(s, a) && FromCall(a.t, s.pcs[a.t], call, own)
    ensures call.Some? && Answers(a.t, call.value, own, s, Next(s, a), Next(s, a).pcs[a.t].result)
  {
    if s.pcs[a.t].RHead? { ReadAnswers(s, a.t, call, own); }
  }

  lemma ReadAnswers(s: State, t: Tid, call: Option<Action>, own: Option<Action>)
    requires t in s.pcs && s.pcs[t].RHead? && FromCall(t, s.pcs[t], call, own)
    requires t in StepOf(s, t).pcs && StepOf(s, t).pcs[t].Done?
    ensures call.Some? && Answers(t, call.value, own, s, StepOf(s, t), StepOf(s, t).pcs[t].result)
  {
    var k := Min(s.pcs[t].n, |s.contents|);
    assert s.contents == s.contents[..k] + s.contents[k..];
  }

  /** Every result, in every run, is the answer to the thread's last call. */
  lemma EveryResultAnswers(size: nat, threads: set<Tid>, acts: seq<Action>, a: Action)
    requires a.t in threads && Runs(Init(size, threads), acts) && Returns(Exec(Init(size, threads), acts), a)
    ensures var s, call := Exec(Init(size, threads), acts), LastCall(acts, a.t);
            && call.Some?
            && Answers(a.t, call.value, LastOwn(acts, a.t), s, Next(s, a), Next(s, a).pcs[a.t].result)
  {
    EveryPcFromCall(size, threads, acts, a.t);
    StepAnswers(Exec(Init(size, threads), acts), a, LastCall(acts, a.t), LastOwn(acts, a.t));
  }

  /** The step from `s` to `s'` copies the beginning of the buffer of `call`, all of it or as much as
      fits, and the number of bytes copied is the number the write will return. */
  ghost predicate Copies(t: Tid, call: Option<Action>, s: State, s': State)
  {
    && call.Some? && call.value.CallWrite? && |s.contents| < s.size - 1
    && var bytes := call.value.bytes;
       var k := Min(|bytes|, s.size - 1 - |s.contents|);
       && t in s'.pcs && s'.pcs[t] == WNotify(k)
       && s'.contents == s.contents + bytes[..k] && s'.written == s.written + bytes[..k]
  }

  /** The step changes the bytes written, or ends in the state before a writer's notification. */
  predicate CopyStep(s: State, a: Action)
  {
    Enabled(s, a) && (Next(s, a).written != s.written || (a.t in Next(s, a).pcs && Next(s, a).pcs[a.t].WNotify?))
  }

  lemma CopyIsTest(s: State, a: Action)
    requires CopyStep(s, a)
    ensures a.Step? && (s.pcs[a.t].WHead? || s.pcs[a.t].WWoken?)
  {
  }

  lemma TestCopies(s: State, t: Tid, call: Option<Action>, own: Option<Action>)
    requires t in s.pcs && (s.pcs[t].WHead? || s.pcs[t].WWoken?) && FromCall(t, s.pcs[t], call, own)
    requires StepOf(s, t).written != s.written || (t in StepOf(s, t).pcs && StepOf(s, t).pcs[t].WNotify?)
    ensures Copies(t, call, s, StepOf(s, t))
  {
  }

  /** In every run nothing enters the ring but by such a copy. */
  lemma EveryCopyIsPrefix(size: nat, threads: set<Tid>, acts: seq<Action>, a: Action)
    requires a.t in threads && Runs(Init(size, threads), acts) && CopyStep(Exec(Init(size, threads), acts), a)
    ensures var s := Exec(Init(size, threads), acts);
            Copies(a.t, LastCall(acts, a.t), s, Next(s, a))
  {
    EveryPcFromCall(size, threads, acts, a.t);
    var s := Exec(Init(size, threads), acts);
    CopyIsTest(s, a);
    TestCopies(s, a.t, LastCall(acts, a.t), LastOwn(acts, a.t));
  }

  /** The bytes that reads return in a run, in the order in which they return. */
  function ReadBytes(s: State, acts: seq<Action>): seq<Byte>
    requires Runs(s, acts)
    decreases |acts|
  {
    if acts == [] then []
    else
      (if Returns(s, acts[0]) && Next(s, acts[0]).pcs[acts[0].t].result.Data?
       then Next(s, acts[0]).pcs[acts[0].t].result.bytes else [])
      + ReadBytes(Next(s, acts[0]), acts[1..])
  }

  lemma StepDelivers(s: State, a: Action)
    requires Enabled(s, a)
    ensures Next(s, a).delivered == s.delivered + if Returns(s, a) && Next(s, a).pcs[a.t].result.Data?
                                                  then Next(s, a).pcs[a.t].result.bytes else []
  {
    if a.Step? && AtTest(s.pcs[a.t]) { TestDelivers(s, a.t); }
  }

  lemma TestDelivers(s: State, t: Tid)
    requires t in s.pcs && AtTest(s.pcs[t])
    ensures var s' := StepOf(s, t);
            && t in s'.pcs
            && s'.delivered == s.delivered + match s'.pcs[t] { case Done(Data(bytes)) => bytes case _ => [] }
  {
  }

  /** What the readers are given, put together in the order of their returns, is what has left the
      ring: with any number of threads, timed or not, no byte is given twice or to nobody. */
  lemma {:induction false} ReadersGetTheDelivered(s: State, acts: seq<Action>)
    requires Runs(s, acts)
    ensures Exec(s, acts).delivered == s.delivered + ReadBytes(s, acts)
    decreases |acts|
  {
    if acts == [] {
      assert s.delivered + [] == s.delivered;
    } else {
      var s' := Next(s, acts[0]);
      StepDelivers(s, acts[0]);
      ReadersGetTheDelivered(s', acts[1..]);
      var first := if Returns(s, acts[0]) && s'.pcs[acts[0].t].result.Data?
                   then s'.pcs[acts[0].t].result.bytes else [];
      Assoc(s.delivered, first, ReadBytes(s', acts[1..]));
    }
  }

  /** A call ends by returning: a thread becomes idle only when its result is collected, or at the end
      of a disconnect. */
  lemma CallsEndByReturning(s: State, a: Action, t: Tid)
    requires Enabled(s, a) && t in s.pcs && !s.pcs[t].Idle?
    ensures var pc := s.pcs[t];
            t in Next(s, a).pcs && (Next(s, a).pcs[t].Idle? <==>
              || (a == Collect(t) && pc.Done?)
              || (a == Step(t) && (pc.FNotifyWriters? || (pc.FTest? && !s.connected))))
  {
    if a.t != t { OtherThread(s, a, t); }
  }

  // ---------------------------------------------------------------- what a test decides

  /** The head of a read: it waits, reports the loss, or delivers. */
  lemma ReadTestDecides(s: State, t: Tid)
    requires t in s.pcs && s.pcs[t].RHead?
    ensures var s', n, timed := StepOf(s, t), s.pcs[t].n, s.pcs[t].timed;
            && t in s'.pcs
            && (s'.pcs[t] == RWait(n, timed) <==> s.contents == [] && s.connected)
            && (s'.pcs[t] == Done(ConnectionLost) <==> s.contents == [] && !s.connected)
            && (s'.pcs[t].Done? && s'.pcs[t].result.Data? <==> s.contents != [])
  {
  }

  /** A woken reader: it looks again if there is data or, untimed, if the flag is set; a timed read
      sleeps on until its time is up, and then reports the loss or the timeout. */
  lemma WokenReadDecides(s: State, t: Tid)
    requires t in s.pcs && s.pcs[t].RWoken?
    ensures var s', n, timed, expired := StepOf(s, t), s.pcs[t].n, s.pcs[t].timed, s.pcs[t].expired;
            && t in s'.pcs
            && (s'.pcs[t] == RHead(n, timed) <==> s.contents != [] || (!timed && s.connected))
            && (s'.pcs[t] == RWait(n, timed) <==> s.contents == [] && timed && !expired)
            && (s'.pcs[t] == Done(Timeout) <==> s.contents == [] && timed && expired && s.connected)
            && (s'.pcs[t] == Done(ConnectionLost) <==> s.contents == [] && !s.connected && (timed ==> expired))
  {
  }

  lemma WriteTestDecides(s: State, t: Tid)
    requires t in s.pcs && s.pcs[t].WHead?
    ensures var s', bytes := StepOf(s, t), s.pcs[t].bytes;
            var full := |s.contents| >= s.size - 1;
            && t in s'.pcs
            && (s'.pcs[t] == Done(TooBigBuffer) <==> |bytes| >= s.size)
            && (s'.pcs[t] == WWait(bytes) <==> |bytes| < s.size && full && s.connected)
            && (s'.pcs[t] == Done(ConnectionLost) <==> |bytes| < s.size && full && !s.connected)
            && (s'.pcs[t].WNotify? <==> |bytes| < s.size && !full)
  {
  }

  /** Where a timed read is after its time was up, until it returns: never asleep again. */
  predicate Ending(s: State, t: Tid)
  {
    && t in s.pcs
    && match s.pcs[t]
       case RWoken(_, timed, expired) => timed && expired
       case RHead(_, timed) => timed && s.contents != []
       case _ => false
  }

  ghost predicate EndingUntilDone(s: State, acts: seq<Action>, t: Tid)
    requires Runs(s, acts)
    decreases |acts|
  {
    && Ending(s, t)
    && (acts == [] || var s' := Next(s, acts[0]);
                      (t in s'.pcs && s'.pcs[t].Done?) || EndingUntilDone(s', acts[1..], t))
  }

  lemma OwnStepEnds(s: State, t: Tid)
    requires Ending(s, t)
    ensures var s' := StepOf(s, t);
            Ending(s', t) || (t in s'.pcs && s'.pcs[t].Done?)
    ensures s.pcs[t].RHead? ==> StepOf(s, t).pcs[t].Done?
  {
  }

  /** While `t` holds the mutex, nobody else changes the ring. */
  lemma OthersKeepRing(s: State, a: Action, t: Tid)
    requires Inv(s) && Enabled(s, a) && t in s.pcs && Holds(s.pcs[t]) && a.t != t
    ensures Next(s, a).contents == s.contents
    ensures t in Next(s, a).pcs && Next(s, a).pcs[t] == s.pcs[t]
  {
    OtherThread(s, a, t);
    assert !Holds(s.pcs[a.t]);
  }

  /** Once its time is up, a timed read returns at its next steps, whatever the others do: with data
      if there is any, and otherwise with the loss of the connection or the timeout. */
  lemma {:induction false} ExpiredReadEnds(s: State, acts: seq<Action>, t: Tid)
    requires Inv(s) && Ending(s, t) && Runs(s, acts)
    ensures EndingUntilDone(s, acts, t)
    decreases |acts|
  {
    if acts != [] {
      var s' := Next(s, acts[0]);
      StepKeepsInv(s, acts[0]);
      if acts[0].t != t {
        OthersKeepRing(s, acts[0], t);
      } else {
        OwnStepEnds(s, t);
      }
      if !(t in s'.pcs && s'.pcs[t].Done?) {
        ExpiredReadEnds(s', acts[1..], t);
      }
    }
  }

  /** A sleeping thread can wake at any time the mutex is free, notified or not. */
  lemma MayWake(s: State, t: Tid)
    requires t in s.pcs && Asleep(s.pcs[t]) && s.owner == None
    ensures Enabled(s, Wake(t, false))
    ensures var s' := Next(s, Wake(t, false));
            t in s'.pcs && s'.owner == Some(t) && (s'.pcs[t].RWoken? || s'.pcs[t].WWoken?)
  {
  }

  /** The time of a timed read can run out whenever it sleeps and the mutex is free; on an empty
      connected ring it then returns the timeout. */
  lemma TimeCanRunOut(s: State, t: Tid)
    requires t in s.pcs && s.pcs[t].RAsleep? && s.pcs[t].timed && s.owner == None
    ensures Enabled(s, Wake(t, true)) && Enabled(Next(s, Wake(t, true)), Step(t))
    ensures Ending(Next(s, Wake(t, true)), t)
    ensures s.contents == [] && s.connected ==>
              var s' := Next(Next(s, Wake(t, true)), Step(t));
              t in s'.pcs && s'.pcs[t] == Done(Timeout)
  {
  }

  // ---------------------------------------------------------------- whom a step wakes, and the flag

  /** A writer's notification, and that of a disconnect, leave no reader asleep un-notified and no
      other thread touched. */
  lemma ReadersNotified(s: State, t: Tid, u: Tid)
    requires t in s.pcs && (s.pcs[t].WNotify? || s.pcs[t].FNotifyReaders?) && u in s.pcs && u != t
    ensures u in StepOf(s, t).pcs && !ReaderStuck(StepOf(s, t).pcs[u])
    ensures !s.pcs[u].RAsleep? ==> StepOf(s, t).pcs[u] == s.pcs[u]
  {
  }

  /** A reader's notification, and that of a disconnect, leave no writer asleep un-notified. */
  lemma WritersNotified(s: State, t: Tid, u: Tid)
    requires t in s.pcs && (s.pcs[t].RNotify? || s.pcs[t].FNotifyWriters?) && u in s.pcs && u != t
    ensures u in StepOf(s, t).pcs && !WriterStuck(StepOf(s, t).pcs[u])
    ensures !s.pcs[u].WAsleep? ==> StepOf(s, t).pcs[u] == s.pcs[u]
  {
  }

  /** The flag is set by a connect and cleared by a disconnect that has found it set; nothing else
      changes it. */
  lemma FlagChanges(s: State, a: Action)
    requires Enabled(s, a)
    ensures Next(s, a).connected == (a.Connect? || (s.connected && !(a.Step? && s.pcs[a.t].FStore?)))
    ensures a.Step? && s.pcs[a.t].FTest? ==>
              a.t in Next(s, a).pcs && Next(s, a).pcs[a.t] == if s.connected then FStore else Idle
  {
    if !a.Connect? { FlagKept(s, a); }
  }

  /** A new queue is not connected, and nothing but a connect sets its flag. */
  lemma {:induction false} ConnectedByConnect(size: nat, threads: set<Tid>, acts: seq<Action>)
    requires Runs(Init(size, threads), acts) && Exec(Init(size, threads), acts).connected
    ensures exists i :: 0 <= i < |acts| && acts[i].Connect?
    decreases |acts|
  {
    if acts != [] {
      var front, a := acts[..|acts| - 1], acts[|acts| - 1];
      Unsnoc(Init(size, threads), acts);
      FlagChanges(Exec(Init(size, threads), front), a);
      if !a.Connect? {
        ConnectedByConnect(size, threads, front);
        var i :| 0 <= i < |front| && front[i].Connect?;
        assert acts[i].Connect?;
      }
    }
  }
}
