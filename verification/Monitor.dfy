/** The blocking queue as a monitor: any number of threads, one mutex, two condition variables
    and a flag that is written without the mutex. Threads advance one access at a time. */
module Monitor {
  import opened Bytes
  import opened QueueSections
  import opened Wrappers

  type Tid = nat

  datatype Result =
    | Data(bytes: seq<Byte>)
    | Wrote(count: nat)
    | ConnectionLost
    | Timeout
    | TooBigBuffer

  /** Where a thread is. Only a thread that `Holds` the mutex is inside a locked stretch. `timed`
      distinguishes readWithTimeout from read. */
  datatype Pc =
    | Idle
    | Done(result: Result)
    // read and readWithTimeout
    | RLock(n: nat, timed: bool)
    | RNotify(n: nat, timed: bool)
    | RHead(n: nat, timed: bool)
    | RWait(n: nat, timed: bool)
    | RAsleep(n: nat, timed: bool, notified: bool)
    | RWoken(n: nat, timed: bool, expired: bool)
    // write
    | WLock(bytes: seq<Byte>)
    | WHead(bytes: seq<Byte>)
    | WWait(bytes: seq<Byte>)
    | WAsleep(bytes: seq<Byte>, notified: bool)
    | WWoken(bytes: seq<Byte>)
    | WNotify(count: nat)
    // setConnectionFlag(false)
    | FTest
    | FStore
    | FNotifyReaders
    | FNotifyWriters

  /** `written` and `delivered` are the bytes that have entered and left the ring so far. */
  datatype State = State(
    size: nat, contents: seq<Byte>, connected: bool,
    owner: Option<Tid>, pcs: map<Tid, Pc>,
    written: seq<Byte>, delivered: seq<Byte>)

  /** `Wake` is the end of a wait: after a notification, spuriously, or (`expired`) because the
      time is up. `Collect` is the caller taking its result. */
  datatype Action =
    | CallRead(t: Tid, n: nat, timed: bool)
    | CallWrite(t: Tid, bytes: seq<Byte>)
    | CallDisconnect(t: Tid)
    | Connect(t: Tid)
    | Step(t: Tid)
    | Wake(t: Tid, expired: bool)
    | Collect(t: Tid)

  predicate Holds(pc: Pc)
  {
    pc.RNotify? || pc.RHead? || pc.RWait? || pc.RWoken? || pc.WHead? || pc.WWait? || pc.WWoken? || pc.WNotify?
  }

  predicate Asleep(pc: Pc)
  {
    pc.RAsleep? || pc.WAsleep?
  }

  predicate ReaderStuck(pc: Pc)
  {
    pc.RAsleep? && !pc.notified
  }

  predicate WriterStuck(pc: Pc)
  {
    pc.WAsleep? && !pc.notified
  }

  function Notified(pc: Pc): (r: Pc)
  {
    match pc
    case RAsleep(n, timed, _) => RAsleep(n, timed, true)
    case WAsleep(bytes, _) => WAsleep(bytes, true)
    case _ => pc
  }

  /** notify_all on the readers' and on the writers' condition variable. */
  function NotifyReaders(pcs: map<Tid, Pc>): (r: map<Tid, Pc>)
    ensures r.Keys == pcs.Keys
  {
    map t | t in pcs :: if pcs[t].RAsleep? then Notified(pcs[t]) else pcs[t]
  }

  function NotifyWriters(pcs: map<Tid, Pc>): (r: map<Tid, Pc>)
    ensures r.Keys == pcs.Keys
  {
    map t | t in pcs :: if pcs[t].WAsleep? then Notified(pcs[t]) else pcs[t]
  }

  // ---------------------------------------------------------------- steps

  function Goto(s: State, t: Tid, pc: Pc): State
  {
    s.(pcs := s.pcs[t := pc])
  }

  function Leave(s: State, t: Tid, pc: Pc): State
  {
    s.(pcs := s.pcs[t := pc], owner := None)
  }

  function Enter(s: State, t: Tid, pc: Pc): State
  {
    s.(pcs := s.pcs[t := pc], owner := Some(t))
  }

  function DoRead(s: State, t: Tid, n: nat, timed: bool, move: ReadMove): State
  {
    match move
    case Deliver(k) =>
      var k := Min(k, |s.contents|);
      Leave(s, t, Done(Data(s.contents[..k]))).(contents := s.contents[k..], delivered := s.delivered + s.contents[..k])
    case ReadLost => Leave(s, t, Done(ConnectionLost))
    case ReadTimeout => Leave(s, t, Done(Timeout))
    case ReadSleep => Goto(s, t, RWait(n, timed))
    case Retest => Goto(s, t, RHead(n, timed))
  }

  function DoWrite(s: State, t: Tid, bytes: seq<Byte>, move: WriteMove): State
  {
    match move
    case Accept(k) =>
      var k := Min(k, |bytes|);
      Goto(s, t, WNotify(k)).(contents := s.contents + bytes[..k], written := s.written + bytes[..k])
    case Refuse => Leave(s, t, Done(TooBigBuffer))
    case WriteLost => Leave(s, t, Done(ConnectionLost))
    case WriteSleep => Goto(s, t, WWait(bytes))
  }

  predicate CanStep(s: State, pc: Pc)
  {
    match pc
    case Idle => false
    case Done(_) => false
    case RLock(_, _) => s.owner == None
    case WLock(_) => s.owner == None
    case _ => !Asleep(pc)
  }

  predicate Enabled(s: State, a: Action)
  {
    && a.t in s.pcs
    && var pc := s.pcs[a.t];
       match a
       case CallRead(_, _, _) => pc.Idle?
       case CallWrite(_, _) => pc.Idle?
       case CallDisconnect(_) => pc.Idle?
       case Connect(_) => pc.Idle?
       case Step(_) => CanStep(s, pc)
       case Wake(_, expired) => Asleep(pc) && s.owner == None && (expired ==> pc.RAsleep? && pc.timed)
       case Collect(_) => pc.Done?
  }

  function StepOf(s: State, t: Tid): (s': State)
    requires t in s.pcs
  {
    match s.pcs[t]
    case RLock(n, timed) => Enter(s, t, RNotify(n, timed))
    case RNotify(n, timed) => Goto(s.(pcs := NotifyWriters(s.pcs)), t, RHead(n, timed))
    case RHead(n, timed) => DoRead(s, t, n, timed, ReadHead(s.contents, s.connected, n))
    case RWait(n, timed) => Leave(s, t, RAsleep(n, timed, false))
    case RWoken(n, timed, expired) => DoRead(s, t, n, timed, ReadWoken(s.contents, s.connected, timed, expired))
    case WLock(bytes) => Enter(s, t, WHead(bytes))
    case WHead(bytes) => DoWrite(s, t, bytes, WriteHead(s.size, s.contents, s.connected, |bytes|))
    case WWait(bytes) => Leave(s, t, WAsleep(bytes, false))
    case WWoken(bytes) => DoWrite(s, t, bytes, WriteWoken(s.size, s.contents, |bytes|))
    case WNotify(k) => Leave(s.(pcs := NotifyReaders(s.pcs)), t, Done(Wrote(k)))
    case FTest => Goto(s, t, if s.connected then FStore else Idle)
    case FStore => Goto(s, t, FNotifyReaders).(connected := false)
    case FNotifyReaders => Goto(s.(pcs := NotifyReaders(s.pcs)), t, FNotifyWriters)
    case FNotifyWriters => Goto(s.(pcs := NotifyWriters(s.pcs)), t, Idle)
    case _ => s
  }

  function Next(s: State, a: Action): (s': State)
    requires a.t in s.pcs
  {
    match a
    case CallRead(t, n, timed) => Goto(s, t, RLock(n, timed))
    case CallWrite(t, bytes) => Goto(s, t, WLock(bytes))
    case CallDisconnect(t) => Goto(s, t, FTest)
    case Connect(t) => s.(connected := true)
    case Step(t) => StepOf(s, t)
    case Wake(t, expired) =>
      (match s.pcs[t]
       case RAsleep(n, timed, _) => Enter(s, t, RWoken(n, timed, expired))
       case WAsleep(bytes, _) => Enter(s, t, WWoken(bytes))
       case _ => s)
    case Collect(t) => Goto(s, t, Idle)
  }

  function Init(size: nat, threads: set<Tid>): State
  {
    State(size, [], false, None, map t | t in threads :: Idle, [], [])
  }

  /** `acts` can be taken one after another from `s`. */
  predicate Runs(s: State, acts: seq<Action>)
    decreases |acts|
  {
    acts == [] || (Enabled(s, acts[0]) && Runs(Next(s, acts[0]), acts[1..]))
  }

  function Exec(s: State, acts: seq<Action>): State
    requires Runs(s, acts)
    decreases |acts|
  {
    if acts == [] then s else Exec(Next(s, acts[0]), acts[1..])
  }

  // ---------------------------------------------------------------- what every step keeps

  /** The mutex is held by exactly the thread that is inside a locked stretch. */
  ghost predicate MutexOk(owner: Option<Tid>, pcs: map<Tid, Pc>)
  {
    && (owner.Some? ==> owner.value in pcs)
    && forall t :: t in pcs ==> (Holds(pcs[t]) <==> owner == Some(t))
  }

  /** Nothing is lost, duplicated or reordered, and the ring is not overfilled. */
  ghost predicate BytesOk(s: State)
  {
    |s.contents| < s.size && s.written == s.delivered + s.contents
  }

  /** Threads about to sleep sleep for a reason, and no reader sleeps on data unless the writer
      that has just copied is about to notify it. */
  ghost predicate WaitsOk(size: nat, contents: seq<Byte>, owner: Option<Tid>, pcs: map<Tid, Pc>)
  {
    forall t :: t in pcs ==> WaitOk(size, contents, owner, pcs, pcs[t])
  }

  ghost predicate WaitOk(size: nat, contents: seq<Byte>, owner: Option<Tid>, pcs: map<Tid, Pc>, pc: Pc)
  {
    && (pc.RWait? ==> contents == [])
    && (pc.WWait? ==> |contents| >= size - 1)
    && (pc.WNotify? ==> pc.count <= |contents|)
    && (ReaderStuck(pc) ==> contents == [] || NotifyPending(owner, pcs))
  }

  /** The thread in the mutex is a writer that has copied bytes and not yet notified the readers. */
  ghost predicate NotifyPending(owner: Option<Tid>, pcs: map<Tid, Pc>)
  {
    owner.Some? && owner.value in pcs && pcs[owner.value].WNotify? && pcs[owner.value].count > 0
  }

  ghost predicate Inv(s: State)
  {
    MutexOk(s.owner, s.pcs) && BytesOk(s) && WaitsOk(s.size, s.contents, s.owner, s.pcs)
  }

  lemma CallKeepsInv(s: State, a: Action)
    requires Inv(s) && Enabled(s, a) && !a.Step? && !a.Wake?
    ensures Inv(Next(s, a))
  {
  }

  lemma WakeKeepsInv(s: State, a: Action)
    requires Inv(s) && Enabled(s, a) && a.Wake?
    ensures Inv(Next(s, a))
  {
  }

  lemma LockKeepsInv(s: State, t: Tid)
    requires Inv(s) && Enabled(s, Step(t)) && (s.pcs[t].RLock? || s.pcs[t].WLock?)
    ensures Inv(StepOf(s, t))
  {
  }

  lemma SleepKeepsInv(s: State, t: Tid)
    requires Inv(s) && Enabled(s, Step(t)) && (s.pcs[t].RWait? || s.pcs[t].WWait?)
    ensures Inv(StepOf(s, t))
  {
  }

  lemma RNotifyKeepsInv(s: State, t: Tid)
    requires Inv(s) && Enabled(s, Step(t)) && s.pcs[t].RNotify?
    ensures Inv(StepOf(s, t))
  {
  }

  lemma FNotifyReadersKeepsInv(s: State, t: Tid)
    requires Inv(s) && Enabled(s, Step(t)) && s.pcs[t].FNotifyReaders?
    ensures Inv(StepOf(s, t))
  {
  }

  lemma FNotifyWritersKeepsInv(s: State, t: Tid)
    requires Inv(s) && Enabled(s, Step(t)) && s.pcs[t].FNotifyWriters?
    ensures Inv(StepOf(s, t))
  {
  }

  lemma WNotifyKeepsInv(s: State, t: Tid)
    requires Inv(s) && Enabled(s, Step(t)) && s.pcs[t].WNotify?
    ensures Inv(StepOf(s, t))
  {
  }

  lemma FlagKeepsInv(s: State, t: Tid)
    requires Inv(s) && Enabled(s, Step(t)) && (s.pcs[t].FTest? || s.pcs[t].FStore?)
    ensures Inv(StepOf(s, t))
  {
  }

  lemma ReadKeepsInv(s: State, t: Tid)
    requires Inv(s) && Enabled(s, Step(t)) && (s.pcs[t].RHead? || s.pcs[t].RWoken?)
    ensures Inv(StepOf(s, t))
  {
    if s.pcs[t].RHead? && s.contents != [] {
      DeliverKeepsInv(s, t, Min(s.pcs[t].n, |s.contents|));
    } else {
      assert StepOf(s, t).contents == s.contents;
    }
  }

  lemma DeliverKeepsInv(s: State, t: Tid, k: nat)
    requires Inv(s) && s.owner == Some(t) && t in s.pcs && s.pcs[t].RHead? && k <= |s.contents|
    ensures Inv(DoRead(s, t, s.pcs[t].n, s.pcs[t].timed, Deliver(k)))
  {
    assert s.contents == s.contents[..k] + s.contents[k..];
  }

  lemma WriteKeepsInv(s: State, t: Tid)
    requires Inv(s) && Enabled(s, Step(t)) && (s.pcs[t].WHead? || s.pcs[t].WWoken?)
    ensures Inv(StepOf(s, t))
  {
    var bytes := s.pcs[t].bytes;
    var move := if s.pcs[t].WHead? then WriteHead(s.size, s.contents, s.connected, |bytes|)
                else WriteWoken(s.size, s.contents, |bytes|);
    if move.Accept? {
      AcceptKeepsInv(s, t, bytes, move.count);
    } else {
      NoCopyKeepsInv(s, t, bytes, move);
    }
  }

  lemma AcceptKeepsInv(s: State, t: Tid, bytes: seq<Byte>, k: nat)
    requires Inv(s) && s.owner == Some(t) && t in s.pcs && (s.pcs[t].WHead? || s.pcs[t].WWoken?)
    requires |s.contents| + k < s.size && k <= |bytes|
    ensures Inv(DoWrite(s, t, bytes, Accept(k)))
  {
    assert s.written + bytes[..k] == s.delivered + (s.contents + bytes[..k]);
  }

  lemma NoCopyKeepsInv(s: State, t: Tid, bytes: seq<Byte>, move: WriteMove)
    requires Inv(s) && s.owner == Some(t) && t in s.pcs && (s.pcs[t].WHead? || s.pcs[t].WWoken?)
    requires !move.Accept? && (move.WriteSleep? ==> |s.contents| >= s.size - 1)
    ensures Inv(DoWrite(s, t, bytes, move))
  {
  }

  lemma StepKeepsInv(s: State, a: Action)
    requires Inv(s) && Enabled(s, a)
    ensures Inv(Next(s, a))
  {
    match a
    case Wake(_, _) => WakeKeepsInv(s, a);
    case Step(t) =>
      match s.pcs[t] {
        case RLock(_, _) => LockKeepsInv(s, t);
        case WLock(_) => LockKeepsInv(s, t);
        case RWait(_, _) => SleepKeepsInv(s, t);
        case WWait(_) => SleepKeepsInv(s, t);
        case RNotify(_, _) => RNotifyKeepsInv(s, t);
        case FNotifyReaders => FNotifyReadersKeepsInv(s, t);
        case FNotifyWriters => FNotifyWritersKeepsInv(s, t);
        case WNotify(_) => WNotifyKeepsInv(s, t);
        case FTest => FlagKeepsInv(s, t);
        case FStore => FlagKeepsInv(s, t);
        case RHead(_, _) => ReadKeepsInv(s, t);
        case RWoken(_, _, _) => ReadKeepsInv(s, t);
        case WHead(_) => WriteKeepsInv(s, t);
        case WWoken(_) => WriteKeepsInv(s, t);
      }
    case _ => CallKeepsInv(s, a);
  }

  lemma InitOk(size: nat, threads: set<Tid>)
    requires size >= 1
    ensures Inv(Init(size, threads))
  {
  }

  lemma {:induction false} RunKeepsInv(s: State, acts: seq<Action>)
    requires Inv(s) && Runs(s, acts)
    ensures Inv(Exec(s, acts))
    decreases |acts|
  {
    if acts != [] {
      StepKeepsInv(s, acts[0]);
      RunKeepsInv(Next(s, acts[0]), acts[1..]);
    }
  }

  /** No lost wake-up for data, with any number of readers and writers: a reader that sleeps
      without having been notified sleeps beside data exactly while the writer that has copied it
      still holds the mutex and is about to notify. All bytes are accounted for, in order. */
  lemma NoLostWakeup(size: nat, threads: set<Tid>, acts: seq<Action>, t: Tid)
    requires size >= 1 && Runs(Init(size, threads), acts)
    ensures var s := Exec(Init(size, threads), acts);
            && s.written == s.delivered + s.contents && |s.contents| < s.size
            && (t in s.pcs && ReaderStuck(s.pcs[t]) ==> (s.contents != [] <==> NotifyPending(s.owner, s.pcs)))
            && (t in s.pcs && ReaderStuck(s.pcs[t]) && s.owner == None ==> s.contents == [])
  {
    InitOk(size, threads);
    RunKeepsInv(Init(size, threads), acts);
  }

  // ---------------------------------------------------------------- one reading thread

  predicate PastNotify(pc: Pc)
  {
    pc.RHead? || pc.RWait? || pc.RAsleep? || pc.RWoken?
  }

  predicate Reading(pc: Pc)
  {
    pc.RLock? || pc.RNotify? || PastNotify(pc)
  }

  /** Only thread `r` calls read. */
  predicate OnlyReader(r: Tid, acts: seq<Action>)
  {
    forall i :: 0 <= i < |acts| ==> acts[i].CallRead? ==> acts[i].t == r
  }

  /** A stuck writer excludes a stuck reader, and also a reader that has notified the writers and
      finds the ring empty: such a reader would go to sleep. */
  ghost predicate LoneOk(contents: seq<Byte>, pcs: map<Tid, Pc>, r: Tid)
  {
    forall t :: t in pcs ==>
      && (t != r ==> !Reading(pcs[t]))
      && (WriterStuck(pcs[t]) && r in pcs ==> !ReaderStuck(pcs[r]) && (PastNotify(pcs[r]) ==> contents != []))
  }

  ghost predicate LoneInv(s: State, r: Tid)
  {
    s.size >= 2 && LoneOk(s.contents, s.pcs, r)
  }

  lemma LoneCall(s: State, a: Action, r: Tid)
    requires Inv(s) && LoneInv(s, r) && Enabled(s, a) && !a.Step?
    requires a.CallRead? ==> a.t == r
    ensures LoneInv(Next(s, a), r)
  {
  }

  lemma LoneSleep(s: State, t: Tid, r: Tid)
    requires Inv(s) && LoneInv(s, r) && Enabled(s, Step(t)) && (s.pcs[t].RWait? || s.pcs[t].WWait?)
    ensures LoneInv(StepOf(s, t), r)
  {
  }

  lemma LoneNotifyWriters(s: State, t: Tid, r: Tid)
    requires Inv(s) && LoneInv(s, r) && Enabled(s, Step(t)) && (s.pcs[t].RNotify? || s.pcs[t].FNotifyWriters?)
    ensures LoneInv(StepOf(s, t), r)
  {
  }

  lemma LoneNotifyReaders(s: State, t: Tid, r: Tid)
    requires Inv(s) && LoneInv(s, r) && Enabled(s, Step(t)) && (s.pcs[t].WNotify? || s.pcs[t].FNotifyReaders?)
    ensures LoneInv(StepOf(s, t), r)
  {
  }

  lemma LoneTest(s: State, t: Tid, r: Tid)
    requires Inv(s) && LoneInv(s, r) && Enabled(s, Step(t))
    requires s.pcs[t].RLock? || s.pcs[t].WLock? || s.pcs[t].FTest? || s.pcs[t].FStore?
    ensures LoneInv(StepOf(s, t), r)
  {
  }

  lemma LoneRead(s: State, t: Tid, r: Tid)
    requires Inv(s) && LoneInv(s, r) && Enabled(s, Step(t)) && (s.pcs[t].RHead? || s.pcs[t].RWoken?)
    ensures LoneInv(StepOf(s, t), r)
  {
    assert t == r;
  }

  lemma LoneWrite(s: State, t: Tid, r: Tid)
    requires Inv(s) && LoneInv(s, r) && Enabled(s, Step(t)) && (s.pcs[t].WHead? || s.pcs[t].WWoken?)
    ensures LoneInv(StepOf(s, t), r)
  {
    var s' := StepOf(s, t);
    assert s.contents <= s'.contents;
  }

  lemma LoneStep(s: State, a: Action, r: Tid)
    requires Inv(s) && LoneInv(s, r) && Enabled(s, a)
    requires a.CallRead? ==> a.t == r
    ensures LoneInv(Next(s, a), r)
  {
    if a.Step? {
      var pc := s.pcs[a.t];
      if pc.RWait? || pc.WWait? { LoneSleep(s, a.t, r); }
      else if pc.RHead? || pc.RWoken? { LoneRead(s, a.t, r); }
      else if pc.WHead? || pc.WWoken? { LoneWrite(s, a.t, r); }
      else if pc.RLock? || pc.WLock? || pc.FTest? || pc.FStore? { LoneTest(s, a.t, r); }
      else if pc.RNotify? || pc.FNotifyWriters? { LoneNotifyWriters(s, a.t, r); }
      else { LoneNotifyReaders(s, a.t, r); }
    } else {
      LoneCall(s, a, r);
    }
  }

  lemma {:induction false} LoneRun(s: State, acts: seq<Action>, r: Tid)
    requires Inv(s) && LoneInv(s, r) && Runs(s, acts) && OnlyReader(r, acts)
    ensures Inv(Exec(s, acts)) && LoneInv(Exec(s, acts), r)
    decreases |acts|
  {
    if acts != [] {
      StepKeepsInv(s, acts[0]);
      LoneStep(s, acts[0], r);
      LoneRun(Next(s, acts[0]), acts[1..], r);
    }
  }

  /** Some reader and some writer both sleep without having been notified. */
  ghost predicate MutualSleep(s: State)
  {
    exists r, w :: r in s.pcs && w in s.pcs && ReaderStuck(s.pcs[r]) && WriterStuck(s.pcs[w])
  }

  /** With one reading thread and a ring of at least two cells reader and writers never sleep at
      the same time un-notified, although read notifies the writers at its beginning only and the
      flag changes outside the mutex. */
  lemma NoMutualSleep(size: nat, threads: set<Tid>, r: Tid, acts: seq<Action>)
    requires size >= 2 && Runs(Init(size, threads), acts) && OnlyReader(r, acts)
    ensures !MutualSleep(Exec(Init(size, threads), acts))
  {
    InitOk(size, threads);
    LoneRun(Init(size, threads), acts, r);
  }

  // ---------------------------------------------------------------- end of stream

  /** Action `a` ends a read with the result "connection lost". */
  predicate ReadReturnsLost(s: State, a: Action)
  {
    && a.Step? && Enabled(s, a) && Reading(s.pcs[a.t])
    && a.t in Next(s, a).pcs && Next(s, a).pcs[a.t] == Done(ConnectionLost)
  }

  lemma LostOnlyWhenDrained(s: State, a: Action)
    requires Inv(s) && ReadReturnsLost(s, a)
    ensures s.contents == [] && !s.connected && s.delivered == s.written
    ensures Next(s, a).delivered == Next(s, a).written == s.written
  {
    assert s.delivered + [] == s.delivered;
  }

  predicate Writing(pc: Pc)
  {
    pc.WLock? || pc.WHead? || pc.WWait? || pc.WAsleep? || pc.WWoken?
  }

  /** No thread is inside a write that could still copy. */
  ghost predicate Quiet(pcs: map<Tid, Pc>)
  {
    forall t :: t in pcs ==> !Writing(pcs[t])
  }

  predicate NoWriteCalls(acts: seq<Action>)
  {
    forall i :: 0 <= i < |acts| ==> !acts[i].CallWrite?
  }

  lemma QuietStep(s: State, a: Action)
    requires Enabled(s, a) && Quiet(s.pcs) && !a.CallWrite?
    ensures Quiet(Next(s, a).pcs) && Next(s, a).written == s.written
  {
    assert !Writing(s.pcs[a.t]);
    if a.Step? {
      if s.pcs[a.t].RHead? || s.pcs[a.t].RWoken? { QuietTest(s, a.t); } else { QuietStepOf(s, a.t); }
    }
  }

  lemma QuietTest(s: State, t: Tid)
    requires t in s.pcs && Quiet(s.pcs) && (s.pcs[t].RHead? || s.pcs[t].RWoken?)
    ensures Quiet(StepOf(s, t).pcs) && StepOf(s, t).written == s.written
  {
  }

  lemma QuietStepOf(s: State, t: Tid)
    requires t in s.pcs && Quiet(s.pcs) && !Writing(s.pcs[t]) && !s.pcs[t].RHead? && !s.pcs[t].RWoken?
    ensures Quiet(StepOf(s, t).pcs) && StepOf(s, t).written == s.written
  {
  }

  lemma {:induction false} QuietRun(s: State, acts: seq<Action>)
    requires Runs(s, acts) && Quiet(s.pcs) && NoWriteCalls(acts)
    ensures Quiet(Exec(s, acts).pcs) && Exec(s, acts).written == s.written
    decreases |acts|
  {
    if acts != [] {
      QuietStep(s, acts[0]);
      QuietRun(Next(s, acts[0]), acts[1..]);
    }
  }

  /** End of stream only after the last byte: the peer has ended its writes and cleared the flag
      (`before` leads to that point), other threads go on, then a read or a timed read reports the
      lost connection. By then every byte written in the whole run, whatever follows, has been
      delivered. */
  lemma EndOfStreamAfterDrain(size: nat, threads: set<Tid>, before: seq<Action>, middle: seq<Action>,
                              lost: Action, after: seq<Action>)
    requires size >= 1 && Runs(Init(size, threads), before)
    requires var s1 := Exec(Init(size, threads), before);
             && Quiet(s1.pcs) && Runs(s1, middle) && NoWriteCalls(middle)
             && var s2 := Exec(s1, middle);
                && ReadReturnsLost(s2, lost)
                && Runs(Next(s2, lost), after) && NoWriteCalls(after)
    ensures var s2 := Exec(Exec(Init(size, threads), before), middle);
            s2.delivered == Exec(Next(s2, lost), after).written
  {
    var s1 := Exec(Init(size, threads), before);
    var s2 := Exec(s1, middle);
    InitOk(size, threads);
    RunKeepsInv(Init(size, threads), before);
    RunKeepsInv(s1, middle);
    LostOnlyWhenDrained(s2, lost);
    QuietRun(s1, middle);
    QuietStep(s2, lost);
    QuietRun(Next(s2, lost), after);
  }
}
