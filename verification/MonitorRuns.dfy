/** Runs of the blocking queue that show where its guarantees end, for every size and any
    threads, and the exact conditions that follow. */
module MonitorRuns {
  import opened Bytes
  import opened Wrappers
  import opened Monitor

  /** Only `readers` call read and only `writers` call write. */
  predicate Roles(acts: seq<Action>, readers: set<Tid>, writers: set<Tid>)
  {
    forall i :: 0 <= i < |acts| ==>
      (acts[i].CallRead? ==> acts[i].t in readers) && (acts[i].CallWrite? ==> acts[i].t in writers)
  }

  /** `s` can be reached from `s0` by a run that respects the roles. */
  ghost predicate Leads(s0: State, s: State, readers: set<Tid>, writers: set<Tid>)
  {
    exists acts :: Runs(s0, acts) && Exec(s0, acts) == s && Roles(acts, readers, writers)
  }

  lemma Begin(s0: State, readers: set<Tid>, writers: set<Tid>)
    ensures Leads(s0, s0, readers, writers)
  {
    var acts: seq<Action> := [];
    assert Runs(s0, acts) && Exec(s0, acts) == s0;
  }

  /** The cast of a run: where it starts and who reads and writes in it. */
  datatype Cast = Cast(s0: State, readers: set<Tid>, writers: set<Tid>)
  {
    ghost predicate Reaches(s: State)
    {
      Leads(s0, s, readers, writers)
    }

    predicate Allows(a: Action)
    {
      (a.CallRead? ==> a.t in readers) && (a.CallWrite? ==> a.t in writers)
    }
  }

  /** Extends a run by one action. */
  lemma Then(cast: Cast, s: State, a: Action, s': State)
    requires cast.Reaches(s) && Enabled(s, a) && Next(s, a) == s' && cast.Allows(a)
    ensures cast.Reaches(s')
  {
    var acts :| Runs(cast.s0, acts) && Exec(cast.s0, acts) == s && Roles(acts, cast.readers, cast.writers);
    Snoc(cast.s0, acts, a);
    assert Exec(cast.s0, acts + [a]) == s';
    assert Roles(acts + [a], cast.readers, cast.writers);
  }

  lemma {:induction false} Snoc(s0: State, acts: seq<Action>, a: Action)
    requires Runs(s0, acts) && Enabled(Exec(s0, acts), a)
    ensures Runs(s0, acts + [a]) && Exec(s0, acts + [a]) == Next(Exec(s0, acts), a)
    decreases |acts|
  {
    if acts == [] {
      assert (acts + [a])[1..] == [];
    } else {
      Snoc(Next(s0, acts[0]), acts[1..], a);
      assert (acts + [a])[1..] == acts[1..] + [a];
    }
  }

  function Stuck(n: nat): Pc { RAsleep(n, false, false) }

  function Called(n: nat): Pc { RAsleep(n, false, true) }

  ghost predicate NoSleepingWriter(s: State)
  {
    forall u :: u in s.pcs ==> !s.pcs[u].WAsleep?
  }

  // ---------------------------------------------------------------- building blocks

  /** A thread reads from an empty connected ring and is about to sleep. */
  lemma ReaderAboutToSleep(cast: Cast, s: State, t: Tid, n: nat)
    requires cast.Reaches(s) && t in cast.readers
    requires t in s.pcs && s.pcs[t] == Idle && s.owner == None && s.connected && s.contents == []
    requires NoSleepingWriter(s)
    ensures cast.Reaches(Enter(s, t, RWait(n, false)))
  {
    var locking, asking := Goto(s, t, RLock(n, false)), Enter(s, t, RNotify(n, false));
    var head := Enter(s, t, RHead(n, false));
    Then(cast, s, CallRead(t, n, false), locking);
    assert Next(locking, Step(t)) == asking;
    Then(cast, locking, Step(t), asking);
    assert NotifyWriters(asking.pcs) == asking.pcs;
    assert Next(asking, Step(t)) == head;
    Then(cast, asking, Step(t), head);
    assert Next(head, Step(t)) == Enter(s, t, RWait(n, false));
    Then(cast, head, Step(t), Enter(s, t, RWait(n, false)));
  }

  /** It falls asleep. */
  lemma ReaderSleeps(cast: Cast, s: State, t: Tid, n: nat)
    requires cast.Reaches(s) && t in cast.readers
    requires t in s.pcs && s.pcs[t] == Idle && s.owner == None && s.connected && s.contents == []
    requires NoSleepingWriter(s)
    ensures cast.Reaches(Goto(s, t, Stuck(n)))
  {
    ReaderAboutToSleep(cast, s, t, n);
    var waiting := Enter(s, t, RWait(n, false));
    assert Next(waiting, Step(t)) == Goto(s, t, Stuck(n));
    Then(cast, waiting, Step(t), Goto(s, t, Stuck(n)));
  }

  /** A reader at the head of its loop finds the ring empty and sleeps. */
  lemma HeadSleeps(cast: Cast, s: State, t: Tid, n: nat)
    requires cast.Reaches(Enter(s, t, RHead(n, false)))
    requires t in s.pcs && s.owner == None && s.connected && s.contents == []
    ensures cast.Reaches(Goto(s, t, Stuck(n)))
  {
    var head, waiting := Enter(s, t, RHead(n, false)), Enter(s, t, RWait(n, false));
    assert Next(head, Step(t)) == waiting;
    Then(cast, head, Step(t), waiting);
    assert Next(waiting, Step(t)) == Goto(s, t, Stuck(n));
    Then(cast, waiting, Step(t), Goto(s, t, Stuck(n)));
  }

  /** A thread enters write and gets the mutex. */
  lemma WriterEnters(cast: Cast, s: State, t: Tid, bytes: seq<Byte>)
    requires cast.Reaches(s) && t in cast.writers
    requires t in s.pcs && s.pcs[t] == Idle && s.owner == None
    ensures cast.Reaches(Enter(s, t, WHead(bytes)))
  {
    var locking, head := Goto(s, t, WLock(bytes)), Enter(s, t, WHead(bytes));
    Then(cast, s, CallWrite(t, bytes), locking);
    assert Next(locking, Step(t)) == head;
    Then(cast, locking, Step(t), head);
  }

  /** A thread writes to a full connected ring and falls asleep. */
  lemma WriterSleeps(cast: Cast, s: State, t: Tid, bytes: seq<Byte>)
    requires cast.Reaches(s) && t in cast.writers
    requires t in s.pcs && s.pcs[t] == Idle && s.owner == None && s.connected
    requires |bytes| < s.size && |s.contents| == s.size - 1
    ensures cast.Reaches(Goto(s, t, WAsleep(bytes, false)))
  {
    var head, waiting := Enter(s, t, WHead(bytes)), Enter(s, t, WWait(bytes));
    WriterEnters(cast, s, t, bytes);
    assert Next(head, Step(t)) == waiting;
    Then(cast, head, Step(t), waiting);
    assert Next(waiting, Step(t)) == Goto(s, t, WAsleep(bytes, false));
    Then(cast, waiting, Step(t), Goto(s, t, WAsleep(bytes, false)));
  }

  /** The state with `bytes` in the ring that was empty before. */
  function With(s: State, bytes: seq<Byte>): State
  {
    s.(contents := bytes, written := s.written + bytes)
  }

  /** A thread writes to an empty ring and stands before its notification. */
  lemma WriterCopies(cast: Cast, s: State, t: Tid, bytes: seq<Byte>)
    requires cast.Reaches(s) && t in cast.writers
    requires t in s.pcs && s.pcs[t] == Idle && s.owner == None && s.contents == [] && |bytes| < s.size && s.size >= 2
    ensures cast.Reaches(Enter(With(s, bytes), t, WNotify(|bytes|)))
  {
    var head, copied := Enter(s, t, WHead(bytes)), Enter(With(s, bytes), t, WNotify(|bytes|));
    WriterEnters(cast, s, t, bytes);
    assert bytes[..|bytes|] == bytes && [] + bytes == bytes;
    assert Next(head, Step(t)) == copied;
    Then(cast, head, Step(t), copied);
  }

  /** It notifies the readers and returns. */
  lemma WriterTells(cast: Cast, s: State, t: Tid, k: nat)
    requires cast.Reaches(Enter(s, t, WNotify(k)))
    requires t in s.pcs && s.pcs[t] == Idle && s.owner == None
    ensures cast.Reaches(Goto(s.(pcs := NotifyReaders(s.pcs)), t, Idle))
  {
    var copied := Enter(s, t, WNotify(k));
    var told := Goto(s.(pcs := NotifyReaders(s.pcs)), t, Done(Wrote(k)));
    assert NotifyReaders(copied.pcs)[t := Done(Wrote(k))] == told.pcs;
    assert Next(copied, Step(t)) == told;
    Then(cast, copied, Step(t), told);
    var end := Goto(s.(pcs := NotifyReaders(s.pcs)), t, Idle);
    assert Next(told, Collect(t)) == end;
    Then(cast, told, Collect(t), end);
  }

  /** A notified reader wakes up and stands at the head of its loop. */
  lemma ReaderReturnsToHead(cast: Cast, s: State, t: Tid, n: nat)
    requires cast.Reaches(s) && t in s.pcs && s.pcs[t] == Called(n) && s.owner == None
    requires s.contents != [] || s.connected
    ensures cast.Reaches(Enter(s, t, RHead(n, false)))
  {
    var woken := Enter(s, t, RWoken(n, false, false));
    Then(cast, s, Wake(t, false), woken);
    assert Next(woken, Step(t)) == Enter(s, t, RHead(n, false));
    Then(cast, woken, Step(t), Enter(s, t, RHead(n, false)));
  }

  /** The state after all of the ring has been delivered. */
  function Drained(s: State): State
  {
    s.(contents := [], delivered := s.delivered + s.contents)
  }

  /** A reader at the head of its loop takes all there is and returns. */
  lemma ReaderDrains(cast: Cast, s: State, t: Tid, n: nat)
    requires cast.Reaches(Enter(s, t, RHead(n, false)))
    requires t in s.pcs && s.owner == None && s.contents != [] && n >= |s.contents|
    ensures cast.Reaches(Goto(Drained(s), t, Idle))
  {
    var head, got := Enter(s, t, RHead(n, false)), Goto(Drained(s), t, Done(Data(s.contents)));
    assert s.contents[..|s.contents|] == s.contents && s.contents[|s.contents|..] == [];
    assert Next(head, Step(t)) == got;
    Then(cast, head, Step(t), got);
    assert Next(got, Collect(t)) == Goto(Drained(s), t, Idle);
    Then(cast, got, Collect(t), Goto(Drained(s), t, Idle));
  }

  // ---------------------------------------------------------------- sleeping beside data

  function Start(size: nat, threads: set<Tid>): State
  {
    Init(size, threads).(connected := true)
  }

  lemma StartReached(size: nat, threads: set<Tid>, readers: set<Tid>, writers: set<Tid>, t: Tid)
    requires t in threads
    ensures Cast(Init(size, threads), readers, writers).Reaches(Start(size, threads))
  {
    Begin(Init(size, threads), readers, writers);
    Then(Cast(Init(size, threads), readers, writers), Init(size, threads), Connect(t), Start(size, threads));
  }

  ghost predicate SleepsBesideData(s: State, t: Tid)
  {
    t in s.pcs && ReaderStuck(s.pcs[t]) && s.contents != []
  }

  /** A reader can be asleep, not notified, beside data exactly when the ring can hold any. */
  lemma SleepsBesideDataIff(size: nat, threads: set<Tid>, r: Tid, w: Tid)
    requires size >= 1 && r in threads && w in threads && r != w
    ensures (exists s :: Leads(Init(size, threads), s, {r}, {w}) && SleepsBesideData(s, r)) <==> size >= 2
  {
    var cast := Cast(Init(size, threads), {r}, {w});
    if size >= 2 {
      var s1 := Start(size, threads);
      StartReached(size, threads, {r}, {w}, r);
      ReaderSleeps(cast, s1, r, 1);
      var s2 := Goto(s1, r, Stuck(1));
      WriterCopies(cast, s2, w, [0]);
      var s3 := Enter(With(s2, [0]), w, WNotify(1));
      assert cast.Reaches(s3) && SleepsBesideData(s3, r);
    } else {
      forall s | Leads(Init(size, threads), s, {r}, {w})
        ensures s.contents == []
      {
        var acts :| Runs(cast.s0, acts) && Exec(cast.s0, acts) == s && Roles(acts, {r}, {w});
        NoLostWakeup(size, threads, acts, r);
        SizeKept(cast.s0, acts);
      }
    }
  }

  lemma {:induction false} SizeKept(s: State, acts: seq<Action>)
    requires Runs(s, acts)
    ensures Exec(s, acts).size == s.size
    decreases |acts|
  {
    if acts != [] {
      StepSizeKept(s, acts[0]);
      SizeKept(Next(s, acts[0]), acts[1..]);
    }
  }

  lemma StepSizeKept(s: State, a: Action)
    requires Enabled(s, a)
    ensures Next(s, a).size == s.size
  {
  }

  // ---------------------------------------------------------------- sleeping together

  /** Every thread is idle or asleep un-notified: nothing but a spurious wake-up or a new call can
      move this queue. */
  ghost predicate Frozen(s: State)
  {
    s.owner == None && forall t :: t in s.pcs ==> s.pcs[t].Idle? || ReaderStuck(s.pcs[t]) || WriterStuck(s.pcs[t])
  }

  /** A frozen queue with a sleeping reader and a sleeping writer, connected and empty. */
  ghost predicate FrozenAsleep(s: State)
  {
    Frozen(s) && MutualSleep(s) && s.connected && s.contents == []
  }

  function FullRing(size: nat): seq<Byte>
    requires size >= 1
  {
    seq(size - 1, i => 0)
  }

  /** Both readers asleep, then notified by a writer that has filled the ring and sleeps on its
      next write. */
  lemma BothCalled(size: nat, threads: set<Tid>, a: Tid, b: Tid, w: Tid, cast: Cast) returns (s: State)
    requires size >= 2 && {a, b, w} <= threads && a != b && a != w && b != w
    requires cast.s0 == Init(size, threads) && {a, b} <= cast.readers && w in cast.writers
    ensures cast.Reaches(s) && s.pcs.Keys == threads && s.owner == None && s.connected && s.size == size
    ensures s.contents == FullRing(size) && s.pcs[a] == s.pcs[b] == Called(size - 1) && s.pcs[w] == WAsleep([0], false)
    ensures forall t :: t in threads - {a, b, w} ==> s.pcs[t] == Idle
  {
    var s2 := BothStuck(size, threads, a, b, cast);
    WriterCopies(cast, s2, w, FullRing(size));
    WriterTells(cast, With(s2, FullRing(size)), w, size - 1);
    var s3 := Goto(With(s2, FullRing(size)).(pcs := NotifyReaders(s2.pcs)), w, Idle);
    WriterSleeps(cast, s3, w, [0]);
    s := Goto(s3, w, WAsleep([0], false));
  }

  lemma BothStuck(size: nat, threads: set<Tid>, a: Tid, b: Tid, cast: Cast) returns (s: State)
    requires size >= 2 && {a, b} <= threads && a != b
    requires cast.s0 == Init(size, threads) && {a, b} <= cast.readers
    ensures cast.Reaches(s) && s.pcs.Keys == threads && s.owner == None && s.connected && s.size == size
    ensures s.contents == [] && s.pcs[a] == s.pcs[b] == Stuck(size - 1)
    ensures forall t :: t in threads - {a, b} ==> s.pcs[t] == Idle
  {
    var s1 := Start(size, threads);
    StartReached(size, threads, cast.readers, cast.writers, a);
    assert cast == Cast(Init(size, threads), cast.readers, cast.writers);
    ReaderSleeps(cast, s1, a, size - 1);
    var s2 := Goto(s1, a, Stuck(size - 1));
    ReaderSleeps(cast, s2, b, size - 1);
    s := Goto(s2, b, Stuck(size - 1));
  }

  /** Two readers freeze any ring with one writer. Both sleep; the writer fills the ring, wakes both
      and sleeps on its next write; the first reader takes everything, notifying nobody; the second
      finds nothing and sleeps again. Nobody is left to wake them. */
  lemma TwoReadersFreeze(size: nat, threads: set<Tid>, a: Tid, b: Tid, w: Tid, cast: Cast) returns (s: State)
    requires size >= 2 && {a, b, w} <= threads && a != b && a != w && b != w
    requires cast.s0 == Init(size, threads) && {a, b} <= cast.readers && w in cast.writers
    ensures cast.Reaches(s) && FrozenAsleep(s)
  {
    var s1 := BothCalled(size, threads, a, b, w, cast);
    ReaderReturnsToHead(cast, s1, a, size - 1);
    ReaderDrains(cast, s1, a, size - 1);
    var s2 := Goto(Drained(s1), a, Idle);
    ReaderReturnsToHead(cast, s2, b, size - 1);
    HeadSleeps(cast, s2, b, size - 1);
    s := Goto(s2, b, Stuck(size - 1));
    assert ReaderStuck(s.pcs[b]) && WriterStuck(s.pcs[w]);
  }

  /** A ring of one cell is full and empty at once: a write of no bytes sleeps beside the reader. */
  lemma OneCellFreezes(threads: set<Tid>, r: Tid, w: Tid, cast: Cast) returns (s: State)
    requires r in threads && w in threads && r != w
    requires cast.s0 == Init(1, threads) && r in cast.readers && w in cast.writers
    ensures cast.Reaches(s) && FrozenAsleep(s)
  {
    var s1 := Start(1, threads);
    StartReached(1, threads, cast.readers, cast.writers, r);
    assert cast == Cast(Init(1, threads), cast.readers, cast.writers);
    ReaderSleeps(cast, s1, r, 1);
    var s2 := Goto(s1, r, Stuck(1));
    WriterSleeps(cast, s2, w, []);
    s := Goto(s2, w, WAsleep([], false));
    assert ReaderStuck(s.pcs[r]) && WriterStuck(s.pcs[w]);
  }

  /** The exact condition. For any threads, of which some read and others write, a reader and a
      writer can come to sleep together, neither notified, if and only if the ring has one cell or
      there are two readers; and then they can freeze the queue, empty and connected, for good. */
  lemma MutualSleepIff(size: nat, threads: set<Tid>, readers: set<Tid>, writers: set<Tid>)
    requires size >= 1 && readers <= threads && writers <= threads
    requires readers != {} && writers != {} && readers !! writers
    ensures (exists s :: Leads(Init(size, threads), s, readers, writers) && MutualSleep(s))
       <==> size == 1 || |readers| >= 2
    ensures size == 1 || |readers| >= 2 ==>
              exists s :: Leads(Init(size, threads), s, readers, writers) && FrozenAsleep(s)
  {
    var cast := Cast(Init(size, threads), readers, writers);
    var a :| a in readers;
    var w :| w in writers;
    if size == 1 {
      var s := OneCellFreezes(threads, a, w, cast);
      assert Leads(Init(size, threads), s, readers, writers);
    } else if |readers| >= 2 {
      var b := Another(readers, a);
      var s := TwoReadersFreeze(size, threads, a, b, w, cast);
      assert Leads(Init(size, threads), s, readers, writers);
    } else {
      forall s | Leads(Init(size, threads), s, readers, writers)
        ensures !MutualSleep(s)
      {
        var acts :| Runs(cast.s0, acts) && Exec(cast.s0, acts) == s && Roles(acts, readers, writers);
        Singleton(readers, a);
        NoMutualSleep(size, threads, a, acts);
      }
    }
  }

  lemma Another(readers: set<Tid>, a: Tid) returns (b: Tid)
    requires a in readers && |readers| >= 2
    ensures b in readers && b != a
  {
    assert |readers - {a}| >= 1;
    b :| b in readers - {a};
  }

  lemma Singleton(readers: set<Tid>, a: Tid)
    requires a in readers && |readers| < 2
    ensures readers == {a}
  {
    assert |readers - {a}| == 0;
  }
}
