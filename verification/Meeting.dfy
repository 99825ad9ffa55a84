/** The threads that meet in the registry: createClient and waitConnection with their sleeping and
    waking. A client sleeps on its own line's condition variable until the line has its queues; an
    acceptor sleeps on the global one between scans. Each stretch under a mutex is one step; a scan
    that finds a client keeps the global mutex while it takes the mutex of the client's line. */
module Meeting {
  import opened Wrappers
  import R = Rendezvous

  type Tid = nat

  /** Where a thread is. `Testing` is a client about to look at its line, `Scanning` an acceptor about
      to go over the queue, and `Pairing` one that has taken a client out of it and holds the global
      mutex, waiting for that of the client's line. */
  datatype Pc =
    | Idle
    | Testing(client: R.Client)
    | ClientAsleep(client: R.Client, notified: bool)
    | ClientReturned(client: R.Client)
    | Scanning(address: R.Address)
    | Pairing(address: R.Address, taken: R.Client)
    | AcceptorAsleep(address: R.Address, notified: bool)
    | AcceptorReturned(address: R.Address, server: Option<R.LineId>)

  /** `holder` is the thread that holds the global mutex between two steps. */
  datatype State = State(g: R.Registry, pcs: map<Tid, Pc>, holder: Option<Tid>)

  /** `timeUp` is what the clock says when a scan has found nothing. A wake-up may be spurious. */
  datatype Action =
    | CallCreateClient(t: Tid, address: R.Address)
    | Test(t: Tid)
    | CallWaitConnection(t: Tid, address: R.Address)
    | Scan(t: Tid, timeUp: bool)
    | Pair(t: Tid)
    | Wake(t: Tid)
    | Collect(t: Tid)
    | CreateServer(t: Tid, address: R.Address)
    | DestroyAcceptor(t: Tid, acceptor: R.Acceptor)
    | DestroyLine(t: Tid, line: R.LineId)

  // ---------------------------------------------------------------- steps

  function NotifiedBy(wake: R.Wake, pc: Pc): Pc
  {
    match pc
    case AcceptorAsleep(address, _) => if wake.AllAcceptors? then AcceptorAsleep(address, true) else pc
    case ClientAsleep(c, _) => if wake == R.ClientOf(c.id) then ClientAsleep(c, true) else pc
    case _ => pc
  }

  /** notify_all on the global condition variable, or notify_one on that of a line, on which no more
      than one thread sleeps. */
  function Notify(wake: R.Wake, pcs: map<Tid, Pc>): (r: map<Tid, Pc>)
    ensures r.Keys == pcs.Keys
  {
    map t | t in pcs :: NotifiedBy(wake, pcs[t])
  }

  predicate Connected(g: R.Registry, line: R.LineId)
  {
    line in g.lines && g.lines[line].Connected?
  }

  /** What needs the global mutex can happen only while nobody holds it. */
  predicate Enabled(s: State, a: Action)
  {
    && a.t in s.pcs
    && var pc := s.pcs[a.t];
       match a
       case Test(_) => pc.Testing?
       case Scan(_, _) => pc.Scanning? && s.holder == None
       case Pair(_) => pc.Pairing?
       case Wake(_) => pc.ClientAsleep? || pc.AcceptorAsleep?
       case Collect(_) => pc.ClientReturned? || pc.AcceptorReturned?
       case CallWaitConnection(_, _) => pc.Idle?
       case DestroyLine(_, _) => pc.Idle?
       case _ => pc.Idle? && s.holder == None
  }

  /** The scan of waitConnection, with what follows under the same lock: take the client out of the
      queue, give up, or sleep. */
  function ScanStep(s: State, t: Tid, address: R.Address, timeUp: bool): State
  {
    match R.FirstFor(s.g.waiting, address)
    case Some(i) => State(R.Erased(s.g, i), s.pcs[t := Pairing(address, s.g.waiting[i])], Some(t))
    case None =>
      s.(pcs := s.pcs[t := if timeUp then AcceptorReturned(address, None) else AcceptorAsleep(address, false)])
  }

  /** The constructor of the server end, under the mutex of the client's line. */
  function PairStep(s: State, t: Tid, address: R.Address, c: R.Client): State
  {
    var (g, server, wake) := R.PairTaken(s.g, c);
    State(g, Notify(wake, s.pcs)[t := AcceptorReturned(address, Some(server))], None)
  }

  function Next(s: State, a: Action): State
    requires Enabled(s, a)
  {
    match a
    case CallCreateClient(t, address) =>
      var (g, line, wake) := R.CreateClient(s.g, address);
      s.(g := g, pcs := Notify(wake, s.pcs)[t := Testing(R.Client(line, address))])
    case Test(t) =>
      var c := s.pcs[t].client;
      s.(pcs := s.pcs[t := if Connected(s.g, c.id) then ClientReturned(c) else ClientAsleep(c, false)])
    case CallWaitConnection(t, address) => s.(pcs := s.pcs[t := Scanning(address)])
    case Scan(t, timeUp) => ScanStep(s, t, s.pcs[t].address, timeUp)
    case Pair(t) => PairStep(s, t, s.pcs[t].address, s.pcs[t].taken)
    case Wake(t) =>
      s.(pcs := s.pcs[t := if s.pcs[t].ClientAsleep? then Testing(s.pcs[t].client) else Scanning(s.pcs[t].address)])
    case Collect(t) => s.(pcs := s.pcs[t := Idle])
    case CreateServer(_, address) => s.(g := R.CreateServer(s.g, address).0)
    case DestroyAcceptor(_, acceptor) => s.(g := s.g.(acceptors := R.Unregister(s.g.acceptors, acceptor)))
    case DestroyLine(_, line) => s.(g := R.Destroy(s.g, line))
  }

  function Init(threads: set<Tid>): State
  {
    State(R.Empty(), map t | t in threads :: Idle, None)
  }

  predicate Runs(s: State, acts: seq<Action>)
    decreases |acts|
  {
    acts == [] || (Enabled(s, acts[0]) && Runs(Next(s, acts[0]), acts[1..]))
  }

  function Exec(s: State, acts: seq<Action>): State
    requires Runs(s, acts)
    decreases |acts|
  {
    if acts == [] then s else Exec(Next(s, acts[0]), acts[1..])
  }

  // ---------------------------------------------------------------- what every step keeps

  predicate IsClient(pc: Pc)
  {
    pc.Testing? || pc.ClientAsleep? || pc.ClientReturned?
  }

  ghost predicate Queued(waiting: seq<R.Client>, address: R.Address)
  {
    exists i :: 0 <= i < |waiting| && waiting[i].address == address
  }

  /** The client that the holder of the global mutex has taken out of the queue. */
  function InHand(pcs: map<Tid, Pc>, holder: Option<Tid>): Option<R.Client>
  {
    if holder.Some? && holder.value in pcs && pcs[holder.value].Pairing? then Some(pcs[holder.value].taken) else None
  }

  /** Exactly the holder of the global mutex is pairing. */
  ghost predicate HolderOk(pcs: map<Tid, Pc>, holder: Option<Tid>)
  {
    && (holder.Some? ==> holder.value in pcs)
    && forall t :: t in pcs ==> (pcs[t].Pairing? <==> holder == Some(t))
  }

  /** The registry keeps its invariant; while a client is in hand, as if it were still queued. */
  ghost predicate RegistryOk(g: R.Registry, hand: Option<R.Client>)
  {
    R.Inv(if hand.None? then g else R.PutBack(g, hand.value))
  }

  /** A client's line is queued, in hand or connected. */
  ghost predicate Present(g: R.Registry, hand: Option<R.Client>, c: R.Client)
  {
    c.id in g.lines && (c in g.waiting || hand == Some(c) || Connected(g, c.id))
  }

  /** A client that has returned is connected, and a sleeping client has been notified exactly if its
      line is connected. An acceptor sleeps un-notified only if nobody is queued or in hand for it. A
      server end that was returned has a client. */
  ghost predicate PcOk(g: R.Registry, hand: Option<R.Client>, pc: Pc)
  {
    match pc
    case Testing(c) => Present(g, hand, c)
    case ClientAsleep(c, notified) => Present(g, hand, c) && (notified <==> Connected(g, c.id))
    case ClientReturned(c) => Connected(g, c.id)
    case AcceptorAsleep(address, notified) =>
      notified || (!Queued(g.waiting, address) && (hand.Some? ==> hand.value.address != address))
    case AcceptorReturned(_, Some(server)) => server in g.peer
    case Pairing(address, c) => hand == Some(c) && c.address == address
    case _ => true
  }

  ghost predicate PcsOk(g: R.Registry, hand: Option<R.Client>, pcs: map<Tid, Pc>)
  {
    forall t :: t in pcs ==> PcOk(g, hand, pcs[t])
  }

  /** No two threads wait for the same line. */
  ghost predicate OwnLines(pcs: map<Tid, Pc>)
  {
    forall t, u :: t in pcs && u in pcs && t != u && IsClient(pcs[t]) && IsClient(pcs[u]) ==>
      pcs[t].client.id != pcs[u].client.id
  }

  ghost predicate Inv(s: State)
  {
    && HolderOk(s.pcs, s.holder) && OwnLines(s.pcs)
    && RegistryOk(s.g, InHand(s.pcs, s.holder))
    && PcsOk(s.g, InHand(s.pcs, s.holder), s.pcs)
  }

  // ---------------------------------------------------------------- arrivals

  /** A new client joins the queue: everybody's line stays as it was, and no acceptor sleeps on. */
  lemma ArrivalKeepsPc(g: R.Registry, address: R.Address, pc: Pc)
    requires R.Inv(g) && PcOk(g, None, pc)
    ensures PcOk(R.CreateClient(g, address).0, None, NotifiedBy(R.AllAcceptors, pc))
    ensures IsClient(pc) ==> pc.client.id < g.nextLine
  {
  }

  lemma ArrivalKeepsInv(s: State, a: Action)
    requires Inv(s) && a.CallCreateClient? && Enabled(s, a)
    ensures Inv(Next(s, a))
  {
    var s' := Next(s, a);
    R.ArrivalKeepsInv(s.g, a.address);
    forall t | t in s'.pcs
      ensures PcOk(s'.g, None, s'.pcs[t])
      ensures t != a.t && IsClient(s'.pcs[t]) ==> s'.pcs[t].client.id < s.g.nextLine
    {
      if t == a.t {
        assert s'.g.waiting[|s.g.waiting|] == s'.pcs[t].client;
      } else {
        ArrivalKeepsPc(s.g, a.address, s.pcs[t]);
      }
    }
    OthersKeepLines(s.pcs, s'.pcs, a.t);
  }

  ghost predicate SameLine(pc: Pc, pc': Pc)
  {
    (IsClient(pc) <==> IsClient(pc')) && (IsClient(pc) ==> pc'.client == pc.client)
  }

  /** Threads that keep their lines keep them distinct, next to one whose line is its own. */
  lemma OthersKeepLines(pcs: map<Tid, Pc>, pcs': map<Tid, Pc>, t: Tid)
    requires OwnLines(pcs) && pcs'.Keys == pcs.Keys
    requires forall u :: u in pcs && u != t ==> SameLine(pcs[u], pcs'[u])
    requires t in pcs && (IsClient(pcs'[t]) ==>
               forall u :: u in pcs && u != t && IsClient(pcs'[u]) ==> pcs'[u].client.id != pcs'[t].client.id)
    ensures OwnLines(pcs')
  {
  }

  // ---------------------------------------------------------------- taking a client out of the queue

  /** The client that is taken is in hand instead of in the queue; no acceptor for its address sleeps
      un-notified, since it was queued. */
  lemma EraseKeepsPc(g: R.Registry, i: nat, pc: Pc)
    requires i < |g.waiting| && PcOk(g, None, pc)
    ensures PcOk(R.Erased(g, i), Some(g.waiting[i]), pc)
  {
    match pc
    case Testing(d) => TakenOrQueued(g.waiting, i, d);
    case ClientAsleep(d, _) => TakenOrQueued(g.waiting, i, d);
    case AcceptorAsleep(address, _) => QueueShrinks(g.waiting, i, address);
    case _ =>
  }

  lemma TakenOrQueued(waiting: seq<R.Client>, i: nat, d: R.Client)
    requires i < |waiting|
    ensures d in waiting ==> d == waiting[i] || d in R.Without(waiting, i)
  {
    if d in waiting {
      var j :| 0 <= j < |waiting| && waiting[j] == d;
      if j != i { assert R.Without(waiting, i)[if j < i then j else j - 1] == d; }
    }
  }

  lemma QueueShrinks(waiting: seq<R.Client>, i: nat, address: R.Address)
    requires i < |waiting|
    ensures Queued(R.Without(waiting, i), address) ==> Queued(waiting, address)
  {
    if Queued(R.Without(waiting, i), address) {
      var k :| 0 <= k < |waiting| - 1 && R.Without(waiting, i)[k].address == address;
      assert waiting[if k < i then k else k + 1].address == address;
    }
  }

  lemma ErasedPcs(g: R.Registry, pcs: map<Tid, Pc>, t: Tid, i: nat)
    requires i < |g.waiting| && PcsOk(g, None, pcs)
    ensures var c := g.waiting[i];
            PcsOk(R.Erased(g, i), Some(c), pcs[t := Pairing(c.address, c)])
  {
    forall u | u in pcs && u != t
      ensures PcOk(R.Erased(g, i), Some(g.waiting[i]), pcs[u])
    {
      EraseKeepsPc(g, i, pcs[u]);
    }
  }

  lemma FoundKeepsInv(s: State, t: Tid, address: R.Address, timeUp: bool, i: nat)
    requires Inv(s) && s.holder == None && t in s.pcs && s.pcs[t] == Scanning(address)
    requires R.FirstFor(s.g.waiting, address) == Some(i)
    ensures Inv(ScanStep(s, t, address, timeUp))
  {
    var c := s.g.waiting[i];
    assert RegistryOk(R.Erased(s.g, i), Some(c)) by { R.ErasedKeepsInv(s.g, i); }
    assert PcsOk(R.Erased(s.g, i), Some(c), s.pcs[t := Pairing(address, c)]) by { ErasedPcs(s.g, s.pcs, t, i); }
    OthersKeepLines(s.pcs, s.pcs[t := Pairing(address, c)], t);
  }

  lemma ScanKeepsInv(s: State, t: Tid, address: R.Address, timeUp: bool)
    requires Inv(s) && s.holder == None && t in s.pcs && s.pcs[t] == Scanning(address)
    ensures Inv(ScanStep(s, t, address, timeUp))
  {
    var first := R.FirstFor(s.g.waiting, address);
    if first.Some? {
      FoundKeepsInv(s, t, address, timeUp, first.value);
    } else {
      OthersKeepLines(s.pcs, ScanStep(s, t, address, timeUp).pcs, t);
    }
  }

  // ---------------------------------------------------------------- pairing it

  /** The client in hand is connected and notified; all others' lines stay as they were. */
  lemma PairKeepsPc(g: R.Registry, c: R.Client, pc: Pc)
    requires g.nextLine !in g.lines && PcOk(g, Some(c), pc) && !pc.Pairing?
    ensures PcOk(R.PairTaken(g, c).0, None, NotifiedBy(R.ClientOf(c.id), pc))
  {
  }

  lemma PairedPcs(g: R.Registry, c: R.Client, pcs: map<Tid, Pc>, t: Tid, pc: Pc)
    requires g.nextLine !in g.lines && PcsOk(g, Some(c), pcs) && HolderOk(pcs, Some(t))
    requires PcOk(R.PairTaken(g, c).0, None, pc)
    ensures PcsOk(R.PairTaken(g, c).0, None, Notify(R.ClientOf(c.id), pcs)[t := pc])
  {
    forall u | u in pcs && u != t
      ensures PcOk(R.PairTaken(g, c).0, None, NotifiedBy(R.ClientOf(c.id), pcs[u]))
    {
      PairKeepsPc(g, c, pcs[u]);
    }
  }

  lemma NobodyPairs(pcs: map<Tid, Pc>, t: Tid, wake: R.Wake, address: R.Address, server: R.LineId)
    requires HolderOk(pcs, Some(t))
    ensures HolderOk(Notify(wake, pcs)[t := AcceptorReturned(address, Some(server))], None)
  {
  }

  lemma PairKeepsInv(s: State, t: Tid, address: R.Address, c: R.Client)
    requires Inv(s) && t in s.pcs && s.pcs[t] == Pairing(address, c)
    ensures Inv(PairStep(s, t, address, c))
  {
    var s' := PairStep(s, t, address, c);
    assert s.holder == Some(t) && InHand(s.pcs, s.holder) == Some(c);
    R.PairTakenKeepsInv(s.g, c);
    PairedPcs(s.g, c, s.pcs, t, AcceptorReturned(address, Some(s.g.nextLine)));
    NobodyPairs(s.pcs, t, R.ClientOf(c.id), address, s.g.nextLine);
    OthersKeepLines(s.pcs, s'.pcs, t);
  }

  // ---------------------------------------------------------------- all other steps

  /** A thread that neither was pairing nor will be leaves the holder what it is. */
  lemma TurnKeepsHolder(pcs: map<Tid, Pc>, holder: Option<Tid>, t: Tid, pc: Pc)
    requires HolderOk(pcs, holder) && t in pcs && !pcs[t].Pairing? && !pc.Pairing?
    ensures HolderOk(pcs[t := pc], holder) && InHand(pcs[t := pc], holder) == InHand(pcs, holder)
  {
  }

  lemma TurnKeepsPcs(g: R.Registry, hand: Option<R.Client>, pcs: map<Tid, Pc>, t: Tid, pc: Pc)
    requires PcsOk(g, hand, pcs) && PcOk(g, hand, pc)
    ensures PcsOk(g, hand, pcs[t := pc])
  {
  }

  /** Calls, tests, wake-ups and returns touch one thread and not the registry. */
  lemma TurnKeepsInv(s: State, a: Action)
    requires Inv(s) && Enabled(s, a) && (a.Test? || a.CallWaitConnection? || a.Wake? || a.Collect?)
    ensures Inv(Next(s, a))
  {
    var hand, pc := InHand(s.pcs, s.holder), Next(s, a).pcs[a.t];
    assert PcOk(s.g, hand, s.pcs[a.t]);
    TurnKeepsHolder(s.pcs, s.holder, a.t, pc);
    TurnKeepsPcs(s.g, hand, s.pcs, a.t, pc);
    OthersKeepLines(s.pcs, s.pcs[a.t := pc], a.t);
  }

  /** Registering and destroying touch no queue of clients and no line's ends. */
  lemma ListsKeepInv(s: State, a: Action)
    requires Inv(s) && Enabled(s, a) && (a.CreateServer? || a.DestroyAcceptor? || a.DestroyLine?)
    ensures Inv(Next(s, a))
  {
    var hand, g' := InHand(s.pcs, s.holder), Next(s, a).g;
    assert RegistryOk(g', hand) by { ListsKeepRegistry(s, a); }
    assert PcsOk(g', hand, s.pcs) by { SamePcs(s.g, g', hand, s.pcs); }
  }

  lemma ListsKeepRegistry(s: State, a: Action)
    requires Inv(s) && Enabled(s, a) && (a.CreateServer? || a.DestroyAcceptor? || a.DestroyLine?)
    ensures RegistryOk(Next(s, a).g, InHand(s.pcs, s.holder))
  {
    match a
    case CreateServer(_, address) => R.RegisterKeepsInv(s.g, address);
    case DestroyAcceptor(_, acceptor) => R.UnregisterKeepsDistinct(s.g.acceptors, acceptor, s.g.nextAcceptor);
    case DestroyLine(_, line) => DestroyKeepsRegistry(s.g, InHand(s.pcs, s.holder), line);
  }

  lemma DestroyKeepsRegistry(g: R.Registry, hand: Option<R.Client>, line: R.LineId)
    requires RegistryOk(g, hand)
    ensures RegistryOk(R.Destroy(g, line), hand)
  {
    R.DestroyKeepsInv(if hand.None? then g else R.PutBack(g, hand.value), line);
  }

  lemma SamePcs(g: R.Registry, g': R.Registry, hand: Option<R.Client>, pcs: map<Tid, Pc>)
    requires PcsOk(g, hand, pcs) && g'.waiting == g.waiting && g'.lines == g.lines && g'.peer == g.peer
    ensures PcsOk(g', hand, pcs)
  {
    forall t | t in pcs
      ensures PcOk(g', hand, pcs[t])
    {
      assert PcOk(g, hand, pcs[t]);
    }
  }

  lemma StepKeepsInv(s: State, a: Action)
    requires Inv(s) && Enabled(s, a)
    ensures Inv(Next(s, a))
  {
    match a
    case CallCreateClient(_, _) => ArrivalKeepsInv(s, a);
    case Scan(t, timeUp) => ScanKeepsInv(s, t, s.pcs[t].address, timeUp);
    case Pair(t) => PairKeepsInv(s, t, s.pcs[t].address, s.pcs[t].taken);
    case CreateServer(_, _) => ListsKeepInv(s, a);
    case DestroyAcceptor(_, _) => ListsKeepInv(s, a);
    case DestroyLine(_, _) => ListsKeepInv(s, a);
    case _ => TurnKeepsInv(s, a);
  }

  lemma {:induction false} RunKeepsInv(s: State, acts: seq<Action>)
    requires Inv(s) && Runs(s, acts)
    ensures Inv(Exec(s, acts))
    decreases |acts|
  {
    if acts != [] {
      StepKeepsInv(s, acts[0]);
      RunKeepsInv(Next(s, acts[0]), acts[1..]);
    }
  }

  lemma Reached(threads: set<Tid>, acts: seq<Action>)
    requires Runs(Init(threads), acts)
    ensures Inv(Exec(Init(threads), acts))
  {
    R.EmptyOk();
    RunKeepsInv(Init(threads), acts);
  }

  // ---------------------------------------------------------------- every run

  /** No client sleeps on: in createClient a sleeping thread has been notified if and only if its line
      is connected. Otherwise it is still in the queue, or in the hands of the acceptor that holds the
      global mutex and is about to pair it. */
  lemma NotifiedIffConnected(threads: set<Tid>, acts: seq<Action>, t: Tid)
    requires Runs(Init(threads), acts)
    requires var s := Exec(Init(threads), acts); t in s.pcs && s.pcs[t].ClientAsleep?
    ensures var s := Exec(Init(threads), acts);
            var c, hand := s.pcs[t].client, InHand(s.pcs, s.holder);
            && (s.pcs[t].notified <==> Connected(s.g, c.id))
            && (!s.pcs[t].notified ==> c in s.g.waiting || hand == Some(c))
            && (s.holder == None && !s.pcs[t].notified ==> c in s.g.waiting)
  {
    Reached(threads, acts);
    var s := Exec(Init(threads), acts);
    assert PcOk(s.g, InHand(s.pcs, s.holder), s.pcs[t]);
  }

  /** Nobody misses a meeting, with any number of clients and acceptors: while a client sleeps without
      having been notified, no acceptor for its address sleeps without having been notified. */
  lemma NobodyMissesAMeeting(threads: set<Tid>, acts: seq<Action>, t: Tid, u: Tid)
    requires Runs(Init(threads), acts)
    requires var s := Exec(Init(threads), acts);
             && t in s.pcs && s.pcs[t].ClientAsleep? && !s.pcs[t].notified
             && u in s.pcs && s.pcs[u].AcceptorAsleep? && s.pcs[u].address == s.pcs[t].client.address
    ensures Exec(Init(threads), acts).pcs[u].notified
  {
    Reached(threads, acts);
    NotifiedIffConnected(threads, acts, t);
    var s := Exec(Init(threads), acts);
    var c := s.pcs[t].client;
    assert PcOk(s.g, InHand(s.pcs, s.holder), s.pcs[u]);
    if c in s.g.waiting {
      var i :| 0 <= i < |s.g.waiting| && s.g.waiting[i] == c;
      assert Queued(s.g.waiting, c.address);
    }
  }

  /** `line` is connected and one end of exactly one pair; pairs do not share a client, and their flags
      are set unless an end has been destroyed. */
  ghost predicate OneEnd(g: R.Registry, line: R.LineId)
  {
    && Connected(g, line) && !R.IsWaiting(g.waiting, line)
    && (line in g.peer <==> !R.HasServer(g.peer, line))
    && (forall a, b :: a in g.peer && b in g.peer && g.peer[a] == g.peer[b] ==> a == b)
    && (forall a :: a in g.peer ==> R.Flags(g.lines, g.up, g.gone, a, g.peer[a]))
  }

  lemma ConnectedIsOneEnd(g: R.Registry, line: R.LineId)
    requires R.Inv(g) && Connected(g, line)
    ensures OneEnd(g, line)
  {
    R.ConnectedIsPaired(g, line);
  }

  lemma ConnectedInRun(g: R.Registry, hand: Option<R.Client>, line: R.LineId)
    requires RegistryOk(g, hand) && Connected(g, line)
    ensures OneEnd(g, line)
  {
    if hand.None? {
      ConnectedIsOneEnd(g, line);
    } else {
      ConnectedIsOneEnd(R.PutBack(g, hand.value), line);
      NotWaiting(g, hand.value, line);
    }
  }

  lemma NotWaiting(g: R.Registry, c: R.Client, line: R.LineId)
    ensures R.IsWaiting(g.waiting, line) ==> R.IsWaiting(R.PutBack(g, c).waiting, line)
  {
    if R.IsWaiting(g.waiting, line) {
      var k :| 0 <= k < |g.waiting| && g.waiting[k].id == line;
      assert R.PutBack(g, c).waiting[k + 1].id == line;
    }
  }

  /** createClient returns connected lines only: each is one end of exactly one pair, whose flags are
      set unless an end has been destroyed since. */
  lemma ClientReturnsConnected(threads: set<Tid>, acts: seq<Action>, t: Tid)
    requires Runs(Init(threads), acts)
    requires var s := Exec(Init(threads), acts); t in s.pcs && s.pcs[t].ClientReturned?
    ensures var s := Exec(Init(threads), acts);
            OneEnd(s.g, s.pcs[t].client.id)
  {
    Reached(threads, acts);
    var s := Exec(Init(threads), acts);
    assert PcOk(s.g, InHand(s.pcs, s.holder), s.pcs[t]);
    ConnectedInRun(s.g, InHand(s.pcs, s.holder), s.pcs[t].client.id);
  }

  /** waitConnection gives up if and only if its time is up and, at that moment, every client that has
      ever come for its address has been accepted. */
  lemma NullMeansNobodyCame(threads: set<Tid>, acts: seq<Action>, t: Tid, timeUp: bool)
    requires Runs(Init(threads), acts) && Enabled(Exec(Init(threads), acts), Scan(t, timeUp))
    ensures var s := Exec(Init(threads), acts);
            var s', address := Next(s, Scan(t, timeUp)), s.pcs[t].address;
            && t in s'.pcs
            && (s'.pcs[t] == AcceptorReturned(address, None) <==>
                  timeUp && R.For(s.g.accepted, address) == R.For(s.g.arrivals, address))
  {
    Reached(threads, acts);
    var s := Exec(Init(threads), acts);
    var address := s.pcs[t].address;
    R.ScanOutcome(s.g, address);
    AllAccepted(R.For(s.g.accepted, address), R.For(s.g.waiting, address), R.For(s.g.arrivals, address));
  }

  lemma AllAccepted(accepted: seq<R.Client>, waiting: seq<R.Client>, arrivals: seq<R.Client>)
    requires accepted + waiting == arrivals
    ensures accepted == arrivals <==> waiting == []
  {
    if accepted == arrivals {
      assert |waiting| == 0;
    }
  }
}
