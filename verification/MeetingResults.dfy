/** What createClient and waitConnection return, over every run: each return is judged by the call of
    the thread that was made last. */
module MeetingResults {
  import opened Meeting
  import opened Wrappers
  import R = Rendezvous

  predicate IsCall(a: Action)
  {
    a.CallCreateClient? || a.CallWaitConnection?
  }

  function LastCall(acts: seq<Action>, t: Tid): Option<Action>
    decreases |acts|
  {
    if acts == [] then None
    else
      var a := acts[|acts| - 1];
      if a.t == t && IsCall(a) then Some(a) else LastCall(acts[..|acts| - 1], t)
  }

  lemma {:induction false} Unsnoc(s: State, acts: seq<Action>)
    requires Runs(s, acts) && acts != []
    ensures var front, a := acts[..|acts| - 1], acts[|acts| - 1];
            Runs(s, front) && Enabled(Exec(s, front), a) && Exec(s, acts) == Next(Exec(s, front), a)
    decreases |acts|
  {
    if |acts| == 1 {
      assert acts[..0] == [] && acts[1..] == [];
    } else {
      var tail := acts[1..];
      Unsnoc(Next(s, acts[0]), tail);
      assert tail[..|tail| - 1] == acts[..|acts| - 1][1..] && tail[|tail| - 1] == acts[|acts| - 1];
    }
  }

  // ---------------------------------------------------------------- threads keep their address

  /** A thread in createClient has a client with the address of its call, one in waitConnection has the
      address itself. */
  ghost predicate FromCall(t: Tid, pc: Pc, call: Option<Action>)
  {
    match pc
    case Idle => true
    case Testing(c) => call == Some(CallCreateClient(t, c.address))
    case ClientAsleep(c, _) => call == Some(CallCreateClient(t, c.address))
    case ClientReturned(c) => call == Some(CallCreateClient(t, c.address))
    case Scanning(address) => call == Some(CallWaitConnection(t, address))
    case Pairing(address, _) => call == Some(CallWaitConnection(t, address))
    case AcceptorAsleep(address, _) => call == Some(CallWaitConnection(t, address))
    case AcceptorReturned(address, _) => call == Some(CallWaitConnection(t, address))
  }

  /** Other threads' steps can only notify. */
  lemma OtherThread(s: State, a: Action, u: Tid)
    requires Enabled(s, a) && u in s.pcs && u != a.t
    ensures u in Next(s, a).pcs
    ensures Next(s, a).pcs[u] == s.pcs[u] || exists wake :: Next(s, a).pcs[u] == NotifiedBy(wake, s.pcs[u])
  {
  }

  lemma OwnFromCall(s: State, a: Action, call: Option<Action>)
    requires Enabled(s, a) && FromCall(a.t, s.pcs[a.t], call)
    ensures a.t in Next(s, a).pcs
    ensures FromCall(a.t, Next(s, a).pcs[a.t], if IsCall(a) then Some(a) else call)
  {
  }

  lemma {:induction false} EveryPcFromCall(threads: set<Tid>, acts: seq<Action>, t: Tid)
    requires t in threads && Runs(Init(threads), acts)
    ensures var s := Exec(Init(threads), acts);
            t in s.pcs && FromCall(t, s.pcs[t], LastCall(acts, t))
    decreases |acts|
  {
    if acts != [] {
      var front, a := acts[..|acts| - 1], acts[|acts| - 1];
      Unsnoc(Init(threads), acts);
      EveryPcFromCall(threads, front, t);
      var s := Exec(Init(threads), front);
      if a.t != t { OtherThread(s, a, t); } else { OwnFromCall(s, a, LastCall(front, t)); }
    }
  }

  // ---------------------------------------------------------------- acceptors get their clients

  /** Server end `server` has as its peer an accepted client that came for `address`. */
  ghost predicate Serves(g: R.Registry, server: R.LineId, address: R.Address)
  {
    && server in g.peer
    && exists k :: 0 <= k < |g.accepted| && g.accepted[k].id == g.peer[server] && g.accepted[k].address == address
  }

  ghost predicate Served(g: R.Registry, pc: Pc)
  {
    pc.AcceptorReturned? && pc.server.Some? ==> Serves(g, pc.server.value, pc.address)
  }

  ghost predicate AllServed(g: R.Registry, pcs: map<Tid, Pc>)
  {
    forall t :: t in pcs ==> Served(g, pcs[t])
  }

  ghost predicate Differ(a: Pc, b: Pc)
  {
    a.AcceptorReturned? && b.AcceptorReturned? && a.server.Some? ==> a.server != b.server
  }

  /** No two threads have been given the same server end. */
  ghost predicate OwnServers(pcs: map<Tid, Pc>)
  {
    forall t, u :: t in pcs && u in pcs && t != u ==> Differ(pcs[t], pcs[u])
  }

  lemma PeersAreOld(g: R.Registry, hand: Option<R.Client>)
    requires RegistryOk(g, hand)
    ensures g.nextLine !in g.peer
  {
    R.ServersAreLines(if hand.None? then g else R.PutBack(g, hand.value));
  }

  lemma ServesOn(g: R.Registry, c: R.Client, server: R.LineId, address: R.Address)
    requires Serves(g, server, address) && g.nextLine !in g.peer
    ensures Serves(R.PairTaken(g, c).0, server, address)
  {
    var k :| 0 <= k < |g.accepted| && g.accepted[k].id == g.peer[server] && g.accepted[k].address == address;
    var g' := R.PairTaken(g, c).0;
    assert g'.accepted[k] == g.accepted[k];
  }

  /** The pairing thread gets a line that nobody has been given. */
  lemma PairServes(s: State, t: Tid, address: R.Address, c: R.Client)
    requires s.g.nextLine !in s.g.peer && AllServed(s.g, s.pcs) && OwnServers(s.pcs)
    requires t in s.pcs && s.pcs[t] == Pairing(address, c) && c.address == address
    ensures var s' := PairStep(s, t, address, c);
            AllServed(s'.g, s'.pcs) && OwnServers(s'.pcs)
  {
    var s' := PairStep(s, t, address, c);
    NewServes(s.g, c);
    forall u | u in s.pcs && u != t
      ensures Served(s'.g, s'.pcs[u]) && Differ(s'.pcs[t], s'.pcs[u]) && Differ(s'.pcs[u], s'.pcs[t])
    {
      OldServes(s.g, c, s.pcs[u]);
    }
  }

  lemma NewServes(g: R.Registry, c: R.Client)
    ensures Serves(R.PairTaken(g, c).0, g.nextLine, c.address)
  {
    var g' := R.PairTaken(g, c).0;
    assert g'.accepted[|g.accepted|] == c && g'.peer[g.nextLine] == c.id;
  }

  lemma OldServes(g: R.Registry, c: R.Client, pc: Pc)
    requires g.nextLine !in g.peer && Served(g, pc)
    ensures Served(R.PairTaken(g, c).0, NotifiedBy(R.ClientOf(c.id), pc))
    ensures pc.AcceptorReturned? ==> pc.server != Some(g.nextLine)
    ensures pc.AcceptorReturned? <==> NotifiedBy(R.ClientOf(c.id), pc).AcceptorReturned?
    ensures pc.AcceptorReturned? ==> NotifiedBy(R.ClientOf(c.id), pc) == pc
  {
    if pc.AcceptorReturned? && pc.server.Some? { ServesOn(g, c, pc.server.value, pc.address); }
  }

  /** No other step touches the peers or the accepted clients, or returns a server end. */
  lemma OthersServe(s: State, a: Action)
    requires AllServed(s.g, s.pcs) && OwnServers(s.pcs) && Enabled(s, a) && !a.Pair?
    ensures AllServed(Next(s, a).g, Next(s, a).pcs) && OwnServers(Next(s, a).pcs)
  {
    var s' := Next(s, a);
    SameRecords(s, a);
    forall u | u in s'.pcs
      ensures Served(s'.g, s'.pcs[u])
      ensures s'.pcs[u].AcceptorReturned? && s'.pcs[u].server.Some? ==> s'.pcs[u] == s.pcs[u]
    {
      assert Served(s.g, s.pcs[u]);
    }
  }

  lemma SameRecords(s: State, a: Action)
    requires Enabled(s, a) && !a.Pair?
    ensures Next(s, a).g.peer == s.g.peer && Next(s, a).g.accepted == s.g.accepted
  {
  }

  lemma PairKeepsServed(s: State, t: Tid)
    requires Inv(s) && AllServed(s.g, s.pcs) && OwnServers(s.pcs) && Enabled(s, Pair(t))
    ensures AllServed(Next(s, Pair(t)).g, Next(s, Pair(t)).pcs) && OwnServers(Next(s, Pair(t)).pcs)
  {
    PeersAreOld(s.g, InHand(s.pcs, s.holder));
    assert PcOk(s.g, InHand(s.pcs, s.holder), s.pcs[t]);
    PairServes(s, t, s.pcs[t].address, s.pcs[t].taken);
  }

  lemma {:induction false} RunServes(s: State, acts: seq<Action>)
    requires Inv(s) && AllServed(s.g, s.pcs) && OwnServers(s.pcs) && Runs(s, acts)
    ensures AllServed(Exec(s, acts).g, Exec(s, acts).pcs) && OwnServers(Exec(s, acts).pcs)
    decreases |acts|
  {
    if acts != [] {
      if acts[0].Pair? { PairKeepsServed(s, acts[0].t); } else { OthersServe(s, acts[0]); }
      StepKeepsInv(s, acts[0]);
      RunServes(Next(s, acts[0]), acts[1..]);
    }
  }

  /** waitConnection returns, for the address it was called with, a server end whose peer is an accepted
      client that came for that address; no other call has returned the same. */
  lemma AcceptorsAreServed(threads: set<Tid>, acts: seq<Action>, t: Tid, u: Tid)
    requires t in threads && Runs(Init(threads), acts)
    requires var s := Exec(Init(threads), acts);
             t in s.pcs && s.pcs[t].AcceptorReturned? && s.pcs[t].server.Some?
    ensures var s := Exec(Init(threads), acts);
            && LastCall(acts, t) == Some(CallWaitConnection(t, s.pcs[t].address))
            && Serves(s.g, s.pcs[t].server.value, s.pcs[t].address)
            && (u in s.pcs && u != t && s.pcs[u].AcceptorReturned? ==> s.pcs[u].server != s.pcs[t].server)
  {
    R.EmptyOk();
    EveryPcFromCall(threads, acts, t);
    RunServes(Init(threads), acts);
    var s := Exec(Init(threads), acts);
    assert Served(s.g, s.pcs[t]);
    assert u in s.pcs && u != t ==> Differ(s.pcs[t], s.pcs[u]);
  }

  /** createClient returns the client that was created for its call. */
  lemma ClientsGetTheirLine(threads: set<Tid>, acts: seq<Action>, t: Tid)
    requires t in threads && Runs(Init(threads), acts)
    requires var s := Exec(Init(threads), acts); t in s.pcs && s.pcs[t].ClientReturned?
    ensures var s := Exec(Init(threads), acts);
            && LastCall(acts, t) == Some(CallCreateClient(t, s.pcs[t].client.address))
            && OneEnd(s.g, s.pcs[t].client.id)
  {
    EveryPcFromCall(threads, acts, t);
    ClientReturnsConnected(threads, acts, t);
  }

  /** A call ends by returning: a thread becomes idle only when its result is collected. */
  lemma CallsEndByReturning(s: State, a: Action, t: Tid)
    requires Enabled(s, a) && t in s.pcs && !s.pcs[t].Idle?
    ensures t in Next(s, a).pcs
    ensures Next(s, a).pcs[t].Idle? <==> a == Collect(t) && (s.pcs[t].ClientReturned? || s.pcs[t].AcceptorReturned?)
  {
    if a.t != t { OtherThread(s, a, t); }
  }

  // ---------------------------------------------------------------- nobody is left behind

  /** A client returns from its test exactly if its line is connected. */
  lemma TestDecides(s: State, t: Tid)
    requires Enabled(s, Test(t))
    ensures var c, s' := s.pcs[t].client, Next(s, Test(t));
            && t in s'.pcs
            && (s'.pcs[t] == ClientReturned(c) <==> Connected(s.g, c.id))
            && (s'.pcs[t] == ClientAsleep(c, false) <==> !Connected(s.g, c.id))
  {
  }

  /** A sleeping thread can wake at any time, and then looks again. */
  lemma MayWake(s: State, t: Tid)
    requires t in s.pcs && (s.pcs[t].ClientAsleep? || s.pcs[t].AcceptorAsleep?)
    ensures Enabled(s, Wake(t))
    ensures var pc, s' := s.pcs[t], Next(s, Wake(t));
            && t in s'.pcs
            && (pc.ClientAsleep? ==> s'.pcs[t] == Testing(pc.client))
            && (pc.AcceptorAsleep? ==> s'.pcs[t] == Scanning(pc.address))
  {
  }

  /** What happens by itself: everything but new calls, spurious wake-ups and the passing of time. */
  predicate Pending(s: State, a: Action)
  {
    && Enabled(s, a)
    && (a.Test? || a.Scan? || a.Pair? || a.Collect?
        || (a.Wake? && match s.pcs[a.t] case ClientAsleep(_, n) => n case AcceptorAsleep(_, n) => n case _ => false))
  }

  ghost predicate Quiet(s: State)
  {
    forall a :: !Pending(s, a)
  }

  /** The holder of the global mutex can go on. */
  lemma HolderPending(s: State)
    requires Inv(s)
    ensures s.holder.Some? ==> Pending(s, Pair(s.holder.value))
  {
  }

  /** No deadlock: in every reachable state in which nothing happens by itself any more, the global
      mutex is free, every client in createClient is still in the queue, every acceptor in
      waitConnection has nobody in the queue for it, and all other threads are idle. */
  lemma QuietMeansNothingToDo(threads: set<Tid>, acts: seq<Action>, t: Tid)
    requires Runs(Init(threads), acts) && Quiet(Exec(Init(threads), acts))
    requires t in Exec(Init(threads), acts).pcs
    ensures var s := Exec(Init(threads), acts);
            && s.holder == None
            && match s.pcs[t]
               case Idle => true
               case ClientAsleep(c, notified) => !notified && c in s.g.waiting
               case AcceptorAsleep(address, notified) => !notified && !Queued(s.g.waiting, address)
               case _ => false
  {
    Reached(threads, acts);
    var s := Exec(Init(threads), acts);
    HolderPending(s);
    assert PcOk(s.g, InHand(s.pcs, s.holder), s.pcs[t]);
    assert !Pending(s, Test(t)) && !Pending(s, Scan(t, false)) && !Pending(s, Pair(t));
    assert !Pending(s, Collect(t)) && !Pending(s, Wake(t));
  }

  // ---------------------------------------------------------------- refinement of the registry

  /** The registry operations that a step completes: a scan counts when its client is paired. */
  function OperationOf(s: State, a: Action): seq<R.Action>
    requires Enabled(s, a)
  {
    match a
    case CallCreateClient(_, address) => [R.ClientArrives(address)]
    case Pair(t) => [R.Scan(s.pcs[t].address)]
    case CreateServer(_, address) => [R.ServerRegisters(address)]
    case DestroyAcceptor(_, acceptor) => [R.ServerGoes(acceptor)]
    case DestroyLine(_, line) => [R.LineGoes(line)]
    case _ => []
  }

  function Operations(s: State, acts: seq<Action>): seq<R.Action>
    requires Runs(s, acts)
    decreases |acts|
  {
    if acts == [] then [] else OperationOf(s, acts[0]) + Operations(Next(s, acts[0]), acts[1..])
  }

  /** The registry is `g`, or `g` without the client that the holder of the global mutex has found. */
  ghost predicate Shows(s: State, g: R.Registry)
  {
    && HolderOk(s.pcs, s.holder)
    && if s.holder == None then s.g == g else exists i :: Found(s, g, i)
  }

  ghost predicate Found(s: State, g: R.Registry, i: nat)
    requires HolderOk(s.pcs, s.holder) && s.holder.Some?
  {
    var pc := s.pcs[s.holder.value];
    && R.FirstFor(g.waiting, pc.address) == Some(i) && i < |g.waiting|
    && pc.taken == g.waiting[i] && s.g == R.Erased(g, i)
  }

  lemma PairShows(s: State, t: Tid, g: R.Registry)
    requires Shows(s, g) && Enabled(s, Pair(t))
    ensures Next(s, Pair(t)).g == R.Accept(g, s.pcs[t].address).0
  {
    var i :| Found(s, g, i);
  }

  lemma ScanShows(s: State, a: Action, g: R.Registry)
    requires Inv(s) && Shows(s, g) && Enabled(s, a) && a.Scan?
    ensures Shows(Next(s, a), g)
  {
    StepKeepsInv(s, a);
    var first := R.FirstFor(s.g.waiting, s.pcs[a.t].address);
    if first.Some? {
      assert Found(Next(s, a), g, first.value);
    }
  }

  /** Destroying a line does not touch the queue, so it may fall between a scan's two halves. */
  lemma DestroyShows(s: State, a: Action, g: R.Registry)
    requires Inv(s) && Shows(s, g) && Enabled(s, a) && a.DestroyLine?
    ensures Shows(Next(s, a), R.Destroy(g, a.line))
  {
    StepKeepsInv(s, a);
    if s.holder.Some? {
      var i :| Found(s, g, i);
      assert Found(Next(s, a), R.Destroy(g, a.line), i);
    }
  }

  lemma TurnShows(s: State, a: Action, g: R.Registry)
    requires Inv(s) && Shows(s, g) && Enabled(s, a) && (a.Test? || a.CallWaitConnection? || a.Wake? || a.Collect?)
    ensures Shows(Next(s, a), g)
  {
    StepKeepsInv(s, a);
    if s.holder.Some? {
      var i :| Found(s, g, i);
      assert Found(Next(s, a), g, i);
    }
  }

  /** What needs the global mutex from beginning to end happens while nobody holds it. */
  lemma LockedShows(s: State, a: Action, g: R.Registry)
    requires Inv(s) && Shows(s, g) && Enabled(s, a)
    requires a.CallCreateClient? || a.CreateServer? || a.DestroyAcceptor?
    ensures |OperationOf(s, a)| == 1 && Shows(Next(s, a), R.Next(g, OperationOf(s, a)[0]))
  {
    StepKeepsInv(s, a);
  }

  lemma PairingShows(s: State, a: Action, g: R.Registry)
    requires Inv(s) && Shows(s, g) && Enabled(s, a) && a.Pair?
    ensures |OperationOf(s, a)| == 1 && Shows(Next(s, a), R.Next(g, OperationOf(s, a)[0]))
  {
    StepKeepsInv(s, a);
    PairShows(s, a.t, g);
  }

  lemma StepShows(s: State, a: Action, g: R.Registry)
    requires Inv(s) && Shows(s, g) && Enabled(s, a)
    ensures Shows(Next(s, a), R.Exec(g, OperationOf(s, a)))
  {
    OneOperation(g, OperationOf(s, a));
    match a
    case Scan(_, _) => ScanShows(s, a, g);
    case Pair(_) => PairingShows(s, a, g);
    case DestroyLine(_, _) => DestroyShows(s, a, g);
    case CallCreateClient(_, _) => LockedShows(s, a, g);
    case CreateServer(_, _) => LockedShows(s, a, g);
    case DestroyAcceptor(_, _) => LockedShows(s, a, g);
    case _ => TurnShows(s, a, g);
  }

  lemma OneOperation(g: R.Registry, ops: seq<R.Action>)
    requires |ops| <= 1
    ensures R.Exec(g, ops) == if ops == [] then g else R.Next(g, ops[0])
  {
    if ops != [] { assert ops[1..] == []; }
  }

  lemma {:induction false} ExecAppend(g: R.Registry, a: seq<R.Action>, b: seq<R.Action>)
    ensures R.Exec(g, a + b) == R.Exec(R.Exec(g, a), b)
    decreases |a|
  {
    if a == [] {
      assert a + b == b;
    } else {
      assert (a + b)[0] == a[0] && (a + b)[1..] == a[1..] + b;
      ExecAppend(R.Next(g, a[0]), a[1..], b);
    }
  }

  lemma {:induction false} RunShows(s: State, acts: seq<Action>, g: R.Registry)
    requires Inv(s) && Shows(s, g) && Runs(s, acts)
    ensures Shows(Exec(s, acts), R.Exec(g, Operations(s, acts)))
    decreases |acts|
  {
    if acts != [] {
      var s', now, rest := Next(s, acts[0]), OperationOf(s, acts[0]), Operations(Next(s, acts[0]), acts[1..]);
      StepShows(s, acts[0], g);
      StepKeepsInv(s, acts[0]);
      RunShows(s', acts[1..], R.Exec(g, now));
      ExecAppend(g, now, rest);
    }
  }

  /** The threads refine the registry: in every interleaving, whenever the global mutex is free, the
      registry is what the completed operations, one after another, would have made of an empty one.
      So everything that holds over every run of the registry holds here. */
  lemma ThreadsRefineRegistry(threads: set<Tid>, acts: seq<Action>)
    requires Runs(Init(threads), acts)
    ensures var s := Exec(Init(threads), acts);
            s.holder == None ==> s.g == R.Exec(R.Empty(), Operations(Init(threads), acts))
  {
    R.EmptyOk();
    RunShows(Init(threads), acts, R.Empty());
  }

  // ---------------------------------------------------------------- a meeting

  /** An idle thread can call; what needs the global mutex has to find it free. */
  lemma MayCall(s: State, t: Tid, address: R.Address, acceptor: R.Acceptor, line: R.LineId)
    requires t in s.pcs && s.pcs[t].Idle?
    ensures Enabled(s, CallWaitConnection(t, address)) && Enabled(s, DestroyLine(t, line))
    ensures s.holder == None ==>
              && Enabled(s, CallCreateClient(t, address)) && Enabled(s, CreateServer(t, address))
              && Enabled(s, DestroyAcceptor(t, acceptor))
  {
  }

  lemma TwoSteps(s: State, a: Action, b: Action, rest: seq<Action>)
    requires Enabled(s, a) && Enabled(Next(s, a), b) && Runs(Next(Next(s, a), b), rest)
    ensures Runs(s, [a, b] + rest) && Exec(s, [a, b] + rest) == Exec(Next(Next(s, a), b), rest)
  {
    assert ([a, b] + rest)[1..] == [b] + rest && ([b] + rest)[1..] == rest;
    assert Runs(Next(s, a), [b] + rest) && Exec(Next(s, a), [b] + rest) == Exec(Next(Next(s, a), b), rest);
  }

  /** A client and an acceptor for one address do meet: both return, each with an end of one pair. */
  lemma TheyMeet(threads: set<Tid>, t: Tid, u: Tid, address: R.Address) returns (acts: seq<Action>)
    requires t in threads && u in threads && t != u
    ensures Runs(Init(threads), acts)
    ensures var s := Exec(Init(threads), acts);
            && t in s.pcs && s.pcs[t].ClientReturned? && s.pcs[t].client.address == address
            && u in s.pcs && s.pcs[u].AcceptorReturned? && s.pcs[u].address == address && s.pcs[u].server.Some?
            && s.pcs[u].server.value in s.g.peer && s.g.peer[s.pcs[u].server.value] == s.pcs[t].client.id
  {
    var s0 := Init(threads);
    var arrive, wait := CallCreateClient(t, address), CallWaitConnection(u, address);
    var s2 := Next(Next(s0, arrive), wait);
    assert s2.g.waiting == [R.Client(0, address)] && s2.pcs[t] == Testing(R.Client(0, address));
    var s4 := Next(Next(s2, Scan(u, false)), Pair(u));
    assert s4.pcs[t] == Testing(R.Client(0, address));
    var s5 := Next(s4, Test(t));
    assert [Test(t)][1..] == [] && Runs(s5, []) && Exec(s5, []) == s5;
    assert Runs(s4, [Test(t)]) && Exec(s4, [Test(t)]) == s5;
    TwoSteps(s2, Scan(u, false), Pair(u), [Test(t)]);
    TwoSteps(s0, arrive, wait, [Scan(u, false), Pair(u)] + [Test(t)]);
    acts := [arrive, wait] + ([Scan(u, false), Pair(u)] + [Test(t)]);
  }
}
