/** The registry over whole runs, judged by the operations that were called: who has arrived, which
    addresses are taken, which lines are gone and which flags are set. */
module RegistryHistory {
  import opened Rendezvous
  import opened Wrappers

  // ---------------------------------------------------------------- arrivals

  function WantedBy(a: Action): seq<Address>
  {
    if a.ClientArrives? then [a.address] else []
  }

  /** The addresses of the clients created in a run, in order. */
  function Wanted(acts: seq<Action>): seq<Address>
  {
    if acts == [] then [] else WantedBy(acts[0]) + Wanted(acts[1..])
  }

  function Addresses(cs: seq<Client>): (r: seq<Address>)
    ensures |r| == |cs|
  {
    seq(|cs|, i requires 0 <= i < |cs| => cs[i].address)
  }

  ghost predicate Increasing(cs: seq<Client>, next: nat)
  {
    && (forall i :: 0 <= i < |cs| ==> cs[i].id < next)
    && (forall i, j :: 0 <= i < j < |cs| ==> cs[i].id < cs[j].id)
  }

  lemma StepArrives(g: Registry, a: Action)
    requires Increasing(g.arrivals, g.nextLine)
    ensures var g' := Next(g, a);
            && Increasing(g'.arrivals, g'.nextLine)
            && Addresses(g'.arrivals) == Addresses(g.arrivals) + WantedBy(a)
  {
  }

  lemma {:induction false} RunArrives(g: Registry, acts: seq<Action>)
    requires Increasing(g.arrivals, g.nextLine)
    ensures Increasing(Exec(g, acts).arrivals, Exec(g, acts).nextLine)
    ensures Addresses(Exec(g, acts).arrivals) == Addresses(g.arrivals) + Wanted(acts)
    decreases |acts|
  {
    if acts == [] {
      AddNothing(Addresses(g.arrivals));
    } else {
      var g', rest := Next(g, acts[0]), acts[1..];
      StepArrives(g, acts[0]);
      RunArrives(g', rest);
      Join(Addresses(g.arrivals), WantedBy(acts[0]), Wanted(rest));
    }
  }

  lemma AddNothing(a: seq<Address>)
    ensures a + [] == a
  {
  }

  lemma Join(a: seq<Address>, b: seq<Address>, c: seq<Address>)
    ensures (a + b) + c == a + (b + c)
  {
  }

  /** The arrivals are the clients that were created, each with a line of its own, in order. */
  lemma ArrivalsAreCalls(acts: seq<Action>)
    ensures Addresses(Exec(Empty(), acts).arrivals) == Wanted(acts)
    ensures Increasing(Exec(Empty(), acts).arrivals, Exec(Empty(), acts).nextLine)
  {
    RunArrives(Empty(), acts);
  }

  // ---------------------------------------------------------------- addresses

  lemma StepKeepsListed(g: Registry, a: Action, server: Acceptor)
    requires server in g.acceptors && a != ServerGoes(server)
    ensures server in Next(g, a).acceptors
  {
    if a.ServerGoes? && a.acceptor in g.acceptors {
      var i := UnregisterTakesOne(g.acceptors, a.acceptor);
      var k :| 0 <= k < |g.acceptors| && g.acceptors[k] == server;
      assert Unregister(g.acceptors, a.acceptor)[if k < i then k else k - 1] == server;
    } else if a.ServerGoes? {
      UnregisterAbsent(g.acceptors, a.acceptor);
    }
  }

  lemma {:induction false} RunKeepsListed(g: Registry, acts: seq<Action>, server: Acceptor)
    requires server in g.acceptors && ServerGoes(server) !in acts
    ensures server in Exec(g, acts).acceptors
    decreases |acts|
  {
    if acts != [] {
      StepKeepsListed(g, acts[0], server);
      RunKeepsListed(Next(g, acts[0]), acts[1..], server);
    }
  }

  /** From a successful createServer until that acceptor is destroyed the address is taken: every
      createServer for it is refused. */
  lemma RefusedWhileRegistered(before: seq<Action>, address: Address, during: seq<Action>)
    requires var g := Exec(Empty(), before);
             CreateServer(g, address).1.Some? && ServerGoes(CreateServer(g, address).1.value) !in during
    ensures var g' := CreateServer(Exec(Empty(), before), address).0;
            CreateServer(Exec(g', during), address) == (Exec(g', during), None)
  {
    EmptyOk();
    RunKeepsInv(Empty(), before);
    var g := Exec(Empty(), before);
    RegisterKeepsInv(g, address);
    RegisterOutcome(g, address);
    var (g', server) := CreateServer(g, address);
    RunKeepsListed(g', during, server.value);
    RunKeepsInv(g', during);
    var k :| 0 <= k < |Exec(g', during).acceptors| && Exec(g', during).acceptors[k] == server.value;
    RegisterOutcome(Exec(g', during), address);
  }

  /** And when it has been destroyed, the address is free again. */
  lemma FreeAfterDestruction(acts: seq<Action>, server: Acceptor)
    requires server in Exec(Empty(), acts).acceptors
    ensures CreateServer(Next(Exec(Empty(), acts), ServerGoes(server)), server.address).1.Some?
  {
    EmptyOk();
    RunKeepsInv(Empty(), acts);
    var g := Exec(Empty(), acts);
    var i := UnregisterTakesOne(g.acceptors, server);
    StepKeepsInv(g, ServerGoes(server));
    RegisterOutcome(Next(g, ServerGoes(server)), server.address);
  }

  // ---------------------------------------------------------------- destroyed lines and flags

  /** The lines that were destroyed in a run while they were connected. */
  function Destroyed(g: Registry, acts: seq<Action>): set<LineId>
    decreases |acts|
  {
    if acts == [] then {}
    else
      (match acts[0]
       case LineGoes(l) => if l in g.lines && g.lines[l].Connected? then {l} else {}
       case _ => {})
      + Destroyed(Next(g, acts[0]), acts[1..])
  }

  lemma {:induction false} GoneIsDestroyed(g: Registry, acts: seq<Action>)
    ensures Exec(g, acts).gone == g.gone + Destroyed(g, acts)
    decreases |acts|
  {
    if acts != [] {
      GoneIsDestroyed(Next(g, acts[0]), acts[1..]);
    }
  }

  /** Server end `s` has queue `q`. */
  ghost predicate Owns(g: Registry, s: LineId, q: QueueId)
  {
    && s in g.peer && s in g.lines && g.lines[s].Connected?
    && (q == g.lines[s].input || q == g.lines[s].output)
  }

  ghost predicate UpOwned(g: Registry)
  {
    forall q :: q in g.up ==> exists s :: Owns(g, s, q)
  }

  lemma AcceptKeepsOwned(g: Registry, i: nat, q: QueueId)
    requires Inv(g) && UpOwned(g) && i < |g.waiting|
    ensures q in AcceptedAt(g, i).up ==> exists s :: Owns(AcceptedAt(g, i), s, q)
  {
    var g' := AcceptedAt(g, i);
    FirstIsFresh(g, i);
    if q in g.up {
      var s :| Owns(g, s, q);
      PairedAlready(g.lines, g.peer, g.nextQueue, s, g.waiting[i].id, g.nextLine);
      assert Owns(g', s, q);
    } else if q in g'.up {
      assert Owns(g', g.nextLine, q);
    }
  }

  /** No line of `g` has other ends in `g'`, and the peers are the same. */
  ghost predicate SamePairs(g: Registry, g': Registry)
  {
    g'.peer == g.peer && g'.up <= g.up && forall l :: l in g.lines ==> l in g'.lines && g'.lines[l] == g.lines[l]
  }

  lemma StepKeepsPairs(g: Registry, a: Action)
    requires LinesOk(g.waiting, g.lines, g.peer, g.nextLine)
    ensures (a.Scan? ==> FirstFor(g.waiting, a.address).None?) ==> SamePairs(g, Next(g, a))
  {
  }

  lemma SamePairsOwn(g: Registry, g': Registry, q: QueueId)
    requires UpOwned(g) && SamePairs(g, g') && q in g'.up
    ensures exists s :: Owns(g', s, q)
  {
    var s :| Owns(g, s, q);
    assert Owns(g', s, q);
  }

  lemma StepOwns(g: Registry, a: Action, q: QueueId)
    requires Inv(g) && UpOwned(g)
    ensures q in Next(g, a).up ==> exists s :: Owns(Next(g, a), s, q)
  {
    if q !in Next(g, a).up {
    } else if a.Scan? && FirstFor(g.waiting, a.address).Some? {
      var i := FirstFor(g.waiting, a.address).value;
      AcceptEffect(g, a.address, i);
      AcceptKeepsOwned(g, i, q);
    } else {
      StepKeepsPairs(g, a);
      SamePairsOwn(g, Next(g, a), q);
    }
  }

  lemma StepKeepsOwned(g: Registry, a: Action)
    requires Inv(g) && UpOwned(g)
    ensures UpOwned(Next(g, a))
  {
    forall q | q in Next(g, a).up
      ensures exists s :: Owns(Next(g, a), s, q)
    {
      StepOwns(g, a, q);
    }
  }

  lemma {:induction false} RunKeepsOwned(g: Registry, acts: seq<Action>)
    requires Inv(g) && UpOwned(g)
    ensures UpOwned(Exec(g, acts))
    decreases |acts|
  {
    if acts != [] {
      StepKeepsInv(g, acts[0]);
      StepKeepsOwned(g, acts[0]);
      RunKeepsOwned(Next(g, acts[0]), acts[1..]);
    }
  }

  /** Over every run the flag of a queue is set exactly if the queue belongs to a pair of which no end
      has been destroyed in that run. */
  lemma FlagsFollowTheRun(acts: seq<Action>, q: QueueId)
    ensures var g, d := Exec(Empty(), acts), Destroyed(Empty(), acts);
            q in g.up <==> exists s :: Owns(g, s, q) && s !in d && g.peer[s] !in d
  {
    EmptyOk();
    RunKeepsInv(Empty(), acts);
    RunKeepsOwned(Empty(), acts);
    GoneIsDestroyed(Empty(), acts);
    var g, d := Exec(Empty(), acts), Destroyed(Empty(), acts);
    assert g.gone == d;
    if q in g.up {
      var s :| Owns(g, s, q);
      assert Flags(g.lines, g.up, g.gone, s, g.peer[s]);
    } else {
      forall s | Owns(g, s, q)
        ensures s in d || g.peer[s] in d
      {
        assert Flags(g.lines, g.up, g.gone, s, g.peer[s]);
      }
    }
  }

  // ---------------------------------------------------------------- accepted clients

  /** The accepted clients are those that have a server end. */
  ghost predicate AcceptedOk(g: Registry)
  {
    && (forall k :: 0 <= k < |g.accepted| ==> HasServer(g.peer, g.accepted[k].id))
    && (forall s :: s in g.peer ==> exists k :: 0 <= k < |g.accepted| && g.accepted[k].id == g.peer[s])
  }

  lemma StepKeepsAccepted(g: Registry, a: Action)
    requires Inv(g) && AcceptedOk(g)
    ensures AcceptedOk(Next(g, a))
  {
    if a.Scan? && FirstFor(g.waiting, a.address).Some? {
      var i := FirstFor(g.waiting, a.address).value;
      AcceptEffect(g, a.address, i);
      AcceptKeepsAccepted(g, i);
    }
  }

  lemma AcceptKeepsAccepted(g: Registry, i: nat)
    requires Inv(g) && AcceptedOk(g) && i < |g.waiting|
    ensures AcceptedOk(AcceptedAt(g, i))
  {
    var g' := AcceptedAt(g, i);
    FirstIsFresh(g, i);
    ServersAreLines(g);
    forall k | 0 <= k < |g'.accepted|
      ensures HasServer(g'.peer, g'.accepted[k].id)
    {
      if k < |g.accepted| {
        assert HasServer(g.peer, g.accepted[k].id);
        var s :| s in g.peer && g.peer[s] == g.accepted[k].id;
        assert s in g'.peer && g'.peer[s] == g'.accepted[k].id;
      } else {
        assert g'.peer[g.nextLine] == g'.accepted[k].id;
      }
    }
    forall s | s in g'.peer
      ensures exists k :: 0 <= k < |g'.accepted| && g'.accepted[k].id == g'.peer[s]
    {
      if s == g.nextLine {
        assert g'.accepted[|g.accepted|].id == g'.peer[s];
      } else {
        var k :| 0 <= k < |g.accepted| && g.accepted[k].id == g.peer[s];
        assert g'.accepted[k].id == g'.peer[s];
      }
    }
  }

  lemma {:induction false} RunKeepsAccepted(g: Registry, acts: seq<Action>)
    requires Inv(g) && AcceptedOk(g)
    ensures AcceptedOk(Exec(g, acts))
    decreases |acts|
  {
    if acts != [] {
      StepKeepsInv(g, acts[0]);
      StepKeepsAccepted(g, acts[0]);
      RunKeepsAccepted(Next(g, acts[0]), acts[1..]);
    }
  }

  /** Over every run a client has been accepted exactly if some server end has it as its peer. */
  lemma AcceptedArePaired(acts: seq<Action>, c: LineId)
    ensures var g := Exec(Empty(), acts);
            HasServer(g.peer, c) <==> exists k :: 0 <= k < |g.accepted| && g.accepted[k].id == c
  {
    EmptyOk();
    RunKeepsAccepted(Empty(), acts);
  }
}
