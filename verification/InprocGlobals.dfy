/** The global lists of the in-process factory, updated in place: each operation, with the loop
    it runs over a list, changes the registry exactly as the specification says and keeps its
    invariant. Operations that end in a notification return whom they notify. */
module InprocGlobals {
  import opened Rendezvous
  import opened Wrappers

  class Globals {
    var acceptors: seq<Acceptor>
    var connectQueue: seq<Client>
    var lines: map<LineId, Ends>
    var up: set<QueueId>
    var nextLine: nat
    var nextQueue: nat
    var nextAcceptor: nat
    ghost var gone: set<LineId>
    ghost var peer: map<LineId, LineId>
    ghost var arrivals: seq<Client>
    ghost var accepted: seq<Client>

    ghost function State(): Registry
      reads this
    {
      Registry(acceptors, connectQueue, lines, up, gone, peer, nextLine, nextQueue, nextAcceptor, arrivals, accepted)
    }

    ghost predicate Valid()
      reads this
    {
      Inv(State())
    }

    constructor ()
      ensures Valid() && State() == Empty()
    {
      acceptors, connectQueue, lines, up := [], [], map[], {};
      nextLine, nextQueue, nextAcceptor := 0, 0, 0;
      gone, peer, arrivals, accepted := {}, map[], [], [];
      new;
      EmptyOk();
    }

    method NewClient(address: Address) returns (line: LineId, wake: Wake)
      requires Valid()
      modifies this
      ensures Valid() && (State(), line, wake) == CreateClient(old(State()), address)
    {
      ArrivalKeepsInv(State(), address);
      line := nextLine;
      nextLine := nextLine + 1;
      lines := lines[line := Unconnected];
      connectQueue := connectQueue + [Client(line, address)];
      arrivals := arrivals + [Client(line, address)];
      wake := AllAcceptors;
    }

    method NewServer(address: Address) returns (server: Option<Acceptor>)
      requires Valid()
      modifies this
      ensures Valid() && (State(), server) == CreateServer(old(State()), address)
    {
      RegisterKeepsInv(State(), address);
      var it := 0;
      while it < |acceptors|
        invariant 0 <= it <= |acceptors| && State() == old(State())
        invariant forall i :: 0 <= i < it ==> acceptors[i].address != address
      {
        if acceptors[it].address == address { return None; }
        it := it + 1;
      }
      var acceptor := Acceptor(nextAcceptor, address);
      nextAcceptor := nextAcceptor + 1;
      acceptors := acceptors + [acceptor];
      return Some(acceptor);
    }

    method DestroyAcceptor(acceptor: Acceptor)
      requires Valid()
      modifies this`acceptors
      ensures Valid() && acceptors == Unregister(old(acceptors), acceptor)
    {
      UnregisterKeepsDistinct(acceptors, acceptor, nextAcceptor);
      var it := 0;
      while it < |acceptors|
        invariant 0 <= it <= |acceptors| && acceptors == old(acceptors)
        invariant Unregister(acceptors, acceptor) == acceptors[..it] + Unregister(acceptors[it..], acceptor)
      {
        if acceptors[it] == acceptor {
          assert acceptors[it..][1..] == acceptors[it + 1..];
          acceptors := acceptors[..it] + acceptors[it + 1..];
          return;
        }
        assert acceptors[it..][1..] == acceptors[it + 1..];
        assert acceptors[..it] + [acceptors[it]] == acceptors[..it + 1];
        it := it + 1;
      }
    }

    /** The constructor of the server end. It runs inside a scan, when the client has left the queue
        and has no queues yet, so the invariant holds again only at its end. */
    method NewServerEnd(client: LineId) returns (server: LineId, wake: Wake)
      modifies this
      ensures (State(), server, wake) == Pair(old(State()), client)
    {
      server := nextLine;
      var input, output := nextQueue, nextQueue + 1;
      nextLine, nextQueue := nextLine + 1, nextQueue + 2;
      lines := lines[server := Connected(input, output)];
      lines := lines[client := Connected(output, input)];
      up := up + {output};
      up := up + {input};
      assert up == old(up) + {input, output};
      peer := peer[server := client];
      wake := ClientOf(client);
    }

    /** The end of a scan that has found its client: out of the queue, then paired. */
    method Take(it: nat) returns (server: LineId, wake: Wake)
      requires it < |connectQueue|
      modifies this
      ensures (State(), server, wake) == PairTaken(Erased(old(State()), it), old(connectQueue)[it])
    {
      var line := connectQueue[it];
      connectQueue := Without(connectQueue, it);
      server, wake := NewServerEnd(line.id);
      accepted := accepted + [line];
    }

    /** One pass of waitConnection over the connect queue. */
    method ScanQueue(address: Address) returns (server: Option<LineId>, wake: Wake)
      requires Valid()
      modifies this
      ensures Valid() && (State(), server, wake) == Accept(old(State()), address)
    {
      AcceptKeepsInv(State(), address);
      var it := 0;
      while it < |connectQueue|
        invariant 0 <= it <= |connectQueue| && State() == old(State())
        invariant forall i :: 0 <= i < it ==> connectQueue[i].address != address
      {
        var line := connectQueue[it];
        if line.address == address {
          FirstIsUnique(connectQueue, address, it);
          var end, client := Take(it);
          return Some(end), client;
        }
        it := it + 1;
      }
      assert FirstFor(connectQueue, address) == None;
      return None, Nobody;
    }

    /** The destructor of a connected line. */
    method DestroyLine(line: LineId)
      requires Valid() && line in lines && lines[line].Connected?
      modifies this
      ensures Valid() && State() == Destroy(old(State()), line)
    {
      DestroyKeepsInv(State(), line);
      up := up - {lines[line].output};
      up := up - {lines[line].input};
      gone := gone + {line};
      assert up == old(up) - {lines[line].input, lines[line].output};
    }
  }

  lemma FirstIsUnique(waiting: seq<Client>, address: Address, i: nat)
    requires i < |waiting| && waiting[i].address == address
    requires forall j :: 0 <= j < i ==> waiting[j].address != address
    ensures FirstFor(waiting, address) == Some(i)
  {
    var r := FirstFor(waiting, address);
    assert r.Some?;
  }
}
