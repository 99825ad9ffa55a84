/** Connecting two ends of an in-process line: clients queue up under an address, acceptors take
    them from the queue and pair each with a new server end. All of it runs under one global
    mutex, so each operation is one step. */
module Rendezvous {
  import opened Wrappers

  type Address = string
  type LineId = nat
  type QueueId = nat
  type AcceptorId = nat

  /** A client line in the connect queue; its address never changes. */
  datatype Client = Client(id: LineId, address: Address)

  /** A registered acceptor; its address never changes. */
  datatype Acceptor = Acceptor(id: AcceptorId, address: Address)

  /** The two data queues of a line, absent until it is connected. */
  datatype Ends = Unconnected | Connected(input: QueueId, output: QueueId)

  /** Whom an operation notifies: all acceptors that wait, or the client of one line. */
  datatype Wake = Nobody | AllAcceptors | ClientOf(line: LineId)

  /** The global lists, the lines that exist, the queues whose connection flag is set (`up`), the
      lines that have been destroyed (`gone`), and for each server end the client it serves.
      `arrivals` and `accepted` list the clients ever queued and ever accepted, in order. */
  datatype Registry = Registry(
    acceptors: seq<Acceptor>, waiting: seq<Client>,
    lines: map<LineId, Ends>, up: set<QueueId>, gone: set<LineId>, peer: map<LineId, LineId>,
    nextLine: nat, nextQueue: nat, nextAcceptor: nat,
    arrivals: seq<Client>, accepted: seq<Client>)

  // ---------------------------------------------------------------- the operations

  /** createClient up to its wait: a new line joins the connect queue, and acceptors are notified. */
  function CreateClient(g: Registry, address: Address): (r: (Registry, LineId, Wake))
  {
    var c := Client(g.nextLine, address);
    (g.(waiting := g.waiting + [c], arrivals := g.arrivals + [c],
        lines := g.lines[c.id := Unconnected], nextLine := g.nextLine + 1),
     c.id, AllAcceptors)
  }

  predicate Taken(acceptors: seq<Acceptor>, address: Address)
  {
    exists i :: 0 <= i < |acceptors| && acceptors[i].address == address
  }

  /** createServer: refused if the address is registered. */
  function CreateServer(g: Registry, address: Address): (r: (Registry, Option<Acceptor>))
  {
    if Taken(g.acceptors, address) then (g, None)
    else
      var a := Acceptor(g.nextAcceptor, address);
      (g.(acceptors := g.acceptors + [a], nextAcceptor := g.nextAcceptor + 1), Some(a))
  }

  /** Destroying an acceptor takes it from the list, if it is there. */
  function Unregister(acceptors: seq<Acceptor>, a: Acceptor): (r: seq<Acceptor>)
  {
    if acceptors == [] then []
    else if acceptors[0] == a then acceptors[1..]
    else [acceptors[0]] + Unregister(acceptors[1..], a)
  }

  /** The position of the first client that waits for `address`. */
  function FirstFor(waiting: seq<Client>, address: Address): (r: Option<nat>)
    ensures r.Some? ==> r.value < |waiting| && waiting[r.value].address == address
    ensures r.Some? ==> forall j :: 0 <= j < r.value ==> waiting[j].address != address
    ensures r.None? ==> forall j :: 0 <= j < |waiting| ==> waiting[j].address != address
  {
    if waiting == [] then None
    else if waiting[0].address == address then Some(0)
    else
      match FirstFor(waiting[1..], address)
      case None => None
      case Some(k) => Some(k + 1)
  }

  /** The lines after a server end has been paired with `client`. */
  function Paired(lines: map<LineId, Ends>, server: LineId, client: LineId, n: QueueId): map<LineId, Ends>
  {
    lines[server := Connected(n, n + 1)][client := Connected(n + 1, n)]
  }

  function Without(waiting: seq<Client>, i: nat): seq<Client>
    requires i < |waiting|
  {
    waiting[..i] + waiting[i + 1..]
  }

  /** The constructor of a server end for `client`: two new queues, shared crosswise, both with the
      connection flag set; the client is notified. */
  function Pair(g: Registry, client: LineId): (r: (Registry, LineId, Wake))
  {
    var server, n := g.nextLine, g.nextQueue;
    (g.(lines := Paired(g.lines, server, client, n), up := g.up + {n, n + 1}, peer := g.peer[server := client],
        nextLine := g.nextLine + 1, nextQueue := n + 2),
     server, ClientOf(client))
  }

  /** The registry after a scan has taken the client at position `i` out of the queue. */
  function Erased(g: Registry, i: nat): Registry
    requires i < |g.waiting|
  {
    g.(waiting := Without(g.waiting, i))
  }

  /** A scan then pairs the client it has taken. */
  function PairTaken(g: Registry, c: Client): (r: (Registry, LineId, Wake))
  {
    var (g', server, wake) := Pair(g, c.id);
    (g'.(accepted := g.accepted + [c]), server, wake)
  }

  /** One scan of waitConnection: take the first client for the address, if there is one. */
  function Accept(g: Registry, address: Address): (r: (Registry, Option<LineId>, Wake))
  {
    match FirstFor(g.waiting, address)
    case None => (g, None, Nobody)
    case Some(i) =>
      var (g', server, wake) := PairTaken(Erased(g, i), g.waiting[i]);
      (g', Some(server), wake)
  }

  /** Destroying a connected line clears the flags of its two queues. */
  function Destroy(g: Registry, line: LineId): Registry
  {
    if line in g.lines && g.lines[line].Connected? then
      g.(up := g.up - {g.lines[line].input, g.lines[line].output}, gone := g.gone + {line})
    else g
  }

  datatype Action =
    | ClientArrives(address: Address)
    | ServerRegisters(address: Address)
    | ServerGoes(acceptor: Acceptor)
    | Scan(address: Address)
    | LineGoes(line: LineId)

  function Next(g: Registry, a: Action): Registry
  {
    match a
    case ClientArrives(address) => CreateClient(g, address).0
    case ServerRegisters(address) => CreateServer(g, address).0
    case ServerGoes(acceptor) => g.(acceptors := Unregister(g.acceptors, acceptor))
    case Scan(address) => Accept(g, address).0
    case LineGoes(line) => Destroy(g, line)
  }

  function Empty(): Registry
  {
    Registry([], [], map[], {}, {}, map[], 0, 0, 0, [], [])
  }

  function Exec(g: Registry, acts: seq<Action>): Registry
    decreases |acts|
  {
    if acts == [] then g else Exec(Next(g, acts[0]), acts[1..])
  }

  // ---------------------------------------------------------------- what every operation keeps

  /** The registered acceptors have pairwise distinct addresses. */
  ghost predicate AcceptorsOk(acceptors: seq<Acceptor>)
  {
    forall i, j :: 0 <= i < j < |acceptors| ==> acceptors[i].address != acceptors[j].address
  }

  /** They have pairwise distinct identities, all of them given out before. */
  ghost predicate AcceptorIdsOk(acceptors: seq<Acceptor>, nextAcceptor: nat)
  {
    && (forall i :: 0 <= i < |acceptors| ==> acceptors[i].id < nextAcceptor)
    && (forall i, j :: 0 <= i < j < |acceptors| ==> acceptors[i].id != acceptors[j].id)
  }

  /** Waiting clients are distinct lines without queues. */
  ghost predicate WaitingOk(waiting: seq<Client>, lines: map<LineId, Ends>)
  {
    && (forall i :: 0 <= i < |waiting| ==> waiting[i].id in lines && lines[waiting[i].id] == Unconnected)
    && (forall i, j :: 0 <= i < j < |waiting| ==> waiting[i].id != waiting[j].id)
  }

  ghost predicate IsWaiting(waiting: seq<Client>, l: LineId)
  {
    exists i :: 0 <= i < |waiting| && waiting[i].id == l
  }

  /** Server end `s` and client `c` hold the same two queues crosswise. */
  ghost predicate Crosswise(lines: map<LineId, Ends>, nextQueue: nat, s: LineId, c: LineId)
  {
    && s in lines && c in lines && s != c
    && lines[s].Connected? && lines[c] == Connected(lines[s].output, lines[s].input)
    && lines[s].input != lines[s].output
    && lines[s].input < nextQueue && lines[s].output < nextQueue
  }

  /** Two connected lines have no queue in common. */
  ghost predicate NoSharedQueue(lines: map<LineId, Ends>, s: LineId, t: LineId)
  {
    && s in lines && t in lines && lines[s].Connected? && lines[t].Connected?
    && {lines[s].input, lines[s].output} !! {lines[t].input, lines[t].output}
  }

  /** Every server end is crosswise with its client; two pairs share neither a line nor a queue. */
  ghost predicate PairsOk(lines: map<LineId, Ends>, peer: map<LineId, LineId>, nextQueue: nat)
  {
    && (forall s :: s in peer ==> Crosswise(lines, nextQueue, s, peer[s]))
    && (forall s, t :: s in peer && t in peer && s != t ==> peer[s] != peer[t] && NoSharedQueue(lines, s, t))
    && (forall s, t :: s in peer && t in peer ==> s != peer[t])
  }

  ghost predicate HasServer(peer: map<LineId, LineId>, l: LineId)
  {
    exists s :: s in peer && peer[s] == l
  }

  /** Every line is waiting, or a server end, or the client of one. */
  ghost predicate LinesOk(waiting: seq<Client>, lines: map<LineId, Ends>, peer: map<LineId, LineId>, nextLine: nat)
  {
    && (forall l :: l in lines ==> l < nextLine)
    && (forall l :: l in lines ==> IsWaiting(waiting, l) || l in peer || HasServer(peer, l))
  }

  /** The flags of the two queues of a pair are set exactly while both ends exist. */
  ghost predicate Flags(lines: map<LineId, Ends>, up: set<QueueId>, gone: set<LineId>, s: LineId, c: LineId)
  {
    && s in lines && lines[s].Connected?
    && (lines[s].input in up <==> s !in gone && c !in gone)
    && (lines[s].output in up <==> s !in gone && c !in gone)
  }

  ghost predicate FlagsOk(lines: map<LineId, Ends>, up: set<QueueId>, gone: set<LineId>, peer: map<LineId, LineId>)
  {
    && (forall l :: l in gone ==> l in lines && lines[l].Connected?)
    && (forall s :: s in peer ==> Flags(lines, up, gone, s, peer[s]))
  }

  /** The clients for one address, in order. */
  function For(cs: seq<Client>, address: Address): (r: seq<Client>)
  {
    if cs == [] then []
    else (if cs[0].address == address then [cs[0]] else []) + For(cs[1..], address)
  }

  /** First come, first served, address by address: the clients accepted, followed by those still
      waiting, are those that arrived, in the order in which they did. */
  ghost predicate OrderOk(arrivals: seq<Client>, accepted: seq<Client>, waiting: seq<Client>)
  {
    forall address :: For(accepted, address) + For(waiting, address) == For(arrivals, address)
  }

  ghost predicate Inv(g: Registry)
  {
    && AcceptorsOk(g.acceptors) && AcceptorIdsOk(g.acceptors, g.nextAcceptor)
    && WaitingOk(g.waiting, g.lines)
    && PairsOk(g.lines, g.peer, g.nextQueue)
    && LinesOk(g.waiting, g.lines, g.peer, g.nextLine)
    && FlagsOk(g.lines, g.up, g.gone, g.peer)
    && OrderOk(g.arrivals, g.accepted, g.waiting)
  }

  lemma {:induction false} ForAppend(a: seq<Client>, b: seq<Client>, address: Address)
    ensures For(a + b, address) == For(a, address) + For(b, address)
  {
    if a == [] {
      assert a + b == b;
    } else {
      var t := a[1..];
      var h := if a[0].address == address then [a[0]] else [];
      assert (a + b)[0] == a[0] && (a + b)[1..] == t + b;
      calc {
        For(a + b, address);
        h + For(t + b, address);
        { ForAppend(t, b, address); }
        h + (For(t, address) + For(b, address));
        For(a, address) + For(b, address);
      }
    }
  }

  lemma ForOne(c: Client, address: Address)
    ensures For([c], address) == if c.address == address then [c] else []
  {
    assert [c][1..] == [];
  }

  lemma {:induction false} ForNone(cs: seq<Client>, address: Address)
    requires forall i :: 0 <= i < |cs| ==> cs[i].address != address
    ensures For(cs, address) == []
  {
    if cs != [] {
      ForNone(cs[1..], address);
    }
  }

  // ---------------------------------------------------------------- arrivals

  lemma ArrivalKeepsOrder(g: Registry, c: Client)
    requires OrderOk(g.arrivals, g.accepted, g.waiting)
    ensures OrderOk(g.arrivals + [c], g.accepted, g.waiting + [c])
  {
    forall a
      ensures For(g.accepted, a) + For(g.waiting + [c], a) == For(g.arrivals + [c], a)
    {
      ForAppend(g.waiting, [c], a);
      ForAppend(g.arrivals, [c], a);
      assert For(g.accepted, a) + (For(g.waiting, a) + For([c], a)) == For(g.arrivals, a) + For([c], a);
    }
  }

  lemma ArrivalKeepsLines(g: Registry, c: Client)
    requires LinesOk(g.waiting, g.lines, g.peer, g.nextLine) && c.id == g.nextLine
    ensures LinesOk(g.waiting + [c], g.lines[c.id := Unconnected], g.peer, g.nextLine + 1)
  {
    var w := g.waiting + [c];
    forall l | l in g.lines[c.id := Unconnected]
      ensures IsWaiting(w, l) || l in g.peer || HasServer(g.peer, l)
    {
      if l == c.id {
        assert w[|g.waiting|].id == l;
      } else if IsWaiting(g.waiting, l) {
        var i :| 0 <= i < |g.waiting| && g.waiting[i].id == l;
        assert w[i].id == l;
      }
    }
  }

  lemma ArrivalKeepsInv(g: Registry, address: Address)
    requires Inv(g)
    ensures Inv(CreateClient(g, address).0)
  {
    var c := Client(g.nextLine, address);
    ArrivalKeepsOrder(g, c);
    ArrivalKeepsLines(g, c);
    ArrivalKeepsPairs(g.lines, g.peer, g.nextQueue, c.id);
    ArrivalKeepsFlags(g, c.id);
  }

  lemma ArrivalKeepsFlags(g: Registry, l: LineId)
    requires FlagsOk(g.lines, g.up, g.gone, g.peer) && l !in g.lines
    ensures FlagsOk(g.lines[l := Unconnected], g.up, g.gone, g.peer)
  {
    forall s | s in g.peer
      ensures Flags(g.lines[l := Unconnected], g.up, g.gone, s, g.peer[s])
    {
      assert Flags(g.lines, g.up, g.gone, s, g.peer[s]);
    }
  }

  lemma ArrivalKeepsPairs(lines: map<LineId, Ends>, peer: map<LineId, LineId>, nextQueue: nat, l: LineId)
    requires PairsOk(lines, peer, nextQueue) && l !in lines
    ensures PairsOk(lines[l := Unconnected], peer, nextQueue)
  {
    forall s, t | s in peer && t in peer && s != t
      ensures NoSharedQueue(lines[l := Unconnected], s, t)
    {
      assert NoSharedQueue(lines, s, t);
    }
    forall s | s in peer
      ensures Crosswise(lines[l := Unconnected], nextQueue, s, peer[s])
    {
      assert Crosswise(lines, nextQueue, s, peer[s]);
    }
  }

  // ---------------------------------------------------------------- acceptances

  /** Taking the first client for its address out of the queue leaves the others in order, and
      moves it from the front of its address's line to the back of the accepted ones. */
  lemma AcceptKeepsOrder(g: Registry, i: nat)
    requires i < |g.waiting| && OrderOk(g.arrivals, g.accepted, g.waiting)
    requires FirstOfIts(g.waiting, i)
    ensures OrderOk(g.arrivals, g.accepted + [g.waiting[i]], Without(g.waiting, i))
  {
    var c := g.waiting[i];
    forall a
      ensures For(g.accepted + [c], a) + For(g.waiting[..i] + g.waiting[i + 1..], a) == For(g.arrivals, a)
    {
      TakeOut(g.accepted, g.waiting, i, a);
    }
  }

  lemma TakeOut(accepted: seq<Client>, waiting: seq<Client>, i: nat, a: Address)
    requires i < |waiting|
    requires FirstOfIts(waiting, i)
    ensures For(accepted + [waiting[i]], a) + For(waiting[..i] + waiting[i + 1..], a)
         == For(accepted, a) + For(waiting, a)
  {
    var c, before, after := waiting[i], waiting[..i], waiting[i + 1..];
    assert waiting == before + ([c] + after);
    ForAppend(accepted, [c], a);
    ForAppend(before, after, a);
    ForAppend(before, [c] + after, a);
    ForAppend([c], after, a);
    ForOne(c, a);
    if c.address == a {
      ForNone(before, a);
      MoveOver(For(accepted, a), [c], For(after, a));
    } else {
      assert For(accepted, a) + [] == For(accepted, a) && [] + For(after, a) == For(after, a);
    }
  }

  lemma MoveOver(x: seq<Client>, y: seq<Client>, z: seq<Client>)
    ensures (x + y) + ([] + z) == x + ([] + (y + z))
  {
    assert (x + y) + z == x + (y + z);
  }

  lemma AcceptKeepsWaiting(waiting: seq<Client>, lines: map<LineId, Ends>, i: nat, server: LineId, n: QueueId)
    requires WaitingOk(waiting, lines) && i < |waiting| && server !in lines
    ensures WaitingOk(Without(waiting, i), Paired(lines, server, waiting[i].id, n))
  {
    var w', lines' := Without(waiting, i), Paired(lines, server, waiting[i].id, n);
    forall k | 0 <= k < |w'|
      ensures w'[k].id in lines' && lines'[w'[k].id] == Unconnected
    {
      var j := if k < i then k else k + 1;
      assert w'[k] == waiting[j];
    }
  }

  lemma AcceptKeepsLines(g: Registry, i: nat)
    requires LinesOk(g.waiting, g.lines, g.peer, g.nextLine) && PairsOk(g.lines, g.peer, g.nextQueue)
    requires i < |g.waiting| && g.waiting[i].id in g.lines
    ensures LinesOk(Without(g.waiting, i), Paired(g.lines, g.nextLine, g.waiting[i].id, g.nextQueue),
                    g.peer[g.nextLine := g.waiting[i].id], g.nextLine + 1)
  {
    ServersAreLines(g);
    var w', peer' := Without(g.waiting, i), g.peer[g.nextLine := g.waiting[i].id];
    forall l | l in g.lines && l != g.waiting[i].id
      ensures IsWaiting(w', l) || l in peer' || HasServer(peer', l)
    {
      if IsWaiting(g.waiting, l) {
        var j :| 0 <= j < |g.waiting| && g.waiting[j].id == l;
        assert w'[if j < i then j else j - 1].id == l;
      } else if HasServer(g.peer, l) {
        var s :| s in g.peer && g.peer[s] == l;
        assert s in peer' && peer'[s] == l;
      }
    }
    assert peer'[g.nextLine] == g.waiting[i].id;
  }

  lemma ServersAreLines(g: Registry)
    requires LinesOk(g.waiting, g.lines, g.peer, g.nextLine) && PairsOk(g.lines, g.peer, g.nextQueue)
    ensures forall s :: s in g.peer ==> s < g.nextLine
  {
    forall s | s in g.peer
      ensures s < g.nextLine
    {
      assert Crosswise(g.lines, g.nextQueue, s, g.peer[s]);
    }
  }

  /** Lines of existing pairs are neither new nor unconnected, so pairing leaves them alone. */
  lemma PairedAlready(lines: map<LineId, Ends>, peer: map<LineId, LineId>, nextQueue: nat,
                      s: LineId, client: LineId, server: LineId)
    requires s in peer && PairsOk(lines, peer, nextQueue)
    requires client in lines && lines[client] == Unconnected && server !in lines
    ensures Crosswise(lines, nextQueue, s, peer[s])
    ensures s != server && s != client && peer[s] != client && peer[s] != server
  {
    assert Crosswise(lines, nextQueue, s, peer[s]);
  }

  lemma AcceptKeepsPairs(lines: map<LineId, Ends>, peer: map<LineId, LineId>, n: nat, client: LineId, server: LineId)
    requires PairsOk(lines, peer, n)
    requires client in lines && lines[client] == Unconnected && server !in lines
    ensures PairsOk(Paired(lines, server, client, n), peer[server := client], n + 2)
  {
    var lines', peer' := Paired(lines, server, client, n), peer[server := client];
    forall s | s in peer'
      ensures Crosswise(lines', n + 2, s, peer'[s])
    {
      if s != server { PairedAlready(lines, peer, n, s, client, server); }
    }
    forall s, t | s in peer' && t in peer' && s != t
      ensures peer'[s] != peer'[t] && NoSharedQueue(lines', s, t)
    {
      if s != server { PairedAlready(lines, peer, n, s, client, server); }
      if t != server { PairedAlready(lines, peer, n, t, client, server); }
      if s != server && t != server { assert NoSharedQueue(lines, s, t); }
    }
    forall s, t | s in peer' && t in peer'
      ensures s != peer'[t]
    {
      if s != server { PairedAlready(lines, peer, n, s, client, server); }
      if t != server { PairedAlready(lines, peer, n, t, client, server); }
    }
  }

  /** The registry after the client at position `i` has been accepted. */
  function AcceptedAt(g: Registry, i: nat): Registry
    requires i < |g.waiting|
  {
    var c := g.waiting[i];
    g.(waiting := Without(g.waiting, i), accepted := g.accepted + [c],
       lines := Paired(g.lines, g.nextLine, c.id, g.nextQueue), peer := g.peer[g.nextLine := c.id],
       up := g.up + {g.nextQueue, g.nextQueue + 1},
       nextLine := g.nextLine + 1, nextQueue := g.nextQueue + 2)
  }

  lemma AcceptEffect(g: Registry, address: Address, i: nat)
    requires FirstFor(g.waiting, address) == Some(i)
    ensures i < |g.waiting| && Accept(g, address).0 == AcceptedAt(g, i)
    ensures FirstOfIts(g.waiting, i)
  {
  }

  ghost predicate FirstOfIts(waiting: seq<Client>, i: nat)
    requires i < |waiting|
  {
    forall j :: 0 <= j < i ==> waiting[j].address != waiting[i].address
  }

  lemma AcceptedAtKeepsLists(g: Registry, i: nat)
    requires Inv(g) && i < |g.waiting| && FirstOfIts(g.waiting, i)
    ensures var g' := AcceptedAt(g, i);
            OrderOk(g'.arrivals, g'.accepted, g'.waiting) && WaitingOk(g'.waiting, g'.lines)
  {
    FirstIsFresh(g, i);
    AcceptKeepsOrder(g, i);
    AcceptKeepsWaiting(g.waiting, g.lines, i, g.nextLine, g.nextQueue);
  }

  lemma AcceptedAtKeepsPairs(g: Registry, i: nat)
    requires i < |g.waiting| && PairsOk(g.lines, g.peer, g.nextQueue)
    requires g.waiting[i].id in g.lines && g.lines[g.waiting[i].id] == Unconnected && g.nextLine !in g.lines
    ensures var g' := AcceptedAt(g, i);
            PairsOk(g'.lines, g'.peer, g'.nextQueue)
  {
    AcceptKeepsPairs(g.lines, g.peer, g.nextQueue, g.waiting[i].id, g.nextLine);
  }

  lemma AcceptedAtKeepsFlags(g: Registry, i: nat)
    requires i < |g.waiting| && PairsOk(g.lines, g.peer, g.nextQueue) && FlagsOk(g.lines, g.up, g.gone, g.peer)
    requires g.waiting[i].id in g.lines && g.lines[g.waiting[i].id] == Unconnected && g.nextLine !in g.lines
    ensures var g' := AcceptedAt(g, i);
            FlagsOk(g'.lines, g'.up, g'.gone, g'.peer)
  {
    var g', client := AcceptedAt(g, i), g.waiting[i].id;
    forall s | s in g'.peer
      ensures Flags(g'.lines, g'.up, g'.gone, s, g'.peer[s])
    {
      if s != g.nextLine {
        PairedAlready(g.lines, g.peer, g.nextQueue, s, client, g.nextLine);
        assert Flags(g.lines, g.up, g.gone, s, g.peer[s]);
      }
    }
  }

  lemma AcceptedAtKeepsLines(g: Registry, i: nat)
    requires Inv(g) && i < |g.waiting|
    ensures var g' := AcceptedAt(g, i);
            LinesOk(g'.waiting, g'.lines, g'.peer, g'.nextLine)
  {
    FirstIsFresh(g, i);
    AcceptKeepsLines(g, i);
  }

  lemma AcceptedAtKeepsInv(g: Registry, i: nat)
    requires Inv(g) && i < |g.waiting| && FirstOfIts(g.waiting, i)
    ensures Inv(AcceptedAt(g, i))
  {
    FirstIsFresh(g, i);
    AcceptedAtKeepsLists(g, i);
    AcceptedAtKeepsPairs(g, i);
    AcceptedAtKeepsLines(g, i);
    AcceptedAtKeepsFlags(g, i);
  }

  lemma AcceptKeepsInv(g: Registry, address: Address)
    requires Inv(g)
    ensures Inv(Accept(g, address).0)
  {
    var first := FirstFor(g.waiting, address);
    if first.Some? {
      AcceptEffect(g, address, first.value);
      AcceptedAtKeepsInv(g, first.value);
    }
  }

  lemma FirstIsFresh(g: Registry, i: nat)
    requires Inv(g) && i < |g.waiting|
    ensures g.nextLine !in g.lines
    ensures g.waiting[i].id in g.lines && g.lines[g.waiting[i].id] == Unconnected
  {
  }

  /** The registry with the client that a scan has taken put back at the head of the queue. */
  function PutBack(g: Registry, c: Client): Registry
  {
    g.(waiting := [c] + g.waiting)
  }

  /** The queue with the client at position `i` moved to its head. */
  function ToFront(waiting: seq<Client>, i: nat): (w: seq<Client>)
    requires i < |waiting|
    ensures |w| == |waiting|
  {
    [waiting[i]] + Without(waiting, i)
  }

  lemma ToFrontAt(waiting: seq<Client>, i: nat, k: nat)
    requires i < |waiting| && k < |waiting|
    ensures ToFront(waiting, i)[k] == waiting[if k == 0 then i else if k <= i then k - 1 else k]
  {
  }

  /** Since it is the first for its address, no address notices. */
  lemma ToFrontKeepsOrder(waiting: seq<Client>, i: nat, a: Address)
    requires i < |waiting| && FirstOfIts(waiting, i)
    ensures For(ToFront(waiting, i), a) == For(waiting, a)
  {
    TakeOut([], waiting, i, a);
    ForAppend([], [waiting[i]], a);
    ForAppend([waiting[i]], Without(waiting, i), a);
    assert [] + [waiting[i]] == [waiting[i]];
  }

  lemma ToFrontKeepsWaiting(waiting: seq<Client>, lines: map<LineId, Ends>, i: nat)
    requires i < |waiting| && WaitingOk(waiting, lines)
    ensures WaitingOk(ToFront(waiting, i), lines)
  {
    var w := ToFront(waiting, i);
    forall k | 0 <= k < |w|
      ensures w[k] == waiting[if k == 0 then i else if k <= i then k - 1 else k]
    {
      ToFrontAt(waiting, i, k);
    }
  }

  lemma ToFrontKeepsIn(waiting: seq<Client>, i: nat, l: LineId)
    requires i < |waiting| && IsWaiting(waiting, l)
    ensures IsWaiting(ToFront(waiting, i), l)
  {
    var j :| 0 <= j < |waiting| && waiting[j].id == l;
    var k := if j == i then 0 else if j < i then j + 1 else j;
    ToFrontAt(waiting, i, k);
    assert ToFront(waiting, i)[k].id == l;
  }

  /** Taking a client that is the first for its address is, for the invariant, like moving it to the
      head of the queue. */
  lemma ErasedKeepsInv(g: Registry, i: nat)
    requires Inv(g) && i < |g.waiting| && FirstOfIts(g.waiting, i)
    ensures Inv(PutBack(Erased(g, i), g.waiting[i]))
  {
    var w := ToFront(g.waiting, i);
    assert PutBack(Erased(g, i), g.waiting[i]) == g.(waiting := w);
    ToFrontKeepsWaiting(g.waiting, g.lines, i);
    forall l | IsWaiting(g.waiting, l)
      ensures IsWaiting(w, l)
    {
      ToFrontKeepsIn(g.waiting, i, l);
    }
    forall a
      ensures For(g.accepted, a) + For(w, a) == For(g.arrivals, a)
    {
      ToFrontKeepsOrder(g.waiting, i, a);
    }
  }

  lemma PairTakenIsAccepted(g: Registry, c: Client)
    ensures PairTaken(g, c).0 == AcceptedAt(PutBack(g, c), 0)
  {
    assert Without([c] + g.waiting, 0) == g.waiting;
  }

  /** Pairing it afterwards keeps the invariant. */
  lemma PairTakenKeepsInv(g: Registry, c: Client)
    requires Inv(PutBack(g, c))
    ensures Inv(PairTaken(g, c).0) && g.nextLine !in g.lines
  {
    FirstIsFresh(PutBack(g, c), 0);
    AcceptedAtKeepsInv(PutBack(g, c), 0);
    PairTakenIsAccepted(g, c);
  }

  // ---------------------------------------------------------------- acceptors

  lemma RegisterKeepsInv(g: Registry, address: Address)
    requires Inv(g)
    ensures Inv(CreateServer(g, address).0)
  {
  }

  /** createServer gives nothing if and only if the address is registered. Otherwise it gives an
      acceptor for the address that nobody else is or has been, and lists it behind the others. */
  lemma RegisterOutcome(g: Registry, address: Address)
    requires Inv(g)
    ensures var (g', server) := CreateServer(g, address);
            && (server.None? <==> exists i :: 0 <= i < |g.acceptors| && g.acceptors[i].address == address)
            && (server.None? ==> g' == g)
            && (server.Some? ==>
                  && server.value.address == address
                  && (forall i :: 0 <= i < |g.acceptors| ==> g.acceptors[i].id != server.value.id)
                  && server.value.id < g'.nextAcceptor && g.nextAcceptor <= server.value.id
                  && g'.acceptors == g.acceptors + [server.value]
                  && g'.(acceptors := g.acceptors, nextAcceptor := g.nextAcceptor) == g)
  {
  }

  /** Unregistering takes out one occurrence of a listed acceptor and keeps all others in order. */
  lemma {:induction false} UnregisterTakesOne(acceptors: seq<Acceptor>, a: Acceptor) returns (i: nat)
    requires a in acceptors
    ensures i < |acceptors| && acceptors[i] == a
    ensures Unregister(acceptors, a) == acceptors[..i] + acceptors[i + 1..]
  {
    if acceptors[0] == a {
      i := 0;
    } else {
      var h, t := acceptors[0], acceptors[1..];
      assert acceptors == [h] + t;
      var k := UnregisterTakesOne(t, a);
      i := k + 1;
      Shift(h, t, k);
    }
  }

  lemma Shift(h: Acceptor, t: seq<Acceptor>, k: nat)
    requires k < |t|
    ensures [h] + (t[..k] + t[k + 1..]) == ([h] + t)[..k + 1] + ([h] + t)[k + 2..]
  {
  }

  /** It does nothing if the acceptor is not listed. */
  lemma {:induction false} UnregisterAbsent(acceptors: seq<Acceptor>, a: Acceptor)
    requires a !in acceptors
    ensures Unregister(acceptors, a) == acceptors
  {
    if acceptors != [] {
      UnregisterAbsent(acceptors[1..], a);
    }
  }

  lemma RemovedKeepsDistinct(acceptors: seq<Acceptor>, i: nat, nextAcceptor: nat)
    requires i < |acceptors| && AcceptorsOk(acceptors) && AcceptorIdsOk(acceptors, nextAcceptor)
    ensures AcceptorsOk(acceptors[..i] + acceptors[i + 1..])
    ensures AcceptorIdsOk(acceptors[..i] + acceptors[i + 1..], nextAcceptor)
  {
    var rest := acceptors[..i] + acceptors[i + 1..];
    forall k | 0 <= k < |rest|
      ensures rest[k] == acceptors[if k < i then k else k + 1]
    {
    }
  }

  lemma UnregisterKeepsDistinct(acceptors: seq<Acceptor>, a: Acceptor, nextAcceptor: nat)
    requires AcceptorsOk(acceptors) && AcceptorIdsOk(acceptors, nextAcceptor)
    ensures AcceptorsOk(Unregister(acceptors, a)) && AcceptorIdsOk(Unregister(acceptors, a), nextAcceptor)
  {
    if a in acceptors {
      var i := UnregisterTakesOne(acceptors, a);
      RemovedKeepsDistinct(acceptors, i, nextAcceptor);
    } else {
      UnregisterAbsent(acceptors, a);
    }
  }

  // ---------------------------------------------------------------- destroyed lines

  /** A connected line is an end of some pair, and has that pair's queues. */
  lemma EndOfPair(g: Registry, l: LineId) returns (s: LineId)
    requires Inv(g) && l in g.lines && g.lines[l].Connected?
    ensures s in g.peer && (l == s || l == g.peer[s]) && s in g.lines && g.lines[s].Connected?
    ensures {g.lines[l].input, g.lines[l].output} == {g.lines[s].input, g.lines[s].output}
  {
    if l in g.peer {
      s := l;
    } else {
      assert HasServer(g.peer, l);
      s :| s in g.peer && g.peer[s] == l;
    }
    assert Crosswise(g.lines, g.nextQueue, s, g.peer[s]);
  }

  lemma DestroyKeepsInv(g: Registry, line: LineId)
    requires Inv(g)
    ensures Inv(Destroy(g, line))
  {
    if line in g.lines && g.lines[line].Connected? {
      var g' := Destroy(g, line);
      var e := EndOfPair(g, line);
      forall s | s in g.peer
        ensures Flags(g'.lines, g'.up, g'.gone, s, g.peer[s])
      {
        assert Flags(g.lines, g.up, g.gone, s, g.peer[s]);
        if s != e { assert NoSharedQueue(g.lines, s, e); }
      }
    }
  }

  // ---------------------------------------------------------------- every run

  lemma StepKeepsInv(g: Registry, a: Action)
    requires Inv(g)
    ensures Inv(Next(g, a))
  {
    match a
    case ClientArrives(address) => ArrivalKeepsInv(g, address);
    case ServerRegisters(address) => RegisterKeepsInv(g, address);
    case ServerGoes(acceptor) => UnregisterKeepsDistinct(g.acceptors, acceptor, g.nextAcceptor);
    case Scan(address) => AcceptKeepsInv(g, address);
    case LineGoes(line) => DestroyKeepsInv(g, line);
  }

  lemma {:induction false} RunKeepsInv(g: Registry, acts: seq<Action>)
    requires Inv(g)
    ensures Inv(Exec(g, acts))
    decreases |acts|
  {
    if acts != [] {
      StepKeepsInv(g, acts[0]);
      RunKeepsInv(Next(g, acts[0]), acts[1..]);
    }
  }

  lemma EmptyOk()
    ensures Inv(Empty())
  {
    forall a
      ensures For([], a) + For([], a) == For([], a)
    {
    }
  }

  /** Over every run: a queued client is unconnected and no part of a pair; the client of a pair
      is not queued and has exactly one server end; the two ends share two queues crosswise; no
      two pairs share a queue; no line is lost; and the flags of a pair's queues are set exactly
      while neither end has been destroyed. */
  lemma ConnectionsAreSound(acts: seq<Action>)
    ensures var g := Exec(Empty(), acts);
            && WaitingOk(g.waiting, g.lines) && PairsOk(g.lines, g.peer, g.nextQueue)
            && LinesOk(g.waiting, g.lines, g.peer, g.nextLine) && FlagsOk(g.lines, g.up, g.gone, g.peer)
            && (forall i :: 0 <= i < |g.waiting| ==> g.waiting[i].id !in g.peer && !HasServer(g.peer, g.waiting[i].id))
  {
    EmptyOk();
    RunKeepsInv(Empty(), acts);
    var g := Exec(Empty(), acts);
    forall i | 0 <= i < |g.waiting|
      ensures g.waiting[i].id !in g.peer && !HasServer(g.peer, g.waiting[i].id)
    {
      forall s | s in g.peer
        ensures s != g.waiting[i].id && g.peer[s] != g.waiting[i].id
      {
        assert Crosswise(g.lines, g.nextQueue, s, g.peer[s]);
      }
    }
  }

  /** A line that has its queues, which is what createClient waits for, is one end of exactly one
      pair. */
  lemma ConnectedIsPaired(g: Registry, l: LineId)
    requires Inv(g) && l in g.lines && g.lines[l].Connected?
    ensures !IsWaiting(g.waiting, l)
    ensures l in g.peer <==> !HasServer(g.peer, l)
    ensures forall s, t :: s in g.peer && t in g.peer && g.peer[s] == l && g.peer[t] == l ==> s == t
  {
  }

  /** Over every run: registered addresses are distinct, and each address serves its clients in
      the order of their arrival. */
  lemma FirstComeFirstServed(acts: seq<Action>, address: Address)
    ensures var g := Exec(Empty(), acts);
            && AcceptorsOk(g.acceptors)
            && For(g.accepted, address) + For(g.waiting, address) == For(g.arrivals, address)
  {
    EmptyOk();
    RunKeepsInv(Empty(), acts);
  }

  /** A scan comes back empty-handed exactly when no client waits for its address; otherwise it
      takes one, keeps the relative order of all others, and returns a new line that has this client
      as its peer, with the flags of both their queues set. */
  lemma ScanOutcome(g: Registry, address: Address)
    requires Inv(g)
    ensures Accept(g, address).1.None? <==> For(g.waiting, address) == []
    ensures Accept(g, address).1.None? ==> Accept(g, address).0 == g
    ensures Accept(g, address).1.Some? ==>
              exists i :: 0 <= i < |g.waiting| && TakenAt(g, address, i)
                && PairedWith(g, Accept(g, address).0, Accept(g, address).1.value, g.waiting[i].id)
  {
    match FirstFor(g.waiting, address)
    case None => ForNone(g.waiting, address);
    case Some(i) =>
      TakesFirst(g, address, i);
      FirstIsFresh(g, i);
      assert TakenAt(g, address, i) && PairedWith(g, Accept(g, address).0, g.nextLine, g.waiting[i].id);
  }

  /** The scan takes the client at position `i`, the earliest for its address. */
  ghost predicate TakenAt(g: Registry, address: Address, i: nat)
    requires i < |g.waiting|
  {
    && Accept(g, address).0.accepted == g.accepted + [g.waiting[i]]
    && For(g.waiting, address) != [] && g.waiting[i] == For(g.waiting, address)[0]
    && Accept(g, address).0.waiting == g.waiting[..i] + g.waiting[i + 1..]
  }

  ghost predicate PairedWith(g: Registry, g': Registry, server: LineId, client: LineId)
  {
    && server !in g.lines && server in g'.lines && g'.lines[server].Connected?
    && g'.peer == g.peer[server := client]
    && {g'.lines[server].input, g'.lines[server].output} <= g'.up
    && g'.gone == g.gone && g'.arrivals == g.arrivals && g'.acceptors == g.acceptors
  }

  lemma TakesFirst(g: Registry, address: Address, i: nat)
    requires FirstFor(g.waiting, address) == Some(i)
    ensures i < |g.waiting| && TakenAt(g, address, i)
  {
    var c, before, after := g.waiting[i], g.waiting[..i], g.waiting[i + 1..];
    assert g.waiting == before + ([c] + after);
    ForAppend(before, [c] + after, address);
    ForAppend([c], after, address);
    ForOne(c, address);
    ForNone(before, address);
    assert For(g.waiting, address)[0] == c;
  }

  /** Destroying a connected line clears the flags of its two queues and of no other, and changes
      nothing else but that the line is gone. */
  lemma DestroyOutcome(g: Registry, line: LineId, q: QueueId)
    requires line in g.lines && g.lines[line].Connected?
    ensures var g' := Destroy(g, line);
            && line in g'.gone && (forall l :: l in g'.gone ==> l in g.gone || l == line) && g.gone <= g'.gone
            && (q == g.lines[line].input || q == g.lines[line].output ==> q !in g'.up)
            && (q != g.lines[line].input && q != g.lines[line].output ==> (q in g'.up <==> q in g.up))
            && g'.(up := g.up, gone := g.gone) == g
  {
  }
}
