/** What a step of the blocking queue leaves alone. */
module MonitorFrames {
  import Q = Monitor

  /** Another thread's step can only notify a sleeping thread. */
  lemma OtherThread(q: Q.State, a: Q.Action, u: Q.Tid)
    requires Q.Enabled(q, a) && u in q.pcs && u != a.t
    ensures var q' := Q.Next(q, a);
            u in q'.pcs && (q'.pcs[u] == q.pcs[u] || q'.pcs[u] == Q.Notified(q.pcs[u]))
  {
    if a.Step? { OtherStep(q, a.t, u); }
  }

  lemma OtherStep(q: Q.State, t: Q.Tid, u: Q.Tid)
    requires t in q.pcs && u in q.pcs && u != t
    ensures var q' := Q.StepOf(q, t);
            u in q'.pcs && (q'.pcs[u] == q.pcs[u] || q'.pcs[u] == Q.Notified(q.pcs[u]))
  {
    if AtTest(q.pcs[t]) { TestTellsNobody(q, t, u); } else { PlainStep(q, t, u); }
  }

  /** The points where a thread looks at the ring and may copy. */
  predicate AtTest(pc: Q.Pc)
  {
    pc.WHead? || pc.WWoken? || pc.RHead? || pc.RWoken?
  }

  /** A test of the ring does not touch other threads. */
  lemma TestTellsNobody(q: Q.State, t: Q.Tid, u: Q.Tid)
    requires t in q.pcs && AtTest(q.pcs[t]) && u in q.pcs && u != t
    ensures u in Q.StepOf(q, t).pcs && Q.StepOf(q, t).pcs[u] == q.pcs[u]
  {
  }

  lemma PlainStep(q: Q.State, t: Q.Tid, u: Q.Tid)
    requires t in q.pcs && u in q.pcs && u != t && !AtTest(q.pcs[t])
    ensures var q' := Q.StepOf(q, t);
            u in q'.pcs && (q'.pcs[u] == q.pcs[u] || q'.pcs[u] == Q.Notified(q.pcs[u]))
  {
  }

  lemma KeysKept(q: Q.State, a: Q.Action)
    requires Q.Enabled(q, a)
    ensures Q.Next(q, a).pcs.Keys == q.pcs.Keys
  {
    if a.Step? { StepKeysKept(q, a.t); }
  }

  lemma StepKeysKept(q: Q.State, t: Q.Tid)
    requires t in q.pcs
    ensures Q.StepOf(q, t).pcs.Keys == q.pcs.Keys
  {
    if AtTest(q.pcs[t]) { TestKeysKept(q, t); } else { PlainKeysKept(q, t); }
  }

  lemma TestKeysKept(q: Q.State, t: Q.Tid)
    requires t in q.pcs && AtTest(q.pcs[t])
    ensures Q.StepOf(q, t).pcs.Keys == q.pcs.Keys
  {
  }

  lemma PlainKeysKept(q: Q.State, t: Q.Tid)
    requires t in q.pcs && !AtTest(q.pcs[t])
    ensures Q.StepOf(q, t).pcs.Keys == q.pcs.Keys
  {
  }

  lemma FlagKept(q: Q.State, a: Q.Action)
    requires Q.Enabled(q, a) && !a.Connect?
    ensures Q.Next(q, a).size == q.size
    ensures !q.pcs[a.t].FStore? ==> Q.Next(q, a).connected == q.connected
  {
  }
}
