/** The lock-free ring: one producer and one consumer thread share two atomic indices and the
    cells. Every atomic load, every byte that a memcpy moves and every atomic store is a step of
    its own, so a run is an arbitrary interleaving of the two threads. */
module LockFreeRing {
  import opened Bytes
  import opened RingCells

  /** A call of RingBuffer::write. `base` and `room` record, for the statements below, the bytes
      published and the free cells at the moment of the call; `guarded` tells whether the call
      comes from DataQueue::write. */
  datatype WriteCall = WriteCall(buf: seq<Byte>, done: nat, depth: nat, base: seq<Byte>, room: nat, guarded: bool)

  /** A call of RingBuffer::read, with the bytes consumed and available when it began. */
  datatype ReadCall = ReadCall(want: nat, out: seq<Byte>, depth: nat, base: seq<Byte>, ready: nat)

  /** The last two are results of DataQueue::write, with its argument and the bytes that were
      published when it was called. */
  datatype WriteResult =
    | NoWrite
    | Wrote(call: WriteCall)
    | TooBig(buf: seq<Byte>, base: seq<Byte>)
    | ConnectionLost(buf: seq<Byte>, base: seq<Byte>)

  /** The four evaluations of availableWriteSize() in DataQueue::write: before locking, under the
      lock, in the wait predicate, and after the wait. */
  datatype Stage = Unlocked | Locked | Waiting | Woken

  datatype Producer =
    | PIdle(result: WriteResult)
    | PLoadWr(call: WriteCall)
    | PLoadRd(call: WriteCall, w: nat)
    | PCopy(call: WriteCall, w: nat, r: nat, n: nat, k: nat)
    | QLoadWr(buf: seq<Byte>, base: seq<Byte>, stage: Stage)
    | QLoadRd(buf: seq<Byte>, base: seq<Byte>, stage: Stage, w: nat)

  datatype Consumer =
    | CIdle
    | CDone(call: ReadCall)
    | CLoadWr(call: ReadCall)
    | CLoadRd(call: ReadCall, w: nat)
    | CCopy(call: ReadCall, w: nat, r: nat, n: nat, chunk: seq<Byte>)

  /** `crashed` records an access outside the storage or a wrapped-around length. */
  datatype State = State(
    data: seq<Byte>, rd: nat, wr: nat, connected: bool,
    producer: Producer, consumer: Consumer,
    published: seq<Byte>, consumed: seq<Byte>, crashed: bool)

  datatype Action =
    | CallWrite(buf: seq<Byte>)
    | CallQueueWrite(buf: seq<Byte>)
    | CallRead(want: nat)
    | StepProducer
    | StepConsumer
    | SetConnected(flag: bool)

  // ---------------------------------------------------------------- the two algorithms

  /** How many bytes write copies, given its snapshots of the indices. */
  function WriteLength(size: nat, w: nat, r: nat, len: nat): (n: nat)
    requires w < size && r < size
    ensures n <= len && n <= Free(size, r, w) && w + n <= size
    ensures n < len ==> n == Free(size, r, w) || (0 < r <= w && w + n == size)
  {
    if r <= w then
      var n := Min(size - w, len);
      if r == 0 && n == size - w then n - 1 else n
    else
      Min(r - 1 - w, len)
  }

  /** How many bytes read copies, given its snapshots of the indices. */
  function ReadLength(size: nat, w: nat, r: nat, len: nat): (n: nat)
    requires w < size && r < size
    ensures n <= len && n <= Used(size, r, w) && r + n <= size
    ensures n < len ==> n == Used(size, r, w) || (w < r && r + n == size)
  {
    if r <= w then Min(w - r, len) else Min(size - r, len)
  }

  function Crash(s: State): State { s.(crashed := true) }

  /** What write does after it has stored the write index: return, or call itself once more. */
  function AfterPublish(call: WriteCall, w: nat, r: nat, n: nat): (p: Producer)
  {
    var call' := call.(done := call.done + n);
    if r <= w && call'.done < |call.buf| && r != 0 && n != 0
    then PLoadWr(call'.(depth := call.depth + 1))
    else PIdle(Wrote(call'))
  }

  /** The store of the write index. */
  function Publish(s: State): (s': State)
    requires s.producer.PCopy?
  {
    var PCopy(call, w, r, n, _) := s.producer;
    if w >= |s.data| || w + n > |s.data| || call.done + n > |call.buf| then Crash(s) else
    var wr' := if r <= w then Advance(|s.data|, w, n) else s.wr + n;
    s.(wr := wr',
       published := s.published + call.buf[call.done..call.done + n],
       producer := AfterPublish(call, w, r, n))
  }

  /** What read does after it has stored the read index: return, or call itself once more. */
  function AfterRelease(call: ReadCall, w: nat, r: nat, n: nat, chunk: seq<Byte>, rd': nat): (q: Consumer)
  {
    var call' := call.(out := call.out + chunk);
    if r > w && |call'.out| < call.want && w != rd' && n != 0
    then CLoadWr(call'.(depth := call.depth + 1))
    else CDone(call')
  }

  /** The store of the read index. */
  function Release(s: State): (s': State)
    requires s.consumer.CCopy?
  {
    var CCopy(call, w, r, n, chunk) := s.consumer;
    if r >= |s.data| || r + n > |s.data| then Crash(s) else
    var rd' := if r < w then s.rd + n else Advance(|s.data|, r, n);
    s.(rd := rd', consumed := s.consumed + chunk, consumer := AfterRelease(call, w, r, n, chunk, rd'))
  }

  /** What DataQueue::write does with one evaluation of its space test. */
  function AfterTest(s: State, buf: seq<Byte>, base: seq<Byte>, stage: Stage, fits: bool): (s': State)
  {
    var enter := PLoadWr(WriteCall(buf, 0, 0, base, FreeNow(s), true));
    var next := match stage {
      case Unlocked => if fits then enter else QLoadWr(buf, base, Locked)
      case Locked => if !fits && !s.connected then PIdle(ConnectionLost(buf, base)) else QLoadWr(buf, base, Waiting)
      case Waiting => QLoadWr(buf, base, if fits then Woken else Waiting)
      case Woken => if !fits && !s.connected then PIdle(ConnectionLost(buf, base)) else enter
    };
    s.(producer := next)
  }

  function FreeNow(s: State): nat
  {
    if s.rd < |s.data| && s.wr < |s.data| then Free(|s.data|, s.rd, s.wr) else 0
  }

  function UsedNow(s: State): nat
  {
    if s.rd < |s.data| && s.wr < |s.data| then Used(|s.data|, s.rd, s.wr) else 0
  }

  function NextProducer(s: State): (s': State)
  {
    match s.producer
    case PIdle(_) => s
    case PLoadWr(call) => s.(producer := PLoadRd(call, s.wr))
    case PLoadRd(call, w) =>
      if w >= |s.data| || s.rd >= |s.data| || call.done > |call.buf| then Crash(s) else
      s.(producer := PCopy(call, w, s.rd, WriteLength(|s.data|, w, s.rd, |call.buf| - call.done), 0))
    case PCopy(call, w, r, n, k) =>
      if k == n then Publish(s)
      else if w + k >= |s.data| || call.done + k >= |call.buf| then Crash(s)
      else s.(data := s.data[w + k := call.buf[call.done + k]], producer := s.producer.(k := k + 1))
    case QLoadWr(buf, base, stage) => s.(producer := QLoadRd(buf, base, stage, s.wr))
    case QLoadRd(buf, base, stage, w) =>
      if w >= |s.data| || s.rd >= |s.data| then Crash(s)
      else AfterTest(s, buf, base, stage, Free(|s.data|, s.rd, w) >= |buf|)
  }

  function NextConsumer(s: State): (s': State)
  {
    match s.consumer
    case CIdle => s
    case CDone(_) => s
    case CLoadWr(call) => s.(consumer := CLoadRd(call, s.wr))
    case CLoadRd(call, w) =>
      if w >= |s.data| || s.rd >= |s.data| || |call.out| > call.want then Crash(s)
      else if w == s.rd then s.(consumer := CDone(call))
      else s.(consumer := CCopy(call, w, s.rd, ReadLength(|s.data|, w, s.rd, call.want - |call.out|), []))
    case CCopy(call, w, r, n, chunk) =>
      if |chunk| == n then Release(s)
      else if r + |chunk| >= |s.data| then Crash(s)
      else s.(consumer := s.consumer.(chunk := chunk + [s.data[r + |chunk|]]))
  }

  predicate Enabled(s: State, a: Action)
  {
    match a
    case CallWrite(_) => s.producer.PIdle?
    case CallQueueWrite(_) => s.producer.PIdle?
    case CallRead(_) => s.consumer.CIdle? || s.consumer.CDone?
    case StepProducer => !s.producer.PIdle?
    case StepConsumer => !s.consumer.CIdle? && !s.consumer.CDone?
    case SetConnected(_) => true
  }

  function Next(s: State, a: Action): (s': State)
  {
    match a
    case CallWrite(buf) =>
      s.(producer := PLoadWr(WriteCall(buf, 0, 0, s.published, FreeNow(s), false)))
    case CallQueueWrite(buf) =>
      s.(producer := if |buf| >= |s.data| then PIdle(TooBig(buf, s.published)) else QLoadWr(buf, s.published, Unlocked))
    case CallRead(want) =>
      s.(consumer := CLoadWr(ReadCall(want, [], 0, s.consumed, UsedNow(s))))
    case StepProducer => NextProducer(s)
    case StepConsumer => NextConsumer(s)
    case SetConnected(flag) => s.(connected := flag)
  }

  function Init(cells: seq<Byte>): State
  {
    State(cells, 0, 0, false, PIdle(NoWrite), CIdle, [], [], false)
  }

  /** `acts` can be taken one after another from `s`. */
  predicate Runs(s: State, acts: seq<Action>)
    decreases |acts|
  {
    acts == [] || (Enabled(s, acts[0]) && Runs(Next(s, acts[0]), acts[1..]))
  }

  function Exec(s: State, acts: seq<Action>): State
    decreases |acts|
  {
    if acts == [] then s else Exec(Next(s, acts[0]), acts[1..])
  }

  // ---------------------------------------------------------------- the invariant

  /** The shared part: what is published and not yet consumed lies in the occupied cells. */
  ghost predicate Layout(data: seq<Byte>, rd: nat, wr: nat, published: seq<Byte>, consumed: seq<Byte>)
  {
    && rd < |data| && wr < |data|
    && published == consumed + Cells(data, rd, wr)
  }

  ghost predicate WriteCallOk(size: nat, rd: nat, wr: nat, published: seq<Byte>, c: WriteCall)
    requires rd < size && wr < size
  {
    && c.done <= |c.buf| && c.depth <= 1
    && published == c.base + c.buf[..c.done]
    && (c.guarded ==> c.room >= |c.buf|)
    && c.done + Free(size, rd, wr) >= c.room
    && (c.depth == 1 ==> wr == 0)
  }

  /** `n` and `k` bytes of a write that took the snapshots `wr` and `r`; the snapshot `r` is
      conservative, since the consumer can only have freed cells after it was taken. */
  ghost predicate FillingOk(data: seq<Byte>, rd: nat, wr: nat, c: WriteCall, r: nat, n: nat, k: nat)
    requires rd < |data| && wr < |data| && c.done <= |c.buf|
  {
    && r < |data|
    && Used(|data|, rd, wr) <= Used(|data|, r, wr)
    && n == WriteLength(|data|, wr, r, |c.buf| - c.done) && k <= n
    && data[wr..wr + k] == c.buf[c.done..c.done + k]
    && c.done + Free(|data|, r, wr) >= c.room
  }

  ghost predicate WroteOk(published: seq<Byte>, c: WriteCall)
  {
    && Min(|c.buf|, c.room) <= c.done <= |c.buf| && c.depth <= 1
    && published == c.base + c.buf[..c.done]
    && (c.guarded ==> c.done == |c.buf|)
  }

  ghost predicate ProducerOk(data: seq<Byte>, rd: nat, wr: nat, published: seq<Byte>, p: Producer)
    requires rd < |data| && wr < |data|
  {
    match p
    case PIdle(Wrote(c)) => WroteOk(published, c)
    case PIdle(TooBig(buf, base)) => published == base && |buf| >= |data|
    case PIdle(ConnectionLost(buf, base)) => published == base && |buf| < |data|
    case PIdle(NoWrite) => true
    case PLoadWr(c) => WriteCallOk(|data|, rd, wr, published, c)
    case PLoadRd(c, w) => WriteCallOk(|data|, rd, wr, published, c) && w == wr
    case PCopy(c, w, r, n, k) =>
      WriteCallOk(|data|, rd, wr, published, c) && w == wr && FillingOk(data, rd, wr, c, r, n, k)
    case QLoadWr(buf, base, stage) =>
      published == base && |buf| < |data| && (stage == Woken ==> Free(|data|, rd, wr) >= |buf|)
    case QLoadRd(buf, base, stage, w) =>
      published == base && |buf| < |data| && (stage == Woken ==> Free(|data|, rd, wr) >= |buf|) && w == wr
  }

  ghost predicate ReadCallOk(size: nat, rd: nat, wr: nat, consumed: seq<Byte>, c: ReadCall)
    requires rd < size && wr < size
  {
    && |c.out| <= c.want && c.depth <= 1
    && consumed == c.base + c.out
    && |c.out| + Used(size, rd, wr) >= c.ready
    && (c.depth == 1 ==> rd == 0)
  }

  /** `w` is a snapshot of the write index: since then the producer can only have moved on. */
  ghost predicate SnapshotOk(size: nat, rd: nat, wr: nat, c: ReadCall, w: nat)
    requires rd < size && wr < size
  {
    && w < size && Used(size, rd, w) <= Used(size, rd, wr)
    && |c.out| + Used(size, rd, w) >= c.ready
  }

  ghost predicate FetchingOk(data: seq<Byte>, rd: nat, c: ReadCall, w: nat, r: nat, n: nat, chunk: seq<Byte>)
    requires rd < |data| && w < |data| && |c.out| <= c.want
  {
    && r == rd && r != w
    && n == ReadLength(|data|, w, r, c.want - |c.out|) && |chunk| <= n
    && chunk == data[r..r + |chunk|]
  }

  ghost predicate ReadOk(consumed: seq<Byte>, c: ReadCall)
  {
    Min(c.want, c.ready) <= |c.out| <= c.want && c.depth <= 1 && consumed == c.base + c.out
  }

  ghost predicate ConsumerOk(data: seq<Byte>, rd: nat, wr: nat, consumed: seq<Byte>, q: Consumer)
    requires rd < |data| && wr < |data|
  {
    match q
    case CIdle => true
    case CDone(c) => ReadOk(consumed, c)
    case CLoadWr(c) => ReadCallOk(|data|, rd, wr, consumed, c)
    case CLoadRd(c, w) => ReadCallOk(|data|, rd, wr, consumed, c) && SnapshotOk(|data|, rd, wr, c, w)
    case CCopy(c, w, r, n, chunk) =>
      && ReadCallOk(|data|, rd, wr, consumed, c) && SnapshotOk(|data|, rd, wr, c, w)
      && FetchingOk(data, rd, c, w, r, n, chunk)
  }

  ghost predicate Inv(s: State)
  {
    && !s.crashed
    && Layout(s.data, s.rd, s.wr, s.published, s.consumed)
    && ProducerOk(s.data, s.rd, s.wr, s.published, s.producer)
    && ConsumerOk(s.data, s.rd, s.wr, s.consumed, s.consumer)
  }

  // ---------------------------------------------------------------- what one side's steps mean to the other

  /** Freed cells never invalidate what the producer relies on. */
  lemma ProducerToleratesRelease(data: seq<Byte>, rd: nat, rd': nat, wr: nat, published: seq<Byte>, p: Producer)
    requires rd < |data| && rd' < |data| && wr < |data|
    requires Used(|data|, rd', wr) <= Used(|data|, rd, wr)
    requires ProducerOk(data, rd, wr, published, p)
    ensures ProducerOk(data, rd', wr, published, p)
  {
  }

  /** Filled cells never invalidate what the consumer relies on. */
  lemma ConsumerToleratesPublish(data: seq<Byte>, rd: nat, wr: nat, wr': nat, consumed: seq<Byte>, q: Consumer)
    requires rd < |data| && wr < |data| && wr' < |data|
    requires Used(|data|, rd, wr) <= Used(|data|, rd, wr')
    requires ConsumerOk(data, rd, wr, consumed, q)
    ensures ConsumerOk(data, rd, wr', consumed, q)
  {
  }

  /** Neither does a byte stored in a free cell. */
  lemma ConsumerToleratesFill(data: seq<Byte>, rd: nat, wr: nat, consumed: seq<Byte>, q: Consumer, i: nat, b: Byte)
    requires rd < |data| && wr <= i < |data| && i - wr < Free(|data|, rd, wr)
    requires ConsumerOk(data, rd, wr, consumed, q)
    ensures ConsumerOk(data[i := b], rd, wr, consumed, q)
  {
    if q.CCopy? {
      FetchedCellsStay(data, rd, wr, q.w, q.n, i, b);
      assert data[i := b][rd..rd + |q.chunk|] == data[rd..rd + |q.chunk|];
    }
  }

  lemma FetchedCellsStay(data: seq<Byte>, rd: nat, wr: nat, w: nat, n: nat, i: nat, b: Byte)
    requires rd < |data| && wr <= i < |data| && i - wr < Free(|data|, rd, wr)
    requires n <= Used(|data|, rd, wr) && rd + n <= |data|
    ensures data[i := b][rd..rd + n] == data[rd..rd + n]
  {
    assert !(rd <= i < rd + n);
  }

  // ---------------------------------------------------------------- preservation

  lemma CallsKeepInv(s: State, a: Action)
    requires Inv(s) && Enabled(s, a) && !a.StepProducer? && !a.StepConsumer?
    ensures Inv(Next(s, a))
  {
    if a.CallWrite? {
      assert a.buf[..0] == [];
    }
  }

  lemma ProducerTestKeepsInv(s: State)
    requires Inv(s) && (s.producer.QLoadWr? || s.producer.QLoadRd?)
    ensures Inv(NextProducer(s))
  {
    assert s.producer.buf[..0] == [];
  }

  lemma ProducerLoadKeepsInv(s: State)
    requires Inv(s) && (s.producer.PLoadWr? || s.producer.PLoadRd?)
    ensures Inv(NextProducer(s))
  {
  }

  lemma ProducerCopyKeepsInv(s: State)
    requires Inv(s) && s.producer.PCopy? && s.producer.k < s.producer.n
    ensures Inv(NextProducer(s))
  {
    var PCopy(c, w, r, n, k) := s.producer;
    var data' := Filled(s.data, s.rd, s.wr, c, r, n, k);
    ConsumerToleratesFill(s.data, s.rd, s.wr, s.consumed, s.consumer, w + k, c.buf[c.done + k]);
    assert NextProducer(s) == s.(data := data', producer := PCopy(c, w, r, n, k + 1));
  }

  lemma Filled(data: seq<Byte>, rd: nat, wr: nat, c: WriteCall, r: nat, n: nat, k: nat) returns (data': seq<Byte>)
    requires rd < |data| && wr < |data| && c.done <= |c.buf|
    requires FillingOk(data, rd, wr, c, r, n, k) && k < n
    ensures wr + k < |data| && k < Free(|data|, rd, wr) && c.done + k < |c.buf|
    ensures data' == data[wr + k := c.buf[c.done + k]]
    ensures FillingOk(data', rd, wr, c, r, n, k + 1)
    ensures Cells(data', rd, wr) == Cells(data, rd, wr)
  {
    var b := c.buf[c.done + k];
    data' := data[wr + k := b];
    FreeCellIrrelevant(data, rd, wr, wr + k, b);
    CopiedMore(data, wr, c.buf, c.done, k);
  }

  lemma CopiedMore(data: seq<Byte>, wr: nat, buf: seq<Byte>, done: nat, k: nat)
    requires wr + k < |data| && done + k < |buf| && data[wr..wr + k] == buf[done..done + k]
    ensures data[wr + k := buf[done + k]][wr..wr + k + 1] == buf[done..done + k + 1]
  {
    var data' := data[wr + k := buf[done + k]];
    OneMore(data', wr, k);
    OneMore(buf, done, k);
    assert data'[wr..wr + k] == data[wr..wr + k];
  }

  lemma OneMore(s: seq<Byte>, i: nat, k: nat)
    requires i + k < |s|
    ensures s[i..i + k + 1] == s[i..i + k] + [s[i + k]]
  {
  }

  lemma PublishKeepsInv(s: State)
    requires Inv(s) && s.producer.PCopy? && s.producer.k == s.producer.n
    ensures Inv(NextProducer(s))
  {
    PublishEffect(s);
    PublishedInv(s);
  }

  lemma PublishedInv(s: State)
    requires Inv(s) && s.producer.PCopy? && s.producer.k == s.producer.n
    ensures var PCopy(c, w, r, n, k) := s.producer;
            Inv(s.(wr := Advance(|s.data|, s.wr, n), published := s.published + c.buf[c.done..c.done + n],
                   producer := AfterPublish(c, w, r, n)))
  {
    AfterPublishOk(s.data, s.rd, s.wr, s.published, s.producer);
    PublishSeenByConsumer(s);
  }

  lemma PublishSeenByConsumer(s: State)
    requires Inv(s) && s.producer.PCopy? && s.producer.k == s.producer.n
    ensures var c, n := s.producer.call, s.producer.n;
            var wr' := Advance(|s.data|, s.wr, n);
            && Layout(s.data, s.rd, wr', s.published + c.buf[c.done..c.done + n], s.consumed)
            && ConsumerOk(s.data, s.rd, wr', s.consumed, s.consumer)
  {
    var c, n := s.producer.call, s.producer.n;
    PublishedLayout(s.data, s.rd, s.wr, s.published, s.consumed, c, n);
    ConsumerToleratesPublish(s.data, s.rd, s.wr, Advance(|s.data|, s.wr, n), s.consumed, s.consumer);
  }

  /** A store and an addition to the index come to the same: one step along the ring. */
  lemma PublishEffect(s: State)
    requires s.producer.PCopy? && s.producer.k == s.producer.n && s.wr < |s.data| && s.rd < |s.data|
    requires ProducerOk(s.data, s.rd, s.wr, s.published, s.producer)
    ensures var PCopy(c, w, r, n, k) := s.producer;
            NextProducer(s) == s.(wr := Advance(|s.data|, s.wr, n),
                                  published := s.published + c.buf[c.done..c.done + n],
                                  producer := AfterPublish(c, w, r, n))
  {
  }

  lemma PublishedLayout(data: seq<Byte>, rd: nat, wr: nat, published: seq<Byte>, consumed: seq<Byte>,
                        c: WriteCall, n: nat)
    requires Layout(data, rd, wr, published, consumed)
    requires wr + n <= |data| && n <= Free(|data|, rd, wr) && c.done + n <= |c.buf|
    requires data[wr..wr + n] == c.buf[c.done..c.done + n]
    ensures Layout(data, rd, Advance(|data|, wr, n), published + c.buf[c.done..c.done + n], consumed)
    ensures Used(|data|, rd, Advance(|data|, wr, n)) == Used(|data|, rd, wr) + n
  {
    AdvanceWrite(data, data, rd, wr, n);
    assert consumed + (Cells(data, rd, wr) + data[wr..wr + n]) == published + data[wr..wr + n];
  }

  lemma AfterPublishOk(data: seq<Byte>, rd: nat, wr: nat, published: seq<Byte>, p: Producer)
    requires rd < |data| && wr < |data|
    requires p.PCopy? && p.k == p.n && ProducerOk(data, rd, wr, published, p)
    ensures ProducerOk(data, rd, Advance(|data|, wr, p.n), published + p.call.buf[p.call.done..p.call.done + p.n],
                       AfterPublish(p.call, p.w, p.r, p.n))
  {
    PublishedCall(published, p.call, p.n);
    assert Free(|data|, rd, Advance(|data|, wr, p.n)) == Free(|data|, rd, wr) - p.n;
  }

  lemma PublishedCall(published: seq<Byte>, c: WriteCall, n: nat)
    requires c.done + n <= |c.buf| && published == c.base + c.buf[..c.done]
    ensures published + c.buf[c.done..c.done + n] == c.base + c.buf[..c.done + n]
  {
    assert c.buf[..c.done + n] == c.buf[..c.done] + c.buf[c.done..c.done + n];
  }

  lemma ConsumerLoadKeepsInv(s: State)
    requires Inv(s) && (s.consumer.CLoadWr? || s.consumer.CLoadRd?)
    ensures Inv(NextConsumer(s))
  {
  }

  lemma ConsumerCopyKeepsInv(s: State)
    requires Inv(s) && s.consumer.CCopy? && |s.consumer.chunk| < s.consumer.n
    ensures Inv(NextConsumer(s))
  {
    var q := s.consumer;
    Fetched(s.data, s.rd, q.call, q.w, q.r, q.n, q.chunk);
  }

  lemma Fetched(data: seq<Byte>, rd: nat, c: ReadCall, w: nat, r: nat, n: nat, chunk: seq<Byte>)
    requires rd < |data| && w < |data| && |c.out| <= c.want
    requires FetchingOk(data, rd, c, w, r, n, chunk) && |chunk| < n
    ensures r + |chunk| < |data|
    ensures FetchingOk(data, rd, c, w, r, n, chunk + [data[r + |chunk|]])
  {
    OneMore(data, r, |chunk|);
  }

  lemma ReleaseKeepsInv(s: State)
    requires Inv(s) && s.consumer.CCopy? && |s.consumer.chunk| == s.consumer.n
    ensures Inv(NextConsumer(s))
  {
    var CCopy(c, w, r, n, chunk) := s.consumer;
    ReleasedLayout(s.data, s.rd, s.wr, s.published, s.consumed, n);
    ProducerToleratesRelease(s.data, s.rd, Advance(|s.data|, s.rd, n), s.wr, s.published, s.producer);
    ReleaseEffect(s);
    AfterReleaseOk(s.data, s.rd, s.wr, s.consumed, s.consumer);
  }

  lemma ReleaseEffect(s: State)
    requires s.consumer.CCopy? && |s.consumer.chunk| == s.consumer.n && s.wr < |s.data| && s.rd < |s.data|
    requires ConsumerOk(s.data, s.rd, s.wr, s.consumed, s.consumer)
    ensures var CCopy(c, w, r, n, chunk) := s.consumer;
            NextConsumer(s) == s.(rd := Advance(|s.data|, s.rd, n), consumed := s.consumed + chunk,
                                  consumer := AfterRelease(c, w, r, n, chunk, Advance(|s.data|, s.rd, n)))
  {
  }

  lemma ReleasedLayout(data: seq<Byte>, rd: nat, wr: nat, published: seq<Byte>, consumed: seq<Byte>, n: nat)
    requires Layout(data, rd, wr, published, consumed) && rd + n <= |data| && n <= Used(|data|, rd, wr)
    ensures Layout(data, Advance(|data|, rd, n), wr, published, consumed + data[rd..rd + n])
    ensures Used(|data|, Advance(|data|, rd, n), wr) == Used(|data|, rd, wr) - n
  {
    AdvanceRead(data, rd, wr, n);
    Regroup(consumed, Cells(data, rd, wr), n);
  }

  lemma AfterReleaseOk(data: seq<Byte>, rd: nat, wr: nat, consumed: seq<Byte>, q: Consumer)
    requires rd < |data| && wr < |data|
    requires q.CCopy? && |q.chunk| == q.n && ConsumerOk(data, rd, wr, consumed, q)
    ensures var rd' := Advance(|data|, rd, q.n);
            ConsumerOk(data, rd', wr, consumed + q.chunk, AfterRelease(q.call, q.w, q.r, q.n, q.chunk, rd'))
  {
    assert consumed + q.chunk == q.call.base + (q.call.out + q.chunk);
    assert Used(|data|, Advance(|data|, rd, q.n), wr) == Used(|data|, rd, wr) - q.n;
  }

  lemma StepKeepsInv(s: State, a: Action)
    requires Inv(s) && Enabled(s, a)
    ensures Inv(Next(s, a))
  {
    match a
    case StepProducer =>
      match s.producer {
        case PLoadWr(_) => ProducerLoadKeepsInv(s);
        case PLoadRd(_, _) => ProducerLoadKeepsInv(s);
        case PCopy(_, _, _, n, k) => if k < n { ProducerCopyKeepsInv(s); } else { PublishKeepsInv(s); }
        case _ => ProducerTestKeepsInv(s);
      }
    case StepConsumer =>
      match s.consumer {
        case CCopy(_, _, _, n, chunk) => if |chunk| < n { ConsumerCopyKeepsInv(s); } else { ReleaseKeepsInv(s); }
        case _ => ConsumerLoadKeepsInv(s);
      }
    case _ => CallsKeepInv(s, a);
  }

  lemma {:induction false} RunKeepsInv(s: State, acts: seq<Action>)
    requires Inv(s) && Runs(s, acts)
    ensures Inv(Exec(s, acts))
    decreases |acts|
  {
    if acts != [] {
      StepKeepsInv(s, acts[0]);
      RunKeepsInv(Next(s, acts[0]), acts[1..]);
    }
  }

  // ---------------------------------------------------------------- what every interleaving keeps

  /** No loss, no duplication, no reordering and no access outside the storage: in every
      interleaving the consumed bytes are a prefix of the published ones and the rest are exactly
      the cells from the read index cyclically to the write index. */
  lemma NoLossNoReordering(cells: seq<Byte>, acts: seq<Action>)
    requires |cells| >= 1 && Runs(Init(cells), acts)
    ensures var s := Exec(Init(cells), acts);
            && !s.crashed && s.rd < |s.data| && s.wr < |s.data|
            && s.consumed <= s.published
            && s.published[|s.consumed|..] == Cells(s.data, s.rd, s.wr)
  {
    RunKeepsInv(Init(cells), acts);
  }

  /** Cell `i` is one that the producer has still to fill. */
  predicate Filling(s: State, i: int)
  {
    s.producer.PCopy? && s.producer.w + s.producer.k <= i < s.producer.w + s.producer.n
  }

  /** Cell `i` is one that the consumer has still to fetch. */
  predicate Fetching(s: State, i: int)
  {
    s.consumer.CCopy? && s.consumer.r + |s.consumer.chunk| <= i < s.consumer.r + s.consumer.n
  }

  /** Although each side works on a stale snapshot of the other's index, no cell that is still to
      be filled is still to be fetched, and both lie within the storage. */
  lemma CopiesAreDisjoint(cells: seq<Byte>, acts: seq<Action>, i: int)
    requires |cells| >= 1 && Runs(Init(cells), acts)
    ensures var s := Exec(Init(cells), acts);
            && !(Filling(s, i) && Fetching(s, i))
            && (Filling(s, i) || Fetching(s, i) ==> 0 <= i < |s.data|)
  {
    RunKeepsInv(Init(cells), acts);
  }

  /** A finished ring write has published a prefix of its buffer and nothing else, at least as much
      as fitted when it was called, whatever the consumer did meanwhile. */
  lemma WriteIsConservative(cells: seq<Byte>, acts: seq<Action>)
    requires |cells| >= 1 && Runs(Init(cells), acts)
    ensures var s := Exec(Init(cells), acts);
            s.producer.PIdle? && s.producer.result.Wrote? ==>
              var c := s.producer.result.call;
              && Min(|c.buf|, c.room) <= c.done <= |c.buf|
              && s.published == c.base + c.buf[..c.done]
  {
    RunKeepsInv(Init(cells), acts);
  }

  /** DataQueue::write is all or nothing: it has published its whole buffer, or it reports an
      error and has published no byte. */
  lemma QueueWriteIsAllOrNothing(cells: seq<Byte>, acts: seq<Action>)
    requires |cells| >= 1 && Runs(Init(cells), acts)
    ensures var s := Exec(Init(cells), acts);
            s.producer.PIdle? ==>
              match s.producer.result
              case NoWrite => true
              case Wrote(c) => c.guarded ==> s.published == c.base + c.buf
              case TooBig(buf, base) => s.published == base && |buf| >= |cells|
              case ConnectionLost(buf, base) => s.published == base && |buf| < |cells|
  {
    RunKeepsInv(Init(cells), acts);
    RunKeepsSize(Init(cells), acts);
    var p := Exec(Init(cells), acts).producer;
    if p.PIdle? && p.result.Wrote? {
      assert p.result.call.buf[..|p.result.call.buf|] == p.result.call.buf;
    }
  }

  lemma {:induction false} RunKeepsSize(s: State, acts: seq<Action>)
    requires Runs(s, acts)
    ensures |Exec(s, acts).data| == |s.data|
    decreases |acts|
  {
    if acts != [] {
      StepKeepsSize(s, acts[0]);
      RunKeepsSize(Next(s, acts[0]), acts[1..]);
    }
  }

  lemma StepKeepsSize(s: State, a: Action)
    requires Enabled(s, a)
    ensures |Next(s, a).data| == |s.data|
  {
  }

  /** How deep the recursion of the running or last write and read is. */
  function WriteDepth(p: Producer): nat
  {
    match p
    case PIdle(Wrote(c)) => c.depth
    case PLoadWr(c) => c.depth
    case PLoadRd(c, _) => c.depth
    case PCopy(c, _, _, _, _) => c.depth
    case _ => 0
  }

  function ReadDepth(q: Consumer): nat
  {
    if q.CIdle? then 0 else q.call.depth
  }

  /** In no interleaving does a ring write or read call itself more than once. */
  lemma RecursionIsBounded(cells: seq<Byte>, acts: seq<Action>)
    requires |cells| >= 1 && Runs(Init(cells), acts)
    ensures WriteDepth(Exec(Init(cells), acts).producer) <= 1
    ensures ReadDepth(Exec(Init(cells), acts).consumer) <= 1
  {
    RunKeepsInv(Init(cells), acts);
  }

  /** A finished ring read has consumed what it returned, at least as much as was available when
      it was called and at most what was asked for. */
  lemma ReadIsConservative(cells: seq<Byte>, acts: seq<Action>)
    requires |cells| >= 1 && Runs(Init(cells), acts)
    ensures var s := Exec(Init(cells), acts);
            s.consumer.CDone? ==>
              var c := s.consumer.call;
              && Min(c.want, c.ready) <= |c.out| <= c.want
              && s.consumed == c.base + c.out
  {
    RunKeepsInv(Init(cells), acts);
  }
}
