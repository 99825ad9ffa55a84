# libcppio: a verified model of the in-process line and the message protocol

libcppio moves bytes and framed messages between threads and processes. This project models its
two algorithmic components and proves them correct, separately and stacked on each other:

- the in-process transport of `src/common/inproc.cpp`: the ring buffer in both its versions
  (plain, used under a mutex; lock-free, for one producer and one consumer), the blocking
  `DataQueue` with its mutex, two condition variables and connection flag, and the
  connect/accept rendezvous over global lists;
- the message format and the framed stream protocol of `src/message.cpp`, which must tolerate
  arbitrary short reads and short writes.

At the top, a sending and a receiving thread run `sendMessage` and `readMessage` over the blocking
queue, access by access, and the sender may disconnect between messages; the received messages are
always the first ones sent, the loss of the connection is reported after the last one and never in
the middle of one, nothing deadlocks, and everything is delivered within a bound.

## How it is laid out

| file | content |
|---|---|
| `Wrappers.dfy` | the option type |
| `Bytes.dfy` | bytes, little-endian words, small sequence facts |
| `RingCells.dfy` | the cyclic layout shared by both rings |
| `RingBuffer.dfy` | the sequential ring: a class over an array, with its abstract queue of bytes |
| `LockFreeRing.dfy` | the lock-free ring: every atomic load and store and every copied byte is a step |
| `LockFreeCalls.dfy` | what its calls return, judged by the call and the state when it was made; no ring call waits |
| `QueueSections.dfy` | what the blocking queue decides between two changes of its mutex's owner |
| `DataQueue.dfy` | those stretches as methods over the real ring |
| `Monitor.dfy` | the blocking queue with any number of threads: mutex, sleeping, notification, flag |
| `MonitorFrames.dfy` | what a step of the queue leaves alone |
| `QueueResults.dfy` | what the calls of the blocking queue return, over every run |
| `MonitorRuns.dfy` | runs that show where the queue's guarantees end, with the exact conditions |
| `Disconnect.dfy` | readers and writers that wait while the connection flag is cleared |
| `Rendezvous.dfy` | connecting lines: operations on the registry and what every run keeps |
| `InprocGlobals.dfy` | the same operations in place, with their loops over the global lists |
| `RegistryHistory.dfy` | the registry over whole runs, judged by the operations that were called |
| `Meeting.dfy` | the threads in `createClient` and `waitConnection`: sleeping, notification, giving up |
| `MeetingResults.dfy` | what those calls return, no deadlock, and the refinement of the registry |
| `Codec.dfy` | encoding, buffer parser, and the loops of `Message` |
| `StreamDecoder.dfy` | the streaming reader from one read call to the next |
| `SendLoop.dfy` | the loop of `sendMessage` as it is written, with signed results and a 32-bit `towrite` |
| `MessageProtocol.dfy` | `readMessage` and `sendMessage` over a line of arbitrary behaviour |
| `Carrying.dfy` | what `sendMessage` hands over of a list of messages, and what a decoder has taken of it |
| `EndToEnd.dfy` | sender and receiver over the blocking queue: the invariant and safety |
| `Delivery.dfy` | the same system: no deadlock, a bound on every run, delivery |
| `SizeLimit.dfy` | the same system with messages the queue refuses |

Machines are given as a function `Next`, a predicate for the actions that are possible, and runs
as sequences of actions. All nondeterminism is in the choice of the action, so a statement about
every run is a statement about every interleaving. The atomics of the lock-free ring have the
default sequentially consistent order, which interleaving describes faithfully. `m_connected` is a
plain `bool` that the source reads and writes without synchronisation; its accesses are taken as
atomic steps.

## Findings

- With two reading threads the blocking queue can freeze, whatever its size and with a single
  writer (`MonitorRuns.TwoReadersFreeze`): a woken reader does not notify writers before it sleeps
  again, so a reader and a writer can sleep on an empty, connected ring with nobody left to wake
  them. The condition is exact: they can come to sleep together if and only if the ring has one
  cell or there are at least two readers (`MonitorRuns.MutualSleepIff`).
- A disconnect can fail to wake a blocked reader, because `setConnectionFlag` stores and notifies
  without the mutex: if that falls between the reader's test of the flag and its sleep, the reader
  sleeps on. A run that does this exists for every size and any two threads
  (`Disconnect.SleepsThroughLoss`). The gap is the only cause, exactly: a run leaves a reader
  un-notified beside a cleared flag if and only if it hits that gap (`Disconnect.MissedIffGap`). It
  is then missed for good, since a second disconnect finds the flag cleared and notifies nobody
  (`Disconnect.MissedForGood`).
- A disconnect does not release a waiting writer at all. A write that has begun to wait never
  reports the loss of the connection; it waits until there is room and then copies
  (`Disconnect.WaitingWriteNeverLost`), and if nobody reads any more it waits for good
  (`Disconnect.WriterHangs`).
- `sendMessage` stores the result of `write` in an unsigned variable and does not look at its
  sign (`src/message.cpp:209-211`). A message of 65536 bytes or more over an in-process line is
  refused each time it is written; each refusal, -3, moves the pointer three bytes in front of the
  buffer and adds three bytes to what is asked for (`SendLoop.RefusedAgain`,
  `SizeLimit.OversizedSendsNothing`). The loop goes on until the `int` overflows, and then
  `sendMessage` returns 1 with not a byte written (`SendLoop.RefusedUntilOverflow`,
  `SizeLimit.OversizedReturnsUnsent`). An error on the way makes the line take more bytes than the
  message has: as long as the rest stays in the range of an `int`, the message is taken as it is,
  each byte once and in order, exactly if no write failed (`SendLoop.WholeIffNoErrors`). If a write
  succeeds while the results before it sum to less than nothing, and only then, bytes from in front
  of the buffer are sent (`SendLoop.InFrontIff`, `SendLoop.StrayIff`); a loss of connection on a
  full ring that is then drained is enough (`SendLoop.LostThenStray`).
- The size of a message is converted to an `int`, so of a message of 2 GiB or more only a part, or
  nothing, is written, and `sendMessage` returns 1 (`SendLoop.WholeIffBelowTwoGigabytes`). End to
  end, all messages can be received if and only if the size of each is below 2 GiB
  (`Delivery.DeliveredIffWhole`).
- The round trip of the codec holds exactly for messages with fewer than 2^32 frames of fewer than
  2^32 bytes each: the 32-bit stores truncate (`Codec.RoundTripIffEncodable`).
- The buffer parser reads the count and each frame header before it looks at the length. The
  result does not depend on what lies behind the buffer, but a message without frames is accepted
  with any claimed length (`Codec.AcceptedIffCovered`).
- A reader can sleep un-notified beside data, on every ring that can hold any
  (`MonitorRuns.SleepsBesideDataIff`), but exactly while the writer that has copied the data holds
  the mutex and is about to notify (`Monitor.NoLostWakeup`).

## Model

| member | source | states |
|---|---|---|
| SequentialRing.RingBuffer.constructor | src/common/inproc.cpp:14-18 | a new ring of any size is empty, and it is usable exactly if it has a cell |
| SequentialRing.RingBuffer.AvailableReadSize | src/common/inproc.cpp:93-105 | the branch arithmetic yields the number of unread bytes |
| SequentialRing.RingBuffer.AvailableWriteSize | src/common/inproc.cpp:107-119 | it complements the unread bytes to one less than the size |
| SequentialRing.RingBuffer.Read | src/common/inproc.cpp:24-57 | removes exactly the first min(buflen, available) bytes and stores exactly them, across the wrap; nothing else in the buffer changes; one recursive call exactly when both parts are wanted |
| SequentialRing.RingBuffer.ReadMore | src/common/inproc.cpp:45-53 | the recursive read completes the first copy to exactly the first min(buflen, available) bytes and recurses no further |
| SequentialRing.RingBuffer.Write | src/common/inproc.cpp:59-91 | appends exactly the first min(buflen, free) bytes, across the wrap; one recursive call exactly when the tail is too short and space is free before it |
| RingCells.AdvanceRead | src/common/inproc.cpp:30-43 | freeing cells drops the oldest bytes of the cyclic contents |
| RingCells.AdvanceWrite | src/common/inproc.cpp:61-70 | filling free cells appends to the cyclic contents |
| LockFreeRing.WriteLength | src/common/inproc.cpp:269-295 | the length a write copies fits the free cells of its snapshot and the storage, and falls short of the request only if the cells are used up or the storage ends |
| LockFreeRing.ReadLength | src/common/inproc.cpp:233-242 | the same for the length a read copies |
| LockFreeRing.StepKeepsInv | src/common/inproc.cpp:224-301 | every load, copied byte and store of either thread keeps the invariant that ties snapshots, cells and byte histories |
| LockFreeRing.NoLossNoReordering | src/common/inproc.cpp:224-301 | in every interleaving the consumed bytes are a prefix of the published ones, the rest are exactly the cells from rd cyclically to wr, and no access leaves the storage |
| LockFreeRing.CopiesAreDisjoint | src/common/inproc.cpp:226-248 | no cell still to be filled is still to be fetched, in spite of stale snapshots |
| LockFreeRing.WriteIsConservative | src/common/inproc.cpp:264-301 | a finished write has published a prefix of its buffer, at least min(buflen, free space at entry), under any consumer activity |
| LockFreeRing.ReadIsConservative | src/common/inproc.cpp:224-262 | a finished read has consumed what it returned, at least min(buflen, available at entry) |
| LockFreeRing.QueueWriteIsAllOrNothing | src/common/inproc.cpp:417-446 | with one producer the queue's write has published its whole buffer or reports an error and has published nothing |
| LockFreeRing.RecursionIsBounded | src/common/inproc.cpp:252-289 | in no interleaving does a write or a read call itself more than once |
| LockFreeCalls.RingWriteOutcome | src/common/inproc.cpp:264-301 | for every call in every interleaving: a write that has returned has published a prefix of its buffer behind what was published before, at least min(buflen, free space at the call) |
| LockFreeCalls.RingReadOutcome | src/common/inproc.cpp:224-262 | for every call in every interleaving: a read that has returned gives the next bytes, at least min(buflen, available at the call) |
| LockFreeCalls.QueueWriteOutcome | src/common/inproc.cpp:417-446 | a queue write publishes its whole buffer or nothing; it is refused if and only if it is as long as the ring, and lost only if a test under the lock found the space too small and the flag cleared |
| LockFreeCalls.LostIffFound | src/common/inproc.cpp:424-429 | such a test, and nothing else, ends in the loss of the connection |
| LockFreeCalls.QueueTestDecides | src/common/inproc.cpp:421-429 | what each of the four evaluations of the space test leads to, if and only if its condition holds |
| LockFreeCalls.WriteIsWaitFree | src/common/inproc.cpp:264-301 | a ring write never waits: a step of it is always possible, and after 2 buflen + 6 steps of its own it has returned, whatever the consumer does |
| LockFreeCalls.ReadIsWaitFree | src/common/inproc.cpp:224-262 | the same for a ring read |
| LockFreeCalls.FlagFollowsTheRun | src/common/inproc.cpp:458-470 | over every run the flag is what it was set to last, cleared at first |
| QueueSections.ReadHead | src/common/inproc.cpp:136-145 | each decision if and only if its condition: delivery on data, of everything wanted or everything there is; loss on an empty disconnected ring; sleep on an empty connected one |
| QueueSections.ReadWoken | src/common/inproc.cpp:142-166 | each decision of a woken reader if and only if its condition: a timed one sleeps on while its time lasts and reports a timeout exactly when it is up on an empty connected ring |
| QueueSections.WriteHead | src/common/inproc.cpp:173-184 | each decision if and only if its condition: refusal of a buffer as long as the ring, loss or sleep on a full ring; an accepted write takes everything or fills the ring |
| QueueSections.WriteWoken | src/common/inproc.cpp:179-184 | a woken write goes back to sleep exactly on a full ring and otherwise takes everything or fills the ring |
| DataQueue.Queue.constructor | src/common/inproc.cpp:121-124 | a new queue of any size is empty and not connected, and it is usable exactly if its ring has a cell |
| DataQueue.Queue.ReadSection | src/common/inproc.cpp:132-167 | on the real ring the reading stretch decides as the section says, moves exactly those bytes, and delivers everything wanted or empties the ring |
| DataQueue.Queue.WokenSection | src/common/inproc.cpp:142-166 | the woken reader decides as the section says |
| DataQueue.Queue.WriteSection | src/common/inproc.cpp:170-184 | the writing stretch decides as the section says, appends exactly the accepted bytes, and takes the whole buffer or fills the ring |
| DataQueue.Queue.WriteWokenSection | src/common/inproc.cpp:179-184 | the same after the wait |
| DataQueue.Queue.SetConnectionFlag | src/common/inproc.cpp:199-212 | the flag takes the new value; everybody is woken exactly when a set flag is cleared |
| Monitor.StepKeepsInv | src/common/inproc.cpp:132-212 | every step of any thread keeps the mutex discipline, the account of bytes and the reasons for sleeping |
| Monitor.NoLostWakeup | src/common/inproc.cpp:136-185 | over every run, with any number of threads: a reader asleep and not notified is beside data if and only if the thread in the mutex is a writer that has copied bytes and is about to notify; written bytes are delivered bytes followed by the contents |
| Monitor.NoMutualSleep | src/common/inproc.cpp:132-212 | with one reading thread, any number of writers and at least two cells, no reachable state has a reader and a writer both asleep un-notified |
| Monitor.LostOnlyWhenDrained | src/common/inproc.cpp:136-165 | a read or timed read returns "connection lost" only with the flag cleared and every byte written so far delivered |
| Monitor.EndOfStreamAfterDrain | src/common/inproc.cpp:132-168 | if no write is under way or started any more, a reported loss of connection means that every byte of the whole run has been delivered |
| QueueResults.EveryResultAnswers | src/common/inproc.cpp:132-187 | over every run, with any number of threads: each result answers the thread's last call. Data are the oldest bytes, all wanted or all there are; a timeout comes only to a timed read woken because its time was up, on an empty connected ring; a refusal, a loss and a number written have their exact conditions |
| QueueResults.EveryCopyIsPrefix | src/common/inproc.cpp:184 | over every run nothing enters the ring but the beginning of a writer's buffer, all of it or as much as fits, and the number copied is the number returned |
| QueueResults.ReadersGetTheDelivered | src/common/inproc.cpp:145-167 | over every run the bytes that reads return, timed or not, put together are exactly the bytes that have left the ring |
| QueueResults.CallsEndByReturning | src/common/inproc.cpp:132-212 | a call ends only by returning a result, or at the end of a disconnect |
| QueueResults.ReadTestDecides | src/common/inproc.cpp:136-145 | a read at its test waits, reports the loss or delivers, each if and only if its condition holds |
| QueueResults.WokenReadDecides | src/common/inproc.cpp:142-166 | a woken read looks again, sleeps on, times out or reports the loss, each if and only if its condition holds |
| QueueResults.WriteTestDecides | src/common/inproc.cpp:173-184 | a write at its test is refused, waits, is lost or copies, each if and only if its condition holds |
| QueueResults.ExpiredReadEnds | src/common/inproc.cpp:155-167 | in every run a timed read whose time is up never sleeps again before it returns |
| QueueResults.TimeCanRunOut | src/common/inproc.cpp:155-161 | a sleeping timed read can run out of time whenever the mutex is free, and on an empty connected ring it then returns the timeout |
| QueueResults.ReadersNotified | src/common/inproc.cpp:185-209 | a writer's and a disconnect's notification leave no reader asleep un-notified and touch no other thread |
| QueueResults.WritersNotified | src/common/inproc.cpp:135-210 | a reader's and a disconnect's notification leave no writer asleep un-notified and touch no other thread |
| QueueResults.FlagChanges | src/common/inproc.cpp:199-212 | the flag is set by a connect and cleared by a disconnect that finds it set, and by nothing else |
| QueueResults.ConnectedByConnect | src/common/inproc.cpp:121-124 | over every run the flag is set only if a connect was called |
| MonitorRuns.TwoReadersFreeze | src/common/inproc.cpp:132-146 | for every size from two and any two readers and a writer, a run that ends with a reader and a writer asleep on an empty connected ring and nobody to wake them |
| MonitorRuns.MutualSleepIff | src/common/inproc.cpp:132-188 | for any disjoint sets of readers and writers and every size: a common un-notified sleep is reachable if and only if the ring has one cell or there are two readers, and then a frozen state is |
| MonitorRuns.SleepsBesideDataIff | src/common/inproc.cpp:184-185 | a run in which a reader sleeps un-notified beside data exists if and only if the ring can hold a byte |
| Disconnect.SleepsThroughLoss | src/common/inproc.cpp:136-212 | for every size and any two threads a run after which a reader sleeps un-notified beside a cleared flag while all others are idle |
| Disconnect.MissedIffGap | src/common/inproc.cpp:136-212 | over every run, with any number of threads: a reader in read is left un-notified beside a cleared flag, with nobody about to notify it, if and only if the readers were notified between its test of the flag and its sleep and it has been left so since |
| Disconnect.GapDooms | src/common/inproc.cpp:138-141 | that notification, if it is the last, leaves the reader where nothing reaches it |
| Disconnect.MissedForGood | src/common/inproc.cpp:199-212 | the reader then sleeps through every run without a new connection, a write or a spurious wake-up, further disconnects included |
| Disconnect.WaitingWriteNeverLost | src/common/inproc.cpp:175-184 | in every run a write that waits goes on waiting, whatever happens to the flag, until there is room, and then copies exactly what fits |
| Disconnect.WriterHangs | src/common/inproc.cpp:175-184 | if the ring is full and nobody reads any more, a waiting write waits for good, through any disconnects |
| Disconnect.HangingWriterReached | src/common/inproc.cpp:170-212 | for every size from two a run to such a state with the flag cleared |
| InprocGlobals.Globals.NewClient | src/common/inproc.cpp:613-621 | the new line is unconnected and last in the connect queue, all waiting acceptors are notified, and the invariant of the registry is kept |
| InprocGlobals.Globals.NewServer | src/common/inproc.cpp:628-639 | the loop refuses exactly the registered addresses, otherwise appends the acceptor, and keeps the invariant |
| InprocGlobals.Globals.DestroyAcceptor | src/common/inproc.cpp:548-562 | the loop removes the acceptor if it is listed, keeps the others in order and keeps the invariant |
| InprocGlobals.Globals.NewServerEnd | src/common/inproc.cpp:479-494 | the server end gets two new queues, the client gets them crosswise, both flags are set and the client is notified |
| InprocGlobals.Globals.ScanQueue | src/common/inproc.cpp:575-585 | one scan takes the first client for the address out of the queue and pairs and notifies it, or changes nothing; the invariant is kept |
| InprocGlobals.Globals.DestroyLine | src/common/inproc.cpp:501-505 | destroying a connected line clears the flags of its two queues and keeps the invariant |
| Rendezvous.UnregisterTakesOne | src/common/inproc.cpp:553-561 | destroying a listed acceptor takes out one entry and keeps all others in order |
| Rendezvous.UnregisterAbsent | src/common/inproc.cpp:553-561 | destroying an acceptor that is not listed changes nothing |
| Rendezvous.FirstFor | src/common/inproc.cpp:575-585 | the position found is the first client for the address; none is found only if there is none |
| Rendezvous.StepKeepsInv | src/common/inproc.cpp:569-639 | every operation keeps the invariant of the registry |
| Rendezvous.ConnectionsAreSound | src/common/inproc.cpp:479-505 | over every run queued clients are unconnected and in no pair, each client of a pair has one server end, ends share queues crosswise, pairs share none, no line is lost, and the flags of a pair are set exactly while both ends exist |
| Rendezvous.FirstComeFirstServed | src/common/inproc.cpp:569-639 | over every run registered addresses are distinct, and for each address the accepted clients followed by the waiting ones are the arrivals in order |
| Rendezvous.ScanOutcome | src/common/inproc.cpp:479-585 | a scan finds nothing if and only if no client waits for the address; otherwise it takes the earliest, keeps the order of all others, and returns a new line with that client as its peer and both flags set |
| Rendezvous.RegisterOutcome | src/common/inproc.cpp:628-639 | createServer gives nothing if and only if the address is registered; otherwise a new acceptor for the address, listed behind the others |
| Rendezvous.DestroyOutcome | src/common/inproc.cpp:501-505 | destroying a connected line clears the flags of its two queues and of no other, and changes nothing else |
| RegistryHistory.ArrivalsAreCalls | src/common/inproc.cpp:617-619 | over every run the arrivals are the clients created, in order, each with a line of its own |
| RegistryHistory.RefusedWhileRegistered | src/common/inproc.cpp:628-639 | over every run, from a successful createServer until that acceptor is destroyed, every createServer for the address is refused |
| RegistryHistory.FreeAfterDestruction | src/common/inproc.cpp:553-561 | after the destruction of a listed acceptor its address can be registered again |
| RegistryHistory.GoneIsDestroyed | src/common/inproc.cpp:501-505 | over every run the lines that are gone are exactly those destroyed while connected |
| RegistryHistory.FlagsFollowTheRun | src/common/inproc.cpp:490-505 | over every run a queue's flag is set if and only if it belongs to a pair of which no end has been destroyed |
| RegistryHistory.AcceptedArePaired | src/common/inproc.cpp:579-582 | over every run a client has been accepted if and only if a server end has it as its peer |
| Meeting.StepKeepsInv | src/common/inproc.cpp:534-621 | every step of a thread in createClient or waitConnection, with the erasing and the pairing of a client as two steps, keeps the registry's invariant and the reasons for sleeping |
| Meeting.NotifiedIffConnected | src/common/inproc.cpp:479-542 | over every run a client asleep in waitForConnection has been notified if and only if its line is connected; otherwise it is in the queue, or in the hands of the acceptor that holds the global mutex and is about to pair it |
| Meeting.NobodyMissesAMeeting | src/common/inproc.cpp:569-621 | over every run, while a client sleeps un-notified no acceptor for its address sleeps un-notified |
| Meeting.ClientReturnsConnected | src/common/inproc.cpp:613-626 | over every run a line that createClient has returned is connected, is one end of exactly one pair, and its flags are set while both ends exist |
| Meeting.NullMeansNobodyCame | src/common/inproc.cpp:569-596 | over every run waitConnection returns null if and only if its time is up and every client that has ever come for its address has been accepted |
| MeetingResults.AcceptorsAreServed | src/common/inproc.cpp:569-585 | over every run waitConnection returns, for the address it was called with, a server end whose peer is an accepted client for that address, and no other call holds the same |
| MeetingResults.ClientsGetTheirLine | src/common/inproc.cpp:613-626 | over every run createClient returns the connected line created for its call |
| MeetingResults.TestDecides | src/common/inproc.cpp:534-541 | a client returns from its test if and only if its line is connected |
| MeetingResults.QuietMeansNothingToDo | src/common/inproc.cpp:534-596 | no deadlock: in a reachable state where nothing happens by itself, every waiting client is still queued and no waiting acceptor has anybody queued for it |
| MeetingResults.ThreadsRefineRegistry | src/common/inproc.cpp:479-639 | in every interleaving, whenever the global mutex is free, the registry is what the completed operations one after another make of an empty one |
| MeetingResults.TheyMeet | src/common/inproc.cpp:569-626 | a run in which a client and an acceptor for one address both return, each with an end of one pair |
| Bytes.LoadAfterStore | src/message.cpp:105-110 | an integer stored in some bytes and loaded again is kept modulo their range |
| Bytes.StoreAfterLoad | src/message.cpp:62-69 | every byte string is the representation of the number it loads as |
| Bytes.ByteAt | src/message.cpp:105-110 | little-endian: byte i of a stored integer counts multiples of 256 to the power i |
| Bytes.WordBytes | src/message.cpp:105-110 | the four bytes of a stored word, least significant first |
| Bytes.WordOfBytes | src/message.cpp:62-69 | the value of four bytes read as a word |
| Codec.MessageSize | src/message.cpp:91-100 | the loop computes the length of the encoding |
| Codec.WriteMessage | src/message.cpp:102-115 | fills exactly the first messageSize bytes with the encoding and leaves the rest of the buffer |
| Codec.CountLayout | src/message.cpp:105 | the encoding starts with the number of frames as four bytes, least significant first |
| Codec.FrameLayout | src/message.cpp:108-113 | each frame is its length as four bytes, least significant first, then its own bytes, and the next frame follows directly |
| Codec.EncodeExample | tests/message_test.cpp:11-23 | the message of the repository's example has the encoding given there |
| Codec.ParseExample | tests/message_test.cpp:25-37 | the buffer of the repository's example is parsed to the frames given there |
| Codec.ReadMessage | src/message.cpp:58-79 | for any claimed length, below four bytes too, the parser loop computes the specified parse, whatever a header behind the memory holds |
| Codec.ParseIffEncoding | src/message.cpp:58-115 | a buffer is parsed to a message if and only if it starts with that message's encoding and the counts fit 32 bits |
| Codec.RoundTripIffEncodable | src/message.cpp:58-115 | the round trip holds if and only if the counts fit 32 bits |
| Codec.EncodingsArePrefixFree | src/message.cpp:102-115 | two messages whose encodings begin the same stream are equal |
| Codec.TruncatedIsRejected | src/message.cpp:67-74 | every length from 4 up to but not including messageSize is rejected |
| Codec.AcceptedIffCovered | src/message.cpp:58-79 | in memory that starts with an encoding a claimed length is accepted if and only if it covers the encoding or the message has no frames |
| Codec.ShortClaim | src/message.cpp:58-79 | with a claimed length below four, exactly the message without frames is accepted, exactly if the count in memory is zero |
| Codec.StreamPrefix | src/message.cpp:102-115 | if the encodings of one message list begin those of another, the first list begins the second |
| Codec.StreamIsUnique | src/message.cpp:102-115 | a concatenation of encodings comes from exactly one message list |
| Codec.TypedRoundTrip | src/message.cpp:25-38 | an unsigned value of any width put into a frame is got back from the encoded and parsed message |
| Codec.ValueBytes | src/message.cpp:25-38 | the bytes of a typed value, least significant first |
| StreamDecoder.FeedConsumes | src/message.cpp:160-197 | each chunk that arrives is used up exactly |
| StreamDecoder.FeedFeed | src/message.cpp:162-194 | two chunks act as one |
| StreamDecoder.ReadsWithinMessage | src/message.cpp:171-197 | while the encoding of a message is read, the output holds whole frames of it only and no read asks for a byte beyond it |
| StreamDecoder.AnyScheduleYieldsTheMessage | src/message.cpp:156-199 | every schedule of short reads that supplies the encoding yields exactly the message and can supply no more |
| StreamDecoder.PartialScheduleYieldsFrames | src/message.cpp:162-197 | a schedule that stops early leaves a prefix of the frames, never a partial frame |
| MessageProtocol.Fill | src/message.cpp:187-194 | the inner read loop fills its buffer with the next bytes of the stream or returns the very result of a failed call it has made itself, and accounts for every byte taken |
| MessageProtocol.ReadMessage | src/message.cpp:156-199 | on any stream and any line behaviour: success returns 1 and exactly the message at the start of the stream, takes exactly its bytes and agrees with the buffer parser; failure returns the very result of the last call made during it, the script's own or the loss of the connection, and leaves a prefix of the frames |
| MessageProtocol.ReadFromGoodLine | src/message.cpp:156-199 | on a line whose results are positive from now on, whatever happened before, readMessage returns 1 and the message |
| MessageProtocol.SendMessage | src/message.cpp:201-214 | for every message and every line, failing ones included: the loop has got the line's results in turn and returned exactly if `towrite` is used up; if the line takes something each time it returns 1 and the line has accepted exactly the announced part of the encoding, in order |
| SendLoop.LoopState | src/message.cpp:206-212 | after any results, errors included, the pointer has moved by their sum and `towrite` is the rest modulo 2^32 |
| SendLoop.PointerPlusRest | src/message.cpp:206-212 | pointer and rest add up to the size if and only if the rest is in the range of an int, and then the loop has ended if and only if the results sum to at least the size |
| SendLoop.PositiveResultsEnd | src/message.cpp:207-212 | positive results end the loop within the announced number of writes, and the line has taken exactly the announced bytes |
| SendLoop.WholeIffNoErrors | src/message.cpp:206-212 | when the loop has ended, the line has taken the positions of the buffer each once and in order if and only if no result was negative; otherwise it has taken more bytes than the message has |
| SendLoop.InFrontIff | src/message.cpp:209-211 | the line has taken bytes from in front of the buffer if and only if a write succeeded while the results before it summed to less than nothing |
| SendLoop.StrayIff | src/message.cpp:209-211 | exactly then some bytes it has taken are no part of the message |
| SendLoop.ErrorsFirst | src/message.cpp:209-211 | if errors come before the first byte is taken, that byte lies in front of the buffer |
| SendLoop.LostThenStray | src/common/inproc.cpp:173-184 | on a full, disconnected ring that is then drained, the second write starts two bytes in front of the buffer; it is accepted whole and ends the loop if it fits the ring and refused otherwise |
| SendLoop.WholeIffBelowTwoGigabytes | src/message.cpp:206-213 | without errors the line takes the size modulo 2^32 bytes, or nothing, and the whole message if and only if its size is below 2^31 |
| SendLoop.RefusedAgain | src/message.cpp:209-211 | after n refusals of a message as long as the ring the pointer is 3n bytes in front of the buffer, 3n bytes too many are asked for, and the queue refuses the next write in every state |
| SendLoop.RefusedUntilOverflow | src/message.cpp:206-213 | refusals end the loop exactly when the int overflows, and no byte has been sent then |
| EndToEnd.MoveKeepsInv | src/message.cpp:156-214 | every access of either thread keeps the invariant of the whole system |
| EndToEnd.MessagesArriveInOrder | src/message.cpp:156-214 | in every interleaving, with a disconnect between messages, no call fails, the received messages are the first of those handed over, frame for frame, every byte is in exactly one place, and after a reported loss of connection every message handed over has been received |
| EndToEnd.LostAfterTheLast | src/common/inproc.cpp:136-145 | when a read reports the loss of the connection, the sender has closed its end, every message handed over has been received and none is half read |
| Delivery.StoppedMeansDelivered | src/common/inproc.cpp:132-187 | if nothing but spurious wake-ups and closing can happen, every message handed over has been received, and that is every message unless the sender has closed: no deadlock |
| Delivery.EveryMoveWorks | src/common/inproc.cpp:132-187 | every move that is not a spurious wake-up reduces the remaining work |
| Delivery.EverythingIsDelivered | src/message.cpp:156-214 | a run is bounded by the messages' size and its spurious wake-ups, and a run that cannot go on has delivered all messages handed over, all messages if the sender has not closed |
| Delivery.Finish | src/message.cpp:156-214 | from every state of the system a run without spurious wake-ups leads to the end, where everything is delivered |
| Delivery.DeliveredIffWhole | src/message.cpp:201-214 | if each message's announced part fits the ring: all messages can be received if and only if each is below 2 GiB, and every run that cannot go on with the sender's end open has received all of them if and only if that is so |
| Delivery.EndIsReported | src/common/inproc.cpp:136-212 | for any messages that fit there is a run in which all are received, the sender disconnects, and the receiver learns of it |
| SizeLimit.FailsIffTooLong | src/message.cpp:201-214 | for any list of messages, a run over a connected line can meet an error if and only if for some message sendMessage asks for as many bytes as the ring has cells or more |
| SizeLimit.OversizedSendsNothing | src/message.cpp:205-212 | in every run that hands over such a message, until the int overflows: the loop's state is that of as many refusals as results were collected, no byte is written, and sendMessage does not return |
| SizeLimit.OversizedReturnsUnsent | src/message.cpp:205-213 | a run that then ends the loop by overflow, with sendMessage returning although nothing was written |

## Left out

- MessageProtocol.SendMessage: the source's loop need not end, so the method follows it for a given number of writes; bytes taken from outside the buffer have no known value and are not recorded.
- MessageProtocol.ReadMessage: the three inner loops of the source are one method, `Fill`; results of a line stay below 2^31, since the source keeps them in an int.
- SequentialRing.RingBuffer.constructor: on a ring without cells the source's size computations wrap around; nothing is stated about using one.
- Codec.ReadMessage: the first four bytes must be readable, since the source reads the count unconditionally.
- Delivery.EverythingIsDelivered: covers a line without a receive timeout and messages below 2 GiB; resuming `readMessage` after a timeout in the middle of a message is outside the protocol's guarantee.
- LockFreeRing.QueueWriteIsAllOrNothing: the sleeping of the lock-free queue is a repeated evaluation of its predicate; its wake-ups are not modelled, nor are its read and readWithTimeout.
- EndToEnd.MessagesArriveInOrder: the sender disconnects between messages only; a disconnect while it is in a write, by another thread or by the receiver, is covered for the queue alone (`Disconnect.WaitingWriteNeverLost`).
- Clocks: a timeout is a wake-up, or an answer "time is up", that may come at any time; elapsed times are not computed.
- `InprocLineFactory::~InprocLineFactory`, which clears the global lists without the lock, and the destructors of queues.
- Destruction of a line that is not connected: the source dereferences a null pointer there.
- Message frames of type string: the conversion copies the bytes.
- POSIX and Windows sockets, pipes, the select poller, the line manager, the C, Go and Python bindings: wrappers over system calls or simple dispatch.
- 64-bit wrap-around of sizes and indices, and failure to allocate memory.
