# A verified model of the iak network and logging library

The C++ library offers a non-blocking TCP stack over `epoll`, an asynchronous logger, calendar and
time-zone arithmetic, a binary heap and a number printer. This project models the parts with the hardest
state and arithmetic in Dafny and proves what they are for: byte streams stay in order through chains of
ring buffers, no log line is lost or reordered between producers and worker, no wakeup of an event loop is
lost, calendar conversions are inverse to each other, and a reused descriptor never collides.

`dafny verify dfyconfig.toml` checks everything.

## How the model is built

Code that works by changing objects is modelled by classes whose methods change the same fields in the same
branches; each method is proved against a function on values, and the protocol and whole-run theorems are
proved about those functions. What other threads, the kernel and user callbacks do is an arbitrary sequence
of steps or an argument, so a theorem about runs covers every interleaving and every partial transfer.

| file | content |
|---|---|
| `Rings.dfy` | one ring buffer and a chain of them as values; FIFO consumption |
| `ReadSpec.dfy`, `WriteSpec.dfy` | the read and write sides as state machines over chains; the code as written against FIFO order |
| `Buffer.dfy` | buffers, the pool and its account of live buffers, copying into and out of a ring |
| `OnWriteSpec.dfy` | `onWrite` as written, as a whole call, and exactly when it keeps the order |
| `WriteRunSpec.dfy` | the write side as written over runs of `send`, `writeData` and `onWrite`, and exactly which of them keep the order |
| `BufferChain.dfy` | the linked list of one direction: `PeekData`, `ReadData`, `onRead`, `writeData`, `onWrite`, `send` |
| `TcpConnection.dfy` | both directions on one pool, whole runs over the linked buffers, the destructor |
| `LogSpec.dfy` | the logging protocol as interleaved steps over any number of loggers; rolling of files |
| `AsyncLogger.dfy`, `AsyncLogging.dfy` | loggers with their buffer objects, the shared list |
| `LogSystem.dfy` | all loggers, the list and the worker as objects, under every interleaving |
| `Calendar.dfy`, `TimeZone.dfy` | Julian days, UTC fields, local time by a transition table; C++ division written out |
| `LoopSpec.dfy`, `EventLoop.dfy` | the event loop protocol with its eventfd; channels and loop as objects |
| `LoopSystem.dfy` | a loop with all its channels as objects, under every interleaving |
| `TcpServer.dfy` | the registry of connections under descriptor reuse |
| `MinHeap.dfy` | the heap over any strict weak order |
| `LogStream.dfy` | in-place integer printing into a bounded buffer |
| `Arith.dfy`, `Seqs.dfy` | truncating division and facts about sequences |

## Where the code and its intent part

Three places in `net/TcpConnection.cpp` do not keep byte order or the ring invariant. Each is modelled as
written, with the exact condition under which one call and a whole run are right and a concrete input where
they are not; a repaired form then carries the theorems about runs that are right without a condition.

* `ReadData` leaves `count` alone when a read ends inside a later buffer (lines 201-204). As written:
  `BufferChain.ReadData`, `ReadAsWrittenExactly`, `ReadAsWrittenKeepsInvariantIff`,
  `ReadAsWrittenBreaksInvariant`; over runs `AsWrittenRunOkIff`. Repaired: `ReadDataRepaired`, which reduces `count` by `pop` when another
  buffer became the head and its `pop` moved.
* `onWrite` goes round again after everything it offered was accepted, although the head is then empty
  (lines 381-443; emptiness is tested only at 377), and keeps a drained `next` as the head (423-426). As
  written, the whole call: `BufferChain.OnWriteUnrepaired` and `OnWriteKeepsOrderIff`, which gives the exact
  condition on the buffers' fields and the kernel's answers, and `OnWriteAlwaysRightIff`: whatever is queued,
  some answers break the order. `OnWriteResendsStaleBytes` and `OnWriteResendsSecondBuffer` are inputs that
  fail. Repaired: `FlushRound` releases or resets a drained
  head, and `OnWrite` also stops when nothing is queued.
* `send` writes to the socket although bytes are queued (lines 111-119). As written: `BufferChain.Send`,
  `SendKeepsOrderIff`. Repaired: `SendInTurn`.

The write side as written is also followed over runs that mix `send`, `writeData` and `onWrite`, drained
heads and all, by `BufferChain.RunUnrepaired` on the linked buffers; `WriteRunKeepsOrderIff` and
`ConnectionKeepsOrderIff` say exactly which runs keep the bytes in order.

Two smaller findings are stated as theorems as well: `weekDay` is negative for most days before Julian day
-1 (`WeekDayInRangeIff`), and `fromLocalTime` inverts `toLocalTime` for all times exactly when every step of
the clock back is by 3600 seconds and ends daylight time (`LocalRoundTripIff`); a step back of an hour from
one standard time to another fails (`StandardChangeComesBackLate`).

## Model

| member | source | states |
|---|---|---|
| Rings.ContentAt | net/TcpConnection.cpp:125-143 | the i-th byte of a ring is at `(pop + i)` around the end of the storage, also when `push` equals the capacity |
| Rings.StoredAt | net/TcpConnection.cpp:240-260 | storing from `push` on, wrapped or not, puts every new byte behind the old ones and moves none of those |
| Rings.ScatterIsStored | net/TcpConnection.cpp:294-317 | the pieces listed of the tail, in each branch, are inside the storage and are all its free bytes, and what `readv` scatters through them in order is stored behind the content |
| Rings.ExtendContent | net/TcpConnection.cpp:294-340 | adding bytes to a ring in any wrap state keeps the ring invariant and appends exactly them |
| Rings.AdvanceContent | net/TcpConnection.cpp:177-186 | taking part of a ring's bytes keeps the invariant and drops exactly the oldest |
| Rings.HeldIsLength | net/TcpConnection.cpp:229-229 | on every well-formed chain the sum of the counts is the number of bytes in its stream |
| Rings.ConsumeIsFifo | net/TcpConnection.cpp:187-227 | consuming any amount from any well-formed chain removes exactly that prefix of the stream and keeps the chain invariant |
| ReadSpec.FillAppends | net/TcpConnection.cpp:290-347 | a `readv` of any size that fits the iovecs keeps the chain invariant and appends exactly the delivered bytes |
| ReadSpec.ReadAsWrittenExactly | net/TcpConnection.cpp:169-231 | `ReadData` as written equals FIFO consumption unless the read ends strictly inside a later buffer, and then only that buffer's `count` is too large, by `pop` |
| ReadSpec.ReadAsWrittenKeepsInvariantIff | net/TcpConnection.cpp:201-204 | the ring invariant survives `ReadData` as written exactly when the read does not end strictly inside a buffer behind the original head |
| ReadSpec.ReadAsWrittenBreaksInvariant | net/TcpConnection.cpp:201-204 | a concrete chain and size after which the invariant is gone |
| ReadSpec.RepairCase | net/TcpConnection.cpp:201-218 | that case is recognised afterwards by a new head with nonzero `pop` |
| ReadSpec.AsWrittenStepOkIff | net/TcpConnection.cpp:169-231 | with `ReadData` as written, one event keeps FIFO order and all invariants exactly when it is no such read |
| ReadSpec.AsWrittenRunOkIff | net/TcpConnection.cpp:169-231 | over every run of deliveries, peeks and reads with `ReadData` as written, FIFO order and all invariants hold after every event exactly when no read ends strictly inside a later buffer of the FIFO chain before it |
| ReadSpec.ReadFifoOverRuns | net/TcpConnection.cpp:169-231 | over any interleaving of deliveries of every size, peeks and reads, bytes returned followed by bytes held are the bytes held at first and those delivered, and the chain invariant holds |
| ReadSpec.OnReadFifo | net/TcpConnection.cpp:285-374 | one `onRead`, with the reads its callbacks make, is such a run and keeps FIFO order and all invariants |
| ReadSpec.OnReadEnds | net/TcpConnection.cpp:290-372 | for every script there is exactly one last round: the i-th is reached exactly when each before it brought a byte for every free one of the tail and the next buffer, and what the call does is what the rounds up to the last do |
| ReadSpec.ReadsAreServed | net/TcpConnection.cpp:169-231 | on every chain any series of reads returns and leaves what the same reads do on a plain queue of bytes, refusals included |
| ReadSpec.RoundServed | net/TcpConnection.cpp:290-351 | so does a round of `onRead`: what arrived goes in as far as tail and next buffer have room, and if that is anything the callback's reads come out |
| ReadSpec.TakeServed | net/TcpConnection.cpp:169-231 | so does a single `ReadData`, which takes nothing at all if it asks for nothing or more than there is |
| ReadSpec.ReadChainBound | net/TcpConnection.cpp:311-344 | the read side holds at most `readSize_ / capacity + 3` buffers, the spare one included |
| ReadSpec.NextPiece | net/TcpConnection.cpp:148-163 | copying on from a later buffer at offset 0 continues the stream where the copy before it ended, whatever part is used |
| WriteSpec.AppendIsFifo | net/TcpConnection.cpp:233-283 | `writeData` of any size in any wrap state keeps the chain invariant and appends exactly its argument |
| WriteSpec.SpillAppends | net/TcpConnection.cpp:266-279 | the loop over new buffers appends exactly the rest, full buffers with `push` 0 included |
| WriteSpec.GatherIsPrefix | net/TcpConnection.cpp:382-406 | on a nonempty head the iovecs cover exactly the head's and the next buffer's bytes, the stream's prefix of `size` bytes |
| WriteSpec.RepairedPass | net/TcpConnection.cpp:420-433 | with a drained head finished, a round removes exactly the accepted prefix |
| WriteSpec.OnWriteResendsStaleBytes | net/TcpConnection.cpp:381-443 | a concrete chain whose bytes are all accepted and then offered again |
| OnWriteSpec.RightRound | net/TcpConnection.cpp:382-433 | a round of `onWrite` as written in which no stale byte is accepted sends a prefix of the stream and leaves the rest, also on a drained head |
| OnWriteSpec.FirstAnswer | net/TcpConnection.cpp:408-443 | on a nonempty head an error ends `onWrite` as written with nothing sent, an answer short of `size` with exactly that prefix sent, and a full one sends `size` bytes and goes round again |
| OnWriteSpec.FlushAsWritten | net/TcpConnection.cpp:381-443 | whatever the kernel answers, the loop as written stays on chains on which every index is in bounds, and takes nothing back that it sent |
| OnWriteSpec.OnWriteKeepsOrderIff | net/TcpConnection.cpp:376-444 | on every well-formed chain and every chain that an earlier `onWrite` left, and for every series of answers: for all contents the bytes sent and left are those queued, in order, exactly when in no round that starts on an empty head stale bytes are accepted |
| OnWriteSpec.OnWriteAlwaysRightIff | net/TcpConnection.cpp:376-444 | `onWrite` as written keeps the order for all contents and all answers of the kernel exactly when nothing is queued |
| OnWriteSpec.OnWriteResendsSecondBuffer | net/TcpConnection.cpp:423-439 | two full buffers whose second is sent twice, after a `writev` of nothing in between |
| WriteSpec.SendInOrder | net/TcpConnection.cpp:111-119 | `send` keeps the order of all bytes when nothing is queued or nothing is accepted directly |
| WriteSpec.SendOvertakes | net/TcpConnection.cpp:111-119 | in every other state some payload of the accepted length overtakes queued bytes |
| WriteSpec.SendKeepsOrderIff | net/TcpConnection.cpp:111-119 | `send` as written keeps the order for all payloads exactly when the socket accepts nothing or nothing is queued |
| WriteSpec.FlushAll | net/TcpConnection.cpp:376-444 | one `onWrite`, repaired, whatever each `writev` accepts: output plus chain is what output plus chain was |
| WriteSpec.FirstAnswerRepaired | net/TcpConnection.cpp:376-444 | the same of the repaired call, which also ends when nothing is queued |
| WriteSpec.StepConserves | net/TcpConnection.cpp:111-119 | one operation of the write side: bytes out and bytes left queued are the bytes queued and the new payload, in order |
| WriteSpec.WriteFifoOverRuns | net/TcpConnection.cpp:111-444 | over any interleaving of `send`, `writeData` and `onWrite` and any partial writes, socket output followed by the chain is the submitted stream |
| WriteRunSpec.AppendKeepsQueue | net/TcpConnection.cpp:233-283 | `writeData` appends exactly its argument also behind a drained head and to a lone buffer with `pop` at the capacity, the chains that `onWrite` as written leaves |
| WriteRunSpec.FlushKeepsQueue | net/TcpConnection.cpp:381-443 | whatever the kernel answers, what `onWrite` as written leaves of such a chain is such a chain again |
| WriteRunSpec.SendTransfers | net/TcpConnection.cpp:111-119 | on every chain `send` as written sends exactly what `write` accepted and queues exactly the rest behind what was there, an error counting as nothing and a larger answer as all |
| WriteRunSpec.RepairedTransfers | net/TcpConnection.cpp:111-119 | the repaired one does that on an empty queue and on any other queues all |
| WriteRunSpec.WriteQueues | net/TcpConnection.cpp:233-283 | `writeData` as an event sends nothing and queues exactly its argument |
| WriteRunSpec.StepBalance | net/TcpConnection.cpp:111-444 | no operation as written takes back what was sent or makes a queued byte disappear: at worst bytes are sent again |
| WriteRunSpec.StepShape | net/TcpConnection.cpp:111-444 | which buffers an operation as written fills, advances and releases, and whether it breaks the order, depends on sizes and the kernel's answers only |
| WriteRunSpec.WriteRunKeepsOrderIff | net/TcpConnection.cpp:111-444 | the write side as written, from every chain it can leave and over every run of `send`, `writeData` and `onWrite`: for all contents the bytes sent and left over are those queued and handed over, in order, exactly when in the run no `send` has bytes accepted while others are queued and in no `onWrite` stale bytes are accepted |
| WriteRunSpec.ConnectionKeepsOrderIff | net/TcpConnection.cpp:81-89 | the same over the whole life of a connection, from its first empty buffer on |
| Buffers.BufferPool.Take | net/Buffer.h:52-61 | a new, empty, unlinked buffer of the pool's capacity joins the live ones |
| Buffers.BufferPool.Put | net/Buffer.h:47-50 | only a live buffer can be put, once |
| Buffers.BufferPool.PutNext | net/Buffer.h:34-38 | returns the link read before the buffer goes back |
| Buffers.BufferPool.TakeNext | net/Buffer.h:41-45 | links the new buffer behind the given one |
| Buffers.CopyContent | net/TcpConnection.cpp:137-143 | the one or two copies out of a ring are a prefix of its bytes, oldest first |
| Buffers.FillBuffer | net/TcpConnection.cpp:293-340 | `readv` through the pieces that `onRead` lists of the tail, and the `push`/`count` update, extend the ring by exactly the bytes |
| Buffers.WriteBuffer | net/TcpConnection.cpp:239-263 | the four copy branches of `writeData` extend the tail by exactly the bytes |
| Buffers.ReleasedTransitive | net/Buffer.h:34-38 | releases add up: what was put back is a prefix of the list, each buffer once, and the rest stays live |
| BufferChains.BufferChain.constructor | net/TcpConnection.cpp:87-89 | one live empty buffer, head and tail at once |
| BufferChains.BufferChain.PeekData | net/TcpConnection.cpp:121-167 | fails exactly on a null destination, size 0 or more than is held; otherwise copies the stream's prefix; nothing changes |
| BufferChains.BufferChain.PeekLater | net/TcpConnection.cpp:144-164 | the loop over later buffers completes the prefix, following `next` |
| BufferChains.BufferChain.ReadData | net/TcpConnection.cpp:169-231 | as written: same bytes as `PeekData`, `readSize_` reduced, used-up buffers put back once each, the tail kept, and the chain that `ReadAsWritten` describes |
| BufferChains.BufferChain.ReadRound | net/TcpConnection.cpp:199-220 | one round of its loop, in all four branches |
| BufferChains.BufferChain.ReadDataRepaired | net/TcpConnection.cpp:169-231 | with the missing decrement: all invariants kept, the prefix returned and consumed, the tail kept |
| BufferChains.BufferChain.FinishHead | net/TcpConnection.cpp:222-226 | a used-up head is reset when it is the tail and put back otherwise |
| BufferChains.BufferChain.EnsureSpare | net/TcpConnection.cpp:311-314 | an unused `next` is reused, otherwise one is taken from the pool |
| BufferChains.BufferChain.Receive | net/TcpConnection.cpp:291-347 | one round of `onRead`: what fits the pieces listed of the tail and the next buffer is transferred and the chain becomes that of `Fill`, no other buffer of the pool changes hands |
| BufferChains.BufferChain.Callback | net/TcpConnection.cpp:349-351 | any series of `ReadData` calls from the receive callback has on the linked buffers the effect of the same reads on values |
| BufferChains.BufferChain.OnReadRound | net/TcpConnection.cpp:290-372 | one round with its callback is a delivery of what fits followed by the callback's reads; the loop goes on exactly when everything listed was filled |
| BufferChains.BufferChain.OnRead | net/TcpConnection.cpp:285-374 | the whole loop with its error and end-of-stream exits equals `OnReadRun` on the linked buffers, in what is delivered, returned and left; it makes one round after the other as long as each fills all that it listed, and it closes exactly when such a round is reached in which the peer has closed, never on an error |
| BufferChains.BufferChain.ReadEventStep | net/TcpConnection.cpp:169-374 | any operation of the read side does on the linked buffers what `InputStep` says: chain, delivered and returned bytes are determined by the event |
| BufferChains.BufferChain.WriteData | net/TcpConnection.cpp:233-283 | fails exactly on null or empty data; otherwise the linked chain becomes that of `Append`, with fresh buffers only |
| BufferChains.BufferChain.WriteSpill | net/TcpConnection.cpp:266-279 | the loop over new buffers, which become the tail one after the other |
| BufferChains.BufferChain.OfferedIsGather | net/TcpConnection.cpp:382-406 | on the linked buffers, whatever their wrap state, the bytes behind the iovecs are those of the head's segments and the next buffer |
| BufferChains.BufferChain.WriteRound | net/TcpConnection.cpp:399-433 | one round as written on any chain it can meet: the branches and the buffer put back, the tail kept |
| BufferChains.BufferChain.RoundUnrepaired | net/TcpConnection.cpp:382-443 | one round as written with its `writev`: what was listed and accepted, the chain after it, `writeSize_`, and whether the loop goes on |
| BufferChains.BufferChain.OnWriteUnrepaired | net/TcpConnection.cpp:376-444 | the whole call as written equals `OnWriteAsWritten` on the linked buffers, puts used-up buffers back once each and never releases the tail |
| BufferChains.BufferChain.FlushRound | net/TcpConnection.cpp:381-443 | one repaired round: exactly the accepted prefix leaves the chain and is what was sent |
| BufferChains.BufferChain.OnWrite | net/TcpConnection.cpp:376-444 | the repaired loop over any series of `writev` results equals `FlushAll` on the linked buffers, never releases the tail, and leaves the channel writeable exactly when it was and nothing is left |
| BufferChains.BufferChain.Send | net/TcpConnection.cpp:111-119 | as written: what is sent is what `write` accepted, nothing on an error and never more than the data, and exactly the rest goes behind the queue |
| BufferChains.BufferChain.SendInTurn | net/TcpConnection.cpp:111-119 | repaired: the same on an empty chain; on any other nothing is sent and all is queued |
| BufferChains.BufferChain.WriteEventStep | net/TcpConnection.cpp:111-444 | any operation of the write side does on the linked buffers what `WriteStep` says: chain and bytes sent are determined by the event |
| BufferChains.BufferChain.WriteEventUnrepaired | net/TcpConnection.cpp:111-444 | any operation of the write side as written does on the linked buffers what `StepAsWritten` says, on every chain the others can leave |
| BufferChains.BufferChain.RunUnrepaired | net/TcpConnection.cpp:111-444 | so does every sequence of them: chain and bytes sent are those of `RunAsWritten`, and no other buffer of the pool changes hands |
| BufferChains.BufferChain.SpaceBound | net/TcpConnection.cpp:311-344 | the linked list has at most `readSize_ / capacity + 3` buffers |
| BufferChains.BufferChain.Destroy | net/TcpConnection.cpp:36-44 | every buffer of a list, the spare one too, is put back exactly once |
| TcpConnections.TcpConnection.constructor | net/TcpConnection.cpp:81-89 | two separate empty chains on one pool |
| TcpConnections.RunKeepsOrder | net/TcpConnection.cpp:111-444 | over every run bytes returned and held are those delivered, and bytes sent and queued those submitted, in both directions at once |
| TcpConnections.DirectionsApart | net/TcpConnection.cpp:111-444 | however the events of the two directions are interleaved, each direction ends as if it had had its own events alone |
| TcpConnections.TcpConnection.StepInput | net/TcpConnection.cpp:169-374 | an event of the read side does what `InputStep` says and leaves the write side alone |
| TcpConnections.TcpConnection.StepOutput | net/TcpConnection.cpp:111-444 | an event of the write side does what `WriteStep` says and leaves the read side alone |
| TcpConnections.TcpConnection.Step | net/TcpConnection.cpp:111-444 | any event takes the linked buffers of both directions to the state that `NextState` says and touches no other connection's buffers |
| TcpConnections.TcpConnection.Run | net/TcpConnection.cpp:111-444 | over any sequence of events the linked buffers, and all that is delivered, returned and sent, are those of `RunEvents`; both directions are FIFO and every taken buffer is in a chain or was put exactly once |
| TcpConnections.TcpConnection.Destroy | net/TcpConnection.cpp:36-46 | afterwards the pool has no live buffer of this connection |
| LogSpec.AppendFileWrites | log/AsyncLogger.cpp:172-220 | whatever the clock reads, the concatenated files grow by exactly the appended text, no two files are opened at the same time, and the period on record is that of the last roll |
| LogSpec.RollsIff | log/AsyncLogger.cpp:172-197 | a file is opened exactly when the clock is past the last roll and the current file has passed the roll size, or the count was above 1024 and it is another day than at the last roll; otherwise only the current file's text and the count change, and the count is as in the source |
| LogSpec.StaysInFile | log/AsyncLogger.cpp:172-197 | over any number of appends, while all of it fits the file and every check of the clock falls on the day of the last roll, no file is opened and the text is in the one there was |
| LogSpec.FilesBounded | log/AsyncLogger.cpp:172-189 | over any run of appends with an advancing clock the current file stays within the roll size and no file exceeds it by more than one append |
| LogSpec.PeriodRolls | log/AsyncLogger.cpp:178-187 | once the clock shows another period, at most 1025 further appends go to the old file |
| LogSpec.WriteFromAppends | log/AsyncLogger.cpp:154-156 | the worker's loop over the buffers is such a run of appends |
| LogSpec.LinePlaced | log/AsyncLogger.cpp:108-124 | a line goes behind the current buffer's text if a byte of room remains; otherwise that buffer is queued and the line starts the next one, which is used up |
| LogSpec.SwapMoves | log/AsyncLogger.cpp:126-139 | all that was queued and a nonempty current buffer are there to be written, and the spares have taken the places that became free |
| LogSpec.SwapOk | log/AsyncLogger.cpp:126-139 | from the idle state the swap takes no null spare and leaves as many recyclable buffers as spares handed out |
| LogSpec.SwapAllOk | log/AsyncLogging.cpp:49-58 | the loop swaps every registered logger once and no other |
| LogSpec.NextKeepsInv | log/AsyncLogger.cpp:108-170 | no step of producers or worker dereferences a null buffer or the back of an empty vector, and the invariant is kept |
| LogSpec.NextConserves | log/AsyncLogging.cpp:26-58 | no step loses, repeats or reorders a byte of any logger |
| LogSpec.LogConservation | log/AsyncLogging.cpp:26-58 | under every schedule of any number of producers and the worker, a logger's files followed by its buffers are all appended lines shorter than a buffer, in lock order |
| LogSpec.LoggerOverRuns | log/AsyncLogging.cpp:26-58 | in every reachable state the files are a prefix of what was appended, a logger is registered once exactly when it is not empty, occurs at most once in a batch, and has both empty spares when the next batch is collected |
| LogSpec.RecycledIsWritten | log/AsyncLogger.cpp:157-167 | in every reachable state in which the worker recycles, every line appended to its logger is in the files or in a buffer filled since: no buffer is reset before its bytes are written |
| LogSpec.WorkerAlone | log/AsyncLogger.cpp:141-170 | the worker's steps on a logger amount to `appendBuffers_unlocked` done in one go |
| LogSpec.RoundWritesAll | log/AsyncLogging.cpp:36-58 | from every state in which the worker waits, its next round, left alone, brings all that was appended before to every logger into the files |
| AsyncLoggers.LogBuffer.Append | log/AsyncLogger.cpp:33-38 | text that leaves no room for one more byte is dropped whole |
| AsyncLoggers.AsyncLogger.constructor | log/AsyncLogger.cpp:73-96 | four distinct empty buffers and an open file |
| AsyncLoggers.AsyncLogger.AppendToBufferLocked | log/AsyncLogger.cpp:108-124 | the buffers hold what `AppendLine` says, stay pairwise distinct, and only a fresh one joins |
| AsyncLoggers.AsyncLogger.SwapBuffersToWriteLocked | log/AsyncLogger.cpp:126-139 | the buffers are only moved, none is lost or duplicated, and the state is that of `Swap` |
| AsyncLoggers.AsyncLogger.AppendBuffersUnlocked | log/AsyncLogger.cpp:141-170 | done in one go: all texts go to the files in order, recycled buffers are reset after that, no buffer is held twice |
| AsyncLoggers.AsyncLogger.WriteBuffer | log/AsyncLogger.cpp:172-189 | whatever the clock reads and whether a file is rolled or not, the files together gain exactly the buffer's text, a file is opened exactly under the condition of size, count and day, and the buffers stay as they are |
| AsyncLoggers.AsyncLogger.AppendUnlocked | log/AsyncLogger.cpp:172-197 | the branches of `append_unlocked` and `rollFile` amount to `AppendFile`, of which `RollsIff` says when it opens a file |
| AsyncLoggings.AsyncLogging.Append | log/AsyncLogging.cpp:26-34 | the logger joins the list exactly when it was empty |
| AsyncLoggings.AsyncLogging.SwapAsyncLoggersToWrite | log/AsyncLogging.cpp:49-58 | the list is taken over whole and each logger on it is swapped once |
| LogSystems.Start | log/AsyncLogger.cpp:73-96 | fresh loggers hold four buffers each, no two the same |
| LogSystems.LogSystem.Append | log/AsyncLogging.cpp:26-34 | a producer's step takes the objects where `LogSpec.Next` says, changes no other logger, and no buffer comes to be held twice |
| LogSystems.LogSystem.CollectLoggers | log/AsyncLogging.cpp:49-58 | so does the worker's step under the mutex |
| LogSystems.LogSystem.Work | log/AsyncLogger.cpp:154-167 | so does each of its steps outside it: writing one buffer, recycling, clearing |
| LogSystems.LogSystem.Run | log/AsyncLogging.cpp:26-58 | under every interleaving of any number of producers with the worker's steps the objects follow `LogSpec.Run` without a null or empty-vector access, and in every state no buffer is held twice, by one logger or by two |
| Calendar.NextDayIsPlusOne | base/Date.cpp:10-16 | the Gregorian calendar's next day always has the next Julian day number |
| Calendar.DateOfDay | base/Date.cpp:18-30 | every day number from -32044 on gives a valid date whose number it is |
| Calendar.DateOfDayIff | base/Date.cpp:18-30 | before that bound truncating division gives no valid date |
| Calendar.DayOfDate | base/Date.cpp:10-30 | every valid date from 1 March -4800 on comes back: the two conversions are mutually inverse |
| Calendar.EarlierIsLess | base/Date.h:65-67 | day numbers compare as the dates do |
| Calendar.NoOverflowIff | base/Date.cpp:18-30 | no intermediate of `getYearMonthDay` leaves 32 bits exactly while `julianDayNumber + 32044 <= 536870911` |
| Calendar.NoOverflowBack | base/Date.cpp:10-16 | nor does one of `getJulianDayNumber` on the dates up to that bound |
| Calendar.WeekDaysCycle | base/Date.h:58-61 | weekdays count on modulo 7 and 1 January 1970 is a Thursday |
| Calendar.WeekDayInRangeIff | base/Date.h:58-61 | the weekday is in 0 to 6 exactly from day -1 on and on every seventh day before |
| TimeZones.UtcRoundTrip | base/TimeZone.cpp:271-307 | every time in the date range, negative ones included, comes back from its UTC fields, which are all valid; the weekday is in 0 to 6 from Julian day -1 on and on every seventh day before, and not otherwise |
| TimeZones.FieldsRoundTrip | base/TimeZone.cpp:271-307 | all valid fields come back from their time |
| TimeZones.FromUtcIncreasing | base/TimeZone.cpp:296-307 | `fromUtcTime` is strictly increasing in the lexicographic order of the fields |
| TimeZones.YearDay | base/TimeZone.cpp:289-292 | from 1 January -4799 on `tm_yday` is the number of days of the earlier months plus the day of the month less one, 365 at most and that only in a leap year |
| TimeZones.UtcFields | base/TimeZone.cpp:274-287 | truncation with its correction is the floor: day, clock fields and weekday are those of the floor day and second |
| TimeZones.LowerBound | base/TimeZone.cpp:205-206 | the first transition not less than the sentry |
| TimeZones.FindsInForce | base/TimeZone.cpp:198-219 | the type found is the one after exactly the transitions not later than the sentry |
| TimeZones.LocalInForce | base/TimeZone.cpp:257-258 | looked up by local time, one transition more counts as past exactly in the repeated time before a step back |
| TimeZones.LocalFields | base/TimeZone.cpp:231-249 | `toLocalTime` gives the UTC fields, weekday and day of the year of the shifted time, and flag, offset and abbreviation of the type in force |
| TimeZones.LocalThereAndBack | base/TimeZone.cpp:231-269 | for every table and time: `fromLocalTime(toLocalTime(t))` is t outside the repeated times, and within one t plus the step back, less 3600 exactly where daylight time ends |
| TimeZones.LocalRoundTripIff | base/TimeZone.cpp:231-269 | for every table whose transitions are further apart than the clock is set back at both ends, all times come back exactly when every step back is by 3600 seconds from daylight to standard time |
| TimeZones.OneChangeRoundTripsIff | base/TimeZone.cpp:259-268 | a table with one change of d seconds back is right for all times exactly when d is not positive, or is 3600 with daylight time ending |
| TimeZones.StandardChangeComesBackLate | base/TimeZone.cpp:259-268 | a step back of an hour between two standard times: the second before it comes back as 3599 |
| TimeZones.RegularIsSpread | base/TimeZone.cpp:173-177 | tables that alternate daylight and standard time, an hour apart and with more than an hour between transitions, are of that kind |
| TimeZones.LocalRoundTrip | base/TimeZone.cpp:231-269 | for every regular table `fromLocalTime` inverts `toLocalTime`, the repeated hour included, and takes 3600 seconds off exactly there on the daylight side |
| TimeZones.LocalRoundTripAlways | base/TimeZone.cpp:231-269 | so for every time |
| TimeZones.OnlyReadingAndFlag | base/TimeZone.cpp:251-269 | `fromLocalTime` looks at date, clock and daylight flag only: whatever else a caller fills in makes no difference |
| TimeZones.TimeOfFields | base/TimeZone.cpp:251-269 | for every table and all valid fields: the reading less the offset in force by local time, and an hour less exactly if the flag is set and the type in force at that time is not daylight time and shows the same hour and minute |
| TimeZones.TimeOfFieldsRegular | base/TimeZone.cpp:251-269 | for every regular table and all valid fields, which time comes out: in the skipped hour the one that reads an hour later, whatever the flag; with the flag set in standard time the daylight pass of a repeated hour, and elsewhere the one that reads an hour earlier; otherwise the one that reads so, in the repeated hour the standard pass |
| TimeZones.CallersLastDaylightSecond | base/tests/TimeZone_test.cpp:147-148 | the last second of daylight time, given by date, clock and flag alone |
| LoopSpec.DispatchesOnce | net/Channel.cpp:73-99 | one callback for each raised event and no other, in the order close, error, read, write |
| LoopSpec.CallsApart | net/Channel.cpp:73-99 | what a callback does to its channel neither sees nor touches raised events |
| LoopSpec.NextKeepsInv | net/EventLoop.cpp:50-110 | every step of every thread keeps the invariants of list, flags, functors and eventfd |
| LoopSpec.NoLostWakeup | net/EventLoop.cpp:50-110 | under every schedule `poll` does not block while a functor whose `runInLoop` returned is pending |
| LoopSpec.FunctorsOnceInOrder | net/EventLoop.cpp:59-92 | functors run, left in the batch and pending are those posted, in order, and a running batch holds only what was posted before its swap |
| LoopSpec.SwapRunsAll | net/EventLoop.cpp:83-92 | the loop's own steps from the swap on run all that was posted by then |
| LoopSpec.ReportedIsDispatched | net/Channel.cpp:45-99 | under every schedule, when the loop is back in `poll`, each channel has got exactly one more callback for each event that the last `poll` reported, that it asks for and whose ready flag was down, and no other |
| LoopSpec.LoopComesBack | net/EventLoop.cpp:50-57 | after every `poll`, whatever that reported, the loop's own steps take it back to `poll` |
| LoopSpec.CallsSteer | net/Channel.h:24-42 | which later events a channel takes up after each of the calls that enable, disable or lower a ready flag |
| LoopSpec.CallThenPoll | net/Channel.h:24-42 | such a call before a `poll` decides whether what that reports to the channel is taken up |
| LoopSpec.ActiveListExact | net/Channel.cpp:45-106 | in every reachable state the rest of the list names each active channel once, raised events imply activity, each is dispatched once before the next `poll`, and close is raised at most once |
| EventLoops.Channel.AddActivedChannel | net/Channel.cpp:101-106 | listed once, and marked |
| EventLoops.Channel.OnClose | net/Channel.cpp:45-50 | if the channel is not closed, it is marked closed, raised and active, and listed unless it is already; otherwise nothing changes |
| EventLoops.Channel.OnError | net/Channel.cpp:52-57 | unless an error is raised already, one is, and the channel is active and listed; otherwise nothing changes |
| EventLoops.Channel.OnRead | net/Channel.cpp:59-64 | if reading is asked for and the channel is neither readable nor raised, it becomes both, active and listed; otherwise nothing changes |
| EventLoops.Channel.OnWrite | net/Channel.cpp:66-71 | if writing is asked for and the channel is neither writeable nor raised, it becomes both, active and listed; otherwise nothing changes |
| EventLoops.Channel.HandleEvents | net/Channel.cpp:73-99 | whatever the callbacks do to the channel between the dispatches, each raised event gets one, in the fixed order, and the flags are as if all of that came after all is cleared |
| EventLoops.EventLoop.RunInLoop | net/EventLoop.cpp:59-65 | amounts to the two steps `Post` and `Signal`, keeps the invariants, and once it returned the loop does not block in `poll` on its functor |
| EventLoops.EventLoop.DoPendingFunctors | net/EventLoop.cpp:83-92 | runs exactly the functors of the swap, in order; what is posted meanwhile stays pending |
| EventLoops.EventLoop.HandleActivedChannels | net/EventLoop.cpp:94-99 | every listed channel is handled once, whatever its callbacks do to it, and the list is empty afterwards |
| LoopSystems.Start | net/EventLoop.cpp:25-37 | a new loop with its wakeup channel and any further channels is in an initial state of the protocol |
| LoopSystems.LoopSystem.Report | net/Channel.cpp:45-71 | an event reported to a channel does to its flags and to the loop's list what `RaiseOn` says and touches no other channel |
| LoopSystems.LoopSystem.Poll | net/EventLoop.cpp:53-53 | the eventfd, if ready, and any reported events in any order take flags and list where `LoopSpec.Next` says |
| LoopSystems.LoopSystem.HandleNext | net/EventLoop.cpp:94-99 | so does handling the next listed channel, or clearing the list at its end |
| LoopSystems.LoopSystem.HandleOne | net/EventLoop.cpp:106-110 | a handled wakeup channel reads the eventfd and can become readable again; any other channel has each raised event dispatched once |
| LoopSystems.LoopSystem.Post | net/EventLoop.cpp:59-63 | pushing a functor is the protocol's step on the objects |
| LoopSystems.LoopSystem.Signal | net/EventLoop.cpp:64-64 | so is the write to the eventfd after it, however much later |
| LoopSystems.LoopSystem.SwapPending | net/EventLoop.cpp:84-88 | so is the swap under the mutex |
| LoopSystems.LoopSystem.RunNext | net/EventLoop.cpp:89-91 | so is running the next functor of the swapped vector, which is the one returned |
| LoopSystems.LoopSystem.Run | net/EventLoop.cpp:50-110 | under every interleaving of the loop with posting threads, kernel and callbacks, the fields of the loop and of every channel follow `LoopSpec.Run` and its invariants hold |
| TcpServers.RegisteredIsOpen | net/TcpServer.cpp:71-71 | a registered descriptor is open, so `accept` cannot return it |
| TcpServers.RemovalFindsItsOwn | net/TcpServer.cpp:83-88 | a queued removal finds its own connection registered |
| TcpServers.NextKeepsInv | net/TcpServer.cpp:59-88 | accepting, holding and dropping references, closing, removing and destroying keep the registry's invariant |
| TcpServers.Run | net/TcpServer.cpp:59-88 | so does every sequence of such steps |
| TcpServers.DescriptorsUnique | net/TcpServer.cpp:59-88 | over all runs `onAccept` overwrites no entry, each removal erases exactly its own, and none is queued twice |
| TcpServers.DealtInTurn | net/TcpServer.cpp:61-65 | over every run the connections are dealt to the loops in turn |
| TcpServers.ClosingReleases | net/TcpServer.cpp:78-88 | once the queued functors have run, a connection that was closed and that nobody holds is out of the registry and destroyed, and its descriptor may be accepted again |
| TcpServers.HoldAndRelease | net/TcpConnection.cpp:36-46 | references of users are counted, and dropping the last one destroys a connection exactly when nothing else refers to it |
| TcpServers.EarlyCloseLosesAnEntry | net/TcpConnection.cpp:36-46 | were the descriptor closed with the connection, four steps from an empty server would lose a live connection; as it is, in every reachable state each connection that is not closed is registered |
| TcpServers.TcpServer.AcceptConnection | net/TcpServer.cpp:59-76 | the registry gains the connection, no entry of another is overwritten if the descriptor is not open, and the loop index stays in range |
| TcpServers.TcpServer.CloseConnection | net/TcpConnection.cpp:446-459 | the first close queues exactly one removal for the connection, which stays registered until that runs |
| TcpServers.TcpServer.Remove | net/TcpServer.cpp:83-88 | exactly the removed connection's own entry goes, every other stays, and the invariant is kept |
| MinHeaps.TopIsLeast | util/MinHeap.h:44-51 | no element of an ordered heap is less than the front |
| MinHeaps.SwapUp | util/MinHeap.h:57-61 | one exchange of `siftup` moves the only disorder to the parent |
| MinHeaps.SwapDown | util/MinHeap.h:72-79 | one exchange of `siftdown` moves the only disorder to the child |
| MinHeaps.MinHeap.Insert | util/MinHeap.h:38-42 | keeps the heap order and adds exactly the element |
| MinHeaps.MinHeap.Remove | util/MinHeap.h:44-51 | keeps the heap order and takes out exactly one element that none is less than |
| MinHeaps.MinHeap.SiftUp | util/MinHeap.h:53-66 | restores the order and permutes |
| MinHeaps.MinHeap.SiftDown | util/MinHeap.h:68-84 | restores the order and permutes |
| MinHeaps.Drain | util/MinHeap.h:44-51 | removing until the heap is empty yields a sorted permutation |
| MinHeaps.RunAll | util/MinHeap.h:38-51 | any sequence of insertions and removals keeps the order and accounts for every element |
| LogStreams.NumeralRoundTrip | log/LogStream.cpp:26-61 | a numeral in any base up to 16 parses back and has no leading zero |
| LogStreams.DecimalRoundTrip | log/LogStream.cpp:26-45 | so does every signed value, the minimum included |
| LogStreams.DecimalLength | log/LogStream.cpp:26-45 | at most 20 characters for every signed or unsigned 64-bit value |
| LogStreams.HexLength | log/LogStream.cpp:47-61 | at most 16 characters for every address |
| LogStreams.ReverseRange | log/LogStream.cpp:43-43 | reverses the range in place and touches nothing else |
| LogStreams.LeastDigit | log/LogStream.cpp:31-35 | the truncating remainder of either sign indexes the right digit, and the quotient has the other digits |
| LogStreams.Convert | log/LogStream.cpp:26-45 | prints the decimal text and its terminator at the given place and touches nothing else |
| LogStreams.ConvertHex | log/LogStream.cpp:47-61 | the same in base 16 |
| LogStreams.GuardSuffices | log/LogStream.h:59-60 | what passes its guard fits with its terminator, so the 32-byte guard keeps every write in bounds |
| LogStreams.PutAllWhole | log/LogStream.h:43-48 | over any run of `<<` each item is printed whole and in order or not at all, and the buffer is never filled to its end |
| LogStreams.NothingDropped | log/LogStream.h:43-48 | a run that ends 32 bytes short of the buffer loses no item |
| LogStreams.PutReadsBack | log/LogStream.cpp:115-139 | what each `<<` appends, read back: a number as its value, an address as its value behind `0x`, a text whole, or nothing at all if the guard fails |
| LogStreams.LogStream.Append | log/LogStream.h:43-48 | appends the text if more room than its length is left |
| LogStreams.LogStream.FormatInteger | log/LogStream.cpp:115-120 | with 32 bytes left, what is appended reads back as the value, for every 64-bit value; otherwise nothing is |
| LogStreams.LogStream.PrintPointer | log/LogStream.cpp:130-139 | with 32 bytes left, `0x` and digits are appended that read back in base 16 as the address; otherwise nothing is |
| LogStreams.LogStream.Reset | log/LogStream.h:41-41 | empties the stream |

## Left out

- ReadDataRepaired, DecrementCount: the repair of `ReadData`; the code as written is `ReadData`.
- FlushRound, OnWrite, FlushAll, RepairedPass: the repairs of `onWrite`; the code as written is `OnWriteUnrepaired`, its rounds `WriteRound`.
- SendInTurn: the repair of `send`; the code as written is `Send`.
- OnWrite: eventual sending is not claimed; `onWrite` can return with `writeable_` set, and `Channel::onWrite` then ignores the next edge. A send callback between two rounds is a sequence of one-round flushes and sends in `WriteFifoOverRuns`.
- PeekData, ReadData: the destination is a returned sequence, and `given` says whether the pointer is null; sizes are unbounded, so the casts to 32 bits for sizes from 2^32 on are not modelled.
- OnRead: a transfer of no bytes that is not the end of the stream stands for a failed `readv`.
- Receive, WriteRound: `readv` and `writev` are arguments that transfer at most what is listed; the guard against a larger result is kept where the code as written can reach it, in `WriteRound`.
- Take: a new buffer's storage is zero instead of undetermined.
- Destroy: the destructor of a connection that was never established reads uninitialised pointers and is not modelled; closing the socket is part of `TcpServer.dfy`.
- sendPack: posting to the loop is the `Post` step of `LoopSpec.dfy`; the lifetime of the connection it binds is not modelled.
- LogBuffer: the bytes are a string field and not an array with a moving pointer.
- AppendBuffersUnlocked: is atomic and of one logger; its interleaving with producers and other loggers is `LogSystem.Work` and `LogSystem.Run`, step by step.
- AppendFileWrites: writes are complete and do not fail; file names, flushing and `lastFlush_` are left out.
- AsyncLogger: the constructor's clock must be past the epoch, since `rollFile` opens no file otherwise.
- Logger shutdown: `stop` and `threadFunc` do not drain pending buffers, so delivery of the last lines is not claimed.
- UtcRoundTrip, LocalRoundTrip: `time_t` is unbounded; the day count must fit the `int` of `toUtcTime`, and `NoOverflowIff` gives the bound of the date conversion.
- LocalRoundTrip: `gmtime_r` and `timegm` are the library's own `toUtcTime` and `fromUtcTime`, as its comments intend; the table is an input, sorted in strictly ascending order as section 3.2 of RFC 8536 demands, and reading the file is left out.
- NoLostWakeup: the eventfd's counter is unbounded; `quit`, the poll timeout's length and removal of a channel while it is listed are left out.
- HandleEvents, HandleActivedChannels: a callback acts on its own channel; what it does to others, and between two channels of the list, is a `UserCall` step of `LoopSystem.Run`.
- HandleNext, HandleOne: what a user's callback does comes as `UserCall` steps after its channel was handled; that this order does not matter is `HandleEvents`.
- DescriptorsUnique: the destructor of the server and the choice of a loop object are left out, as is the thread pool beyond its count.
- MinHeap: the element moves of the vector and its growth are a sequence field; removal from an empty heap is undefined in the source and excluded.
- Floating-point formatting, log levels and macros, `Connector`, `Acceptor`, `TcpClient`, the poller, sockets and the queues in `base`: thin wrappers or system calls.
