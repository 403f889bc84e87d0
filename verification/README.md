# artie-queue: a verified model

artie-queue keeps priority queues in memory over an append-only log. A message is ready, delayed, leased or dead-lettered;
operations append a record under the queue's mutex and wait for its fsync after releasing it; a restart replays the log; a
compaction replaces the log by a snapshot. This project models that core in Dafny and proves what the system promises.

`dafny verify dfyconfig.toml` checks the whole project.

## How the model is laid out

From the bytes up:

- `Bytes`, `Crc32c`, `Record`, `Replay`, `Recovery`: framing, the two CRC-32C checks bit by bit on `bv32`, the replay loop with
  its torn-or-corrupt decision, and what can be recovered from a cut or damaged file.
- `Castagnoli`, `PublishedCrcs`: CRC-32C as section 12.1 of RFC 3720 defines it, a long division of polynomials that shares
  nothing with the program's register, and two published checksums.
- `Messages`, `Codec`, `Wire`, `ConfigCodecs`: configurations and the one comparator, the binary layout of messages and dedup
  entries, and the six record types as frames.
- `HeapOrder`, `Heaps`, `Reordering`: `container/heap` over the three heaps, with the back-pointers each message keeps, and
  what becomes of a heap whose comparator changes under it.
- `QueueState`, `QueueLoops`, `Images`, `Invariants`, `Journal`: the queue's state as a value, its transitions, what a log says
  about a queue whatever the clock reads, and the invariant every operation keeps.
- `Queues`, `Listings`, `Sorting`, `Writers`, `Log`: the program's objects. Each method is the code that runs under one hold of
  the mutex, and is proved against the transitions above: heaps, index, dead-letter list and dedup map all move as the abstract
  state does, and the log's protocol state moves by exactly the records written.
- `Snapshots`, `Restarts`, `Loading`, `Delivery`: compaction and replay preserve meaning; a restart does not reorder.
- `GroupCommit`: the log as a concurrent protocol of appenders, one flusher, waiters and the closer. A flush has a begin and an
  end, with other steps in between.
- `CrashSafety`, `CrashRecovery`: everything interleaved, with crashes at any point and restarts after them.
- `Runs`, `Timer`, `WriteBound`: idempotent enqueue and delivery accounting over whole runs, the wake-up protocol of the
  background timer, and the write amplification of compaction.
- `Linkage`, `DiskFiles`, `Conformance`: the objects and the system are about the same thing. `Conformance` calls the methods
  of `Queue` and of `Log` with the system's state as a ghost, and proves that the call is a run of enabled steps of the system
  that `CrashSafety` proves safe, from a queue just restarted to one that is closed.

Where a contract states a number, a field or a byte, it states it outright: `FirstInLine`, `Boosts`, `FilledIn`, `LaidOut` and
the like are written from what the program promises, and use none of the functions its code is modelled by.

Each critical section is one method and one step, because the program runs it under one mutex. Waiting, flushing and fsync are
separate steps, interleaved freely.

## Assumptions

- Time is an integer count of nanoseconds that never decreases, not even across a restart, and fits the 64 signed bits the
  codec stores. Replay reads its clock once per record.
- Message ids never repeat. They are random in the program.
- A message fits one record of 64 MiB, its id and DedupID fit a 16-bit length, attempts fit 32 bits, the settings fit the
  program's integers, those in milliseconds also as nanoseconds, and the sequence counter stays below 2 to the 64th. `Codec`
  and `Replay` prove these conditions to be exactly what the formats need; the HTTP layer bounds payload and DedupID
  (`internal/api/server.go:119-131`), and the queue itself checks neither.
- A crash leaves the synced bytes of the log and any byte-prefix of the one write in progress. After a rename, and until the
  directory is fsynced, it may leave either file under the name. When only the process is killed, what it had written is
  still in the file at the next start though no fsync has made it safe; `Open` does not fsync a file it need not truncate, so
  such recovered records stay in doubt, for one more crash to take, until the next fsync (`sure` in `GroupCommit.LogState`).
- Configurations survive their JSON encoding (`Wire.Faithful`). That some codec does is proved by exhibiting one,
  `ConfigCodecs`; that the JSON one does is assumed.
- `Dequeue`, `Peek` and `Compact` are given distinct sequence numbers, dedup entries filed under their own ids and a ready heap
  in order; `Conformance` calls them without assuming any of it, since every state of the system has the first two
  (`Journal.ReachableIsOrderly`) and every call keeps the third.
- During one method of `Queue` the log moves only by that method's own appends. In `CrashSafety` the flusher's steps fall
  between any two of them.

## Where the code and its promises differ

- A payload above the record limit is accepted by `Append` and makes the log unreadable afterwards: `Replay.ParseEncoded` proves
  that the reader accepts an encoded record if and only if its payload is within the limit and its type is known.
- A queue created with a `NextSeq` in its configuration runs from 1 but is replayed from that number:
  `Restarts.ReplayedCounterAgrees` gives the exact condition, `Restarts.CreatedWithCounterDiffers` an input that fails it.
  Compacting such a queue loses the carried number, if it is above every number handed out:
  `Restarts.CompactionPreservesMeaning` says exactly when, `Restarts.CompactionLosesACarriedCounter` gives an input. Queues
  without a carried number, and queues once restarted or compacted, are clear of this for good.
- A duplicate `Enqueue` is answered without waiting for the first one's record: a crash may then leave a queue that knows
  neither the message nor its DedupID. `CrashRecovery.DuplicateAnswerCanBeLost` is an input that shows it, on any new queue;
  `CrashRecovery.RecordSurvivesIffDurable` says exactly which records a crash cannot take.
- The timer can be armed up to one millisecond past the next event, because shorter waits are raised to one millisecond:
  `Timer.LateByTheClamp` says exactly when.
- `apply` takes over the settings of any META record and does not rebuild the ready heap. A change of the comparator can leave
  it out of order, and then `Dequeue` need not hand out the first message: `Reordering.SafeIffSameComparator` proves that
  exactly the changes that leave the comparator alone are safe for every heap, by two messages that show it for any other;
  `Reordering.OrderingChangeHurts` and `Reordering.OrderingChangeHurtsTies` give the exact condition for a given heap. The
  program writes META only as the first record, which is harmless (`Loading.FirstMetaIsHarmless`).
- `wal.Open` fsyncs the queue's directory but not the one above it, so the directory entry of a new queue is taken to be durable.

## Model

| member | source | states |
|---|---|---|
| Crc32c.StepInjective | internal/wal/record.go:104-106 | One step of the CRC loses nothing: equal results mean that states and bytes were equal together. |
| Crc32c.OneByteChangesChecksum | internal/wal/record.go:135-143 | Changing one byte of any data to another value always changes its CRC-32C. |
| Crc32c.UpdateAppend | internal/wal/record.go:139-143 | Updating over the framing fields and then over the payload gives the checksum of both together. |
| Castagnoli.ChecksumIsCrc | internal/wal/record.go:104-106 | The checksum of any data is the remainder of the textbook long division of the message, highest power first, by the Castagnoli polynomial 0x1EDC6F41, complemented at the start and at the end. |
| Castagnoli.StoredCrc | internal/wal/record.go:135-143 | Stored in four bytes, least significant first, the checksum is that remainder bit for bit. |
| PublishedCrcs.DigitsChecksum | internal/wal/record.go:104-106 | The checksum of "123456789" is the published 0xE3069283. |
| PublishedCrcs.ZerosChecksum | internal/wal/record.go:104-106 | That of 32 zero bytes is the published 0x8A9136AA. |
| Record.Encode | internal/wal/record.go:119-131 | Appends exactly one record and leaves what was there alone: the length in four bytes, the type, the CRC-32C of those five bytes, the CRC-32C of the five bytes and the payload, the payload. |
| Record.EncodedLaidOut | internal/wal/record.go:119-143 | Every record has that layout, its checksums being the remainders of the long division. |
| Record.EncodedAllAppend | internal/wal/record.go:119-131 | Encoding a concatenation is concatenating the encodings, so a batch built in one buffer is its records in order. |
| Replay.ReadOne | internal/wal/replay.go:84-137 | The checks on one record, in the code's order: remaining bytes, header checksum, length, end of file, record checksum, type. |
| Replay.Replay | internal/wal/replay.go:62-146 | The loop terminates and delivers exactly the records of the scan, each at its offset, with its verified length and how the file ends. |
| Replay.ParseOneSound | internal/wal/replay.go:84-145 | A record is delivered only if it is what the writer writes, byte for byte, for its type and payload. |
| Replay.ParseEncoded | internal/wal/replay.go:98-137 | Any encoded record is accepted if and only if its payload is at most 64 MiB long and its type is 1 to 6; too long or of unknown type it is called corrupt, never torn. |
| Recovery.ScanEncodedThen | internal/wal/replay.go:84-145 | After any well-formed records, replay goes on with whatever follows as if it began there. |
| Recovery.ReplaySoundOnAnyBytes | internal/wal/replay.go:84-145 | On arbitrary bytes: delivered records are genuine, verified plus torn bytes make up the file, and the verified prefix replays to the same records with no torn tail. |
| Recovery.PrefixRecovery | internal/wal/replay.go:84-145 | For every record list and every byte cut, replay delivers exactly the records wholly before the cut, and calls the tail torn exactly when the cut is off a boundary. |
| Recovery.WholeBeforeIsMaximal | internal/wal/replay.go:84-145 | The records before a cut are as many as fit, and one more would not. |
| Recovery.TruncateThenAppend | internal/wal/log.go:85-96 | Truncating to the verified length and appending more records replays to the kept records followed by the new ones. |
| Recovery.DamagedRecord | internal/wal/replay.go:98-137 | One changed byte anywhere in a record makes that record corrupt, whatever follows it. |
| Recovery.OneDamagedByteIsDetected | internal/wal/replay.go:84-145 | One changed byte anywhere in a well-formed log is reported as corruption at the start of its record, after exactly the records before it; never as a torn tail. |
| Messages.ValidateNormalises | internal/queue/message.go:112-151 | Accepts exactly the settings with a proper name, a known ordering or none, nothing negative, and aging only with priorities. What was set stays; what was left at zero becomes FIFO, 5 attempts, 30 seconds, five minutes, and a boost of 10 with aging. The settings it leaves alone are those it makes. |
| Messages.LessIsStrictTotal | internal/queue/message.go:180-188 | The higher priority first where priorities are on; otherwise, or at equal priority, the older message first, or the newer one in a LIFO queue; a strict total order on distinct sequence numbers in every mode. |
| Messages.EffectiveBoosts | internal/queue/queue.go:404-416 | With aging, a message that has waited k whole intervals stands k above its priority, up to the cap; without, or if it is from the future, at its priority. |
| Messages.BoostAfter | internal/queue/queue.go:404-416 | That number k is the only one. |
| Messages.BoostsGrow | internal/queue/queue.go:404-416 | Aging never lowers a priority, never takes back a boost as time passes, and never raises by more than the cap. |
| Codec.EncodedMessageLaidOut | internal/queue/codec.go:33-57 | The bytes of a message in order, little-endian: version 2, number, priority, visible-at and created-at in two's complement, attempts, dead flag; from byte 38 the length of the id and the id, the length of the DedupID and the DedupID, the length of the payload and the payload. |
| Codec.MessageRoundTrip | internal/queue/codec.go:33-106 | A message and its dead flag come back from the wire if and only if every field is within its width. |
| Codec.EncodedDedupLaidOut | internal/queue/codec.go:117-122 | The bytes of a dedup entry in order: the DedupID and the message id, each after its length, and the closing time. |
| Codec.DedupRoundTrip | internal/queue/codec.go:117-139 | A dedup entry comes back if and only if its strings and its time fit. |
| Wire.RecordTypes | internal/wal/record.go:45-69 | The six records by their type numbers on disk, 1 to 6; those of an Ack, a Nack and an expiry carry the bare message id. |
| Wire.FrameRoundTrip | internal/queue/queue.go:259-294 | Every record the queue writes is one the log reader accepts, and decodes to itself. |
| HeapOrder.UpStep | internal/queue/heaps.go:21-26 | Moving an element up past a later parent leaves it the only one possibly out of place. |
| HeapOrder.DownStep | internal/queue/heaps.go:21-26 | Moving the earlier child up past a later parent leaves the moved element the only one possibly out of place. |
| HeapOrder.RootIsFirst | internal/queue/heaps.go:42-53 | Nothing in a heap comes before its root. |
| HeapOrder.RemovedLeavesHole | internal/queue/queue.go:379-402 | Taking an element from mid-heap leaves one hole, which one sift settles. |
| Heaps.BeforeIsKeyOrder | internal/queue/heaps.go:21-89 | The three heaps' comparisons are one lexicographic order on two numbers. |
| Heaps.Heap.Swap | internal/queue/heaps.go:22-26 | Two messages trade slots and both back-pointers follow. |
| Heaps.Heap.PushLast | internal/queue/heaps.go:27-31 | The new message goes last and knows its slot. |
| Heaps.Heap.PopLast | internal/queue/heaps.go:32-40 | The last message leaves with index -1; the rest keep their slots. |
| Heaps.Heap.Init | internal/queue/queue.go:737-739 | Rebuilds the heap in place, whatever order it was in: in order, back-pointers right, same messages. |
| Heaps.Heap.Push | internal/queue/queue.go:323-332 | Adds one message; order and back-pointers are kept. |
| Heaps.Heap.Pop | internal/queue/queue.go:707-714 | Takes the head, keeping order and back-pointers. |
| Heaps.Heap.Remove | internal/queue/queue.go:379-402 | Takes the message at any slot, and only that one, keeping order and back-pointers. |
| Heaps.HeadIsLeast | internal/queue/queue.go:633-635 | Nothing in a heap comes before its head, so looking at the head alone is enough. |
| Reordering.SafeIffSameComparator | internal/queue/queue.go:261-273 | Taking over new settings keeps every ready heap in order if and only if the comparator stays the same. |
| Reordering.OrderingChangeHurts | internal/queue/message.go:180-188 | Without priorities a heap survives a change of ordering if and only if it holds at most one message. |
| Reordering.OrderingChangeHurtsTies | internal/queue/message.go:180-188 | With priorities it survives one if and only if no child has its parent's stored priority. |
| Reordering.InOrderMeansChildrenFollow | internal/queue/heaps.go:15-22 | For any settings a heap is in order if and only if no child comes before its parent by the comparator. |
| QueueState.SortedIsASort | internal/queue/message.go:180-188 | The reference order lists exactly the given messages, each before all that follow it. |
| QueueState.SortIsUnique | internal/queue/queue.go:1076-1077 | The comparator leaves no choice: any list with those properties is the reference order. |
| QueueState.SortedInLine | internal/queue/message.go:180-188 | In the reference order, of any two messages the first has no lower priority where priorities are on, and at equal priority or without them the smaller sequence number, or the greater one exactly when the ordering is LIFO; nobody ready outside its first n is ahead of one of them. |
| QueueState.LineIsUnique | internal/queue/message.go:180-188 | Any list of the ready messages with that property is the reference order. |
| QueueState.PlacedMeans | internal/queue/queue.go:323-332 | A placed message is delayed if and only if its time is still to come, and else ready at its priority and the boost due now. |
| QueueState.AttemptedMeans | internal/queue/queue.go:358-376 | One more failed delivery is one more attempt; the message is dead exactly when its attempts are used up, and otherwise visible now, at the boost due now. |
| QueueState.PromoteMeans | internal/queue/queue.go:704-714 | Promotion makes exactly the due messages ready, at the boost due now, and leaves the others alone. |
| QueueState.AgeMeans | internal/queue/queue.go:724-740 | Aging gives every ready message the boost due now, and leaves the others alone. |
| QueueState.LeaseMeans | internal/queue/queue.go:490-519 | What is handed out was ready or due, and is leased until the deadline; of the rest only the due ones change, by becoming ready. |
| QueueState.EnqueueMeans | internal/queue/queue.go:296-318 | A new message takes the next number, is delayed or ready at its own priority, and its DedupID is remembered for dedupWindowMS milliseconds. |
| Queues.Queue.constructor | internal/queue/queue.go:104-120 | A new queue is empty, hands out sequence number 1, is in structural order and has the default compaction threshold. |
| Queues.Queue.Detach | internal/queue/queue.go:379-402 | The message leaves whichever structure holds it, its bounds guard never skipping the removal; nothing else changes. |
| Queues.Queue.Unheap | internal/queue/queue.go:382-392 | The bounds guard always holds, and exactly the given message leaves the heap. |
| Queues.Queue.Place | internal/queue/queue.go:323-332 | A detached message goes to the delayed heap if its time is still to come, and else to the ready heap at its priority and the boost due now. |
| Queues.Queue.ApplyEnqueue | internal/queue/queue.go:296-318 | Adds a new message to index, dedup map and the right structure, raising the counter; a known id is refused and changes nothing. |
| Queues.Queue.ApplyAck | internal/queue/queue.go:334-345 | Removes a message from its structure and from the index; an unknown id is refused and changes nothing. |
| Queues.Queue.ApplyAttempt | internal/queue/queue.go:358-376 | Counts a failed delivery: dead when attempts are used up, else visible again now; reports whether it died. |
| Queues.Queue.ApplyMeta | internal/queue/queue.go:261-273 | Accepts exactly the settings validation accepts, fills in the defaults and raises the counter to the number they carry; others change nothing. The ready heap, not rebuilt, is in order afterwards if and only if it is by the new comparator. |
| Queues.Queue.Apply | internal/queue/queue.go:259-294 | Replays any one frame: the state moves as its record says, or the frame is refused and nothing changes; only a META frame with another comparator, over two ready messages or more, can put the ready heap out of order. |
| Queues.Queue.Load | internal/queue/queue.go:190-213 | For any frames: succeeds exactly when all decode, the first is META and all apply; the queue is then the replayed state, in structural order, its ready heap in order if each META was harmless when it was applied. |
| Queues.Queue.PromoteDue | internal/queue/queue.go:704-714 | Looking only at heads, moves exactly the messages whose time has come to the ready heap, at the boost due now. |
| Queues.Queue.Enqueue | internal/queue/queue.go:436-471 | Refused; or answered as a duplicate, exactly while the remembered window is open, with the remembered id; or accepted with the next number: record appended, delayed or ready at its own priority, the DedupID remembered for dedupWindowMS milliseconds from now. |
| Queues.Queue.Dequeue | internal/queue/queue.go:490-519 | Leases the first n of the ready and newly due messages until now plus the timeout, visibilityMS milliseconds if none is given, and nothing else changes: highest priority first where priorities are on, then oldest first, or newest first in a LIFO queue, nobody ahead of them being left. It is the order of a plain sort. |
| Queues.Queue.HeadIsFirst | internal/queue/queue.go:511-512 | The head of the ready heap comes before every other ready message. |
| Queues.Queue.Ack | internal/queue/queue.go:529-555 | Refuses the unknown and the not leased, in that order; otherwise writes the record and removes the message. |
| Queues.Queue.Nack | internal/queue/queue.go:560-590 | As Ack, for leased messages only: one more attempt, dead when they are used up, else ready now. |
| Queues.Queue.WaitDurable | internal/queue/queue.go:781-792 | The caller gets the log's answer, and a failure makes the queue read-only for good. |
| Queues.Queue.Close | internal/queue/queue.go:1120-1131 | From here on every call is turned away; nothing else changes. |
| Queues.Queue.ExpireLeases | internal/queue/queue.go:651-673 | Expires each overdue lease once with its record, until none is overdue; an append error stops it where it is. |
| Queues.Queue.AgePriorities | internal/queue/queue.go:724-740 | At most once every agingIntervalMS milliseconds, every ready message gets one more for each whole interval it has waited, up to the cap, and the heap is in order again. |
| Queues.Queue.PurgeDedup | internal/queue/queue.go:677-684 | At most once in 30 seconds, exactly the entries whose window has closed are dropped. |
| Queues.Queue.NextDeadline | internal/queue/queue.go:742-765 | The answer is the earliest of all pending events, and none when there are none. |
| Queues.Queue.Tick | internal/queue/queue.go:636-689 | Everything due has happened, message by message, and nothing that should have is left; the answer is the next event; compaction is asked for exactly at threshold and floor. If an append fails, expiry stops there, the queue fails, and aging and purge are done all the same. |
| Queues.Queue.PeekReady | internal/queue/queue.go:1069-1077 | Shows the first of the line by priorities and sequence numbers, which is exactly the order in which Dequeue would hand messages out. |
| Queues.Queue.Snapshot | internal/queue/queue.go:828-874 | Writes META with the counter, all live messages by number, then the open dedup entries whose messages are gone. |
| Queues.Queue.Compact | internal/queue/queue.go:808-908 | Each outcome of a compaction: before the rename nothing has changed, after it a failure makes the queue read-only, and success swaps the log and sets the floor to twice its size. |
| Queues.Queue.InExactlyOne | internal/queue/robustness_test.go:524-591 | Each message is in exactly one structure, the one its state names; the structures' sizes add up to the index; every index points at its own slot. |
| QueueLoops.LeaseFirst | internal/queue/queue.go:511-517 | Leasing the first ready message leaves the rest of the line as it was. |
| QueueLoops.TickSettles | internal/queue/queue.go:636-684 | After promotion, expiry, aging and purge no delayed message is due and no lease overdue. |
| QueueLoops.TickMeans | internal/queue/queue.go:636-684 | Message by message: what was due is ready, a lease past its deadline is one more failed delivery, the others are left alone, and with aging every ready message is brought up to date; only closed dedup entries go. |
| QueueLoops.AllExpired | internal/queue/queue.go:654-673 | Expiring one overdue lease after another, in any order, is expiring all of them at once. |
| Images.ImageStep | internal/queue/queue.go:259-376 | What a record does to a queue does not depend on when it is replayed, but for visibility and boosts. |
| Images.ReplayedImage | internal/queue/queue.go:185-213 | Replay at any times succeeds or fails alike and says the same about the queue. |
| Images.StandingsFromImage | internal/queue/queue.go:323-332 | Once everything due is promoted, how each message stands is determined by the log alone. |
| Invariants.GoodEnqueue | internal/queue/queue.go:450-465 | A non-duplicate enqueue keeps sequence numbers distinct and ordered, the dead set exact, and each open window remembered. |
| Invariants.GoodAttempt | internal/queue/queue.go:358-376 | A counted attempt keeps a message dead exactly when its attempts are used up. |
| Invariants.TracksStep | internal/queue/queue.go:249-257 | A record applied live and the same record replayed keep log and queue in step. |
| Journal.StepKeepsInv | internal/queue/queue.go:436-740 | Every operation, at any later time, keeps the invariant between the queue, its log and every prefix a restart may find. |
| Journal.ReachableIsOrderly | internal/queue/message.go:50-58 | In every queue the invariant describes, live messages have distinct numbers and dedup entries are filed under their own ids. |
| Snapshots.SnapshotIsDetermined | internal/queue/queue.go:841-868 | The same state at the same time has exactly one snapshot. |
| Snapshots.FoldMessages | internal/queue/queue.go:846-855 | Replaying messages by number rebuilds them all, with each DedupID remembered by its newest message. |
| Snapshots.FoldOrphans | internal/queue/queue.go:857-874 | The DEDUP records that follow override what the messages rebuilt, and nothing else. |
| Snapshots.EntriesAgree | internal/queue/queue.go:857-874 | Rebuilt entries and orphans together answer every DedupID as the running queue does, even when an older live message shares one with a newer acknowledged one. |
| Snapshots.SnapshotMeansTheSame | internal/queue/queue.go:828-874 | A snapshot replays to an image that stands for the running queue as its log did. |
| Restarts.RestartKeepsInv | internal/queue/queue.go:185-229 | Replaying any prefix a crash can leave succeeds, and the recovered queue satisfies the invariant. |
| Restarts.CompactKeepsInv | internal/queue/queue.go:808-908 | With the snapshot as its log the queue satisfies the invariant. |
| Restarts.CompactionPreservesMeaning | internal/queue/queue.go:828-874 | Whatever records follow, snapshot and old log replay alike: both fail, or both give the same messages and settings, the same answer for every DedupID at every later time, and the same counter if and only if the old log's META carried none ahead of it. |
| Restarts.CompactionLosesACarriedCounter | internal/queue/queue.go:828-832 | A queue created with NextSeq 10 replays to 10 from its log and to 1 from its snapshot. |
| Restarts.CounterNotAhead | internal/queue/queue.go:828-832 | A queue whose META carries no number ahead of its counter loses nothing at all to a compaction. |
| Restarts.ClearStays | internal/queue/queue.go:300-302 | No operation makes a carried number be ahead of the counter again. |
| Restarts.RestartClears | internal/queue/queue.go:270-272 | After a restart none is. |
| Restarts.CompactClears | internal/queue/queue.go:828-832 | After a compaction none is. |
| Restarts.ReplayRefinesLive | internal/queue/queue.go:185-229 | Replay never fails and rebuilds the running queue: same messages field for field but for VisibleAt of attempted messages, same dead set, same dedup answers; leased messages become available and delayed ones agree once promoted. |
| Restarts.ReplayedCounterAgrees | internal/queue/queue.go:270-272 | The replayed counter is the running one if and only if the first META carries none above it. |
| Restarts.CreatedWithCounterDiffers | internal/queue/queue.go:150-170 | With a carried counter of 10, a new queue hands out 1 and replays to 10. |
| Restarts.CreatedInv | internal/queue/queue.go:124-178 | A queue just created satisfies the invariant. |
| Loading.DecodedFrames | internal/queue/queue.go:259-294 | The frames of any records that fit decode to exactly those records. |
| Loading.FirstMetaIsHarmless | internal/queue/queue.go:190-199 | In a log whose only META record is the first, as the program writes it, no META disturbs the ready heap. |
| Loading.CrashCutReplays | internal/wal/replay.go:84-145 | A log cut anywhere within its unfinished write replays, uncorrupted, to all durable records and some of those in doubt, in order. |
| Loading.InterruptedCreateIsIncomplete | internal/queue/queue.go:202-211 | A creation cut short anywhere leaves a log that loads as incomplete, never as corrupt. |
| Loading.CreateAndLoadAgree | internal/queue/queue.go:131-149 | Create takes a name over exactly when Load calls its file incomplete, so it overwrites no committed record and loses no name; where Load finds a queue or a corrupt log, Create says so. |
| Loading.CreateFillsIn | internal/queue/queue.go:124-151 | Create turns down exactly the settings nobody may ask for, and otherwise makes the queue with what was asked for and the documented defaults. |
| GroupCommit.StepKeepsInv | internal/wal/log.go:121-313 | Every interleaving of the log's steps keeps its invariant, the fate of every buffered record included. |
| GroupCommit.AcceptedInOrder | internal/wal/log.go:121-135 | Records keep the order in which they were appended, through batching and flushing, until the file is replaced. |
| GroupCommit.NilMeansDurable | internal/wal/log.go:150-160 | A wait that returns nil is for records that were written and fsynced with all before them, in append order. |
| GroupCommit.FailureIsExact | internal/wal/log.go:156-158 | A failure at a batch fails every wait on it or later, and no earlier one; a failed reopen fails them all. |
| GroupCommit.FatalIsSticky | internal/wal/log.go:124-126 | After a failure nothing is appended, taken or reported durable again. |
| GroupCommit.SyncMeansWritten | internal/wal/log.go:164-179 | When Sync returns nil nothing is buffered or in flight and everything accepted is in the file; it is durable if and only if no recovered record awaits its first fsync. |
| GroupCommit.CloseDrains | internal/wal/log.go:293-313 | When the flusher has exited, everything accepted is in the file, and durable if anything was accepted since the log was opened, or the failure is on record. |
| GroupCommit.FlusherDrains | internal/wal/log.go:183-232 | No stranded record: from any healthy state at most four steps of the flusher, each enabled in its turn, make everything accepted so far durable or leave the failure on record. |
| GroupCommit.GroupCommitSafety | internal/wal/log.go:69-313 | All of this in every state of every run from Open. |
| Log.Log.constructor | internal/wal/log.go:78-115 | An opened log starts the protocol on the records recovered, safe on disk if the file had to be cut, as safe as before if not. |
| Log.Log.Append | internal/wal/log.go:121-135 | Refuses after a failure or a close; otherwise buffers the encoded record, wakes the flusher and names the batch. |
| Log.Log.Wait | internal/wal/log.go:150-160 | One turn of the wait answers as the protocol does: blocked, durable or failed. |
| Log.Log.Sync | internal/wal/log.go:164-179 | One turn of the loop answers as the protocol does, waking the flusher when records are buffered. |
| Log.Log.ReceiveSignal | internal/wal/log.go:183-194 | The flusher takes the pending signal and is awake. |
| Log.Log.FlushBegin | internal/wal/log.go:196-208 | Takes the buffer as the next batch; its bytes are the encoding of the batch's records. |
| Log.Log.FlushEnd | internal/wal/log.go:214-232 | Records the batch as flushed, or its failure as fatal; the size grows by what reached the disk. |
| Log.Log.Reopen | internal/wal/log.go:267-290 | Swaps the file, or fails without marking the log when closing fails and fatally when opening does. |
| Log.Log.BeginClose | internal/wal/log.go:293-300 | Closes once; appends are refused from then on. |
| Writers.Writer.Append | internal/wal/replay.go:166-177 | Adds exactly the encoded record, and the size stays the number of bytes written. |
| Writers.Writer.Install | internal/wal/replay.go:191-211 | Only a complete, durable file is renamed into place; `installed` says whether it was, and without it nothing has changed. |
| Writers.Install | internal/wal/replay.go:157-217 | A snapshot goes in whole or not at all; until the directory is fsynced the old file may come back. |
| CrashSafety.StepKeepsInv | internal/queue/queue.go:51-55 | Every interleaved step of operations, flusher, compaction and failures keeps every promise made to a client. |
| CrashSafety.SettledGrows | internal/queue/queue.go:436-557 | A promise kept by a log is kept by every longer one, unless an Ack for that message is issued. |
| CrashSafety.SettledInSnapshot | internal/queue/queue.go:798-803 | A snapshot keeps every promise the log it replaces keeps. |
| CrashSafety.SucceedsKeepsInv | internal/queue/queue.go:473-479 | A successful wait is enough to tell the client. |
| CrashRecovery.CrashRecovers | internal/queue/queue.go:180-229 | Whenever the process dies, the log found loads; it holds every acknowledged message no Ack was issued for and none whose Ack succeeded, and the system goes on as sound as before. |
| CrashRecovery.CrashSafe | internal/queue/queue.go:51-55 | The same over every run from Create, with any number of crashes and restarts, power cuts and killed processes alike. |
| CrashRecovery.FirstEnqueueIsAcknowledged | internal/queue/queue.go:436-480 | The promise is not about nothing: on any new queue a first enqueue can be appended, flushed and acknowledged. |
| CrashRecovery.RecordSurvivesIffDurable | internal/wal/log.go:150-160 | A record survives every crash possible now if and only if it is among the durable ones. |
| CrashRecovery.DuplicateAnswerCanBeLost | internal/queue/queue.go:443-448 | On any new queue a retry of an unflushed enqueue is answered as a duplicate, and a crash can leave neither the message nor its DedupID. |
| CrashRecovery.CompactionIsAtomic | internal/queue/queue.go:798-803 | While a compaction is under way a crash leaves the whole snapshot or the old log, never corrupt; the old log is whole too unless records recovered at the start still await their first fsync, and then holds at least all that is durable. |
| CrashRecovery.StuckForGood | internal/queue/queue.go:885-901 | Once a step after the rename has failed nothing is ever appended again, and nothing acknowledged but calls already waiting. |
| CrashRecovery.StuckCallsAreSafe | internal/queue/queue.go:889-890 | Those calls' records are in the old log and in the snapshot alike. |
| Runs.IdempotentEnqueue | internal/queue/queue.go:433-448 | Over any run with compactions and clean restarts, messages accepted with one DedupID are dedupWindowMS milliseconds apart, and a duplicate is answered exactly while the latest one's window is open, with its id. |
| Runs.DeliveryAccounting | internal/queue/queue.go:358-376 | A message is dead exactly when its attempts are used up; leases granted are attempts gained and one more while leased; none is delivered more often than allowed; none is lost or made up. |
| Runs.EnqueuedLessAcked | internal/queue/queue.go:469-554 | In the first process, messages enqueued less messages acknowledged are the live ones. |
| Runs.NeverLeasedTwice | internal/queue/queue.go:511-517 | A message handed out was under no lease, and is handed out once. |
| Delivery.RestartKeepsOrder | internal/queue/queue.go:185-229 | Without aging, a recovered queue delivers in the order the running one would have, its leases given up. |
| Delivery.DeliveryOrderSurvives | internal/queue/queue.go:185-229 | The same at the end of every run from Create. |
| Timer.NeverOversleeps | internal/queue/queue.go:603-631 | While the loop sleeps with no token pending and no operation still to signal, the timer goes off by the time of every event, or within a millisecond of being set. |
| Timer.NothingNew | internal/queue/queue.go:521-557 | The operations that do not signal leave nothing new to wait for. |
| Timer.LateByTheClamp | internal/queue/queue.go:610-615 | The timer is late for an event if and only if less than a millisecond was left when it was set; with no event it is set for an hour. |
| WriteBound.SnapshotsArePaidFor | internal/queue/queue.go:78-84 | In one process the sizes of all snapshots but the last sum to at most the bytes appended since the first. |
| WriteBound.AskedForStays | internal/queue/queue.go:686-700 | A compaction a tick has asked for is still allowed when Compact gets to it, whatever was flushed in between. |
| Linkage.FramingCommutes | internal/wal/log.go:121-290 | The log of records and the log of bytes take the same steps and give the same answers. |
| Linkage.ExpiryIsARun | internal/queue/queue.go:654-673 | The expiry loop is one EvExpire after another, each enabled in its turn; queue state and log end where the loop leaves them. |
| Linkage.TickIsARun | internal/queue/queue.go:636-684 | A whole tick is a run of enabled steps: promotion, expiries, an append error if there is one, aging, purge. |
| DiskFiles.FileIsLeft | internal/wal/log.go:214-247 | The log's file as it stands between two writes is one a crash is allowed to leave. |
| DiskFiles.FilesAreLeft | internal/queue/queue.go:876-901 | However a compaction ends, every file that may be found under the log's name is one the system allows for. |
| Conformance.Enqueue | internal/queue/queue.go:436-480 | For any message within the limits the call is one enabled step, a failed append, or no step; queue and system agree again; an accepted message is waiting for the batch returned. |
| Conformance.Ack | internal/queue/queue.go:529-557 | The same of Ack. |
| Conformance.Nack | internal/queue/queue.go:560-590 | The same of Nack. |
| Conformance.Dequeue | internal/queue/queue.go:490-524 | The call is one enabled step that leases exactly the messages handed out, or none; nothing is handed out before its time; it needs nothing but that queue and system agree. |
| Conformance.Tick | internal/queue/queue.go:636-689 | A tick is a run of enabled steps, failed append included, and asks for a compaction only when the books of the write bound allow one. |
| Conformance.WaitDurable | internal/queue/queue.go:781-792 | The wait's answer is the step that settles the call, in success or in failure. |
| Conformance.FlushEnd | internal/wal/log.go:214-232 | A finished write is a step of the system, and enters the books as the bytes by which the log has grown. |
| Conformance.Compact | internal/queue/queue.go:808-908 | Every outcome is a run of enabled steps, up to the one that failed; a success enters the books at the snapshot's size; the files left are ones the system allows for. |
| Conformance.CompactIsARun | internal/queue/queue.go:808-908 | Each of those runs is legal and ends in the state, log and phase its outcome says. |
| Conformance.Close | internal/queue/queue.go:1120-1131 | Closing is a step of the system. |
| Conformance.CloseLog | internal/wal/log.go:293-300 | Closing the log afterwards is one too, once. |
| Conformance.Restart | internal/queue/queue.go:180-229 | After a crash at any moment, replaying the file found and opening the log gives objects that agree with the recovered system. |

## Left out

- The JSON encoding of `Config`: a parameter, `Wire.ConfigCodec`, asked only to return validated configurations unchanged.
- Real files, system calls and goroutines: an abstract disk and explicit steps; every call that can fail takes its outcome as a parameter.
- Queues.Queue.Load: models the callback that `Load` hands to `Replay`; opening the log afterwards is `Log.Log.constructor`, and starting the goroutine is left out.
- Replay.Replay: takes the file's bytes; a missing file, which the program treats as an empty log, and errors of the system calls are left out.
- Queues.Queue.Tick: is tick's hold of the mutex; the wait for the last expiry's batch and the call of Compact that follow are `Conformance.WaitDurable` and `Conformance.Compact`.
- Queues.Queue.PeekReady: the delayed, leased and dead lists of Peek sort stably by times that may be equal, and are left out.
- Queues.Queue.Snapshot: `sort.Slice` is written as an insertion sort; `Snapshots.SnapshotIsDetermined` shows that any sort gives the same snapshot.
- Queues.Queue.Compact: starts where `Sync` has come back; the turns before that are `Conformance.SyncTurn`. Every error before the rename, one of `NewWriter` or of the configuration's encoding too, is the one outcome `NotInstalled`.
- Queues.Queue.constructor: `Create` as an object is left out; `Loading.Create` decides whether the name is free, and `CrashRecovery.Started` is the system a successful `Create` leaves, its META record on disk.
- Conformance.Enqueue: is for messages within the limits and ids never used before, as listed under Assumptions.
- Log.Log.Wait: one turn of the wait loop; blocking is an answer of its own.
- CrashSafety.StepKeepsInv: takes a critical section as one step, so interleavings inside one hold of the queue's mutex are not distinguished.
- Delivery.DeliveryOrderSurvives: is for queues without aging; with it, replay recomputes boosts at the time of the restart.
- Runs.IdempotentEnqueue: is for clean restarts; a crash may lose an enqueue that was never acknowledged, and with it its dedup entry.
- Timer.NeverOversleeps: does not model `Close`, which ends the loop.
- The order of the dead-letter list: a set of messages; snapshots reorder it by sequence number.
- Wrap-around of the sequence counter, of the lifetime counters and of priority plus boost: unbounded integers.
- Stats and their timings, log messages, error texts, views of payloads as JSON, and the generation of random ids.
- The manager of several queues, the HTTP layer, the command line, the demo and its dashboard: plumbing with no hard state.
- Media failures beyond the crash model, such as reordered sectors, or damage to several bytes whose checksums collide.
- `Replay` of a file that does not exist, which reads as an empty log, and errors of reading.
