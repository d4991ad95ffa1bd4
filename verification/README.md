# OlricStack verification model

A Dafny model of the parts of OlricStack whose safety has to hold over whole
runs, with proofs. It follows one write from the node to the table, and one
topology change from a watchdog to a node.

- **The shared-memory ring.** `RingLayout` says which byte each entry occupies,
  `SharedRing` is the ring as an object over a byte array, `RingSteps` is every
  interleaving of one producer and one consumer at the grain of single cursor
  loads and stores and single byte reads and writes, `RingTwoConsumers` is what a
  second consumer does to it, and `Crc32` is its checksum.
- **The durable write path.** `Lease`, `Sequencer`, `OplogSize` and `DurableHook`
  are the node side; `PendingSet`, `Sidecar` and `Upsert` are the sidecar and the
  table; `WritePath` is every run of them, with any number of drainers, and with
  processes that end and start again; `Conservation` says exactly what such a run
  keeps; `Losses` and `MissReads` hold the runs that lose an entry and what loads
  read; `SidecarRuns` shows that the sidecar's operations are such runs;
  `UpsertColumns` studies the conflict clause evaluated one column at a time;
  `EndToEnd` joins sequencer, write path and table, and `WriteThenRead` follows one
  write from the hook to the load that reads it back.
- **The control plane.** `EpochStore` is the versioned counter object under any
  number of clients, `Cluster` the membership state, `Topology` one watchdog's
  service, `TopologySteps` many watchdogs, one store and many nodes; `EpochCalls`
  shows that the store's loops are the calls the service makes, and `Stacks` is a
  service with several stacks.
- **Storage.** `EntryCodec` is the binary entry format, `Engine` the cursor scan.

Objects whose methods update fields are classes; each method is proved equal to a
function on values, and the step systems and lemmas are about those functions.
Concurrent protocols are step systems: a run is any sequence of step labels, and a
step the state does not allow leaves it unchanged.

## Premises

- Memory is sequentially consistent, and cursors stay below 2^64.
- The ring has one consumer, as its own documentation demands. The sidecar does not
  enforce it: its loop and the partition drain pop from different goroutines without a
  lock. `WritePath` therefore allows any number of drainers, each pop taken as one step,
  and `RingTwoConsumers` takes the steps of two pops apart.
- The checksum and the oplog codec are arbitrary functions, passed as parameters.
- Appends for one key happen in stamp order (fragment lock of the storage layer), and
  each stamp is appended once; `EndToEnd` derives the order the write path relies on.
- Other sidecars' rows name a map, since every sidecar rejects an entry that does not.
- Writer ids compare by code point, and the CASE expressions of the conflict clause
  all read the old row. `UpsertColumns` says exactly what changes if they do not.
- One stack per topology service, as deployed, with an epoch store configured
  (`Stacks` says what happens with more).
- Time, the outcome of store and table calls, the consumer's progress between
  retries, and which subscriber buffers are full are inputs.

## Where the code does not do what its comments say

- A full ring is documented as "the consumer is behind". An entry larger than half
  the capacity can be refused on an empty ring, for ever (`AcceptedAnywhereIff`).
- The size estimate is documented as an upper bound. It is one exactly when the JSON
  escapes fit in what the operation leaves of it under the longest stamp
  (`EstimateBoundsIff`, `EstimateFallsShort`).
- An epoch advance after a fence snapshot is documented as harmless. The write then
  fails its stamp, after the mutation, exactly when a later-epoch write stamped first
  (`VerifiedStampFailsIff`, `VerifiedStampCanFail`).
- A drop is documented to keep a newer entry. It compares only the owner sequence, and
  loses an entry of a newer fence window with a smaller or equal sequence when a drain
  came between snapshot and drop (`StepLosesIff`, `DropLosesRun`, `LossIsReachable`).
- The ring is documented for one consumer, and the sidecar drains it from two places. A
  put compares no fences, so the drainer that popped first and puts last buries the newer
  entry, within one window of one writer (`StepLosesIff`, `PutLosesRun`,
  `PutLossIsReachable`). With one drainer no put loses anything (`OneDrainerConserves`).
  Two pops at once can also return one entry twice and move the head back, without any
  error: a pop leaves the ring a queue exactly if no other consumer took its entry
  between its reads and its head store (`QueueSurvivesIff`, `TwiceIsReachable`, `BackRun`).
- A load is documented to return the value of its key. The table is keyed by map and hash
  alone and no load compares the key, so it returns a colliding key's record exactly when
  that key has the newer entry (`LoadReadsOtherKeyIff`, `LoadReadsOtherKeyRun`).
- The conflict clause is documented as a whole-row rule. Evaluated one column at a time
  it is one exactly in rank order; in alphabetical order a delete after a set by the
  same writer leaves a live row (`OrderAgreesIff`, `PairAgreesIff`,
  `AlphabeticalKeepsOldTombstone`), and over a writer's log later writes of a new window
  are swallowed (`AlphabeticalSwallowsIff`, `SwallowingIsReachable`).
- The final drain leaves the ring untouched when the pending set is full on entry
  (`FinalDrain`), which a partition drain just before it can bring about
  (`PartitionDrainStrands`). A rejecting scan callback at key 0 returns the cursor that means
  "done", exactly when a scan from the start meets it (`RejectionLooksDoneIff`).
- A payload of 2^32 bytes or more is documented as too large. Its length is narrowed
  first, so it is accepted cut, under the checksum of the whole, and once the consumer
  reaches it every pop reports corruption, unless the checksums agree, which they do for
  at most one last byte in 256 (`Append`, `Pop`, `AppendThenPop`, `CutPoisons`).
- A purge request is documented as touching only the pending set; the backend deletes
  committed rows. Conservation is stated for entries at or above the purged generation.
- The free-room check reserves 64 KiB but no padding to the end of the data region. It
  rules out a refusal exactly when twice the entry, less a word, fits in what was
  checked for (`CheckedAppendFitsIff`).
- Envelopes are documented as never sent before their epoch is durable. The error flag
  that guards a push belongs to the service, so with two stacks a save for one clears it
  for the other (`RunDurableIff`, `MaskComesFromOthers`, `TwoStacksLeak`).
- The append is documented as the acknowledgement. A write with an empty map name
  is acknowledged and then rejected on decoding (`PublishedAcceptedIff`). An entry that no
  put, no drop and no end of the process takes away is lost in that case only (`LostIff`).
- The sidecar's loop returns on an entry it rejects, before any flush, and on a failed
  flush, and the process then ends with entries already popped. Those that neither the
  table nor the part of the flush that took effect answers for are gone, accepted or not
  (`LoopRun`, `RejectionExitKeepsIff`, `FailedFlushExitKeepsIff`, `RejectionEndLosesRun`,
  `FailedFlushEndLosesRun`).
- A payload that does not decode is consumed: the drain reports an error and the entry is
  gone from the ring (`DrainRing`).

## Model

| member | source | states |
|---|---|---|
| RingLayout.AlignUp | internal/ring/ring.go:295-300 | the least multiple of 8 that is not below the size, by at most 7 |
| RingLayout.PosIsMod | internal/ring/ring.go:202 | the recursive position function used in proofs is the cursor modulo the capacity |
| RingLayout.PlacementFacts | internal/ring/ring.go:202-219 | from an aligned cursor every entry is placed aligned and never across the end; a skip marker always fits and leads to position 0 |
| RingLayout.PosApart | internal/ring/ring.go:1-16 | cursors less than one capacity apart never share a byte |
| RingLayout.FreeWriteIsInvisible | internal/ring/ring.go:213-225 | a byte written in the free region changes no unread byte |
| RingLayout.PublishKeepsInv | internal/ring/ring.go:227 | storing the tail publishes exactly the entry whose bytes are in place |
| RingLayout.HeadFacts | internal/ring/ring.go:257-268 | at a head that is not the tail the consumer finds an intact entry, or a skip marker followed by a published entry |
| RingLayout.CursorsAligned | internal/ring/ring.go:191-227 | in every ring state both cursors are multiples of 8 |
| SharedRing.AlignLeast | internal/ring/ring.go:295-300 | alignment is the least multiple of 8 |
| SharedRing.Create | internal/ring/ring.go:52-79 | refuses exactly below the minimum capacity; else an empty ring of the capacity rounded up to 8 |
| SharedRing.Ring.Pending | internal/ring/ring.go:179-181 | unread bytes, never more than the capacity |
| SharedRing.Ring.WriteFrame | internal/ring/ring.go:221-225 | writes length, checksum and payload and nothing else |
| SharedRing.Ring.WriteEntry | internal/ring/ring.go:213-225 | the skip marker when needed, then the entry, and nothing else |
| SharedRing.AppendedMemory | internal/ring/ring.go:213-227 | those writes and the tail store keep the ring invariant |
| SharedRing.WrittenEntry | internal/ring/ring.go:213-225 | those writes, under any checksum, disturb no unread entry and are in place |
| SharedRing.Ring.Append | internal/ring/ring.go:186-229 | enqueues; refuses as too large or full exactly under the stated conditions and then changes nothing; a payload of 2^32 bytes or more is cut, and poisons the ring when the checksums disagree |
| SharedRing.Ring.ReadAt | internal/ring/ring.go:263-283 | what is read at a stored entry or marker passes every check, except that an entry is bogus exactly when its checksum is not that of its bytes |
| SharedRing.Ring.Look | internal/ring/ring.go:257-283 | at a head that is not the tail the consumer finds the skip marker or the next whole entry, or at the end of a poisoned ring the bad one |
| SharedRing.Ring.Pop | internal/ring/ring.go:253-287 | dequeues the oldest payload, reports empty exactly when empty, never corruption on a valid ring, in at most two rounds; at a poisoned entry every call reports corruption and the head stays |
| SharedRing.AppendThenPop | internal/ring/ring.go:186-287 | a payload appended to a new ring and popped any number of times: its cut bytes once and then nothing if the checksums agree, corruption every time if they do not |
| Crc32.LastByteMatters | internal/ring/ring.go:40 | the checksum of a payload changes with its last byte |
| Crc32.CutPoisons | internal/ring/ring.go:186-225 | of two payloads of 2^32 bytes or more that differ in the last byte at least one is stored under a checksum its cut bytes fail |
| SharedRing.EmptyRingAcceptsIff | internal/ring/ring.go:197-211 | an empty ring accepts an entry exactly when it fits before the end or before the cursor |
| SharedRing.EmptyRingAt | internal/ring/ring.go:186-287 | every aligned cursor is that of an empty ring |
| SharedRing.AcceptedAnywhereIff | internal/ring/ring.go:183-211 | every empty ring of a capacity accepts an entry exactly up to half the capacity rounded up to 8 |
| SharedRing.MiddleRefuses | internal/ring/ring.go:197-211 | an empty ring in the middle of its data region refuses a larger entry as full |
| RingSteps.WriteByteKeeps | internal/ring/ring.go:213-225 | each single byte write of the producer keeps the invariant, whatever the consumer is doing |
| RingSteps.NextByte | internal/ring/ring.go:263-280 | each single byte the consumer reads is the byte the producer stored |
| RingSteps.DecideFacts | internal/ring/ring.go:263-286 | when Pop decides it has a skip marker or the whole next entry; it skips at most once per call and finds no corruption |
| RingSteps.StepRefinesQueue | internal/ring/ring.go:186-287 | every step refines a FIFO queue: only the tail store enqueues, only the final head store dequeues |
| RingSteps.PoppedIsPrefixOfAppended | internal/ring/ring.go:186-287 | under every interleaving the popped payloads are a prefix of the appended ones, no corruption is reported, cursors are aligned and within one capacity |
| RingTwoConsumers.PopRun | internal/ring/ring.go:253-287 | an undisturbed Pop of a ring that is not empty is a run of steps that returns the oldest payload |
| RingTwoConsumers.AppendRun | internal/ring/ring.go:186-229 | an undisturbed Append that fits is a run of steps that enqueues the payload |
| RingTwoConsumers.QueueSurvivesIff | internal/ring/ring.go:14-16 | when a second consumer runs between the reads and the head store of a Pop, in any interleaving with the producer, the Pop still returns its entry and stores the head behind it, and the ring is still a queue exactly if the other has not taken that entry |
| RingTwoConsumers.TwiceRun | internal/sidecar/control.go:405-416 | from every state with an unread entry a run of two consumers returns it twice |
| RingTwoConsumers.BackRun | internal/ring/ring.go:253-287 | from every state with two unread entries a run returns the first, the second and the first again, and its last step moves the head back |
| RingTwoConsumers.TwiceIsReachable | internal/ring/ring.go:186-287 | in every ring and for every payload it can hold, a run from creation appends it once and returns it twice |
| Records.NewerTotal | internal/sidecar/backend_mysql.go:79-89 | the fence comparison is a strict total order |
| Records.NewerTransitive | internal/sidecar/backend_mysql.go:86-89 | the fence comparison is transitive |
| Records.NewerByRank | internal/sidecar/backend_mysql.go:86-89 | generation decides first, then epoch, then owner sequence, then the writer id |
| Records.FirstDifferenceDecides | internal/sidecar/backend_mysql.go:86-89 | of two writer ids the first difference decides, and a proper prefix is less |
| Records.RecordForgetsOnlyOp | internal/sidecar/control.go:462-477 | two entries give one row exactly when they agree on all but set versus expire |
| Upsert.MergeIsWholeRow | internal/sidecar/backend_mysql.go:84-104 | an upsert leaves the whole old row or the whole new one |
| Upsert.FoldIsLexMax | internal/sidecar/backend_mysql.go:35-40 | folding records leaves a lexicographic maximum per row |
| Upsert.FoldOrderIndependent | internal/sidecar/backend_mysql.go:35-40 | with unique fences the table depends only on the set of records |
| Upsert.FoldBatches | internal/sidecar/backend_mysql.go:39 | batching does not matter |
| Upsert.FoldCovers | internal/sidecar/backend_mysql.go:79-104 | row fences never regress and every folded record is answered for |
| Upsert.ReplayHarmless | internal/sidecar/backend_mysql.go:13-16 | replaying a flush changes nothing |
| Upsert.OrderMattersIff | internal/sidecar/backend_mysql.go:79-83 | two records commute exactly when equal or of different fences |
| Upsert.Backend.constructor | internal/sidecar/backend_mysql.go:22-33 | a positive batch size, 256 by default |
| Upsert.Backend.UpsertEntries | internal/sidecar/backend_mysql.go:35-40 | the table becomes the fold of the records, or on an error of a prefix of them |
| Upsert.Backend.Load | internal/sidecar/backend_mysql.go:42-58 | the row of map and hash, exactly when it is there, no tombstone, and without a deadline or before it |
| Upsert.Backend.PurgeBelowGeneration | internal/sidecar/backend_mysql.go:60-69 | deletes and counts exactly the rows below the generation and leaves the others as they were |
| UpsertColumns.OrderAgreesIff | internal/sidecar/backend_mysql.go:86-104 | one-at-a-time evaluation equals simultaneous evaluation on all rows exactly when payload columns come first, then writer_id, owner_seq, epoch, generation |
| UpsertColumns.SortedAgrees | internal/sidecar/backend_mysql.go:86-104 | that order agrees for every pair of rows |
| UpsertColumns.UnsortedDiffers | internal/sidecar/backend_mysql.go:86-104 | every other complete order differs for some pair of rows |
| UpsertColumns.EvalTakes | internal/sidecar/backend_mysql.go:86-104 | in any order, evaluation takes exactly the columns before the comparison first stops holding |
| UpsertColumns.PairAgreesIff | internal/sidecar/backend_mysql.go:86-104 | for every complete order and pair of rows it keeps the whole-row rule exactly when the record is not newer or agrees in every column after that point |
| UpsertColumns.AlphabeticalResult | internal/sidecar/backend_mysql.go:92-103 | the row that alphabetical evaluation leaves |
| UpsertColumns.AlphabeticalAgreesIff | internal/sidecar/backend_mysql.go:92-103 | for which pairs of rows alphabetical evaluation keeps the whole-row rule |
| UpsertColumns.AlphabeticalKeepsOldTombstone | internal/sidecar/backend_mysql.go:92-103 | the same writer's next write keeps the old tombstone flag |
| UpsertColumns.AlphaFoldIs | internal/sidecar/backend_mysql.go:92-103 | over a writer's log the row carries the last window, the largest sequence of any window, and the deadline, time stamps and tombstone flag of the first record |
| UpsertColumns.AlphabeticalSwallowsIff | internal/sidecar/backend_mysql.go:92-103 | a record of the log is swallowed whole exactly when it is not the first of its window and an earlier record had reached its sequence |
| UpsertColumns.AlphabeticalLogValue | internal/sidecar/backend_mysql.go:92-103 | after the log the row holds the value of the last record not swallowed |
| UpsertColumns.SwallowingIsReachable | internal/stringkv/sequencer.go:35-41 | it happens with the first four fences of a writer, two writes in each of two windows |
| PendingSet.TotalWithout | internal/sidecar/control.go:186-188 | the byte total splits at any entry, so the counter never underflows |
| PendingSet.Pending.Put | internal/sidecar/control.go:110-119 | stores the entry under its map, key and hash, with an exact byte counter of the stated entry size |
| PendingSet.Pending.DropEntry | internal/sidecar/control.go:134-141 | removes the key exactly when its sequence is not above the flushed one |
| PendingSet.Pending.Snapshot | internal/sidecar/control.go:121-129 | lists exactly the entries |
| PendingSet.Pending.PurgeBelow | internal/sidecar/control.go:150-162 | removes and counts exactly the entries below the generation and leaves the others as they were |
| PendingSet.Pending.Partition | internal/sidecar/control.go:164-178 | lists exactly the entries of the map whose hash modulo the count is the partition |
| PendingSet.OnePartition | internal/sidecar/control.go:164-178 | every entry is in exactly one partition of its map and in none of another map; hashes that differ by the count share theirs |
| PendingSet.PutAllHolds | internal/sidecar/control.go:110-119 | under per-key order no entry is replaced by an older one |
| PendingSet.LastPutIsRead | internal/sidecar/control.go:97-148 | read-your-write: the last entry put for a key is the one found under it |
| PendingSet.DropAllDrawn | internal/sidecar/control.go:343-345 | dropping entries just read removes exactly their keys |
| Sidecar.Server.PendingFull | internal/sidecar/control.go:313-322 | full exactly at a configured record or byte limit |
| Sidecar.Server.DrainRing | internal/sidecar/control.go:288-311 | moves a prefix of the ring into the pending set, stops as soon as that is full, and says why it stopped |
| Sidecar.Server.FlushOnce | internal/sidecar/control.go:329-347 | writes a snapshot and empties the pending set; a failed write leaves it |
| Sidecar.DrainFlushSettles | internal/sidecar/control.go:257-286 | after a drain and a flush the table answers for everything drained and pending |
| Sidecar.UpsertSettlesIff | internal/sidecar/control.go:329-347 | after an upsert the table answers for an entry exactly when it did before or an upserted entry of its row is not older |
| Sidecar.Server.LoadFromMySQL | internal/sidecar/control.go:378-401 | pending first, then the table: the fields of the entry or row, exactly when it is no delete and without a deadline or before it; a table error only when not pending |
| Sidecar.LoadOnlyExpires | internal/sidecar/ttl.go:13-18 | in one state, what a load does not find it does not find later, and what it finds later it finds now |
| Sidecar.Server.PurgeBelowGeneration | internal/sidecar/control.go:439-452 | keeps exactly the pending entries and rows at or above the generation, counts the rest; a table error leaves the table |
| Sidecar.Server.FinalDrain | internal/sidecar/control.go:349-362 | terminates; empties pending, and the ring too exactly unless pending was full with entries left; everything drained is settled |
| Sidecar.Server.DrainPartition | internal/sidecar/control.go:405-435 | request checks; after a success nothing drained of the partition is pending, all of it is settled, other entries are untouched, and only the undrained suffix is missed |
| Sidecar.Server.constructor | internal/sidecar/control.go:233-253 | starts with an empty pending set |
| SidecarRuns.DrainRun | internal/sidecar/control.go:288-311 | a drain is exactly so many pops and puts of accepted entries by one drainer, followed by the pop of an entry that is not accepted exactly when it fails |
| SidecarRuns.FlushRun | internal/sidecar/control.go:329-347 | a flush is the one step that flushes everything pending, or the one that fails after some of the records |
| SidecarRuns.PartitionRun | internal/sidecar/control.go:405-435 | a partition drain is, by its outcome: no step; a drain ending in a rejecting pop; or a drain, the begin of a flush of exactly the partition, and its write and all its drops, or its failure |
| SidecarRuns.PurgeRun | internal/sidecar/control.go:439-452 | a purge is one purge of the pending set, followed by one of the table exactly unless that fails; below 1 it is no step |
| SidecarRuns.OfferRun | internal/ring/ring.go:186-229 | an append by the node is one acknowledgement step exactly when the ring takes the payload |
| SidecarRuns.LoopRun | internal/sidecar/control.go:257-286 | the consumer loop, with appends arriving between its rounds, is a sequential run of one drainer that purges nothing; it returns on a rejection exactly when it popped an entry that is not accepted, at that pop, and on a failed flush exactly when one failed, at that flush; else nothing is pending, and from the second round on the ring is empty or the loop has popped something |
| SidecarRuns.PartitionDrainStrands | internal/sidecar/control.go:349-362 | a partition drain before the final drain can leave it with a full pending set, and the ring as it is |
| WritePath.RunSane | internal/sidecar/control.go:288-347 | in every run, whatever it loses, pending entries and rows come from accepted popped entries and written flushes stay answered for |
| Conservation.EntryLostIff | internal/sidecar/control.go:110-141 | in every state, a step takes a given entry from safe to lost exactly when it puts an older one over the pending entry that alone answers for it, drops that, or ends the process |
| Conservation.StepLosesIff | internal/sidecar/control.go:110-141 | a step loses some entry exactly when it buries a newer pending entry that nothing else answers for, or ends the process while the table does not answer for a popped entry |
| Conservation.RunKeeps | internal/sidecar/control.go:257-347 | in every run, with any number of drainers, losses of other entries and restarts, an entry that no step takes away is in the ring, a hand, pending or table at an equal or newer fence, below a purge, or not accepted |
| Conservation.RunConserves | internal/sidecar/control.go:257-347 | a run of steps that lose nothing keeps every acknowledged entry safe |
| Conservation.PurgeKeeps | internal/sidecar/control.go:439-452 | purging the pending set or the table, in any interleaving, loses no entry at or above the generation |
| Conservation.LostIff | internal/oplog/oplog.go:60-83 | in every run, an entry not below a purge that no put, drop or end of the process took away is lost exactly when it was popped and has no map name |
| Conservation.RejectionExitKeepsIff | internal/sidecar/control.go:262-265 | after every run that ends on a rejected entry and then in the end of the process, of what was popped exactly what the table answered for survives, and the end of the process loses exactly the accepted, unpurged ones that were safe and that the table does not answer for |
| Conservation.FailedFlushExitKeepsIff | internal/sidecar/control.go:266-269 | after every run that ends on a failed flush and then in the end of the process, of what was popped exactly what the table or the applied part of the flush answers for survives |
| Conservation.FlushThenStopKeeps | internal/sidecar/control.go:349-362 | ending the process after a round that flushed everything loses nothing |
| Conservation.OneDrainerPutsInOrder | internal/ring/ring.go:14-16 | one drainer never puts an entry over a newer one |
| Conservation.OneDrainerIsCurrent | internal/sidecar/control.go:288-311 | with one drainer the pending entry of a key is always the newest that left the ring |
| Conservation.OneDrainerConserves | internal/sidecar/control.go:257-347 | with one drainer an entry is lost only by a drop or by the end of the process |
| Conservation.SequentialRunConserves | internal/sidecar/control.go:257-286 | the sequential loop of one drainer loses an entry only where the process ends, whatever the windows |
| Conservation.SequentialFrame | internal/sidecar/control.go:257-286 | a run of the loop purges nothing and takes no other writer's row |
| Conservation.OneWindowConserves | internal/sidecar/control.go:131-141 | so does any interleaving with one drainer when the entries of its key carry one window of one writer |
| Conservation.UnsafeIsNewerWindow | internal/stringkv/sequencer.go:35-41 | for one writer an unsafe drop is one of a newer window with a smaller or equal sequence |
| Losses.DropLosesRun | internal/sidecar/control.go:131-141 | for every two entries of a key, the second newer with a sequence not above the first, a run with one drainer and no end of the process keeps the second safe up to its last step, a drop, which loses it |
| Losses.PutLosesRun | internal/sidecar/control.go:294-306 | for every two entries of a key, the second newer, a run with no drop and no end of the process keeps the second safe up to its last step, a put, which loses it |
| Losses.LossIsReachable | internal/stringkv/sequencer.go:35-41 | such a losing drop happens with the first two fences of one writer across two windows |
| Losses.PutLossIsReachable | internal/sidecar/control.go:405-416 | such a losing put happens with the first two fences of one writer in one window |
| Losses.RejectionLosesRun | internal/sidecar/control.go:301-304 | every acknowledged entry without a map name is gone after the pop that rejects it, with no drop and no end of the process |
| Losses.RejectionEndLosesRun | cmd/olric-sidecar/main.go:109-111 | for every accepted entry followed by one without a map name, a run of the loop that acknowledges both and ends on popping the second keeps the first safe, and the end of the process then loses it |
| Losses.FailedFlushEndLosesRun | internal/sidecar/control.go:266-269 | for every accepted entry, a run of the loop that ends on its failed flush keeps it safe, and the end of the process then loses it |
| MissReads.LoadReads | internal/sidecar/control.go:378-401 | with one drainer a load of a key whose newest drained entry is not lost reads it, or a row not older that another writer or a newer entry of a colliding key put there |
| MissReads.RunReads | internal/sidecar/control.go:378-401 | after every run of one drainer in which no drop and no end of the process took the newest drained entry of a key away, a load of the key reads it or such a row |
| MissReads.RunReadsOwn | internal/sidecar/control.go:378-401 | and exactly its bytes, deadline and time stamp, unless a delete or past its deadline, when no one else writes and no newer key collides |
| MissReads.LoadReadsOtherKeyIff | internal/sidecar/backend_mysql.go:42-58 | once flushed and none lost, a load finds another key's row exactly when a colliding key has a newer drained entry |
| MissReads.LoadReadsOtherKeyRun | internal/sidecar/control.go:390-400 | for every two colliding keys a run after which a load of one returns the other's record |
| Lease.LeaseTracker.Apply | internal/node/subscriber.go:181-211 | which envelopes are accepted and why others are not; an accepted one sets generation, epoch and validity, a refused one nothing |
| Lease.LeaseTracker.Revoke | internal/node/subscriber.go:213-217 | ends the validity and keeps the fence |
| Lease.LeaseTracker.ServingAllowed | internal/node/subscriber.go:219-223 | serving exactly while the lease is valid |
| Lease.LeaseTracker.SnapshotForWrite | internal/node/subscriber.go:228-235 | the fence, exactly while the lease is valid |
| Lease.LeaseTracker.VerifyFence | internal/node/subscriber.go:273-286 | valid lease, same generation, epoch not behind |
| Lease.LeaseTracker.Receive | internal/node/subscriber.go:132-156 | applies envelopes in order up to the first refusal, which revokes the lease, or the first failed join or heartbeat, which does not |
| Lease.FenceNeverRegresses | internal/node/subscriber.go:169-217 | over every run the lease's (generation, epoch) never moves back |
| Lease.VerifiedFenceSpansOneGeneration | internal/node/subscriber.go:256-286 | a fence that still verifies means no other generation was accepted in between |
| Lease.ServesIff | internal/node/subscriber.go:181-223 | over every run the last accepted envelope or revocation decides: the node serves exactly until the end of that validity, or at no time from 0 on |
| Lease.ServesAsBefore | internal/node/subscriber.go:181-223 | and without either as long as at first |
| Lease.FenceIsLastAccepted | internal/node/subscriber.go:181-235 | over every run the fence is that of the last accepted envelope |
| Lease.OfferThenAsk | internal/node/subscriber.go:181-223 | after an accepted envelope the node serves exactly until its validity ends, after a refused one as before, after a revocation not |
| Sequencer.MemoryFenceSequencer.Stamp | internal/stringkv/sequencer.go:29-47 | 1 in a newer window, the next number in the same, refused for an older one or an invalid fence; a refusal changes nothing |
| Sequencer.PublishedIncreases | internal/stringkv/sequencer.go:26-47 | successful stamps strictly increase |
| Sequencer.SequenceCounts | internal/stringkv/sequencer.go:26-47 | from every state the n-th write published in a window gets sequence n, counted on from where the sequencer stood in that window |
| Sequencer.PublishedFencesDistinct | internal/stringkv/sequencer.go:9-13 | with distinct writer ids no two published fences are equal |
| Sequencer.SequencerNeverAhead | internal/stringkv/durable_hook.go:259-301 | in every run the sequencer and all taken fences are at or behind the lease |
| Sequencer.VerifiedStampFailsIff | internal/stringkv/durable_hook.go:193-205 | exactly when a write whose fence verified fails its stamp |
| Sequencer.VerifiedStampCanFail | internal/stringkv/durable_hook.go:286-290 | a run in which that happens |
| OplogSize.PlainEstimateBounds | internal/stringkv/durable_hook.go:245-257 | strings without escapes are always bounded |
| OplogSize.EstimateBoundsIff | internal/stringkv/durable_hook.go:245-257 | the estimate bounds the encoding under every stamp exactly when the escapes of map name, key and writer id fit in the room the operation leaves |
| OplogSize.RoomAtLeast | internal/oplog/oplog.go:29-47 | every operation leaves at least 18 bytes for escapes |
| OplogSize.RoomCanBeLeast | internal/oplog/oplog.go:29-47 | and some operation no more than that |
| OplogSize.EstimateFallsShort | internal/stringkv/durable_hook.go:245-257 | a family of keys for which the estimate is too small |
| DurableHook.CheckedAppendFitsIff | internal/stringkv/durable_hook.go:267-284 | after the room check an append fits at once on every capacity and cursor exactly when the reserve covers entry and worst padding; always up to 65536 aligned bytes |
| DurableHook.WorstCaseRefuses | internal/stringkv/durable_hook.go:267-284 | otherwise there is a ring that passes the check and refuses the append as full |
| DurableHook.WorstCaseIsARing | internal/ring/ring.go:186-227 | those cursors are the cursors of a ring |
| DurableHook.ReadyWriteFits | internal/stringkv/durable_hook.go:245-284 | so a covered write without escapes that passed the check fits at its first attempt |
| DurableHook.NewHook | internal/stringkv/durable_hook.go:107-131 | refuses exactly an empty writer id |
| DurableHook.Hook.BeforeMutation | internal/stringkv/durable_hook.go:133-176 | refuses a set or expire without a value; when ready the fence holds and the room was checked |
| DurableHook.Hook.Stamp | internal/stringkv/durable_hook.go:259-284 | takes the fence; refuses exactly on an expired lease or too little room |
| DurableHook.Hook.VerifyAfterLock | internal/stringkv/durable_hook.go:197-205 | passes exactly without a fence or with one that still holds |
| DurableHook.Hook.AppendWithBudget | internal/stringkv/durable_hook.go:323-348 | retries only a full ring and gives up on it only after the whole budget; success enqueues exactly the payload, failure nothing |
| DurableHook.Hook.AfterMutation | internal/stringkv/durable_hook.go:140-191 | an acknowledgement means one entry enqueued whose map, key, hash, kind, value, deadline and time stamp are the operation's, with the next fence of its window, and the sidecar notified; however many publishes fail, encoding included, the callback hears of one failure, or of none without a callback; a failed mutation publishes nothing |
| DurableHook.Hook.WholeWrite | internal/stringkv/durable_hook.go:133-318 | once the hook before the mutation said ready, a covered write whose stamp is not refused is acknowledged at its first attempt, whatever the consumer pops meanwhile |
| WriteThenRead.WriteDrainLoad | internal/sidecar/control.go:288-401 | for every codec that round-trips, an acknowledged write is pending after a drain that empties the ring, under its own map and key, with the operation's fields and the next fence; a load of the key returns its bytes before its deadline, and nothing after a delete |
| WriteThenRead.LastIsPending | internal/sidecar/control.go:288-311 | whatever was pending and on the ring before it, the last payload drained is the one pending for its key |
| EndToEnd.StampOrderIsAckOrder | internal/stringkv/durable_hook.go:286-318 | per-key stamp order is the order the write path relies on |
| EndToEnd.PublishedAcceptedIff | internal/oplog/oplog.go:60-83 | the sidecar accepts a published entry exactly when it names a map and its writer; generation and sequence are always valid |
| EndToEnd.PublishedRecordsUnique | internal/stringkv/sequencer.go:9-13 | records of writers with distinct ids have unique fences |
| EndToEnd.TablesConverge | internal/sidecar/backend_mysql.go:13-16 | a table fed by all of them does not depend on order, duplication or batching |
| EpochStore.SaveActKeeps | internal/watchdog/epoch_store.go:46-85 | one attempt of SaveEpoch keeps the counters safe and growing |
| EpochStore.GenerationActKeeps | internal/watchdog/epoch_store.go:87-129 | one attempt of NextGeneration does too |
| EpochStore.CountersAreSafe | internal/watchdog/epoch_store.go:46-129 | under every interleaving generations strictly increase in commit order and the stored epoch is at least every saved one |
| EpochStore.CountersNeverDecrease | internal/watchdog/epoch_store.go:46-129 | neither counter decreases along a run and neither loop loses the other's key |
| EpochStore.RetryMeansProgress | internal/watchdog/epoch_store.go:58-82 | a retry happens only because another client committed |
| EpochStore.OverflowRestarts | internal/watchdog/epoch_store.go:116-119 | the next generation is one more below the int64 maximum and 1 at it |
| EpochStore.LoneSave | internal/watchdog/epoch_store.go:46-85 | an undisturbed save leaves the larger of the two epochs and the generation as it was, and fails exactly on an epoch that does not parse |
| EpochStore.LoneGeneration | internal/watchdog/epoch_store.go:87-129 | an undisturbed call returns and stores the next generation and leaves the epoch as it was |
| EpochCalls.SaveImplementsCall | internal/watchdog/epoch_store.go:46-85 | a whole SaveEpoch, with other clients interleaved, acts like one save of the service's store |
| EpochCalls.LoadImplementsCall | internal/watchdog/epoch_store.go:28-44 | a LoadEpoch that returns a number acts like one load |
| EpochCalls.GenerationImplementsStart | internal/watchdog/epoch_store.go:87-129 | a NextGeneration that returns acts like one start, past every number answered before |
| Cluster.VisibleChangeRaisesEpoch | internal/watchdog/state.go:68-203 | any operation that alters the visible membership raises the epoch |
| Cluster.StepNeverGoesBack | internal/watchdog/state.go:285-306 | no operation lowers a resident node's (incarnation, rank) |
| Cluster.LifecycleNeverGoesBack | internal/watchdog/state.go:68-203 | nor does any run; a drained or removed node is revived only by a higher incarnation |
| Cluster.PruneRemovesExpired | internal/watchdog/state.go:180-198 | after a prune exactly the nodes heard from within the expiry remain |
| Cluster.PruneThenBeatShowsAll | internal/topology/service.go:267-277 | after prune and heartbeat the time filter of the member list removes nothing |
| Cluster.BeatIs | internal/watchdog/state.go:68-120 | what a heartbeat makes of the nodes, state by state: ready from joining, ready, suspect and unreachable; draining from joining, ready and suspect; leaving from ready, suspect and draining; removed from unreachable and leaving; else unchanged |
| Cluster.PodForIsLast | internal/watchdog/state.go:122-153 | a node is matched with the last observation of its pod name, or of its address if it has no name, and with none otherwise |
| Cluster.PodRuleIs | internal/watchdog/state.go:142-166 | what observations leave of a node |
| Cluster.PruneRuleIs | internal/watchdog/state.go:174-203 | what a prune leaves of a node |
| Cluster.SuspectIff | internal/watchdog/state.go:174-203 | over every run before its expiry, a joining or ready node is suspect exactly if some prune found its heartbeat too old |
| Cluster.SuspectRecovers | internal/watchdog/state.go:68-120 | its next heartbeat makes it ready, raises the epoch, and it is listed until that heartbeat expires |
| Cluster.ClusterState.ApplyHeartbeat | internal/watchdog/state.go:68-120 | stale exactly for a lower incarnation; else every field of the node, its state by what it was and what it reports, a change exactly if more than the time changed, and then one epoch more |
| Cluster.ClusterState.Sweep | internal/watchdog/state.go:142-166 | one pass applies the rule to every node and reports any change |
| Cluster.ClusterState.ApplyPodObservations | internal/watchdog/state.go:122-172 | each node by the last observation about it, removed state for a finished pod, deletion when unobserved and expired; a change exactly if more than the time changed |
| Cluster.ClusterState.PruneExpired | internal/watchdog/state.go:174-203 | exactly the nodes within the expiry stay, joining and ready ones with an old heartbeat as suspect; when a change is reported; the epoch as reported |
| Cluster.ClusterState.ListMembers | internal/watchdog/state.go:205-232 | exactly the nodes neither removed nor unreachable with a heartbeat within the expiry, their fields, sorted by id, with their last heartbeats and the epoch |
| Cluster.ClusterState.BumpEpochAtLeast | internal/watchdog/state.go:238-242 | the larger of the two epochs |
| Topology.Service.LoadEpochLocked | internal/topology/service.go:551-571 | loads once, raising the epoch to the stored one; an error leaves the stack unloaded and marked |
| Topology.Service.SaveEpochLocked | internal/topology/service.go:573-587 | persists or marks the error |
| Topology.Service.BroadcastLocked | internal/topology/service.go:361-376 | after a successful save exactly the channels of subscribers with room gain one envelope, with this generation, epoch, role and lease end; after a failed one none |
| Topology.Service.SendLatestLocked | internal/topology/service.go:378-388 | the one channel, with room, gains one such envelope unless the epoch may not be durable |
| Topology.Service.PruneExpiredLocked | internal/topology/service.go:342-359 | expiry; after a change exactly the listed subscribers stay and, if saved, exactly those with room hear of it |
| Topology.Service.RegisterHeartbeatLocked | internal/topology/service.go:258-294 | load, prune, heartbeat, subscription, push; if the epoch rose and was saved every subscriber with room has it last in its channel |
| Topology.Service.ObservePodsLocked | internal/topology/service.go:146-161 | load, observe; exactly if the epoch rose and was saved every subscriber with room, and no other channel, gains the envelope |
| Topology.Service.GetTopologyLocked | internal/topology/service.go:163-184 | answers only with a persisted epoch, exactly when load and save succeed; a standby answers with its role |
| Topology.Service.UnregisterLocked | internal/topology/service.go:296-304 | forgets the subscriber only if it is still the current one |
| Topology.Service.ReapLocked | internal/topology/service.go:306-316 | a primary prunes |
| Topology.Service.BookwormLocked | internal/topology/service.go:318-328 | a primary broadcasts its snapshot |
| Topology.Service.SetStandby | internal/topology/service.go:503-528 | each subscribed channel loses its oldest envelope and gains a standby one if there is room; every subscriber is forgotten |
| Topology.MutateIsHeard | internal/topology/service.go:361-376 | a change is heard of by exactly the subscribers with room if its epoch was saved, and nothing else is heard |
| Topology.PruneIsHeard | internal/topology/service.go:342-359 | so is a prune, by the subscribers still listed |
| Topology.BeatIsHeard | internal/topology/service.go:267-293 | a stale heartbeat does nothing; any other subscribes its channel; without a change only a lagging sender hears, unless the epoch may not be durable |
| Topology.HeartbeatReaches | internal/topology/service.go:258-294 | after a whole heartbeat that raised the epoch, whichever part did, every subscriber with room has the new epoch last in its channel; the sender if it lags |
| Topology.ClusterAfter | internal/topology/service.go:146-328 | which membership changes each operation makes, in which order |
| TopologySteps.BroadcastKeeps | internal/topology/service.go:361-376 | a broadcast establishes "loaded and no error implies the epoch is persisted" even right after the epoch was raised |
| TopologySteps.OpKeeps | internal/topology/service.go:146-388 | every service operation keeps it, and only adds its own envelopes at its epoch or later |
| TopologySteps.StepKeeps | internal/topology/service.go:258-294 | every step of watchdogs, store and nodes keeps the global invariant |
| TopologySteps.EnvelopesAreDurable | internal/topology/service.go:361-388 | in every run each envelope in a channel and each followed by a node has a persisted epoch |
| TopologySteps.NewestIsNeverStale | internal/node/subscriber.go:181-211 | in every run no envelope of a subscription is refused as stale by epoch, and none of the newest primary as stale at all |
| TopologySteps.RecoveredEpochDominates | internal/topology/service.go:364-368 | a watchdog that loads starts at or above every epoch seen by anyone |
| TopologySteps.FollowsEach | internal/node/subscriber.go:132-211 | in every run a node that takes k unexpired envelopes of the newest primary follows the k-th |
| TopologySteps.ChangeIsFollowed | internal/topology/service.go:258-294 | in every run, after a heartbeat that raised the epoch at the newest primary, every subscribed node with room that takes what its channel holds before it expires follows that primary at the new epoch until the lease end |
| Stacks.OperationLeaksIff | internal/topology/service.go:258-294 | whatever state a stack is in, an operation queues an epoch that is not persisted exactly when it is an unchanged heartbeat of a lagging node under a clear flag and an unsaved epoch |
| Stacks.RunDurableIff | internal/topology/service.go:361-388 | a run of a service with any stacks keeps its channels durable throughout exactly when no step of it is such a heartbeat |
| Stacks.MaskComesFromOthers | internal/topology/service.go:573-587 | a stack gets into that state only by an operation of another stack that clears the flag its own failed save raised |
| Stacks.OneStackNeverLeaks | internal/topology/service.go:361-388 | with one stack no run leaks |
| Stacks.TwoStacksLeak | internal/topology/service.go:73-74 | with any two stacks, any stored epoch and any ready node, a run of three operations leaks |
| EntryCodec.RoundTripIff | internal/olricstore/entry.go:57-93 | decoding undoes encoding exactly for keys up to 255 bytes and values below 2^32 bytes |
| EntryCodec.WordRoundTrip | internal/olricstore/entry.go:66-88 | negative numbers survive the unsigned big-endian form |
| EntryCodec.Parts | internal/olricstore/entry.go:57-76 | at which offsets key, deadline, time stamp, last access, value length and value lie |
| EntryCodec.Entry.Encode | internal/olricstore/entry.go:57-76 | fills the buffer with the encoding |
| EntryCodec.Entry.Decode | internal/olricstore/entry.go:78-93 | replaces the entry by the decoded one, exactly when every read is in bounds |
| Engine.Store.Scan | internal/olricstore/engine.go:228-263 | one page: the accepted keys and the continuation cursor |
| Engine.Store.SortedKeys | internal/olricstore/engine.go:230-236 | exactly the keys at or past the cursor, ascending |
| Engine.PageIsUnique | internal/olricstore/engine.go:228-263 | a scan of given entries has one result |
| Engine.PageFacts | internal/olricstore/engine.go:243-262 | a page misses no matching key before the cursor it returns, and that cursor increases |
| Engine.PageIsExact | internal/olricstore/engine.go:228-263 | whatever the callback does, a page holds exactly the matching keys from the cursor to the one returned, at most count, exactly count when it stops early without a rejection, and without a count it does not stop early |
| Engine.RejectionLooksDoneIff | internal/olricstore/engine.go:251-253 | a page returns the cursor that means done after a rejection exactly when a scan from the start meets key 0, matching and rejected |
| Engine.RejectionCanLookDone | internal/olricstore/engine.go:251-253 | such a page exists |
| Engine.IterationIsBounded | internal/olricstore/engine.go:216-263 | cursors strictly increase, so an iteration ends within the key space |
| Engine.IterationIsSound | internal/olricstore/engine.go:228-263 | an iteration emits nothing that did not match in one of the states it read |
| Engine.IterationIsComplete | internal/olricstore/engine.go:216-263 | a finished iteration emits every matching entry present throughout exactly once, in key order, whatever changes between calls, and nothing that never matched |

## Left out

- Mapping, creating and checking the ring file; the model starts from the state that creation leaves, without the 64 header bytes.
- Conservation.StepLosesIff: pops of concurrent drainers are single steps of the write path; what two consumers do to the ring inside a pop is proved apart, in `RingTwoConsumers`, and not joined with it.
- SidecarRuns.OfferRun: payloads of 2^32 bytes or more are not offered; what they do to the ring is in `Ring.Append` and `Ring.Pop`.
- RPC handlers and clients, the socket transport, JSON and protobuf codecs; encoded length is modelled, encoded bytes are not.
- OplogSize.EstimateBoundsIff: strings are taken as byte strings; the replacement of invalid UTF-8 and the escapes of U+2028 and U+2029 are not modelled.
- Upsert.Backend.UpsertEntries: transactions and collation of the database are not modelled; a failed call may have applied any prefix.
- The storage fork that calls the hooks; its call order and per-key serialization are premises.
- Reconcilers, workload builders, the operator, command-line programs, environment parsing, the RESP server and thin service wrappers.
- Timers, backoff durations and the demotion drain window; time is an input and the retry budget a number of retries.
- SharedRing.Ring.Append: what the producer does to a ring that a cut payload has poisoned is not described.
- Cluster.ClusterState.ApplyHeartbeat: int64 overflow of the epoch is not modelled.
- Topology.Service.BroadcastLocked: member lists inside envelopes are not carried; a full subscriber buffer is an input, not a count of eight.
- The race between a role change and an operation already running; roles change between operations.
- Sequencer.MemoryFenceSequencer.Stamp: int64 overflow of the sequence is not modelled.
- EntryCodec.Entry.Decode: a panic is a result of false, and a buffer has no capacity beyond its length.
- TopologySteps.RecoveredEpochDominates: making a demoted service primary again under a new generation is no step; as deployed, a watchdog that loses leadership exits.
- Topology.Service.RegisterHeartbeatLocked: closing the stream of a replaced subscriber is not part of the operation; a stream may end at any step.
- TTL updates, ranges, statistics and the transfer iterator of the engine.
