# Link Quality Fabric: a verified model

Link Quality Fabric collects measurements of network links, tracks counters across
wraps and resets, keeps an append-only journal, and derives quality states only from
evidence that supports them. This project models its state machines in Dafny and
proves what they promise over whole runs and for all inputs. Verify it with
`dafny verify dfyconfig.toml`.

| files | what they model |
|---|---|
| `LockGraph`, `LockAudit`, `LockReport`, `LockRing`, `LockTracker` | the runtime lock auditor: a depth-bounded search over recorded lock order, driven by interleaved threads, and what its counters count |
| `Bytes`, `Crc32c` | little endian integers, and CRC-32C as defined in section 12.1 of RFC 3720 |
| `JournalFormat`, `JournalReading`, `JournalInputs`, `JournalReader` | the journal's byte format, the recovering reader, torn-tail repair, and recovery of arbitrary bytes |
| `JournalProtocol`, `JournalCrash`, `JournalAftermath`, `BackgroundJournal` | producer, writer thread, flush, compaction and stop as steps, with crashes and recoveries |
| `Counter`, `CounterEvents`, `CounterContinuity` | counter continuity with modular arithmetic: deltas, events, tallies and intervals |
| `Evidence`, `EvidenceStream`, `EvidenceSnapshot`, `EvidenceAsOf`, `EvidenceReorder`, `MeasuredRates`, `StoreModel`, `StoreBounds`, `StoreObject` | the evidence store: duplicate window, snapshots, questions about an earlier instant, where a rate comes from, what is kept |
| `Ingest`, `IngestCalls`, `FabricObject` | the ingest path between store and journal, and replay |
| `Severity`, `Bands`, `Classifier`, `LinkQuality`, `LaneVerdict` | which quality state evidence supports |
| `LinkGenerations`, `LinkCounts`, `RegistryObject` | fencing of link generations, and what is known of each |
| `Restart`, `RestartCases` | registry and store together, through events and restarts from snapshots |
| `Recovery`, `RecoveryRuns`, `RecoveryCases` | the journal between compactions, with evictions: what a restart makes of it at any moment |
| `Archive`, `ArchiveObject` | the field codec, over a universe of field types |

Code that changes state step by step is modelled by classes and loops
(`LockTracker`, `JournalReader`, `BackgroundJournal`, `CounterContinuity`, `StoreObject`,
`FabricObject`, `RegistryObject`, `ArchiveObject` and the methods of `Crc32c`, `Severity`,
`Bands`, `Classifier` and `LinkQuality`). Each method is tied to a function of the old
state, and the results are about those functions: what they decide is stated apart from
their own text, by histories, by the bytes or records at hand, or by when exactly an
outcome occurs.

How the environment enters the model: a file is a byte sequence and a crash cuts it
anywhere at or behind what was last synced; system calls succeed or fail as a parameter
says; a lock is a step; clocks, epochs and stamps are inputs; doubles are reals (or
extended reals for thresholds), so `boundary` is the floor of a product; the evidence
digest and, outside `Crc32c`, the checksum are arbitrary functions of the content.

## Where the code does not do what it promises

Each of these is stated as a lemma, together with the exact condition under which the
promise holds.

- The lock audit searches to depth 32. It is sound for up to 34 locks and for no larger
  number (`LockRing.AuditSoundExactly`).
- The journal admits bodies up to the record limit, the reader bounds body and prefix
  together: a record comes back if and only if its body is at least 9 bytes below the
  limit (`JournalReading.ReadBackExactly`).
- After a failed compaction the old file is reopened at its start. Until a record is
  written every cut is recovered as before (`JournalCrash.RewoundStillReadable`); from
  the first one on the file cannot be opened (`JournalCrash.RewoundIsUnreadable`).
- A crash while the very first header is written leaves a file that is refused
  (`JournalCrash.HeaderCut`).
- An interval that overflows is reported as the largest one, so an interval without a gap
  is exact if and only if the configured gap is smaller than that
  (`Counter.GaplessExactly`).
- The largest sequence number, seen twice in a row, counts as 2^64 - 1 missing samples; in
  all other cases the count is true (`CounterEvents.MissingExactly`).
- A sequence exactly one window behind is accepted, even for the second time
  (`EvidenceStream.DecisionExact`).
- Snapshots and questions about an earlier instant feed late records the live tracker
  never saw (`EvidenceReorder.ReorderedSnapshot`, `EvidenceReorder.ReorderedAsOf`). For
  counters that rise with their sequence, `EvidenceReorder.SnapshotExactly` and
  `EvidenceReorder.AsOfExactly` say exactly when the verdict is the live one.
- The comment at `include/lqf/persist/journal.hpp:144-146` says that a refused record
  never leaves the state ahead of persistence. The journal is probed once, before the
  first change. Memory gets ahead exactly when a record is refused after that: because it
  does not encode within the record limit, because the journal failed since, or because
  the record of a new link took the last slot (`Ingest.IngestKeepsStep`,
  `Ingest.PublishKeepsStep`).
- Once the record of a policy is refused, every later one is out of sequence and skipped
  by replay, so until the next compaction no restart comes back with the current policy
  (`Ingest.PolicyLostForGood`). The note that recovery was degraded by such a record
  (`src/runtime/fabric.cpp:220-225`) is overwritten right after the loop (`:227`).
- A restart registers the links of a snapshot first and drops the streams of evicted
  ones at the first evidence record. That record is lost if its link is one of them, and
  its stream is not restored exactly if it was the only one of it
  (`Restart.RestoredExactly`, `RestartCases.RestartLoses`). After such a loss a later
  restart can go wrong although nothing counts as lost (`RestartCases.LossSpreads`).
- Replay of a registered link leaves its evictions pending until the next evidence or
  generation record. A restart stays in step exactly as long as no evidence arrives for a
  link it has pending (`Recovery.StepExactly`, `RecoveryCases.ReplayLoses`), and a
  compaction exactly if no stream is waiting to be dropped (`RecoveryRuns.CompactExactly`,
  `RecoveryCases.CompactedTooSoon`). Without late evidence, and with compactions only at
  such moments, it always does (`RecoveryRuns.RecoveredAlways`).
- Only the lists of generations are bounded: late evidence re-registers evicted
  generations without limit (`LinkGenerations.LateEvidenceUnbounded`). Each step keeps
  all registered links listed, and so within the configured bound, exactly if it is not
  such evidence (`LinkGenerations.StepListed`, `LinkGenerations.LinksBounded`).
- A vector whose elements take no bytes is encoded but not decoded
  (`Archive.VectorReadBack`). No type the repository persists has such elements, so the
  input of `Archive.VectorOfNothing` is hypothetical.

## Model

| member | source | states |
|---|---|---|
| `LockGraph.ReachesExact` | src/core/lock_tracker.cpp:55-71 | for up to 34 locks the bounded search finds a path from one lock to another if and only if there is one |
| `LockGraph.ReachesSound` | src/core/lock_tracker.cpp:55-71 | a hit at any depth is a real path, whatever the graph |
| `LockGraph.ReachesComplete` | src/core/lock_tracker.cpp:55-71 | every path short enough for the remaining depth is found |
| `LockGraph.AcyclicAfterAdd` | src/core/lock_tracker.cpp:127-169 | the graph with one more order recorded is acyclic if and only if it was before and no path leads back |
| `LockAudit.StepKeeps` | include/lqf/core/lock_tracker.hpp:73-104 | every step of every thread keeps the invariant tying held lists, owned locks and recorded order together |
| `LockAudit.RunKeeps` | src/core/lock_tracker.cpp:100-191 | the invariant holds in every state of every interleaving |
| `LockAudit.InversionExact` | src/core/lock_tracker.cpp:127-139 | in every run over up to 34 locks, an inversion was reported if and only if the recorded order has a cycle |
| `LockAudit.NoCircularWait` | src/core/lock_tracker.cpp:100-175 | in every run over up to 34 locks with no violation reported, no edge was dropped and no set of threads waits in a circle |
| `LockAudit.AcyclicBound` | src/core/lock_tracker.cpp:156-169 | an acyclic order uses at most half of all pairs of locks, so up to the first inversion the edge table has room |
| `LockAudit.NothingDropped` | src/core/lock_tracker.cpp:156-169 | with up to 32 locks the edge table cannot overflow, whatever was violated |
| `LockRing.AuditSoundExactly` | src/core/lock_tracker.cpp:55-58 | silence of the audit rules out circular waits if and only if there are at most 34 locks; with 35 a run deadlocks unreported |
| `LockReport.ReentriesExact` | src/core/lock_tracker.cpp:105-124 | over every interleaving and any number of locks, the reentrancy counter is the number of acquisitions of a lock the thread already lists |
| `LockReport.InversionsExact` | src/core/lock_tracker.cpp:125-175 | over at most 34 locks, the inversion counter is the number of listed locks, over all other acquisitions, that the order recorded so far puts behind the one asked for |
| `LockReport.ReportExact` | src/core/lock_tracker.cpp:100-175 | violations are exactly those two together, and without a reentry there are some if and only if the recorded order has a cycle |
| `LockReport.ReentryIsTrue` | src/core/lock_tracker.cpp:100-191 | in every run a lock listed for a thread is one it owns, asks for or is giving back, so a reported reentry is an acquisition of a lock the thread owns |
| `LockReport.BoundsHold` | src/core/lock_tracker.cpp:148-168 | in every run the edge table holds at most 1024 orders and a held list at most 64 locks |
| `LockReport.PoppedNewest` | src/core/lock_tracker.cpp:177-191 | a release forgets the newest entry for its lock and keeps all others in order |
| `LockReport.PoppedAbsent` | src/core/lock_tracker.cpp:177-191 | and none if the lock is not listed |
| `LockTracker.LockRegistry.AuditOne` | src/core/lock_tracker.cpp:125-169 | auditing one held lock turns the registry into exactly the one the runs are about |
| `LockTracker.BeforeAcquire` | src/core/lock_tracker.cpp:100-175 | reentrancy check, audit of every held lock and push, as one function of registry and held list; what that function reports is LockReport.ReportExact |
| `LockTracker.AfterRelease` | src/core/lock_tracker.cpp:177-191 | removes the most recent occurrence of the lock from the held list and nothing else |
| `Bytes.LittleEndianRoundTrip` | src/persist/journal.cpp:41-65 | decoding an encoded integer gives it back for every value of the width |
| `Bytes.FromLittleEndianRoundTrip` | src/persist/codec.cpp:21-37 | encoding a decoded integer gives the bytes back for every byte string |
| `Crc32c.TableEntry` | src/core/hash.cpp:28-33 | each table entry is eight steps of bitwise division |
| `Crc32c.BuildTable` | src/core/hash.cpp:26-35 | the table holds that for every byte |
| `Crc32c.ComputeCrc` | src/core/hash.cpp:59-67 | the table-driven loop computes the bit-serial checksum for every input and seed |
| `Crc32c.RegisterIsDivision` | src/core/hash.cpp:59-67 | working byte by byte is polynomial division bit by bit |
| `Crc32c.CrcConcat` | src/core/hash.cpp:59-67 | the checksum of a concatenation is the checksum of its end, seeded with that of its start |
| `Crc32c.BurstDetected` | src/core/hash.cpp:59-67 | any change confined to four adjacent bytes changes the checksum, whatever surrounds it, for every polynomial whose top bit is set |
| `Crc32c.CastagnoliBurst` | src/core/hash.cpp:22-67 | in particular for the polynomial in use |
| `Crc32c.PolynomialIsCastagnoli` | src/core/hash.cpp:26-33 | the constant spells x^32 + x^28 + x^27 + x^26 + x^25 + x^23 + x^22 + x^20 + x^19 + x^18 + x^14 + x^13 + x^11 + x^10 + x^9 + x^8 + x^6 + 1, reversed and without its top power |
| `JournalFormat.HeaderRoundTrip` | src/persist/journal.cpp:112-145 | every header that is built is accepted and returns its epoch |
| `JournalFormat.CutRecords` | src/persist/journal.cpp:147-161 | any cut of encoded records is some whole records and a proper piece of the next |
| `JournalReading.RecoverExact` | src/persist/journal.cpp:331-434 | a journal cut anywhere behind its header gives back exactly its whole records, is called torn if and only if the cut is inside a record, is never called corrupt, and loses only the piece |
| `JournalReading.SecondRecoveryClean` | src/persist/journal.cpp:475-511 | after a recovery with repair, another one finds the same records and nothing to repair |
| `JournalReading.ReadBackExactly` | src/persist/journal.cpp:361-367 | a record alone in a journal is read back if and only if body and prefix fit the record limit; otherwise it is discarded as torn |
| `JournalReading.DamageRecovery` | src/persist/journal.cpp:379-393 | a journal whose record k was altered so that the checksum notices is recovered to exactly the records before it, or refused if an intact record follows in the scanned bytes |
| `JournalReading.BurstRecovery` | src/persist/journal.cpp:379-473 | with CRC-32C that holds for every alteration within four adjacent payload bytes |
| `JournalInputs.HeaderFaults` | src/persist/journal.cpp:126-145 | which part of a 40-byte header is wrong: magic, then version, then checksum; none exactly if it is accepted |
| `JournalInputs.ScanExactly` | src/persist/journal.cpp:436-473 | the forward scan succeeds if and only if an intact record starts at some later byte and ends within the scanned chunks |
| `JournalInputs.StopsSomewhere` | src/persist/journal.cpp:331-434 | every byte string behind a header is some verified records, in sequence and within the limits, followed by something that is no further one |
| `JournalInputs.RecoverExactly` | src/persist/journal.cpp:331-434 | recovery of any such file returns exactly those records; what follows them decides between complete, torn, limit reached and refused |
| `JournalInputs.RefusedExactly` | src/persist/journal.cpp:263-434 | a file is refused if and only if its header is bad or what follows the verified records is intact but out of sequence or of no kind, or broken with an intact record ahead |
| `JournalInputs.RecoveredInSequence` | src/persist/journal.cpp:395-419 | whatever the file, recovered records have consecutive ordinals and are spelled by its first bytes |
| `JournalInputs.BrokenSequenceRefused` | src/persist/journal.cpp:395-419 | a verified prefix followed by an intact record with another ordinal, or an unknown kind, is refused |
| `JournalReader.Reader.Open` | src/persist/journal.cpp:263-329 | opens an empty or well-headed file at its first record and refuses any other |
| `JournalReader.Reader.IntactRecordFollows` | src/persist/journal.cpp:436-473 | finds an intact record in the scanned bytes if and only if there is one at some offset |
| `JournalReader.Reader.Next` | src/persist/journal.cpp:331-434 | one call advances the reader exactly as the cursor function says and returns its record; what that makes of arbitrary bytes is JournalInputs.RecoverExactly |
| `JournalReader.Reader.RepairTornTail` | src/persist/journal.cpp:475-511 | cuts the file back to the last verified record |
| `JournalReader.RecoverJournal` | src/runtime/fabric.cpp:196-251 | opening, replaying and repairing together compute the recovery that JournalInputs.RecoverExactly and the crash results are about |
| `JournalProtocol.StepKeeps` | src/persist/journal.cpp:574-832 | every critical section keeps: file, record in flight and queue make up the accepted records in order, ordinals are consecutive, the queue stays within its bound, what was vouched for is synced |
| `JournalProtocol.DrainOne` | src/persist/journal.cpp:574-627 | one round of the writer keeps that invariant |
| `JournalProtocol.IdleIsWritten` | src/persist/journal.cpp:682-705 | before a write failure, an idle journal has every accepted record on file |
| `JournalCrash.RunKeeps` | src/persist/journal.cpp:520-832 | the invariant holds in every state of every run, through any number of crashes and recoveries |
| `JournalCrash.CrashRecovers` | src/persist/journal.cpp:331-511 | at any moment of any run, cutting the file at any byte not synced recovers a prefix of the accepted records that includes all that was vouched for, torn if and only if off a boundary, and cleanly the second time |
| `JournalCrash.NeverRefused` | src/runtime/fabric.cpp:227-236 | no crash of such a run leaves a journal that recovery refuses |
| `JournalCrash.FlushKeepsPromise` | src/persist/journal.cpp:682-705 | a flush reports success if and only if the journal is open, unfailed and synced, and then has every record accepted before it synced |
| `JournalCrash.FlushedSurvives` | src/persist/journal.cpp:682-705 | after such a flush, a crash at any later moment and byte, through any crashes, recoveries and compactions in between, recovers every one of those records or a later snapshot that covers it, and all of them in order while no snapshot replaced them |
| `JournalCrash.FlushHappens` | src/persist/journal.cpp:574-705 | every record that fits has a run in which it is accepted, written and about to be flushed with success, so the promises are not empty |
| `JournalCrash.StopKeepsPromise` | src/persist/journal.cpp:800-832 | a stop reports success if and only if no write and no sync failed, and then leaves every accepted record synced |
| `JournalCrash.AppendExactly` | src/persist/journal.cpp:645-680 | at any moment of any run an append is accepted, under the next ordinal, if and only if the journal is open, accepting and unfailed, with room for it and a body within the limit |
| `JournalCrash.CompactionExactly` | src/persist/journal.cpp:707-731 | at any moment of any run a compaction goes ahead if and only if the journal is open and unfailed: its snapshot never misses a record on file |
| `JournalAftermath.NothingAfterFailure` | src/persist/journal.cpp:645-731 | once a journal failed or was closed, until it is recovered nothing is appended, no flush succeeds and no compaction goes ahead, and after a failure no stop succeeds |
| `JournalAftermath.SyncFailureShows` | src/persist/journal.cpp:629-705 | a sync that fails, in a flush or when the writer exits, fails the journal |
| `JournalAftermath.CleanExit` | src/persist/journal.cpp:580-640 | a writer that exits without a failure leaves every accepted record on file and synced |
| `JournalAftermath.StopCloses` | src/persist/journal.cpp:800-832 | a stop closes the journal, and has synced it if the sync went through |
| `JournalAftermath.ExpectedExact` | src/persist/journal.cpp:607-617 | in every state of every run the ordinal the writer expects, between two writes, is one above that of the last record on file |
| `JournalCrash.HeaderCut` | src/persist/journal.cpp:546-560 | a file cut inside its header is refused; only the empty file and the whole header can be opened |
| `JournalCrash.RewoundStillReadable` | src/persist/journal.cpp:780-790 | after a failed compaction every cut of the file is still recovered, with all that was vouched for, as long as nothing is written |
| `JournalCrash.RewoundIsUnreadable` | src/persist/journal.cpp:780-790 | any record written next makes every cut of the file unreadable |
| `BackgroundJournal.BackgroundJournal.constructor` | src/persist/journal.cpp:527-572 | opens exactly what recovery left, idle and accepting |
| `BackgroundJournal.BackgroundJournal.Append` | src/persist/journal.cpp:645-680 | accepts a record if and only if the protocol admits it, and otherwise changes nothing |
| `BackgroundJournal.BackgroundJournal.WriterWrite` | src/persist/journal.cpp:597-606 | in every state that keeps the invariant, the file becomes the header and exactly the first records of the log, one more than before |
| `BackgroundJournal.BackgroundJournal.WriterWriteFails` | src/persist/journal.cpp:618-623 | wherever the write stopped, the whole records stay at the start of the file, the invariant is kept and no record is accepted any more |
| `BackgroundJournal.BackgroundJournal.WriterDrain` | src/persist/journal.cpp:574-627 | left alone, the writer ends with the queue empty and the whole log on file, in order |
| `BackgroundJournal.BackgroundJournal.FlushEnd` | src/persist/journal.cpp:682-705 | if it succeeds once its wait is over, everything accepted before the call is on file and synced |
| `BackgroundJournal.BackgroundJournal.CompactProceed` | src/persist/journal.cpp:717-734 | it goes on only with the writer idle, every accepted record on file and a snapshot that covers all of them |
| `BackgroundJournal.BackgroundJournal.CompactImage` | src/persist/journal.cpp:742-766 | the temporary file is a journal holding exactly the snapshot |
| `BackgroundJournal.BackgroundJournal.CompactSwap` | src/persist/journal.cpp:767-788 | the snapshot file becomes the journal and ordinals go on from it |
| `BackgroundJournal.BackgroundJournal.StopEnd` | src/persist/journal.cpp:800-832 | if it succeeds once the writer has exited, every accepted record is on file and synced |
| `Counter.DeltaExact` | src/domain/counter.cpp:45-83 | every delta is the difference of two readings modulo the declared width, and a wrap is claimed only within modulus minus ceiling plus floor |
| `Counter.DeltaExactlyWhen` | src/domain/counter.cpp:45-83 | a step gives a delta if and only if identity, width, order, range and reset claims hold and the reading did not fall, or fell from above modulus times ceiling fraction to below modulus times floor fraction with inference on; otherwise a fall is unproven |
| `Counter.FollowedExactly` | src/domain/counter.cpp:45-83 | an increment is followed wherever the counter stands, as an advance or a proven wrap, if and only if it is at most one above the floor and not above what lies beyond the ceiling |
| `Counter.IncrementSeen` | src/domain/counter.cpp:245-299 | every such increment of an unbounded counter is reported, with its true value |
| `Counter.TrueIncrement` | src/domain/counter.cpp:245-299 | for readings of an unbounded counter a delta is the true increment if and only if the counter moved by less than the modulus |
| `Counter.TrueIncrements` | src/domain/counter.cpp:142-300 | over a whole in-order stream of such readings every reported delta is the true increment |
| `Counter.StretchBalances` | src/domain/counter.cpp:245-299 | along any stretch of advances and wraps, first value plus deltas is last value plus modulus times wraps, through any change of configuration |
| `Counter.LastTwoDecide` | src/domain/counter.cpp:142-300 | what a tracker says after two readings in order does not depend on anything before them |
| `Counter.InOrderRun` | src/domain/counter.cpp:142-300 | on in-order streams no event complains of order, identity or range, each sample falls under one tally, and missing samples are exactly the rest of the sequence distance covered |
| `Counter.WholeStreamCovered` | src/domain/counter.cpp:245-247 | without resets or width changes that distance is the whole stream |
| `Counter.GaplessExactly` | src/domain/counter.cpp:249-259 | intervals without a gap are exact for all readings if and only if the configured gap is below the largest representable interval |
| `Counter.RateInterval` | src/domain/counter.cpp:249-299 | a rate is admissible if and only if there is a delta over a positive time inside the gap, and its interval is that time; the earliest representable time begins none |
| `CounterEvents.FirstBreachDecides` | src/domain/counter.cpp:142-243 | of the seven claims a difference rests on, in the order they are checked, the event names the first that fails |
| `CounterEvents.OutOfRangeForgets` | src/domain/counter.cpp:185-195 | across a value out of range no delta is given |
| `CounterEvents.RegressedIgnored` | src/domain/counter.cpp:209-221 | a reading out of sequence changes nothing but the tallies of everything said later |
| `CounterEvents.TalliesCount` | src/domain/counter.cpp:142-300 | over any stretch of readings every tally is the number of steps, gaps or missing samples it stands for |
| `CounterEvents.MissingExactly` | src/domain/counter.cpp:245-247 | the samples between two sequence numbers are counted truly if and only if the two are not both the largest |
| `CounterEvents.IntervalExactly` | src/domain/counter.cpp:249-259 | the interval of a delta is the time between its readings, zero if that is negative and the longest one if it cannot be represented, and spans a gap exactly if it is not positive or above the bound |
| `CounterContinuity.CounterContinuity.Observe` | src/domain/counter.cpp:142-300 | the branches of the source, in their order, compute the tracker function and report its event and delta; Counter.DeltaExactlyWhen and CounterEvents say when it gives which |
| `CounterContinuity.CounterContinuity.Difference` | src/domain/counter.cpp:245-300 | the differencing part alone: advance, wrap or unproven decrease |
| `EvidenceStream.RunFaithful` | src/store/evidence_store.cpp:97-151 | over any run the duplicate window is the full acceptance history cut to the window, and watermark, fed sequence and latest fed record agree |
| `EvidenceStream.DecisionExact` | src/store/evidence_store.cpp:97-125 | the bounded store decides as an unbounded one would if and only if the sequence is not one accepted before and now exactly one window behind |
| `EvidenceStream.AcceptedTwice` | src/store/evidence_store.cpp:116-151 | a sequence accepted before is accepted again if and only if it is exactly one window behind |
| `EvidenceStream.AcceptedTwiceHappens` | src/store/evidence_store.cpp:116-151 | for every window size there is a run in which that happens |
| `EvidenceStream.WindowBounded` | src/store/evidence_store.cpp:140-151 | the window never holds more entries than it is wide |
| `EvidenceStream.FedInOrder` | src/store/evidence_store.cpp:153-183 | the live tracker has seen exactly the fed readings, in ascending order of sequence, whatever the arrival order |
| `EvidenceStream.TrackerOrderly` | src/store/evidence_store.cpp:82-83 | in every stream ingest can produce, the tracker never reports a regression, a changed identity or an out of range value, and its missing samples account for the distance covered |
| `EvidenceStream.RateExact` | src/store/evidence_store.cpp:153-183 | a rate of a stored stream is over the exact positive time between the last two readings fed |
| `EvidenceSnapshot.RunRing` | src/store/evidence_store.cpp:179-190 | every retained record inside the window carries the digest the window knows, and the one at the watermark is the latest fed |
| `EvidenceSnapshot.ReplayAscending` | src/runtime/fabric.cpp:355-392 | records replayed in sequence order are all accepted, and nothing else enters the window |
| `EvidenceSnapshot.AppendSound` | src/store/evidence_store.cpp:97-190 | window, marks, latest fed record and ring agree after every arrival if they did before |
| `EvidenceSnapshot.StreamRestored` | src/store/evidence_store.cpp:262-331 | a snapshot of any stream in which they agree, restored before or not, restores its window, watermark, fed sequence and latest fed observation, and they agree again |
| `EvidenceSnapshot.SameDecisionsForever` | include/lqf/store/evidence_store.hpp:106-107 | streams restored so decide alike on everything that may ever arrive |
| `StoreModel.StoreRunSound` | src/store/evidence_store.cpp:69-95 | through any ingests, drops and loads of its own snapshots, each stream is sound and holds only its own records, and no link has more streams than allowed |
| `StoreModel.StoreRestored` | src/store/evidence_store.cpp:262-331 | replaying the records and windows of any such store into an empty one restores every stream, in whatever order streams are written, and gives such a store again; the drop of evicted links in between is in Restart |
| `StoreModel.StoreDecidesAlike` | include/lqf/store/evidence_store.hpp:106-107 | after any further run of ingests and drops, live and restored store decide alike, capacity included |
| `StoreObject.FenceWindow` | src/store/evidence_store.cpp:142-151 | erasing oldest entries first leaves exactly those less than a window behind |
| `StoreObject.Offer` | src/store/evidence_store.cpp:97-190 | duplicate, mismatch, fence or acceptance, with all its updates to a stream |
| `StoreObject.RetainedRecords` | src/store/evidence_store.cpp:262-293 | latest fed record and ring, each sequence once, in ascending order, none missing |
| `StoreObject.SnapshotRecords` | src/store/evidence_store.cpp:262-340 | every such store has a snapshot: the loop over its streams writes one |
| `StoreObject.SeedStream` | src/store/evidence_store.cpp:308-331 | puts a saved window back entry by entry and trims it from the oldest |
| `StoreObject.EvidenceStore.Append` | src/store/evidence_store.cpp:78-200 | the store becomes the function of the old one that the results are about, and the outcome is its decision; what a counter record and its declared reset do to the tracker is in MeasuredRates.AsOfMeasured |
| `StoreObject.EvidenceStore.SeedDedupWindow` | src/store/evidence_store.cpp:308-331 | the same for seeding, creating the stream if there is room |
| `StoreObject.EvidenceStore.DropLink` | src/store/evidence_store.cpp:342-361 | forgets every stream and record of one link, and its stream count, and nothing else |
| `StoreBounds.BoundsAlways` | src/store/evidence_store.cpp:78-361 | through any ingests, drops and restarts no link has more streams, and the history no more records, than configured |
| `StoreBounds.TurnedAwayExactly` | src/store/evidence_store.cpp:83-94 | a record or saved window is turned away, without effect, if and only if its stream is not there and its link has as many as it may |
| `StoreBounds.HistoryNewest` | src/store/evidence_store.cpp:192-195 | the history is the newest of all records accepted, as many as it may hold |
| `StoreBounds.SeedExactly` | src/store/evidence_store.cpp:308-331 | seeding overwrites the digests listed, keeps the largest sequences the window has room for, raises the watermark to the largest sequence, and leaves the rest of the stream alone |
| `EvidenceAsOf.AsOfExact` | src/classify/classifier.cpp:55-73 | for an orderly stream, a question about an earlier instant gets the verdict and record the live stream had then, if nothing was dropped or two records up to then remain |
| `EvidenceAsOf.ForeignAlwaysSeen` | src/classify/classifier.cpp:53-73 | a record recovered or received by another process counts at every instant |
| `EvidenceAsOf.ReconstructPrefix` | src/classify/classifier.cpp:190-210 | reconstruction feeds exactly the retained records received up to the instant |
| `EvidenceAsOf.SnapshotVerdict` | src/runtime/fabric.cpp:990-1010 | an orderly stream gets its tracker's verdict back from a snapshot, if the ring holds two records or nothing was dropped |
| `EvidenceReorder.SnapshotExactly` | src/store/evidence_store.cpp:153-190 | whatever the arrival order of a counter that rises with its sequence, a snapshot gives the verdict back if and only if the highest sequence retained below the last one fed is the one fed before it |
| `EvidenceReorder.AsOfExactly` | src/classify/classifier.cpp:55-73 | for such a counter a question about an earlier instant gets the verdict of that instant if and only if nothing was fed since, or the ring up to it ends in the record fed last by then and still shows the step that led there |
| `EvidenceReorder.ReorderedSnapshot` | src/store/evidence_store.cpp:153-156 | a stream with a late record gets a different verdict back |
| `EvidenceReorder.ReorderedAsOf` | src/classify/classifier.cpp:55-73 | asked about the instant before a fourth record, such a stream names the late record and a sequence regression where at that instant it had named the third and an advance |
| `MeasuredRates.AsOfMeasured` | src/classify/classifier.cpp:184-233 | a rate given for any instant, by the live tracker or a rebuilt one, in a stream made by arrivals and restored windows in any order, is measured to the newest record visible then, which declares no reset, from another record that arrived in the stream with the same width: the delta is the difference of the two counts, one modulus more if the count fell, over the time between the observations; a newest record that declares a reset leaves no delta at all |
| `MeasuredRates.StoreRunBuilt` | src/store/evidence_store.cpp:78-331 | through any ingests, drops and restarts, whatever they lost, every stream of a store is made so |
| `Ingest.RunReplays` | src/runtime/fabric.cpp:355-392 | after any run in which memory never got ahead, replaying the journal rebuilds every stream, link and the policy exactly, up to the origin of records |
| `Ingest.IngestKeepsStep` | src/runtime/fabric.cpp:659-724 | with writer and flush acting in the middle of it, one ingest keeps memory and journal in step if and only if no record is refused after the probe: too large, the journal failed since, or the slot taken by the record of a new link |
| `Ingest.PublishKeepsStep` | src/runtime/fabric.cpp:900-930 | publishing a policy keeps memory and journal in step if and only if its record is not refused after the probe |
| `Ingest.PolicyLostForGood` | src/domain/policy.cpp:510-539 | after such a refusal, whatever happens, replay never again ends with the current policy |
| `IngestCalls.IngestExactly` | src/runtime/fabric.cpp:566-728 | on a usable journal a fresh observation is stored live, with its stamp, the next ordinal and the policy in force, and nothing else is; the journal is given the record of a new link and of what was fresh or a duplicate, as far as there is room |
| `IngestCalls.UnusableRefuses` | src/runtime/fabric.cpp:659-665 | on a journal that failed or is full an ingest changes nothing |
| `Ingest.AheadOfJournal` | src/runtime/fabric.cpp:659-724 | even if every record fits and nothing fails, memory gets ahead if and only if a new link meets exactly one free slot |
| `Ingest.StripStoreAppend` | src/store/evidence_store.cpp:78-200 | appending does not depend on whether records are live or recovered |
| `FabricObject.Fabric.Ingest` | src/runtime/fabric.cpp:566-728 | the ingest path of the source after validation; a link or fresh evidence is reported as not journaled if and only if memory got ahead of the journal, evidence that does not encode apart from a refused record |
| `Restart.RunKeeps` | src/runtime/fabric.cpp:495-728 | after any events and any restarts that lost nothing, registry and streams are sound and no stream is ahead of the current generation of its link |
| `Restart.EvictedExactly` | src/runtime/fabric.cpp:331-338 | registering the links of any reachable registry again evicts a link if and only if newer listed generations leave it no room |
| `Restart.RestoredExactly` | src/runtime/fabric.cpp:331-425 | a restart restores every stream of any such system from its snapshot if and only if the first record written is not the only one of a stream whose link is so evicted |
| `RestartCases.RestartLoses` | src/runtime/fabric.cpp:387-389 | with one generation per link, a single late record of an older one is stored and not restored |
| `RestartCases.LossSpreads` | src/store/evidence_store.cpp:116-151 | after that loss a sequence exactly one window behind is accepted and forgotten at once; the next restart calls it a duplicate although its first record is not lost |
| `Recovery.PendingAfter` | src/runtime/fabric.cpp:331-392 | replay of a generation record or of accepted evidence leaves no eviction pending, and a link record keeps what is |
| `Recovery.StepExactly` | src/runtime/fabric.cpp:331-392 | process and replay of its journal know the same links and, evictions carried out, the same streams after an event if and only if it is not evidence for a link whose eviction replay has pending |
| `RecoveryRuns.CompactExactly` | src/runtime/fabric.cpp:958-1040 | a compaction keeps them in step if and only if no stream is waiting to be dropped |
| `RecoveryRuns.RecoveredAlways` | src/runtime/fabric.cpp:196-392 | through any events, compactions and crashes without late evidence and with compactions only at such moments, a restart at any moment knows the same links, current generations and streams |
| `RecoveryCases.ReplayLoses` | src/runtime/fabric.cpp:331-389 | with one generation per link: evidence, the next generation registered, late evidence; live holds the late record, replay does not |
| `RecoveryCases.CompactedTooSoon` | src/runtime/fabric.cpp:274-279 | a compaction right after a crash at that point brings the evicted stream back |
| `Severity.IsTotalOrder` | src/domain/quality.cpp:220-229 | accepts a table if and only if every rank is in range and none is given twice |
| `Severity.TotalOrderIsPermutation` | src/domain/quality.cpp:220-229 | an accepted table gives every rank exactly once, so no two states tie |
| `Severity.WorstLane` | src/classify/classifier.cpp:421-429 | the lane loop finds a state no other outranks |
| `Severity.WorstMetric` | src/classify/classifier.cpp:608-628 | the pairwise loop over metrics finds such a state too |
| `Severity.WorstIndependentOfOrder` | include/lqf/domain/quality.hpp:162-167 | under an accepted table both loops agree on any arrangement of the same states |
| `Severity.AggregateLanes` | src/classify/classifier.cpp:421-468 | the aggregate is the worst lane, and no better than Incomplete if a lane is missing |
| `Severity.MissingLaneShows` | src/classify/classifier.cpp:460-468 | under any table a missing lane keeps the aggregate at least at Incomplete, and no lane outranks it |
| `Severity.DefaultHealthyExactly` | src/domain/quality.cpp:206-218 | under the default table an aggregate is Healthy if and only if every lane is |
| `Severity.DefaultWorst` | src/domain/quality.cpp:206-218 | the default table is a total order, from Unknown over Unsupported, Healthy, Incomplete, Stale, Marginal, Degraded and Severe to Conflicting: no roll-up reports a state while a later one is there |
| `Bands.ValidateBands` | src/domain/policy.cpp:44-106 | accepts exactly the rules with well-formed, distinctly named, joined bands from minus to plus infinity |
| `Bands.BandsPartition` | src/domain/policy.cpp:44-106 | for well-formed bands, acceptance is equivalent to being in order and covering every extended real exactly once |
| `Bands.Classify` | src/domain/policy.cpp:127-137 | finds the first band that contains the value |
| `Bands.ClassifiedOnce` | src/domain/policy.cpp:114-137 | under an accepted rule every value but NaN has one band, and classification returns it |
| `Classifier.Judged` | src/classify/classifier.cpp:328-400 | the loops over candidates reach the verdict the results are about |
| `Classifier.ConflictExactly` | src/classify/classifier.cpp:328-378 | a lane conflicts if and only if two of the most authoritative candidates differ by more than the tolerance; otherwise the value taken is within it of each of them |
| `Classifier.OnlyTopMatters` | src/classify/classifier.cpp:328-400 | the verdict depends only on which most authoritative candidates there are: not on order, not on any other candidate |
| `LinkQuality.CollectLane` | src/classify/classifier.cpp:102-240 | collects exactly the candidates of declared sources in the lane, and whether there was a record and a fresh one |
| `LinkQuality.AssessLane` | src/classify/classifier.cpp:271-400 | the state of a lane from support, records, freshness, candidates and rule; what that state is, case by case, is LaneVerdict.AssessExactly |
| `LinkQuality.BandNeedsBacking` | src/classify/classifier.cpp:102-240 | whatever the policy, a lane in a state only a band can give has a live, current, fresh record behind it, for a counter with a delta without a gap from another record of the stream, exact in value and time and within validity |
| `LinkQuality.RecoveredNeverBanded` | src/classify/classifier.cpp:514-529 | recovered evidence, or evidence of another process, alone supports no state but Unsupported, Unknown or Stale |
| `LinkQuality.CandidatesDistinct` | src/classify/classifier.cpp:102-118 | a source contributes at most one candidate to a lane |
| `LinkQuality.OrderIrrelevant` | src/classify/classifier.cpp:271-400 | the state of a lane does not depend on the order streams are enumerated in |
| `LaneVerdict.ReadsExactly` | src/domain/counter.cpp:122-138 | a gauge contributes its reading; a counter contributes x if and only if x times the interval is its delta times 10^9 and the interval is admissible, no shorter than the minimum and within validity |
| `LaneVerdict.GivenExactly` | src/classify/classifier.cpp:102-240 | the candidates are exactly those of declared sources whose newest record in the lane was received live by this process no longer ago than its validity |
| `LaneVerdict.AssessExactly` | src/classify/classifier.cpp:271-400 | a lane is Unsupported, Unknown, Stale or Incomplete exactly as support, records, freshness and candidates are missing; Conflicting if two foremost candidates are further apart than tolerated; else in the state of the first band containing the value of the foremost candidate of the first source, or Unknown without rule or band |
| `LaneVerdict.BandedExactly` | src/classify/classifier.cpp:271-400 | a lane is Healthy, or in another state only a band gives, if and only if it is supported, its foremost sources agree and the band of the value taken says so |
| `LinkQuality.AssessMetric` | src/classify/classifier.cpp:403-603 | a metric has the state of the lane asked for, or of the whole link, or the aggregate of its declared lanes |
| `LinkQuality.ClassifyLink` | src/classify/classifier.cpp:531-657 | the overall state is the worst metric, or Conflicting where that is to dominate |
| `LinkQuality.OverallBacked` | src/classify/classifier.cpp:531-657 | through every policy, severity table and roll-up, an overall state only a band can give has such a record behind it, in a lane that counts |
| `LinkGenerations.RunKeeps` | src/store/link_registry.cpp:22-123 | in every reachable registry each generation list goes up, is bounded and ends in the current one, and a link is marked superseded, by the current one, if and only if it is older |
| `LinkGenerations.CurrentNeverFalls` | src/store/link_registry.cpp:67-123 | along any run a current generation never falls, stays registered and is never evicted |
| `LinkGenerations.CurrentIsNewest` | src/store/link_registry.cpp:22-123 | the current generation of a link is the newest one any operation named since it was registered |
| `LinkGenerations.StatusExactly` | src/store/link_registry.cpp:67-95 | after any run an announcement is fenced if and only if a newer generation of the link was named, and refused for want of room if and only if the link was never registered and the links are as many as may be; evidence is never fenced |
| `LinkCounts.CountedExactly` | src/store/link_registry.cpp:46-65 | over any run a registered link has the stamp of the operation that registered it and counts exactly the evidence for it since |
| `LinkCounts.SinceExactly` | src/store/link_registry.cpp:46-123 | that operation is the last one before which the link was not registered |
| `LinkGenerations.StepListed` | src/store/link_registry.cpp:22-123 | a step keeps every registered link in its list of generations if and only if it is not evidence for an older generation that is not listed |
| `LinkGenerations.LinksBounded` | src/store/link_registry.cpp:22-123 | a run without such evidence registers at most links times generations per link |
| `LinkGenerations.LateEvidenceUnbounded` | src/store/link_registry.cpp:46-65 | with such evidence, for every size some run of one link registers more generations than that |
| `RegistryObject.MarkSuperseded` | src/store/link_registry.cpp:98-103 | marks exactly the older generations of one link |
| `RegistryObject.EvictOldest` | src/store/link_registry.cpp:110-115 | drops the oldest generations over the bound, with their links, and no others |
| `RegistryObject.LinkRegistry.Observe` | src/store/link_registry.cpp:22-44 | status and tables after an observation, as the run function says |
| `RegistryObject.LinkRegistry.AdvanceGeneration` | src/store/link_registry.cpp:67-123 | the same for an advance, with fencing and capacity |
| `RegistryObject.LinkRegistry.NoteEvidence` | src/store/link_registry.cpp:46-65 | registers or counts evidence for one generation |
| `RegistryObject.LinkRegistry.TakeEvicted` | src/store/link_registry.cpp:161-165 | hands the evicted generations over once |
| `Archive.PutExact` | include/lqf/persist/archive.hpp:196-260 | the encoder writes exactly the wire format of every value within limits |
| `Archive.GetBack` | include/lqf/persist/archive.hpp:262-400 | the decoder reads it back, whatever follows, and uses up exactly its bytes |
| `Archive.GetSound` | include/lqf/persist/archive.hpp:262-400 | whatever decodes is a value within limits, and the bytes it took are its wire format |
| `Archive.GetForward` | src/persist/codec.cpp:100-199 | on any input, sound or not, the cursor only moves forward inside it and failure stays |
| `Archive.DecodeEncoded` | include/lqf/persist/archive.hpp:196-400 | decoding what was encoded gives the value back, for every type and value within limits |
| `Archive.EncodeDecoded` | include/lqf/persist/archive.hpp:196-400 | input that decodes fully is what encoding its value writes |
| `Archive.VectorReadBack` | include/lqf/persist/archive.hpp:365-387 | a vector is read back if and only if there are as many bytes behind its count as elements |
| `Archive.VectorOfNothing` | include/lqf/persist/archive.hpp:374-379 | a vector of an empty struct, a type nothing persists, is encoded and not decoded |
| `ArchiveObject.Writer.AppendLittleEndian` | src/persist/codec.cpp:21-25 | the byte loop appends the little endian form |
| `ArchiveObject.Writer.PutText` | src/persist/codec.cpp:69-92 | length and bytes, or a failure at either limit |
| `ArchiveObject.Writer.Field` | include/lqf/persist/archive.hpp:196-260 | encoding one field, recursively, as the output function says |
| `ArchiveObject.ReadLittleEndian` | src/persist/codec.cpp:27-37 | the byte loop reads the integer |
| `ArchiveObject.Reader.GetUint` | src/persist/codec.cpp:100-152 | reads an integer or fails at the end of the input, never past it |
| `ArchiveObject.Reader.GetText` | src/persist/codec.cpp:172-199 | reads a bounded text field |
| `ArchiveObject.Reader.Field` | include/lqf/persist/archive.hpp:262-400 | decoding one field, recursively, as the input function says |

## Left out

- Transport, server, applications, examples and benchmarks: sockets, threads and command line plumbing.
- File system calls: opening, syncing, renaming and truncating are atomic steps; that a rename itself survives a crash is assumed.
- Arbitrary corruption of a journal: crashes cut the file; beyond that only altered payload bytes are covered.
- The epoch and creation time in a journal header are zero in the protocol, as compaction writes them; JournalFormat.HeaderRoundTrip and JournalReading.RecoverExact cover every header.
- Recovery limits: results about whole runs assume that the record and byte limits of recovery are not reached.
- A replayed record that cannot be applied: replay is modelled for records that apply, policies out of sequence apart, and snapshots for policy histories that were never evicted.
- Record bundles: the snapshot body as one byte string, of which only the nested records are modelled.
- Lock names and the list of recent violations, reset of the tracker, and reuse of a lock's address after its destruction.
- Text rendering, parsing of names, canonical policy text, explanations and reports.
- SHA-256 and FNV-1a: digests are arbitrary functions.
- Floating point rounding: values, rates and thresholds are exact, and so is the spread of candidates.
- Capability validation, the metric catalog and range checks of configurations: their results are preconditions.
- Statistics counters, reason lists and confidence levels.
- Overflow of the 64-bit tallies of a tracker: they are unbounded here; every value read from outside is bounded as in the source.
- The window query over the global history: filter, limit and sort.
- The copies of the last event, delta and rate flag in a stream: they always equal the tracker's.
- The order of snapshot records across streams: the results hold for every order that ascends within each stream.
- JournalProtocol.StepKeeps: does not cover steps after a failed compaction, because JournalCrash.RewoundIsUnreadable shows what they lead to.
- JournalCrash.FlushKeepsPromise: assumes `fsync_on_flush`; without it flush, stop and compaction hand the bytes to the system and report success without syncing (`src/persist/journal.cpp:93-99`, `:696`). The same holds for every other result about what is vouched for.
- Ingest.RunReplays: does not model link evictions or compaction during the run, and knows links only as the set seen so far; Recovery has both, for journals that refuse no record, and shows where replay fails.
- RecoveryRuns.RecoveredAlways: a crash keeps every record written before it; cutting the journal is in JournalCrash, and trackers, which a snapshot may change, are in EvidenceReorder.
- Restart.RunKeeps: does not cover runs with a restart that lost something; RestartCases.LossSpreads shows what those can lead to.
- JournalCrash.RunKeeps: takes what recovery kept as synced, although recovery syncs only when it repairs a torn tail (`src/persist/journal.cpp:502`).
- LaneVerdict.AssessExactly: requires a tolerance that is not negative, as policies are checked for (`src/domain/policy.cpp:193`).
- EvidenceAsOf.AsOfExact: goes one way only and for streams that arrive in order, but for every counter; EvidenceReorder.AsOfExactly has both directions for counters that rise with their sequence.
- EvidenceAsOf.SnapshotVerdict: goes one way only in the same way; EvidenceReorder.SnapshotExactly has both directions.
- LinkQuality.BandNeedsBacking: the time is exact where the validity, or every configured gap, is below the largest representable interval; Counter.GaplessExactly shows what happens otherwise.
- Archive.DecodeEncoded: requires types without vectors of elements that may take no bytes; Archive.VectorReadBack gives the exact condition for one vector.
