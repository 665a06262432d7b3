/**
 The journal as a concurrent protocol: a producer that appends to a bounded queue,
 one writer thread, flush and stop calls, compaction through a temporary file, and
 crashes that cut the file anywhere behind what was last synced.

 The steps are the critical sections of the source. `log` is the history every
 result speaks about: the records accepted since the last snapshot, the snapshot
 first. `StepKeeps` is the invariant of every step; JournalCrash.dfy draws the
 consequences for whole runs with crashes and recoveries.
 */
module JournalProtocol {
  import opened Bytes
  import opened Optional
  import opened JournalFormat
  import opened JournalReading

  datatype Writer = Idle | Taken(record: Record) | Wrote(record: Record) | Exited

  datatype Compaction = NoCompaction | Holding(snapshot: Record) | Paused(snapshot: Record) | Swapped

  datatype Journal = Journal(
    file: bytes,               // contents of the open file
    position: nat,             // where the next write goes
    synced: nat,               // how much of the file survives a crash
    temp: Option<bytes>,       // the compaction file beside it
    queue: seq<Record>,
    writer: Writer,
    open: bool,
    accepting: bool,
    stopping: bool,
    failed: bool,
    hasEnqueued: bool,
    lastEnqueued: nat,
    hasExpected: bool,
    expected: nat,
    nextOrdinal: nat,          // the runtime's ordinal for the next record
    compaction: Compaction,
    flushes: map<nat, seq<Record>>,  // flush calls in progress, with the log when each began
    log: seq<Record>,
    written: nat,              // how many records of the log are on file
    durable: nat)              // how many some flush, stop or compaction vouched for

  function Header(cfg: Config): (h: bytes)
    ensures |h| == FILE_HEADER
  {
    BuildHeader(cfg, 0, 0)
  }

  /** The journal right after recovery handed it over. */
  function Opened(file: bytes, records: seq<Record>, nextOrdinal: nat): Journal {
    Journal(file, |file|, |file|, None, [], Idle, true, true, false, false, false, 0, false, 0, nextOrdinal,
            NoCompaction, map[], records, |records|, |records|)
  }

  // ------------------------------------------------------------------- steps

  predicate HasCapacity(cfg: Config, j: Journal) {
    j.open && j.accepting && !j.failed && |j.queue| < cfg.maxQueueDepth
  }

  /** The runtime's append: refused without effect, or queued under the next ordinal. */
  predicate Admits(cfg: Config, j: Journal, body: bytes) {
    HasCapacity(cfg, j) && |body| <= cfg.maxRecordBytes &&
    (j.hasEnqueued ==> j.nextOrdinal == (j.lastEnqueued + 1) % U64)
  }

  function Append(cfg: Config, j: Journal, kind: Kind, body: bytes): Journal {
    if !Admits(cfg, j, body) then j
    else
      var r := Record(kind, j.nextOrdinal, body);
      j.(queue := j.queue + [r], hasEnqueued := true, lastEnqueued := r.ordinal,
         nextOrdinal := r.ordinal + 1, log := j.log + [r])
  }

  predicate IsWriting(j: Journal) { j.writer.Taken? || j.writer.Wrote? }

  predicate IsPaused(j: Journal) { j.compaction.Paused? || j.compaction.Swapped? }

  predicate IsIdle(j: Journal) { j.queue == [] && !IsWriting(j) }

  function Take(j: Journal): Journal
    requires j.queue != []
  {
    j.(writer := Taken(j.queue[0]), queue := j.queue[1..])
  }

  function Overwrite(file: bytes, at: nat, data: bytes): bytes
    requires at <= |file|
  {
    file[..at] + data + (if at + |data| < |file| then file[at + |data|..] else [])
  }

  function Write(cfg: Config, j: Journal): Journal
    requires j.writer.Taken? && j.position <= |j.file|
  {
    var data := EncodeRecord(cfg, j.writer.record);
    j.(file := Overwrite(j.file, j.position, data), position := j.position + |data|,
       writer := Wrote(j.writer.record), written := j.written + 1)
  }

  /** A write that failed after some bytes: the queue is dropped for good. */
  function WriteFails(cfg: Config, j: Journal, bytesDone: nat): Journal
    requires j.writer.Taken? && j.position <= |j.file| && bytesDone < |EncodeRecord(cfg, j.writer.record)|
  {
    var data := EncodeRecord(cfg, j.writer.record)[..bytesDone];
    j.(file := Overwrite(j.file, j.position, data), position := j.position + |data|,
       writer := Idle, failed := true, queue := [])
  }

  function Settle(j: Journal): Journal
    requires j.writer.Wrote?
  {
    j.(writer := Idle, hasExpected := true, expected := (j.writer.record.ordinal + 1) % U64)
  }

  function Exit(j: Journal, syncOk: bool): Journal {
    j.(writer := Exited, failed := j.failed || !syncOk, synced := if syncOk then |j.file| else j.synced)
  }

  function FlushBegin(j: Journal, id: nat): Journal {
    j.(flushes := j.flushes[id := j.log])
  }

  predicate FlushSucceeds(j: Journal, syncOk: bool) { j.open && !j.failed && syncOk }

  function FlushEnd(j: Journal, id: nat, syncOk: bool): Journal {
    var rest := j.flushes - {id};
    if !j.open || j.failed then j.(flushes := rest)
    else if !syncOk then j.(flushes := rest, failed := true)
    else j.(flushes := rest, synced := |j.file|, durable := j.written)
  }

  function CompactBegin(j: Journal, body: bytes): Journal
    requires j.nextOrdinal > 0
  {
    j.(compaction := Holding(Record(Snapshot, j.nextOrdinal - 1, body)))
  }

  /** Once the queue is drained: pause the writer, or give the compaction up. */
  function CompactProceed(j: Journal): Journal
    requires j.compaction.Holding?
  {
    var snapshot := j.compaction.snapshot;
    if !j.open || j.failed || (j.hasExpected && j.expected > snapshot.ordinal + 1)
    then j.(compaction := NoCompaction)
    else j.(compaction := Paused(snapshot))
  }

  function CompactTemp(j: Journal, data: bytes): Journal { j.(temp := Some(data)) }

  /** The finished temporary file atomically becomes the journal. */
  function SwapIn(j: Journal, image: bytes): Journal
    requires j.compaction.Paused?
  {
    var snapshot := j.compaction.snapshot;
    j.(file := image, position := |image|, synced := |image|, temp := None, compaction := Swapped,
       hasExpected := true, expected := (snapshot.ordinal + 1) % U64,
       hasEnqueued := true, lastEnqueued := snapshot.ordinal,
       log := [snapshot], written := 1, durable := 1)
  }

  function CompactSwap(cfg: Config, j: Journal): Journal
    requires j.compaction.Paused?
  {
    SwapIn(j, Full(cfg, [j.compaction.snapshot]))
  }

  /** A compaction that failed reopens the old file without seeking to its end. */
  function CompactFail(j: Journal): Journal {
    j.(position := 0, temp := None, compaction := NoCompaction)
  }

  function CompactEnd(j: Journal): Journal { j.(compaction := NoCompaction) }

  function StopBegin(j: Journal): Journal { j.(stopping := true, accepting := false) }

  predicate StopSucceeds(j: Journal, syncOk: bool) { !j.failed && syncOk }

  function StopEnd(j: Journal, syncOk: bool): Journal {
    j.(open := false, accepting := false,
       synced := if syncOk then |j.file| else j.synced,
       durable := if StopSucceeds(j, syncOk) then j.written else j.durable)
  }

  datatype Step =
    | SAppend(kind: Kind, body: bytes)
    | STake
    | SWrite
    | SWriteFails(bytesDone: nat)
    | SSettle
    | SExit(syncOk: bool)
    | SFlushBegin(id: nat)
    | SFlushEnd(id: nat, syncOk: bool)
    | SCompactBegin(body: bytes)
    | SCompactProceed
    | SCompactTemp(data: bytes)
    | SCompactSwap
    | SCompactEnd
    | SStopBegin
    | SStopEnd(syncOk: bool)

  // A body the reader will accept again, and an ordinal and file size recovery can handle.
  ghost predicate Fits(cfg: Config, log: seq<Record>, r: Record) {
    Readable(cfg, r) && WithinLimits(cfg, log + [r])
  }

  /**
   When a step can happen. Appends and flushes hold the compaction lock shared,
   compaction holds it exclusively, and the runtime lock keeps compaction and
   shutdown apart. A failed compaction is not among the steps: see JournalCrash.RewoundIsUnreadable.
   */
  ghost predicate Enabled(cfg: Config, j: Journal, step: Step) {
    match step
    case SAppend(kind, body) =>
      j.compaction == NoCompaction &&
      (Admits(cfg, j, body) ==> Fits(cfg, j.log, Record(kind, j.nextOrdinal, body)))
    case STake => j.writer == Idle && j.queue != [] && !IsPaused(j)
    case SWrite => j.writer.Taken? && j.position <= |j.file|
    case SWriteFails(n) => j.writer.Taken? && j.position <= |j.file| && n < |EncodeRecord(cfg, j.writer.record)|
    case SSettle => j.writer.Wrote?
    case SExit(_) => j.writer == Idle && j.queue == [] && (j.stopping || j.failed) && !IsPaused(j)
    case SFlushBegin(id) => j.compaction == NoCompaction && id !in j.flushes
    case SFlushEnd(id, _) => id in j.flushes && (IsIdle(j) || j.failed || !j.open)
    case SCompactBegin(body) =>
      j.compaction == NoCompaction && j.flushes == map[] && !j.stopping && j.nextOrdinal > 0 &&
      Fits(cfg, [], Record(Snapshot, j.nextOrdinal - 1, body))
    case SCompactProceed => j.compaction.Holding? && (IsIdle(j) || j.failed || !j.open)
    case SCompactTemp(_) => j.compaction.Paused?
    case SCompactSwap => j.compaction.Paused?
    case SCompactEnd => j.compaction.Swapped?
    case SStopBegin => j.open && j.compaction == NoCompaction
    case SStopEnd(_) => j.stopping && j.writer == Exited
  }

  ghost function Do(cfg: Config, j: Journal, step: Step): Journal
    requires Enabled(cfg, j, step)
  {
    match step
    case SAppend(kind, body) => Append(cfg, j, kind, body)
    case STake => Take(j)
    case SWrite => Write(cfg, j)
    case SWriteFails(n) => WriteFails(cfg, j, n)
    case SSettle => Settle(j)
    case SExit(syncOk) => Exit(j, syncOk)
    case SFlushBegin(id) => FlushBegin(j, id)
    case SFlushEnd(id, syncOk) => FlushEnd(j, id, syncOk)
    case SCompactBegin(body) => CompactBegin(j, body)
    case SCompactProceed => CompactProceed(j)
    case SCompactTemp(data) => CompactTemp(j, data)
    case SCompactSwap => CompactSwap(cfg, j)
    case SCompactEnd => CompactEnd(j)
    case SStopBegin => StopBegin(j)
    case SStopEnd(syncOk) => StopEnd(j, syncOk)
  }

  // -------------------------------------------------------------- invariant

  /** The bytes of a journal that holds the whole log. */
  function Full(cfg: Config, log: seq<Record>): bytes {
    Header(cfg) + EncodeAll(cfg, log)
  }

  // Where the first k records end.
  function Boundary(cfg: Config, log: seq<Record>, k: nat): nat
    requires k <= |log|
  {
    FILE_HEADER + |EncodeAll(cfg, log[..k])|
  }

  ghost predicate LogInv(cfg: Config, j: Journal) {
    && Chained(cfg, j.log)
    && WithinLimits(cfg, j.log)
    && j.nextOrdinal == NextOrdinal(j.log) < U64
    && (j.hasEnqueued ==> j.log != [] && j.lastEnqueued == j.log[|j.log| - 1].ordinal)
    && (j.hasExpected ==> j.expected <= j.nextOrdinal)
  }

  /** The file holds a prefix of the log's bytes, cut off mid record only by a failed write. */
  ghost predicate FileInv(cfg: Config, j: Journal) {
    && j.durable <= j.written <= |j.log|
    && j.file <= Full(cfg, j.log)
    && Boundary(cfg, j.log, j.written) <= |j.file|
    && (!j.failed ==> |j.file| == Boundary(cfg, j.log, j.written))
    && j.position == |j.file|
    && Boundary(cfg, j.log, j.durable) <= j.synced <= |j.file|
  }

  function InFlight(w: Writer): seq<Record> { if w.Taken? then [w.record] else [] }

  /** Before a write failure: on file, in flight and queued make up the log, in order. */
  ghost predicate QueueInv(cfg: Config, j: Journal)
    requires j.written <= |j.log|
  {
    && |j.queue| <= cfg.maxQueueDepth
    && (!j.failed ==> j.log[j.written..] == InFlight(j.writer) + j.queue)
    && (j.failed ==> j.queue == [] && !j.writer.Taken?)
    && (j.writer.Wrote? ==> j.written > 0 && j.writer.record == j.log[j.written - 1])
    && (j.stopping ==> !j.accepting)
    && (j.writer.Exited? ==> j.queue == [] && (j.stopping || j.failed))
  }

  ghost predicate CompactionInv(cfg: Config, j: Journal) {
    && (forall id :: id in j.flushes ==> j.flushes[id] <= j.log)
    && (j.compaction != NoCompaction ==> j.flushes == map[])
    && (IsPaused(j) ==> IsIdle(j))
    && (j.compaction.Holding? || j.compaction.Paused? ==>
          && j.compaction.snapshot.kind == Snapshot && j.compaction.snapshot.ordinal + 1 == j.nextOrdinal
          && Fits(cfg, [], j.compaction.snapshot))
  }

  ghost predicate Inv(cfg: Config, j: Journal)
  {
    LogInv(cfg, j) && j.written <= |j.log| && FileInv(cfg, j) && QueueInv(cfg, j) && CompactionInv(cfg, j)
  }

  // ------------------------------------------------- the invariant is kept

  lemma FullGrows(cfg: Config, log: seq<Record>, r: Record)
    ensures Full(cfg, log + [r]) == Full(cfg, log) + EncodeRecord(cfg, r)
    ensures forall k :: 0 <= k <= |log| ==> Boundary(cfg, log + [r], k) == Boundary(cfg, log, k)
  {
    assert (log + [r])[..|log|] == log;
    Assoc(Header(cfg), EncodeAll(cfg, log), EncodeRecord(cfg, r));
    forall k | 0 <= k <= |log|
      ensures Boundary(cfg, log + [r], k) == Boundary(cfg, log, k)
    {
      assert (log + [r])[..k] == log[..k];
    }
  }

  lemma ChainedGrows(cfg: Config, log: seq<Record>, r: Record)
    requires Chained(cfg, log) && Readable(cfg, r) && r.ordinal == NextOrdinal(log)
    ensures Chained(cfg, log + [r]) && NextOrdinal(log + [r]) == r.ordinal + 1
  {
  }

  lemma AppendKeepsLog(cfg: Config, j: Journal, kind: Kind, body: bytes)
    requires LogInv(cfg, j) && Enabled(cfg, j, SAppend(kind, body)) && Admits(cfg, j, body)
    ensures LogInv(cfg, Append(cfg, j, kind, body))
  {
    ChainedGrows(cfg, j.log, Record(kind, j.nextOrdinal, body));
  }

  lemma AppendKeepsFile(cfg: Config, j: Journal, kind: Kind, body: bytes)
    requires FileInv(cfg, j) && Admits(cfg, j, body)
    ensures FileInv(cfg, Append(cfg, j, kind, body))
  {
    FullGrows(cfg, j.log, Record(kind, j.nextOrdinal, body));
  }

  lemma AppendKeepsQueue(cfg: Config, j: Journal, kind: Kind, body: bytes)
    requires j.written <= |j.log| && QueueInv(cfg, j) && CompactionInv(cfg, j)
    requires j.compaction == NoCompaction && Admits(cfg, j, body)
    ensures QueueInv(cfg, Append(cfg, j, kind, body)) && CompactionInv(cfg, Append(cfg, j, kind, body))
  {
    var r := Record(kind, j.nextOrdinal, body);
    var j' := Append(cfg, j, kind, body);
    assert j'.log[j.written..] == j.log[j.written..] + [r];
    assert InFlight(j.writer) + j.queue + [r] == InFlight(j.writer) + j'.queue;
  }

  lemma AppendKeeps(cfg: Config, j: Journal, kind: Kind, body: bytes)
    requires Inv(cfg, j) && Enabled(cfg, j, SAppend(kind, body))
    ensures Inv(cfg, Append(cfg, j, kind, body))
  {
    if Admits(cfg, j, body) {
      AppendKeepsLog(cfg, j, kind, body);
      AppendKeepsFile(cfg, j, kind, body);
      AppendKeepsQueue(cfg, j, kind, body);
    }
  }

  lemma TakeKeepsQueue(cfg: Config, j: Journal)
    requires j.written <= |j.log| && QueueInv(cfg, j) && Enabled(cfg, j, STake)
    ensures QueueInv(cfg, Take(j))
  {
    assert [j.queue[0]] + j.queue[1..] == j.queue;
  }

  lemma TakeKeeps(cfg: Config, j: Journal)
    requires Inv(cfg, j) && Enabled(cfg, j, STake)
    ensures Inv(cfg, Take(j))
  {
    TakeKeepsQueue(cfg, j);
  }

  /** The first k records and then record k are the start of the whole log. */
  lemma PrefixNext(cfg: Config, log: seq<Record>, k: nat)
    requires k < |log|
    ensures Full(cfg, log[..k]) + EncodeRecord(cfg, log[k]) <= Full(cfg, log)
    ensures Boundary(cfg, log, k + 1) == Boundary(cfg, log, k) + |EncodeRecord(cfg, log[k])|
  {
    var done, r, later := log[..k], log[k], log[k + 1..];
    assert log == (done + [r]) + later && log[..k + 1] == done + [r];
    EncodeAllConcat(cfg, done + [r], later);
    assert (done + [r])[..k] == done;
    PrefixUnder(Header(cfg), EncodeAll(cfg, done + [r]), EncodeAll(cfg, log));
    Assoc(Header(cfg), EncodeAll(cfg, done), EncodeRecord(cfg, r));
  }

  /** A file as long as the first k records is exactly those records. */
  lemma FileIsRecords(cfg: Config, log: seq<Record>, k: nat, file: bytes)
    requires k <= |log| && file <= Full(cfg, log) && |file| == Boundary(cfg, log, k)
    ensures file == Full(cfg, log[..k])
  {
    assert log == log[..k] + log[k..];
    EncodeAllConcat(cfg, log[..k], log[k..]);
    PrefixUnder(Header(cfg), EncodeAll(cfg, log[..k]), EncodeAll(cfg, log));
    SamePrefix(file, Full(cfg, log[..k]), Full(cfg, log));
  }

  lemma SamePrefix(a: bytes, b: bytes, whole: bytes)
    requires a <= whole && b <= whole && |a| == |b|
    ensures a == b
  {
    assert a == whole[..|a|] && b == whole[..|b|];
  }

  /** Before a write failure, an idle journal has all of the log on file. */
  lemma IdleIsWritten(cfg: Config, j: Journal)
    requires Inv(cfg, j) && IsIdle(j) && !j.failed
    ensures j.written == |j.log| && j.file == Full(cfg, j.log)
  {
    assert j.log[j.written..] == [];
    FileIsRecords(cfg, j.log, j.written, j.file);
    assert j.log[..j.written] == j.log;
  }

  /** Writing the record in flight extends the file by exactly the next record of the log. */
  lemma WriteExtends(cfg: Config, j: Journal)
    requires FileInv(cfg, j) && QueueInv(cfg, j) && j.writer.Taken?
    ensures j.written < |j.log| && j.writer.record == j.log[j.written]
    ensures j.file + EncodeRecord(cfg, j.writer.record) <= Full(cfg, j.log)
    ensures Boundary(cfg, j.log, j.written + 1) == |j.file| + |EncodeRecord(cfg, j.writer.record)|
  {
    assert j.log[j.written..][0] == j.writer.record;
    PrefixNext(cfg, j.log, j.written);
    FileIsRecords(cfg, j.log, j.written, j.file);
  }

  lemma PrefixUnder(header: bytes, a: bytes, b: bytes)
    requires a <= b
    ensures header + a <= header + b && (header + b)[..|header| + |a|] == header + a
  {
  }

  lemma AppendAtEnd(file: bytes, data: bytes)
    ensures Overwrite(file, |file|, data) == file + data
  {
  }

  lemma WriteKeepsFile(cfg: Config, j: Journal)
    requires FileInv(cfg, j) && QueueInv(cfg, j) && Enabled(cfg, j, SWrite)
    ensures j.written < |j.log| && FileInv(cfg, Write(cfg, j))
  {
    WriteExtends(cfg, j);
    AppendAtEnd(j.file, EncodeRecord(cfg, j.writer.record));
  }

  lemma WriteKeepsQueue(cfg: Config, j: Journal)
    requires j.written < |j.log| && QueueInv(cfg, j) && Enabled(cfg, j, SWrite)
    ensures QueueInv(cfg, Write(cfg, j))
  {
    assert j.log[j.written + 1..] == j.log[j.written..][1..];
    assert ([j.writer.record] + j.queue)[1..] == j.queue;
    assert InFlight(Wrote(j.writer.record)) + j.queue == j.queue;
    assert j.log[j.written..][0] == j.log[j.written];
  }

  lemma WriteKeeps(cfg: Config, j: Journal)
    requires Inv(cfg, j) && Enabled(cfg, j, SWrite)
    ensures Inv(cfg, Write(cfg, j))
  {
    WriteKeepsFile(cfg, j);
    WriteKeepsQueue(cfg, j);
  }

  lemma WriteFailsKeepsFile(cfg: Config, j: Journal, n: nat)
    requires FileInv(cfg, j) && QueueInv(cfg, j) && Enabled(cfg, j, SWriteFails(n))
    ensures FileInv(cfg, WriteFails(cfg, j, n))
  {
    WriteExtends(cfg, j);
    var data := EncodeRecord(cfg, j.writer.record);
    AppendAtEnd(j.file, data[..n]);
    assert j.file + data[..n] <= j.file + data;
  }

  lemma WriteFailsKeeps(cfg: Config, j: Journal, n: nat)
    requires Inv(cfg, j) && Enabled(cfg, j, SWriteFails(n))
    ensures Inv(cfg, WriteFails(cfg, j, n))
  {
    WriteFailsKeepsFile(cfg, j, n);
  }

  lemma SettleKeepsLog(cfg: Config, j: Journal)
    requires j.written <= |j.log| && LogInv(cfg, j) && QueueInv(cfg, j) && Enabled(cfg, j, SSettle)
    ensures LogInv(cfg, Settle(j))
  {
    var r, last := j.writer.record, |j.log| - 1;
    assert r == j.log[j.written - 1];
    assert r.ordinal == j.log[0].ordinal + j.written - 1 && j.log[last].ordinal == j.log[0].ordinal + last;
  }

  lemma SettleKeeps(cfg: Config, j: Journal)
    requires Inv(cfg, j) && Enabled(cfg, j, SSettle)
    ensures Inv(cfg, Settle(j))
  {
    SettleKeepsLog(cfg, j);
    assert InFlight(Idle) + j.queue == InFlight(j.writer) + j.queue;
  }

  /** A step that leaves the log and the file's bytes alone, and only syncs what is there. */
  ghost predicate OnlySyncs(j: Journal, j': Journal) {
    && j' == j.(flushes := j'.flushes, synced := j'.synced, durable := j'.durable, failed := j'.failed,
                writer := j'.writer, open := j'.open, accepting := j'.accepting, stopping := j'.stopping)
    && (j.failed ==> j'.failed)
    && (j'.synced == j.synced || j'.synced == |j.file|)
    && (j'.durable == j.durable || (j'.durable == j.written && j'.synced == |j.file|))
  }

  lemma OnlySyncsKeepsFile(cfg: Config, j: Journal, j': Journal)
    requires FileInv(cfg, j) && OnlySyncs(j, j')
    ensures FileInv(cfg, j')
  {
    BoundaryGrows(cfg, j.log, j.durable, j.written);
  }

  lemma FlushBeginKeeps(cfg: Config, j: Journal, id: nat)
    requires Inv(cfg, j) && Enabled(cfg, j, SFlushBegin(id))
    ensures Inv(cfg, FlushBegin(j, id))
  {
    OnlySyncsKeepsFile(cfg, j, FlushBegin(j, id));
  }

  lemma FlushEndKeepsQueue(cfg: Config, j: Journal, id: nat, syncOk: bool)
    requires j.written <= |j.log| && QueueInv(cfg, j) && (IsIdle(j) || j.failed || !j.open)
    ensures QueueInv(cfg, FlushEnd(j, id, syncOk))
  {
  }

  lemma FewerFlushes(flushes: map<nat, seq<Record>>, log: seq<Record>, id: nat)
    requires forall id :: id in flushes ==> flushes[id] <= log
    ensures var rest := flushes - {id};
            (forall id :: id in rest ==> rest[id] <= log) && (flushes == map[] ==> rest == map[])
  {
  }

  lemma FlushEndKeepsCalls(cfg: Config, j: Journal, id: nat, syncOk: bool)
    requires CompactionInv(cfg, j)
    ensures CompactionInv(cfg, FlushEnd(j, id, syncOk))
  {
    FewerFlushes(j.flushes, j.log, id);
  }

  lemma FlushEndKeeps(cfg: Config, j: Journal, id: nat, syncOk: bool)
    requires Inv(cfg, j) && Enabled(cfg, j, SFlushEnd(id, syncOk))
    ensures Inv(cfg, FlushEnd(j, id, syncOk))
  {
    OnlySyncsKeepsFile(cfg, j, FlushEnd(j, id, syncOk));
    FlushEndKeepsQueue(cfg, j, id, syncOk);
    FlushEndKeepsCalls(cfg, j, id, syncOk);
  }

  lemma ExitKeeps(cfg: Config, j: Journal, syncOk: bool)
    requires Inv(cfg, j) && Enabled(cfg, j, SExit(syncOk))
    ensures Inv(cfg, Exit(j, syncOk))
  {
    OnlySyncsKeepsFile(cfg, j, Exit(j, syncOk));
  }

  lemma StopBeginKeeps(cfg: Config, j: Journal)
    requires Inv(cfg, j) && Enabled(cfg, j, SStopBegin)
    ensures Inv(cfg, StopBegin(j))
  {
    OnlySyncsKeepsFile(cfg, j, StopBegin(j));
  }

  lemma StopEndKeeps(cfg: Config, j: Journal, syncOk: bool)
    requires Inv(cfg, j) && Enabled(cfg, j, SStopEnd(syncOk))
    ensures Inv(cfg, StopEnd(j, syncOk))
  {
    OnlySyncsKeepsFile(cfg, j, StopEnd(j, syncOk));
  }

  lemma BoundaryGrows(cfg: Config, log: seq<Record>, i: nat, k: nat)
    requires i <= k <= |log|
    ensures Boundary(cfg, log, i) <= Boundary(cfg, log, k)
  {
    EncodeAllGrows(cfg, log, i, k);
  }

  lemma CompactBeginKeeps(cfg: Config, j: Journal, body: bytes)
    requires Inv(cfg, j) && Enabled(cfg, j, SCompactBegin(body))
    ensures Inv(cfg, CompactBegin(j, body))
  {
    SameFile(cfg, j, CompactBegin(j, body));
  }

  lemma CompactProceedKeepsCalls(cfg: Config, j: Journal)
    requires CompactionInv(cfg, j) && Enabled(cfg, j, SCompactProceed)
    ensures CompactionInv(cfg, CompactProceed(j))
  {
  }

  lemma CompactProceedKeeps(cfg: Config, j: Journal)
    requires j.compaction.Holding? && Enabled(cfg, j, SCompactProceed) && Inv(cfg, j)
    ensures Inv(cfg, CompactProceed(j))
  {
    SameFile(cfg, j, CompactProceed(j));
    CompactProceedKeepsCalls(cfg, j);
  }

  lemma CompactOtherKeeps(cfg: Config, j: Journal, data: bytes)
    requires Inv(cfg, j)
    ensures j.compaction.Paused? ==> Inv(cfg, CompactTemp(j, data))
    ensures j.compaction.Swapped? ==> Inv(cfg, CompactEnd(j))
  {
    SameFile(cfg, j, CompactTemp(j, data));
    SameFile(cfg, j, CompactEnd(j));
  }

  lemma SameFile(cfg: Config, j: Journal, j': Journal)
    requires Inv(cfg, j) && j' == j.(compaction := j'.compaction, temp := j'.temp)
    ensures LogInv(cfg, j') && FileInv(cfg, j') && QueueInv(cfg, j')
  {
  }

  lemma SwapKeepsFile(cfg: Config, j: Journal)
    requires Enabled(cfg, j, SCompactSwap)
    ensures FileInv(cfg, CompactSwap(cfg, j))
  {
    var snapshot := j.compaction.snapshot;
    assert [snapshot][..1] == [snapshot];
  }

  lemma SwapKeepsLog(cfg: Config, j: Journal)
    requires LogInv(cfg, j) && CompactionInv(cfg, j) && Enabled(cfg, j, SCompactSwap)
    ensures LogInv(cfg, CompactSwap(cfg, j))
  {
    var snapshot := j.compaction.snapshot;
    assert [] + [snapshot] == [snapshot];
  }

  lemma SwapKeeps(cfg: Config, j: Journal)
    requires j.compaction.Paused? && Enabled(cfg, j, SCompactSwap) && Inv(cfg, j)
    ensures Inv(cfg, CompactSwap(cfg, j))
  {
    SwapKeepsLog(cfg, j);
    SwapKeepsFile(cfg, j);
    assert [j.compaction.snapshot][1..] == InFlight(j.writer) + j.queue;
  }

  lemma StepKeeps(cfg: Config, j: Journal, step: Step)
    requires Inv(cfg, j) && Enabled(cfg, j, step)
    ensures Inv(cfg, Do(cfg, j, step))
  {
    match step
    case SAppend(kind, body) => AppendKeeps(cfg, j, kind, body);
    case STake => TakeKeeps(cfg, j);
    case SWrite => WriteKeeps(cfg, j);
    case SWriteFails(n) => WriteFailsKeeps(cfg, j, n);
    case SSettle => SettleKeeps(cfg, j);
    case SCompactSwap => SwapKeeps(cfg, j);
    case SCompactBegin(body) => CompactBeginKeeps(cfg, j, body);
    case SCompactProceed => CompactProceedKeeps(cfg, j);
    case SCompactTemp(data) => CompactOtherKeeps(cfg, j, data);
    case SCompactEnd => CompactOtherKeeps(cfg, j, []);
    case SExit(syncOk) => ExitKeeps(cfg, j, syncOk);
    case SFlushBegin(id) => FlushBeginKeeps(cfg, j, id);
    case SFlushEnd(id, syncOk) => FlushEndKeeps(cfg, j, id, syncOk);
    case SStopBegin => StopBeginKeeps(cfg, j);
    case SStopEnd(syncOk) => StopEndKeeps(cfg, j, syncOk);
  }

  /** One round of the writer keeps the invariant and accepts or loses nothing. */
  lemma DrainOne(cfg: Config, j: Journal)
    requires Inv(cfg, j) && j.writer == Idle && j.queue != []
    ensures var taken := Take(j); taken.writer.Taken? && taken.position <= |taken.file|
    ensures Inv(cfg, Settle(Write(cfg, Take(j))))
  {
    TakeKeeps(cfg, j);
    WriteKeeps(cfg, Take(j));
    SettleKeeps(cfg, Write(cfg, Take(j)));
  }

  // ------------------------------------------------ what single calls mean to a caller

  /** Nothing accepted is missing from the file, and all of it survives a crash. */
  ghost predicate AllOnFile(cfg: Config, j: Journal) {
    j.file == Full(cfg, j.log) && j.synced == |j.file| && j.durable == |j.log|
  }

  /** After a write the file holds exactly the records written so far. */
  ghost predicate WroteNext(cfg: Config, j: Journal, j': Journal) {
    Inv(cfg, j) ==>
      Inv(cfg, j') && j'.written == j.written + 1 <= |j'.log| && j'.file == Full(cfg, j'.log[..j'.written])
  }

  lemma WriteMeans(cfg: Config, j: Journal)
    requires j.writer.Taken? && j.position <= |j.file|
    ensures WroteNext(cfg, j, Write(cfg, j))
  {
    if Inv(cfg, j) {
      WriteKeeps(cfg, j);
      var j' := Write(cfg, j);
      FileIsRecords(cfg, j'.log, j'.written, j'.file);
    }
  }

  /** After a failed write the whole records are still there, and nothing is accepted any more. */
  ghost predicate GivenUp(cfg: Config, j: Journal, j': Journal) {
    Inv(cfg, j) ==>
      && Inv(cfg, j') && j'.written == j.written <= |j'.log| && Full(cfg, j'.log[..j'.written]) <= j'.file
      && forall body :: !Admits(cfg, j', body)
  }

  lemma WriteFailsMeans(cfg: Config, j: Journal, n: nat)
    requires j.writer.Taken? && j.position <= |j.file| && n < |EncodeRecord(cfg, j.writer.record)|
    ensures GivenUp(cfg, j, WriteFails(cfg, j, n))
  {
    if Inv(cfg, j) {
      WriteFailsKeeps(cfg, j, n);
      FileIsRecords(cfg, j.log, j.written, j.file);
      AppendAtEnd(j.file, EncodeRecord(cfg, j.writer.record)[..n]);
    }
  }

  /** A flush that succeeds, once its wait is over, has all accepted before the call on disk. */
  ghost predicate Flushed(cfg: Config, j: Journal, id: nat, syncOk: bool, j': Journal) {
    Inv(cfg, j) && Enabled(cfg, j, SFlushEnd(id, syncOk)) && FlushSucceeds(j, syncOk) ==>
      j.flushes[id] <= j'.log && AllOnFile(cfg, j')
  }

  lemma FlushMeans(cfg: Config, j: Journal, id: nat, syncOk: bool)
    ensures Flushed(cfg, j, id, syncOk, FlushEnd(j, id, syncOk))
  {
    if Inv(cfg, j) && Enabled(cfg, j, SFlushEnd(id, syncOk)) && FlushSucceeds(j, syncOk) {
      IdleIsWritten(cfg, j);
    }
  }

  /** A compaction goes on only with everything on file, and with a snapshot of all of it. */
  ghost predicate ReadyToCompact(cfg: Config, j: Journal, j': Journal) {
    Inv(cfg, j) && Enabled(cfg, j, SCompactProceed) && j'.compaction.Paused? ==>
      IsIdle(j') && j'.file == Full(cfg, j'.log) && j'.compaction.snapshot.ordinal + 1 == j'.nextOrdinal
  }

  lemma CompactMeans(cfg: Config, j: Journal)
    requires j.compaction.Holding?
    ensures ReadyToCompact(cfg, j, CompactProceed(j))
  {
    if Inv(cfg, j) && Enabled(cfg, j, SCompactProceed) && CompactProceed(j).compaction.Paused? {
      IdleIsWritten(cfg, j);
    }
  }

  /** A stop that succeeds, once the writer has exited, leaves nothing accepted behind. */
  ghost predicate Stopped(cfg: Config, j: Journal, syncOk: bool, j': Journal) {
    Inv(cfg, j) && Enabled(cfg, j, SStopEnd(syncOk)) && StopSucceeds(j, syncOk) ==> AllOnFile(cfg, j')
  }

  lemma StopVouches(cfg: Config, j: Journal)
    requires Inv(cfg, j) && Enabled(cfg, j, SStopEnd(true)) && StopSucceeds(j, true)
    ensures AllOnFile(cfg, StopEnd(j, true))
  {
    IdleIsWritten(cfg, j);
  }

  lemma StopMeans(cfg: Config, j: Journal, syncOk: bool)
    ensures Stopped(cfg, j, syncOk, StopEnd(j, syncOk))
  {
    if Inv(cfg, j) && Enabled(cfg, j, SStopEnd(syncOk)) && StopSucceeds(j, syncOk) {
      StopVouches(cfg, j);
    }
  }
}
