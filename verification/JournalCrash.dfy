/**
 Whole runs of the journal: protocol steps, crashes that cut the file at any byte
 behind the last sync, and recoveries that repair it and go on.

 Main results: `RunKeeps`, `CrashRecovers`, `FlushedSurvives`, `StopKeepsPromise`
 and `RewoundIsUnreadable`.
 */
module JournalCrash {
  import opened Bytes
  import opened JournalFormat
  import opened JournalReading
  import opened JournalProtocol

  datatype System =
    | Up(journal: Journal)
    | Down(file: bytes, log: seq<Record>, durable: nat)

  ghost predicate Steps(cfg: Config, j: Journal, j': Journal) {
    exists step :: Enabled(cfg, j, step) && j' == Do(cfg, j, step)
  }

  ghost predicate Next(cfg: Config, s: System, s': System) {
    match (s, s')
    case (Up(j), Up(j')) => Steps(cfg, j, j')
    case (Up(j), Down(file, log, durable)) =>
      log == j.log && durable == j.durable && file <= j.file && j.synced <= |file|
    case (Down(file, _, _), Up(j')) =>
      var recovery := Recover(cfg, file);
      recovery.Recovered? && j' == Opened(recovery.file, recovery.records, recovery.nextOrdinal)
    case (Down(_, _, _), Down(_, _, _)) => false
  }

  ghost predicate IsRun(cfg: Config, run: seq<System>) {
    |run| > 0 && run[0] == Up(Opened(Header(cfg), [], 0)) && 0 < cfg.maxRecoveryBytes &&
    forall i, k :: 0 <= i && k == i + 1 && k < |run| ==> Next(cfg, run[i], run[k])
  }

  /** What a crashed journal looks like: a prefix of the log's bytes with everything vouched for. */
  ghost predicate DownInv(cfg: Config, file: bytes, log: seq<Record>, durable: nat) {
    Chained(cfg, log) && WithinLimits(cfg, log) && NextOrdinal(log) < U64 &&
    file <= Full(cfg, log) && durable <= |log| && Boundary(cfg, log, durable) <= |file|
  }

  ghost predicate SystemInv(cfg: Config, s: System) {
    match s
    case Up(j) => Inv(cfg, j)
    case Down(file, log, durable) => DownInv(cfg, file, log, durable)
  }

  // -------------------------------------------------------- crash and recovery

  ghost predicate OnBoundary(cfg: Config, log: seq<Record>, size: nat) {
    exists k: nat :: k <= |log| && size == Boundary(cfg, log, k)
  }

  /**
   What recovery makes of a crashed journal. It returns the first `kept` records of
   the log, all that was vouched for among them, calls the tail torn exactly when the
   file ends inside a record, and leaves a file a second recovery finds clean.
   */
  ghost predicate RecoversTo(cfg: Config, file: bytes, log: seq<Record>, durable: nat, kept: nat) {
    durable <= kept <= |log| &&
    Recover(cfg, file)
      == Recovered(log[..kept], Full(cfg, log[..kept]), !OnBoundary(cfg, log, |file|), false,
          NextOrdinal(log[..kept])) &&
    Recover(cfg, Full(cfg, log[..kept]))
      == Recovered(log[..kept], Full(cfg, log[..kept]), false, false, NextOrdinal(log[..kept]))
  }

  lemma HeaderIsValid(cfg: Config)
    ensures ValidHeader(cfg, Header(cfg))
  {
    HeaderRoundTrip(cfg, 0, 0);
  }

  /** Inside a record no boundary is near. */
  lemma InsideRecord(cfg: Config, log: seq<Record>, k: nat, piece: nat)
    requires k < |log| && 0 < piece < |EncodeRecord(cfg, log[k])|
    ensures !OnBoundary(cfg, log, Boundary(cfg, log, k) + piece)
  {
    PrefixNext(cfg, log, k);
    forall m: nat | m <= |log|
      ensures Boundary(cfg, log, m) != Boundary(cfg, log, k) + piece
    {
      if m <= k {
        BoundaryGrows(cfg, log, m, k);
      } else {
        BoundaryGrows(cfg, log, k + 1, m);
      }
    }
  }

  lemma PrefixLimits(cfg: Config, log: seq<Record>, k: nat)
    requires Chained(cfg, log) && WithinLimits(cfg, log) && NextOrdinal(log) < U64 && k <= |log|
    ensures Chained(cfg, log[..k]) && WithinLimits(cfg, log[..k]) && NextOrdinal(log[..k]) < U64
  {
    EncodeAllGrows(cfg, log, k, |log|);
    assert log[..|log|] == log;
  }

  lemma CutFile(cfg: Config, log: seq<Record>, file: bytes) returns (kept: nat, tail: bytes)
    requires file <= Full(cfg, log) && FILE_HEADER <= |file| && Chained(cfg, log)
    ensures kept <= |log| && file == JournalBytes(cfg, Header(cfg), log[..kept], tail) && IsPiece(cfg, tail)
    ensures tail == [] <==> OnBoundary(cfg, log, |file|)
    ensures kept < |log| ==> |file| < Boundary(cfg, log, kept + 1)
  {
    var header, all := Header(cfg), EncodeAll(cfg, log);
    var n := |file| - FILE_HEADER;
    assert file == header + all[..n];
    var piece;
    kept, piece := CutRecords(cfg, log, n);
    tail := if kept < |log| then EncodeRecord(cfg, log[kept])[..piece] else [];
    Assoc(header, EncodeAll(cfg, log[..kept]), tail);
    assert |file| == Boundary(cfg, log, kept) + piece;
    if kept < |log| {
      PrefixNext(cfg, log, kept);
    }
    if piece > 0 {
      InsideRecord(cfg, log, kept, piece);
    }
  }

  lemma KeptCoversDurable(cfg: Config, log: seq<Record>, durable: nat, kept: nat, size: nat)
    requires durable <= |log| && kept <= |log| && Boundary(cfg, log, durable) <= size
    requires kept < |log| ==> size < Boundary(cfg, log, kept + 1)
    ensures durable <= kept
  {
    if kept < durable {
      BoundaryGrows(cfg, log, kept + 1, durable);
    }
  }

  lemma FullIsJournal(cfg: Config, rs: seq<Record>)
    ensures JournalBytes(cfg, Header(cfg), rs, []) == Full(cfg, rs)
  {
  }

  lemma DownRecovers(cfg: Config, file: bytes, log: seq<Record>, durable: nat) returns (kept: nat)
    requires ValidConfig(cfg) && DownInv(cfg, file, log, durable)
    ensures RecoversTo(cfg, file, log, durable, kept)
  {
    var tail;
    kept, tail := CutFile(cfg, log, file);
    var rs := log[..kept];
    assert Chained(cfg, rs) && WithinLimits(cfg, rs) by { PrefixLimits(cfg, log, kept); }
    HeaderIsValid(cfg);
    RecoverExact(cfg, Header(cfg), rs, tail);
    RecoverExact(cfg, Header(cfg), rs, []);
    FullIsJournal(cfg, rs);
    KeptCoversDurable(cfg, log, durable, kept, |file|);
  }

  // -------------------------------------------------------------- whole runs

  /** A journal handed over with its records starts a fresh protocol. */
  lemma OpenedKeeps(cfg: Config, rs: seq<Record>)
    requires Chained(cfg, rs) && WithinLimits(cfg, rs) && NextOrdinal(rs) < U64
    ensures Inv(cfg, Opened(Full(cfg, rs), rs, NextOrdinal(rs)))
  {
    assert rs[..|rs|] == rs && rs[|rs|..] == [];
  }

  lemma CrashKeeps(cfg: Config, j: Journal, file: bytes)
    requires Inv(cfg, j) && file <= j.file && j.synced <= |file|
    ensures DownInv(cfg, file, j.log, j.durable)
  {
  }

  lemma NextKeeps(cfg: Config, s: System, s': System)
    requires ValidConfig(cfg) && SystemInv(cfg, s) && Next(cfg, s, s')
    ensures SystemInv(cfg, s')
  {
    match (s, s')
    case (Up(j), Up(j')) =>
      var step :| Enabled(cfg, j, step) && j' == Do(cfg, j, step);
      StepKeeps(cfg, j, step);
    case (Up(j), Down(file, _, _)) =>
      CrashKeeps(cfg, j, file);
    case (Down(file, log, durable), Up(_)) =>
      var kept := DownRecovers(cfg, file, log, durable);
      PrefixLimits(cfg, log, kept);
      OpenedKeeps(cfg, log[..kept]);
    case (Down(_, _, _), Down(_, _, _)) =>
  }

  /** Every state of every run, through any number of crashes and recoveries, keeps the invariant. */
  lemma {:induction false} RunKeeps(cfg: Config, run: seq<System>, i: nat)
    requires ValidConfig(cfg) && IsRun(cfg, run) && i < |run|
    ensures SystemInv(cfg, run[i])
  {
    if i == 0 {
      FullIsJournal(cfg, []);
      assert Header(cfg) == Full(cfg, []);
      OpenedKeeps(cfg, []);
    } else {
      RunKeeps(cfg, run, i - 1);
      NextKeeps(cfg, run[i - 1], run[i]);
    }
  }

  /**
   At any moment of any run, the file cut at any byte not yet synced is recovered:
   the result is a prefix of the accepted records that holds all that was vouched for.
   */
  lemma {:induction false} CrashRecovers(cfg: Config, run: seq<System>, i: nat, cut: nat) returns (kept: nat)
    requires ValidConfig(cfg) && IsRun(cfg, run) && i < |run| && run[i].Up?
    requires run[i].journal.synced <= cut <= |run[i].journal.file|
    ensures var j := run[i].journal; RecoversTo(cfg, j.file[..cut], j.log, j.durable, kept)
  {
    RunKeeps(cfg, run, i);
    var j := run[i].journal;
    CrashKeeps(cfg, j, j.file[..cut]);
    kept := DownRecovers(cfg, j.file[..cut], j.log, j.durable);
  }

  /** A crashed journal is never refused, so a run never gets stuck. */
  lemma NeverRefused(cfg: Config, run: seq<System>, i: nat)
    requires ValidConfig(cfg) && IsRun(cfg, run) && i < |run| && run[i].Down?
    ensures Recover(cfg, run[i].file).Recovered?
  {
    RunKeeps(cfg, run, i);
    var kept := DownRecovers(cfg, run[i].file, run[i].log, run[i].durable);
  }

  // ------------------------------------------------- what flush and stop promise

  predicate HasRoom(cfg: Config, j: Journal, body: bytes) {
    j.open && j.accepting && !j.failed && |j.queue| < cfg.maxQueueDepth && |body| <= cfg.maxRecordBytes
  }

  lemma AppendLogs(cfg: Config, j: Journal, kind: Kind, body: bytes)
    requires LogInv(cfg, j)
    ensures Append(cfg, j, kind, body).log
         == if HasRoom(cfg, j, body) then j.log + [Record(kind, NextOrdinal(j.log), body)] else j.log
  {
    assert j.hasEnqueued ==> j.nextOrdinal == (j.lastEnqueued + 1) % U64;
  }

  /** An append is accepted, under the next ordinal, exactly when the journal is in use and there is room. */
  lemma AppendExactly(cfg: Config, run: seq<System>, i: nat, kind: Kind, body: bytes)
    requires ValidConfig(cfg) && IsRun(cfg, run) && i < |run| && run[i].Up?
    requires Enabled(cfg, run[i].journal, SAppend(kind, body))
    ensures
      var j := run[i].journal;
      Do(cfg, j, SAppend(kind, body)).log
        == if HasRoom(cfg, j, body) then j.log + [Record(kind, NextOrdinal(j.log), body)] else j.log
  {
    RunKeeps(cfg, run, i);
    AppendLogs(cfg, run[i].journal, kind, body);
  }

  /** No record a snapshot would miss is ever on file: a compaction goes ahead unless the journal closed or failed. */
  lemma CompactionExactly(cfg: Config, run: seq<System>, i: nat)
    requires ValidConfig(cfg) && IsRun(cfg, run) && i < |run| && run[i].Up?
    requires Enabled(cfg, run[i].journal, SCompactProceed)
    ensures
      var j := run[i].journal;
      Do(cfg, j, SCompactProceed).compaction
        == if j.open && !j.failed then Paused(j.compaction.snapshot) else NoCompaction
  {
    RunKeeps(cfg, run, i);
  }

  /**
   A flush reports success exactly if the journal is open, no write failed and the sync
   went through; then every record accepted before it, and more, is on disk.
   */
  lemma FlushKeepsPromise(cfg: Config, run: seq<System>, i: nat, id: nat, syncOk: bool)
    requires ValidConfig(cfg) && IsRun(cfg, run) && i < |run| && run[i].Up?
    requires Enabled(cfg, run[i].journal, SFlushEnd(id, syncOk))
    ensures
      var j := run[i].journal;
      && (FlushSucceeds(j, syncOk) <==> j.open && !j.failed && syncOk)
      && (FlushSucceeds(j, syncOk) ==> j.flushes[id] <= j.log && AllOnFile(cfg, Do(cfg, j, SFlushEnd(id, syncOk))))
  {
    RunKeeps(cfg, run, i);
    if FlushSucceeds(run[i].journal, syncOk) {
      IdleIsWritten(cfg, run[i].journal);
    }
  }

  /** A stop reports success exactly if no write and no sync failed; then it leaves nothing accepted behind. */
  lemma StopKeepsPromise(cfg: Config, run: seq<System>, i: nat, syncOk: bool)
    requires ValidConfig(cfg) && IsRun(cfg, run) && i < |run| && run[i].Up?
    requires Enabled(cfg, run[i].journal, SStopEnd(syncOk))
    ensures
      var j := run[i].journal;
      && (StopSucceeds(j, syncOk) <==> !j.failed && syncOk)
      && (StopSucceeds(j, syncOk) ==> AllOnFile(cfg, Do(cfg, j, SStopEnd(syncOk))))
  {
    RunKeeps(cfg, run, i);
    if StopSucceeds(run[i].journal, syncOk) {
      IdleIsWritten(cfg, run[i].journal);
    }
  }

  ghost predicate Grows(j: Journal, j': Journal) {
    j.log <= j'.log && j.durable <= j'.durable
  }

  lemma AppendGrows(cfg: Config, j: Journal, kind: Kind, body: bytes)
    ensures Grows(j, Append(cfg, j, kind, body))
  {
  }

  lemma WriterGrows(cfg: Config, j: Journal, n: nat, syncOk: bool)
    ensures j.queue != [] ==> Grows(j, Take(j))
    ensures Enabled(cfg, j, SWrite) ==> Grows(j, Write(cfg, j))
    ensures Enabled(cfg, j, SWriteFails(n)) ==> Grows(j, WriteFails(cfg, j, n))
    ensures j.writer.Wrote? ==> Grows(j, Settle(j))
    ensures Grows(j, Exit(j, syncOk))
  {
  }

  lemma CallGrows(j: Journal, id: nat, syncOk: bool)
    requires j.durable <= j.written
    ensures Grows(j, FlushBegin(j, id)) && Grows(j, FlushEnd(j, id, syncOk))
    ensures Grows(j, StopBegin(j)) && Grows(j, StopEnd(j, syncOk))
  {
  }

  lemma CompactGrows(j: Journal, data: bytes)
    ensures j.nextOrdinal > 0 ==> Grows(j, CompactBegin(j, data))
    ensures j.compaction.Holding? ==> Grows(j, CompactProceed(j))
    ensures Grows(j, CompactTemp(j, data)) && Grows(j, CompactEnd(j))
  {
  }

  /** Until a snapshot replaces the journal, the log and what is vouched for only grow. */
  lemma StepGrows(cfg: Config, j: Journal, step: Step)
    requires j.durable <= j.written && Enabled(cfg, j, step) && step != SCompactSwap
    ensures Grows(j, Do(cfg, j, step))
  {
    match step
    case SAppend(kind, body) => AppendGrows(cfg, j, kind, body);
    case STake => WriterGrows(cfg, j, 0, true);
    case SWrite => WriterGrows(cfg, j, 0, true);
    case SWriteFails(n) => WriterGrows(cfg, j, n, true);
    case SSettle => WriterGrows(cfg, j, 0, true);
    case SExit(syncOk) => WriterGrows(cfg, j, 0, syncOk);
    case SFlushBegin(id) => CallGrows(j, id, true);
    case SFlushEnd(id, syncOk) => CallGrows(j, id, syncOk);
    case SCompactBegin(body) => CompactGrows(j, body);
    case SCompactProceed => CompactGrows(j, []);
    case SCompactTemp(data) => CompactGrows(j, data);
    case SCompactEnd => CompactGrows(j, []);
    case SStopBegin => CallGrows(j, 0, true);
    case SStopEnd(syncOk) => CallGrows(j, 0, syncOk);
  }

  lemma NextGrows(cfg: Config, j: Journal, j': Journal)
    requires j.durable <= j.written && Steps(cfg, j, j') && !Swaps(Up(j), Up(j'))
    ensures Grows(j, j')
  {
    var step :| Enabled(cfg, j, step) && j' == Do(cfg, j, step);
    StepGrows(cfg, j, step);
  }

  predicate Sound(s: System) {
    if s.Up? then s.journal.durable <= |s.journal.log| else s.durable <= |s.log|
  }

  /** What some flush, stop or compaction vouched for: the first records of the log. */
  function Vouched(s: System): seq<Record>
    requires Sound(s)
  {
    if s.Up? then s.journal.log[..s.journal.durable] else s.log[..s.durable]
  }

  /** The step in which a snapshot takes the journal's place. */
  predicate Swaps(s: System, s': System) {
    s.Up? && s'.Up? && s.journal.compaction.Paused? && s'.journal.compaction.Swapped?
  }

  lemma PrefixOfLonger(a: seq<Record>, b: seq<Record>, i: nat, k: nat)
    requires a <= b && i <= |a| && i <= k <= |b|
    ensures a[..i] <= b[..k]
  {
  }

  lemma InvVouches(cfg: Config, s: System)
    requires SystemInv(cfg, s)
    ensures Sound(s) && (s.Up? ==> s.journal.durable <= s.journal.written)
  {
  }

  /** A recovery keeps at least what was vouched for, and vouches for all it kept. */
  lemma RecoveryVouches(cfg: Config, s: System, s': System)
    requires ValidConfig(cfg) && SystemInv(cfg, s) && s.Down? && s'.Up? && Next(cfg, s, s')
    ensures Sound(s) && Sound(s') && Vouched(s) <= Vouched(s')
  {
    var kept := DownRecovers(cfg, s.file, s.log, s.durable);
    assert s'.journal.log == s.log[..kept];
    PrefixOfLonger(s.log, s.log, s.durable, kept);
    assert s.log[..kept][..kept] == s.log[..kept];
  }

  /** Through steps, crashes and recoveries alike, what is vouched for only grows. */
  lemma NextVouches(cfg: Config, s: System, s': System)
    requires ValidConfig(cfg) && SystemInv(cfg, s) && SystemInv(cfg, s') && Next(cfg, s, s') && !Swaps(s, s')
    ensures Sound(s) && Sound(s') && Vouched(s) <= Vouched(s')
  {
    InvVouches(cfg, s);
    InvVouches(cfg, s');
    match (s, s')
    case (Up(j), Up(j')) =>
      NextGrows(cfg, j, j');
      PrefixOfLonger(j.log, j'.log, j.durable, j'.durable);
    case (Up(_), Down(_, _, _)) =>
    case (Down(_, _, _), Up(_)) => RecoveryVouches(cfg, s, s');
    case (Down(_, _, _), Down(_, _, _)) =>
  }

  /** A record is there, or a snapshot taken after it stands at the head in its place. */
  predicate Covers(records: seq<Record>, r: Record) {
    r in records || (records != [] && records[0].kind == Snapshot && r.ordinal <= records[0].ordinal)
  }

  lemma CoversLonger(a: seq<Record>, b: seq<Record>, r: Record)
    requires a <= b && Covers(a, r)
    ensures Covers(b, r)
  {
  }

  /** The ordinals of a log do not pass that of its last record. */
  lemma OrdinalsBelow(cfg: Config, log: seq<Record>, r: Record)
    requires Chained(cfg, log) && r in log
    ensures log[0].ordinal <= r.ordinal < NextOrdinal(log)
  {
    var i :| 0 <= i < |log| && log[i] == r;
    var last := |log| - 1;
    assert log[i].ordinal == log[0].ordinal + i && log[last].ordinal == log[0].ordinal + last;
  }

  /** A snapshot covers everything the log it replaces covered. */
  lemma SwapCovers(cfg: Config, log: seq<Record>, snapshot: Record, r: Record)
    requires Chained(cfg, log) && snapshot.kind == Snapshot && snapshot.ordinal + 1 == NextOrdinal(log) &&
        Covers(log, r)
    ensures Covers([snapshot], r)
  {
    if r in log {
      OrdinalsBelow(cfg, log, r);
    } else {
      OrdinalsBelow(cfg, log, log[0]);
    }
  }

  // Steps that leave a compaction in progress where it is.
  predicate Elsewhere(step: Step) {
    !step.SCompactBegin? && !step.SCompactProceed? && !step.SCompactSwap? && !step.SCompactEnd?
  }

  lemma WriterElsewhere(cfg: Config, j: Journal, n: nat, syncOk: bool)
    ensures j.queue != [] ==> Take(j).compaction == j.compaction
    ensures Enabled(cfg, j, SWrite) ==> Write(cfg, j).compaction == j.compaction
    ensures Enabled(cfg, j, SWriteFails(n)) ==> WriteFails(cfg, j, n).compaction == j.compaction
    ensures j.writer.Wrote? ==> Settle(j).compaction == j.compaction
    ensures Exit(j, syncOk).compaction == j.compaction
  {
  }

  lemma CallElsewhere(cfg: Config, j: Journal, kind: Kind, data: bytes, id: nat, syncOk: bool)
    ensures Append(cfg, j, kind, data).compaction == j.compaction
    ensures FlushBegin(j, id).compaction == FlushEnd(j, id, syncOk).compaction == j.compaction
    ensures StopBegin(j).compaction == StopEnd(j, syncOk).compaction == CompactTemp(j, data).compaction == j.compaction
  {
  }

  lemma ElsewhereKeeps(cfg: Config, j: Journal, step: Step)
    requires Enabled(cfg, j, step) && Elsewhere(step)
    ensures Do(cfg, j, step).compaction == j.compaction
  {
    match step
    case SAppend(kind, body) => CallElsewhere(cfg, j, kind, body, 0, true);
    case STake => WriterElsewhere(cfg, j, 0, true);
    case SWrite => WriterElsewhere(cfg, j, 0, true);
    case SWriteFails(n) => WriterElsewhere(cfg, j, n, true);
    case SSettle => WriterElsewhere(cfg, j, 0, true);
    case SExit(syncOk) => WriterElsewhere(cfg, j, 0, syncOk);
    case SFlushBegin(id) => CallElsewhere(cfg, j, Evidence, [], id, true);
    case SFlushEnd(id, syncOk) => CallElsewhere(cfg, j, Evidence, [], id, syncOk);
    case SCompactTemp(data) => CallElsewhere(cfg, j, Evidence, data, 0, true);
    case SStopBegin => CallElsewhere(cfg, j, Evidence, [], 0, true);
    case SStopEnd(syncOk) => CallElsewhere(cfg, j, Evidence, [], 0, syncOk);
  }

  lemma SwapStep(cfg: Config, j: Journal, j': Journal)
    requires Steps(cfg, j, j') && Swaps(Up(j), Up(j'))
    ensures Enabled(cfg, j, SCompactSwap) && j' == CompactSwap(cfg, j)
  {
    var step :| Enabled(cfg, j, step) && j' == Do(cfg, j, step);
    if Elsewhere(step) {
      ElsewhereKeeps(cfg, j, step);
    } else {
      OnlySwapSwaps(cfg, j, step);
    }
  }

  lemma OnlySwapSwaps(cfg: Config, j: Journal, step: Step)
    requires Enabled(cfg, j, step) && !Elsewhere(step) && Do(cfg, j, step).compaction.Swapped?
    requires !j.compaction.Swapped?
    ensures step == SCompactSwap
  {
  }

  lemma SwappedCovers(cfg: Config, j: Journal, j': Journal, r: Record)
    requires Inv(cfg, j) && j.durable <= |j.log| && Steps(cfg, j, j') && Swaps(Up(j), Up(j'))
    requires Covers(j.log[..j.durable], r)
    ensures j'.durable <= |j'.log| && Covers(j'.log[..j'.durable], r)
  {
    SwapStep(cfg, j, j');
    CoversLonger(j.log[..j.durable], j.log, r);
    SwapCovers(cfg, j.log, j.compaction.snapshot, r);
    assert [j.compaction.snapshot][..1] == [j.compaction.snapshot];
  }

  lemma NextCovers(cfg: Config, s: System, s': System, r: Record)
    requires ValidConfig(cfg) && SystemInv(cfg, s) && SystemInv(cfg, s') && Next(cfg, s, s')
    requires Sound(s) && Covers(Vouched(s), r)
    ensures Sound(s') && Covers(Vouched(s'), r)
  {
    if Swaps(s, s') {
      SwappedCovers(cfg, s.journal, s'.journal, r);
    } else {
      NextVouches(cfg, s, s');
      CoversLonger(Vouched(s), Vouched(s'), r);
    }
  }

  lemma RunNextCovers(cfg: Config, run: seq<System>, k: nat, r: Record)
    requires ValidConfig(cfg) && IsRun(cfg, run) && k + 1 < |run| && Sound(run[k]) && Covers(Vouched(run[k]), r)
    ensures Sound(run[k + 1]) && Covers(Vouched(run[k + 1]), r)
  {
    RunKeeps(cfg, run, k);
    RunKeeps(cfg, run, k + 1);
    NextCovers(cfg, run[k], run[k + 1], r);
  }

  lemma RunNextVouches(cfg: Config, run: seq<System>, k: nat)
    requires ValidConfig(cfg) && IsRun(cfg, run) && k + 1 < |run| && !Swaps(run[k], run[k + 1])
    ensures Sound(run[k]) && Sound(run[k + 1]) && Vouched(run[k]) <= Vouched(run[k + 1])
  {
    RunKeeps(cfg, run, k);
    RunKeeps(cfg, run, k + 1);
    NextVouches(cfg, run[k], run[k + 1]);
  }

  ghost predicate CoveredIn(s: System, r: Record) { Sound(s) && Covers(Vouched(s), r) }

  /** Whatever covers the record in one state of the run covers it in the next. */
  ghost predicate StaysCovered(run: seq<System>, r: Record) {
    forall k, n :: 0 <= k && n == k + 1 && n < |run| ==> CoveredIn(run[k], r) ==> CoveredIn(run[n], r)
  }

  lemma {:induction false} CoveredAlong(run: seq<System>, i: nat, m: nat, r: Record)
    requires StaysCovered(run, r) && i <= m < |run| && CoveredIn(run[i], r)
    ensures CoveredIn(run[m], r)
    decreases m - i
  {
    if i < m {
      CoveredAlong(run, i, m - 1, r);
      var k, n := m - 1, m;
      assert CoveredIn(run[k], r) ==> CoveredIn(run[n], r);
    }
  }

  lemma RunCovers(cfg: Config, run: seq<System>, i: nat, m: nat, r: Record)
    requires ValidConfig(cfg) && IsRun(cfg, run) && i <= m < |run| && Sound(run[i]) && Covers(Vouched(run[i]), r)
    ensures Sound(run[m]) && Covers(Vouched(run[m]), r)
  {
    forall k, n | 0 <= k && n == k + 1 && n < |run| && CoveredIn(run[k], r)
      ensures CoveredIn(run[n], r)
    {
      RunNextCovers(cfg, run, k, r);
    }
    CoveredAlong(run, i, m, r);
  }

  /** From i to m no snapshot took the journal's place. */
  ghost predicate NoSwap(run: seq<System>, i: nat, m: nat)
    requires i <= m < |run|
  {
    forall a, b :: i <= a && b == a + 1 && b <= m ==> !Swaps(run[a], run[b])
  }

  lemma {:induction false} RunVouches(cfg: Config, run: seq<System>, i: nat, m: nat)
    requires ValidConfig(cfg) && IsRun(cfg, run) && i <= m < |run| && NoSwap(run, i, m)
    ensures Sound(run[i]) && Sound(run[m]) && Vouched(run[i]) <= Vouched(run[m])
    decreases m - i
  {
    if i == m {
      RunKeeps(cfg, run, m);
      InvVouches(cfg, run[m]);
    } else {
      RunVouches(cfg, run, i, m - 1);
      RunNextVouches(cfg, run, m - 1);
    }
  }

  /** The files a crash in this state can leave behind. */
  ghost predicate CrashFile(s: System, file: bytes) {
    match s
    case Up(j) => file <= j.file && j.synced <= |file|
    case Down(left, _, _) => file == left
  }

  lemma CrashFileRecovers(cfg: Config, s: System, file: bytes)
    requires ValidConfig(cfg) && SystemInv(cfg, s) && Sound(s) && CrashFile(s, file)
    ensures var recovery := Recover(cfg, file); recovery.Recovered? && Vouched(s) <= recovery.records
  {
    var log, durable := if s.Up? then s.journal.log else s.log, if s.Up? then s.journal.durable else s.durable;
    if s.Up? {
      CrashKeeps(cfg, s.journal, file);
    }
    var kept := DownRecovers(cfg, file, log, durable);
    PrefixOfLonger(log, log, durable, kept);
  }

  /**
   What a flush vouched for is never lost. After a flush reported success at i, a crash
   at any later moment m, at any byte, through any number of crashes, recoveries and
   compactions in between, leaves a journal from which every record accepted before
   that flush is recovered, or a snapshot taken after it; and all of them in order as
   long as no snapshot took their place.
   */
  lemma {:induction false} FlushedSurvives(cfg: Config, run: seq<System>, i: nat, id: nat, m: nat, file: bytes)
    requires ValidConfig(cfg) && IsRun(cfg, run) && i < m < |run| && run[i].Up?
    requires Enabled(cfg, run[i].journal, SFlushEnd(id, true)) && FlushSucceeds(run[i].journal, true)
    requires run[i + 1] == Up(Do(cfg, run[i].journal, SFlushEnd(id, true))) && CrashFile(run[m], file)
    ensures
      var recovery := Recover(cfg, file);
      && recovery.Recovered?
      && (forall r :: r in run[i].journal.flushes[id] ==> Covers(recovery.records, r))
      && (NoSwap(run, i + 1, m) ==> run[i].journal.flushes[id] <= recovery.records)
  {
    FlushVouches(cfg, run, i, id);
    RunKeeps(cfg, run, m);
    InvVouches(cfg, run[m]);
    CrashFileRecovers(cfg, run[m], file);
    forall r | r in run[i].journal.flushes[id]
      ensures Covers(Recover(cfg, file).records, r)
    {
      CoversLonger(run[i].journal.flushes[id], Vouched(run[i + 1]), r);
      RunCovers(cfg, run, i + 1, m, r);
      CoversLonger(Vouched(run[m]), Recover(cfg, file).records, r);
    }
    if NoSwap(run, i + 1, m) {
      RunVouches(cfg, run, i + 1, m);
    }
  }

  lemma FlushVouches(cfg: Config, run: seq<System>, i: nat, id: nat)
    requires ValidConfig(cfg) && IsRun(cfg, run) && i + 1 < |run| && run[i].Up?
    requires Enabled(cfg, run[i].journal, SFlushEnd(id, true)) && FlushSucceeds(run[i].journal, true)
    requires run[i + 1] == Up(Do(cfg, run[i].journal, SFlushEnd(id, true)))
    ensures Sound(run[i + 1]) && run[i].journal.flushes[id] <= Vouched(run[i + 1])
  {
    FlushKeepsPromise(cfg, run, i, id, true);
    var j' := run[i + 1].journal;
    assert j'.log == run[i].journal.log && j'.log[..|j'.log|] == j'.log;
  }

  lemma StepTaken(cfg: Config, j: Journal, step: Step)
    requires Enabled(cfg, j, step)
    ensures Steps(cfg, j, Do(cfg, j, step))
  {
  }

  lemma RunExtended(cfg: Config, run: seq<System>, j: Journal, step: Step)
    requires IsRun(cfg, run) && run[|run| - 1] == Up(j) && Enabled(cfg, j, step)
    ensures IsRun(cfg, run + [Up(Do(cfg, j, step))])
  {
    StepTaken(cfg, j, step);
    var next := run + [Up(Do(cfg, j, step))];
    forall i, k | 0 <= i && k == i + 1 && k < |next|
      ensures Next(cfg, next[i], next[k])
    {
      if k == |run| {
        assert next[i] == Up(j);
      } else {
        assert next[i] == run[i] && next[k] == run[k];
      }
    }
  }

  /** The premises above can be met: any record that fits can be accepted, written and flushed. */
  lemma FlushHappens(cfg: Config, kind: Kind, body: bytes) returns (run: seq<System>)
    requires ValidConfig(cfg) && 0 < cfg.maxRecoveryBytes && Fits(cfg, [], Record(kind, 0, body))
    ensures IsRun(cfg, run) && run[|run| - 1].Up?
    ensures
      var j := run[|run| - 1].journal;
      && j.log == [Record(kind, 0, body)] && j.flushes == map[0 := j.log]
      && Enabled(cfg, j, SFlushEnd(0, true)) && FlushSucceeds(j, true)
  {
    run := AcceptHappens(cfg, kind, body);
    var j := run[|run| - 1].journal;
    RunExtended(cfg, run, j, SWrite);
    run := run + [Up(Write(cfg, j))];
    j := Write(cfg, j);
    RunExtended(cfg, run, j, SSettle);
    run := run + [Up(Settle(j))];
    j := Settle(j);
    RunExtended(cfg, run, j, SFlushBegin(0));
    run := run + [Up(FlushBegin(j, 0))];
  }

  lemma AcceptHappens(cfg: Config, kind: Kind, body: bytes) returns (run: seq<System>)
    requires ValidConfig(cfg) && 0 < cfg.maxRecoveryBytes && Fits(cfg, [], Record(kind, 0, body))
    ensures IsRun(cfg, run)
    ensures run[|run| - 1] == Up(Take(Append(cfg, Opened(Header(cfg), [], 0), kind, body)))
  {
    var j := Opened(Header(cfg), [], 0);
    run := [Up(j)];
    RunExtended(cfg, run, j, SAppend(kind, body));
    j := Append(cfg, j, kind, body);
    run := run + [Up(j)];
    RunExtended(cfg, run, j, STake);
    run := run + [Up(Take(j))];
  }

  /**
   A crash before the header was synced is the exception: a file cut inside its
   header is refused, and only an empty file or a whole header can be opened.
   */
  lemma HeaderCut(cfg: Config, n: nat)
    requires ValidConfig(cfg) && 0 < cfg.maxRecoveryBytes && n <= FILE_HEADER
    ensures Recover(cfg, Header(cfg)[..n]).Recovered? <==> n == 0 || n == FILE_HEADER
  {
    if n == FILE_HEADER {
      HeaderIsValid(cfg);
      RecoverExact(cfg, Header(cfg), [], []);
      assert Header(cfg)[..n] == JournalBytes(cfg, Header(cfg), [], []);
    }
  }

  // ------------------------------------------------- after a failed compaction

  lemma MagicIsLarge()
    ensures FromLittleEndian(MAGIC[..4]) == 0x4A46_514C
  {
    var s := MAGIC[..4];
    assert s[1..][1..][1..][1..] == [];
    assert FromLittleEndian(s[1..][1..][1..]) == 0x4A;
    assert FromLittleEndian(s[1..][1..]) == 0x46 + 256 * 0x4A;
  }

  lemma LengthIsNotMagic(cfg: Config, r: Record)
    requires ValidConfig(cfg) && |r.body| <= cfg.maxRecordBytes
    ensures EncodeRecord(cfg, r)[..4] != MAGIC[..4]
  {
    RecordLayout(cfg, r);
    Pow256Values();
    LittleEndianRoundTrip(|Payload(r)|, 4);
    MagicIsLarge();
  }

  lemma WrittenAtStart(cfg: Config, file: bytes, r: Record, cut: nat)
    requires ValidConfig(cfg) && |r.body| <= cfg.maxRecordBytes
    requires FILE_HEADER <= cut <= |Overwrite(file, 0, EncodeRecord(cfg, r))|
    ensures Recover(cfg, Overwrite(file, 0, EncodeRecord(cfg, r))[..cut]) == Refused
  {
    var s, after := EncodeRecord(cfg, r), Overwrite(file, 0, EncodeRecord(cfg, r));
    LengthIsNotMagic(cfg, r);
    assert after[..4] == s[..4];
    NotMagicRefused(cfg, after[..cut]);
  }

  /**
   A failed compaction leaves the write position at the start of the old file. As long
   as no record is written, every cut is recovered as before.
   */
  lemma RewoundStillReadable(cfg: Config, j: Journal, cut: nat) returns (kept: nat)
    requires ValidConfig(cfg) && Inv(cfg, j) && j.compaction.Paused? && j.synced <= cut <= |j.file|
    ensures RecoversTo(cfg, CompactFail(j).file[..cut], j.log, j.durable, kept)
  {
    CrashKeeps(cfg, j, j.file[..cut]);
    kept := DownRecovers(cfg, j.file[..cut], j.log, j.durable);
  }

  /** The next record written overwrites the header: from then on recovery refuses every cut. */
  lemma {:induction false} RewoundIsUnreadable(cfg: Config, j: Journal, r: Record, cut: nat)
    requires ValidConfig(cfg) && j.compaction.Paused? && |r.body| <= cfg.maxRecordBytes
    requires FILE_HEADER <= cut <= |Write(cfg, CompactFail(j).(writer := Taken(r))).file|
    ensures Recover(cfg, Write(cfg, CompactFail(j).(writer := Taken(r))).file[..cut]) == Refused
  {
    WrittenAtStart(cfg, j.file, r, cut);
  }

  lemma NotMagicRefused(cfg: Config, file: bytes)
    requires FILE_HEADER <= |file| && file[..4] != MAGIC[..4]
    ensures Recover(cfg, file) == Refused
  {
    var header := file[..FILE_HEADER];
    assert header[..8][..4] == file[..4];
  }
}
