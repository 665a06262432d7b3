/**
 What lasts: a journal that failed or was closed stays so until it is recovered, a failed
 sync is never passed over, a clean exit leaves nothing to lose, and the ordinal the
 writer expects next is always that of the record behind those on file.

 Main results: `NothingAfterFailure`, `CleanExit` and `ExpectedExact`.
 */
module JournalAftermath {
  import opened Bytes
  import opened JournalFormat
  import opened JournalReading
  import opened JournalProtocol
  import opened JournalCrash

  // ------------------------------------------------------------- failed or closed for good

  ghost predicate Lasts(j: Journal, j': Journal) { (j.failed ==> j'.failed) && (!j.open ==> !j'.open) }

  lemma StepLasts(cfg: Config, j: Journal, step: Step)
    requires Enabled(cfg, j, step)
    ensures Lasts(j, Do(cfg, j, step))
  {
    match step
    case SAppend(_, _) =>
    case STake =>
    case SWrite =>
    case SWriteFails(_) =>
    case SSettle =>
    case SExit(_) =>
    case SFlushBegin(_) =>
    case SFlushEnd(_, _) =>
    case SCompactBegin(_) =>
    case SCompactProceed =>
    case SCompactTemp(_) =>
    case SCompactSwap =>
    case SCompactEnd =>
    case SStopBegin =>
    case SStopEnd(_) =>
  }

  lemma RunStep(cfg: Config, run: seq<System>, i: nat)
    requires IsRun(cfg, run) && 0 < i < |run|
    ensures Next(cfg, run[i - 1], run[i])
  {
    assert Next(cfg, run[i - 1], run[i - 1 + 1]);
  }

  ghost predicate NoCrash(run: seq<System>, i: nat, k: nat) {
    i <= k < |run| && forall n :: i <= n <= k ==> run[n].Up?
  }

  lemma {:induction false} RunLasts(cfg: Config, run: seq<System>, i: nat, k: nat)
    requires IsRun(cfg, run) && NoCrash(run, i, k)
    ensures Lasts(run[i].journal, run[k].journal)
  {
    if i < k {
      RunLasts(cfg, run, i, k - 1);
      RunStep(cfg, run, k);
      var step :| Enabled(cfg, run[k - 1].journal, step) && run[k].journal == Do(cfg, run[k - 1].journal, step);
      StepLasts(cfg, run[k - 1].journal, step);
    }
  }

  /** After a failure, until the next recovery, nothing is accepted and no call reports success. */
  lemma {:induction false} NothingAfterFailure(cfg: Config, run: seq<System>, i: nat, k: nat, kind: Kind, body: bytes,
                                               syncOk: bool)
    requires ValidConfig(cfg) && IsRun(cfg, run) && NoCrash(run, i, k)
    requires run[i].journal.failed || !run[i].journal.open
    ensures
      var j := run[k].journal;
      && Append(cfg, j, kind, body) == j && !FlushSucceeds(j, syncOk)
      && (j.compaction.Holding? ==> CompactProceed(j).compaction == NoCompaction)
      && (run[i].journal.failed ==> !StopSucceeds(j, syncOk))
  {
    RunLasts(cfg, run, i, k);
  }

  /** A sync that fails fails the journal, whether a flush or the writer on its way out asked for it. */
  lemma SyncFailureShows(cfg: Config, j: Journal, step: Step)
    requires Enabled(cfg, j, step) && (step.SExit? || (step.SFlushEnd? && j.open)) && !step.syncOk
    ensures Do(cfg, j, step).failed
  {
  }

  /** A writer that exits without a failure leaves every accepted record on file and synced. */
  lemma CleanExit(cfg: Config, run: seq<System>, i: nat, syncOk: bool)
    requires ValidConfig(cfg) && IsRun(cfg, run) && i < |run| && run[i].Up?
    requires Enabled(cfg, run[i].journal, SExit(syncOk)) && !Do(cfg, run[i].journal, SExit(syncOk)).failed
    ensures var j' := Do(cfg, run[i].journal, SExit(syncOk)); j'.file == Full(cfg, j'.log) && j'.synced == |j'.file|
  {
    RunKeeps(cfg, run, i);
    IdleIsWritten(cfg, run[i].journal);
  }

  /** A stop closes the journal whatever it reports. */
  lemma StopCloses(cfg: Config, j: Journal, syncOk: bool)
    requires Enabled(cfg, j, SStopEnd(syncOk))
    ensures var j' := Do(cfg, j, SStopEnd(syncOk)); !j'.open && !j'.accepting && (syncOk ==> j'.synced == |j'.file|)
  {
  }

  // ------------------------------------------------------------------ the expected ordinal

  /** What the writer expects, between two writes. */
  ghost predicate Expects(j: Journal) {
    j.written <= |j.log| && (j.hasExpected && !j.writer.Wrote? ==> j.expected == NextOrdinal(j.log[..j.written]))
  }

  lemma AppendExpects(cfg: Config, j: Journal, kind: Kind, body: bytes)
    requires Expects(j)
    ensures Expects(Append(cfg, j, kind, body))
  {
    var j' := Append(cfg, j, kind, body);
    assert j'.log[..j.written] == j.log[..j.written];
  }

  lemma SettleExpects(j: Journal)
    requires j.writer.Wrote? && 0 < j.written <= |j.log|
    requires j.writer.record == j.log[j.written - 1] && j.writer.record.ordinal + 1 < U64
    ensures Expects(Settle(j))
  {
    assert j.log[..j.written][j.written - 1] == j.writer.record;
  }

  lemma WroteFacts(cfg: Config, j: Journal)
    requires Inv(cfg, j) && j.writer.Wrote?
    ensures 0 < j.written <= |j.log| && j.writer.record == j.log[j.written - 1] && j.writer.record.ordinal + 1 < U64
  {
    assert Readable(cfg, j.log[j.written - 1]);
  }

  lemma TakenFacts(cfg: Config, j: Journal)
    requires Inv(cfg, j) && j.writer.Taken?
    ensures j.written < |j.log|
  {
    assert |j.log[j.written..]| == |InFlight(j.writer) + j.queue|;
  }

  lemma WriterExpects(cfg: Config, j: Journal, n: nat, syncOk: bool)
    requires Expects(j)
    ensures j.queue != [] && j.writer == Idle ==> Expects(Take(j))
    ensures Enabled(cfg, j, SWrite) && j.written < |j.log| ==> Expects(Write(cfg, j))
    ensures Enabled(cfg, j, SWriteFails(n)) ==> Expects(WriteFails(cfg, j, n))
    ensures j.writer == Idle ==> Expects(Exit(j, syncOk))
  {
  }

  lemma CallExpects(j: Journal, id: nat, syncOk: bool)
    requires Expects(j)
    ensures Expects(FlushBegin(j, id)) && Expects(FlushEnd(j, id, syncOk))
    ensures Expects(StopBegin(j)) && Expects(StopEnd(j, syncOk))
  {
  }

  lemma CompactExpects(j: Journal, data: bytes)
    requires Expects(j)
    ensures j.nextOrdinal > 0 ==> Expects(CompactBegin(j, data))
    ensures j.compaction.Holding? ==> Expects(CompactProceed(j))
    ensures Expects(CompactTemp(j, data)) && Expects(CompactEnd(j))
  {
  }

  lemma SwapExpects(cfg: Config, j: Journal)
    requires j.compaction.Paused? && j.compaction.snapshot.ordinal + 1 < U64
    ensures Expects(CompactSwap(cfg, j))
  {
    assert [j.compaction.snapshot][..1] == [j.compaction.snapshot];
  }

  lemma PausedFacts(cfg: Config, j: Journal)
    requires Inv(cfg, j) && j.compaction.Paused?
    ensures j.compaction.snapshot.ordinal + 1 < U64
  {
  }

  lemma StepExpects(cfg: Config, j: Journal, step: Step)
    requires Inv(cfg, j) && Expects(j) && Enabled(cfg, j, step)
    ensures Expects(Do(cfg, j, step))
  {
    match step
    case SAppend(kind, body) => AppendExpects(cfg, j, kind, body);
    case STake => WriterExpects(cfg, j, 0, true);
    case SWrite =>
      TakenFacts(cfg, j);
      WriterExpects(cfg, j, 0, true);
    case SWriteFails(n) => WriterExpects(cfg, j, n, true);
    case SSettle =>
      WroteFacts(cfg, j);
      SettleExpects(j);
    case SExit(syncOk) => WriterExpects(cfg, j, 0, syncOk);
    case SFlushBegin(id) => CallExpects(j, id, true);
    case SFlushEnd(id, syncOk) => CallExpects(j, id, syncOk);
    case SCompactBegin(body) => CompactExpects(j, body);
    case SCompactProceed => CompactExpects(j, []);
    case SCompactTemp(data) => CompactExpects(j, data);
    case SCompactSwap =>
      PausedFacts(cfg, j);
      SwapExpects(cfg, j);
    case SCompactEnd => CompactExpects(j, []);
    case SStopBegin => CallExpects(j, 0, true);
    case SStopEnd(syncOk) => CallExpects(j, 0, syncOk);
  }

  ghost predicate SystemExpects(s: System) { s.Up? ==> Expects(s.journal) }

  lemma NextExpects(cfg: Config, s: System, s': System)
    requires SystemInv(cfg, s) && SystemExpects(s) && Next(cfg, s, s')
    ensures SystemExpects(s')
  {
    match (s, s')
    case (Up(j), Up(j')) =>
      var step :| Enabled(cfg, j, step) && j' == Do(cfg, j, step);
      StepExpects(cfg, j, step);
    case (Up(_), Down(_, _, _)) =>
    case (Down(_, _, _), Up(_)) =>
    case (Down(_, _, _), Down(_, _, _)) =>
  }

  /** In every state of every run, between two writes: one above the last record on file. */
  lemma {:induction false} ExpectedExact(cfg: Config, run: seq<System>, i: nat)
    requires ValidConfig(cfg) && IsRun(cfg, run) && i < |run|
    ensures SystemExpects(run[i])
  {
    if i > 0 {
      ExpectedExact(cfg, run, i - 1);
      RunKeeps(cfg, run, i - 1);
      RunStep(cfg, run, i);
      NextExpects(cfg, run[i - 1], run[i]);
    }
  }
}
