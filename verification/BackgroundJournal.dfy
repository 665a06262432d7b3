/**
 The journal object. Each method is one critical section of the source, or the file
 access between two of them; waiting on a condition variable becomes a precondition.
 Every method carries out one step of JournalProtocol.dfy, whose invariant
 `StepKeeps` shows for every interleaving of these calls.
 */
module BackgroundJournal {
  import opened Bytes
  import opened Optional
  import opened JournalFormat
  import opened JournalReading
  import Protocol = JournalProtocol
  import opened JournalProtocol

  datatype AppendStatus = Accepted | RecordTooLarge | NotAccepting | JournalFailed | QueueFull | OrdinalOutOfOrder

  class BackgroundJournal {
    const cfg: Config

    // The file as the operating system sees it.
    var file: bytes
    var position: nat
    var synced: nat
    var temp: Option<bytes>

    var queue: seq<Record>
    var writer: Writer
    var open: bool
    var accepting: bool
    var stopping: bool
    var failed: bool
    var hasEnqueued: bool
    var lastEnqueued: nat
    var hasExpected: bool
    var expected: nat
    var nextOrdinal: nat
    var compaction: Compaction

    // What the results are about, kept by no code.
    ghost var flushes: map<nat, seq<Record>>
    ghost var log: seq<Record>
    ghost var written: nat
    ghost var durable: nat

    ghost function State(): Journal
      reads this
    {
      Journal(file, position, synced, temp, queue, writer, open, accepting, stopping, failed, hasEnqueued,
              lastEnqueued, hasExpected, expected, nextOrdinal, compaction, flushes, log, written, durable)
    }

    /** Opening what recovery left: the file it repaired and the ordinal it ended on. */
    constructor (cfg: Config, recovery: Recovery)
      requires recovery.Recovered?
      ensures this.cfg == cfg && State() == Opened(recovery.file, recovery.records, recovery.nextOrdinal)
    {
      this.cfg := cfg;
      file, position, synced, temp := recovery.file, |recovery.file|, |recovery.file|, None;
      queue, writer, open, accepting, stopping, failed := [], Idle, true, true, false, false;
      hasEnqueued, lastEnqueued, hasExpected, expected := false, 0, false, 0;
      nextOrdinal, compaction := recovery.nextOrdinal, NoCompaction;
      flushes, log := map[], recovery.records;
      written, durable := |recovery.records|, |recovery.records|;
    }

    /** Queues a record under the next ordinal, or refuses it and changes nothing. */
    method Append(kind: Kind, body: bytes) returns (status: AppendStatus)
      modifies this
      ensures State() == Protocol.Append(cfg, old(State()), kind, body)
      ensures status == Accepted <==> Protocol.Admits(cfg, old(State()), body)
    {
      if |body| > cfg.maxRecordBytes {
        return RecordTooLarge;
      }
      if !open || !accepting {
        return NotAccepting;
      }
      if failed {
        return JournalFailed;
      }
      if |queue| >= cfg.maxQueueDepth {
        return QueueFull;
      }
      if hasEnqueued && nextOrdinal != (lastEnqueued + 1) % U64 {
        return OrdinalOutOfOrder;
      }
      Enqueue(Record(kind, nextOrdinal, body));
      return Accepted;
    }

    method Enqueue(record: Record)
      modifies this
      ensures State() == old(State()).(queue := old(queue) + [record], hasEnqueued := true,
        lastEnqueued := record.ordinal, nextOrdinal := record.ordinal + 1, log := old(log) + [record])
    {
      queue, log := queue + [record], log + [record];
      lastEnqueued, hasEnqueued, nextOrdinal := record.ordinal, true, record.ordinal + 1;
    }

    /** The writer takes the oldest record from the queue. */
    method WriterTake()
      requires queue != []
      modifies this
      ensures State() == Protocol.Take(old(State()))
    {
      writer, queue := Taken(queue[0]), queue[1..];
    }

    method WriteBytes(data: bytes)
      requires position <= |file|
      modifies this`file, this`position
      ensures file == Protocol.Overwrite(old(file), old(position), data) && position == old(position) + |data|
    {
      file := Protocol.Overwrite(file, position, data);
      position := position + |data|;
    }

    /** The writer's file access, outside the lock. */
    method WriterWrite()
      requires writer.Taken? && position <= |file|
      modifies this
      ensures State() == Protocol.Write(cfg, old(State()))
      ensures Protocol.WroteNext(cfg, old(State()), State())
    {
      Protocol.WriteMeans(cfg, State());
      WriteBytes(EncodeRecord(cfg, writer.record));
      writer, written := Wrote(writer.record), written + 1;
    }

    /** The same when the system stops it part way, and the queue is given up. */
    method WriterWriteFails(bytesDone: nat)
      requires writer.Taken? && position <= |file| && bytesDone < |EncodeRecord(cfg, writer.record)|
      modifies this
      ensures State() == Protocol.WriteFails(cfg, old(State()), bytesDone)
      ensures Protocol.GivenUp(cfg, old(State()), State())
    {
      Protocol.WriteFailsMeans(cfg, State(), bytesDone);
      WriteBytes(EncodeRecord(cfg, writer.record)[..bytesDone]);
      writer, failed, queue := Idle, true, [];
    }

    method WriterSettle()
      requires writer.Wrote?
      modifies this
      ensures State() == Protocol.Settle(old(State()))
    {
      expected, hasExpected := (writer.record.ordinal + 1) % U64, true;
      writer := Idle;
    }

    method Vouch()
      modifies this`synced, this`durable
      ensures synced == |file| && durable == written
    {
      synced, durable := |file|, written;
    }

    /** The end of a flush call, once its wait is over. */
    method FlushEnd(id: nat, syncOk: bool) returns (ok: bool)
      modifies this
      ensures State() == Protocol.FlushEnd(old(State()), id, syncOk)
      ensures ok == Protocol.FlushSucceeds(old(State()), syncOk)
      ensures Protocol.Flushed(cfg, old(State()), id, syncOk, State())
    {
      Protocol.FlushMeans(cfg, State(), id, syncOk);
      flushes := flushes - {id};
      if !open || failed {
        return false;
      }
      if !syncOk {
        failed := true;
        return false;
      }
      Vouch();
      return true;
    }

    /** A compaction whose wait is over: the writer is paused, or the call gives up. */
    method CompactProceed() returns (ok: bool)
      requires compaction.Holding?
      modifies this
      ensures State() == Protocol.CompactProceed(old(State()))
      ensures ok <==> compaction == Paused(old(compaction.snapshot))
      ensures Protocol.ReadyToCompact(cfg, old(State()), State())
    {
      Protocol.CompactMeans(cfg, State());
      var snapshot := compaction.snapshot;
      if !open || failed || (hasExpected && expected > snapshot.ordinal + 1) {
        compaction := NoCompaction;
        return false;
      }
      compaction := Paused(snapshot);
      return true;
    }

    /** The temporary file of a compaction: a header and the snapshot. */
    method CompactImage(snapshot: Record) returns (image: bytes)
      ensures image == Protocol.Full(cfg, [snapshot])
    {
      image := Protocol.Header(cfg);
      image := image + EncodeRecord(cfg, snapshot);
      EncodeOne(cfg, snapshot);
    }

    /** The renamed file, opened at its end. */
    method Reopen(image: bytes)
      modifies this
      ensures State() == old(State()).(file := image, position := |image|, synced := |image|, temp := None)
    {
      file, position, synced, temp := image, |image|, |image|, None;
    }

    /** Ordinals go on from the snapshot. */
    method ResumeAfter(ordinal: nat)
      modifies this
      ensures State() == old(State()).(hasExpected := true, expected := (ordinal + 1) % U64,
                                       hasEnqueued := true, lastEnqueued := ordinal)
    {
      expected, hasExpected := (ordinal + 1) % U64, true;
      lastEnqueued, hasEnqueued := ordinal, true;
    }

    method SwapIn(image: bytes)
      requires compaction.Paused?
      modifies this
      ensures State() == Protocol.SwapIn(old(State()), image)
    {
      var snapshot := compaction.snapshot;
      Reopen(image);
      ResumeAfter(snapshot.ordinal);
      compaction := Swapped;
      log, written, durable := [snapshot], 1, 1;
    }

    /** Writes the snapshot beside the journal and swaps it in. */
    method CompactSwap()
      requires compaction.Paused?
      modifies this
      ensures State() == Protocol.CompactSwap(cfg, old(State()))
    {
      var image := CompactImage(compaction.snapshot);
      SwapIn(image);
    }

    /** The fallback when that fails: the old file, reopened at its start. */
    method CompactFail()
      modifies this
      ensures State() == Protocol.CompactFail(old(State()))
    {
      position, temp, compaction := 0, None, NoCompaction;
    }

    /** Stopping, after the writer thread was joined. */
    method StopEnd(syncOk: bool) returns (ok: bool)
      modifies this
      ensures State() == Protocol.StopEnd(old(State()), syncOk)
      ensures ok == Protocol.StopSucceeds(old(State()), syncOk)
      ensures Protocol.Stopped(cfg, old(State()), syncOk, State())
    {
      Protocol.StopMeans(cfg, State(), syncOk);
      ok := !failed && syncOk;
      if ok {
        durable := written;
      }
      if syncOk {
        synced := |file|;
      }
      open, accepting := false, false;
    }

    /** Left alone, the writer empties the queue: what was accepted is on file, in order. */
    method WriterDrain()
      requires Protocol.Inv(cfg, State()) && writer == Idle && !failed
      modifies this
      ensures Protocol.Inv(cfg, State()) && Protocol.IsIdle(State())
      ensures log == old(log) && file == Protocol.Full(cfg, log)
    {
      while queue != []
        invariant Protocol.Inv(cfg, State()) && writer == Idle && !failed && log == old(log)
        decreases |queue|
      {
        Protocol.DrainOne(cfg, State());
        WriterTake();
        WriterWrite();
        WriterSettle();
      }
      Protocol.IdleIsWritten(cfg, State());
    }
  }
}
