/**
 The journal reader as the program runs it: an object over an open file that
 verifies one record per call, and the recovery loop that drives it. Every call
 is proved to do what JournalReading.dfy says about the bytes of the file.
 */
module JournalReader {
  import opened Bytes
  import opened Optional
  import opened JournalFormat
  import opened JournalReading

  class Reader {
    const cfg: Config
    var file: bytes
    var position: nat
    var lastGoodOffset: nat
    var haveOrdinal: bool
    var expectedOrdinal: nat
    var recordsRead: nat
    var bytesRead: nat
    var reachedEnd: bool
    var tornTail: bool
    var degraded: bool
    var limitReached: bool
    var bytesDiscarded: nat

    constructor (cfg: Config, content: bytes)
      ensures this.cfg == cfg && file == content && position == 0
    {
      this.cfg := cfg;
      file := content;
      position := 0;
      lastGoodOffset, haveOrdinal, expectedOrdinal := 0, false, 0;
      recordsRead, bytesRead := 0, 0;
      reachedEnd, tornTail, degraded, limitReached := false, false, false, false;
      bytesDiscarded := 0;
    }

    function Where(): Cursor
      reads this
    {
      Cursor(lastGoodOffset, haveOrdinal, expectedOrdinal, recordsRead, bytesRead,
                    reachedEnd, tornTail, degraded, limitReached)
    }

    ghost predicate Valid()
      reads this
    {
      lastGoodOffset <= |file| && (!reachedEnd ==> position == lastGoodOffset)
    }

    /** Up to n bytes from the current position. */
    method Read(n: nat) returns (data: bytes)
      requires position <= |file|
      modifies this`position
      ensures data == old(file[position..][..if n < |file| - position then n else |file| - position])
      ensures position == old(position) + |data|
    {
      var count := if n < |file| - position then n else |file| - position;
      data := file[position..position + count];
      assert data == file[position..][..count];
      position := position + count;
    }

    /** Reads the header; an empty file is initialised, an unusable one refused. */
    method Open() returns (ok: bool)
      requires position == 0
      modifies this
      ensures old(file) == [] ==>
        ok && file == BuildHeader(cfg, 0, 0) && Where() == StartCursor.(ended := true)
      ensures old(file) != [] ==>
        file == old(file) && (ok <==> |file| >= FILE_HEADER && ValidateHeader(cfg, file[..FILE_HEADER]).HeaderOk?)
      ensures old(file) != [] && ok ==> Where() == StartCursor
      ensures ok ==> Valid()
    {
      lastGoodOffset, haveOrdinal, expectedOrdinal := 0, false, 0;
      recordsRead, bytesRead := 0, 0;
      reachedEnd, tornTail, degraded, limitReached := false, false, false, false;
      var header := Read(FILE_HEADER);
      if |header| == 0 {
        file := BuildHeader(cfg, 0, 0);
        lastGoodOffset := FILE_HEADER;
        reachedEnd := true;
        return true;
      }
      assert header == file[..|header|];
      if |header| < FILE_HEADER {
        tornTail := true;
        return false;
      }
      if !ValidateHeader(cfg, header).HeaderOk? {
        return false;
      }
      lastGoodOffset := FILE_HEADER;
      return true;
    }

    /** Looks for any verifiable record at or behind an offset. */
    method IntactRecordFollows(from: nat) returns (found: bool)
      ensures found <==> IntactFollows(cfg, file, from)
    {
      var buffer := ScanBuffer(cfg, file, from);
      found := false;
      var offset := 0;
      while offset + RECORD_HEADER <= |buffer|
        invariant forall k: nat :: k < offset ==> !IntactAt(cfg, buffer, k)
      {
        if IntactAt(cfg, buffer, offset) {
          return true;
        }
        offset := offset + 1;
      }
    }

    /** Reads and verifies what lies at the current position. */
    method Examine() returns (finding: Finding)
      requires Valid() && !reachedEnd
      modifies this`position
      ensures finding == Inspect(cfg, file, lastGoodOffset, haveOrdinal, expectedOrdinal)
      ensures finding.Found? ==> position == lastGoodOffset + finding.size <= |file|
    {
      ghost var rest := file[position..];
      var header := Read(RECORD_HEADER);
      if |header| == 0 {
        return AtEnd;
      }
      if |header| < RECORD_HEADER {
        return Torn;
      }
      assert header[..4] == rest[..4] && header[4..8] == rest[4..8];
      var payloadLength := FromLittleEndian(header[..4]);
      var expectedCrc := FromLittleEndian(header[4..8]);
      if payloadLength < RECORD_PREFIX || payloadLength > cfg.maxRecordBytes {
        return Torn;
      }
      assert file[position..] == rest[RECORD_HEADER..];
      var payload := Read(payloadLength);
      if |payload| < payloadLength {
        return Torn;
      }
      assert payload == rest[RECORD_HEADER..RECORD_HEADER + payloadLength];
      if cfg.checksum(payload) != expectedCrc {
        var intact := IntactRecordFollows(lastGoodOffset + RECORD_HEADER);
        return if intact then Corrupt else Torn;
      }
      return InspectPayload(payload, haveOrdinal, expectedOrdinal);
    }

    method Count(r: Record, size: nat)
      modifies this`lastGoodOffset, this`recordsRead, this`bytesRead, this`haveOrdinal, this`expectedOrdinal
      ensures Where() == old(Where()).(offset := old(lastGoodOffset) + size, have := true,
        expected := (r.ordinal + 1) % U64, recordsRead := old(recordsRead) + 1, bytesRead := old(bytesRead) + size)
    {
      lastGoodOffset := lastGoodOffset + size;
      recordsRead := recordsRead + 1;
      bytesRead := bytesRead + size;
      haveOrdinal := true;
      expectedOrdinal := (r.ordinal + 1) % U64;
    }

    /** The next verified record, or none once the reader has stopped. */
    method Next() returns (record: Option<Record>)
      requires Valid()
      modifies this
      ensures Valid() && file == old(file)
      ensures (Where(), record) == Advance(cfg, file, old(Where()))
    {
      if reachedEnd {
        return None;
      }
      if recordsRead >= cfg.maxRecoveryRecords || bytesRead >= cfg.maxRecoveryBytes {
        limitReached := true;
        reachedEnd := true;
        return None;
      }
      var finding := Examine();
      match finding {
        case Found(r, size) =>
          record := Some(r);
          Count(r, size);
        case AtEnd =>
          record := None;
          reachedEnd := true;
        case Torn =>
          record := None;
          tornTail, reachedEnd := true, true;
        case Corrupt =>
          record := None;
          degraded, reachedEnd := true, true;
      }
    }

    /** Cuts the file back to the last verified record; refused when nothing is torn. */
    method RepairTornTail() returns (ok: bool)
      requires Valid()
      modifies this
      ensures ok == tornTail && Where() == old(Where())
      ensures file == if ok then old(file[..lastGoodOffset]) else old(file)
      ensures ok ==> bytesDiscarded == old(|file| - lastGoodOffset)
    {
      if !tornTail {
        return false;
      }
      bytesDiscarded := |file| - lastGoodOffset;
      file := file[..lastGoodOffset];
      position := lastGoodOffset;
      return true;
    }
  }

  /** What was read so far and what is still to come make up the whole. */
  ghost predicate Pending(cfg: Config, file: bytes, c: Cursor, records: seq<Record>, all: (seq<Record>, Cursor))
    requires ValidCursor(file, c)
  {
    all == (records + ReadAll(cfg, file, c).0, ReadAll(cfg, file, c).1)
  }

  lemma PendingNext(cfg: Config, file: bytes, c: Cursor, records: seq<Record>, all: (seq<Record>, Cursor))
    requires ValidCursor(file, c) && Pending(cfg, file, c, records, all)
    ensures
      var (next, record) := Advance(cfg, file, c);
      && ValidCursor(file, next) && (record.Some? ==> next.offset > c.offset)
      && if record.None? then all == (records, next) else Pending(cfg, file, next, records + [record.value], all)
  {
    ReadAllNext(cfg, file, c);
    var (next, record) := Advance(cfg, file, c);
    if record.None? {
      assert records + [] == records;
    } else {
      var rest := ReadAll(cfg, file, next).0;
      assert records + ([record.value] + rest) == records + [record.value] + rest;
    }
  }

  /** The replay loop run when the journal is opened. */
  method Replay(reader: Reader) returns (records: seq<Record>)
    requires reader.Valid()
    modifies reader
    ensures reader.Valid() && reader.file == old(reader.file)
    ensures (records, reader.Where()) == ReadAll(reader.cfg, reader.file, old(reader.Where()))
  {
    ghost var all := ReadAll(reader.cfg, reader.file, reader.Where());
    records := [];
    assert records + all.0 == all.0;
    while true
      invariant reader.Valid() && reader.file == old(reader.file)
      invariant Pending(reader.cfg, reader.file, reader.Where(), records, all)
      decreases |reader.file| - reader.lastGoodOffset
    {
      PendingNext(reader.cfg, reader.file, reader.Where(), records, all);
      var record := reader.Next();
      if record == None {
        return;
      }
      records := records + [record.value];
    }
  }

  /** Opening a journal: replay, refuse what cannot be verified, repair a torn tail. */
  method RecoverJournal(cfg: Config, content: bytes) returns (recovery: Recovery)
    ensures recovery == Recover(cfg, content)
  {
    var reader := new Reader(cfg, content);
    var usable := reader.Open();
    if !usable {
      return Refused;
    }
    var records := Replay(reader);
    if reader.degraded {
      return Refused;
    }
    var tornTail, limitReached, next := reader.tornTail, reader.limitReached, reader.expectedOrdinal;
    if tornTail {
      var repaired := reader.RepairTornTail();
    }
    recovery := Recovered(records, reader.file, tornTail, limitReached, next);
  }
}
