/**
 Recovery of arbitrary bytes. The reader takes verified records from the front of the
 file, with ordinals that go up by one, and stops at the first thing that is none. What
 it finds there decides between a complete journal, a torn tail and a refusal.

 Main results: `StopsSomewhere` and `RecoverExactly`, which together describe recovery for
 every file with a valid header, `RefusedExactly`, `ScanExactly`, `RecoveredInSequence`
 and `BrokenSequenceRefused`.
 */
module JournalInputs {
  import opened Bytes
  import opened Optional
  import opened JournalFormat
  import opened JournalReading

  // ------------------------------------------------ what a file says, record by record

  /** Ordinals go up by one, without ever passing the largest. */
  ghost predicate InSequence(rs: seq<Record>) {
    forall i :: 0 <= i < |rs| ==> rs[i].ordinal == rs[0].ordinal + i < U64
  }

  ghost predicate AllShort(cfg: Config, rs: seq<Record>) {
    forall i :: 0 <= i < |rs| ==> |rs[i].body| + RECORD_PREFIX <= cfg.maxRecordBytes
  }

  function EndOf(cfg: Config, rs: seq<Record>): nat { FILE_HEADER + |EncodeAll(cfg, rs)| }

  /** So many records or bytes are read that recovery looks no further. */
  predicate Full(cfg: Config, rs: seq<Record>) {
    |rs| >= cfg.maxRecoveryRecords || |EncodeAll(cfg, rs)| >= cfg.maxRecoveryBytes
  }

  /** The file goes on from its header with exactly these records, none of them beyond the limits. */
  ghost predicate Verified(cfg: Config, file: bytes, rs: seq<Record>) {
    && InSequence(rs) && AllShort(cfg, rs) && FILE_HEADER <= EndOf(cfg, rs) <= |file|
    && file[FILE_HEADER..EndOf(cfg, rs)] == EncodeAll(cfg, rs)
    && forall k :: 0 <= k < |rs| ==> !Full(cfg, rs[..k])
  }

  /** A length within bounds, and as many bytes behind it. */
  predicate WholeAt(cfg: Config, file: bytes, at: nat) {
    && at + RECORD_HEADER <= |file|
    && var length := FromLittleEndian(file[at..at + 4]);
       RECORD_PREFIX <= length <= cfg.maxRecordBytes && at + RECORD_HEADER + length <= |file|
  }

  function PayloadAt(cfg: Config, file: bytes, at: nat): bytes
    requires WholeAt(cfg, file, at)
  {
    file[at + RECORD_HEADER..at + RECORD_HEADER + FromLittleEndian(file[at..at + 4])]
  }

  predicate ChecksumFits(cfg: Config, file: bytes, at: nat)
    requires WholeAt(cfg, file, at)
  {
    cfg.checksum(PayloadAt(cfg, file, at)) == FromLittleEndian(file[at + 4..at + 8])
  }

  /** A record whose bytes are all there and match its checksum. */
  predicate IntactIn(cfg: Config, file: bytes, at: nat) {
    WholeAt(cfg, file, at) && ChecksumFits(cfg, file, at)
  }

  /** How far recovery looks for intact records: its byte limit, in whole chunks of 64 KiB. */
  function Reach(cfg: Config): (r: nat)
    ensures r % 65536 == 0 && cfg.maxRecoveryBytes <= r < cfg.maxRecoveryBytes + 65536
  {
    var short := cfg.maxRecoveryBytes % 65536;
    if short == 0 then cfg.maxRecoveryBytes else cfg.maxRecoveryBytes + (65536 - short)
  }

  function Seen(cfg: Config, file: bytes, from: nat): bytes {
    if from + Reach(cfg) < |file| then file[..from + Reach(cfg)] else file
  }

  /** An intact record starts there or behind, and ends in what recovery looks at. */
  ghost predicate IntactAhead(cfg: Config, file: bytes, from: nat) {
    exists k: nat :: from <= k && IntactIn(cfg, Seen(cfg, file, from), k)
  }

  /** A payload of a kind there is, with the ordinal that comes next. */
  predicate GoesOn(rs: seq<Record>, payload: bytes)
    requires |payload| >= RECORD_PREFIX
  {
    && 1 <= payload[8] <= 7
    && (rs == [] || FromLittleEndian(payload[..8]) == rs[|rs| - 1].ordinal + 1)
  }

  /** What the bytes at the end of the verified records are. */
  datatype Ending = Limit | Complete | NextRecord | TornTail | Unverifiable

  ghost function EndingOf(cfg: Config, file: bytes, rs: seq<Record>): Ending
    requires EndOf(cfg, rs) <= |file|
  {
    var at := EndOf(cfg, rs);
    if Full(cfg, rs) then Limit
    else if at == |file| then Complete
    else if !WholeAt(cfg, file, at) then TornTail
    else if !ChecksumFits(cfg, file, at) then
      if IntactAhead(cfg, file, at + RECORD_HEADER) then Unverifiable else TornTail
    else if GoesOn(rs, PayloadAt(cfg, file, at)) then NextRecord
    else Unverifiable
  }

  /** These records are verified and no other one follows. */
  ghost predicate StopsAfter(cfg: Config, file: bytes, rs: seq<Record>) {
    Verified(cfg, file, rs) && EndingOf(cfg, file, rs) != NextRecord
  }

  function AfterOrdinal(rs: seq<Record>): nat { NextOrdinal(rs) % U64 }

  /** What recovery is to make of such a file. */
  ghost function Outcome(cfg: Config, file: bytes, rs: seq<Record>): Recovery
    requires EndOf(cfg, rs) <= |file|
  {
    match EndingOf(cfg, file, rs)
    case Unverifiable => Refused
    case TornTail => Recovered(rs, file[..EndOf(cfg, rs)], true, false, AfterOrdinal(rs))
    case Limit => Recovered(rs, file, false, true, AfterOrdinal(rs))
    case _ => Recovered(rs, file, false, false, AfterOrdinal(rs))
  }

  // ------------------------------------------------------------------- the header

  const KINDS := [Capability, Policy, LinkObserved, LinkGenerationAdvanced, Evidence, Snapshot, DedupWindow]

  /** Eight letters, the version, and behind 32 bytes their checksum. */
  predicate HeaderFits(cfg: Config, file: bytes) {
    && FILE_HEADER <= |file|
    && file[..8] == [0x4C, 0x51, 0x46, 0x4A, 0x52, 0x4E, 0x4C, 0x31] && file[8..12] == [1, 0, 0, 0]
    && FromLittleEndian(file[32..36]) == cfg.checksum(file[..32])
  }

  lemma VersionBytes(version: bytes)
    requires |version| == 4
    ensures FromLittleEndian(version) == 1 <==> version == [1, 0, 0, 0]
  {
    FromLittleEndianRoundTrip(version);
    LittleEndianOne();
  }

  lemma LittleEndianOne()
    ensures LittleEndian(1, 4) == [1, 0, 0, 0] && FromLittleEndian([1, 0, 0, 0]) == 1
  {
    assert LittleEndian(0, 1) == [0] && LittleEndian(0, 2) == [0, 0] && LittleEndian(0, 3) == [0, 0, 0];
    Pow256Values();
    LittleEndianRoundTrip(1, 4);
  }

  lemma HeaderExactly(cfg: Config, file: bytes)
    ensures HeaderFits(cfg, file) <==> FILE_HEADER <= |file| && ValidateHeader(cfg, file[..FILE_HEADER]).HeaderOk?
  {
    if FILE_HEADER <= |file| {
      var header := file[..FILE_HEADER];
      assert header[..8] == file[..8] && header[8..12] == file[8..12];
      assert header[32..36] == file[32..36] && header[..32] == file[..32];
      VersionBytes(file[8..12]);
    }
  }

  /** What is wrong with a header of the right size: its first part that is. */
  lemma HeaderFaults(cfg: Config, header: bytes)
    requires |header| == FILE_HEADER
    ensures
      var status := ValidateHeader(cfg, header);
      && (status == BadMagic <==> header[..8] != [0x4C, 0x51, 0x46, 0x4A, 0x52, 0x4E, 0x4C, 0x31])
      && (status == UnsupportedVersion ==> header[8..12] != [1, 0, 0, 0])
      && (status == BadChecksum ==>
            header[8..12] == [1, 0, 0, 0] && FromLittleEndian(header[32..36]) != cfg.checksum(header[..32]))
      && (status.HeaderOk? <==> HeaderFits(cfg, header)) && status != HeaderTruncated
  {
    assert header[..FILE_HEADER] == header;
    VersionBytes(header[8..12]);
    HeaderExactly(cfg, header);
  }

  // -------------------------------------------------------------------- one look

  function CursorOf(cfg: Config, rs: seq<Record>): Cursor {
    var size := |EncodeAll(cfg, rs)|;
    Cursor(FILE_HEADER + size, rs != [], AfterOrdinal(rs), |rs|, size, false, false, false, false)
  }

  lemma KindBack(raw: byte)
    ensures ParseKind(raw).Some? <==> 1 <= raw <= 7
    ensures ParseKind(raw).Some? ==> KindByte(ParseKind(raw).value) == raw && KINDS[raw - 1] == ParseKind(raw).value
  {
  }

  /** The ordinal test accepts exactly the next ordinal, and none after the largest. */
  lemma OrdinalTest(rs: seq<Record>, ordinal: nat)
    requires InSequence(rs) && rs != [] && ordinal < U64
    ensures ordinal <= PrevOrdinal(AfterOrdinal(rs)) || ordinal != AfterOrdinal(rs)
       <==> ordinal != rs[|rs| - 1].ordinal + 1
  {
    var last := rs[|rs| - 1].ordinal;
    assert last < U64;
    if last + 1 < U64 {
      assert AfterOrdinal(rs) == last + 1 && PrevOrdinal(last + 1) == last;
    } else {
      assert AfterOrdinal(rs) == 0 && PrevOrdinal(0) == U64 - 1;
    }
  }

  /** The record a payload spells. */
  function RecordIn(payload: bytes): Record
    requires |payload| >= RECORD_PREFIX && ParseKind(payload[8]).Some?
  {
    Record(ParseKind(payload[8]).value, FromLittleEndian(payload[..8]), payload[RECORD_PREFIX..])
  }

  lemma PayloadInspected(rs: seq<Record>, payload: bytes)
    requires InSequence(rs) && |payload| >= RECORD_PREFIX
    ensures InspectPayload(payload, rs != [], AfterOrdinal(rs))
         == if GoesOn(rs, payload) then Found(RecordIn(payload), RECORD_HEADER + |payload|) else Corrupt
  {
    KindBack(payload[8]);
    FromLittleEndianBound(payload[..8]);
    Pow256Values();
    if rs != [] {
      OrdinalTest(rs, FromLittleEndian(payload[..8]));
    }
  }

  /** What is spelled is what is written. */
  lemma PayloadBack(payload: bytes)
    requires |payload| >= RECORD_PREFIX && ParseKind(payload[8]).Some?
    ensures Payload(RecordIn(payload)) == payload && RecordIn(payload).ordinal < U64
  {
    KindBack(payload[8]);
    FromLittleEndianRoundTrip(payload[..8]);
    FromLittleEndianBound(payload[..8]);
    Pow256Values();
    assert payload == payload[..8] + [payload[8]] + payload[9..];
  }

  lemma Slices(file: bytes, a: nat, b: nat, c: nat, d: nat)
    requires a <= b <= c <= d <= |file|
    ensures file[a..d] == file[a..b] + file[b..c] + file[c..d]
  {
    assert file[a..c] == file[a..b] + file[b..c];
    assert file[a..d] == file[a..c] + file[c..d];
  }

  /** Length, checksum and payload are written as they stand. */
  lemma EncodedBack(cfg: Config, length: bytes, check: bytes, payload: bytes)
    requires |length| == |check| == 4 && |payload| >= RECORD_PREFIX && ParseKind(payload[8]).Some?
    requires FromLittleEndian(length) == |payload| && FromLittleEndian(check) == cfg.checksum(payload)
    ensures EncodeRecord(cfg, RecordIn(payload)) == length + check + payload
  {
    PayloadBack(payload);
    FromLittleEndianRoundTrip(length);
    FromLittleEndianRoundTrip(check);
  }

  lemma RecordBack(cfg: Config, file: bytes, at: nat)
    requires WholeAt(cfg, file, at) && ChecksumFits(cfg, file, at)
    requires ParseKind(PayloadAt(cfg, file, at)[8]).Some?
    ensures
      var r, size := RecordIn(PayloadAt(cfg, file, at)), RECORD_HEADER + |PayloadAt(cfg, file, at)|;
      at + size <= |file| && file[at..at + size] == EncodeRecord(cfg, r)
  {
    var payload := PayloadAt(cfg, file, at);
    EncodedBack(cfg, file[at..at + 4], file[at + 4..at + 8], payload);
    Slices(file, at, at + 4, at + 8, at + RECORD_HEADER + |payload|);
  }

  /** The record the verified ones go on with. */
  function NextIn(cfg: Config, file: bytes, rs: seq<Record>): Record
    requires WholeAt(cfg, file, EndOf(cfg, rs)) && ParseKind(PayloadAt(cfg, file, EndOf(cfg, rs))[8]).Some?
  {
    RecordIn(PayloadAt(cfg, file, EndOf(cfg, rs)))
  }

  lemma ScanOne(cfg: Config, seen: bytes, from: nat, offset: nat)
    requires from <= |seen|
    ensures IntactAt(cfg, seen[from..], offset) <==> IntactIn(cfg, seen, from + offset)
  {
    var buffer, at := seen[from..], from + offset;
    if at + RECORD_HEADER <= |seen| {
      assert buffer[offset..offset + 4] == seen[at..at + 4] && buffer[offset + 4..offset + 8] == seen[at + 4..at + 8];
      if WholeAt(cfg, seen, at) {
        var size := |PayloadAt(cfg, seen, at)|;
        assert buffer[offset + RECORD_HEADER..offset + RECORD_HEADER + size] == PayloadAt(cfg, seen, at);
      }
    }
  }

  lemma ReachScanned(cfg: Config)
    ensures (cfg.maxRecoveryBytes + CHUNK - 1) / CHUNK * CHUNK == Reach(cfg)
  {
  }

  lemma Scanned(cfg: Config, file: bytes, from: nat)
    requires from <= |file|
    ensures from <= |Seen(cfg, file, from)| && ScanBuffer(cfg, file, from) == Seen(cfg, file, from)[from..]
  {
    ReachScanned(cfg);
    var end := from + Reach(cfg);
    if end < |file| {
      assert file[from..][..Reach(cfg)] == file[..end][from..];
    }
  }

  lemma ScanSame(cfg: Config, file: bytes, from: nat, offset: nat)
    requires from <= |file|
    ensures IntactAt(cfg, ScanBuffer(cfg, file, from), offset) <==> IntactIn(cfg, Seen(cfg, file, from), from + offset)
  {
    Scanned(cfg, file, from);
    ScanOne(cfg, Seen(cfg, file, from), from, offset);
  }

  /** The forward scan finds exactly the intact records ahead. */
  lemma ScanExactly(cfg: Config, file: bytes, from: nat)
    requires from <= |file|
    ensures IntactFollows(cfg, file, from) <==> IntactAhead(cfg, file, from)
  {
    if IntactFollows(cfg, file, from) {
      var offset: nat :| IntactAt(cfg, ScanBuffer(cfg, file, from), offset);
      ScanSame(cfg, file, from, offset);
    }
    if IntactAhead(cfg, file, from) {
      var k: nat :| from <= k && IntactIn(cfg, Seen(cfg, file, from), k);
      ScanSame(cfg, file, from, k - from);
    }
  }

  /** One look of the reader, in terms of the bytes at its offset. */
  lemma LookedAt(cfg: Config, file: bytes, at: nat, have: bool, expected: nat)
    requires at <= |file|
    ensures Inspect(cfg, file, at, have, expected) ==
            if at == |file| then AtEnd
            else if !WholeAt(cfg, file, at) then Torn
            else if ChecksumFits(cfg, file, at) then InspectPayload(PayloadAt(cfg, file, at), have, expected)
            else if IntactAhead(cfg, file, at + RECORD_HEADER) then Corrupt else Torn
  {
    if at + RECORD_HEADER <= |file| {
      ScanExactly(cfg, file, at + RECORD_HEADER);
    }
    var rest := file[at..];
    if at + RECORD_HEADER <= |file| {
      assert rest[..4] == file[at..at + 4] && rest[4..8] == file[at + 4..at + 8];
      if WholeAt(cfg, file, at) {
        var payload := PayloadAt(cfg, file, at);
        assert rest[RECORD_HEADER..RECORD_HEADER + |payload|] == payload;
      }
    }
  }

  /** What the reader is told behind verified records. */
  ghost function Look(cfg: Config, file: bytes, rs: seq<Record>): Finding
    requires EndOf(cfg, rs) <= |file|
  {
    Inspect(cfg, file, EndOf(cfg, rs), rs != [], AfterOrdinal(rs))
  }

  lemma LookedPayload(cfg: Config, file: bytes, rs: seq<Record>)
    requires InSequence(rs) && WholeAt(cfg, file, EndOf(cfg, rs)) && ChecksumFits(cfg, file, EndOf(cfg, rs))
    ensures
      var payload := PayloadAt(cfg, file, EndOf(cfg, rs));
      if GoesOn(rs, payload)
      then ParseKind(payload[8]).Some? && Look(cfg, file, rs) == Found(RecordIn(payload), RECORD_HEADER + |payload|)
      else Look(cfg, file, rs) == Corrupt
  {
    var at := EndOf(cfg, rs);
    LookedAt(cfg, file, at, rs != [], AfterOrdinal(rs));
    PayloadInspected(rs, PayloadAt(cfg, file, at));
    KindBack(PayloadAt(cfg, file, at)[8]);
  }

  /** What the reader is to find where it stops. */
  function FindingOf(ending: Ending): Finding
    requires !ending.NextRecord? && !ending.Limit?
  {
    match ending
    case Complete => AtEnd
    case TornTail => Torn
    case Unverifiable => Corrupt
  }

  lemma Looked(cfg: Config, file: bytes, rs: seq<Record>, ending: Ending)
    requires InSequence(rs) && EndOf(cfg, rs) <= |file| && ending == EndingOf(cfg, file, rs)
    requires !ending.NextRecord? && !ending.Limit?
    ensures Look(cfg, file, rs) == FindingOf(ending)
  {
    var at := EndOf(cfg, rs);
    if at < |file| && WholeAt(cfg, file, at) && ChecksumFits(cfg, file, at) {
      LookedPayload(cfg, file, rs);
    } else {
      LookedAt(cfg, file, at, rs != [], AfterOrdinal(rs));
    }
  }

  // --------------------------------------------------------------------- one record more

  lemma EndOfNext(cfg: Config, rs: seq<Record>, r: Record)
    ensures EncodeAll(cfg, rs + [r]) == EncodeAll(cfg, rs) + EncodeRecord(cfg, r)
    ensures EndOf(cfg, rs + [r]) == EndOf(cfg, rs) + |EncodeRecord(cfg, r)|
  {
    assert (rs + [r])[..|rs|] == rs;
  }

  lemma SequenceNext(rs: seq<Record>, r: Record)
    requires InSequence(rs) && r.ordinal < U64 && (rs != [] ==> r.ordinal == rs[|rs| - 1].ordinal + 1)
    ensures InSequence(rs + [r])
  {
    if rs != [] {
      assert rs[|rs| - 1].ordinal == rs[0].ordinal + (|rs| - 1);
    }
  }

  lemma FullNext(cfg: Config, rs: seq<Record>, r: Record)
    requires !Full(cfg, rs) && forall k :: 0 <= k < |rs| ==> !Full(cfg, rs[..k])
    ensures forall k :: 0 <= k < |rs| + 1 ==> !Full(cfg, (rs + [r])[..k])
  {
    forall k | 0 <= k < |rs| + 1
      ensures !Full(cfg, (rs + [r])[..k])
    {
      if k < |rs| {
        assert (rs + [r])[..k] == rs[..k];
      } else {
        assert (rs + [r])[..k] == rs;
      }
    }
  }

  lemma BytesNext(cfg: Config, file: bytes, rs: seq<Record>, r: Record)
    requires EndOf(cfg, rs) + |EncodeRecord(cfg, r)| <= |file|
    requires file[FILE_HEADER..EndOf(cfg, rs)] == EncodeAll(cfg, rs)
    requires file[EndOf(cfg, rs)..EndOf(cfg, rs) + |EncodeRecord(cfg, r)|] == EncodeRecord(cfg, r)
    ensures EndOf(cfg, rs + [r]) == EndOf(cfg, rs) + |EncodeRecord(cfg, r)|
    ensures file[FILE_HEADER..EndOf(cfg, rs + [r])] == EncodeAll(cfg, rs + [r])
  {
    EndOfNext(cfg, rs, r);
    Slices(file, FILE_HEADER, EndOf(cfg, rs), EndOf(cfg, rs), EndOf(cfg, rs + [r]));
  }

  /** The next record is spelled in the file and goes on with the sequence. */
  lemma NextSpelled(cfg: Config, file: bytes, rs: seq<Record>)
    requires InSequence(rs) && EndOf(cfg, rs) <= |file| && EndingOf(cfg, file, rs) == NextRecord
    ensures
      var at := EndOf(cfg, rs);
      && WholeAt(cfg, file, at) && ParseKind(PayloadAt(cfg, file, at)[8]).Some?
      && var r := NextIn(cfg, file, rs);
         && at + |EncodeRecord(cfg, r)| <= |file| && file[at..at + |EncodeRecord(cfg, r)|] == EncodeRecord(cfg, r)
         && |r.body| + RECORD_PREFIX <= cfg.maxRecordBytes && InSequence(rs + [r])
  {
    var at := EndOf(cfg, rs);
    KindBack(PayloadAt(cfg, file, at)[8]);
    RecordBack(cfg, file, at);
    PayloadBack(PayloadAt(cfg, file, at));
    SequenceNext(rs, NextIn(cfg, file, rs));
  }

  lemma VerifiedNext(cfg: Config, file: bytes, rs: seq<Record>)
    requires Verified(cfg, file, rs) && EndingOf(cfg, file, rs) == NextRecord
    ensures ParseKind(PayloadAt(cfg, file, EndOf(cfg, rs))[8]).Some?
    ensures Verified(cfg, file, rs + [NextIn(cfg, file, rs)])
  {
    NextSpelled(cfg, file, rs);
    BytesNext(cfg, file, rs, NextIn(cfg, file, rs));
    FullNext(cfg, rs, NextIn(cfg, file, rs));
  }

  /** The reader's state once it stopped. */
  function Stopped(c: Cursor, ending: Ending): Cursor
    requires !ending.NextRecord?
  {
    c.(ended := true, limitReached := ending.Limit?, tornTail := ending.TornTail?, degraded := ending.Unverifiable?)
  }

  lemma AdvanceEnds(cfg: Config, file: bytes, rs: seq<Record>, ending: Ending)
    requires EndOf(cfg, rs) <= |file| && !ending.NextRecord?
    requires if Full(cfg, rs) then ending.Limit? else !ending.Limit? && Look(cfg, file, rs) == FindingOf(ending)
    ensures Advance(cfg, file, CursorOf(cfg, rs)) == (Stopped(CursorOf(cfg, rs), ending), None)
  {
  }

  lemma AdvanceStops(cfg: Config, file: bytes, rs: seq<Record>, ending: Ending)
    requires InSequence(rs) && EndOf(cfg, rs) <= |file|
    requires ending == EndingOf(cfg, file, rs) && !ending.NextRecord?
    ensures Advance(cfg, file, CursorOf(cfg, rs)) == (Stopped(CursorOf(cfg, rs), ending), None)
  {
    if !Full(cfg, rs) {
      Looked(cfg, file, rs, ending);
    }
    AdvanceEnds(cfg, file, rs, ending);
  }

  lemma AdvanceGoesOn(cfg: Config, file: bytes, rs: seq<Record>, r: Record)
    requires EndOf(cfg, rs) <= |file| && !Full(cfg, rs)
    requires Look(cfg, file, rs) == Found(r, |EncodeRecord(cfg, r)|)
    ensures Advance(cfg, file, CursorOf(cfg, rs)) == (CursorOf(cfg, rs + [r]), Some(r))
  {
    EndOfNext(cfg, rs, r);
    AdvanceFound(cfg, file, CursorOf(cfg, rs), r, |EncodeRecord(cfg, r)|);
  }

  // ------------------------------------------------------------------ the whole file

  /** For every file the reader stops after some records. */
  lemma {:induction false} StopsFrom(cfg: Config, file: bytes, rs: seq<Record>) returns (all: seq<Record>)
    requires Verified(cfg, file, rs)
    ensures rs <= all && StopsAfter(cfg, file, all)
    decreases |file| - EndOf(cfg, rs)
  {
    if EndingOf(cfg, file, rs) == NextRecord {
      VerifiedNext(cfg, file, rs);
      var r := NextIn(cfg, file, rs);
      EndOfNext(cfg, rs, r);
      all := StopsFrom(cfg, file, rs + [r]);
    } else {
      all := rs;
    }
  }

  lemma StopsSomewhere(cfg: Config, file: bytes) returns (rs: seq<Record>)
    requires FILE_HEADER <= |file|
    ensures StopsAfter(cfg, file, rs)
  {
    assert EncodeAll(cfg, []) == [] && file[FILE_HEADER..FILE_HEADER] == [];
    rs := StopsFrom(cfg, file, []);
  }

  /** A verified record is found. */
  lemma FoundAgain(cfg: Config, file: bytes, rs: seq<Record>, r: Record)
    requires ValidConfig(cfg) && Verified(cfg, file, rs + [r]) && EndOf(cfg, rs) <= |file|
    ensures Look(cfg, file, rs) == Found(r, |EncodeRecord(cfg, r)|)
  {
    var at, end := EndOf(cfg, rs), EndOf(cfg, rs + [r]);
    EndOfNext(cfg, rs, r);
    TailIs(file, EncodeAll(cfg, rs), EncodeRecord(cfg, r), at, end);
    Slices(file, at, end, end, |file|);
    assert (rs + [r])[|rs|] == r;
    OrdinalNext(rs, r);
    InspectWhole(cfg, file, at, r, file[end..], rs != [], AfterOrdinal(rs));
  }

  lemma OrdinalNext(rs: seq<Record>, r: Record)
    requires InSequence(rs + [r])
    ensures r.ordinal < U64 && (rs != [] ==> AfterOrdinal(rs) == r.ordinal > 0)
  {
    var all := rs + [r];
    assert all[|rs|].ordinal == all[0].ordinal + |rs| < U64;
    if rs != [] {
      assert all[|rs| - 1].ordinal == all[0].ordinal + (|rs| - 1) && all[|rs| - 1] == rs[|rs| - 1];
    }
  }

  lemma TailIs(file: bytes, front: bytes, last: bytes, at: nat, end: nat)
    requires FILE_HEADER <= at <= end <= |file| && at == FILE_HEADER + |front| && end == at + |last|
    requires file[FILE_HEADER..end] == front + last
    ensures file[at..end] == last
  {
    assert file[at..end] == file[FILE_HEADER..end][|front|..];
  }

  lemma VerifiedFront(cfg: Config, file: bytes, rs: seq<Record>, k: nat)
    requires Verified(cfg, file, rs) && k <= |rs|
    ensures Verified(cfg, file, rs[..k])
  {
    assert rs == rs[..k] + rs[k..];
    EncodeAllConcat(cfg, rs[..k], rs[k..]);
    assert file[FILE_HEADER..EndOf(cfg, rs[..k])] == file[FILE_HEADER..EndOf(cfg, rs)][..|EncodeAll(cfg, rs[..k])|];
    forall i | 0 <= i < k
      ensures !Full(cfg, rs[..k][..i])
    {
      assert rs[..k][..i] == rs[..i];
    }
  }

  ghost function CursorsOf(cfg: Config, rs: seq<Record>): (cs: seq<Cursor>)
    ensures |cs| == |rs| + 1 && forall k :: 0 <= k <= |rs| ==> cs[k] == CursorOf(cfg, rs[..k])
  {
    seq(|rs| + 1, k requires 0 <= k <= |rs| => CursorOf(cfg, rs[..k]))
  }

  lemma CursorLeads(cfg: Config, file: bytes, rs: seq<Record>, k: nat)
    requires ValidConfig(cfg) && Verified(cfg, file, rs) && k < |rs|
    ensures ValidCursor(file, CursorOf(cfg, rs[..k]))
    ensures Advance(cfg, file, CursorOf(cfg, rs[..k])) == (CursorOf(cfg, rs[..k + 1]), Some(rs[k]))
  {
    VerifiedFront(cfg, file, rs, k);
    VerifiedFront(cfg, file, rs, k + 1);
    assert rs[..k + 1] == rs[..k] + [rs[k]];
    FoundAgain(cfg, file, rs[..k], rs[k]);
    AdvanceGoesOn(cfg, file, rs[..k], rs[k]);
  }

  lemma AllLead(cfg: Config, file: bytes, rs: seq<Record>)
    requires ValidConfig(cfg) && Verified(cfg, file, rs)
    ensures Leads(cfg, file, CursorsOf(cfg, rs), rs)
  {
    var cs := CursorsOf(cfg, rs);
    assert rs[..|rs|] == rs;
    forall k | 0 <= k < |cs|
      ensures ValidCursor(file, cs[k])
    {
      if k < |rs| {
        CursorLeads(cfg, file, rs, k);
      }
    }
    forall k, n | 0 <= k && n == k + 1 && n < |cs|
      ensures Advance(cfg, file, cs[k]) == (cs[n], Some(rs[k]))
    {
      CursorLeads(cfg, file, rs, k);
    }
  }

  lemma CursorEnds(cfg: Config, rs: seq<Record>)
    ensures CursorsOf(cfg, rs)[0] == StartCursor && CursorsOf(cfg, rs)[|rs|] == CursorOf(cfg, rs)
  {
    assert rs[..|rs|] == rs && rs[..0] == [];
  }

  lemma ReadFromStart(cfg: Config, file: bytes, cs: seq<Cursor>, rs: seq<Record>, last: Cursor)
    requires Leads(cfg, file, cs, rs) && cs[0] == StartCursor && Advance(cfg, file, cs[|rs|]) == (last, None)
    ensures ValidCursor(file, StartCursor) && ReadAll(cfg, file, StartCursor) == (rs, last)
  {
    ReadAlong(cfg, file, cs, rs, 0, last);
    assert rs[0..] == rs;
  }

  lemma ReadExactly(cfg: Config, file: bytes, rs: seq<Record>)
    requires ValidConfig(cfg) && StopsAfter(cfg, file, rs)
    ensures ValidCursor(file, StartCursor)
    ensures ReadAll(cfg, file, StartCursor) == (rs, Stopped(CursorOf(cfg, rs), EndingOf(cfg, file, rs)))
  {
    AdvanceStops(cfg, file, rs, EndingOf(cfg, file, rs));
    CursorEnds(cfg, rs);
    AllLead(cfg, file, rs);
    ReadFromStart(cfg, file, CursorsOf(cfg, rs), rs, Stopped(CursorOf(cfg, rs), EndingOf(cfg, file, rs)));
  }

  /** Recovery of any file with a valid header is what its bytes call for. */
  lemma RecoverExactly(cfg: Config, file: bytes, rs: seq<Record>)
    requires ValidConfig(cfg) && HeaderFits(cfg, file) && StopsAfter(cfg, file, rs)
    ensures Recover(cfg, file) == Outcome(cfg, file, rs)
  {
    HeaderExactly(cfg, file);
    ReadExactly(cfg, file, rs);
  }

  /** Whatever the file, the records recovered have consecutive ordinals and are spelled at its start. */
  lemma RecoveredInSequence(cfg: Config, file: bytes)
    requires ValidConfig(cfg) && Recover(cfg, file).Recovered?
    ensures
      var rs := Recover(cfg, file).records;
      && (forall i :: 0 <= i < |rs| ==> rs[i].ordinal == rs[0].ordinal + i)
      && (file != [] ==> EndOf(cfg, rs) <= |file| && file[FILE_HEADER..EndOf(cfg, rs)] == EncodeAll(cfg, rs))
  {
    if file != [] {
      HeaderExactly(cfg, file);
      var rs := StopsSomewhere(cfg, file);
      RecoverExactly(cfg, file, rs);
    }
  }

  /** The file is refused for what follows the records read. */
  ghost predicate UnverifiableAfter(cfg: Config, file: bytes, rs: seq<Record>) {
    Verified(cfg, file, rs) && EndingOf(cfg, file, rs) == Unverifiable
  }

  /** A file with a bad header is refused, and no other but one with unverifiable data. */
  lemma RefusedExactly(cfg: Config, file: bytes)
    requires ValidConfig(cfg) && file != []
    ensures Recover(cfg, file) == Refused
       <==> !HeaderFits(cfg, file) || exists rs :: UnverifiableAfter(cfg, file, rs)
  {
    HeaderExactly(cfg, file);
    if HeaderFits(cfg, file) {
      var rs := StopsSomewhere(cfg, file);
      RecoverExactly(cfg, file, rs);
      assert Recover(cfg, file) == Refused ==> UnverifiableAfter(cfg, file, rs);
      if exists all :: UnverifiableAfter(cfg, file, all) {
        var all :| UnverifiableAfter(cfg, file, all);
        RecoverExactly(cfg, file, all);
      }
    }
  }

  /** An intact record that does not go on with the one before it, in kind or in ordinal. */
  lemma BrokenSequenceRefused(cfg: Config, file: bytes, rs: seq<Record>)
    requires ValidConfig(cfg) && HeaderFits(cfg, file) && Verified(cfg, file, rs) && !Full(cfg, rs)
    requires WholeAt(cfg, file, EndOf(cfg, rs)) && ChecksumFits(cfg, file, EndOf(cfg, rs))
    requires !GoesOn(rs, PayloadAt(cfg, file, EndOf(cfg, rs)))
    ensures Recover(cfg, file) == Refused
  {
    RecoverExactly(cfg, file, rs);
  }
}
