/**
 The recovering journal reader: what it concludes from the bytes of a file, the
 repair of a torn tail, and the object that reads step by step.

 Main results: `RecoverExact` (an undamaged prefix of a journal is read back
 exactly, whatever the cut), `ReadBackExactly` (a record written by the journal is
 read back if and only if it fits the reader's bound) and `BurstRecovery`.
 */
module JournalReading {
  import opened Bytes
  import opened Optional
  import opened JournalFormat
  import Crc32c

  // ------------------------------------------------------ one look at the file

  datatype Finding = Found(record: Record, size: nat) | AtEnd | Torn | Corrupt

  function PrevOrdinal(expected: nat): nat { (expected + U64 - 1) % U64 }

  const CHUNK := 0x1_0000

  /** What the forward scan loads: whole chunks until the recovery bound is passed. */
  function ScanBuffer(cfg: Config, file: bytes, from: nat): bytes {
    if from > |file| then []
    else
      var rest := file[from..];
      var bound := (cfg.maxRecoveryBytes + CHUNK - 1) / CHUNK * CHUNK;
      if bound < |rest| then rest[..bound] else rest
  }

  predicate IntactAt(cfg: Config, buffer: bytes, offset: nat) {
    offset + RECORD_HEADER <= |buffer| &&
    var length := FromLittleEndian(buffer[offset..offset + 4]);
    RECORD_PREFIX <= length <= cfg.maxRecordBytes &&
    offset + RECORD_HEADER + length <= |buffer| &&
    cfg.checksum(buffer[offset + RECORD_HEADER..offset + RECORD_HEADER + length])
      == FromLittleEndian(buffer[offset + 4..offset + 8])
  }

  ghost predicate IntactFollows(cfg: Config, file: bytes, from: nat) {
    exists offset: nat :: IntactAt(cfg, ScanBuffer(cfg, file, from), offset)
  }

  /** A payload whose checksum already matched. */
  function InspectPayload(payload: bytes, have: bool, expected: nat): Finding
    requires |payload| >= RECORD_PREFIX
  {
    var ordinal := FromLittleEndian(payload[..8]);
    match ParseKind(payload[8])
    case None => Corrupt
    case Some(kind) =>
      if have && ordinal <= PrevOrdinal(expected) then Corrupt
      else if have && ordinal != expected then Corrupt
      else Found(Record(kind, ordinal, payload[RECORD_PREFIX..]), RECORD_HEADER + |payload|)
  }

  /** What the reader concludes at an offset, given the ordinal it expects. */
  ghost function Inspect(cfg: Config, file: bytes, at: nat, have: bool, expected: nat): Finding
    requires at <= |file|
  {
    var rest := file[at..];
    if |rest| == 0 then AtEnd
    else if |rest| < RECORD_HEADER then Torn
    else
      var length := FromLittleEndian(rest[..4]);
      if length < RECORD_PREFIX || length > cfg.maxRecordBytes then Torn
      else if |rest| - RECORD_HEADER < length then Torn
      else
        var payload := rest[RECORD_HEADER..RECORD_HEADER + length];
        if cfg.checksum(payload) != FromLittleEndian(rest[4..8]) then
          if IntactFollows(cfg, file, at + RECORD_HEADER) then Corrupt else Torn
        else InspectPayload(payload, have, expected)
  }

  // --------------------------------------------------------------- the cursor

  datatype Cursor = Cursor(
    offset: nat,          // end of the last verified record
    have: bool,
    expected: nat,        // ordinal of the next record, once one was read
    recordsRead: nat,
    bytesRead: nat,
    ended: bool,
    tornTail: bool,
    degraded: bool,
    limitReached: bool)

  const StartCursor := Cursor(FILE_HEADER, false, 0, 0, 0, false, false, false, false)

  ghost predicate ValidCursor(file: bytes, c: Cursor) {
    c.offset <= |file|
  }

  predicate AtLimit(cfg: Config, c: Cursor) {
    c.recordsRead >= cfg.maxRecoveryRecords || c.bytesRead >= cfg.maxRecoveryBytes
  }

  /** One call of the reader: the record it returns, if any, and its new state. */
  ghost function Advance(cfg: Config, file: bytes, c: Cursor): (Cursor, Option<Record>)
    requires ValidCursor(file, c)
  {
    if c.ended then (c, None)
    else if AtLimit(cfg, c) then (c.(ended := true, limitReached := true), None)
    else
      match Inspect(cfg, file, c.offset, c.have, c.expected)
      case AtEnd => (c.(ended := true), None)
      case Torn => (c.(ended := true, tornTail := true), None)
      case Corrupt => (c.(ended := true, degraded := true), None)
      case Found(r, size) =>
        (c.(offset := c.offset + size, have := true, expected := (r.ordinal + 1) % U64,
            recordsRead := c.recordsRead + 1, bytesRead := c.bytesRead + size), Some(r))
  }

  lemma AdvanceProgress(cfg: Config, file: bytes, c: Cursor)
    requires ValidCursor(file, c)
    ensures ValidCursor(file, Advance(cfg, file, c).0)
    ensures Advance(cfg, file, c).1.Some? ==> Advance(cfg, file, c).0.offset > c.offset
  {
  }

  /** The records returned until the reader stops, and its final state. */
  ghost function ReadAll(cfg: Config, file: bytes, c: Cursor): (seq<Record>, Cursor)
    requires ValidCursor(file, c)
    decreases |file| - c.offset
  {
    AdvanceProgress(cfg, file, c);
    var (next, record) := Advance(cfg, file, c);
    match record
    case None => ([], next)
    case Some(r) =>
      var (rest, last) := ReadAll(cfg, file, next);
      ([r] + rest, last)
  }

  // -------------------------------------------------------- whole recoveries

  datatype Recovery =
    | Refused
    | Recovered(records: seq<Record>, file: bytes, tornTail: bool, limitReached: bool, nextOrdinal: nat)

  /**
   Opening, replaying and repairing a journal file. An empty file is initialised,
   a bad header or unverifiable data is refused, and only a torn tail is cut off.
   */
  ghost function Recover(cfg: Config, file: bytes): Recovery {
    if file == [] then Recovered([], BuildHeader(cfg, 0, 0), false, false, 0)
    else if |file| < FILE_HEADER || !ValidateHeader(cfg, file[..FILE_HEADER]).HeaderOk? then Refused
    else
      var (records, last) := ReadAll(cfg, file, StartCursor);
      if last.degraded then Refused
      else Recovered(records, if last.tornTail && last.offset <= |file| then file[..last.offset] else file,
                     last.tornTail, last.limitReached, last.expected)
  }

  // ------------------------------------------------------------ reading back

  lemma RecordLayout(cfg: Config, r: Record)
    ensures
      var s, p := EncodeRecord(cfg, r), Payload(r);
      && s[..4] == LittleEndian(|p|, 4)
      && s[4..8] == LittleEndian(cfg.checksum(p), 4)
      && s[8..] == p
      && p[..8] == LittleEndian(r.ordinal, 8)
      && p[8] == KindByte(r.kind)
      && p[9..] == r.body
      && |p| == RECORD_PREFIX + |r.body|
  {
    var s, p := EncodeRecord(cfg, r), Payload(r);
    assert s[..4] == LittleEndian(|p|, 4);
    assert s[4..8] == LittleEndian(cfg.checksum(p), 4);
    assert s[8..] == p;
    assert p[..8] == LittleEndian(r.ordinal, 8);
    assert p[9..] == r.body;
  }

  lemma PayloadReadBack(r: Record, have: bool, expected: nat)
    requires r.ordinal < U64 && (have ==> expected == r.ordinal && expected > 0)
    ensures InspectPayload(Payload(r), have, expected) == Found(r, RECORD_HEADER + |Payload(r)|)
  {
    var p := Payload(r);
    assert p[..8] == LittleEndian(r.ordinal, 8) && p[9..] == r.body;
    Pow256Values();
    LittleEndianRoundTrip(r.ordinal, 8);
    assert ParseKind(p[8]) == Some(r.kind);
  }

  /** A whole record in the file is found, with anything behind it. */
  lemma InspectWhole(cfg: Config, file: bytes, at: nat, r: Record, behind: bytes, have: bool, expected: nat)
    requires ValidConfig(cfg) && |r.body| + RECORD_PREFIX <= cfg.maxRecordBytes && r.ordinal < U64 && at <= |file|
    requires file[at..] == EncodeRecord(cfg, r) + behind
    requires have ==> expected == r.ordinal && expected > 0
    ensures Inspect(cfg, file, at, have, expected) == Found(r, |EncodeRecord(cfg, r)|)
  {
    var rest, s, p := file[at..], EncodeRecord(cfg, r), Payload(r);
    RecordLayout(cfg, r);
    assert rest[..4] == s[..4] && rest[4..8] == s[4..8];
    assert rest[8..8 + |p|] == s[8..];
    Pow256Values();
    LittleEndianRoundTrip(|p|, 4);
    LittleEndianRoundTrip(cfg.checksum(p), 4);
    PayloadReadBack(r, have, expected);
  }

  /** A piece of a record at the end of the file is a torn tail. */
  lemma InspectPiece(cfg: Config, file: bytes, at: nat, r: Record, piece: nat, have: bool, expected: nat)
    requires ValidConfig(cfg) && Readable(cfg, r) && at <= |file|
    requires 0 < piece < |EncodeRecord(cfg, r)| && file[at..] == EncodeRecord(cfg, r)[..piece]
    ensures Inspect(cfg, file, at, have, expected) == Torn
  {
    var rest, s, p := file[at..], EncodeRecord(cfg, r), Payload(r);
    if piece >= RECORD_HEADER {
      RecordLayout(cfg, r);
      assert rest[..4] == s[..4];
      Pow256Values();
      LittleEndianRoundTrip(|p|, 4);
    }
  }

  /** What precedes the records in a journal file: a header the reader accepts. */
  ghost predicate ValidHeader(cfg: Config, header: bytes) {
    |header| == FILE_HEADER && ValidateHeader(cfg, header).HeaderOk?
  }

  /** Header, whole records, and a piece of one more record. */
  function JournalBytes(cfg: Config, header: bytes, rs: seq<Record>, tail: bytes): bytes {
    header + EncodeAll(cfg, rs) + tail
  }

  ghost predicate IsPiece(cfg: Config, tail: bytes) {
    tail == [] || exists r, n :: Readable(cfg, r) && 0 < n < |EncodeRecord(cfg, r)| && tail == EncodeRecord(cfg, r)[..n]
  }

  ghost predicate WithinLimits(cfg: Config, rs: seq<Record>) {
    |rs| < cfg.maxRecoveryRecords && |EncodeAll(cfg, rs)| < cfg.maxRecoveryBytes
  }

  function CursorAfter(cfg: Config, rs: seq<Record>): Cursor {
    var size := |EncodeAll(cfg, rs)|;
    Cursor(FILE_HEADER + size, rs != [], NextOrdinal(rs), |rs|, size, false, false, false, false)
  }

  lemma Glue(header: bytes, done: bytes, one: bytes, later: bytes, tail: bytes)
    ensures
      var file := header + (done + (one + later)) + tail;
      file[|header| + |done|..] == one + (later + tail)
  {
    var front := header + done;
    var rest := one + (later + tail);
    assert header + (done + (one + later)) + tail == front + rest;
    Halves(front, rest);
  }

  lemma JournalFrom(cfg: Config, header: bytes, rs: seq<Record>, tail: bytes, k: nat) returns (behind: bytes)
    requires |header| == FILE_HEADER && k < |rs|
    ensures
      var file, at := JournalBytes(cfg, header, rs, tail), FILE_HEADER + |EncodeAll(cfg, rs[..k])|;
      at <= |file| && file[at..] == EncodeRecord(cfg, rs[k]) + behind
  {
    var r, later := rs[k], rs[k + 1..];
    assert rs == rs[..k] + ([r] + later);
    EncodeAllConcat(cfg, rs[..k], [r] + later);
    EncodeAllConcat(cfg, [r], later);
    EncodeOne(cfg, r);
    Glue(header, EncodeAll(cfg, rs[..k]), EncodeRecord(cfg, r), EncodeAll(cfg, later), tail);
    behind := EncodeAll(cfg, later) + tail;
  }

  lemma AdvanceFound(cfg: Config, file: bytes, c: Cursor, r: Record, size: nat)
    requires ValidCursor(file, c) && !c.ended && !AtLimit(cfg, c)
    requires Inspect(cfg, file, c.offset, c.have, c.expected) == Found(r, size)
    ensures Advance(cfg, file, c) ==
      (c.(offset := c.offset + size, have := true, expected := (r.ordinal + 1) % U64,
          recordsRead := c.recordsRead + 1, bytesRead := c.bytesRead + size), Some(r))
  {
  }

  lemma CursorStep(cfg: Config, rs: seq<Record>, k: nat)
    requires k < |rs| && Readable(cfg, rs[k])
    ensures
      var c, r, size := CursorAfter(cfg, rs[..k]), rs[k], |EncodeRecord(cfg, rs[k])|;
      CursorAfter(cfg, rs[..k + 1])
        == c.(offset := c.offset + size, have := true, expected := (r.ordinal + 1) % U64,
              recordsRead := c.recordsRead + 1, bytesRead := c.bytesRead + size)
  {
    assert rs[..k + 1][..k] == rs[..k];
  }

  lemma InspectAt(cfg: Config, header: bytes, rs: seq<Record>, tail: bytes, k: nat)
    requires ValidConfig(cfg) && |header| == FILE_HEADER && Chained(cfg, rs) && k < |rs|
    ensures
      var file, c := JournalBytes(cfg, header, rs, tail), CursorAfter(cfg, rs[..k]);
      c.offset <= |file| && Inspect(cfg, file, c.offset, c.have, c.expected) == Found(rs[k], |EncodeRecord(cfg, rs[k])|)
  {
    var file, c := JournalBytes(cfg, header, rs, tail), CursorAfter(cfg, rs[..k]);
    var behind := JournalFrom(cfg, header, rs, tail, k);
    assert k > 0 ==> rs[..k][k - 1] == rs[k - 1];
    InspectWhole(cfg, file, c.offset, rs[k], behind, c.have, c.expected);
  }

  lemma NotAtLimit(cfg: Config, rs: seq<Record>, k: nat)
    requires WithinLimits(cfg, rs) && k < |rs|
    ensures !AtLimit(cfg, CursorAfter(cfg, rs[..k]))
  {
    EncodeAllGrows(cfg, rs, k, |rs|);
    assert rs[..|rs|] == rs;
  }

  lemma ReadStep(cfg: Config, header: bytes, rs: seq<Record>, tail: bytes, k: nat)
    requires ValidConfig(cfg) && |header| == FILE_HEADER && Chained(cfg, rs) && WithinLimits(cfg, rs) && k < |rs|
    ensures CursorAfter(cfg, rs[..k]).offset <= |JournalBytes(cfg, header, rs, tail)|
    ensures Advance(cfg, JournalBytes(cfg, header, rs, tail), CursorAfter(cfg, rs[..k]))
         == (CursorAfter(cfg, rs[..k + 1]), Some(rs[k]))
  {
    InspectAt(cfg, header, rs, tail, k);
    NotAtLimit(cfg, rs, k);
    AdvanceFound(cfg, JournalBytes(cfg, header, rs, tail), CursorAfter(cfg, rs[..k]), rs[k],
        |EncodeRecord(cfg, rs[k])|);
    CursorStep(cfg, rs, k);
  }

  lemma ReadEnd(cfg: Config, header: bytes, rs: seq<Record>, tail: bytes)
    requires ValidConfig(cfg) && |header| == FILE_HEADER && WithinLimits(cfg, rs) && IsPiece(cfg, tail)
    ensures CursorAfter(cfg, rs).offset <= |JournalBytes(cfg, header, rs, tail)|
    ensures Advance(cfg, JournalBytes(cfg, header, rs, tail), CursorAfter(cfg, rs))
         == (CursorAfter(cfg, rs).(ended := true, tornTail := tail != []), None)
  {
    var file, c := JournalBytes(cfg, header, rs, tail), CursorAfter(cfg, rs);
    assert file[c.offset..] == tail;
    if tail != [] {
      var r, n :| Readable(cfg, r) && 0 < n < |EncodeRecord(cfg, r)| && tail == EncodeRecord(cfg, r)[..n];
      InspectPiece(cfg, file, c.offset, r, n, c.have, c.expected);
    }
  }

  lemma ReadAllNext(cfg: Config, file: bytes, c: Cursor)
    requires ValidCursor(file, c)
    ensures
      var (next, record) := Advance(cfg, file, c);
      && ValidCursor(file, next) && (record.Some? ==> next.offset > c.offset)
      && ReadAll(cfg, file, c)
           == if record.None? then ([], next)
              else ([record.value] + ReadAll(cfg, file, next).0, ReadAll(cfg, file, next).1)
  {
    AdvanceProgress(cfg, file, c);
  }

  lemma ReadStops(cfg: Config, file: bytes, c: Cursor, last: Cursor)
    requires ValidCursor(file, c) && Advance(cfg, file, c) == (last, None)
    ensures ReadAll(cfg, file, c) == ([], last)
  {
  }

  /** Each cursor advances to the next one and returns one record. */
  ghost predicate Leads(cfg: Config, file: bytes, cursors: seq<Cursor>, rs: seq<Record>) {
    && |cursors| == |rs| + 1 && (forall k :: 0 <= k < |cursors| ==> ValidCursor(file, cursors[k]))
    && forall k, n :: 0 <= k && n == k + 1 && n < |cursors| ==>
         Advance(cfg, file, cursors[k]) == (cursors[n], Some(rs[k]))
  }

  lemma {:induction false} ReadAlong(cfg: Config, file: bytes, cursors: seq<Cursor>, rs: seq<Record>, k: nat,
                                     last: Cursor)
    requires Leads(cfg, file, cursors, rs) && k <= |rs| && Advance(cfg, file, cursors[|rs|]) == (last, None)
    ensures ReadAll(cfg, file, cursors[k]) == (rs[k..], last)
    decreases |rs| - k
  {
    if k == |rs| {
      ReadStops(cfg, file, cursors[k], last);
    } else {
      var n := k + 1;
      assert Advance(cfg, file, cursors[k]) == (cursors[n], Some(rs[k]));
      ReadAlong(cfg, file, cursors, rs, n, last);
      ReadAllNext(cfg, file, cursors[k]);
      assert rs[k..] == [rs[k]] + rs[k + 1..];
    }
  }

  ghost function Cursors(cfg: Config, rs: seq<Record>): (cs: seq<Cursor>)
    ensures |cs| == |rs| + 1 && forall k :: 0 <= k <= |rs| ==> cs[k] == CursorAfter(cfg, rs[..k])
  {
    seq(|rs| + 1, k requires 0 <= k <= |rs| => CursorAfter(cfg, rs[..k]))
  }

  lemma CursorsLead(cfg: Config, header: bytes, rs: seq<Record>, tail: bytes)
    requires ValidConfig(cfg) && |header| == FILE_HEADER && Chained(cfg, rs) && WithinLimits(cfg, rs)
    requires CursorAfter(cfg, rs).offset <= |JournalBytes(cfg, header, rs, tail)|
    ensures Leads(cfg, JournalBytes(cfg, header, rs, tail), Cursors(cfg, rs), rs)
  {
    var file, cs := JournalBytes(cfg, header, rs, tail), Cursors(cfg, rs);
    assert rs[..|rs|] == rs;
    forall k | 0 <= k < |cs|
      ensures ValidCursor(file, cs[k])
    {
      if k < |rs| {
        ReadStep(cfg, header, rs, tail, k);
      }
    }
    forall k, n | 0 <= k && n == k + 1 && n < |cs|
      ensures Advance(cfg, file, cs[k]) == (cs[n], Some(rs[k]))
    {
      ReadStep(cfg, header, rs, tail, k);
    }
  }

  /** The records are read one by one, up to whatever stops the reader behind them. */
  lemma ReadUntil(cfg: Config, header: bytes, rs: seq<Record>, tail: bytes, k: nat, last: Cursor)
    requires ValidConfig(cfg) && |header| == FILE_HEADER && Chained(cfg, rs) && WithinLimits(cfg, rs) && k <= |rs|
    requires CursorAfter(cfg, rs).offset <= |JournalBytes(cfg, header, rs, tail)|
    requires Advance(cfg, JournalBytes(cfg, header, rs, tail), CursorAfter(cfg, rs)) == (last, None)
    requires CursorAfter(cfg, rs[..k]).offset <= |JournalBytes(cfg, header, rs, tail)|
    ensures ReadAll(cfg, JournalBytes(cfg, header, rs, tail), CursorAfter(cfg, rs[..k])) == (rs[k..], last)
  {
    CursorsLead(cfg, header, rs, tail);
    assert rs[..|rs|] == rs;
    ReadAlong(cfg, JournalBytes(cfg, header, rs, tail), Cursors(cfg, rs), rs, k, last);
  }

  /** The same from the start of the file. */
  lemma ReadWhole(cfg: Config, header: bytes, rs: seq<Record>, tail: bytes, last: Cursor)
    requires ValidConfig(cfg) && |header| == FILE_HEADER && Chained(cfg, rs) && WithinLimits(cfg, rs)
    requires CursorAfter(cfg, rs).offset <= |JournalBytes(cfg, header, rs, tail)|
    requires Advance(cfg, JournalBytes(cfg, header, rs, tail), CursorAfter(cfg, rs)) == (last, None)
    ensures ValidCursor(JournalBytes(cfg, header, rs, tail), StartCursor)
    ensures ReadAll(cfg, JournalBytes(cfg, header, rs, tail), StartCursor) == (rs, last)
  {
    assert rs[..0] == [] && rs[0..] == rs;
    assert CursorAfter(cfg, []) == StartCursor;
    ReadUntil(cfg, header, rs, tail, 0, last);
  }

  /**
   Recovery of a journal that was cut anywhere behind its header returns exactly
   the whole records, reports a torn tail exactly when the cut is off a record
   boundary, never calls it corrupt, and leaves a file without the damaged tail.
   */
  lemma RecoverExact(cfg: Config, header: bytes, rs: seq<Record>, tail: bytes)
    requires ValidConfig(cfg) && ValidHeader(cfg, header) && Chained(cfg, rs) && WithinLimits(cfg, rs)
    requires IsPiece(cfg, tail)
    ensures Recover(cfg, JournalBytes(cfg, header, rs, tail))
         == Recovered(rs, JournalBytes(cfg, header, rs, []), tail != [], false, NextOrdinal(rs))
  {
    var file := JournalBytes(cfg, header, rs, tail);
    assert file[..FILE_HEADER] == header;
    ReadEnd(cfg, header, rs, tail);
    ReadWhole(cfg, header, rs, tail, CursorAfter(cfg, rs).(ended := true, tornTail := tail != []));
    assert JournalBytes(cfg, header, rs, []) == header + EncodeAll(cfg, rs);
    assert file[..FILE_HEADER + |EncodeAll(cfg, rs)|] == header + EncodeAll(cfg, rs);
    assert tail == [] ==> file == JournalBytes(cfg, header, rs, []);
  }

  /** Recovering a second time finds nothing left to repair. */
  lemma SecondRecoveryClean(cfg: Config, header: bytes, rs: seq<Record>, tail: bytes)
    requires ValidConfig(cfg) && ValidHeader(cfg, header) && Chained(cfg, rs) && WithinLimits(cfg, rs)
    requires IsPiece(cfg, tail)
    ensures
      var first := Recover(cfg, JournalBytes(cfg, header, rs, tail));
      first.Recovered? && Recover(cfg, first.file) == first.(tornTail := false)
  {
    RecoverExact(cfg, header, rs, tail);
    RecoverExact(cfg, header, rs, []);
  }

  // -------------------------------------------------- the record size mismatch

  /**
   The journal accepts bodies up to the record limit, the reader bounds body and
   prefix together. A record alone in a journal comes back if and only if the sum
   fits; otherwise it is called torn and the repair throws it away.
   */
  lemma ReadBackExactly(cfg: Config, header: bytes, r: Record)
    requires ValidConfig(cfg) && ValidHeader(cfg, header) && WithinLimits(cfg, [r])
    requires r.ordinal + 1 < U64 && |r.body| <= cfg.maxRecordBytes
    ensures
      var recovery := Recover(cfg, JournalBytes(cfg, header, [r], []));
      && (recovery.Recovered? && recovery.records == [r] <==> |r.body| + RECORD_PREFIX <= cfg.maxRecordBytes)
      && (|r.body| + RECORD_PREFIX > cfg.maxRecordBytes ==> recovery == Recovered([], header, true, false, 0))
  {
    if |r.body| + RECORD_PREFIX <= cfg.maxRecordBytes {
      RecoverExact(cfg, header, [r], []);
    } else {
      TooLongDiscarded(cfg, header, r);
    }
  }

  lemma TooLongInspected(cfg: Config, header: bytes, r: Record)
    requires ValidConfig(cfg) && |header| == FILE_HEADER
    requires |r.body| <= cfg.maxRecordBytes < |r.body| + RECORD_PREFIX
    ensures Inspect(cfg, JournalBytes(cfg, header, [r], []), FILE_HEADER, false, 0) == Torn
  {
    EncodeOne(cfg, r);
    assert JournalBytes(cfg, header, [r], [])[FILE_HEADER..] == EncodeRecord(cfg, r);
    LengthField(cfg, r);
  }

  lemma LengthField(cfg: Config, r: Record)
    requires |Payload(r)| < U32
    ensures var s := EncodeRecord(cfg, r); |s| >= RECORD_HEADER && FromLittleEndian(s[..4]) == |Payload(r)|
  {
    RecordLayout(cfg, r);
    Pow256Values();
    LittleEndianRoundTrip(|Payload(r)|, 4);
  }

  lemma TooLongDiscarded(cfg: Config, header: bytes, r: Record)
    requires ValidConfig(cfg) && ValidHeader(cfg, header) && WithinLimits(cfg, [r])
    requires |r.body| <= cfg.maxRecordBytes < |r.body| + RECORD_PREFIX
    ensures Recover(cfg, JournalBytes(cfg, header, [r], [])) == Recovered([], header, true, false, 0)
  {
    var file, last := JournalBytes(cfg, header, [r], []), StartCursor.(ended := true, tornTail := true);
    TooLongInspected(cfg, header, r);
    assert file[..FILE_HEADER] == header;
    assert Advance(cfg, file, StartCursor) == (last, None);
    ReadStops(cfg, file, StartCursor, last);
  }

  // --------------------------------------------------------- a damaged payload

  /** The checksum is the remainder of division by p; CRC-32C is the case p == Crc32c.Polynomial(). */
  ghost predicate UsesPolynomial(cfg: Config, p: Crc32c.word) {
    forall data :: cfg.checksum(data) == Crc32c.Checksum(p, data)
  }

  /** The checksum of the journal is CRC-32C. */
  ghost predicate UsesCrc(cfg: Config) { UsesPolynomial(cfg, Crc32c.Polynomial()) }

  lemma BurstChanges(cfg: Config, p: Crc32c.word, before: bytes, x: bytes, y: bytes, after: bytes)
    requires UsesPolynomial(cfg, p) && p[31] && |x| == |y| <= 4 && x != y
    ensures cfg.checksum(before + x + after) != cfg.checksum(before + y + after)
  {
    var a, b := before + x + after, before + y + after;
    assert cfg.checksum(a) == Crc32c.Checksum(p, a) && cfg.checksum(b) == Crc32c.Checksum(p, b);
    Crc32c.BurstDetected(p, before, x, y, after);
  }

  // ------------------------------------------------- recovery of a damaged journal

  /** A record whose payload was altered. */
  function Altered(cfg: Config, r: Record, damaged: bytes): bytes {
    EncodeRecord(cfg, r)[..RECORD_HEADER] + damaged
  }

  /** At an altered record the reader stops, and says why. */
  lemma DamageInspected(cfg: Config, file: bytes, at: nat, r: Record, damaged: bytes, behind: bytes,
                        have: bool, expected: nat)
    requires ValidConfig(cfg) && Readable(cfg, r)
    requires |damaged| == |Payload(r)| && cfg.checksum(damaged) != cfg.checksum(Payload(r))
    requires at <= |file| && file[at..] == Altered(cfg, r, damaged) + behind
    ensures Inspect(cfg, file, at, have, expected)
         == if IntactFollows(cfg, file, at + RECORD_HEADER) then Corrupt else Torn
  {
    var rest, s, p := file[at..], EncodeRecord(cfg, r), Payload(r);
    RecordLayout(cfg, r);
    assert rest[..4] == s[..4] && rest[4..8] == s[4..8];
    assert rest[8..8 + |p|] == damaged;
    Pow256Values();
    LittleEndianRoundTrip(|p|, 4);
    LittleEndianRoundTrip(cfg.checksum(p), 4);
  }

  /** What recovery makes of records followed by something that is called damaged. */
  lemma RecoverStopped(cfg: Config, header: bytes, rs: seq<Record>, tail: bytes, corrupt: bool)
    requires ValidConfig(cfg) && ValidHeader(cfg, header) && Chained(cfg, rs) && WithinLimits(cfg, rs)
    requires
      var file, c := JournalBytes(cfg, header, rs, tail), CursorAfter(cfg, rs);
      c.offset <= |file| && Inspect(cfg, file, c.offset, c.have, c.expected) == if corrupt then Corrupt else Torn
    ensures Recover(cfg, JournalBytes(cfg, header, rs, tail))
         == if corrupt then Refused else Recovered(rs, header + EncodeAll(cfg, rs), true, false, NextOrdinal(rs))
  {
    var file, c := JournalBytes(cfg, header, rs, tail), CursorAfter(cfg, rs);
    var last := c.(ended := true, tornTail := !corrupt, degraded := corrupt);
    assert Advance(cfg, file, c) == (last, None);
    ReadWhole(cfg, header, rs, tail, last);
    assert file[..FILE_HEADER] == header;
    assert file[..c.offset] == header + EncodeAll(cfg, rs);
  }

  /**
   A journal whose record k was altered within four adjacent payload bytes: recovery
   returns exactly the records before it, or refuses the journal if an intact record
   follows in the bytes it scans. It never returns the altered record or one behind it.
   */
  lemma BurstRecovery(cfg: Config, header: bytes, rs: seq<Record>, r: Record, behind: bytes,
                      before: bytes, x: bytes, y: bytes, after: bytes)
    requires ValidConfig(cfg) && UsesCrc(cfg) && ValidHeader(cfg, header)
    requires Chained(cfg, rs) && WithinLimits(cfg, rs) && Readable(cfg, r)
    requires Payload(r) == before + x + after && |x| == |y| <= 4 && x != y
    ensures
      var file := JournalBytes(cfg, header, rs, Altered(cfg, r, before + y + after) + behind);
      var at := FILE_HEADER + |EncodeAll(cfg, rs)|;
      Recover(cfg, file)
        == if IntactFollows(cfg, file, at + RECORD_HEADER) then Refused
           else Recovered(rs, header + EncodeAll(cfg, rs), true, false, NextOrdinal(rs))
  {
    BurstChanges(cfg, Crc32c.Polynomial(), before, x, y, after);
    DamageRecovery(cfg, header, rs, r, before + y + after, behind);
  }

  lemma TailAt(header: bytes, body: bytes, tail: bytes)
    ensures (header + body + tail)[|header| + |body|..] == tail
  {
  }

  /** The same for any damage the checksum notices. */
  lemma DamageRecovery(cfg: Config, header: bytes, rs: seq<Record>, r: Record, damaged: bytes, behind: bytes)
    requires ValidConfig(cfg) && ValidHeader(cfg, header)
    requires Chained(cfg, rs) && WithinLimits(cfg, rs) && Readable(cfg, r)
    requires |damaged| == |Payload(r)| && cfg.checksum(damaged) != cfg.checksum(Payload(r))
    ensures
      var file := JournalBytes(cfg, header, rs, Altered(cfg, r, damaged) + behind);
      var at := FILE_HEADER + |EncodeAll(cfg, rs)|;
      Recover(cfg, file)
        == if IntactFollows(cfg, file, at + RECORD_HEADER) then Refused
           else Recovered(rs, header + EncodeAll(cfg, rs), true, false, NextOrdinal(rs))
  {
    var tail := Altered(cfg, r, damaged) + behind;
    var at := FILE_HEADER + |EncodeAll(cfg, rs)|;
    DamageStops(cfg, header, rs, r, damaged, behind);
    RecoverStopped(cfg, header, rs, tail, IntactFollows(cfg, JournalBytes(cfg, header, rs, tail), at + RECORD_HEADER));
  }

  lemma DamageStops(cfg: Config, header: bytes, rs: seq<Record>, r: Record, damaged: bytes, behind: bytes)
    requires ValidConfig(cfg) && |header| == FILE_HEADER && Readable(cfg, r)
    requires |damaged| == |Payload(r)| && cfg.checksum(damaged) != cfg.checksum(Payload(r))
    ensures
      var file, c := JournalBytes(cfg, header, rs, Altered(cfg, r, damaged) + behind), CursorAfter(cfg, rs);
      && c.offset == FILE_HEADER + |EncodeAll(cfg, rs)| <= |file|
      && Inspect(cfg, file, c.offset, c.have, c.expected)
           == if IntactFollows(cfg, file, c.offset + RECORD_HEADER) then Corrupt else Torn
  {
    var tail := Altered(cfg, r, damaged) + behind;
    var file, c := JournalBytes(cfg, header, rs, tail), CursorAfter(cfg, rs);
    TailAt(header, EncodeAll(cfg, rs), tail);
    DamageInspected(cfg, file, c.offset, r, damaged, behind, c.have, c.expected);
  }
}
