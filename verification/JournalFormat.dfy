/**
 The journal byte format: a 40 byte file header followed by length prefixed,
 checksummed records with consecutive ordinals.

 The checksum is a parameter of the format. Nothing here depends on what it
 computes; JournalReading.dfy instantiates it with CRC-32C.
 */
module JournalFormat {
  import opened Bytes
  import opened Optional

  type u32 = x: nat | x < U32

  const FILE_HEADER := 40
  const RECORD_HEADER := 8
  const RECORD_PREFIX := 9
  const FORMAT_VERSION := 1

  datatype Config = Config(
    checksum: bytes -> u32,
    maxRecordBytes: nat,
    maxQueueDepth: nat,
    maxRecoveryRecords: nat,
    maxRecoveryBytes: nat)

  // Limits the source accepts: see JournalConfig::validate.
  ghost predicate ValidConfig(cfg: Config) {
    64 <= cfg.maxRecordBytes <= 0x400_0000 && 1 <= cfg.maxQueueDepth && 1 <= cfg.maxRecoveryRecords
  }

  datatype Kind = Capability | Policy | LinkObserved | LinkGenerationAdvanced | Evidence | Snapshot | DedupWindow

  function KindByte(kind: Kind): byte {
    match kind
    case Capability => 1
    case Policy => 2
    case LinkObserved => 3
    case LinkGenerationAdvanced => 4
    case Evidence => 5
    case Snapshot => 6
    case DedupWindow => 7
  }

  function ParseKind(raw: byte): Option<Kind> {
    match raw
    case 1 => Some(Capability)
    case 2 => Some(Policy)
    case 3 => Some(LinkObserved)
    case 4 => Some(LinkGenerationAdvanced)
    case 5 => Some(Evidence)
    case 6 => Some(Snapshot)
    case 7 => Some(DedupWindow)
    case _ => None
  }

  datatype Record = Record(kind: Kind, ordinal: nat, body: bytes)

  // ------------------------------------------------------------ file header

  // "LQFJRNL1"
  const MAGIC: bytes := [0x4C, 0x51, 0x46, 0x4A, 0x52, 0x4E, 0x4C, 0x31]

  function HeaderFields(epoch: nat, wall: nat): (h: bytes)
    ensures |h| == 32
  {
    MAGIC + LittleEndian(FORMAT_VERSION, 4) + LittleEndian(0, 4) + LittleEndian(epoch, 8) + LittleEndian(wall, 8)
  }

  function BuildHeader(cfg: Config, epoch: nat, wall: nat): (h: bytes)
    ensures |h| == FILE_HEADER
  {
    var fields := HeaderFields(epoch, wall);
    fields + LittleEndian(cfg.checksum(fields), 4) + LittleEndian(0, 4)
  }

  datatype HeaderStatus = HeaderOk(epoch: nat) | HeaderTruncated | BadMagic | UnsupportedVersion | BadChecksum

  function ValidateHeader(cfg: Config, header: bytes): HeaderStatus {
    if |header| != FILE_HEADER then HeaderTruncated
    else if header[..8] != MAGIC then BadMagic
    else if FromLittleEndian(header[8..12]) != FORMAT_VERSION then UnsupportedVersion
    else if FromLittleEndian(header[32..36]) != cfg.checksum(header[..32]) then BadChecksum
    else HeaderOk(FromLittleEndian(header[16..24]))
  }

  lemma FieldsLayout(epoch: nat, wall: nat)
    ensures
      var h := HeaderFields(epoch, wall);
      h[..8] == MAGIC && h[8..12] == LittleEndian(FORMAT_VERSION, 4) && h[16..24] == LittleEndian(epoch, 8)
  {
  }

  lemma HeaderLayout(cfg: Config, epoch: nat, wall: nat)
    ensures
      var h, fields := BuildHeader(cfg, epoch, wall), HeaderFields(epoch, wall);
      h[..32] == fields && h[32..36] == LittleEndian(cfg.checksum(fields), 4)
  {
  }

  /** Every header the writer produces is accepted and gives its epoch back. */
  lemma HeaderRoundTrip(cfg: Config, epoch: nat, wall: nat)
    requires epoch < U64
    ensures ValidateHeader(cfg, BuildHeader(cfg, epoch, wall)) == HeaderOk(epoch)
  {
    HeaderLayout(cfg, epoch, wall);
    FieldsLayout(epoch, wall);
    var h, fields := BuildHeader(cfg, epoch, wall), HeaderFields(epoch, wall);
    assert h[..8] == fields[..8] && h[8..12] == fields[8..12] && h[16..24] == fields[16..24];
    Pow256Values();
    LittleEndianRoundTrip(FORMAT_VERSION, 4);
    LittleEndianRoundTrip(epoch, 8);
    LittleEndianRoundTrip(cfg.checksum(HeaderFields(epoch, wall)), 4);
  }

  // ----------------------------------------------------------------- records

  function Payload(r: Record): bytes {
    LittleEndian(r.ordinal, 8) + [KindByte(r.kind)] + r.body
  }

  function EncodeRecord(cfg: Config, r: Record): (s: bytes)
    ensures |s| == RECORD_HEADER + RECORD_PREFIX + |r.body|
  {
    var payload := Payload(r);
    LittleEndian(|payload|, 4) + LittleEndian(cfg.checksum(payload), 4) + payload
  }

  function EncodeAll(cfg: Config, rs: seq<Record>): bytes {
    if rs == [] then [] else EncodeAll(cfg, rs[..|rs| - 1]) + EncodeRecord(cfg, rs[|rs| - 1])
  }

  /** A record the reader accepts again: it fits the reader's length bound and its ordinal can be continued. */
  ghost predicate Readable(cfg: Config, r: Record) {
    |r.body| + RECORD_PREFIX <= cfg.maxRecordBytes && r.ordinal + 1 < U64
  }

  /** Records a journal may hold: readable ones with ordinals that increase by one. */
  ghost predicate Chained(cfg: Config, rs: seq<Record>) {
    (forall i :: 0 <= i < |rs| ==> Readable(cfg, rs[i])) &&
    forall i :: 0 <= i < |rs| ==> rs[i].ordinal == rs[0].ordinal + i
  }

  // The ordinal that continues a log.
  function NextOrdinal(rs: seq<Record>): nat {
    if rs == [] then 0 else rs[|rs| - 1].ordinal + 1
  }

  lemma {:induction false} EncodeAllConcat(cfg: Config, a: seq<Record>, b: seq<Record>)
    ensures EncodeAll(cfg, a + b) == EncodeAll(cfg, a) + EncodeAll(cfg, b)
    decreases |b|
  {
    if b == [] {
      assert a + b == a;
    } else {
      var front, last := b[..|b| - 1], b[|b| - 1];
      assert (a + b)[..|a + b| - 1] == a + front;
      EncodeAllConcat(cfg, a, front);
      var x, y, z := EncodeAll(cfg, a), EncodeAll(cfg, front), EncodeRecord(cfg, last);
      assert (x + y) + z == x + (y + z);
    }
  }

  lemma EncodeOne(cfg: Config, r: Record)
    ensures EncodeAll(cfg, [r]) == EncodeRecord(cfg, r)
  {
    assert [r][..0] == [];
  }

  lemma EncodeAllGrows(cfg: Config, rs: seq<Record>, j: nat, k: nat)
    requires j <= k <= |rs|
    ensures |EncodeAll(cfg, rs[..j])| <= |EncodeAll(cfg, rs[..k])|
  {
    assert rs[..k] == rs[..j] + rs[j..k];
    EncodeAllConcat(cfg, rs[..j], rs[j..k]);
  }

  /** Cutting a run of records anywhere leaves whole records and a piece of the next one. */
  lemma {:induction false} CutRecords(cfg: Config, rs: seq<Record>, n: nat) returns (k: nat, piece: nat)
    requires n <= |EncodeAll(cfg, rs)|
    ensures k <= |rs| && (k == |rs| ==> piece == 0)
    ensures k < |rs| ==> piece < |EncodeRecord(cfg, rs[k])|
    ensures n == |EncodeAll(cfg, rs[..k])| + piece
    ensures EncodeAll(cfg, rs)[..n]
         == EncodeAll(cfg, rs[..k]) + (if k < |rs| then EncodeRecord(cfg, rs[k])[..piece] else [])
    decreases |rs|
  {
    if rs == [] {
      k, piece := 0, 0;
      assert rs[..0] == [];
    } else {
      var front, last := rs[..|rs| - 1], rs[|rs| - 1];
      var head := EncodeAll(cfg, front);
      if n < |head| {
        k, piece := CutRecords(cfg, front, n);
        assert EncodeAll(cfg, rs)[..n] == head[..n];
        assert front[..k] == rs[..k];
      } else if n < |EncodeAll(cfg, rs)| {
        k, piece := |rs| - 1, n - |head|;
        assert rs[..k] == front;
      } else {
        k, piece := |rs|, 0;
        assert rs[..k] == rs;
        assert EncodeAll(cfg, rs)[..n] == EncodeAll(cfg, rs);
      }
    }
  }
}
