// The GPT header and partition entry structs of create_img.c, their byte
// layout (section 5.3 of the UEFI Specification), and the headers and
// entry array that writeGpts fills in.
module Gpt {
  import opened Bytes
  import opened Guids
  import opened Crc32
  import opened Lba

  const PARTITION_ENTRY_SIZE := 128
  const NO_GPT_PARTITION_ENTRIES := 128
  const REVISION: u32 := 0x0001_0000
  const HEADER_SIZE: u32 := 92

  /** "EFI PART", without a terminating NUL. */
  const EFI_PART: seq<byte> := [0x45, 0x46, 0x49, 0x20, 0x50, 0x41, 0x52, 0x54]

  type Signature = s: seq<byte> | |s| == 8 witness [0, 0, 0, 0, 0, 0, 0, 0]
  type Reserved = s: seq<byte> | |s| == 420 witness seq(420, _ => 0)

  datatype GptHeader = GptHeader(
    signature: Signature, revision: u32, headerSize: u32, headerCRC32: bv32,
    reserved1: u32, selfLBA: u64, altLBA: u64, firstUseLBA: u64, lastUseLBA: u64,
    diskGUID: Guid, partEntryArrLBA: u64, numPartEntries: u32, sizePartEntry: u32,
    partEntryArrCRC32: bv32, reserved2: Reserved)

  /** A CRC register stored in a uint32_t field. */
  function CrcField(c: bv32): u32
  {
    c as int
  }

  /** Bytes 0..16 of a header: signature, revision and header size. */
  function HeaderHead(h: GptHeader): (s: seq<byte>)
    ensures |s| == 16
  {
    h.signature + Le32(h.revision) + Le32(h.headerSize)
  }

  /** Bytes 20..92 of a header: everything after the header CRC that the CRC covers. */
  function HeaderTail(h: GptHeader): (s: seq<byte>)
    ensures |s| == 72
  {
    Le32(h.reserved1) + Le64(h.selfLBA) + Le64(h.altLBA) + Le64(h.firstUseLBA)
      + Le64(h.lastUseLBA) + EncodeGuid(h.diskGUID) + Le64(h.partEntryArrLBA)
      + Le32(h.numPartEntries) + Le32(h.sizePartEntry) + Le32(CrcField(h.partEntryArrCRC32))
  }

  /** The 512 bytes of a packed GptHeader. */
  function EncodeHeader(h: GptHeader): (s: seq<byte>)
    ensures |s| == 512
  {
    HeaderHead(h) + Le32(CrcField(h.headerCRC32)) + HeaderTail(h) + h.reserved2
  }

  lemma HeaderPieces(h: GptHeader)
    ensures var s := EncodeHeader(h);
      && s[..16] == HeaderHead(h) && s[16..20] == Le32(CrcField(h.headerCRC32))
      && s[20..92] == HeaderTail(h) && s[92..] == h.reserved2
  {
  }

  /** The fields of HeaderTail, each in its slice of bytes 20..92 of the header. */
  lemma TailPieces(h: GptHeader)
    ensures var t := HeaderTail(h);
      && t[..4] == Le32(h.reserved1) && t[4..12] == Le64(h.selfLBA) && t[12..20] == Le64(h.altLBA)
      && t[20..28] == Le64(h.firstUseLBA) && t[28..36] == Le64(h.lastUseLBA)
      && t[36..52] == EncodeGuid(h.diskGUID) && t[52..60] == Le64(h.partEntryArrLBA)
      && t[60..64] == Le32(h.numPartEntries) && t[64..68] == Le32(h.sizePartEntry)
      && t[68..] == Le32(CrcField(h.partEntryArrCRC32))
  {
    var a := Le32(h.reserved1) + Le64(h.selfLBA) + Le64(h.altLBA) + Le64(h.firstUseLBA) + Le64(h.lastUseLBA);
    var b := EncodeGuid(h.diskGUID) + Le64(h.partEntryArrLBA);
    var c := Le32(h.numPartEntries) + Le32(h.sizePartEntry) + Le32(CrcField(h.partEntryArrCRC32));
    assert HeaderTail(h) == a + b + c;
    assert |a| == 36 && |b| == 24 && |c| == 12;
  }

  /** A header read from its 512 bytes, field by field at the offsets of the packed struct. */
  function DecodeHeader(s: seq<byte>): (h: GptHeader)
    requires |s| == 512
  {
    GptHeader(s[..8], ReadLe32(s[8..12]), ReadLe32(s[12..16]), ReadLe32(s[16..20]) as bv32,
              ReadLe32(s[20..24]), ReadLe64(s[24..32]), ReadLe64(s[32..40]), ReadLe64(s[40..48]),
              ReadLe64(s[48..56]), DecodeGuid(s[56..72]), ReadLe64(s[72..80]), ReadLe32(s[80..84]),
              ReadLe32(s[84..88]), ReadLe32(s[88..92]) as bv32, s[92..])
  }

  /** Reading a header back from its bytes gives that header. */
  lemma DecodeEncodeHeader(h: GptHeader)
    ensures DecodeHeader(EncodeHeader(h)) == h
  {
    var s := EncodeHeader(h);
    HeaderPieces(h);
    TailPieces(h);
    var t := HeaderTail(h);
    assert s[20..92] == t;
    assert s[..8] == h.signature && s[8..12] == Le32(h.revision) && s[12..16] == Le32(h.headerSize) by {
      assert s[..16] == h.signature + Le32(h.revision) + Le32(h.headerSize);
    }
    assert s[20..24] == t[..4] && s[24..32] == t[4..12] && s[32..40] == t[12..20];
    assert s[40..48] == t[20..28] && s[48..56] == t[28..36] && s[56..72] == t[36..52];
    assert s[72..80] == t[52..60] && s[80..84] == t[60..64] && s[84..88] == t[64..68] && s[88..92] == t[68..];
    Le32RoundTrip(h.revision);
    Le32RoundTrip(h.headerSize);
    Le32RoundTrip(CrcField(h.headerCRC32));
    Le32RoundTrip(h.reserved1);
    Le64RoundTrip(h.selfLBA);
    Le64RoundTrip(h.altLBA);
    Le64RoundTrip(h.firstUseLBA);
    Le64RoundTrip(h.lastUseLBA);
    DecodeEncodeGuid(h.diskGUID);
    Le64RoundTrip(h.partEntryArrLBA);
    Le32RoundTrip(h.numPartEntries);
    Le32RoundTrip(h.sizePartEntry);
    Le32RoundTrip(CrcField(h.partEntryArrCRC32));
  }

  /** The CRC of the first headerSize (92) bytes, taken with the CRC field zero. */
  function HeaderCrc(h: GptHeader): bv32
  {
    Crc32.Crc32(Octets(EncodeHeader(h.(headerCRC32 := 0))[..92]))
  }

  /** `headerCRC32 = 0; headerCRC32 = calcCRC32(&h, headerSize)`. */
  function Seal(h: GptHeader): (r: GptHeader)
    ensures r == h.(headerCRC32 := r.headerCRC32)
    ensures r.headerCRC32 == HeaderCrc(h)
  {
    var z := h.(headerCRC32 := 0);
    z.(headerCRC32 := Crc32.Crc32(Octets(EncodeHeader(z)[..92])))
  }

  /**
   * What a reader checks on the bytes of a header: the CRC stored at offset
   * 16 is the CRC of the first 92 bytes with those four bytes zeroed.
   */
  predicate HeaderBytesOk(s: seq<byte>)
    requires |s| >= 92
  {
    ReadLe32(s[16..20]) == Crc32.Crc32(Octets(s[..16] + Zeros(4) + s[20..92])) as int
  }

  /** Zeroing the CRC field of the encoding is encoding the header with a zero CRC. */
  lemma ZeroedCrcBytes(h: GptHeader)
    ensures var s := EncodeHeader(h);
      s[..16] + Zeros(4) + s[20..92] == EncodeHeader(h.(headerCRC32 := 0))[..92]
  {
    var z := h.(headerCRC32 := 0);
    HeaderPieces(h);
    HeaderPieces(z);
    assert Le32(CrcField(0)) == Zeros(4);
  }

  /** A sealed header passes the reader's check, whatever it held before. */
  lemma SealedHeaderBytesOk(h: GptHeader)
    ensures HeaderBytesOk(EncodeHeader(Seal(h)))
  {
    var r := Seal(h);
    ZeroedCrcBytes(r);
    HeaderPieces(r);
    Le32RoundTrip(CrcField(r.headerCRC32));
  }

  /**
   * What a reader checks on the header in sector `lba` of a disk of
   * 512-byte sectors: the signature, the header CRC, that the header names
   * this sector as its own and `alt` as the other header's, and that the
   * CRC of its entry array (numPartEntries entries of sizePartEntry bytes
   * at partEntryArrLBA) is the one it records.
   */
  predicate HeaderAt(disk: seq<byte>, lba: nat, alt: nat)
  {
    && lba * 512 + 512 <= |disk|
    && var s := disk[lba * 512..lba * 512 + 512];
    var h := DecodeHeader(s);
    var start := h.partEntryArrLBA * 512;
    var size := EntryArrayBytes(h);
    && h.signature == EFI_PART && HeaderBytesOk(s)
    && h.selfLBA == lba && h.altLBA == alt
    && start + size <= |disk|
    && Crc32.Crc32(Octets(disk[start..start + size])) == h.partEntryArrCRC32
  }

  /** The length of a header's entry array: numPartEntries entries of sizePartEntry bytes. */
  function EntryArrayBytes(h: GptHeader): nat
  {
    MulMono(0, h.numPartEntries, h.sizePartEntry);
    h.numPartEntries * h.sizePartEntry
  }

  /** A header stored in sector `lba` passes the reader's checks when its fields and its array do. */
  lemma HeaderStoredAt(disk: seq<byte>, lba: nat, alt: nat, h: GptHeader)
    requires lba * 512 + 512 <= |disk| && disk[lba * 512..lba * 512 + 512] == EncodeHeader(h)
    requires h.signature == EFI_PART && HeaderBytesOk(EncodeHeader(h)) && h.selfLBA == lba && h.altLBA == alt
    requires h.partEntryArrLBA * 512 + EntryArrayBytes(h) <= |disk|
    requires Crc32.Crc32(Octets(disk[h.partEntryArrLBA * 512..h.partEntryArrLBA * 512 + EntryArrayBytes(h)]))
      == h.partEntryArrCRC32
    ensures HeaderAt(disk, lba, alt)
  {
    DecodeEncodeHeader(h);
  }

  /**
   * A disk a GPT reader accepts: whole 512-byte sectors, a protective MBR
   * (boot signature 0x55 0xAA, a record of type 0xEE first), a valid
   * primary header in sector 1 that points at the last sector, and a valid
   * backup header in the last sector that points back at sector 1.
   */
  predicate IsGptDisk(disk: seq<byte>)
  {
    && |disk| % 512 == 0 && |disk| >= 3 * 512
    && disk[510] == 0x55 && disk[511] == 0xAA && disk[450] == 0xEE
    && HeaderAt(disk, 1, |disk| / 512 - 1)
    && HeaderAt(disk, |disk| / 512 - 1, 1)
  }

  /** A GUID-keyed partition entry; the name is 36 UTF-16 code units. */
  type Name = s: seq<u16> | |s| == 36 witness seq(36, _ => 0)

  datatype GptPartEntry = GptPartEntry(
    partTypeGUID: Guid, uniquePartGUID: Guid, startLBA: u64, endLBA: u64,
    attrib: u64, partName: Name)

  /** UTF-16 code units, little-endian. */
  function EncodeUnits(s: seq<u16>): (r: seq<byte>)
    ensures |r| == 2 * |s|
  {
    if s == [] then [] else Le16(s[0]) + EncodeUnits(s[1..])
  }

  /** The 128 bytes of a packed GptPartEntry. */
  function EncodeEntry(e: GptPartEntry): (s: seq<byte>)
    ensures |s| == 128
  {
    EncodeGuid(e.partTypeGUID) + EncodeGuid(e.uniquePartGUID) + Le64(e.startLBA)
      + Le64(e.endLBA) + Le64(e.attrib) + EncodeUnits(e.partName)
  }

  /** A name as a `u"..."` initialiser stores it: the code units, then zeros up to 36. */
  function PartName(s: string): (r: Name)
    requires |s| < 36 && forall i :: 0 <= i < |s| ==> s[i] as int < 0x1_0000
    ensures forall i :: 0 <= i < |s| ==> r[i] == s[i] as int
    ensures forall i :: |s| <= i < 36 ==> r[i] == 0
  {
    seq(36, i requires 0 <= i < 36 => if i < |s| then s[i] as int else 0)
  }

  const EFI_SYSTEM: Name := PartName("EFI SYSTEM")
  const BASIC_DATA: Name := PartName("BASIC DATA")

  /** An entry of the `{ 0 }` initialised table: the unused-entry marker. */
  function ZeroEntry(): GptPartEntry
  {
    GptPartEntry(NULL_GUID, NULL_GUID, 0, 0, 0, seq(36, _ => 0))
  }

  lemma {:induction false} ZeroUnits(n: nat)
    ensures EncodeUnits(seq(n, _ => 0)) == Zeros(2 * n)
  {
    if n > 0 {
      var z: seq<u16> := seq(n, _ => 0);
      assert z[1..] == seq(n - 1, _ => 0);
      ZeroUnits(n - 1);
      assert Le16(0) == Zeros(2);
      ZerosAppend(2, 2 * (n - 1));
    }
  }

  /** An unused entry is 128 zero bytes. */
  lemma ZeroEntryBytes()
    ensures EncodeEntry(ZeroEntry()) == Zeros(128)
  {
    ZeroUnits(36);
    assert EncodeGuid(NULL_GUID) == Zeros(16);
    assert Le64(0) == Zeros(8);
    ZerosAppend(16, 16);
    ZerosAppend(32, 8);
    ZerosAppend(40, 8);
    ZerosAppend(48, 8);
    ZerosAppend(56, 72);
  }

  /** Blocks of bytes back to back. */
  function Flatten(bs: seq<seq<byte>>): (s: seq<byte>)
  {
    if bs == [] then [] else Flatten(bs[..|bs| - 1]) + bs[|bs| - 1]
  }

  /** Blocks of 128 bytes, flattened: block i occupies bytes 128 * i .. 128 * (i + 1). */
  lemma {:induction false} FlattenAt(bs: seq<seq<byte>>, i: nat)
    requires forall j :: 0 <= j < |bs| ==> |bs[j]| == 128
    requires i < |bs|
    ensures |Flatten(bs)| == 128 * |bs|
    ensures Flatten(bs)[128 * i..128 * i + 128] == bs[i]
  {
    var n := |bs| - 1;
    var a, b := Flatten(bs[..n]), bs[n];
    if i < n {
      FlattenAt(bs[..n], i);
      assert bs[..n][i] == bs[i];
      assert (a + b)[128 * i..128 * i + 128] == a[128 * i..128 * i + 128];
    } else if n > 0 {
      FlattenAt(bs[..n], 0);
      assert (a + b)[128 * n..] == b;
    } else {
      assert a == [];
    }
  }

  /** The entries' encodings, in order. */
  function EntryBlocks(t: seq<GptPartEntry>): (bs: seq<seq<byte>>)
    ensures |bs| == |t| && forall j :: 0 <= j < |t| ==> |bs[j]| == 128
  {
    seq(|t|, j requires 0 <= j < |t| => EncodeEntry(t[j]))
  }

  type Table = t: seq<GptPartEntry> | |t| == NO_GPT_PARTITION_ENTRIES
    witness seq(128, _ => ZeroEntry())

  /** The 16384-byte table that writeGpts stores twice. */
  function EncodeTable(t: Table): (s: seq<byte>)
    ensures |s| == GPT_TABLE_SIZE
  {
    FlattenAt(EntryBlocks(t), 0);
    Flatten(EntryBlocks(t))
  }

  /**
   * The table of writeGpts: the EFI system partition, then the basic data
   * partition, each from its start to the last sector its size needs, and
   * 126 unused entries.
   */
  function PartitionTable(espGuid: Guid, dataGuid: Guid, espLba: u64, dataLba: u64,
                          espSize: u64, dataSize: u64, lbaSize: u64): (t: Table)
    requires lbaSize > 0
    ensures t[0].partTypeGUID == ESP_GUID && t[0].uniquePartGUID == espGuid
    ensures t[1].partTypeGUID == BASIC_DATA_GUID && t[1].uniquePartGUID == dataGuid
    ensures t[0].startLBA == espLba && t[0].endLBA == PartitionEnd(espLba, espSize, lbaSize)
    ensures t[1].startLBA == dataLba && t[1].endLBA == PartitionEnd(dataLba, dataSize, lbaSize)
    ensures t[0].partName == EFI_SYSTEM && t[1].partName == BASIC_DATA
    ensures t[0].attrib == 0 && t[1].attrib == 0
    ensures forall i :: 2 <= i < 128 ==> t[i] == ZeroEntry()
  {
    [GptPartEntry(ESP_GUID, espGuid, espLba, PartitionEnd(espLba, espSize, lbaSize), 0, EFI_SYSTEM),
     GptPartEntry(BASIC_DATA_GUID, dataGuid, dataLba, PartitionEnd(dataLba, dataSize, lbaSize), 0, BASIC_DATA)]
      + seq(126, _ => ZeroEntry())
  }

  /**
   * The primary header before its CRCs: at LBA 1, its backup in the last
   * sector, the usable space between the two entry arrays, its own array at
   * LBA 2, 128 entries of 128 bytes.
   */
  function PrimaryHeader(writeSize: u64, lbaSize: u64, diskGuid: Guid): (h: GptHeader)
    requires lbaSize > 0
    ensures h.signature == EFI_PART && h.revision == REVISION && h.headerSize == HEADER_SIZE
    ensures h.selfLBA == 1 && h.altLBA == Trunc64(writeSize - 1) && h.partEntryArrLBA == 2
    ensures h.firstUseLBA == FirstUsableLBA(lbaSize) && h.lastUseLBA == LastUsableLBA(writeSize, lbaSize)
    ensures h.numPartEntries == NO_GPT_PARTITION_ENTRIES && h.sizePartEntry == PARTITION_ENTRY_SIZE
    ensures h.diskGUID == diskGuid && h.headerCRC32 == 0 && h.partEntryArrCRC32 == 0
  {
    GptHeader(EFI_PART, REVISION, HEADER_SIZE, 0, 0, 1, Trunc64(writeSize - 1),
              FirstUsableLBA(lbaSize), LastUsableLBA(writeSize, lbaSize), diskGuid, 2,
              NO_GPT_PARTITION_ENTRIES, PARTITION_ENTRY_SIZE, 0, seq(420, _ => 0))
  }

  /**
   * `secondary = primary` with the two self/alternate LBAs swapped and its
   * entry array just below it.
   */
  function Backup(p: GptHeader, lbaSize: u64): (s: GptHeader)
    requires lbaSize > 0
  {
    p.(selfLBA := p.altLBA, altLBA := p.selfLBA,
       partEntryArrLBA := Trunc64(p.altLBA - GPT_TABLE_SIZE / lbaSize))
  }

  /** The primary header as written: the table CRC set, then the header sealed. */
  function SealedPrimary(writeSize: u64, lbaSize: u64, diskGuid: Guid, tableCrc: bv32): GptHeader
    requires lbaSize > 0
  {
    Seal(PrimaryHeader(writeSize, lbaSize, diskGuid).(partEntryArrCRC32 := tableCrc))
  }

  /** The backup header as written: built from the sealed primary, then sealed again. */
  function SealedBackup(primary: GptHeader, lbaSize: u64, tableCrc: bv32): GptHeader
    requires lbaSize > 0
  {
    Seal(Backup(primary, lbaSize).(partEntryArrCRC32 := tableCrc))
  }

  /**
   * The two headers point at each other, both carry the table's CRC and a
   * valid header CRC, and they agree in every field but the two LBAs that
   * are swapped, the entry array LBA and the header CRC. The backup array
   * ends just below the backup header, right after the last usable LBA.
   */
  lemma {:induction false} HeadersMirror(writeSize: u64, lbaSize: u64, diskGuid: Guid, table: Table)
    requires lbaSize > 0
    ensures var tableCrc := Crc32.Crc32(Octets(EncodeTable(table)));
      var p := SealedPrimary(writeSize, lbaSize, diskGuid, tableCrc);
      var s := SealedBackup(p, lbaSize, tableCrc);
      && s.selfLBA == p.altLBA && s.altLBA == p.selfLBA == 1
      && p.partEntryArrCRC32 == s.partEntryArrCRC32 == tableCrc
      && HeaderBytesOk(EncodeHeader(p)) && HeaderBytesOk(EncodeHeader(s))
      && s == p.(selfLBA := s.selfLBA, altLBA := s.altLBA, partEntryArrLBA := s.partEntryArrLBA,
                 headerCRC32 := s.headerCRC32)
      && (GPT_TABLE_SIZE / lbaSize + 2 <= writeSize ==>
            s.partEntryArrLBA == p.lastUseLBA + 1 && s.partEntryArrLBA + GPT_TABLE_SIZE / lbaSize == s.selfLBA)
  {
    var tableCrc := Crc32.Crc32(Octets(EncodeTable(table)));
    var p := SealedPrimary(writeSize, lbaSize, diskGuid, tableCrc);
    SealedHeaderBytesOk(PrimaryHeader(writeSize, lbaSize, diskGuid).(partEntryArrCRC32 := tableCrc));
    SealedHeaderBytesOk(Backup(p, lbaSize).(partEntryArrCRC32 := tableCrc));
    TableSectors(lbaSize);
    var q := GPT_TABLE_SIZE / lbaSize;
    if q + 2 <= writeSize {
      BackupArray(writeSize, q);
    }
  }

  /** Below the last sector, the backup array's q sectors end where the usable space ends. */
  lemma BackupArray(w: u64, q: nat)
    requires q + 2 <= w
    ensures Trunc64(Trunc64(w - 1) - q) == Trunc64(w - 1 - q - 1) + 1
    ensures Trunc64(Trunc64(w - 1) - q) + q == Trunc64(w - 1)
  {
  }

  /** The primary array starts right after the primary header and ends right before the first usable LBA. */
  lemma PrimaryArrayPlacement(writeSize: u64, lbaSize: u64, diskGuid: Guid)
    requires 0 < lbaSize
    ensures var p := PrimaryHeader(writeSize, lbaSize, diskGuid);
      p.partEntryArrLBA == p.selfLBA + 1 && p.partEntryArrLBA + GPT_TABLE_SIZE / lbaSize == p.firstUseLBA
  {
    TableSectors(lbaSize);
  }

  /** Entry i of the stored table, read back from its bytes, is the i-th entry. */
  lemma TableEntryBytes(t: Table, i: nat)
    requires i < 128
    ensures EncodeTable(t)[128 * i..128 * i + 128] == EncodeEntry(t[i])
  {
    FlattenAt(EntryBlocks(t), i);
  }
}
