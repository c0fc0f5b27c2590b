// The packed MBR structs that create_img.c and add_mbr.c both declare, their
// byte layout, and the protective MBR that both tools fill in (section 5.2.3
// of the UEFI Specification): one record of type 0xEE covering the disk.
module Mbr {
  import opened Bytes

  type Chs = s: seq<byte> | |s| == 3 witness [0, 0, 0]
  type BootCode = s: seq<byte> | |s| == 440 witness seq(440, _ => 0)

  datatype MbrPartitionRecord = MbrPartitionRecord(
    bootIndicator: byte, startCHS: Chs, osIndicator: byte, endCHS: Chs,
    startingLBA: u32, sizeInLBA: u32)

  type Records = s: seq<MbrPartitionRecord> | |s| == 4
    witness seq(4, _ => MbrPartitionRecord(0, [0, 0, 0], 0, [0, 0, 0], 0, 0))

  datatype MbrBootRecord = MbrBootRecord(
    bootStrapCode: BootCode, uniqueMbrSignature: u32, unknown: u16,
    partition: Records, signature: u16)

  /** A record initialised by `{ 0 }`. */
  const EMPTY_RECORD: MbrPartitionRecord := MbrPartitionRecord(0, [0, 0, 0], 0, [0, 0, 0], 0, 0)

  function EncodeRecord(r: MbrPartitionRecord): (s: seq<byte>)
    ensures |s| == 16
  {
    [r.bootIndicator] + r.startCHS + [r.osIndicator] + r.endCHS + Le32(r.startingLBA) + Le32(r.sizeInLBA)
  }

  /** The 512 bytes of an MbrBootRecord: 440 + 4 + 2 + 4 * 16 + 2. */
  function EncodeMbr(m: MbrBootRecord): (s: seq<byte>)
    ensures |s| == 512
  {
    m.bootStrapCode + Le32(m.uniqueMbrSignature) + Le16(m.unknown)
      + EncodeRecord(m.partition[0]) + EncodeRecord(m.partition[1])
      + EncodeRecord(m.partition[2]) + EncodeRecord(m.partition[3])
      + Le16(m.signature)
  }

  /**
   * The record both writeMbr functions build: zero boot code and disk
   * signature, signature 0xAA55, and in partition[0] a non-bootable 0xEE
   * record with CHS 00 02 00 .. FF FF FF starting at LBA 1.
   */
  function ProtectiveMbr(sizeInLBA: u32): (m: MbrBootRecord)
    ensures m.partition[0].osIndicator == 0xEE && m.partition[0].startingLBA == 1
    ensures m.partition[0].sizeInLBA == sizeInLBA && m.signature == 0xAA55
    ensures forall i :: 1 <= i < 4 ==> m.partition[i] == EMPTY_RECORD
  {
    var record := MbrPartitionRecord(0, [0x00, 0x02, 0x00], 0xEE, [0xFF, 0xFF, 0xFF], 1, sizeInLBA);
    MbrBootRecord(seq(440, _ => 0), 0, 0, [record, EMPTY_RECORD, EMPTY_RECORD, EMPTY_RECORD], 0xAA55)
  }

  /** The sixteen bytes of the protective record at offset 446. */
  function ProtectiveRecordBytes(sizeInLBA: u32): (s: seq<byte>)
    ensures |s| == 16 && s[4] == 0xEE
  {
    [0x00, 0x00, 0x02, 0x00, 0xEE, 0xFF, 0xFF, 0xFF] + Le32(1) + Le32(sizeInLBA)
  }

  /**
   * The protective MBR sector byte for byte: zeros up to offset 446, the
   * protective record, zeros for the three unused records, then 0x55 0xAA.
   */
  lemma ProtectiveMbrBytes(sizeInLBA: u32)
    ensures var s := EncodeMbr(ProtectiveMbr(sizeInLBA));
      && s[..446] == Zeros(446)
      && s[446..462] == ProtectiveRecordBytes(sizeInLBA)
      && s[462..510] == Zeros(48)
      && s[510] == 0x55 && s[511] == 0xAA
  {
    var m := ProtectiveMbr(sizeInLBA);
    var s := EncodeMbr(m);
    assert EncodeRecord(EMPTY_RECORD) == Zeros(16);
    assert Le32(0) == Zeros(4) && Le16(0) == Zeros(2);
    assert s[..446] == m.bootStrapCode + Le32(0) + Le16(0);
    assert s[462..510] == EncodeRecord(EMPTY_RECORD) + EncodeRecord(EMPTY_RECORD) + EncodeRecord(EMPTY_RECORD);
    ZerosAppend(440, 4);
    ZerosAppend(444, 2);
    ZerosAppend(16, 16);
    ZerosAppend(32, 16);
  }
}
