// add_mbr.c: the earlier tool that writes only a protective MBR, with the
// sector size fixed at 512 bytes. Its sector count, its MBR and the outcome
// of its single write are values; the write's acceptance count is a
// parameter standing for what fwrite returns.
module AddMbr {
  import opened Bytes
  import opened Mbr
  import Lba
  import CreateImg

  const LBA_SIZE: int := 512
  const KiB: int := 1024
  const MiB: int := 1024 * KiB
  const ESP_SIZE: int := 33 * MiB
  const DATA_SIZE: int := 1 * MiB

  /** bytesToLBAs: whole sectors, plus one when a partial sector is left over. */
  function BytesToLBAs(imgSize: u32): u32
  {
    imgSize / LBA_SIZE + (if imgSize % LBA_SIZE > 0 then 1 else 0)
  }

  /**
   * The sector count is the ceiling of imgSize / 512: the least number of
   * sectors whose total size covers imgSize bytes.
   */
  lemma BytesToLBAsIsCeiling(imgSize: u32)
    ensures BytesToLBAs(imgSize) == Lba.CeilDiv(imgSize, LBA_SIZE)
    ensures BytesToLBAs(imgSize) * LBA_SIZE >= imgSize
    ensures (BytesToLBAs(imgSize) - 1) * LBA_SIZE < imgSize
  {
    var q, m := imgSize / LBA_SIZE, imgSize % LBA_SIZE;
    assert imgSize == q * LBA_SIZE + m;
    assert (imgSize + LBA_SIZE - 1) == (q + (if m > 0 then 1 else 0)) * LBA_SIZE + (if m > 0 then m - 1 else LBA_SIZE - 1);
  }

  /**
   * The quotient-plus-remainder form agrees with create_img's rounding-up
   * form at a 512-byte sector for every 32-bit size.
   */
  lemma BytesToLBAsAgrees(imgSize: u32)
    ensures BytesToLBAs(imgSize) == Lba.BytesToLBAs(imgSize, 512)
  {
    BytesToLBAsIsCeiling(imgSize);
    Lba.BytesToLBAsIsCeiling(imgSize, 512);
  }

  /**
   * sizeInLBA of the protective record: imgSize - 1 in uint32_t arithmetic.
   * writeMbr then clamps it to 0xFFFFFFFF when imgSize exceeds 0xFFFFFFFF,
   * which a uint32_t imgSize never does, so the clamp has no branch here.
   */
  function SizeInLBA(imgSize: u32): u32
  {
    Trunc32(imgSize - 1)
  }

  /** One less than imgSize, except that 0 wraps around to 0xFFFFFFFF. */
  lemma SizeInLBAWraps(imgSize: u32)
    ensures imgSize > 0 ==> SizeInLBA(imgSize) == imgSize - 1
    ensures imgSize == 0 ==> SizeInLBA(imgSize) == 0xFFFF_FFFF
  {
  }

  /** The MbrBootRecord writeMbr fills in for a disk of imgSize sectors. */
  function MbrRecord(imgSize: u32): (m: MbrBootRecord)
    ensures m.partition[0] == MbrPartitionRecord(0, [0x00, 0x02, 0x00], 0xEE, [0xFF, 0xFF, 0xFF], 1, SizeInLBA(imgSize))
    ensures m.bootStrapCode == Zeros(440) && m.uniqueMbrSignature == 0 && m.unknown == 0
    ensures forall i :: 1 <= i < 4 ==> m.partition[i] == EMPTY_RECORD
    ensures m.signature == 0xAA55
  {
    ProtectiveMbr(SizeInLBA(imgSize))
  }

  /** What writeMbr reports and what the new, empty file holds afterwards. */
  datatype Outcome = Outcome(ok: bool, file: seq<byte>)

  /**
   * writeMbr(img, imgSize) on the freshly created file: a single fwrite of
   * the 512-byte record, of which `accepted` bytes are stored.
   */
  function WriteMbr(imgSize: u32, accepted: nat): Outcome
  {
    var bytes := EncodeMbr(MbrRecord(imgSize));
    var n := if accepted < |bytes| then accepted else |bytes|;
    Outcome(n == |bytes|, bytes[..n])
  }

  /**
   * writeMbr succeeds exactly when the whole record is written; the file is
   * then one sector holding the protective MBR (zero boot code and unused
   * records, the 0xEE record, 0x55 0xAA) and nothing else. On a short write
   * the file holds a prefix of that sector.
   */
  lemma WriteMbrSector(imgSize: u32, accepted: nat)
    ensures WriteMbr(imgSize, accepted).ok <==> accepted >= 512
    ensures var r := WriteMbr(imgSize, accepted);
      r.ok ==>
        && |r.file| == 512
        && r.file[..446] == Zeros(446)
        && r.file[446..462] == ProtectiveRecordBytes(SizeInLBA(imgSize))
        && r.file[462..510] == Zeros(48)
        && r.file[510] == 0x55 && r.file[511] == 0xAA
    ensures var r := WriteMbr(imgSize, accepted);
      !r.ok ==> |r.file| < 512 && r.file == EncodeMbr(MbrRecord(imgSize))[..|r.file|]
  {
    ProtectiveMbrBytes(SizeInLBA(imgSize));
    assert EncodeMbr(MbrRecord(imgSize))[..512] == EncodeMbr(MbrRecord(imgSize));
  }

  /**
   * Both tools write the same sector for the same disk size (in sectors):
   * add_mbr's writeMbr agrees with create_img's for every 32-bit size,
   * including 0, which both wrap around to a record of 0xFFFFFFFF sectors.
   */
  lemma SameSectorAsCreateImg(imgSize: u32)
    ensures EncodeMbr(MbrRecord(imgSize)) == CreateImg.MbrBytes(imgSize)
  {
    CreateImg.ProtectiveSize(imgSize);
    SizeInLBAWraps(imgSize);
  }

  /** imgSize in `main`: the data and ESP partitions plus 1 MiB for the tables. */
  const IMG_SIZE: u32 := DATA_SIZE + ESP_SIZE + 1 * MiB

  /** `main` after its checks: writeMbr with the image's size in sectors. */
  function Run(accepted: nat): Outcome
  {
    WriteMbr(BytesToLBAs(IMG_SIZE), accepted)
  }

  /**
   * The default image is 35 MiB, that is 71680 sectors, and a successful
   * run leaves a sector whose protective record starts at LBA 1 and spans
   * the 71679 sectors after the MBR.
   */
  lemma DefaultRun(accepted: nat)
    ensures IMG_SIZE == 35 * MiB == 36700160
    ensures BytesToLBAs(IMG_SIZE) == 71680
    ensures Run(accepted).ok ==> Run(accepted).file[446..462] == ProtectiveRecordBytes(71679)
  {
    WriteMbrSector(BytesToLBAs(IMG_SIZE), accepted);
  }
}
