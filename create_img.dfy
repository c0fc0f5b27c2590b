// create_img.c: the globals of the tool (sizes, layout, CRC table) as one
// object, and the steps that write a GPT disk image: the protective MBR
// with its zero padding, then the primary header and entry array at the
// front and their backups at the end.
module CreateImg {
  import opened Bytes
  import opened Lba
  import opened Guids
  import opened Mbr
  import opened Gpt
  import opened Disk
  import Crc32

  const EXIT_SUCCESS := 0
  const EXIT_FAILURE := 1

  /**
   * sizeInLBA of the protective record: write_size - 1 as a uint32_t, or
   * 0xFFFFFFFF when write_size does not fit in 32 bits. That is the size of
   * the disk minus the MBR, capped at 0xFFFFFFFF; a zero write_size wraps to
   * 0xFFFFFFFF.
   */
  function MbrSizeInLBA(writeSize: u64): (r: u32)
  {
    if writeSize > 0xFFFF_FFFF then 0xFFFF_FFFF else Trunc32(writeSize - 1)
  }

  lemma ProtectiveSize(writeSize: u64)
    ensures writeSize > 0 ==> MbrSizeInLBA(writeSize) == Min(writeSize - 1, 0xFFFF_FFFF)
    ensures writeSize == 0 ==> MbrSizeInLBA(writeSize) == 0xFFFF_FFFF
  {
  }

  function Min(a: int, b: int): int { if a < b then a else b }

  /** The 512 bytes writeMbr writes first. */
  function MbrBytes(writeSize: u64): (s: seq<byte>)
    ensures |s| == 512
  {
    EncodeMbr(ProtectiveMbr(MbrSizeInLBA(writeSize)))
  }

  /** The three GUIDs writeGpts draws: the disk's, then the two partitions'. */
  datatype ImageGuids = ImageGuids(disk: Guid, esp: Guid, data: Guid)

  /** The GUIDs of the three getGuid calls, at the three clock readings. */
  function DrawnGuids(rng: (nat, nat) -> nat, clock: seq<nat>): ImageGuids
    requires |clock| == 3
  {
    ImageGuids(RandomGuid(rng, clock[0]), RandomGuid(rng, clock[1]), RandomGuid(rng, clock[2]))
  }

  /** The table writeGpts stores, from the layout and the partitions' GUIDs. */
  function ImageTable(l: Layout, espSize: u64, dataSize: u64, lbaSize: u64, g: ImageGuids): Table
    requires lbaSize > 0
  {
    PartitionTable(g.esp, g.data, l.espLba, l.dataLba, espSize, dataSize, lbaSize)
  }

  function TableCrc(t: Table): bv32
  {
    Crc32.Crc32(Octets(EncodeTable(t)))
  }

  /** The primary copy: the header's first lba_size bytes at its LBA, then the table at the array LBA. */
  function FrontWrites(primary: GptHeader, table: seq<byte>, lbaSize: u64): (ops: seq<WriteOp>)
    requires 0 < lbaSize <= 512
  {
    [WriteOp(Trunc64(primary.selfLBA * lbaSize), EncodeHeader(primary)[..lbaSize]),
     WriteOp(Trunc64(primary.partEntryArrLBA * lbaSize), table)]
  }

  /** The backup copy: the table at the array LBA, then the header's first lba_size bytes at its LBA. */
  function BackWrites(secondary: GptHeader, table: seq<byte>, lbaSize: u64): (ops: seq<WriteOp>)
    requires 0 < lbaSize <= 512
  {
    [WriteOp(Trunc64(secondary.partEntryArrLBA * lbaSize), table),
     WriteOp(Trunc64(secondary.selfLBA * lbaSize), EncodeHeader(secondary)[..lbaSize])]
  }

  /**
   * The four writes of writeGpts once the primary header is sealed: the
   * primary copy, then the backup copy. Every offset is an LBA times
   * lba_size in uint64_t arithmetic.
   */
  function CopyWrites(primary: GptHeader, table: seq<byte>, lbaSize: u64): (ops: seq<WriteOp>)
    requires 0 < lbaSize <= 512
  {
    FrontWrites(primary, table, lbaSize)
      + BackWrites(SealedBackup(primary, lbaSize, Crc32.Crc32(Octets(table))), table, lbaSize)
  }

  /** The writes of writeGpts from the layout and the three GUIDs. */
  function GptWrites(l: Layout, espSize: u64, dataSize: u64, lbaSize: u64, g: ImageGuids): (ops: seq<WriteOp>)
    requires 0 < lbaSize <= 512
    ensures |ops| == 4
  {
    var table := ImageTable(l, espSize, dataSize, lbaSize, g);
    CopyWrites(SealedPrimary(l.writeSize, lbaSize, g.disk, TableCrc(table)), EncodeTable(table), lbaSize)
  }

  /** The GPT writes, once the primary header and the table bytes are built, are the two copies. */
  lemma GptWritesSplit(l: Layout, espSize: u64, dataSize: u64, lbaSize: u64, g: ImageGuids,
                       primary: GptHeader, tableBytes: seq<byte>)
    requires 0 < lbaSize <= 512
    requires tableBytes == EncodeTable(ImageTable(l, espSize, dataSize, lbaSize, g))
    requires primary == SealedPrimary(l.writeSize, lbaSize, g.disk, TableCrc(ImageTable(l, espSize, dataSize, lbaSize, g)))
    ensures GptWrites(l, espSize, dataSize, lbaSize, g) == CopyWrites(primary, tableBytes, lbaSize)
  {
  }

  /** The image `main` leaves behind when every call succeeds: the MBR sector, then the GPT writes. */
  function Image(l: Layout, espSize: u64, dataSize: u64, g: ImageGuids): seq<byte>
  {
    Apply([], [WriteOp(0, MbrBytes(l.writeSize))] + GptWrites(l, espSize, dataSize, 512, g))
  }

  /** The writes of writeMbr: the MBR sector, then the `w` zero bytes padOutZeroes managed. */
  function MbrWrites(writeSize: u64, w: nat): (ops: seq<WriteOp>)
  {
    [WriteOp(0, MbrBytes(writeSize)), WriteOp(512, Zeros(w))]
  }

  /** Every write `main` makes when nothing fails: writeMbr's, then writeGpts'. */
  function MainWrites(l: Layout, espSize: u64, dataSize: u64, lbaSize: u64, g: ImageGuids, w: nat): (ops: seq<WriteOp>)
    requires 0 < lbaSize <= 512
  {
    MbrWrites(l.writeSize, w) + GptWrites(l, espSize, dataSize, lbaSize, g)
  }

  /** A failed MBR write abandons the writes of `main` at the first one. */
  lemma MbrCutShort(l: Layout, espSize: u64, dataSize: u64, lbaSize: u64, g: ImageGuids, n: nat, c: seq<byte>)
    requires 0 < lbaSize <= 512 && n < 512
    requires c == Overwrite([], 0, MbrBytes(l.writeSize)[..n])
    ensures Abandoned([], MainWrites(l, espSize, dataSize, lbaSize, g, 0), c)
  {
    var front := MbrWrites(l.writeSize, 0);
    assert front[..0] == [];
    AbandonAt([], front, 0, c);
    AbandonedPrefix([], front, GptWrites(l, espSize, dataSize, lbaSize, g), c);
  }

  /** After writeMbr, the outcome of writeGpts is that of the writes of `main`. */
  lemma MbrThenGpts(l: Layout, espSize: u64, dataSize: u64, lbaSize: u64, g: ImageGuids, pad: nat,
                    w: u64, c0: seq<byte>, p0: nat, c1: seq<byte>, c: seq<byte>, done: bool)
    requires 0 < lbaSize <= 512 && c0 == [] && p0 == 0 && w == l.writeSize
    requires c1 == Overwrite(Overwrite(c0, p0, MbrBytes(w)), p0 + 512, Zeros(pad))
    requires done ==> c == Apply(c1, GptWrites(l, espSize, dataSize, lbaSize, g))
    requires !done ==> Abandoned(c1, GptWrites(l, espSize, dataSize, lbaSize, g), c)
    ensures done ==> c == Apply([], MainWrites(l, espSize, dataSize, lbaSize, g, pad))
    ensures !done ==> Abandoned([], MainWrites(l, espSize, dataSize, lbaSize, g, pad), c)
  {
    var front := MbrWrites(l.writeSize, pad);
    ApplyTwo([], front[0], front[1]);
    ThenWrites([], front, GptWrites(l, espSize, dataSize, lbaSize, g), c, done);
  }

  /**
   * With 512-byte sectors the padding after the MBR lies where the primary
   * header goes next, so however much of it was written, the image is the
   * MBR followed by the GPT writes.
   */
  lemma PaddingCovered(l: Layout, espSize: u64, dataSize: u64, g: ImageGuids, w: nat)
    requires w <= 512
    ensures Apply([], MainWrites(l, espSize, dataSize, 512, g, w)) == Image(l, espSize, dataSize, g)
  {
    var gpt := GptWrites(l, espSize, dataSize, 512, g);
    var table := ImageTable(l, espSize, dataSize, 512, g);
    var primary := SealedPrimary(l.writeSize, 512, g.disk, TableCrc(table));
    assert primary.selfLBA == 1;
    assert gpt[0] == WriteOp(512, EncodeHeader(primary)[..512]);
    PadThenWrites(MbrBytes(l.writeSize), w, gpt);
  }

  /** The same for any 512-byte first sector and any writes that start with a full sector at 512. */
  lemma PadThenWrites(mbr: seq<byte>, w: nat, ops: seq<WriteOp>)
    requires |mbr| == 512 && w <= 512
    requires |ops| > 0 && ops[0].offset == 512 && |ops[0].data| == 512
    ensures Apply([], [WriteOp(0, mbr), WriteOp(512, Zeros(w))] + ops) == Apply([], [WriteOp(0, mbr)] + ops)
  {
    var first := [WriteOp(0, mbr)];
    var front := [WriteOp(0, mbr), WriteOp(512, Zeros(w))];
    ApplyConcat([], front, ops);
    ApplyConcat([], first, ops);
    ApplyTwo([], front[0], front[1]);
    assert Apply([], first) == Overwrite([], 0, mbr) by {
      assert first[..0] == [];
    }
    ApplyCovered(Apply([], first), 512, Zeros(w), ops);
  }

  /** n of `chunk` more zeros written after `written` of them make `written + n` zeros. */
  lemma MoreZeros(c: seq<byte>, off: nat, written: nat, chunk: nat, n: nat)
    requires n <= chunk
    ensures Overwrite(Overwrite(c, off, Zeros(written)), off + written, Zeros(chunk)[..n])
      == Overwrite(c, off, Zeros(written + n))
  {
    assert Zeros(chunk)[..n] == Zeros(n);
    OverwriteConcat(c, off, Zeros(written), Zeros(n));
    ZerosAppend(written, n);
  }

  /** The first three writes of the image: MBR, primary header and primary array, back to back. */
  lemma FrontSectors(m: seq<byte>, p: seq<byte>, t: seq<byte>)
    requires |m| == 512 && |p| == 512 && |t| == GPT_TABLE_SIZE
    ensures Overwrite(Overwrite(Overwrite([], 0, m), 512, p), 1024, t) == m + p + t
  {
    OverwriteAppends([], m);
    assert [] + m == m;
    OverwriteAppends(m, p);
    OverwriteAppends(m + p, t);
  }

  /**
   * The last two writes on a disk of `w` >= 67 sectors: the backup array
   * in the 32 sectors below the last and the backup header in the last
   * leave the first 17408 bytes alone and end the file at sector w.
   */
  lemma BackSectors(c: seq<byte>, t: seq<byte>, b: seq<byte>, w: nat)
    requires |c| == 17408 && |t| == GPT_TABLE_SIZE && |b| == 512 && w >= 67
    ensures var r := Overwrite(Overwrite(c, (w - 33) * 512, t), (w - 1) * 512, b);
      && |r| == w * 512 && r[..17408] == c
      && r[(w - 33) * 512..(w - 1) * 512] == t && r[(w - 1) * 512..] == b
  {
    var lo, e := (w - 33) * 512, (w - 1) * 512;
    assert lo + GPT_TABLE_SIZE == e && 17408 <= lo;
    var c4 := Overwrite(c, lo, t);
    var r := Overwrite(c4, e, b);
    assert |c4| == e && |r| == e + 512;
    OverwriteHolds(c, lo, t, lo, e);
    assert t[lo - lo..e - lo] == t;
    OverwriteHolds(c4, e, b, e, e + 512);
    OverwriteKeeps(c, lo, t, 0, 17408);
    OverwriteKeeps(c4, e, b, 0, 17408);
    OverwriteKeeps(c4, e, b, lo, e);
  }

  /**
   * Five writes at the places the image puts its sectors, on a disk of `w`
   * sectors of 512 bytes: none of them overlaps another once w >= 67, so
   * each sector range holds what was written there and the file is exactly
   * w sectors long.
   */
  lemma ImageSectors(m: seq<byte>, p: seq<byte>, t: seq<byte>, b: seq<byte>, w: nat)
    requires |m| == 512 && |p| == 512 && |t| == GPT_TABLE_SIZE && |b| == 512 && w >= 67
    ensures var img := Apply([], [WriteOp(0, m), WriteOp(512, p), WriteOp(1024, t),
                                  WriteOp((w - 33) * 512, t), WriteOp((w - 1) * 512, b)]);
      && |img| == w * 512
      && img[..512] == m && img[512..1024] == p && img[1024..17408] == t
      && img[(w - 33) * 512..(w - 1) * 512] == t && img[(w - 1) * 512..] == b
  {
    var ops := [WriteOp(0, m), WriteOp(512, p), WriteOp(1024, t), WriteOp((w - 33) * 512, t), WriteOp((w - 1) * 512, b)];
    ApplyFive([], ops);
    FrontSectors(m, p, t);
    var c := m + p + t;
    BackSectors(c, t, b, w);
    var img := Apply([], ops);
    assert img[..512] == c[..512] == m;
    assert img[512..1024] == c[512..1024] == p;
    assert img[1024..17408] == c[1024..] == t;
  }

  /**
   * Where the image puts each structure, with 512-byte sectors on a disk of
   * at least 67 sectors (the 67 of `padding`): the MBR in sector 0, the
   * primary header in sector 1 and its entry array from sector 2, the backup
   * array in the 32 sectors below the last one and the backup header in the
   * last sector; the file is write_size sectors long.
   */
  lemma ImageLayout(l: Layout, espSize: u64, dataSize: u64, g: ImageGuids)
    requires 67 <= l.writeSize < 0x40_0000_0000_0000
    ensures var w := l.writeSize;
      var table := ImageTable(l, espSize, dataSize, 512, g);
      var primary := SealedPrimary(w, 512, g.disk, TableCrc(table));
      var backup := SealedBackup(primary, 512, TableCrc(table));
      var img := Image(l, espSize, dataSize, g);
      && |img| == w * 512
      && img[..512] == MbrBytes(w)
      && img[512..1024] == EncodeHeader(primary)
      && img[1024..17408] == EncodeTable(table)
      && img[(w - 33) * 512..(w - 1) * 512] == EncodeTable(table)
      && img[(w - 1) * 512..] == EncodeHeader(backup)
  {
    var w := l.writeSize;
    var table := ImageTable(l, espSize, dataSize, 512, g);
    var primary := SealedPrimary(w, 512, g.disk, TableCrc(table));
    var backup := SealedBackup(primary, 512, TableCrc(table));
    HeadersMirror(w, 512, g.disk, table);
    assert primary.selfLBA == 1 && primary.partEntryArrLBA == 2;
    assert backup.selfLBA == w - 1 && backup.partEntryArrLBA == w - 33;
    var m, t := MbrBytes(w), EncodeTable(table);
    CopyWritesAt(m, primary, t, w);
    var ops := [WriteOp(0, m), WriteOp(512, EncodeHeader(primary)), WriteOp(1024, t),
                WriteOp((w - 33) * 512, t), WriteOp((w - 1) * 512, EncodeHeader(backup))];
    assert GptWrites(l, espSize, dataSize, 512, g) == CopyWrites(primary, t, 512);
    assert Image(l, espSize, dataSize, g) == Apply([], ops);
    ImageSectors(m, EncodeHeader(primary), t, EncodeHeader(backup), w);
  }

  /**
   * The MBR write and the four GPT writes with 512-byte sectors, for
   * headers placed as writeGpts places them.
   */
  lemma CopyWritesAt(m: seq<byte>, primary: GptHeader, t: seq<byte>, w: nat)
    requires primary.selfLBA == 1 && primary.partEntryArrLBA == 2 && 67 <= w < 0x40_0000_0000_0000
    requires var backup := SealedBackup(primary, 512, Crc32.Crc32(Octets(t)));
      backup.selfLBA == w - 1 && backup.partEntryArrLBA == w - 33
    ensures var backup := SealedBackup(primary, 512, Crc32.Crc32(Octets(t)));
      [WriteOp(0, m)] + CopyWrites(primary, t, 512)
        == [WriteOp(0, m), WriteOp(512, EncodeHeader(primary)), WriteOp(1024, t),
            WriteOp((w - 33) * 512, t), WriteOp((w - 1) * 512, EncodeHeader(backup))]
  {
    var backup := SealedBackup(primary, 512, Crc32.Crc32(Octets(t)));
    assert EncodeHeader(primary)[..512] == EncodeHeader(primary);
    assert EncodeHeader(backup)[..512] == EncodeHeader(backup);
  }

  /**
   * The first sector of the image is the protective MBR: boot signature
   * 0x55 0xAA and, at offset 446, a 0xEE record from LBA 1 over the rest of
   * the disk (capped at 0xFFFFFFFF sectors).
   */
  lemma ImageMbr(l: Layout, espSize: u64, dataSize: u64, g: ImageGuids)
    requires 67 <= l.writeSize < 0x40_0000_0000_0000
    ensures |Image(l, espSize, dataSize, g)| == l.writeSize * 512
    ensures var img := Image(l, espSize, dataSize, g);
      && img[510] == 0x55 && img[511] == 0xAA
      && img[446..462] == ProtectiveRecordBytes(Min(l.writeSize - 1, 0xFFFF_FFFF))
      && img[450] == 0xEE
  {
    ImageLayout(l, espSize, dataSize, g);
    MbrSector(Image(l, espSize, dataSize, g), l.writeSize);
  }

  /**
   * With the default sizes (512-byte sectors, a 33 MiB ESP and 1 MiB of
   * data), whatever part of its padding sector writeMbr managed to write,
   * a run in which every call succeeds leaves a disk of 73795 sectors that
   * a GPT reader accepts.
   */
  lemma DefaultImage(g: ImageGuids, pad: nat)
    requires pad <= 512
    ensures var img := Apply([], MainWrites(PlanLayout(512, 33 * 1024 * 1024, 1 * 1024 * 1024),
                                            33 * 1024 * 1024, 1 * 1024 * 1024, 512, g, pad));
      |img| == 73795 * 512 && IsGptDisk(img)
  {
    var l := PlanLayout(512, 33 * 1024 * 1024, 1 * 1024 * 1024);
    DefaultLayout();
    PaddingCovered(l, 33 * 1024 * 1024, 1 * 1024 * 1024, g, pad);
    ImageMbr(l, 33 * 1024 * 1024, 1 * 1024 * 1024, g);
    ImageIsGpt(l, 33 * 1024 * 1024, 1 * 1024 * 1024, g);
  }

  /** Any bytes that start with the MBR sector writeMbr builds for a disk of `w` >= 1 sectors. */
  lemma MbrSector(s: seq<byte>, w: u64)
    requires |s| >= 512 && s[..512] == MbrBytes(w) && w >= 1
    ensures s[510] == 0x55 && s[511] == 0xAA
    ensures s[446..462] == ProtectiveRecordBytes(Min(w - 1, 0xFFFF_FFFF))
    ensures s[450] == 0xEE
  {
    ProtectiveMbrBytes(MbrSizeInLBA(w));
    ProtectiveSize(w);
    assert s[446..462] == s[..512][446..462];
    assert s[450] == s[446..462][4];
  }

  /** The image is a GPT disk as a reader checks one. */
  lemma ImageIsGpt(l: Layout, espSize: u64, dataSize: u64, g: ImageGuids)
    requires 67 <= l.writeSize < 0x40_0000_0000_0000
    ensures IsGptDisk(Image(l, espSize, dataSize, g))
  {
    var w := l.writeSize;
    var table := ImageTable(l, espSize, dataSize, 512, g);
    var p := SealedPrimary(w, 512, g.disk, TableCrc(table));
    var b := SealedBackup(p, 512, TableCrc(table));
    ImageLayout(l, espSize, dataSize, g);
    ImageMbr(l, espSize, dataSize, g);
    HeadersMirror(w, 512, g.disk, table);
    assert p.signature == EFI_PART && p.numPartEntries == 128 && p.sizePartEntry == 128;
    assert p.altLBA == w - 1;
    assert b.partEntryArrLBA == w - 33;
    LaidOutIsGpt(Image(l, espSize, dataSize, g), w, p, b, EncodeTable(table));
  }

  /**
   * With 512-byte sectors on a disk of at least 67 sectors, a run of `main`
   * abandoned part-way leaves a file shorter than the image of a complete
   * run: only the backup header, written last, reaches the end of the disk.
   */
  lemma AbandonedRunIsShort(l: Layout, espSize: u64, dataSize: u64, g: ImageGuids, pad: nat, c: seq<byte>)
    requires 67 <= l.writeSize < 0x40_0000_0000_0000 && pad <= 512
    requires Abandoned([], MainWrites(l, espSize, dataSize, 512, g, pad), c)
    ensures |Apply([], MainWrites(l, espSize, dataSize, 512, g, pad))| == l.writeSize * 512
    ensures |c| < l.writeSize * 512
  {
    var w := l.writeSize;
    var table := ImageTable(l, espSize, dataSize, 512, g);
    var primary := SealedPrimary(w, 512, g.disk, TableCrc(table));
    var backup := SealedBackup(primary, 512, TableCrc(table));
    MainWritesAt(l, espSize, dataSize, g, pad, table, primary, backup);
    SixWritesShort(MbrBytes(w), Zeros(pad), EncodeHeader(primary), EncodeTable(table), EncodeHeader(backup), w, c);
    PaddingCovered(l, espSize, dataSize, g, pad);
    ImageLayout(l, espSize, dataSize, g);
  }

  /** Only the last of the six writes reaches sector w, so stopping inside any of them leaves less. */
  lemma SixWritesShort(m: seq<byte>, z: seq<byte>, p: seq<byte>, t: seq<byte>, b: seq<byte>, w: nat, c: seq<byte>)
    requires |m| == 512 && |z| <= 512 && |p| == 512 && |t| == GPT_TABLE_SIZE && |b| == 512 && w >= 67
    requires Abandoned([], [WriteOp(0, m), WriteOp(512, z), WriteOp(512, p), WriteOp(1024, t),
                            WriteOp((w - 33) * 512, t), WriteOp((w - 1) * 512, b)], c)
    ensures |c| < w * 512
  {
    var ops := [WriteOp(0, m), WriteOp(512, z), WriteOp(512, p), WriteOp(1024, t),
                WriteOp((w - 33) * 512, t), WriteOp((w - 1) * 512, b)];
    AbandonedShort([], ops, c, w * 512);
  }

  /**
   * The six writes of `main` with 512-byte sectors: the MBR, its padding,
   * the primary header and array, the backup array and the backup header.
   */
  lemma MainWritesAt(l: Layout, espSize: u64, dataSize: u64, g: ImageGuids, pad: nat,
                     table: Table, primary: GptHeader, backup: GptHeader)
    requires 67 <= l.writeSize < 0x40_0000_0000_0000
    requires table == ImageTable(l, espSize, dataSize, 512, g)
    requires primary == SealedPrimary(l.writeSize, 512, g.disk, TableCrc(table))
    requires backup == SealedBackup(primary, 512, TableCrc(table))
    ensures MainWrites(l, espSize, dataSize, 512, g, pad)
      == [WriteOp(0, MbrBytes(l.writeSize)), WriteOp(512, Zeros(pad)), WriteOp(512, EncodeHeader(primary)),
          WriteOp(1024, EncodeTable(table)), WriteOp((l.writeSize - 33) * 512, EncodeTable(table)),
          WriteOp((l.writeSize - 1) * 512, EncodeHeader(backup))]
  {
    var w := l.writeSize;
    HeadersMirror(w, 512, g.disk, table);
    assert primary.selfLBA == 1 && primary.partEntryArrLBA == 2;
    assert backup.selfLBA == w - 1 && backup.partEntryArrLBA == w - 33;
    var m, t := MbrBytes(w), EncodeTable(table);
    assert TableCrc(table) == Crc32.Crc32(Octets(t));
    CopyWritesAt(m, primary, t, w);
    assert GptWrites(l, espSize, dataSize, 512, g) == CopyWrites(primary, t, 512);
    SixWrites(MbrWrites(w, pad), GptWrites(l, espSize, dataSize, 512, g),
              m, Zeros(pad), EncodeHeader(primary), t, EncodeHeader(backup), w);
  }

  /** The MBR's two writes followed by the four GPT writes, as one list. */
  lemma SixWrites(front: seq<WriteOp>, gpt: seq<WriteOp>, m: seq<byte>, z: seq<byte>,
                  p: seq<byte>, t: seq<byte>, b: seq<byte>, w: nat)
    requires w >= 33
    requires front == [WriteOp(0, m), WriteOp(512, z)]
    requires [WriteOp(0, m)] + gpt
      == [WriteOp(0, m), WriteOp(512, p), WriteOp(1024, t), WriteOp((w - 33) * 512, t), WriteOp((w - 1) * 512, b)]
    ensures front + gpt
      == [WriteOp(0, m), WriteOp(512, z), WriteOp(512, p), WriteOp(1024, t), WriteOp((w - 33) * 512, t),
          WriteOp((w - 1) * 512, b)]
  {
    var five := [WriteOp(0, m)] + gpt;
    assert gpt == five[1..];
  }

  /**
   * Bytes laid out as the image lays out its sectors, with headers that
   * point where they are stored and carry the array's CRC, form a GPT disk.
   */
  lemma LaidOutIsGpt(img: seq<byte>, w: nat, p: GptHeader, b: GptHeader, t: seq<byte>)
    requires 67 <= w && |img| == w * 512 && |t| == GPT_TABLE_SIZE
    requires img[510] == 0x55 && img[511] == 0xAA && img[450] == 0xEE
    requires img[512..1024] == EncodeHeader(p) && img[1024..17408] == t
    requires img[(w - 33) * 512..(w - 1) * 512] == t && img[(w - 1) * 512..] == EncodeHeader(b)
    requires p.signature == EFI_PART && HeaderBytesOk(EncodeHeader(p))
    requires b == p.(selfLBA := b.selfLBA, altLBA := b.altLBA, partEntryArrLBA := b.partEntryArrLBA,
                     headerCRC32 := b.headerCRC32)
    requires HeaderBytesOk(EncodeHeader(b))
    requires p.selfLBA == 1 && p.altLBA == w - 1 && p.partEntryArrLBA == 2
    requires b.selfLBA == w - 1 && b.altLBA == 1 && b.partEntryArrLBA == w - 33
    requires p.numPartEntries == 128 && p.sizePartEntry == 128
    requires p.partEntryArrCRC32 == Crc32.Crc32(Octets(t))
    ensures IsGptDisk(img)
  {
    DivExact(w, 512);
    assert |img| / 512 - 1 == w - 1;
    PrimaryStored(img, w, p, t);
    assert (w - 1) * 512 + 512 == |img| && (w - 1) * 512 - GPT_TABLE_SIZE == (w - 33) * 512;
    BackupStored(img, w - 1, b, t);
  }

  /** The primary header in sector 1, its array in the 32 sectors after it. */
  lemma PrimaryStored(img: seq<byte>, w: nat, p: GptHeader, t: seq<byte>)
    requires 67 <= w && |img| == w * 512 && |t| == GPT_TABLE_SIZE
    requires img[512..1024] == EncodeHeader(p) && img[1024..17408] == t
    requires p.signature == EFI_PART && HeaderBytesOk(EncodeHeader(p))
    requires p.selfLBA == 1 && p.altLBA == w - 1 && p.partEntryArrLBA == 2
    requires p.numPartEntries == 128 && p.sizePartEntry == 128
    requires p.partEntryArrCRC32 == Crc32.Crc32(Octets(t))
    ensures HeaderAt(img, 1, w - 1)
  {
    assert EntryArrayBytes(p) == GPT_TABLE_SIZE;
    HeaderStoredAt(img, 1, w - 1, p);
  }

  /** The backup header in the last sector `last`, its array in the 32 sectors before it. */
  lemma BackupStored(img: seq<byte>, last: nat, b: GptHeader, t: seq<byte>)
    requires |t| == GPT_TABLE_SIZE && 32 <= last && last * 512 + 512 == |img|
    requires img[last * 512 - GPT_TABLE_SIZE..last * 512] == t && img[last * 512..] == EncodeHeader(b)
    requires b.signature == EFI_PART && HeaderBytesOk(EncodeHeader(b))
    requires b.selfLBA == last && b.altLBA == 1 && b.partEntryArrLBA == last - 32
    requires b.numPartEntries == 128 && b.sizePartEntry == 128
    requires b.partEntryArrCRC32 == Crc32.Crc32(Octets(t))
    ensures HeaderAt(img, last, 1)
  {
    assert EntryArrayBytes(b) == GPT_TABLE_SIZE;
    assert b.partEntryArrLBA * 512 == last * 512 - GPT_TABLE_SIZE;
    assert img[last * 512..last * 512 + 512] == EncodeHeader(b);
    HeaderStoredAt(img, last, 1, b);
  }

  /** A write covered by the first of a sequence of writes makes no difference to the result. */
  lemma {:induction false} ApplyCovered(c: seq<byte>, off: nat, d: seq<byte>, ops: seq<WriteOp>)
    requires |ops| > 0 && ops[0].offset <= off && off + |d| <= ops[0].offset + |ops[0].data|
    requires ops[0].offset <= |c| && |ops[0].data| > 0
    ensures Apply(Overwrite(c, off, d), ops) == Apply(c, ops)
  {
    if |ops| == 1 {
      OverwriteCovers(c, off, d, ops[0].offset, ops[0].data);
      assert ops[..0] == [];
    } else {
      ApplyCovered(c, off, d, ops[..|ops| - 1]);
    }
  }

  /** Setting the CRC of a header whose CRC field is zero to the CRC of its first 92 bytes seals it. */
  lemma SealOfZero(h: GptHeader, c: bv32)
    requires h.headerCRC32 == 0 && c == Crc32.Crc32(Octets(EncodeHeader(h)[..92]))
    ensures h.(headerCRC32 := c) == Seal(h)
  {
    assert h.(headerCRC32 := 0) == h;
  }

  /** The primary header writeGpts builds, once both CRCs are in, is the sealed primary. */
  lemma PrimaryIsSealed(writeSize: u64, lbaSize: u64, diskGuid: Guid, tableCrc: bv32, h: GptHeader, c: bv32)
    requires lbaSize > 0
    requires h == PrimaryHeader(writeSize, lbaSize, diskGuid).(partEntryArrCRC32 := tableCrc).(headerCRC32 := 0)
    requires c == Crc32.Crc32(Octets(EncodeHeader(h)[..92]))
    ensures h.(headerCRC32 := c) == SealedPrimary(writeSize, lbaSize, diskGuid, tableCrc)
  {
    assert h == PrimaryHeader(writeSize, lbaSize, diskGuid).(partEntryArrCRC32 := tableCrc);
    SealOfZero(h, c);
  }

  /** Likewise the backup header, built from the sealed primary. */
  lemma BackupIsSealed(primary: GptHeader, lbaSize: u64, tableCrc: bv32, h: GptHeader, c: bv32)
    requires lbaSize > 0
    requires h == Backup(primary, lbaSize).(partEntryArrCRC32 := tableCrc).(headerCRC32 := 0)
    requires c == Crc32.Crc32(Octets(EncodeHeader(h)[..92]))
    ensures h.(headerCRC32 := c) == SealedBackup(primary, lbaSize, tableCrc)
  {
    var b := Backup(primary, lbaSize).(partEntryArrCRC32 := tableCrc);
    assert Seal(b) == Seal(h) by {
      assert b.(headerCRC32 := 0) == h.(headerCRC32 := 0);
    }
    SealOfZero(h, c);
  }

  class ImageTool {
    /** lba_size, esp_size and data_size, fixed when the tool is built. */
    const lbaSize: u64
    const espSize: u64
    const dataSize: u64
    /**
     * write_size, align_lba, esp_lba and data_lba: assigned once, by the
     * layout block of `main`, before anything is written.
     */
    const writeSize: u64
    const alignLba: u64
    const espLba: u64
    const dataLba: u64
    /** crc_table and crc_table_init. */
    const crc: Crc32.Crc32Table

    ghost predicate Valid()
      reads crc, crc.table
    {
      crc.Valid()
    }

    function Layout(): Lba.Layout
    {
      Lba.Layout(writeSize, alignLba, espLba, dataLba)
    }

    /**
     * The globals with the configured sizes (512, 33 MiB and 1 MiB unless
     * overridden), once the layout block of `main` has run; the CRC table
     * is not built yet. The layout block reads only the three sizes and
     * writes only the four layout globals, so running it here rather than
     * after the argument check changes no outcome.
     */
    constructor (lbaSize: u64, espSize: u64, dataSize: u64)
      requires 0 < lbaSize <= ALIGNMENT
      ensures this.lbaSize == lbaSize && this.espSize == espSize && this.dataSize == dataSize
      ensures Layout() == PlanLayout(lbaSize, espSize, dataSize)
      ensures Valid() && !crc.init && fresh(crc) && fresh(crc.table)
    {
      this.lbaSize, this.espSize, this.dataSize := lbaSize, espSize, dataSize;
      var padding := Padding(lbaSize);
      var imgSize: u32 := Trunc32(Trunc64(dataSize + espSize + padding));
      assert imgSize == ImageSize(lbaSize, espSize, dataSize);
      var size := BytesToLBAs(imgSize, lbaSize);
      AlignLbaBound(lbaSize);
      var align: u64 := ALIGNMENT / lbaSize;
      var esp := align;
      var data := NextAlignedLBA(Trunc64(esp + BytesToLBAs(Trunc32(espSize), lbaSize)), align);
      assert Lba.Layout(size, align, esp, data) == PlanLayout(lbaSize, espSize, dataSize);
      writeSize, alignLba, espLba, dataLba := size, align, esp, data;
      crc := new Crc32.Crc32Table();
    }

    /**
     * padOutZeroes: lba_size zero bytes at the position, in chunks of at
     * most 512; a short write ends it silently, so some prefix of them,
     * `written` bytes long, is written.
     */
    method PadOutZeroes(f: File) returns (ghost written: nat)
      modifies f
      ensures written <= lbaSize
      ensures f.contents == Overwrite(old(f.contents), old(f.pos), Zeros(written)) && f.pos == old(f.pos) + written
    {
      ghost var c0, p0 := f.contents, f.pos;
      var remaining: int := lbaSize;
      written := 0;
      assert Zeros(0) == [];
      while remaining > 0
        invariant 0 <= remaining && written + remaining == lbaSize
        invariant f.contents == Overwrite(c0, p0, Zeros(written)) && f.pos == p0 + written
      {
        var chunk := if remaining > 512 then 512 else remaining;
        var n := f.Write(Zeros(chunk));
        MoreZeros(c0, p0, written, chunk, n);
        written := written + n;
        if n != chunk {
          break;
        }
        remaining := remaining - chunk;
      }
    }

    /**
     * writeMbr: the protective MBR at the position, then padOutZeroes. Fails
     * only when the MBR itself is cut short. `written` counts the bytes of
     * the padding written, or those of the MBR when that write failed.
     */
    method WriteMbr(f: File) returns (ok: bool, ghost written: nat)
      modifies f
      ensures ok ==> (written <= lbaSize
        && f.contents == Overwrite(Overwrite(old(f.contents), old(f.pos), MbrBytes(writeSize)), old(f.pos) + 512, Zeros(written)))
      ensures !ok ==> (written < 512
        && f.contents == Overwrite(old(f.contents), old(f.pos), MbrBytes(writeSize)[..written]))
      ensures f.pos == old(f.pos) + (if ok then 512 else 0) + written
    {
      var wSize: u32 := Trunc32(writeSize - 1);
      if writeSize > 0xFFFF_FFFF {
        wSize := 0xFFFF_FFFF;
      }
      assert wSize == MbrSizeInLBA(writeSize);
      var mbr := ProtectiveMbr(wSize);
      var n := f.Write(EncodeMbr(mbr));
      if n != 512 {
        return false, n;
      }
      written := PadOutZeroes(f);
      ok := true;
    }

    /**
     * One `fseek(img, offset, SEEK_SET)` and `fwrite(data, 1, |data|, img)`
     * pair of writeGpts: on success `data` is at `offset`; a failed seek
     * writes nothing and leaves the position, and a short write stores some
     * prefix of `data` and stops inside its range.
     */
    method PutAt(f: File, offset: u64, data: seq<byte>) returns (ok: bool)
      modifies f
      ensures ok ==> f.contents == Overwrite(old(f.contents), offset, data) && f.pos == offset + |data|
      ensures !ok ==> PartialWrite(old(f.contents), offset, data, f.contents)
                      || (|data| == 0 && f.contents == old(f.contents))
      ensures !ok ==> f.pos == old(f.pos) || offset <= f.pos < offset + |data|
    {
      ok := f.Seek(offset);
      if !ok {
        if |data| > 0 {
          assert f.contents == Overwrite(old(f.contents), offset, data[..0]);
        }
        return;
      }
      var n := f.Write(data);
      if n != |data| {
        ok := false;
        return;
      }
      assert data[..n] == data;
    }

    /**
     * writeGpts, with the generator and the three readings of the clock at
     * the getGuid calls as inputs: it builds the table and the primary
     * header, writes them, builds the backup header and writes the backup
     * copy. On success the file holds the four GPT writes on top of what it
     * held; on failure, some prefix of them.
     */
    method WriteGpts(f: File, rng: (nat, nat) -> nat, clock: seq<nat>) returns (ok: bool)
      requires Valid() && 0 < lbaSize <= 512 && |clock| == 3
      modifies f, crc, crc.table
      ensures Valid() && crc.init && crc.table == old(crc.table)
      ensures ok ==> f.contents == Apply(old(f.contents), GptWrites(Layout(), espSize, dataSize, lbaSize, DrawnGuids(rng, clock)))
      ensures !ok ==> Abandoned(old(f.contents), GptWrites(Layout(), espSize, dataSize, lbaSize, DrawnGuids(rng, clock)), f.contents)
    {
      ghost var g := DrawnGuids(rng, clock);
      var primary, tableBytes := BuildPrimary(rng, clock);
      GptWritesSplit(Layout(), espSize, dataSize, lbaSize, g, primary, tableBytes);
      ok := WriteCopies(f, primary, tableBytes);
    }

    /**
     * The rest of writeGpts once the primary header is sealed (so the CRC
     * table is built): the primary copy, then the backup header built from
     * it, then the backup copy; the first failing call abandons the
     * remaining writes.
     */
    method WriteCopies(f: File, primary: GptHeader, tableBytes: seq<byte>) returns (ok: bool)
      requires Valid() && crc.init && 0 < lbaSize <= 512 && |tableBytes| == GPT_TABLE_SIZE
      modifies f, crc, crc.table
      ensures Valid() && crc.init && crc.table == old(crc.table)
      ensures ok ==> f.contents == Apply(old(f.contents), CopyWrites(primary, tableBytes, lbaSize))
      ensures !ok ==> Abandoned(old(f.contents), CopyWrites(primary, tableBytes, lbaSize), f.contents)
    {
      ghost var c0 := f.contents;
      ghost var front := FrontWrites(primary, tableBytes, lbaSize);
      ghost var back := BackWrites(SealedBackup(primary, lbaSize, Crc32.Crc32(Octets(tableBytes))), tableBytes, lbaSize);
      ok := WritePrimary(f, primary, tableBytes);
      if !ok {
        AbandonedPrefix(c0, front, back, f.contents);
        return;
      }
      var secondary := BuildBackup(primary, tableBytes);
      ok := WriteBackup(f, secondary, tableBytes);
      if !ok {
        AbandonedAfter(c0, front, back, f.contents);
        return;
      }
      ApplyConcat(c0, front, back);
    }

    /**
     * The first part of writeGpts: three GUIDs, the primary header and the
     * table, the table's CRC in the header and then the header's own.
     */
    method BuildPrimary(rng: (nat, nat) -> nat, clock: seq<nat>) returns (primary: GptHeader, tableBytes: seq<byte>)
      requires Valid() && 0 < lbaSize <= 512 && |clock| == 3
      modifies crc, crc.table
      ensures Valid() && crc.init && crc.table == old(crc.table)
      ensures tableBytes == EncodeTable(ImageTable(Layout(), espSize, dataSize, lbaSize, DrawnGuids(rng, clock)))
      ensures primary == SealedPrimary(Layout().writeSize, lbaSize, DrawnGuids(rng, clock).disk,
                                       TableCrc(ImageTable(Layout(), espSize, dataSize, lbaSize, DrawnGuids(rng, clock))))
    {
      var diskGuid := GetGuid(rng, clock[0]);
      var espGuid := GetGuid(rng, clock[1]);
      var dataGuid := GetGuid(rng, clock[2]);

      primary := PrimaryHeader(writeSize, lbaSize, diskGuid);
      var table := PartitionTable(espGuid, dataGuid, espLba, dataLba, espSize, dataSize, lbaSize);
      tableBytes := EncodeTable(table);
      var tableCrc := crc.Calc(Octets(tableBytes));
      primary := primary.(partEntryArrCRC32 := tableCrc);
      primary := primary.(headerCRC32 := 0);
      var headerCrc := crc.Calc(Octets(EncodeHeader(primary)[..HEADER_SIZE]));
      PrimaryIsSealed(writeSize, lbaSize, diskGuid, tableCrc, primary, headerCrc);
      primary := primary.(headerCRC32 := headerCrc);
    }

    /** The primary header, then the table, each after its seek. */
    method WritePrimary(f: File, primary: GptHeader, tableBytes: seq<byte>) returns (ok: bool)
      requires 0 < lbaSize <= 512 && |tableBytes| == GPT_TABLE_SIZE
      modifies f
      ensures ok ==> f.contents == Apply(old(f.contents), FrontWrites(primary, tableBytes, lbaSize))
      ensures !ok ==> Abandoned(old(f.contents), FrontWrites(primary, tableBytes, lbaSize), f.contents)
    {
      ghost var c0 := f.contents;
      ghost var ops := FrontWrites(primary, tableBytes, lbaSize);
      assert ops[..0] == [];
      ok := PutAt(f, Trunc64(primary.selfLBA * lbaSize), EncodeHeader(primary)[..lbaSize]);
      if !ok { AbandonAt(c0, ops, 0, f.contents); return; }
      ApplyStep(c0, ops, 0);
      ok := PutAt(f, Trunc64(primary.partEntryArrLBA * lbaSize), tableBytes);
      if !ok { AbandonAt(c0, ops, 1, f.contents); return; }
      ApplyStep(c0, ops, 1);
      assert ops[..2] == ops;
    }

    /**
     * `secondary = primary` with the self and alternate LBAs swapped and the
     * array just below the backup header, then both CRCs recomputed.
     */
    method BuildBackup(primary: GptHeader, tableBytes: seq<byte>) returns (secondary: GptHeader)
      requires Valid() && 0 < lbaSize && |tableBytes| == GPT_TABLE_SIZE
      modifies crc, crc.table
      ensures Valid() && crc.init && crc.table == old(crc.table)
      ensures secondary == SealedBackup(primary, lbaSize, Crc32.Crc32(Octets(tableBytes)))
    {
      secondary := primary.(selfLBA := primary.altLBA, altLBA := primary.selfLBA,
                            partEntryArrLBA := Trunc64(primary.altLBA - GPT_TABLE_SIZE / lbaSize));
      var tableCrc := crc.Calc(Octets(tableBytes));
      secondary := secondary.(partEntryArrCRC32 := tableCrc);
      secondary := secondary.(headerCRC32 := 0);
      var headerCrc := crc.Calc(Octets(EncodeHeader(secondary)[..HEADER_SIZE]));
      BackupIsSealed(primary, lbaSize, tableCrc, secondary, headerCrc);
      secondary := secondary.(headerCRC32 := headerCrc);
    }

    /** The table, then the backup header, each after its seek. */
    method WriteBackup(f: File, secondary: GptHeader, tableBytes: seq<byte>) returns (ok: bool)
      requires 0 < lbaSize <= 512 && |tableBytes| == GPT_TABLE_SIZE
      modifies f
      ensures ok ==> f.contents == Apply(old(f.contents), BackWrites(secondary, tableBytes, lbaSize))
      ensures !ok ==> Abandoned(old(f.contents), BackWrites(secondary, tableBytes, lbaSize), f.contents)
    {
      ghost var c0 := f.contents;
      ghost var ops := BackWrites(secondary, tableBytes, lbaSize);
      assert ops[..0] == [];
      ok := PutAt(f, Trunc64(secondary.partEntryArrLBA * lbaSize), tableBytes);
      if !ok { AbandonAt(c0, ops, 0, f.contents); return; }
      ApplyStep(c0, ops, 0);
      ok := PutAt(f, Trunc64(secondary.selfLBA * lbaSize), EncodeHeader(secondary)[..lbaSize]);
      if !ok { AbandonAt(c0, ops, 1, f.contents); return; }
      ApplyStep(c0, ops, 1);
      assert ops[..2] == ops;
    }

    /**
     * main, given the argument count, the generator and the three clock
     * readings at the getGuid calls. It returns EXIT_SUCCESS only when the
     * new file holds every write of `main`, and otherwise EXIT_FAILURE with
     * no file (wrong argument count, fopen failed) or with a file in which
     * the writes were abandoned part-way. `pad` is the number of zero bytes
     * padOutZeroes managed to write.
     */
    method Run(argc: nat, rng: (nat, nat) -> nat, clock: seq<nat>) returns (status: int, f: File?, ghost pad: nat)
      requires Valid() && 0 < lbaSize <= 512 && |clock| == 3
      modifies crc, crc.table
      ensures Valid() && crc.table == old(crc.table) && (status == EXIT_SUCCESS ==> crc.init)
      ensures status == EXIT_SUCCESS || status == EXIT_FAILURE
      ensures argc != 2 ==> status == EXIT_FAILURE && f == null
      ensures pad <= lbaSize
      ensures status == EXIT_SUCCESS ==>
        f != null && f.contents == Apply([], MainWrites(Layout(), espSize, dataSize, lbaSize, DrawnGuids(rng, clock), pad))
      ensures status == EXIT_FAILURE && f != null ==>
        Abandoned([], MainWrites(Layout(), espSize, dataSize, lbaSize, DrawnGuids(rng, clock), pad), f.contents)
      ensures status == EXIT_FAILURE && f != null && lbaSize == 512 && 67 <= writeSize < 0x40_0000_0000_0000 ==>
        |f.contents| < |Apply([], MainWrites(Layout(), espSize, dataSize, lbaSize, DrawnGuids(rng, clock), pad))|
    {
      pad := 0;
      if argc != 2 {
        return EXIT_FAILURE, null, pad;
      }
      f := Open();
      if f == null {
        return EXIT_FAILURE, null, pad;
      }
      var ok;
      ok, pad := WriteImage(f, rng, clock);
      status := if ok then EXIT_SUCCESS else EXIT_FAILURE;
      if !ok && lbaSize == 512 && 67 <= writeSize < 0x40_0000_0000_0000 {
        AbandonedRunIsShort(Layout(), espSize, dataSize, DrawnGuids(rng, clock), pad, f.contents);
      }
    }

    /** The two writing calls of `main` on the freshly opened file: writeMbr, then writeGpts. */
    method WriteImage(f: File, rng: (nat, nat) -> nat, clock: seq<nat>) returns (ok: bool, ghost pad: nat)
      requires Valid() && 0 < lbaSize <= 512 && |clock| == 3
      requires f.contents == [] && f.pos == 0
      modifies f, crc, crc.table
      ensures Valid() && crc.table == old(crc.table) && (ok ==> crc.init)
      ensures pad <= lbaSize
      ensures ok ==> f.contents == Apply([], MainWrites(Layout(), espSize, dataSize, lbaSize, DrawnGuids(rng, clock), pad))
      ensures !ok ==> Abandoned([], MainWrites(Layout(), espSize, dataSize, lbaSize, DrawnGuids(rng, clock), pad), f.contents)
    {
      ghost var g := DrawnGuids(rng, clock);
      ghost var c0, p0 := f.contents, f.pos;
      ghost var n;
      ok, n := WriteMbr(f);
      if !ok {
        pad := 0;
        MbrCutShort(Layout(), espSize, dataSize, lbaSize, g, n, f.contents);
        return;
      }
      pad := n;
      ghost var c1 := f.contents;
      assert c1 == Overwrite(Overwrite(c0, p0, MbrBytes(writeSize)), p0 + 512, Zeros(pad));
      ok := WriteGpts(f, rng, clock);
      MbrThenGpts(Layout(), espSize, dataSize, lbaSize, g, pad, writeSize, c0, p0, c1, f.contents, ok);
    }
  }
}
