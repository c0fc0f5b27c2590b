// Sector (LBA) arithmetic of create_img.c and the layout that `main`
// derives from the size options before anything is written.
module Lba {
  import opened Bytes

  const ALIGNMENT: int := 1048576
  const GPT_TABLE_SIZE: int := 16384

  /**
   * bytesToLBAs: the 32-bit argument is widened to the 64-bit type of
   * lba_size, the sum and quotient are taken modulo 2^64, and the result is
   * narrowed back to 32 bits.
   */
  function BytesToLBAs(bytes: u32, lbaSize: u64): u32
    requires lbaSize > 0
  {
    Trunc32(Trunc64(bytes + (lbaSize - 1)) / lbaSize)
  }

  /** The ceiling quotient, as an arithmetic reference. */
  function CeilDiv(n: nat, d: nat): (q: nat)
    requires d > 0
    ensures q * d >= n && (q - 1) * d < n
  {
    (n + d - 1) / d
  }

  /**
   * Unless lba_size is within 2^32 of 2^64 (so that the 64-bit sum cannot
   * wrap), bytesToLBAs is the ceiling of bytes / lba_size: the least count of
   * sectors whose total size covers `bytes`.
   */
  lemma BytesToLBAsIsCeiling(bytes: u32, lbaSize: u64)
    requires 0 < lbaSize <= TWO_64 - TWO_32
    ensures BytesToLBAs(bytes, lbaSize) == CeilDiv(bytes, lbaSize)
    ensures BytesToLBAs(bytes, lbaSize) * lbaSize >= bytes
    ensures (BytesToLBAs(bytes, lbaSize) - 1) * lbaSize < bytes
  {
    var q := (bytes + (lbaSize - 1)) / lbaSize;
    DivBound(bytes + (lbaSize - 1), lbaSize, bytes);
    assert q <= bytes;
  }

  /** A quotient (n + d - 1) / d is at most n. */
  lemma DivBound(m: nat, d: nat, n: nat)
    requires d > 0 && m == n + d - 1
    ensures m / d <= n
  {
    if n > 0 {
      MulMono(0, n - 1, d - 1);
      assert (n - 1) * (d - 1) == n * d - n - d + 1;
      MonoDiv(m, n * d, d);
      DivExact(n, d);
    }
  }

  lemma MulMono(x: int, y: int, d: nat)
    requires x <= y
    ensures x * d <= y * d
  {
    assert y * d - x * d == (y - x) * d;
  }

  lemma MonoDiv(a: nat, b: nat, d: nat)
    requires d > 0 && a <= b
    ensures a / d <= b / d
  {
    if a / d > b / d {
      assert (b / d + 1) * d == b / d * d + d;
      MulMono(b / d + 1, a / d, d);
    }
  }

  lemma DivExact(k: int, d: int)
    requires d > 0
    ensures (k * d) / d == k && (k * d) % d == 0
  {
    var m := k * d;
    var q, r := m / d, m % d;
    assert m == q * d + r;
    assert (k - q) * d == r;
    if k - q >= 1 {
      MulMono(1, k - q, d);
    } else if k - q <= -1 {
      MulMono(k - q, -1, d);
    }
  }

  /**
   * A byte count that is already a whole number of sectors converts back to
   * that number of sectors, so converting twice changes nothing.
   */
  lemma BytesToLBAsIdempotent(bytes: u32, lbaSize: u64)
    requires 0 < lbaSize <= TWO_64 - TWO_32
    requires BytesToLBAs(bytes, lbaSize) * lbaSize < TWO_32
    ensures BytesToLBAs(BytesToLBAs(bytes, lbaSize) * lbaSize, lbaSize) == BytesToLBAs(bytes, lbaSize)
  {
    var r := BytesToLBAs(bytes, lbaSize);
    BytesToLBAsIsCeiling(bytes, lbaSize);
    BytesToLBAsIsCeiling(r * lbaSize, lbaSize);
    ExactCeil(r, lbaSize);
  }

  lemma ExactCeil(r: nat, d: nat)
    requires d > 0
    ensures CeilDiv(r * d, d) == r
  {
    var q := CeilDiv(r * d, d);
    if q < r {
      assert (r - 1) * d == r * d - d;
      MulMono(q, r - 1, d);
    } else if q > r {
      MulMono(r, q - 1, d);
    }
  }

  /** getNextAlignedLBA: the lba rounded down to align_lba, plus one unit, modulo 2^64. */
  function NextAlignedLBA(lba: u64, alignLba: u64): u64
    requires alignLba > 0
  {
    Trunc64(lba - lba % alignLba + alignLba)
  }

  /**
   * Unless the sum wraps, getNextAlignedLBA is the least multiple of align_lba
   * strictly above lba; in particular an aligned lba advances one whole unit.
   */
  lemma NextAlignedLBAIsLeastMultipleAbove(lba: u64, alignLba: u64)
    requires alignLba > 0 && lba + alignLba < TWO_64
    ensures NextAlignedLBA(lba, alignLba) % alignLba == 0
    ensures lba < NextAlignedLBA(lba, alignLba) <= lba + alignLba
    ensures lba % alignLba == 0 ==> NextAlignedLBA(lba, alignLba) == lba + alignLba
    ensures forall m: int :: lba < m && m % alignLba == 0 ==> NextAlignedLBA(lba, alignLba) <= m
  {
    var r := lba - lba % alignLba + alignLba;
    var q := lba / alignLba;
    assert lba == q * alignLba + lba % alignLba;
    assert r == (q + 1) * alignLba;
    DivExact(q + 1, alignLba);
    forall m: int | lba < m && m % alignLba == 0
      ensures r <= m
    {
      var k := m / alignLba;
      assert m == k * alignLba;
      if k <= q {
        MulMono(k, q, alignLba);
        assert false;
      } else {
        MulMono(q + 1, k, alignLba);
      }
    }
  }

  /** The four globals that `main` assigns before writing the image. */
  datatype Layout = Layout(writeSize: u64, alignLba: u64, espLba: u64, dataLba: u64)

  /** padding: two alignment units plus 67 sectors, in 64-bit arithmetic. */
  function Padding(lbaSize: u64): u64
  {
    Trunc64(ALIGNMENT * 2 + lbaSize * 67)
  }

  /** img_size: the 64-bit sum of the sizes, narrowed to its uint32_t variable. */
  function ImageSize(lbaSize: u64, espSize: u64, dataSize: u64): u32
  {
    Trunc32(Trunc64(dataSize + espSize + Padding(lbaSize)))
  }

  /**
   * The layout block of `main`. Both `bytesToLBAs` and `getNextAlignedLBA`
   * divide, so lba_size must be non-zero and at most ALIGNMENT.
   */
  function PlanLayout(lbaSize: u64, espSize: u64, dataSize: u64): (l: Layout)
    requires 0 < lbaSize <= ALIGNMENT
    ensures l.alignLba == ALIGNMENT / lbaSize > 0 && l.espLba == l.alignLba
    ensures l.writeSize == BytesToLBAs(ImageSize(lbaSize, espSize, dataSize), lbaSize)
    ensures l.dataLba == NextAlignedLBA(Trunc64(l.espLba + BytesToLBAs(Trunc32(espSize), lbaSize)), l.alignLba)
  {
    var writeSize := BytesToLBAs(ImageSize(lbaSize, espSize, dataSize), lbaSize);
    var alignLba := ALIGNMENT / lbaSize;
    var espLba := alignLba;
    var dataLba := NextAlignedLBA(Trunc64(espLba + BytesToLBAs(Trunc32(espSize), lbaSize)), alignLba);
    Layout(writeSize, alignLba, espLba, dataLba)
  }

  /** align_lba, ALIGNMENT / lba_size, is a positive count of sectors no larger than ALIGNMENT. */
  lemma AlignLbaBound(lbaSize: u64)
    requires 0 < lbaSize <= ALIGNMENT
    ensures 0 < ALIGNMENT / lbaSize <= ALIGNMENT
  {
    MonoDiv(lbaSize, ALIGNMENT, lbaSize);
    DivExact(1, lbaSize);
    var q := ALIGNMENT / lbaSize;
    assert q * lbaSize <= ALIGNMENT;
    MulMono(1, lbaSize, q);
  }

  /** Last sector of a partition that starts at `start` and holds `size` bytes. */
  function PartitionEnd(start: u64, size: u64, lbaSize: u64): u64
    requires lbaSize > 0
  {
    Trunc64(start + BytesToLBAs(Trunc32(size), lbaSize) - 1)
  }

  /** The entry array takes at most GPT_TABLE_SIZE sectors. */
  lemma TableSectors(lbaSize: u64)
    requires lbaSize > 0
    ensures 0 <= GPT_TABLE_SIZE / lbaSize <= GPT_TABLE_SIZE
  {
    var q := GPT_TABLE_SIZE / lbaSize;
    assert q * lbaSize <= GPT_TABLE_SIZE;
    MulMono(1, lbaSize, q);
  }

  /** firstUseLBA: after the MBR, the primary header and the primary entry array. */
  function FirstUsableLBA(lbaSize: u64): u64
    requires lbaSize > 0
  {
    Trunc64(1 + 1 + GPT_TABLE_SIZE / lbaSize)
  }

  /** lastUseLBA: before the backup entry array and the backup header. */
  function LastUsableLBA(writeSize: u64, lbaSize: u64): u64
    requires lbaSize > 0
  {
    Trunc64(writeSize - 1 - GPT_TABLE_SIZE / lbaSize - 1)
  }

  /** With the default sizes the layout is the one the image is known to have. */
  lemma DefaultLayout()
    ensures PlanLayout(512, 33 * 1024 * 1024, 1 * 1024 * 1024) == Layout(73795, 2048, 2048, 71680)
    ensures PartitionEnd(2048, 33 * 1024 * 1024, 512) == 69631
    ensures PartitionEnd(71680, 1 * 1024 * 1024, 512) == 73727
    ensures FirstUsableLBA(512) == 34 && LastUsableLBA(73795, 512) == 73761
  {
    assert ImageSize(512, 33 * 1024 * 1024, 1 * 1024 * 1024) == 37783040;
    assert BytesToLBAs(37783040, 512) == 73795;
    assert BytesToLBAs(33 * 1024 * 1024, 512) == 67584;
    assert BytesToLBAs(1 * 1024 * 1024, 512) == 2048;
    assert NextAlignedLBA(69632, 2048) == 71680;
  }

  /**
   * For 512-byte sectors and any sizes whose sum with the padding fits the
   * 32-bit img_size, both partitions are non-empty when their sizes are,
   * start on an alignment boundary, do not overlap, and lie between the
   * first and last usable LBA.
   */
  lemma LayoutSound(espSize: u64, dataSize: u64)
    requires 0 < espSize && 0 < dataSize
    requires espSize + dataSize + Padding(512) < TWO_32
    ensures var l := PlanLayout(512, espSize, dataSize);
      var espEnd := PartitionEnd(l.espLba, espSize, 512);
      var dataEnd := PartitionEnd(l.dataLba, dataSize, 512);
      && l.espLba % l.alignLba == 0 && l.dataLba % l.alignLba == 0
      && FirstUsableLBA(512) <= l.espLba <= espEnd
      && espEnd < l.dataLba <= dataEnd
      && dataEnd <= LastUsableLBA(l.writeSize, 512)
  {
    var l := PlanLayout(512, espSize, dataSize);
    assert Padding(512) == 2131456;
    var e := BytesToLBAs(espSize, 512);
    var d := BytesToLBAs(dataSize, 512);
    var s := espSize + dataSize;
    BytesToLBAsIsCeiling(espSize, 512);
    BytesToLBAsIsCeiling(dataSize, 512);
    BytesToLBAsIsCeiling(s + 2131456, 512);
    CeilOfSum(espSize, dataSize, e, d, l.writeSize - 4163);
    assert l.alignLba == 2048 && l.espLba == 2048;
    NextAlignedLBAIsLeastMultipleAbove(2048 + e, 2048);
  }

  /** ceil(a/512) + ceil(b/512) <= ceil((a+b)/512) + 1. */
  lemma CeilOfSum(a: nat, b: nat, e: nat, d: nat, w: int)
    requires e * 512 >= a && (e - 1) * 512 < a
    requires d * 512 >= b && (d - 1) * 512 < b
    requires (w + 4163) * 512 >= a + b + 2131456 && (w + 4163 - 1) * 512 < a + b + 2131456
    ensures e + d <= w + 1
  {
  }
}
