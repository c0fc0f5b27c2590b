// The table-driven CRC-32 of create_img.c (createCRC32Table, calcCRC32):
// reflected polynomial 0xEDB88320, register preset to all ones and the result
// complemented, the CRC that UEFI puts in GPT headers.
module Crc32 {
  import opened Bytes

  const POLY: bv32 := 0xEDB8_8320

  /** One shift of the reflected register: `(c & 1) ? 0xEDB88320 ^ (c >> 1) : c >> 1`. */
  function Round(c: bv32): bv32
  {
    if c & 1 == 1 then POLY ^ (c >> 1) else c >> 1
  }

  /** `k` successive shifts. */
  function Rounds(c: bv32, k: nat): bv32
  {
    if k == 0 then c else Round(Rounds(c, k - 1))
  }

  /** crc_table[n]: the byte value n pushed through the register's eight shifts. */
  function TableEntry(n: bv8): bv32
  {
    Rounds(n as bv32, 8)
  }

  /** The table index calcCRC32 uses for register `c` and input byte `b`: `(c ^ b) & 0xFF`. */
  function Index(c: bv32, b: bv8): bv8
  {
    ((c & 0xFF) as bv8) ^ b
  }

  /** One iteration of calcCRC32's loop. */
  function Step(c: bv32, b: bv8): bv32
  {
    TableEntry(Index(c, b)) ^ (c >> 8)
  }

  /** The register after feeding `data` to a register that starts at `c`. */
  function Feed(c: bv32, data: seq<bv8>): bv32
  {
    if |data| == 0 then c else Step(Feed(c, data[..|data| - 1]), data[|data| - 1])
  }

  /** calcCRC32(data): preset to all ones, feed every byte, complement. */
  function Crc32(data: seq<bv8>): bv32
  {
    Feed(0xFFFF_FFFF, data) ^ 0xFFFF_FFFF
  }

  /** Feeding one more byte of `s` is one more step. */
  lemma FeedPrefix(s: seq<bv8>, n: nat)
    requires n < |s|
    ensures Feed(0xFFFF_FFFF, s[..n + 1]) == Step(Feed(0xFFFF_FFFF, s[..n]), s[n])
  {
    assert s[..n + 1][..n] == s[..n];
  }

  /** The XOR that calcCRC32 computes from a looked-up table entry is one step. */
  lemma StepByEntry(c: bv32, b: bv8, e: bv32)
    requires e == TableEntry(Index(c, b))
    ensures e ^ (c >> 8) == Step(c, b)
  {
  }

  /** The loop counter of createCRC32Table names the same entry as a byte and as a register. */
  lemma IndexOfCounter(n: int)
    requires 0 <= n < 256
    ensures (n as bv8) as int == n && (n as bv8) as bv32 == n as bv32
  {
  }

  /** A byte whose value is `n` is the byte `n as bv8`. */
  lemma SameByte(i: bv8, n: int)
    requires i as int == n
    ensures i == n as bv8
  {
    assert (i as int) as bv8 == i;
  }

  /** The CRC of the empty buffer is 0. */
  lemma EmptyCrc()
    ensures Crc32([]) == 0
  {
  }

  /**
   * If `regs` lists the register after each prefix of `s`, each entry being one
   * step from the one before, then feeding `s[..n]` leaves `regs[n]`.
   */
  lemma {:induction false} FeedChain(s: seq<bv8>, regs: seq<bv32>, n: nat)
    requires |regs| == |s| + 1 && n <= |s| && regs[0] == 0xFFFF_FFFF
    requires forall k :: 0 <= k < |s| ==> Step(regs[k], s[k]) == regs[k + 1]
    ensures Feed(0xFFFF_FFFF, s[..n]) == regs[n]
  {
    if n == 0 {
      assert s[..0] == [];
    } else {
      FeedChain(s, regs, n - 1);
      FeedPrefix(s, n - 1);
    }
  }

  // CheckStep0 to CheckStep8 are the nine register steps of CheckValue
  // below, one per character of "123456789": each gives the table index,
  // the entry at that index (eight reflected shifts of it) and the register
  // that results. They are one worked example, not general properties.

  lemma CheckStep0()
    ensures Step(0xffff_ffff, 0x31) == 0x7c23_1048
  {
    assert Index(0xffff_ffff, 0x31) == 0xce;
    assert Rounds(0xce, 8) == 0x7cdc_efb7;
  }

  lemma CheckStep1()
    ensures Step(0x7c23_1048, 0x32) == 0xb0ac_bb32
  {
    assert Index(0x7c23_1048, 0x32) == 0x7a;
    assert Rounds(0x7a, 8) == 0xb0d0_9822;
  }

  lemma CheckStep2()
    ensures Step(0xb0ac_bb32, 0x33) == 0x77b7_9c2d
  {
    assert Index(0xb0ac_bb32, 0x33) == 0x01;
    assert Rounds(0x01, 8) == 0x7707_3096;
  }

  lemma CheckStep3()
    ensures Step(0x77b7_9c2d, 0x34) == 0x641c_1f5c
  {
    assert Index(0x77b7_9c2d, 0x34) == 0x19;
    assert Rounds(0x19, 8) == 0x646b_a8c0;
  }

  lemma CheckStep4()
    ensures Step(0x641c_1f5c, 0x35) == 0x340a_c5e3
  {
    assert Index(0x641c_1f5c, 0x35) == 0x69;
    assert Rounds(0x69, 8) == 0x346e_d9fc;
  }

  lemma CheckStep5()
    ensures Step(0x340a_c5e3, 0x36) == 0xf68d_2c9e
  {
    assert Index(0x340a_c5e3, 0x36) == 0xd5;
    assert Rounds(0xd5, 8) == 0xf6b9_265b;
  }

  lemma CheckStep6()
    ensures Step(0xf68d_2c9e, 0x37) == 0xaffc_9660
  {
    assert Index(0xf68d_2c9e, 0x37) == 0xa9;
    assert Rounds(0xa9, 8) == 0xaf0a_1b4c;
  }

  lemma CheckStep7()
    ensures Step(0xaffc_9660, 0x38) == 0x651f_2550
  {
    assert Index(0xaffc_9660, 0x38) == 0x58;
    assert Rounds(0x58, 8) == 0x65b0_d9c6;
  }

  lemma CheckStep8()
    ensures Step(0x651f_2550, 0x39) == 0x340b_c6d9
  {
    assert Index(0x651f_2550, 0x39) == 0x69;
    assert Rounds(0x69, 8) == 0x346e_d9fc;
  }

  /** The IEEE 802.3 CRC-32 check value: CRC("123456789") == 0xCBF43926. */
  lemma CheckValue()
    ensures Crc32([0x31, 0x32, 0x33, 0x34, 0x35, 0x36, 0x37, 0x38, 0x39]) == 0xCBF4_3926
  {
    var s: seq<bv8> := [0x31, 0x32, 0x33, 0x34, 0x35, 0x36, 0x37, 0x38, 0x39];
    var regs: seq<bv32> := [0xffff_ffff, 0x7c23_1048, 0xb0ac_bb32, 0x77b7_9c2d, 0x641c_1f5c, 0x340a_c5e3, 0xf68d_2c9e, 0xaffc_9660, 0x651f_2550, 0x340b_c6d9];
    forall k | 0 <= k < |s|
      ensures Step(regs[k], s[k]) == regs[k + 1]
    {
      match k
      case 0 => CheckStep0();
      case 1 => CheckStep1();
      case 2 => CheckStep2();
      case 3 => CheckStep3();
      case 4 => CheckStep4();
      case 5 => CheckStep5();
      case 6 => CheckStep6();
      case 7 => CheckStep7();
      case 8 => CheckStep8();
    }
    FeedChain(s, regs, |s|);
    assert s[..|s|] == s;
  }

  /** The static crc_table together with its crc_table_init flag. */
  class Crc32Table {
    var table: array<bv32>
    var init: bool

    ghost predicate Valid()
      reads this, table
    {
      table.Length == 256 &&
      (init ==> forall i: bv8 :: table[i as int] == TableEntry(i))
    }

    /** The zero-initialised table before its first use. */
    constructor ()
      ensures Valid() && !init && fresh(table)
    {
      table := new bv32[256](_ => 0);
      init := false;
    }

    /** createCRC32Table: fill every entry with eight shifts of its index, then set the flag. */
    method Create()
      requires Valid()
      modifies this, table
      ensures Valid() && init && table == old(table)
    {
      var n := 0;
      while n < 256
        invariant 0 <= n <= 256 && table == old(table) && table.Length == 256
        invariant forall i: bv8 :: i as int < n ==> table[i as int] == TableEntry(i)
      {
        var c: bv32 := n as bv32;
        var k := 0;
        while k < 8
          invariant 0 <= k <= 8
          invariant c == Rounds(n as bv32, k)
        {
          c := if c & 1 == 1 then POLY ^ (c >> 1) else c >> 1;
          k := k + 1;
        }
        IndexOfCounter(n);
        table[n] := c;
        forall i: bv8 | i as int < n + 1
          ensures table[i as int] == TableEntry(i)
        {
          if i as int == n {
            SameByte(i, n);
          }
        }
        n := n + 1;
      }
      init := true;
    }

    /**
     * calcCRC32(buf, len): builds the table on first use only, then folds the
     * buffer through it. A table that was already built is left as it was.
     */
    method Calc(buf: seq<bv8>) returns (crc: bv32)
      requires Valid()
      requires |buf| < 0x8000_0000
      modifies this, table
      ensures Valid() && init && table == old(table)
      ensures old(init) ==> table[..] == old(table[..])
      ensures crc == Crc32(buf)
    {
      if !init {
        Create();
      }
      crc := Fold(buf);
    }

    /** The loop of calcCRC32 over a built table; it reads the table and changes nothing. */
    method Fold(buf: seq<bv8>) returns (crc: bv32)
      requires Valid() && init
      ensures crc == Crc32(buf)
    {
      var c: bv32 := 0xFFFF_FFFF;
      var n := 0;
      while n < |buf|
        invariant 0 <= n <= |buf|
        invariant c == Feed(0xFFFF_FFFF, buf[..n])
      {
        var i := Index(c, buf[n]);
        var e := table[i as int];
        FeedPrefix(buf, n);
        StepByEntry(c, buf[n], e);
        c := e ^ (c >> 8);
        n := n + 1;
      }
      assert buf[..n] == buf;
      crc := c ^ 0xFFFF_FFFF;
    }
  }
}
