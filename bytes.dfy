// Fixed-width unsigned integers of the C sources and their little-endian
// byte encodings (the packed structs are laid out on a little-endian host).
module Bytes {

  type byte = x: int | 0 <= x < 0x100
  type u16 = x: int | 0 <= x < 0x1_0000
  type u32 = x: int | 0 <= x < 0x1_0000_0000
  type u64 = x: int | 0 <= x < 0x1_0000_0000_0000_0000

  const TWO_32: int := 0x1_0000_0000
  const TWO_64: int := 0x1_0000_0000_0000_0000

  /** Conversion of an integer value to uint32_t: reduction modulo 2^32. */
  function Trunc32(x: int): (r: u32)
    ensures 0 <= x < TWO_32 ==> r == x
    ensures (x - r) % TWO_32 == 0
  {
    x % TWO_32
  }

  /** Conversion of an integer value to uint64_t: reduction modulo 2^64. */
  function Trunc64(x: int): (r: u64)
    ensures 0 <= x < TWO_64 ==> r == x
    ensures (x - r) % TWO_64 == 0
  {
    x % TWO_64
  }

  /** Narrowing a uint64_t to uint32_t keeps the low 32 bits. */
  lemma Trunc32OfTrunc64(x: int)
    ensures Trunc32(Trunc64(x)) == Trunc32(x)
  {
    var q, d := x / TWO_64, x / TWO_32;
    var t := x - q * TWO_64;
    assert Trunc64(x) == t;
    assert t == (d - q * TWO_32) * TWO_32 + x % TWO_32;
    ModOfSplit(t, d - q * TWO_32, x % TWO_32);
  }

  /** A value written as a multiple of 2^32 plus a remainder below 2^32 has that remainder. */
  lemma ModOfSplit(y: int, e: int, r: int)
    requires 0 <= r < TWO_32 && y == e * TWO_32 + r
    ensures y % TWO_32 == r
  {
  }

  /** `n` zero bytes. */
  function Zeros(n: nat): (r: seq<byte>)
    ensures |r| == n && forall i :: 0 <= i < n ==> r[i] == 0
  {
    seq(n, _ => 0)
  }

  lemma ZerosAppend(m: nat, n: nat)
    ensures Zeros(m) + Zeros(n) == Zeros(m + n)
  {
  }

  /** The same bytes as bit-vectors, the form the CRC register consumes. */
  function Octets(s: seq<byte>): (r: seq<bv8>)
    ensures |r| == |s|
  {
    seq(|s|, i requires 0 <= i < |s| => s[i] as bv8)
  }

  function Le16(x: u16): (s: seq<byte>)
    ensures |s| == 2
  {
    [x % 0x100, x / 0x100]
  }

  function Le32(x: u32): (s: seq<byte>)
    ensures |s| == 4
  {
    Le16(x % 0x1_0000) + Le16(x / 0x1_0000)
  }

  function Le64(x: u64): (s: seq<byte>)
    ensures |s| == 8
  {
    Le32(x % TWO_32) + Le32(x / TWO_32)
  }

  function ReadLe16(s: seq<byte>): u16
    requires |s| == 2
  {
    s[0] as int + 0x100 * s[1] as int
  }

  function ReadLe32(s: seq<byte>): u32
    requires |s| == 4
  {
    ReadLe16(s[..2]) as int + 0x1_0000 * ReadLe16(s[2..]) as int
  }

  function ReadLe64(s: seq<byte>): u64
    requires |s| == 8
  {
    ReadLe32(s[..4]) as int + TWO_32 * ReadLe32(s[4..]) as int
  }

  lemma Le16RoundTrip(x: u16)
    ensures ReadLe16(Le16(x)) == x
  {
  }

  lemma ReadLe16RoundTrip(s: seq<byte>)
    requires |s| == 2
    ensures Le16(ReadLe16(s)) == s
  {
  }

  lemma {:induction false} Le32RoundTrip(x: u32)
    ensures ReadLe32(Le32(x)) == x
  {
    var s := Le32(x);
    assert s[..2] == Le16(x % 0x1_0000) && s[2..] == Le16(x / 0x1_0000);
    Le16RoundTrip(x % 0x1_0000);
    Le16RoundTrip(x / 0x1_0000);
  }

  lemma {:induction false} ReadLe32RoundTrip(s: seq<byte>)
    requires |s| == 4
    ensures Le32(ReadLe32(s)) == s
  {
    var lo, hi := ReadLe16(s[..2]), ReadLe16(s[2..]);
    assert ReadLe32(s) % 0x1_0000 == lo && ReadLe32(s) / 0x1_0000 == hi;
    ReadLe16RoundTrip(s[..2]);
    ReadLe16RoundTrip(s[2..]);
    assert s == s[..2] + s[2..];
  }

  lemma {:induction false} Le64RoundTrip(x: u64)
    ensures ReadLe64(Le64(x)) == x
  {
    var s := Le64(x);
    assert s[..4] == Le32(x % TWO_32) && s[4..] == Le32(x / TWO_32);
    Le32RoundTrip(x % TWO_32);
    Le32RoundTrip(x / TWO_32);
  }

  /** A two-digit number in base `b` splits back into its digits. */
  lemma DigitSplit(lo: int, hi: int, b: int)
    requires 0 <= lo < b
    ensures (lo + b * hi) % b == lo && (lo + b * hi) / b == hi
  {
    var x := lo + b * hi;
    var q, r := x / b, x % b;
    assert (hi - q) * b == r - lo;
    if hi - q >= 1 {
      MulAtLeast(hi - q, b);
    } else if q - hi >= 1 {
      MulAtLeast(q - hi, b);
    }
  }

  lemma MulAtLeast(k: int, b: int)
    requires k >= 1 && b > 0
    ensures k * b >= b
  {
    assert k * b == (k - 1) * b + b;
  }

  lemma {:induction false} ReadLe64RoundTrip(s: seq<byte>)
    requires |s| == 8
    ensures Le64(ReadLe64(s)) == s
  {
    var lo, hi := ReadLe32(s[..4]), ReadLe32(s[4..]);
    DigitSplit(lo, hi, TWO_32);
    ReadLe32RoundTrip(s[..4]);
    ReadLe32RoundTrip(s[4..]);
    assert s == s[..4] + s[4..];
  }

  /** The encodings are injective: equal bytes mean equal values. */
  lemma Le32Injective(x: u32, y: u32)
    requires Le32(x) == Le32(y)
    ensures x == y
  {
    Le32RoundTrip(x);
    Le32RoundTrip(y);
  }

  lemma Le64Injective(x: u64, y: u64)
    requires Le64(x) == Le64(y)
    ensures x == y
  {
    Le64RoundTrip(x);
    Le64RoundTrip(y);
  }
}
