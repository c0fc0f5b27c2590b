// The packed Guid struct of create_img.c and getGuid, which fills it from
// sixteen pseudo-random bytes and then forces the version and variant bits.
module Guids {
  import opened Bytes

  type Node = s: seq<byte> | |s| == 6 witness [0, 0, 0, 0, 0, 0]

  /** The five fields of a Guid, laid out in this order with no padding. */
  datatype Guid = Guid(lowTime: u32, midTime: u16, highTimeVer: u16,
                       clockSeqHighRes: byte, clockSeqLow: byte, node: Node)

  /** The 16 bytes of a Guid in memory on a little-endian host. */
  function EncodeGuid(g: Guid): (s: seq<byte>)
    ensures |s| == 16
  {
    Le32(g.lowTime) + Le16(g.midTime) + Le16(g.highTimeVer)
      + [g.clockSeqHighRes, g.clockSeqLow] + g.node
  }

  /** The Guid whose memory is the 16 bytes `b`: what `*(uint32_t *) &guidArr[0]` and its siblings read. */
  function DecodeGuid(b: seq<byte>): (g: Guid)
    requires |b| == 16
    ensures EncodeGuid(g) == b
  {
    ReadLe32RoundTrip(b[..4]);
    ReadLe16RoundTrip(b[4..6]);
    ReadLe16RoundTrip(b[6..8]);
    assert b == b[..4] + b[4..6] + b[6..8] + [b[8], b[9]] + b[10..];
    Guid(ReadLe32(b[..4]), ReadLe16(b[4..6]), ReadLe16(b[6..8]), b[8], b[9], b[10..])
  }

  /** Reading back the bytes of a Guid gives that Guid. */
  lemma DecodeEncodeGuid(g: Guid)
    ensures DecodeGuid(EncodeGuid(g)) == g
  {
    var s := EncodeGuid(g);
    assert s[..4] == Le32(g.lowTime) && s[4..6] == Le16(g.midTime) && s[6..8] == Le16(g.highTimeVer);
    assert s[10..] == g.node;
    Le32RoundTrip(g.lowTime);
    Le16RoundTrip(g.midTime);
    Le16RoundTrip(g.highTimeVer);
  }

  /** Encoding is injective, so a Guid is determined by its bytes. */
  lemma EncodeGuidInjective(g: Guid, h: Guid)
    requires EncodeGuid(g) == EncodeGuid(h)
    ensures g == h
  {
    DecodeEncodeGuid(g);
    DecodeEncodeGuid(h);
  }

  /** ESP_GUID: the EFI System Partition type, C12A7328-F81F-11D2-BA4B-00A0C93EC93B. */
  const ESP_GUID: Guid := Guid(0xC12A_7328, 0xF81F, 0x11D2, 0xBA, 0x4B, [0x00, 0xA0, 0xC9, 0x3E, 0xC9, 0x3B])

  /** BASIC_DATA_GUID: the Microsoft Basic Data type, EBD0A0A2-B9E5-4433-87C0-68B6B72699C7. */
  const BASIC_DATA_GUID: Guid := Guid(0xEBD0_A0A2, 0xB9E5, 0x4433, 0x87, 0xC0, [0x68, 0xB6, 0xB7, 0x26, 0x99, 0xC7])

  /** The all-zero Guid of a partition entry that is not in use. */
  const NULL_GUID: Guid := Guid(0, 0, 0, 0, 0, [0, 0, 0, 0, 0, 0])

  /** `x &= ~m` for a single-bit mask `m`. */
  function ClearBit(x: nat, m: nat): nat
    requires m > 0
  {
    if (x / m) % 2 == 1 then x - m else x
  }

  /** `x |= m` for a single-bit mask `m`. */
  function SetBit(x: nat, m: nat): nat
    requires m > 0
  {
    if (x / m) % 2 == 1 then x else x + m
  }

  /** The four assignments to highTimeVer: bits 15..12 become 0100, bits 11..0 are kept. */
  lemma VersionBits(h: u16)
    ensures ClearBit(ClearBit(SetBit(ClearBit(h, 0x8000), 0x4000), 0x2000), 0x1000) == h % 0x1000 + 0x4000
  {
  }

  /**
   * The three assignments to clockSeqHighRes: bits 7..5 become 110, bits 4..0
   * are kept (not the 10x variant of RFC 4122, section 4.1.1).
   */
  lemma VariantBits(c: byte)
    ensures ClearBit(SetBit(SetBit(c, 0x80), 0x40), 0x20) == c % 0x20 + 0xC0
  {
  }

  /** The byte that `rand() % (UINT8_MAX + 1)` stores. */
  function RandomByte(r: nat): byte
  {
    r % 0x100
  }

  lemma Nibble(lo: int, hi: int)
    requires 0 <= lo < 0x100 && 0 <= hi < 0x100
    ensures (lo + 0x100 * hi) % 0x1000 + 0x4000 == lo + 0x100 * (hi % 0x10 + 0x40)
  {
    DigitSplit(lo + 0x100 * (hi % 0x10), hi / 0x10, 0x1000);
  }

  lemma Le16Digits(lo: int, hi: int)
    requires 0 <= lo < 0x100 && 0 <= hi < 0x100
    ensures Le16(lo + 0x100 * hi) == [lo, hi]
  {
    DigitSplit(lo, hi, 0x100);
  }

  /** The bytes `b` with the version nibble of byte 7 and the variant bits of byte 8 forced. */
  function Marked(b: seq<byte>): (m: seq<byte>)
    requires |b| == 16
    ensures |m| == 16
  {
    b[..7] + [b[7] % 0x10 + 0x40, b[8] % 0x20 + 0xC0] + b[9..]
  }

  /** The seven bit assignments of getGuid applied to a GUID's fields. */
  function MarkedGuid(g: Guid): Guid
  {
    g.(highTimeVer := ClearBit(ClearBit(SetBit(ClearBit(g.highTimeVer, 0x8000), 0x4000), 0x2000), 0x1000),
       clockSeqHighRes := ClearBit(SetBit(SetBit(g.clockSeqHighRes, 0x80), 0x40), 0x20))
  }

  /** Forcing the bits in the decoded fields forces them in the bytes. */
  lemma {:induction false} MarkFields(b: seq<byte>)
    requires |b| == 16
    ensures EncodeGuid(MarkedGuid(DecodeGuid(b))) == Marked(b)
  {
    var g := DecodeGuid(b);
    var h := g.highTimeVer;
    VersionBits(h);
    VariantBits(g.clockSeqHighRes);
    var lo, hi: int := b[6], b[7];
    assert h == lo + 0x100 * hi;
    var h' := h % 0x1000 + 0x4000;
    Nibble(b[6], b[7]);
    Le16Digits(b[6], b[7] % 0x10 + 0x40);
    var g' := g.(highTimeVer := h', clockSeqHighRes := b[8] % 0x20 + 0xC0);
    assert EncodeGuid(g)[..6] == b[..6] && EncodeGuid(g)[9..] == b[9..];
    assert EncodeGuid(g')[..6] == b[..6] && EncodeGuid(g')[9..] == b[9..];
    assert EncodeGuid(g')[6..9] == [b[6], b[7] % 0x10 + 0x40, b[8] % 0x20 + 0xC0];
    assert EncodeGuid(g') == EncodeGuid(g')[..6] + EncodeGuid(g')[6..9] + EncodeGuid(g')[9..];
  }

  /** The sixteen bytes getGuid stores from the values rand() returned. */
  function RandomBytes(rand: seq<nat>): (b: seq<byte>)
    requires |rand| == 16
    ensures |b| == 16
  {
    seq(16, i requires 0 <= i < 16 => RandomByte(rand[i]))
  }

  /**
   * Marking keeps every byte but 7 and 8; of those it keeps the low four and
   * low five bits and sets the top bits to version 0100 and variant 110.
   */
  lemma MarkedBytes(b: seq<byte>)
    requires |b| == 16
    ensures var m := Marked(b);
      && (forall i :: 0 <= i < 16 && i != 7 && i != 8 ==> m[i] == b[i])
      && m[7] / 0x10 == 0x4 && m[7] % 0x10 == b[7] % 0x10
      && m[8] / 0x20 == 0x6 && m[8] % 0x20 == b[8] % 0x20
  {
  }

  /**
   * The first sixteen values rand() returns after srand(seed); `rng(seed, i)`
   * is the i-th of them. The C library's generator is not part of this model.
   */
  function Draws(rng: (nat, nat) -> nat, seed: nat): (r: seq<nat>)
    ensures |r| == 16
  {
    seq(16, i requires 0 <= i => rng(seed, i))
  }

  /** The GUID whose bytes are the marked random bytes drawn after srand(seed). */
  function RandomGuid(rng: (nat, nat) -> nat, seed: nat): (g: Guid)
    ensures EncodeGuid(g) == Marked(RandomBytes(Draws(rng, seed)))
  {
    DecodeGuid(Marked(RandomBytes(Draws(rng, seed))))
  }

  /**
   * getGuid, called when time(NULL) is `now`: it reseeds the generator with
   * the clock, stores sixteen draws, and forces the version and variant bits.
   * Its bytes are the marked draws, so the result depends on nothing but the
   * second it was called in.
   */
  method GetGuid(rng: (nat, nat) -> nat, now: nat) returns (guid: Guid)
    ensures EncodeGuid(guid) == Marked(RandomBytes(Draws(rng, now)))
    ensures guid == RandomGuid(rng, now)
  {
    var rand := Draws(rng, now);
    var guidArr := new byte[16](_ => 0);
    for i := 0 to 16
      invariant forall j :: 0 <= j < i ==> guidArr[j] == RandomByte(rand[j])
    {
      guidArr[i] := rand[i] % 0x100;
    }
    assert guidArr[..] == RandomBytes(rand);
    guid := DecodeGuid(guidArr[..]);
    ghost var stored := guid;
    var h, c := guid.highTimeVer, guid.clockSeqHighRes;
    h := ClearBit(h, 0x8000);
    h := SetBit(h, 0x4000);
    h := ClearBit(h, 0x2000);
    h := ClearBit(h, 0x1000);
    c := SetBit(c, 0x80);
    c := SetBit(c, 0x40);
    c := ClearBit(c, 0x20);
    guid := guid.(highTimeVer := h, clockSeqHighRes := c);
    assert guid == MarkedGuid(stored);
    MarkFields(RandomBytes(rand));
    EncodeGuidInjective(guid, RandomGuid(rng, now));
  }
}
