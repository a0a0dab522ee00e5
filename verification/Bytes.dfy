/** Bytes, and the fixed-width integers that the formats lay out in them. */
module Bytes {
  import opened Bits
  import opened Modular

  type Byte = b: int | 0 <= b < 256
  type Word = w: int | 0 <= w < 0x1_0000_0000
  type Half = h: int | 0 <= h < 0x1_0000
  type Long = w: int | 0 <= w < 0x1_0000_0000_0000_0000

  function Wrap(n: int): Word { n % 0x1_0000_0000 }

  function Wrap64(n: int): Long { n % 0x1_0000_0000_0000_0000 }

  /** to_be_bytes of a u32. */
  function Be32(w: Word): (r: seq<Byte>)
    ensures |r| == 4
  {
    [w / 0x100_0000, w / 0x1_0000 % 256, w / 256 % 256, w % 256]
  }

  function FromBe32(s: seq<Byte>): Word
    requires |s| >= 4
  {
    0x100_0000 * (s[0] as int) + 0x1_0000 * (s[1] as int) + 256 * (s[2] as int) + (s[3] as int)
  }

  lemma Be32RoundTrip(w: Word)
    ensures FromBe32(Be32(w)) == w
  {
    var s := Be32(w);
    FourDigits(w, s[0], s[1], s[2], s[3]);
  }

  lemma FourDigits(w: int, a: int, b: int, c: int, d: int)
    requires a == w / 0x100_0000 && b == w / 0x1_0000 % 256 && c == w / 256 % 256 && d == w % 256
    ensures 0x100_0000 * a + 0x1_0000 * b + 256 * c + d == w
  {
    var u, v := w / 256, w / 0x1_0000;
    assert w == 256 * u + d;
    assert u / 256 == v;
    assert u == 256 * v + c;
    assert v / 256 == a;
    assert v == 256 * a + b;
  }

  /** to_le_bytes of a u16. */
  function Le16(h: Half): (r: seq<Byte>)
    ensures |r| == 2
  {
    [h % 256, h / 256]
  }

  function FromLe16(s: seq<Byte>): Half
    requires |s| >= 2
  {
    (s[0] as int) + 256 * (s[1] as int)
  }

  lemma Le16RoundTrip(h: Half)
    ensures FromLe16(Le16(h)) == h
  {
  }

  lemma WordBits()
    ensures Pow2(32) == 0x1_0000_0000 && Pow2(64) == 0x1_0000_0000_0000_0000
  {
    assert Pow2(8) == 0x100 && Pow2(16) == 0x1_0000 && Pow2(24) == 0x100_0000;
    Pow2Sum(32, 32);
  }

  function Xor(a: Word, b: Word): Word {
    WordBits();
    XorFits(a, b, 32);
    XorOf(a, b)
  }

  function Xor64(a: Long, b: Long): Long {
    WordBits();
    XorFits(a, b, 64);
    XorOf(a, b)
  }

  /** w turned left by r places. */
  function Rotl(w: Word, r: nat): Word
    requires r <= 32
  {
    WordBits();
    RotatedFits(w, r, 32);
    Rotated(w, r, 32)
  }

  function Rotl64(w: Long, r: nat): Long
    requires r <= 64
  {
    WordBits();
    RotatedFits(w, r, 64);
    Rotated(w, r, 64)
  }

  // ---------------------------------------------------------------- what the machine's operations mean

  /** The wrapped number differs by a multiple of the number of words. */
  lemma WrapMeans(n: int)
    ensures (n - Wrap(n)) % 0x1_0000_0000 == 0 && (n - Wrap64(n)) % 0x1_0000_0000_0000_0000 == 0
  {
    SmallMod(Wrap(n), 0x1_0000_0000);
    SmallMod(Wrap64(n), 0x1_0000_0000_0000_0000);
    ModOfDifference(n, Wrap(n), 0x1_0000_0000);
    ModOfDifference(n, Wrap64(n), 0x1_0000_0000_0000_0000);
  }

  /** Every bit of the result is the sum of the two bits, modulo two. */
  lemma XorMeans(a: Word, b: Word, c: Long, d: Long, i: nat)
    ensures Bit(Xor(a, b), i) == (Bit(a, i) + Bit(b, i)) % 2
    ensures Bit(Xor64(c, d), i) == (Bit(c, i) + Bit(d, i)) % 2
  {
    XorBits(a, b, i);
    XorBits(c, d, i);
  }

  /** Bit i goes r places up, around the end. */
  lemma RotlMeans(w: Word, d: Long, r: nat, i: nat)
    ensures r <= 32 && i < 32 ==> Bit(Rotl(w, r), (i + r) % 32) == Bit(w, i)
    ensures r <= 64 && i < 64 ==> Bit(Rotl64(d, r), (i + r) % 64) == Bit(d, i)
  {
    WordBits();
    if r <= 32 && i < 32 { RotatedBits(w, r, 32, i); }
    if r <= 64 && i < 64 { RotatedBits(d, r, 64, i); }
  }

  /** The low word of a long exclusive-or its own upper half. */
  lemma HalvesAre(w: Long)
    ensures Xor64(w, w / 0x1_0000_0000) % 0x1_0000_0000 == Xor(w % 0x1_0000_0000, w / 0x1_0000_0000)
  {
    var high := w / 0x1_0000_0000;
    WordBits();
    XorLow(w, high, 32);
    LowIs(w, 32);
    LowIs(high, 32);
    LowIs(XorOf(w, high), 32);
    SmallMod(high, 0x1_0000_0000);
    hide XorOf, Low;
  }
}
