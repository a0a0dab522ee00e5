/** Words in a linear memory. */
module LinearMemory {
  import opened Bytes

  /** The word stored at a place of a memory, the least significant byte first. */
  function WordAt(m: seq<Byte>, at: nat): Word
    requires at + 4 <= |m|
  {
    0x100_0000 * (m[at + 3] as int) + 0x1_0000 * (m[at + 2] as int) + 256 * (m[at + 1] as int) + (m[at] as int)
  }

  /** The 64-bit word stored at a place. */
  function LongAt(m: seq<Byte>, at: nat): Long
    requires at + 8 <= |m|
  {
    0x1_0000_0000 * (WordAt(m, at + 4) as int) + (WordAt(m, at) as int)
  }

  predicate SameOutside(m: seq<Byte>, m': seq<Byte>, at: nat, n: nat) {
    |m| == |m'| && forall k | 0 <= k < |m| && !(at <= k < at + n) :: m'[k] == m[k]
  }

  lemma BytesOfWord(w: Word)
    ensures 0x100_0000 * (w / 0x100_0000) + 0x1_0000 * (w / 0x1_0000 % 256) + 256 * (w / 256 % 256) + w % 256 == w
  {
    FourDigits(w, w / 0x100_0000, w / 0x1_0000 % 256, w / 256 % 256, w % 256);
  }

  method Store32(m: array<Byte>, at: nat, w: Word)
    requires at + 4 <= m.Length
    modifies m
    ensures WordAt(m[..], at) == w && SameOutside(old(m[..]), m[..], at, 4)
  {
    BytesOfWord(w);
    m[at] := w % 256;
    m[at + 1] := w / 256 % 256;
    m[at + 2] := w / 0x1_0000 % 256;
    m[at + 3] := w / 0x100_0000;
  }

  method Load32(m: array<Byte>, at: nat) returns (w: Word)
    requires at + 4 <= m.Length
    ensures w == WordAt(m[..], at)
  {
    w := 0x100_0000 * (m[at + 3] as int) + 0x1_0000 * (m[at + 2] as int) + 256 * (m[at + 1] as int) + (m[at] as int);
  }

  method Store64(m: array<Byte>, at: nat, w: Long)
    requires at + 8 <= m.Length
    modifies m
    ensures LongAt(m[..], at) == w && SameOutside(old(m[..]), m[..], at, 8)
  {
    hide WordAt;
    Store32(m, at, w % 0x1_0000_0000);
    ghost var low := m[..];
    Store32(m, at + 4, w / 0x1_0000_0000);
    WordStays(low, m[..], at, at + 4, 4);
  }

  method Load64(m: array<Byte>, at: nat) returns (w: Long)
    requires at + 8 <= m.Length
    ensures w == LongAt(m[..], at)
  {
    var low := Load32(m, at);
    var high := Load32(m, at + 4);
    w := 0x1_0000_0000 * (high as int) + (low as int);
  }

  /** A store leaves the words beside it alone. */
  lemma WordStays(m: seq<Byte>, m': seq<Byte>, at: nat, lo: nat, n: nat)
    requires SameOutside(m, m', lo, n) && at + 4 <= |m| && (at + 4 <= lo || lo + n <= at)
    ensures WordAt(m', at) == WordAt(m, at)
  {
  }

  lemma LongStays(m: seq<Byte>, m': seq<Byte>, at: nat, lo: nat, n: nat)
    requires SameOutside(m, m', lo, n) && at + 8 <= |m| && (at + 8 <= lo || lo + n <= at)
    ensures LongAt(m', at) == LongAt(m, at)
  {
    hide WordAt, SameOutside;
    WordStays(m, m', at, lo, n);
    WordStays(m, m', at + 4, lo, n);
  }
}
