/** The multi-memory program and its twin: three memories, or three regions of one. */
module MultiMem {
  import opened Bytes
  import opened Recipes
  import opened LinearMemory

  const START: Word := 0x2545_F491
  const SRC := 65536
  const LUT := 256

  // ---------------------------------------------------------------- the reference

  function SrcAt(i: nat): Byte { Nth(START, i + 1) / 0x100_0000 }

  function LutAt(j: nat): Word { Nth(START, SRC + j + 1) }

  function Mixed(h: Word, w: Word): Word { Wrap((Rotl(Xor(h, w), 5) as int) * 0x9E37_79B1) }

  /** The running hash after n bytes. */
  function HashAt(seed: Word, n: nat): Word {
    if n == 0 then seed else Mixed(HashAt(seed, n - 1), LutAt(SrcAt(n - 1)))
  }

  /** The fold of the first n hashes. */
  function Folded(seed: Word, n: nat): Word {
    if n == 0 then 0 else Wrap((Rotl(Folded(seed, n - 1), 1) as int) + HashAt(seed, n))
  }

  method Reference(seed: Word) returns (total: Word)
    ensures total == Folded(seed, SRC)
  {
    hide Xor, Rotl, Nth, Wrap;
    var s: Word := 0x2545_F491;
    var src: seq<Byte> := [];
    FirstState();
    for i := 0 to 65536
      invariant s == Nth(START, i) && |src| == i && forall k | 0 <= k < i :: src[k] == SrcAt(k)
    {
      NextState(i);
      s := Wrap((s as int) * 1664525 + 1013904223);
      src := src + [s / 0x100_0000];
    }
    var lut: seq<Word> := [];
    for j := 0 to 256
      invariant s == Nth(START, SRC + j) && |lut| == j && forall k | 0 <= k < j :: lut[k] == LutAt(k)
    {
      NextState(SRC + j);
      s := Wrap((s as int) * 1664525 + 1013904223);
      lut := lut + [s];
    }
    var h := seed;
    var dst: seq<Word> := [];
    for i := 0 to 65536
      invariant h == HashAt(seed, i) && |dst| == i && forall k | 0 <= k < i :: dst[k] == HashAt(seed, k + 1)
    {
      h := Wrap((Rotl(Xor(h, lut[src[i]]), 5) as int) * 0x9E37_79B1);
      dst := dst + [h];
    }
    total := 0;
    for i := 0 to 65536
      invariant total == Folded(seed, i)
    {
      total := Wrap((Rotl(total, 1) as int) + dst[i]);
    }
  }

  lemma FirstState()
    ensures Nth(START, 0) == START
  {
  }

  lemma NextState(n: nat)
    ensures Nth(START, n + 1) == Wrap((Nth(START, n) as int) * 1664525 + 1013904223)
  {
    hide Wrap;
  }

  // ---------------------------------------------------------------- regions of a memory

  predicate HoldsSrc(m: seq<Byte>) {
    |m| >= SRC && forall i | 0 <= i < SRC :: m[i] == SrcAt(i)
  }

  /** The first n words of the table, from off on. */
  predicate HoldsLut(m: seq<Byte>, off: nat, n: nat) {
    off + 4 * n <= |m| && forall j | 0 <= j < n :: WordAt(m, off + 4 * j) == LutAt(j)
  }

  predicate HoldsHashes(m: seq<Byte>, off: nat, n: nat, seed: Word) {
    off + 4 * n <= |m| && forall i | 0 <= i < n :: WordAt(m, off + 4 * i) == HashAt(seed, i + 1)
  }

  lemma KeepsSrc(m: seq<Byte>, m': seq<Byte>, at: nat, n: nat)
    requires HoldsSrc(m) && SameOutside(m, m', at, n) && at >= SRC
    ensures HoldsSrc(m')
  {
  }

  lemma KeepsLut(m: seq<Byte>, m': seq<Byte>, off: nat, k: nat, at: nat, n: nat)
    requires HoldsLut(m, off, k) && SameOutside(m, m', at, n) && (at >= off + 4 * k || at + n <= off)
    ensures HoldsLut(m', off, k)
  {
    forall j | 0 <= j < k ensures WordAt(m', off + 4 * j) == LutAt(j) {
      assert WordAt(m, off + 4 * j) == LutAt(j);
    }
  }

  lemma KeepsHashes(m: seq<Byte>, m': seq<Byte>, off: nat, k: nat, at: nat, n: nat, seed: Word)
    requires HoldsHashes(m, off, k, seed) && SameOutside(m, m', at, n) && at >= off + 4 * k
    ensures HoldsHashes(m', off, k, seed)
  {
    forall i | 0 <= i < k ensures WordAt(m', off + 4 * i) == HashAt(seed, i + 1) {
      assert WordAt(m, off + 4 * i) == HashAt(seed, i + 1);
    }
  }

  // ---------------------------------------------------------------- the module

  class Module {
    const src: array<Byte>
    const lut: array<Byte>
    const dst: array<Byte>
    const lutOff: nat
    const dstOff: nat
    var ready: bool

    ghost predicate Separate() {
      && src != lut && src != dst && lut != dst && lutOff == 0 && dstOff == 0
      && src.Length == 65536 && lut.Length == 65536 && dst.Length == 4 * 65536
    }

    ghost predicate Single() {
      src == lut == dst && lutOff == 65536 && dstOff == 131072 && src.Length == 6 * 65536
    }

    ghost predicate Valid()
      reads this, src, lut
    {
      && (Separate() || Single())
      && (ready ==> HoldsSrc(src[..]) && HoldsLut(lut[..], lutOff, LUT))
    }

    constructor Multi()
      ensures Valid() && Separate() && !ready
      ensures fresh(src) && fresh(lut) && fresh(dst)
    {
      src := new Byte[65536](i => 0);
      lut := new Byte[65536](i => 0);
      dst := new Byte[4 * 65536](i => 0);
      lutOff, dstOff, ready := 0, 0, false;
    }

    constructor OneMemory()
      ensures Valid() && Single() && !ready
      ensures fresh(src)
    {
      var m := new Byte[6 * 65536](i => 0);
      src, lut, dst := m, m, m;
      lutOff, dstOff, ready := 65536, 131072, false;
    }

    method Init()
      requires Valid()
      modifies this`ready, src, lut
      ensures Valid() && ready
    {
      hide Wrap, Nth, WordAt, SrcAt, LutAt, HoldsLut;
      var s: Word := 0x2545_F491;
      FirstState();
      for i := 0 to 65536
        invariant s == Nth(START, i)
        invariant forall k | 0 <= k < i :: src[k] == SrcAt(k)
      {
        NextState(i);
        s := Wrap((s as int) * 1664525 + 1013904223);
        SrcIs(i);
        src[i] := s / 0x100_0000;
      }
      NoTable(lut[..], lutOff);
      for j := 0 to 256
        invariant s == Nth(START, SRC + j)
        invariant HoldsSrc(src[..]) && HoldsLut(lut[..], lutOff, j)
      {
        NextState(SRC + j);
        s := Wrap((s as int) * 1664525 + 1013904223);
        ghost var before := lut[..];
        Store32(lut, lutOff + 4 * j, s);
        if src == lut { KeepsSrc(before, lut[..], lutOff + 4 * j, 4); }
        MoreTable(before, lut[..], lutOff, j);
      }
      ready := true;
    }

    /** The checksum of the reference, whichever way the memory is laid out, on the first call and on later ones. */
    method Run(seed: Word) returns (sum: Word)
      requires Valid()
      modifies this`ready, src, lut, dst
      ensures Valid() && sum == Folded(seed, SRC)
    {
      hide Rotl, Xor, Wrap, WordAt, HoldsSrc, HoldsLut, HoldsHashes, SameOutside, SrcAt, LutAt;
      if !ready { Init(); }
      var h := seed;
      NoHashes(dst[..], dstOff, seed);
      for i := 0 to 65536
        invariant Valid() && ready && h == HashAt(seed, i)
        invariant HoldsHashes(dst[..], dstOff, i, seed)
      {
        TableEntry(src[..], lut[..], lutOff, i);
        var w := Load32(lut, lutOff + 4 * (src[i] as int));
        h := Wrap((Rotl(Xor(h, w), 5) as int) * 0x9E37_79B1);
        ghost var before := dst[..];
        Store32(dst, dstOff + 4 * i, h);
        if src == dst {
          KeepsSrc(before, dst[..], dstOff + 4 * i, 4);
          KeepsLut(before, dst[..], lutOff, LUT, dstOff + 4 * i, 4);
        }
        MoreHashes(before, dst[..], dstOff, i, seed);
      }
      sum := 0;
      var at := 0;
      while at < 262144
        invariant at <= 4 * SRC && at % 4 == 0
        invariant Valid() && HoldsHashes(dst[..], dstOff, SRC, seed) && sum == Folded(seed, at / 4)
      {
        HashIs(dst[..], dstOff, at / 4, seed);
        var w := Load32(dst, dstOff + at);
        FoldedMore(seed, at / 4);
        sum := Wrap((Rotl(sum, 1) as int) + w);
        at := at + 4;
      }
    }
  }

  lemma SrcIs(i: nat)
    ensures SrcAt(i) == Nth(START, i + 1) / 0x100_0000
  {
  }

  lemma NoTable(m: seq<Byte>, off: nat)
    requires off <= |m|
    ensures HoldsLut(m, off, 0)
  {
  }

  lemma MoreTable(m: seq<Byte>, m': seq<Byte>, off: nat, j: nat)
    requires HoldsLut(m, off, j) && SameOutside(m, m', off + 4 * j, 4) && off + 4 * (j + 1) <= |m|
    requires WordAt(m', off + 4 * j) == Nth(START, SRC + j + 1)
    ensures HoldsLut(m', off, j + 1)
  {
    hide WordAt, Nth;
    KeepsLut(m, m', off, j, off + 4 * j, 4);
  }

  lemma NoHashes(m: seq<Byte>, off: nat, seed: Word)
    requires off <= |m|
    ensures HoldsHashes(m, off, 0, seed)
  {
  }

  lemma MoreHashes(m: seq<Byte>, m': seq<Byte>, off: nat, i: nat, seed: Word)
    requires HoldsHashes(m, off, i, seed) && SameOutside(m, m', off + 4 * i, 4) && off + 4 * (i + 1) <= |m|
    requires WordAt(m', off + 4 * i) == HashAt(seed, i + 1)
    ensures HoldsHashes(m', off, i + 1, seed)
  {
    hide WordAt, HashAt;
    KeepsHashes(m, m', off, i, off + 4 * i, 4, seed);
  }

  lemma TableEntry(s: seq<Byte>, l: seq<Byte>, off: nat, i: nat)
    requires HoldsSrc(s) && HoldsLut(l, off, LUT) && i < SRC
    ensures i < |s| && off + 4 * (s[i] as int) + 4 <= |l| && WordAt(l, off + 4 * (s[i] as int)) == LutAt(SrcAt(i))
  {
    hide WordAt, LutAt, SrcAt;
  }

  lemma HashIs(m: seq<Byte>, off: nat, i: nat, seed: Word)
    requires HoldsHashes(m, off, SRC, seed) && i < SRC
    ensures WordAt(m, off + 4 * i) == HashAt(seed, i + 1)
  {
  }

  lemma FoldedMore(seed: Word, n: nat)
    ensures Folded(seed, n + 1) == Wrap((Rotl(Folded(seed, n), 1) as int) + HashAt(seed, n + 1))
  {
    hide Wrap, Rotl, HashAt;
  }
}
