/** The relaxed-SIMD kernels, on an engine that answers every question the instructions leave open as it likes. */
module Relaxed {
  import opened Bits
  import opened Bytes
  import opened Modular
  import opened Recipes

  type Int8 = n: int | -128 <= n < 128
  type Int16 = n: int | -32768 <= n < 32768

  const M := 64
  const K := 256
  const POINTS := 16384
  const DEGREE := 8
  const MIN_SEED := -0x8000_0000

  type Seed = n: int | -0x8000_0000 <= n < 0x8000_0000

  // ---------------------------------------------------------------- the generator of the inputs

  function HighByte(s: Word): Byte { s / 0x100_0000 }

  function Signed(b: Byte): Int8 { if b >= 128 then b - 256 else b }

  function DotStart(seed: Seed): Word { Xor(Wrap(seed), 0x2545_F491) }

  function MaddStart(seed: Seed): Word { Xor(Wrap(seed), 0x9E37_79B9) }

  function LeftAt(seed: Seed, i: nat): Int8 { Signed(HighByte(Nth(DotStart(seed), 2 * i + 1))) }

  function RightAt(seed: Seed, i: nat): Int8 { HighByte(Nth(DotStart(seed), 2 * i + 2)) % 128 }

  function PointAt(seed: Seed, i: nat): int { HighByte(Nth(MaddStart(seed), i + 1)) % 7 - 3 }

  function CoefficientAt(seed: Seed, c: nat): int { HighByte(Nth(MaddStart(seed), POINTS + c + 1)) % 9 - 4 }

  // ---------------------------------------------------------------- the reference results

  /** The first n products of two rows. */
  function Dot(a: seq<Int8>, b: seq<Int8>, i: nat, j: nat, n: nat): int
    requires i + n <= |a| && j + n <= |b|
  {
    if n == 0 then 0 else Dot(a, b, i, j, n - 1) + Product(a[i + n - 1], b[j + n - 1])
  }

  /** The checksum over the first n cells of the product. */
  function Total(a: seq<Int8>, b: seq<Int8>, n: nat): Word
    requires |a| == M * K && |b| == M * K && n <= M * M
  {
    if n == 0 then 0
    else Wrap((Rotl(Total(a, b, n - 1), 3) as int) + Wrap(Cell(a, b, (n - 1) / M, (n - 1) % M)))
  }

  /** One cell of the product, whose right factor is stored transposed. */
  function Cell(a: seq<Int8>, b: seq<Int8>, i: nat, j: nat): int
    requires |a| == M * K && |b| == M * K && i < M && j < M
  {
    Dot(a, b, i * K, j * K, K)
  }

  function DotReference(seed: Seed): Word {
    Total(seq(M * K, i requires 0 <= i < M * K => LeftAt(seed, i)),
        seq(M * K, i requires 0 <= i < M * K => RightAt(seed, i)), M * M)
  }

  /** The polynomial from its leading coefficient down to coefficient d, at x. */
  function Horner(coef: seq<int>, x: int, d: nat): int
    requires d < |coef|
    decreases |coef| - d
  {
    if d == |coef| - 1 then coef[d] else Product(Horner(coef, x, d + 1), x) + coef[d]
  }

  /** One lane's checksum over the first n groups of four points. */
  function Lane(x: seq<int>, coef: seq<int>, l: nat, n: nat): Word
    requires l < 4 && 4 * n <= |x| && coef != []
  {
    if n == 0 then 0 else Wrap((Lane(x, coef, l, n - 1) as int) * 31 + Horner(coef, x[4 * (n - 1) + l], 0))
  }

  function Combined(l0: Word, l1: Word, l2: Word, l3: Word): Word {
    Xor(Xor(Xor(l0, Rotl(l1, 8)), Rotl(l2, 16)), Rotl(l3, 24))
  }

  function Checksum(x: seq<int>, coef: seq<int>): Word
    requires |x| == POINTS && coef != []
  {
    var n := POINTS / 4;
    Combined(Lane(x, coef, 0, n), Lane(x, coef, 1, n), Lane(x, coef, 2, n), Lane(x, coef, 3, n))
  }

  function MaddReference(seed: Seed): Word {
    Checksum(seq(POINTS, i requires 0 <= i < POINTS => PointAt(seed, i)),
             seq(DEGREE + 1, c requires 0 <= c <= DEGREE => CoefficientAt(seed, c)))
  }

  // ---------------------------------------------------------------- the dot instruction

  /** What an engine may choose each time: the sign of a right operand past 127, and how a pair sum is kept. */
  datatype PairSum = Wrapping | Saturating | Wide

  datatype DotChoice = DotChoice(signed: bool, pairs: PairSum)

  function RightOperand(c: DotChoice, b: Int8): int {
    if b < 0 && !c.signed then b + 256 else b
  }

  function Pair(c: DotChoice, sum: int): int {
    match c.pairs
    case Wide => sum
    case Saturating => if sum < -32768 then -32768 else if sum > 32767 then 32767 else sum
    case Wrapping => (sum + 32768) % 0x1_0000 - 32768
  }

  /** One 32-bit lane of the instruction: four products, summed in pairs, added to the lane. */
  function DotLane(c: DotChoice, a: seq<Int8>, b: seq<Int8>, acc: Word): Word
    requires |a| == 4 && |b| == 4
  {
    var low := Pair(c, Product(a[0], RightOperand(c, b[0])) + Product(a[1], RightOperand(c, b[1])));
    var high := Pair(c, Product(a[2], RightOperand(c, b[2])) + Product(a[3], RightOperand(c, b[3])));
    Wrap(acc + (low + high))
  }

  /** A pair sum is kept exactly, or at the nearest 16-bit number, or modulo 2^16. */
  lemma PairMeans(c: DotChoice, sum: int, n: Int16)
    ensures c.pairs.Wide? ==> Pair(c, sum) == sum
    ensures c.pairs.Saturating? ==> -32768 <= Pair(c, sum) <= 32767
    ensures c.pairs.Saturating? ==> (sum <= n ==> Pair(c, sum) <= n) && (sum >= n ==> Pair(c, sum) >= n)
    ensures c.pairs.Wrapping? ==> -32768 <= Pair(c, sum) <= 32767 && (sum - Pair(c, sum)) % 0x1_0000 == 0
  {
  }

  predicate SevenBits(b: seq<Int8>) { forall i | 0 <= i < |b| :: b[i] >= 0 }

  lemma ProductFits(a: Int8, b: Int8)
    requires b >= 0
    ensures -16256 <= Product(a, b) <= 16129
  {
    ProductWithin(a, -128, 127, b);
  }

  lemma PairFits(c: DotChoice, sum: int)
    requires -32768 <= sum <= 32767
    ensures Pair(c, sum) == sum
  {
  }

  /** Four products of two rows. */
  function Quad(a: seq<Int8>, b: seq<Int8>, i: nat, j: nat): int
    requires i + 4 <= |a| && j + 4 <= |b|
  {
    Product(a[i], b[j]) + Product(a[i + 1], b[j + 1]) + Product(a[i + 2], b[j + 2]) + Product(a[i + 3], b[j + 3])
  }

  /** With a right operand of seven bits the engine has nothing to choose: no pair sum leaves 16 bits. */
  lemma ChoiceDoesNotMatter(c: DotChoice, a: seq<Int8>, b: seq<Int8>, acc: Word)
    requires |a| == 4 && |b| == 4 && SevenBits(b)
    ensures DotLane(c, a, b, acc) == Wrap(acc + Quad(a, b, 0, 0))
  {
    hide Pair, Product, Wrap;
    ProductFits(a[0], b[0]);
    ProductFits(a[1], b[1]);
    ProductFits(a[2], b[2]);
    ProductFits(a[3], b[3]);
    PairFits(c, Product(a[0], b[0]) + Product(a[1], b[1]));
    PairFits(c, Product(a[2], b[2]) + Product(a[3], b[3]));
  }

  /** The bound is needed: with a right operand past 127, engines may differ. */
  lemma ChoiceMattersOtherwise()
    ensures exists c, c', a, b :: |a| == 4 && |b| == 4 && DotLane(c, a, b, 0) != DotLane(c', a, b, 0)
  {
    var a, b: seq<Int8> := [1, 0, 0, 0], [-1, 0, 0, 0];
    assert DotLane(DotChoice(true, Wide), a, b, 0) == 0xFFFF_FFFF;
    assert DotLane(DotChoice(false, Wide), a, b, 0) == 255;
  }

  /** i32x4.relaxed_dot_i8x16_i7x16_add_s, each lane on a choice of its own. */
  method DotInstruction(va: seq<Int8>, vb: seq<Int8>, acc: seq<Word>) returns (r: seq<Word>)
    requires |va| == 16 && |vb| == 16 && |acc| == 4 && SevenBits(vb)
    ensures |r| == 4 && forall l | 0 <= l < 4 :: r[l] == Wrap(acc[l] + Quad(va, vb, 4 * l, 4 * l))
  {
    hide Wrap, Product, DotLane;
    r := [];
    for l := 0 to 4
      invariant |r| == l && forall k | 0 <= k < l :: r[k] == Wrap(acc[k] + Quad(va, vb, 4 * k, 4 * k))
    {
      var c: DotChoice := *;
      ChoiceDoesNotMatter(c, va[4 * l..4 * l + 4], vb[4 * l..4 * l + 4], acc[l]);
      r := r + [DotLane(c, va[4 * l..4 * l + 4], vb[4 * l..4 * l + 4], acc[l])];
    }
  }

  // ---------------------------------------------------------------- the multiply-add instruction

  /** A rounding to f32, whichever way, keeps every integer up to 2^24. */
  predicate Exact(round: int -> int) { forall n | -0x100_0000 <= n <= 0x100_0000 :: round(n) == n }

  function MaddLane(fused: bool, round: int -> int, p: int, x: int, c: int): int {
    if fused then round(Product(p, x) + c) else round(round(Product(p, x)) + c)
  }

  /** A rounding to even numbers beyond 2^24, as f32 rounds there, except that ties are never broken upwards. */
  function ToEven(n: int): int { if -0x100_0000 <= n <= 0x100_0000 then n else n - n % 2 }

  /** It is such a rounding, loses the next integer, and with it a fused and an unfused step can differ. */
  lemma FusingMattersOtherwise()
    ensures Exact(ToEven) && ToEven(0x100_0001) != 0x100_0001 && ToEven(-0x100_0001) != -0x100_0001
    ensures MaddLane(true, ToEven, 0x100_0001, 1, 1) == 0x100_0002
    ensures MaddLane(false, ToEven, 0x100_0001, 1, 1) == 0x100_0000
  {
  }

  predicate AllSmall(v: seq<int>, bound: nat) { forall i | 0 <= i < |v| :: 0 - bound <= v[i] <= bound }

  lemma TimesFits(p: int, x: int, bound: nat)
    requires 0 - bound <= p <= bound && -3 <= x <= 3
    ensures 0 - 3 * bound <= Product(p, x) <= 3 * bound
  {
  }

  /** f32x4.relaxed_madd on integers that stay exact: fused or not, every lane is p * x + c. */
  method MaddInstruction(round: int -> int, p: seq<int>, x: seq<int>, c: int) returns (r: seq<int>)
    requires Exact(round) && |p| == 4 && |x| == 4
    requires AllSmall(p, 0x40_0000) && AllSmall(x, 3) && -4 <= c <= 4
    ensures |r| == 4 && forall l | 0 <= l < 4 :: r[l] == Product(p[l], x[l]) + c
  {
    hide Product;
    r := [];
    for l := 0 to 4
      invariant |r| == l && forall k | 0 <= k < l :: r[k] == Product(p[k], x[k]) + c
    {
      var fused: bool := *;
      TimesFits(p[l], x[l], 0x40_0000);
      r := r + [MaddLane(fused, round, p[l], x[l], c)];
    }
  }

  /** i32x4.relaxed_trunc_f32x4_s: anything may come of a lane out of range. */
  method TruncInstruction(p: seq<int>) returns (r: seq<int>)
    requires |p| == 4 && AllSmall(p, 0x7FFF_FFFF)
    ensures r == p
  {
    r := [];
    for l := 0 to 4
      invariant r == p[..l]
    {
      var other: int := *;
      r := r + [if -0x8000_0000 <= p[l] < 0x8000_0000 then p[l] else other];
    }
  }

  // ---------------------------------------------------------------- bounds and sums

  /** How large the polynomial can be once k coefficients have been added. */
  function Bound(k: nat): nat { if k == 0 then 4 else 3 * Bound(k - 1) + 4 }

  lemma {:induction false} HornerIsBounded(coef: seq<int>, x: int, d: nat)
    requires d < |coef| && AllSmall(coef, 4) && -3 <= x <= 3
    ensures 0 - Bound(|coef| - 1 - d) <= Horner(coef, x, d) <= Bound(|coef| - 1 - d)
    decreases |coef| - d
  {
    if d < |coef| - 1 {
      HornerIsBounded(coef, x, d + 1);
      TimesFits(Horner(coef, x, d + 1), x, Bound(|coef| - 2 - d));
    }
  }

  lemma {:induction false} BoundGrows(j: nat, k: nat)
    requires j <= k
    ensures Bound(j) <= Bound(k)
  {
    if j < k { BoundGrows(j, k - 1); }
  }

  /** No intermediate value of degree eight comes near 2^24. */
  lemma PolynomialIsExact(coef: seq<int>, x: int, d: nat)
    requires d < |coef| <= DEGREE + 1 && AllSmall(coef, 4) && -3 <= x <= 3
    ensures -39364 <= Horner(coef, x, d) <= 39364
  {
    HornerIsBounded(coef, x, d);
    BoundGrows(|coef| - 1 - d, 8);
    assert Bound(4) == 484 && Bound(8) == 39364;
  }

  lemma DotFour(a: seq<Int8>, b: seq<Int8>, i: nat, j: nat, n: nat)
    requires i + n + 4 <= |a| && j + n + 4 <= |b|
    ensures Dot(a, b, i, j, n + 4) == Dot(a, b, i, j, n) + Quad(a, b, i + n, j + n)
  {
    hide Product;
    assert Dot(a, b, i, j, n + 2)
        == Dot(a, b, i, j, n) + Product(a[i + n], b[j + n]) + Product(a[i + n + 1], b[j + n + 1]);
  }

  function SumOf(acc: seq<Word>): int
    requires |acc| == 4
  {
    (acc[0] as int) + acc[1] + acc[2] + acc[3]
  }

  /** One instruction adds sixteen products, wherever they go. */
  lemma ChunkAdds(a: seq<Int8>, b: seq<Int8>, i: nat, j: nat, k: nat, acc: seq<Word>, r: seq<Word>)
    requires i + k + 16 <= |a| && j + k + 16 <= |b| && |acc| == 4 && |r| == 4
    requires Wrap(SumOf(acc)) == Wrap(Dot(a, b, i, j, k))
    requires forall l | 0 <= l < 4 ::
        r[l] == Wrap(acc[l] + Quad(a[i + k..i + k + 16], b[j + k..j + k + 16], 4 * l, 4 * l))
    ensures Wrap(SumOf(r)) == Wrap(Dot(a, b, i, j, k + 16))
  {
    hide Product, Dot, Wrap;
    DotFour(a, b, i, j, k);
    DotFour(a, b, i, j, k + 4);
    DotFour(a, b, i, j, k + 8);
    DotFour(a, b, i, j, k + 12);
    var (q0, q1, q2, q3) := (Quad(a, b, i + k, j + k), Quad(a, b, i + k + 4, j + k + 4),
                             Quad(a, b, i + k + 8, j + k + 8), Quad(a, b, i + k + 12, j + k + 12));
    assert r[0] == Wrap(acc[0] + q0) && r[1] == Wrap(acc[1] + q1);
    assert r[2] == Wrap(acc[2] + q2) && r[3] == Wrap(acc[3] + q3);
    WrappedSums(acc[0] + q0, acc[1] + q1, acc[2] + q2, acc[3] + q3);
    WrappedMore(SumOf(acc), Dot(a, b, i, j, k), q0 + q1 + q2 + q3);
  }

  lemma WrappedSums(w: int, x: int, y: int, z: int)
    ensures Wrap(Wrap(w) + Wrap(x) + Wrap(y) + Wrap(z)) == Wrap(w + x + y + z)
  {
  }

  lemma WrappedMore(u: int, v: int, q: int)
    requires Wrap(u) == Wrap(v)
    ensures Wrap(u + q) == Wrap(v + q)
  {
  }

  // ---------------------------------------------------------------- the module and its two exports

  class Kernels {
    const a: array<Int8>
    const bt: array<Int8>
    var dotSeed: Seed
    const x: array<int>
    const coef: array<int>
    var maddSeed: Seed

    ghost predicate Valid()
      reads this, a, bt, x, coef
    {
      && a.Length == 0x4000 && bt.Length == 0x4000 && a != bt
      && x.Length == 0x4000 && coef.Length == 9 && x != coef
      && a as object != x as object && a as object != coef as object
      && bt as object != x as object && bt as object != coef as object
      && (DotFilled() || DotBlank()) && (MaddFilled() || MaddBlank())
    }

    ghost predicate DotFilled()
      reads this, a, bt
    {
      && (forall i | 0 <= i < a.Length :: a[i] == LeftAt(dotSeed, i))
      && (forall i | 0 <= i < bt.Length :: bt[i] == RightAt(dotSeed, i))
    }

    /** As instantiated: all zero, and the seed that marks an empty cache. */
    ghost predicate DotBlank()
      reads this, a, bt
    {
      && dotSeed == MIN_SEED
      && (forall i | 0 <= i < a.Length :: a[i] == 0) && (forall i | 0 <= i < bt.Length :: bt[i] == 0)
    }

    ghost predicate MaddFilled()
      reads this, x, coef
    {
      && (forall i | 0 <= i < x.Length :: x[i] == PointAt(maddSeed, i))
      && (forall c | 0 <= c < coef.Length :: coef[c] == CoefficientAt(maddSeed, c))
    }

    ghost predicate MaddBlank()
      reads this, x, coef
    {
      && maddSeed == MIN_SEED
      && (forall i | 0 <= i < x.Length :: x[i] == 0) && (forall c | 0 <= c < coef.Length :: coef[c] == 0)
    }

    constructor ()
      ensures Valid() && DotBlank() && MaddBlank()
      ensures fresh(a) && fresh(bt) && fresh(x) && fresh(coef)
    {
      hide LeftAt, RightAt, PointAt, CoefficientAt;
      a := new Int8[64 * 256](i => 0);
      bt := new Int8[64 * 256](i => 0);
      dotSeed := -0x8000_0000;
      x := new int[16 * 1024](i => 0);
      coef := new int[9](i => 0);
      maddSeed := -0x8000_0000;
    }

    method FillDot(seed: Seed)
      requires Valid()
      modifies this`dotSeed, a, bt
      ensures Valid() && dotSeed == seed
      ensures if seed == old(dotSeed) then a[..] == old(a[..]) && bt[..] == old(bt[..]) else DotFilled()
    {
      hide LeftAt, RightAt, Xor, Wrap, Nth;
      if dotSeed == seed { return; }
      var s := Xor(Wrap(seed), 0x2545_F491);
      StartsAre(seed);
      for i := 0 to 64 * 256
        invariant s == Nth(DotStart(seed), 2 * i)
        invariant forall k | 0 <= k < i :: a[k] == LeftAt(seed, k) && bt[k] == RightAt(seed, k)
      {
        LeftAndRight(seed, i);
        s := Wrap((s as int) * 1664525 + 1013904223);
        var high: int := s / 0x100_0000;
        a[i] := if high >= 128 then high - 256 else high;
        s := Wrap((s as int) * 1664525 + 1013904223);
        bt[i] := s / 0x100_0000 % 128;
      }
      dotSeed := seed;
    }

    method DotKernel() returns (sum: Word)
      requires Valid()
      ensures sum == Total(a[..], bt[..], M * M)
    {
      hide Product, Wrap, Rotl, Dot, Quad, Total, SumOf, DotFilled, DotBlank, MaddFilled, MaddBlank;
      ghost var (left, right) := (a[..], bt[..]);
      RightIsSevenBits();
      sum := 0;
      NoCells(left, right);
      for i := 0 to 64
        invariant sum == Total(left, right, i * M)
      {
        for j := 0 to 64
          invariant sum == Total(left, right, i * M + j)
        {
          var acc: seq<Word> := [0, 0, 0, 0];
          NoneYet(left, right, i, j);
          var k := 0;
          while k < 256
            invariant k <= 256 && k % 16 == 0 && |acc| == 4
            invariant Wrap(SumOf(acc)) == Wrap(Dot(left, right, i * K, j * K, k))
          {
            var va, vb := a[i * 256 + k..i * 256 + k + 16], bt[j * 256 + k..j * 256 + k + 16];
            var r := DotInstruction(va, vb, acc);
            ChunkAdds(left, right, i * K, j * K, k, acc, r);
            acc := r;
            k := k + 16;
          }
          var c := Wrap(Wrap(Wrap((acc[0] as int) + acc[1]) + acc[2]) + acc[3]);
          WrappedChain(acc);
          TotalStep(left, right, i, j);
          sum := Wrap((Rotl(sum, 3) as int) + c);
        }
      }
    }

    lemma RightIsSevenBits()
      requires Valid()
      ensures SevenBits(bt[..])
    {
    }

    /** The reference's result whatever the engine chooses, but for a blank cache that holds the lowest seed. */
    method RelaxedDot(seed: Seed) returns (sum: Word)
      requires Valid()
      modifies this`dotSeed, a, bt
      ensures Valid()
      ensures if seed == MIN_SEED && old(DotBlank()) then sum == 0 && DotBlank()
              else sum == DotReference(seed) && DotFilled() && dotSeed == seed
    {
      hide LeftAt, RightAt, PointAt, CoefficientAt, Total;
      FillDot(seed);
      sum := DotKernel();
      if seed == MIN_SEED && old(DotBlank()) {
        TotalOfZeros(a[..], bt[..], M * M);
      } else {
        assert a[..] == seq(M * K, i requires 0 <= i < M * K => LeftAt(seed, i));
        assert bt[..] == seq(M * K, i requires 0 <= i < M * K => RightAt(seed, i));
      }
    }

    method FillMadd(seed: Seed)
      requires Valid()
      modifies this`maddSeed, x, coef
      ensures Valid() && maddSeed == seed
      ensures if seed == old(maddSeed) then x[..] == old(x[..]) && coef[..] == old(coef[..]) else MaddFilled()
    {
      hide PointAt, CoefficientAt, LeftAt, RightAt, Nth, Wrap, Xor, MaddStart;
      FirstState(MaddStart(seed));
      if maddSeed == seed { return; }
      var s := Xor(Wrap(seed), 0x9E37_79B9);
      StartsAre(seed);
      for i := 0 to 16 * 1024
        invariant s == Nth(MaddStart(seed), i)
        invariant forall k | 0 <= k < i :: x[k] == PointAt(seed, k)
      {
        PointIs(seed, i);
        s := Wrap((s as int) * 1664525 + 1013904223);
        var high: int := s / 0x100_0000;
        x[i] := high % 7 - 3;
      }
      for c := 0 to 9
        invariant s == Nth(MaddStart(seed), POINTS + c)
        invariant forall k | 0 <= k < POINTS :: x[k] == PointAt(seed, k)
        invariant forall k | 0 <= k < c :: coef[k] == CoefficientAt(seed, k)
      {
        CoefficientIs(seed, c);
        s := Wrap((s as int) * 1664525 + 1013904223);
        var high: int := s / 0x100_0000;
        coef[c] := high % 9 - 4;
      }
      maddSeed := seed;
    }

    lemma InputsAreSmall()
      requires Valid()
      ensures AllSmall(x[..], 3) && AllSmall(coef[..], 4)
    {
      hide Nth, HighByte, MaddStart, DotFilled, DotBlank;
    }

    method MaddKernel(round: int -> int) returns (sum: Word)
      requires Valid() && Exact(round)
      ensures sum == Checksum(x[..], coef[..])
    {
      hide Product, Wrap, Xor, Rotl, Horner, Lane, Exact, AllSmall, DotFilled, DotBlank, MaddFilled, MaddBlank;
      ghost var (points, cs) := (x[..], coef[..]);
      InputsAreSmall();
      var acc: seq<Word> := [0, 0, 0, 0];
      NoLanes(points, cs);
      for n := 0 to 4096
        invariant HoldsLanes(points, cs, n, acc)
      {
        var vx := x[4 * n..4 * n + 4];
        var lead := coef[8];
        var p: seq<int> := [lead, lead, lead, lead];
        var d: nat := 8;
        Leading(cs, vx);
        while d > 0
          invariant d <= 8 && |p| == 4
          invariant forall l | 0 <= l < 4 :: p[l] == Horner(cs, vx[l], d)
        {
          d := d - 1;
          StepIsExact(points, cs, 4 * n, d + 1, p);
          p := MaddInstruction(round, p, vx, coef[d]);
        }
        StepIsExact(points, cs, 4 * n, 0, p);
        var t := TruncInstruction(p);
        MoreLanes(points, cs, n, acc, t);
        acc := [Wrap((acc[0] as int) * 31 + t[0]), Wrap((acc[1] as int) * 31 + t[1]),
                Wrap((acc[2] as int) * 31 + t[2]), Wrap((acc[3] as int) * 31 + t[3])];
      }
      sum := Xor(Xor(Xor(acc[0], Rotl(acc[1], 8)), Rotl(acc[2], 16)), Rotl(acc[3], 24));
    }

    /** The reference's result for any rounding and any mix of fused and unfused steps, but for the same cache. */
    method RelaxedMadd(round: int -> int, seed: Seed) returns (sum: Word)
      requires Valid() && Exact(round)
      modifies this`maddSeed, x, coef
      ensures Valid()
      ensures if seed == MIN_SEED && old(MaddBlank()) then sum == 0 && MaddBlank()
              else sum == MaddReference(seed) && MaddFilled() && maddSeed == seed
    {
      hide LeftAt, RightAt, PointAt, CoefficientAt, Checksum;
      FillMadd(seed);
      sum := MaddKernel(round);
      if seed == MIN_SEED && old(MaddBlank()) {
        ChecksumOfZeros(x[..], coef[..]);
      } else {
        assert x[..] == seq(POINTS, i requires 0 <= i < POINTS => PointAt(seed, i));
        assert coef[..] == seq(DEGREE + 1, c requires 0 <= c <= DEGREE => CoefficientAt(seed, c));
      }
    }

    /** Matrices left blank are not those of the lowest seed. */
    lemma BlankIsNotFilled()
      requires Valid()
      ensures !(DotBlank() && DotFilled()) && !(MaddBlank() && MaddFilled())
    {
      LowestSeed();
      hide LeftAt, PointAt, RightAt, CoefficientAt;
    }
  }

  lemma LowestStarts()
    ensures DotStart(MIN_SEED) == 0xA545_F491 && MaddStart(MIN_SEED) == 0x1E37_79B9
  {
    hide Xor;
    XorsOfLowest();
    assert Wrap(MIN_SEED) == 0x8000_0000;
  }

  lemma TopBit(top: Word, x: Word)
    requires top == 0x8000_0000 && x < top
    ensures Xor(top, x) == top + x && Xor(top, top + x) == x
  {
    hide XorOf;
    WordBits();
    assert Pow2(32) == 2 * Pow2(31);
    XorTop(31, x);
    hide Pow2;
  }

  lemma XorsOfLowest()
    ensures Xor(0x8000_0000, 0x2545_F491) == 0xA545_F491
    ensures Xor(0x8000_0000, 0x9E37_79B9) == 0x1E37_79B9
  {
    hide Xor;
    TopBit(0x8000_0000, 0x2545_F491);
    TopBit(0x8000_0000, 0x1E37_79B9);
  }

  lemma LowestSeed()
    ensures LeftAt(MIN_SEED, 0) == 98 && PointAt(MIN_SEED, 0) != 0
  {
    LowestStarts();
    hide DotStart, MaddStart;
    assert Next(0xA545_F491) == 0x6297_24BC;
    assert Nth(0xA545_F491, 1) == 0x6297_24BC;
    assert HighByte(0x6297_24BC) == 98;
    assert Next(0x1E37_79B9) == 0xC2D0_D7C4;
    assert Nth(0x1E37_79B9, 1) == 0xC2D0_D7C4;
    assert HighByte(0xC2D0_D7C4) == 194;
  }

  lemma FirstState(s: Word)
    ensures Nth(s, 0) == s
  {
  }

  lemma PointIs(seed: Seed, i: nat)
    ensures PointAt(seed, i) == Nth(MaddStart(seed), i + 1) / 0x100_0000 % 7 - 3
    ensures Nth(MaddStart(seed), i + 1) == Wrap((Nth(MaddStart(seed), i) as int) * 1664525 + 1013904223)
  {
    hide Wrap, MaddStart;
  }

  lemma CoefficientIs(seed: Seed, c: nat)
    ensures CoefficientAt(seed, c) == Nth(MaddStart(seed), POINTS + c + 1) / 0x100_0000 % 9 - 4
    ensures Nth(MaddStart(seed), POINTS + c + 1)
         == Wrap((Nth(MaddStart(seed), POINTS + c) as int) * 1664525 + 1013904223)
  {
    hide Wrap, MaddStart;
  }

  /** The four lanes after n groups of four points. */
  predicate HoldsLanes(x: seq<int>, coef: seq<int>, n: nat, acc: seq<Word>)
    requires 4 * n <= |x| && coef != []
  {
    |acc| == 4 && forall l | 0 <= l < 4 :: acc[l] == Lane(x, coef, l, n)
  }

  lemma NoLanes(x: seq<int>, coef: seq<int>)
    requires coef != []
    ensures HoldsLanes(x, coef, 0, [0, 0, 0, 0])
  {
  }

  lemma MoreLanes(x: seq<int>, coef: seq<int>, n: nat, acc: seq<Word>, t: seq<int>)
    requires 4 * (n + 1) <= |x| && coef != [] && |t| == 4 && HoldsLanes(x, coef, n, acc)
    requires forall l | 0 <= l < 4 :: t[l] == Horner(coef, x[4 * n..4 * n + 4][l], 0)
    ensures HoldsLanes(x, coef, n + 1, [Wrap((acc[0] as int) * 31 + t[0]), Wrap((acc[1] as int) * 31 + t[1]),
                                        Wrap((acc[2] as int) * 31 + t[2]), Wrap((acc[3] as int) * 31 + t[3])])
  {
    hide Horner, Wrap;
  }

  lemma Leading(coef: seq<int>, x: seq<int>)
    requires coef != [] && |x| == 4
    ensures forall l | 0 <= l < 4 :: Horner(coef, x[l], |coef| - 1) == coef[|coef| - 1]
  {
  }

  /** Everything a multiply-add or a truncation meets is well within what is exact. */
  lemma StepIsExact(x: seq<int>, coef: seq<int>, i: nat, d: nat, p: seq<int>)
    requires i + 4 <= |x| && |p| == 4 && d < |coef| == DEGREE + 1
    requires AllSmall(x, 3) && AllSmall(coef, 4)
    requires forall l | 0 <= l < 4 :: p[l] == Horner(coef, x[i..i + 4][l], d)
    ensures AllSmall(p, 39364) && AllSmall(p, 0x40_0000) && AllSmall(p, 0x7FFF_FFFF)
    ensures AllSmall(x[i..i + 4], 3) && forall c | 0 <= c < |coef| :: -4 <= coef[c] <= 4
    ensures d > 0
        ==> forall l | 0 <= l < 4 :: Horner(coef, x[i..i + 4][l], d - 1) == Product(p[l], x[i..i + 4][l]) + coef[d - 1]
  {
    PolynomialIsExact(coef, x[i], d);
    PolynomialIsExact(coef, x[i + 1], d);
    PolynomialIsExact(coef, x[i + 2], d);
    PolynomialIsExact(coef, x[i + 3], d);
  }

  lemma {:induction false} HornerOfZeros(coef: seq<int>, x: int, d: nat)
    requires d < |coef| && forall c | 0 <= c < |coef| :: coef[c] == 0
    ensures Horner(coef, x, d) == 0
    decreases |coef| - d
  {
    if d < |coef| - 1 { HornerOfZeros(coef, x, d + 1); }
  }

  lemma {:induction false} LaneOfZeros(x: seq<int>, coef: seq<int>, l: nat, n: nat)
    requires l < 4 && 4 * n <= |x| && coef != []
    requires forall c | 0 <= c < |coef| :: coef[c] == 0
    ensures Lane(x, coef, l, n) == 0
  {
    if n > 0 {
      LaneOfZeros(x, coef, l, n - 1);
      HornerOfZeros(coef, x[4 * (n - 1) + l], 0);
    }
  }

  lemma ChecksumOfZeros(x: seq<int>, coef: seq<int>)
    requires |x| == POINTS && coef != [] && forall c | 0 <= c < |coef| :: coef[c] == 0
    ensures Checksum(x, coef) == 0
  {
    LaneOfZeros(x, coef, 0, POINTS / 4);
    LaneOfZeros(x, coef, 1, POINTS / 4);
    LaneOfZeros(x, coef, 2, POINTS / 4);
    LaneOfZeros(x, coef, 3, POINTS / 4);
    hide Lane;
    CombinedZeros();
  }

  lemma LeftAndRight(seed: Seed, i: nat)
    ensures Nth(DotStart(seed), 2 * i + 1) == Wrap((Nth(DotStart(seed), 2 * i) as int) * 1664525 + 1013904223)
    ensures Nth(DotStart(seed), 2 * i + 2) == Wrap((Nth(DotStart(seed), 2 * i + 1) as int) * 1664525 + 1013904223)
    ensures var high: int := Nth(DotStart(seed), 2 * i + 1) / 0x100_0000;
            LeftAt(seed, i) == if high >= 128 then high - 256 else high
    ensures RightAt(seed, i) == Nth(DotStart(seed), 2 * i + 2) / 0x100_0000 % 128
  {
    hide Wrap, DotStart;
  }

  lemma StartsAre(seed: Seed)
    ensures DotStart(seed) == Xor(Wrap(seed), 0x2545_F491) && Nth(DotStart(seed), 0) == DotStart(seed)
    ensures MaddStart(seed) == Xor(Wrap(seed), 0x9E37_79B9)
  {
    hide Xor, Wrap;
  }

  lemma NoneYet(a: seq<Int8>, b: seq<Int8>, i: nat, j: nat)
    requires |a| == M * K && |b| == M * K && i < M && j < M
    ensures Dot(a, b, i * K, j * K, 0) == 0 && SumOf([0, 0, 0, 0]) == 0
  {
  }

  lemma NoCells(a: seq<Int8>, b: seq<Int8>)
    requires |a| == M * K && |b| == M * K
    ensures Total(a, b, 0) == 0
  {
  }

  lemma WrappedChain(acc: seq<Word>)
    requires |acc| == 4
    ensures Wrap(Wrap(Wrap((acc[0] as int) + acc[1]) + acc[2]) + acc[3]) == Wrap(SumOf(acc))
  {
    hide Wrap;
    WrappedOnce((acc[0] as int) + acc[1], acc[2]);
    WrappedOnce((acc[0] as int) + acc[1] + acc[2], acc[3]);
  }

  lemma WrappedOnce(u: int, v: int)
    ensures Wrap(Wrap(u) + v) == Wrap(u + v)
  {
  }

  lemma TotalStep(a: seq<Int8>, b: seq<Int8>, i: nat, j: nat)
    requires |a| == M * K && |b| == M * K && i < M && j < M
    ensures Total(a, b, i * M + (j + 1)) ==
      Wrap((Rotl(Total(a, b, i * M + j), 3) as int) + Wrap(Dot(a, b, i * K, j * K, K)))
  {
    hide Dot, Wrap, Rotl, Total;
    CellAt(i, j);
    TotalMore(a, b, i * M + j);
  }

  lemma CellAt(i: nat, j: nat)
    requires j < M
    ensures (i * M + j) / M == i && (i * M + j) % M == j
  {
  }

  lemma TotalMore(a: seq<Int8>, b: seq<Int8>, n: nat)
    requires |a| == M * K && |b| == M * K && n < M * M
    ensures Total(a, b, n + 1) == Wrap((Rotl(Total(a, b, n), 3) as int) + Wrap(Cell(a, b, n / M, n % M)))
  {
    hide Cell, Wrap, Rotl;
  }

  lemma {:induction false} DotOfZeros(a: seq<Int8>, b: seq<Int8>, i: nat, j: nat, n: nat)
    requires i + n <= |a| && j + n <= |b|
    requires forall k | 0 <= k < |a| :: a[k] == 0
    ensures Dot(a, b, i, j, n) == 0
  {
    if n > 0 { DotOfZeros(a, b, i, j, n - 1); }
  }

  lemma {:induction false} TotalOfZeros(a: seq<Int8>, b: seq<Int8>, n: nat)
    requires |a| == M * K && |b| == M * K && n <= M * M
    requires forall k | 0 <= k < |a| :: a[k] == 0
    ensures Total(a, b, n) == 0
  {
    hide Cell, Rotl, Wrap;
    if n > 0 {
      TotalOfZeros(a, b, n - 1);
      CellOfZeros(a, b, (n - 1) / M, (n - 1) % M);
      WrappedZero();
    }
  }

  lemma CellOfZeros(a: seq<Int8>, b: seq<Int8>, i: nat, j: nat)
    requires |a| == M * K && |b| == M * K && i < M && j < M
    requires forall k | 0 <= k < |a| :: a[k] == 0
    ensures Cell(a, b, i, j) == 0
  {
    DotOfZeros(a, b, i * K, j * K, K);
  }

  lemma ZeroTurned(r: nat)
    requires r <= 32
    ensures Rotl(0, r) == 0
  {
    RotatedZero(r, 32);
    hide Rotated;
  }

  lemma ZerosXored()
    ensures Xor(0, 0) == 0
  {
    NothingToXor();
    hide XorOf;
  }

  lemma WrappedZero()
    ensures Wrap(0) == 0 && Rotl(0, 3) == 0
  {
    hide Rotl;
    ZeroTurned(3);
  }

  lemma CombinedZeros()
    ensures Combined(0, 0, 0, 0) == 0
  {
    hide Xor, Rotl;
    ZeroTurned(8);
    ZeroTurned(16);
    ZeroTurned(24);
    ZerosXored();
  }
}
