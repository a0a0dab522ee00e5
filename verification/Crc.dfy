/** The reflected CRC-32, bit by bit and by table, and the remainder of polynomials that it is. */
module Crc {
  import opened Bits
  import opened Bytes
  import opened Modular
  import Recipes

  // ---------------------------------------------------------------- the checksum of RFC 2083, section 3.4

  /** Coefficients modulo two, those of the highest powers first. */
  type Poly = seq<bool>

  function Plus(p: Poly, q: Poly): (r: Poly)
    requires |p| == |q|
    ensures |r| == |p|
  {
    seq(|p|, i requires 0 <= i < |p| => p[i] != q[i])
  }

  function Zeros(n: nat): (r: Poly)
    ensures |r| == n
  {
    seq(n, _ => false)
  }

  function Ones(n: nat): (r: Poly)
    ensures |r| == n
  {
    seq(n, _ => true)
  }

  /** The powers, but for the 32nd, in x^32+x^26+x^23+x^22+x^16+x^12+x^11+x^10+x^8+x^7+x^5+x^4+x^2+x+1. */
  predicate HasTerm(e: int) { e in {26, 23, 22, 16, 12, 11, 10, 8, 7, 5, 4, 2, 1, 0} }

  /** Its coefficients, that of x^31 first. */
  function Generator(): (r: Poly)
    ensures |r| == 32
  {
    seq(32, i => HasTerm(31 - i))
  }

  /** What is left of p on division by x^32 and the generator: leading terms are taken away as long as there are any. */
  function Remainder(p: Poly): (r: Poly)
    requires |p| >= 32
    ensures |r| == 32
    decreases |p|
  {
    if |p| == 32 then p
    else Remainder(if p[0] then Plus(p[1..33], Generator()) + p[33..] else p[1..])
  }

  /** The low bit of a byte is sent first. */
  function ByteBits(b: Byte): (r: Poly)
    ensures |r| == 8
  {
    seq(8, i requires 0 <= i < 8 => Bit(b, i) == 1)
  }

  function MessageBits(data: seq<Byte>): Poly {
    if data == [] then [] else MessageBits(data[..|data|-1]) + ByteBits(data[|data|-1])
  }

  /** The remainder of the message times x^32, its first 32 coefficients and the result complemented. */
  function CheckBits(data: seq<Byte>): (r: Poly)
    ensures |r| == 32
  {
    var p := MessageBits(data) + Zeros(32);
    Plus(Remainder(Plus(p[..32], Ones(32)) + p[32..]), Ones(32))
  }

  /** The low bit of the register is the coefficient of x^31. */
  function BitsOf(c: Word): (r: Poly)
    ensures |r| == 32
  {
    seq(32, i requires 0 <= i < 32 => Bit(c, i) == 1)
  }

  // ---------------------------------------------------------------- the register

  const POLY: Word := 0xEDB8_8320
  const ONES: Word := 0xFFFF_FFFF

  /** One shift of the register. */
  function Step(c: Word): Word {
    if c % 2 == 1 then Xor(POLY, c / 2) else c / 2
  }

  function Steps(n: nat, c: Word): Word {
    if n == 0 then c else Step(Steps(n - 1, c))
  }

  /** The register after the bytes of data, eight shifts a byte. */
  function Register(c: Word, data: seq<Byte>): Word {
    if data == [] then c else Steps(8, Xor(Register(c, data[..|data|-1]), data[|data|-1]))
  }

  function Crc32(data: seq<Byte>): Word { Xor(Register(ONES, data), ONES) }

  // ---------------------------------------------------------------- facts about words

  lemma XorHalves(a: Word, b: Word)
    ensures Xor(a, b) % 2 == (a + b) % 2 && Xor(a, b) / 2 == Xor(a / 2, b / 2)
  {
    XorDigits(a, b);
    hide XorOf;
  }

  lemma XorWithZero(a: Word)
    ensures Xor(a, 0) == Xor(0, a) == a && Xor(a, a) == 0
  {
    XorZero(a);
    XorSelf(a);
  }

  lemma Regroup(a: Word, b: Word, c: Word)
    ensures Xor(Xor(a, b), c) == Xor(a, Xor(b, c))
  {
    XorRegroups(a, b, c);
  }

  lemma Swap(a: Word, b: Word)
    ensures Xor(a, b) == Xor(b, a)
  {
    XorCommutes(a, b);
  }

  lemma XorInjective(a: Word, b: Word, x: Word)
    requires Xor(a, x) == Xor(b, x) || Xor(x, a) == Xor(x, b)
    ensures a == b
  {
    hide Xor;
    Swap(a, x);
    Swap(b, x);
    Regroup(a, x, x);
    Regroup(b, x, x);
    XorWithZero(x);
    XorWithZero(a);
    XorWithZero(b);
  }

  /** p cancels between two sums. */
  lemma XorCancels(p: Word, x: Word, y: Word)
    ensures Xor(Xor(p, x), Xor(p, y)) == Xor(x, y)
  {
    hide Xor;
    Swap(p, x);
    Regroup(x, p, Xor(p, y));
    Regroup(p, p, y);
    XorWithZero(p);
    XorWithZero(y);
  }

  lemma XorMoves(p: Word, x: Word, y: Word)
    ensures Xor(x, Xor(p, y)) == Xor(p, Xor(x, y)) == Xor(Xor(p, x), y)
  {
    hide Xor;
    Regroup(x, p, y);
    Swap(x, p);
    Regroup(p, x, y);
  }

  // ---------------------------------------------------------------- the step is linear

  /** Shifting the register is linear over exclusive or. */
  lemma StepIsLinear(a: Word, b: Word)
    ensures Step(Xor(a, b)) == Xor(Step(a), Step(b))
  {
    hide Xor;
    XorHalves(a, b);
    XorCancels(POLY, a / 2, b / 2);
    XorMoves(POLY, a / 2, b / 2);
  }

  lemma {:induction false} StepsAreLinear(n: nat, a: Word, b: Word)
    ensures Steps(n, Xor(a, b)) == Xor(Steps(n, a), Steps(n, b))
  {
    hide Xor, Step;
    if n > 0 {
      StepsAreLinear(n - 1, a, b);
      StepIsLinear(Steps(n - 1, a), Steps(n - 1, b));
    }
  }

  /** With the low digits clear, steps only shift. */
  lemma {:induction false} StepsShift(n: nat, h: nat)
    requires Times(h, Pow2(n)) < 0x1_0000_0000
    ensures Steps(n, Times(h, Pow2(n))) == h
  {
    hide Xor, Times;
    if n == 0 {
      TimesSmall(h);
    } else {
      TimesSum(h, Pow2(n - 1), Pow2(n - 1));
      TimesSum(Pow2(n - 1), h, h);
      StepsShift(n - 1, 2 * h);
      DoubledInside(h, n);
    }
  }

  lemma DoubledInside(h: nat, n: nat)
    requires n > 0
    ensures Times(2 * h, Pow2(n - 1)) == Times(h, Pow2(n))
  {
    TimesSum(h, Pow2(n - 1), Pow2(n - 1));
    TimesSum(Pow2(n - 1), h, h);
    TimesSwaps(Pow2(n - 1), h);
    hide Times;
  }

  lemma SplitBytes(c: Word, b: Byte)
    ensures Xor(c, b) / 256 == c / 256
    ensures Xor(c, b) == Xor(c / 256 * 256, Xor(c, b) % 256)
  {
    var (h, l) := (c / 256, c % 256);
    assert Pow2(8) == 256;
    TimesOf256(h);
    XorFits(l, b, 8);
    XorBelow(h, l, b, 8);
    XorBelow(h, 0, XorOf(l, b), 8);
    XorZero(XorOf(l, b));
    hide XorOf, Times, Pow2;
    var x := XorOf(l, b);
    assert Xor(c, b) == h * 256 + x && x < 256;
    Quotient(h, x);
  }

  lemma Quotient(h: nat, x: nat)
    requires x < 256
    ensures (h * 256 + x) / 256 == h && (h * 256 + x) % 256 == x
  {
  }

  lemma TimesOf256(h: nat)
    ensures Times(256, h) == Times(h, 256) == h * 256
  {
  }

  /** One table look-up replaces eight shifts. */
  lemma TableStep(c: Word, b: Byte)
    ensures Steps(8, Xor(c, b)) == Xor(c / 256, Steps(8, Xor(c, b) % 256))
  {
    hide Xor, Steps;
    SplitBytes(c, b);
    StepsAreLinear(8, c / 256 * 256, Xor(c, b) % 256);
    assert Pow2(8) == 256;
    TimesOf256(c / 256);
    StepsShift(8, c / 256);
  }

  // ---------------------------------------------------------------- the two programs

  /** The table entry for a byte. */
  function Entry(i: Byte): Word { Steps(8, i) }

  /** The inner loop of both programs: eight shifts. */
  method EightSteps(start: Word) returns (c: Word)
    ensures c == Steps(8, start)
  {
    hide Xor;
    c := start;
    for j := 0 to 8
      invariant c == Steps(j, start)
    {
      c := if c % 2 != 0 then Xor(0xEDB8_8320, c / 2) else c / 2;
    }
  }

  method BuildTable() returns (table: array<Word>)
    ensures fresh(table) && table.Length == 256
    ensures forall i: Byte :: table[i] == Entry(i)
  {
    hide Steps;
    table := new Word[256];
    for i := 0 to 256
      invariant forall j: Byte | j < i :: table[j] == Entry(j)
    {
      table[i] := EightSteps(i);
    }
  }

  /** The checksum loop over a table: the same function as the bit loop, on every input. */
  method TableCrc(data: seq<Byte>) returns (crc: Word)
    ensures crc == Crc32(data) && BitsOf(crc) == CheckBits(data)
  {
    hide Steps, Xor, BitsOf, CheckBits;
    var table := BuildTable();
    crc := 0xFFFF_FFFF;
    for i := 0 to |data|
      invariant forall j: Byte :: table[j] == Entry(j)
      invariant crc == Register(ONES, data[..i])
    {
      TableStep(crc, data[i]);
      assert data[..i+1][..i] == data[..i];
      var index: Byte := Xor(crc, data[i]) % 256;
      crc := Xor(crc / 256, table[index]);
    }
    assert data[..|data|] == data;
    crc := Xor(crc, 0xFFFF_FFFF);
    CrcIsRemainder(data);
  }

  /** The bit-by-bit loop. */
  method BitCrc(data: seq<Byte>) returns (crc: Word)
    ensures crc == Crc32(data) && BitsOf(crc) == CheckBits(data)
  {
    hide Steps, Xor, BitsOf, CheckBits;
    crc := 0xFFFF_FFFF;
    for i := 0 to |data|
      invariant crc == Register(ONES, data[..i])
    {
      crc := EightSteps(Xor(crc, data[i]));
      assert data[..i+1][..i] == data[..i];
    }
    assert data[..|data|] == data;
    crc := Xor(crc, 0xFFFF_FFFF);
    CrcIsRemainder(data);
  }

  /** The generated input: the high byte of each state of the generator. */
  function InputAt(seed: Word, i: nat): Byte { Recipes.Nth(seed, i + 1) / 0x100_0000 }

  function Input(seed: Word): seq<Byte> { seq(65536, i requires 0 <= i < 65536 => InputAt(seed, i)) }

  /** The exported function, over an input buffer that outlives its calls. */
  method Workload(input: array<Byte>, seed: Word) returns (crc: Word)
    requires input.Length == 65536
    modifies input
    ensures BitsOf(crc) == CheckBits(Input(seed))
  {
    hide Crc32, Wrap, CheckBits, BitsOf;
    var s := seed;
    for i := 0 to 65536
      invariant s == Recipes.Nth(seed, i)
      invariant forall k | 0 <= k < i :: input[k] == InputAt(seed, k)
    {
      s := Wrap((s as int) * 1664525 + 1013904223);
      input[i] := s / 0x100_0000;
    }
    assert input[..] == Input(seed);
    crc := TableCrc(input[..]);
  }

  // ---------------------------------------------------------------- the register is the remainder

  lemma {:induction false} AllOnes(n: nat, i: nat)
    requires i < n
    ensures Bit(Pow2(n) - 1, i) == 1
  {
    var m := Pow2(n - 1) - 1;
    assert Pow2(n) - 1 == 2 * m + 1;
    TwiceAndDigit(m, 1);
    hide Pow2;
    if i > 0 { AllOnes(n - 1, i - 1); }
  }

  lemma OnesBits()
    ensures BitsOf(ONES) == Ones(32)
  {
    WordBits();
    forall i | 0 <= i < 32 ensures Bit(ONES, i) == 1 { AllOnes(32, i); }
  }

  lemma NextBit(w: nat, k: nat, v: nat)
    requires High(w, k) == v
    ensures Bit(w, k) == v % 2 && High(w, k + 1) == v / 2
  {
    HighSplits(w, k);
  }

  /** Four bits at once. */
  lemma FourBits(w: nat, k: nat, v: nat)
    requires High(w, k) == v
    ensures Bit(w, k) == v % 2 && Bit(w, k + 1) == v / 2 % 2 && Bit(w, k + 2) == v / 4 % 2 && Bit(w, k + 3) == v / 8 % 2
    ensures High(w, k + 4) == v / 16
  {
    NextBit(w, k, v);
    NextBit(w, k + 1, v / 2);
    NextBit(w, k + 2, v / 4);
    NextBit(w, k + 3, v / 8);
    hide High, Bit;
  }

  /** The coefficient at place i of the register's constant. */
  predicate Agrees(i: nat)
    requires i < 32
  {
    Bit(POLY, i) == 1 <==> HasTerm(31 - i)
  }

  lemma Agree0()
    ensures High(POLY, 8) == 0xED_B883 && forall i | 0 <= i < 8 :: Agrees(i)
  {
    assert High(POLY, 0) == POLY;
    FourBits(POLY, 0, 0xEDB8_8320);
    FourBits(POLY, 4, 0xEDB_8832);
    hide High, Bit;
    assert Agrees(0) && Agrees(1) && Agrees(2) && Agrees(3);
    assert Agrees(4) && Agrees(5) && Agrees(6) && Agrees(7);
  }

  lemma Agree8()
    ensures High(POLY, 16) == 0xEDB8 && forall i | 8 <= i < 16 :: Agrees(i)
  {
    Agree0();
    FourBits(POLY, 8, 0xED_B883);
    FourBits(POLY, 12, 0xE_DB88);
    hide High, Bit;
    assert Agrees(8) && Agrees(9) && Agrees(10) && Agrees(11);
    assert Agrees(12) && Agrees(13) && Agrees(14) && Agrees(15);
  }

  lemma Agree16()
    ensures High(POLY, 24) == 0xED && forall i | 16 <= i < 24 :: Agrees(i)
  {
    Agree8();
    FourBits(POLY, 16, 0xEDB8);
    FourBits(POLY, 20, 0xEDB);
    hide High, Bit;
    assert Agrees(16) && Agrees(17) && Agrees(18) && Agrees(19);
    assert Agrees(20) && Agrees(21) && Agrees(22) && Agrees(23);
  }

  lemma Agree24()
    ensures High(POLY, 32) == 0x0 && forall i | 24 <= i < 32 :: Agrees(i)
  {
    Agree16();
    FourBits(POLY, 24, 0xED);
    FourBits(POLY, 28, 0xE);
    hide High, Bit;
    assert Agrees(24) && Agrees(25) && Agrees(26) && Agrees(27);
    assert Agrees(28) && Agrees(29) && Agrees(30) && Agrees(31);
  }

  lemma PolyBits()
    ensures BitsOf(POLY) == Generator()
  {
    Agree0();
    Agree8();
    Agree16();
    Agree24();
    hide High, Bit, HasTerm;
    assert forall i | 0 <= i < 32 :: Agrees(i) ==> BitsOf(POLY)[i] == Generator()[i];
  }

  lemma BitsOfXor(a: Word, b: Word)
    ensures BitsOf(Xor(a, b)) == Plus(BitsOf(a), BitsOf(b))
  {
    hide Xor;
    forall i | 0 <= i < 32 ensures BitsOf(Xor(a, b))[i] == Plus(BitsOf(a), BitsOf(b))[i] {
      XorMeans(a, b, 0, 0, i);
      hide Bit;
    }
  }

  lemma BitsOfHalf(c: Word)
    ensures BitsOf(c / 2) == BitsOf(c)[1..] + [false]
  {
    WordBits();
    assert Pow2(32) == 2 * Pow2(31);
    assert c / 2 < Pow2(0 + 31);
    HighFits(c / 2, 0, 31);
    forall i | 0 <= i < 31 ensures Bit(c / 2, i) == Bit(c, i + 1) {
    }
  }

  /** One shift of a register of coefficients. */
  function Shifted(r: Poly): (s: Poly)
    requires |r| == 32
    ensures |s| == 32
  {
    if r[0] then Plus(r[1..] + [false], Generator()) else r[1..] + [false]
  }

  lemma BitsOfStep(c: Word)
    ensures BitsOf(Step(c)) == Shifted(BitsOf(c))
  {
    BitsOfHalf(c);
    BitsOfXor(POLY, c / 2);
    PolyBits();
    assert Bit(c, 0) == c % 2;
    hide Xor, Bit;
    assert BitsOf(c)[0] <==> c % 2 == 1;
    PlusSwaps(Generator(), BitsOf(c)[1..] + [false]);
    hide BitsOf;
  }

  lemma PlusSwaps(p: Poly, q: Poly)
    requires |p| == |q|
    ensures Plus(p, q) == Plus(q, p)
  {
  }

  /** A register of coefficients that takes in one coefficient after another. */
  function Fold(r: Poly, m: Poly): (s: Poly)
    requires |r| == 32
    ensures |s| == 32
  {
    if m == [] then r else Shifted(Plus(Fold(r, m[..|m|-1]), [m[|m|-1]] + Zeros(31)))
  }

  lemma {:induction false} FoldJoins(r: Poly, a: Poly, b: Poly)
    requires |r| == 32
    ensures Fold(r, a + b) == Fold(Fold(r, a), b)
  {
    hide Shifted, Plus;
    if b == [] {
      assert a + b == a;
    } else {
      FoldJoins(r, a, b[..|b|-1]);
      assert (a + b)[..|a + b|-1] == a + b[..|b|-1];
    }
  }

  lemma FoldOne(r: Poly, x: bool)
    requires |r| == 32
    ensures Fold(r, [x]) == Shifted(Plus(r, [x] + Zeros(31)))
  {
    hide Shifted, Plus;
    assert [x][..0] == [];
  }

  /** What is divided: the coefficients m, 32 zeros, and the register r added at the front. */
  function Dividend(r: Poly, m: Poly): (p: Poly)
    requires |r| == 32
    ensures |p| == 32 + |m|
  {
    var q := m + Zeros(32);
    Plus(q[..32], r) + q[32..]
  }

  lemma NextDividend(r: Poly, m: Poly)
    requires |r| == 32 && m != []
    ensures var (p, r') := (Dividend(r, m), Shifted(Plus(r, [m[0]] + Zeros(31))));
            (if p[0] then Plus(p[1..33], Generator()) + p[33..] else p[1..]) == Dividend(r', m[1..])
  {
    hide Generator;
    var (p, r', q) := (Dividend(r, m), Shifted(Plus(r, [m[0]] + Zeros(31))), m + Zeros(32));
    var next := if p[0] then Plus(p[1..33], Generator()) + p[33..] else p[1..];
    assert m[1..] + Zeros(32) == q[1..];
    assert forall j | 0 <= j < 32 :: next[j] == (q[1..][j] != r'[j]);
    assert forall j | 32 <= j < |next| :: next[j] == q[1..][j];
  }

  /** Long division takes in the coefficients one by one. */
  lemma {:induction false} DivisionFolds(r: Poly, m: Poly)
    requires |r| == 32
    ensures Remainder(Dividend(r, m)) == Fold(r, m)
    decreases |m|
  {
    hide Shifted, Plus, Dividend, Generator;
    if m == [] {
      NothingToDivide(r);
    } else {
      NextDividend(r, m);
      var r' := Shifted(Plus(r, [m[0]] + Zeros(31)));
      DivisionFolds(r', m[1..]);
      FoldOne(r, m[0]);
      FoldJoins(r, [m[0]], m[1..]);
      assert [m[0]] + m[1..] == m;
    }
  }

  lemma NothingToDivide(r: Poly)
    requires |r| == 32
    ensures Dividend(r, []) == r
  {
  }

  /** The register after k bits of a byte, each added when its turn comes. */
  function Fed(c: Word, b: Byte, k: nat): Word {
    if k == 0 then c else Step(Xor(Fed(c, b, k - 1), Bit(b, k - 1)))
  }

  /** Adding the whole byte at once comes to the same. */
  lemma {:induction false} FedAtOnce(c: Word, b: Byte, k: nat)
    ensures Steps(k, Xor(c, b)) == Xor(Fed(c, b, k), HighOf(b, k))
  {
    hide Xor, Step;
    if k > 0 {
      FedAtOnce(c, b, k - 1);
      var (fed, bit, rest) := (Fed(c, b, k - 1), Bit(b, k - 1), HighOf(b, k));
      HighSplits(b, k - 1);
      LowestBit(rest, bit);
      Swap(2 * rest, bit);
      Regroup(fed, bit, 2 * rest);
      StepIsLinear(Xor(fed, bit), 2 * rest);
      EvenStep(rest);
    }
  }

  function HighOf(b: Byte, k: nat): Byte {
    HighIsLess(b, k);
    High(b, k)
  }

  lemma {:induction false} HighIsLess(w: nat, k: nat)
    ensures High(w, k) <= w
  {
    if k > 0 { HighIsLess(w / 2, k - 1); }
  }

  lemma {:induction false} HighSplits(w: nat, k: nat)
    ensures High(w, k) == 2 * High(w, k + 1) + Bit(w, k)
  {
    if k > 0 { HighSplits(w / 2, k - 1); }
  }

  lemma LowestBit(h: Byte, bit: nat)
    requires bit < 2
    ensures Xor(2 * h, bit) == 2 * h + bit
  {
    XorDigits(2 * h, bit);
    XorZero(h);
    hide XorOf;
  }

  lemma EvenStep(h: Byte)
    ensures Step(2 * h) == h
  {
  }

  lemma BitsOfBit(bit: nat)
    requires bit < 2
    ensures BitsOf(bit) == [bit == 1] + Zeros(31)
  {
    forall i | 0 < i < 32 ensures Bit(bit, i) == 0 {
      NoBits(i - 1);
    }
  }

  lemma {:induction false} NoBits(i: nat)
    ensures Bit(0, i) == 0
  {
    if i > 0 { NoBits(i - 1); }
  }

  lemma {:induction false} FedIsFold(c: Word, b: Byte, k: nat)
    requires k <= 8
    ensures BitsOf(Fed(c, b, k)) == Fold(BitsOf(c), ByteBits(b)[..k])
  {
    hide Xor, Step, BitsOf, Shifted, Plus, Bit;
    if k > 0 {
      var m := ByteBits(b)[..k];
      FedIsFold(c, b, k - 1);
      assert m[..k-1] == ByteBits(b)[..k-1] && m[k-1] == (Bit(b, k - 1) == 1);
      BitsOfStep(Xor(Fed(c, b, k - 1), Bit(b, k - 1)));
      BitsOfXor(Fed(c, b, k - 1), Bit(b, k - 1));
      BitsOfBit(Bit(b, k - 1));
    }
  }

  lemma NoneLeft(b: Byte)
    ensures HighOf(b, 8) == 0
  {
    assert b < Pow2(0 + 8);
    HighFits(b, 0, 8);
  }

  lemma ByteIsFold(c: Word, b: Byte)
    ensures BitsOf(Steps(8, Xor(c, b))) == Fold(BitsOf(c), ByteBits(b))
  {
    FedAtOnce(c, b, 8);
    NoneLeft(b);
    XorWithZero(Fed(c, b, 8));
    FedIsFold(c, b, 8);
    assert ByteBits(b)[..8] == ByteBits(b);
    hide Xor, Steps, Fed, BitsOf;
  }

  lemma {:induction false} RegisterIsFold(c: Word, data: seq<Byte>)
    ensures BitsOf(Register(c, data)) == Fold(BitsOf(c), MessageBits(data))
  {
    hide Xor, Steps, BitsOf, Fold;
    if data == [] {
      FoldNothing(BitsOf(c));
    } else {
      var (front, last) := (data[..|data|-1], data[|data|-1]);
      RegisterIsFold(c, front);
      ByteIsFold(Register(c, front), last);
      FoldJoins(BitsOf(c), MessageBits(front), ByteBits(last));
    }
  }

  lemma FoldNothing(r: Poly)
    requires |r| == 32
    ensures Fold(r, []) == r
  {
  }

  /** The checksum's bits are the remainder that the standard describes. */
  lemma CrcIsRemainder(data: seq<Byte>)
    ensures BitsOf(Crc32(data)) == CheckBits(data)
  {
    RegisterIsFold(ONES, data);
    OnesBits();
    DivisionFolds(Ones(32), MessageBits(data));
    BitsOfXor(Register(ONES, data), ONES);
    hide Xor, BitsOf, Fold, Register, Remainder, MessageBits, Plus;
  }

  // ---------------------------------------------------------------- what the checksum is for

  lemma TopBitTells(a: Word, b: Word)
    ensures Xor(POLY, a / 2) != b / 2
  {
    WordBits();
    assert Pow2(32) == 2 * Pow2(31);
    assert POLY == Times(1, Pow2(31)) + 0x6DB8_8320;
    XorBelow(1, 0x6DB8_8320, a / 2, 31);
  }

  /** The top bit of the polynomial tells which way a step went, so no two registers step alike. */
  lemma StepIsInjective(a: Word, b: Word)
    requires Step(a) == Step(b)
    ensures a == b
  {
    hide Xor;
    TopBitTells(a, b);
    TopBitTells(b, a);
    if a % 2 == 1 && b % 2 == 1 { XorInjective(a / 2, b / 2, POLY); }
  }

  lemma {:induction false} StepsAreInjective(n: nat, a: Word, b: Word)
    requires Steps(n, a) == Steps(n, b)
    ensures a == b
  {
    hide Step;
    if n > 0 {
      StepIsInjective(Steps(n - 1, a), Steps(n - 1, b));
      StepsAreInjective(n - 1, a, b);
    }
  }

  lemma {:induction false} RegisterIsInjective(a: Word, b: Word, data: seq<Byte>)
    requires Register(a, data) == Register(b, data)
    ensures a == b
  {
    hide Xor, Steps;
    if data != [] {
      var front, last := data[..|data|-1], data[|data|-1];
      StepsAreInjective(8, Xor(Register(a, front), last), Xor(Register(b, front), last));
      XorInjective(Register(a, front), Register(b, front), last);
      RegisterIsInjective(a, b, front);
    }
  }

  lemma {:induction false} RegisterJoins(c: Word, u: seq<Byte>, v: seq<Byte>)
    ensures Register(c, u + v) == Register(Register(c, u), v)
  {
    hide Xor, Steps;
    if v == [] {
      assert u + v == u;
    } else {
      RegisterJoins(c, u, v[..|v|-1]);
      assert (u + v)[..|u + v|-1] == u + v[..|v|-1];
    }
  }

  /** Changing one byte of a message, anywhere, always changes its checksum. */
  lemma OneByteChangeIsDetected(u: seq<Byte>, x: Byte, y: Byte, v: seq<Byte>)
    requires x != y
    ensures Crc32(u + [x] + v) != Crc32(u + [y] + v)
  {
    hide Xor, Steps;
    RegisterJoins(ONES, u + [x], v);
    RegisterJoins(ONES, u + [y], v);
    if Crc32(u + [x] + v) == Crc32(u + [y] + v) {
      XorInjective(Register(ONES, u + [x] + v), Register(ONES, u + [y] + v), ONES);
      RegisterIsInjective(Register(ONES, u + [x]), Register(ONES, u + [y]), v);
      assert (u + [x])[..|u|] == u && (u + [y])[..|u|] == u;
      StepsAreInjective(8, Xor(Register(ONES, u), x), Xor(Register(ONES, u), y));
      XorInjective(x, y, Register(ONES, u));
    }
  }
}
