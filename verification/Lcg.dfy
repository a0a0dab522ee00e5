/**
 * The linear congruential map that links the heap nodes, for every modulus 2^k: it is
 * one cycle through all residues exactly when a = 1 mod 4 and c is odd (for k >= 2).
 */
module Lcg {
  import opened Modular

  function Next(k: nat, a: nat, c: nat, x: nat): (r: nat)
    ensures r < Pow2(k)
  {
    (a * x + c) % Pow2(k)
  }

  /** n hops from x, modulo 2^k. */
  function Hops(k: nat, a: nat, c: nat, n: nat, x: nat): nat {
    if n == 0 then x else Next(k, a, c, Hops(k, a, c, n - 1, x))
  }

  /** The residues met in the first n steps from x. */
  function Visited(k: nat, a: nat, c: nat, n: nat, x: nat): (r: set<nat>) {
    set i: nat | i < n :: Hops(k, a, c, i, x)
  }

  // ---------------------------------------------------------------- over the integers

  function Iterate(a: nat, c: nat, n: nat, x: nat): nat {
    if n == 0 then x else Times(a, Iterate(a, c, n - 1, x)) + c
  }

  /** 1 + a + ... + a^(n-1) */
  function Geometric(a: nat, n: nat): nat {
    if n == 0 then 0 else Times(a, Geometric(a, n - 1)) + 1
  }

  function Power(a: nat, n: nat): nat {
    if n == 0 then 1 else Times(a, Power(a, n - 1))
  }

  /** How far one step moves x. */
  function FirstStep(a: nat, c: nat, x: nat): nat
    requires a >= 1
  {
    Times(a - 1, x) + c
  }

  /** n steps move x by a multiple of its first step. */
  lemma {:induction false} IterateGap(a: nat, c: nat, n: nat, x: nat)
    requires a >= 1
    ensures Iterate(a, c, n, x) == x + Times(Geometric(a, n), FirstStep(a, c, x))
  {
    hide Times, FirstStep;
    if n > 0 {
      IterateGap(a, c, n - 1, x);
      GapStep(a, c, x, Geometric(a, n - 1));
    } else {
      TimesSmall(FirstStep(a, c, x));
    }
  }

  lemma GapStep(a: nat, c: nat, x: nat, g: nat)
    requires a >= 1
    ensures var d := FirstStep(a, c, x);
            Times(a, x + Times(g, d)) + c == x + Times(Times(a, g) + 1, d)
  {
    hide Times;
    var d := FirstStep(a, c, x);
    TimesSum(x, a - 1, 1);
    TimesSmall(x);
    TimesSum(a, x, Times(g, d));
    TimesTimes(a, g, d);
    TimesSum(d, Times(a, g), 1);
    TimesSmall(d);
  }

  lemma {:induction false} IterateJoins(a: nat, c: nat, m: nat, n: nat, x: nat)
    ensures Iterate(a, c, m + n, x) == Iterate(a, c, n, Iterate(a, c, m, x))
  {
    hide Times;
    if n > 0 { IterateJoins(a, c, m, n - 1, x); }
  }

  lemma StepOfResidue(a: nat, c: nat, y: nat, m: nat)
    requires m > 0
    ensures (a * (y % m) + c) % m == (Times(a, y) + c) % m
  {
    ModOfProduct(a, y, m);
    ModOfSum(a * (y % m), c, m);
    ModOfSum(a * y, c, m);
  }

  lemma {:induction false} HopsAreResidues(k: nat, a: nat, c: nat, n: nat, x: nat)
    requires x < Pow2(k)
    ensures Hops(k, a, c, n, x) == Iterate(a, c, n, x) % Pow2(k)
  {
    hide Times, Pow2;
    if n > 0 {
      HopsAreResidues(k, a, c, n - 1, x);
      StepOfResidue(a, c, Iterate(a, c, n - 1, x), Pow2(k));
    } else {
      SmallMod(x, Pow2(k));
    }
  }

  // ---------------------------------------------------------------- powers of two

  predicate Divides(m: nat, z: nat)
    requires m > 0
  {
    z % m == 0
  }

  lemma DividesTwice(m: nat, z: nat)
    requires m > 0
    ensures Divides(2 * m, 2 * z) <==> Divides(m, z)
  {
    var q, r := z / m, z % m;
    assert z == q * m + r;
    assert q * (2 * m) == 2 * (q * m);
    DivModIs(2 * z, q, 2 * r, 2 * m);
  }

  lemma OddIsNotDivided(k: nat, z: nat)
    requires k > 0 && z % 2 == 1
    ensures !Divides(Pow2(k), z)
  {
    ModOfMultiple(z, Pow2(k - 1), 2);
    SmallMod(0, 2);
  }

  lemma OddSplits(h: nat, g: nat)
    ensures Times(2 * h + 1, g) == 2 * Times(h, g) + g
    ensures Times(g, 2 * h) == 2 * Times(g, h)
  {
    hide Times;
    TimesSum(g, 2 * h, 1);
    TimesSmall(g);
    TimesSum(g, h, h);
  }

  lemma OddTimes(o: nat, g: nat)
    requires o % 2 == 1
    ensures Times(o, g) % 2 == g % 2
  {
    hide Times;
    OddSplits(o / 2, g);
  }

  /** An odd factor does not matter to a power of two. */
  lemma {:induction false} OddCancels(k: nat, o: nat, g: nat)
    requires o % 2 == 1
    ensures Divides(Pow2(k), Times(o, g)) <==> Divides(Pow2(k), g)
  {
    hide Times, Divides;
    if k == 0 {
      DividedByOne(g);
      DividedByOne(Times(o, g));
    } else {
      OddTimes(o, g);
      if g % 2 == 1 {
        OddIsNotDivided(k, g);
        OddIsNotDivided(k, Times(o, g));
      } else {
        var h := g / 2;
        OddSplits(h, o);
        OddCancels(k - 1, o, h);
        DividesTwice(Pow2(k - 1), h);
        DividesTwice(Pow2(k - 1), Times(o, h));
      }
    }
  }

  lemma DividedByOne(z: nat)
    ensures Divides(Pow2(0), z)
  {
  }

  lemma {:induction false} PowerIsOne(a: nat, n: nat)
    requires a % 4 == 1
    ensures Power(a, n) % 4 == 1
  {
    hide Times;
    if n > 0 {
      PowerIsOne(a, n - 1);
      OnesTimes(a, Power(a, n - 1));
    }
  }

  lemma OnesTimes(x: nat, y: nat)
    requires x % 4 == 1 && y % 4 == 1
    ensures Times(x, y) % 4 == 1
  {
    ModOfBothFactors(x, y, 4);
  }

  lemma {:induction false} GeometricJoins(a: nat, m: nat, n: nat)
    ensures Geometric(a, m + n) == Geometric(a, n) + Times(Power(a, n), Geometric(a, m))
  {
    hide Times;
    if n > 0 {
      GeometricJoins(a, m, n - 1);
      var g, p, h := Geometric(a, n - 1), Power(a, n - 1), Geometric(a, m);
      TimesSum(a, g, Times(p, h));
      TimesTimes(a, p, h);
    } else {
      TimesSmall(Geometric(a, m));
    }
  }

  lemma {:induction false} GeometricParity(a: nat, n: nat)
    requires a % 2 == 1
    ensures Geometric(a, n) % 2 == n % 2
  {
    hide Times;
    if n > 0 {
      GeometricParity(a, n - 1);
      OddTimes(a, Geometric(a, n - 1));
    }
  }

  /** Doubling n doubles the sum, up to an odd factor. */
  lemma GeometricDoubles(a: nat, m: nat) returns (o: nat)
    requires a % 4 == 1
    ensures o % 2 == 1 && Geometric(a, 2 * m) == 2 * Times(o, Geometric(a, m))
  {
    hide Times, Geometric, Power;
    var g, p := Geometric(a, m), Power(a, m);
    GeometricJoins(a, m, m);
    PowerIsOne(a, m);
    o := HalfOfNext(p);
    TimesSum(g, 1, p);
    TimesSmall(g);
    TimesSum(g, o, o);
  }

  lemma HalfOfNext(p: nat) returns (o: nat)
    requires p % 4 == 1
    ensures 1 + p == o + o && o % 2 == 1
  {
    o := (p + 1) / 2;
  }

  /** 2^k divides 1 + a + ... + a^(n-1) exactly when it divides n. */
  lemma {:induction false} GeometricValuation(k: nat, a: nat, n: nat)
    requires a % 4 == 1
    ensures Divides(Pow2(k), Geometric(a, n)) <==> Divides(Pow2(k), n)
    decreases k
  {
    if k == 0 {
      DividedByOne(n);
      DividedByOne(Geometric(a, n));
    } else if n % 2 == 1 {
      GeometricParity(a, n);
      OddIsNotDivided(k, n);
      OddIsNotDivided(k, Geometric(a, n));
    } else {
      hide Divides, Geometric, Times;
      var m := n / 2;
      var o := GeometricDoubles(a, m);
      GeometricValuation(k - 1, a, m);
      OddCancels(k - 1, o, Geometric(a, m));
      DividesTwice(Pow2(k - 1), Times(o, Geometric(a, m)));
      DividesTwice(Pow2(k - 1), m);
    }
  }

  // ---------------------------------------------------------------- the period

  ghost predicate FullPeriod(k: nat, a: nat, c: nat) {
    forall x: nat | x < Pow2(k) :: Visited(k, a, c, Pow2(k), x) == Residues(Pow2(k))
  }

  function Residues(m: nat): (r: set<nat>)
    ensures forall y: nat :: y in r <==> y < m
  {
    if m == 0 then {} else Residues(m - 1) + {m - 1}
  }

  lemma EqualResiduesDivide(y: nat, z: nat, m: nat)
    requires m > 0 && y % m == (y + z) % m
    ensures Divides(m, z)
  {
    ModOfDifference(y + z, y, m);
    SmallMod(0, m);
  }

  /** Coming back to the same residue after n steps takes a multiple of 2^k steps. */
  lemma ComingBack(k: nat, a: nat, c: nat, y: nat, n: nat)
    requires a % 4 == 1 && c % 2 == 1
    requires Iterate(a, c, n, y) % Pow2(k) == y % Pow2(k)
    ensures Divides(Pow2(k), n)
  {
    hide Times, Divides, Geometric, FirstStep, Iterate, Pow2;
    var g, d := Geometric(a, n), FirstStep(a, c, y);
    IterateGap(a, c, n, y);
    FirstStepIsOdd(a, c, y);
    EqualResiduesDivide(y, Times(g, d), Pow2(k));
    TimesSwaps(g, d);
    OddCancels(k, d, g);
    GeometricValuation(k, a, n);
  }

  lemma FirstStepIsOdd(a: nat, c: nat, x: nat)
    requires a % 4 == 1 && c % 2 == 1
    ensures FirstStep(a, c, x) % 2 == 1
  {
    hide Times;
    TimesSwaps(a - 1, x);
    OddSplits((a - 1) / 2, x);
  }

  /** Fewer than 2^k hops never come back to a residue. */
  lemma HopsAreDistinct(k: nat, a: nat, c: nat, x: nat, i: nat, j: nat)
    requires a % 4 == 1 && c % 2 == 1 && x < Pow2(k)
    requires i < j < i + Pow2(k)
    ensures Hops(k, a, c, i, x) != Hops(k, a, c, j, x)
  {
    HopsAreResidues(k, a, c, i, x);
    HopsAreResidues(k, a, c, j, x);
    IterateJoins(a, c, i, j - i, x);
    if Hops(k, a, c, i, x) == Hops(k, a, c, j, x) {
      ComingBack(k, a, c, Iterate(a, c, i, x), j - i);
      SmallMod(j - i, Pow2(k));
    }
  }

  lemma {:induction false} VisitedSize(k: nat, a: nat, c: nat, x: nat, n: nat)
    requires a % 4 == 1 && c % 2 == 1 && x < Pow2(k) && n <= Pow2(k)
    ensures |Visited(k, a, c, n, x)| == n
  {
    if n > 0 {
      VisitedSize(k, a, c, x, n - 1);
      var before, h := Visited(k, a, c, n - 1, x), Hops(k, a, c, n - 1, x);
      forall i: nat | i < n - 1 ensures Hops(k, a, c, i, x) != h {
        HopsAreDistinct(k, a, c, x, i, n - 1);
      }
      assert Visited(k, a, c, n, x) == before + {h} && h !in before;
    } else {
      assert Visited(k, a, c, 0, x) == {};
    }
  }

  lemma {:induction false} ResiduesSize(m: nat)
    ensures |Residues(m)| == m
  {
    if m > 0 {
      ResiduesSize(m - 1);
    }
  }

  lemma SubsetOfSameSize(s: set<nat>, t: set<nat>)
    requires s <= t && |s| == |t|
    ensures s == t
  {
    if s != t {
      var y :| y in t && y !in s;
      assert s <= t - {y};
      SizeOfSubset(s, t - {y});
    }
  }

  lemma {:induction false} SizeOfSubset(s: set<nat>, t: set<nat>)
    requires s <= t
    ensures |s| <= |t|
    decreases |s|
  {
    if s != {} {
      var y :| y in s;
      SizeOfSubset(s - {y}, t - {y});
    }
  }

  lemma {:induction false} HopsInRange(k: nat, a: nat, c: nat, n: nat, x: nat)
    requires x < Pow2(k)
    ensures Hops(k, a, c, n, x) < Pow2(k)
  {
  }

  lemma GoodMultipliersCycle(k: nat, a: nat, c: nat)
    requires a % 4 == 1 && c % 2 == 1
    ensures FullPeriod(k, a, c)
  {
    forall x: nat | x < Pow2(k) ensures Visited(k, a, c, Pow2(k), x) == Residues(Pow2(k)) {
      var v := Visited(k, a, c, Pow2(k), x);
      forall i: nat | i < Pow2(k) ensures Hops(k, a, c, i, x) in Residues(Pow2(k)) { HopsInRange(k, a, c, i, x); }
      VisitedSize(k, a, c, x, Pow2(k));
      ResiduesSize(Pow2(k));
      SubsetOfSameSize(v, Residues(Pow2(k)));
    }
  }

  // ---------------------------------------------------------------- no other multiplier does

  lemma ModFourOfMod(k: nat, y: nat)
    requires k >= 2
    ensures (y % Pow2(k)) % 4 == y % 4
  {
    var m := Pow2(k - 2);
    assert Pow2(k) == 2 * Pow2(k - 1) == 4 * m;
    ModOfMultiple(y, m, 4);
    assert m * 4 == Pow2(k);
  }

  /** What a hop does to the residue modulo 4. */
  lemma NextModFour(k: nat, a: nat, c: nat, x: nat)
    requires k >= 2
    ensures Next(k, a, c, x) % 4 == ((a % 4) * (x % 4) + c % 4) % 4
  {
    ModFourOfMod(k, a * x + c);
    ModOfBothFactors(a, x, 4);
    ModOfBothTerms(a * x, c, 4);
    ModOfBothTerms((a % 4) * (x % 4), c % 4, 4);
    SmallMod(c % 4, 4);
  }

  /** The residues modulo 4 that a walk from 0 can be at after n hops. */
  predicate Possible(p: nat, r: nat, n: nat, h: nat) {
    if r % 2 == 0 then h % 2 == 0
    else if p % 2 == 0 then n == 0 || h % 2 == 1
    else h == (if n % 2 == 0 then 0 else r)
  }

  lemma PossibleStep(p: nat, r: nat, n: nat, h: nat)
    requires p < 4 && r < 4 && h < 4 && !(p == 1 && r % 2 == 1) && Possible(p, r, n, h)
    ensures Possible(p, r, n + 1, (p * h + r) % 4)
  {
    assert p in {0, 1, 2, 3} && h in {0, 1, 2, 3};
  }

  /** Starting from 0, one of the residues 1 and 2 modulo 4 is never met. */
  lemma {:induction false} BadMultipliersMiss(k: nat, a: nat, c: nat, n: nat)
    requires k >= 2 && !(a % 4 == 1 && c % 2 == 1)
    ensures Possible(a % 4, c % 4, n, Hops(k, a, c, n, 0) % 4)
  {
    hide Next;
    if n > 0 {
      BadMultipliersMiss(k, a, c, n - 1);
      var h := Hops(k, a, c, n - 1, 0);
      NextModFour(k, a, c, h);
      PossibleStep(a % 4, c % 4, n - 1, h % 4);
    }
  }

  lemma {:induction false} AtLeastFour(k: nat)
    requires k >= 2
    ensures Pow2(k) >= 4
  {
    if k > 2 { AtLeastFour(k - 1); } else { assert Pow2(2) == 2 * Pow2(1) == 4 * Pow2(0); }
  }

  lemma BadMultipliersDoNotCycle(k: nat, a: nat, c: nat)
    requires k >= 2 && !(a % 4 == 1 && c % 2 == 1)
    ensures !FullPeriod(k, a, c)
  {
    AtLeastFour(k);
    var missing: nat := if c % 2 == 0 then 1 else 2;
    forall i: nat ensures Hops(k, a, c, i, 0) != missing {
      MissesOne(k, a, c, i, missing);
    }
    hide Pow2, Hops;
    assert missing in Residues(Pow2(k)) && missing !in Visited(k, a, c, Pow2(k), 0);
  }

  lemma MissesOne(k: nat, a: nat, c: nat, i: nat, missing: nat)
    requires k >= 2 && !(a % 4 == 1 && c % 2 == 1) && missing == if c % 2 == 0 then 1 else 2
    ensures Hops(k, a, c, i, 0) != missing
  {
    BadMultipliersMiss(k, a, c, i);
    assert c % 4 % 2 == c % 2;
  }

  /** The map is a single cycle through all 2^k residues if and only if a = 1 mod 4 and c is odd. */
  lemma FullPeriodExactly(k: nat, a: nat, c: nat)
    requires k >= 2
    ensures FullPeriod(k, a, c) <==> a % 4 == 1 && c % 2 == 1
  {
    if a % 4 == 1 && c % 2 == 1 {
      GoodMultipliersCycle(k, a, c);
    } else {
      BadMultipliersDoNotCycle(k, a, c);
    }
  }
}
