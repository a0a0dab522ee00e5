/** Exclusive or and rotation on numbers, and what they do to single bits. */
module Bits {
  import opened Modular

  /** The digits of w in base two from place k on. */
  function High(w: nat, k: nat): nat {
    if k == 0 then w else High(w / 2, k - 1)
  }

  /** The digits below place k. */
  function Low(w: nat, k: nat): nat {
    if k == 0 then 0 else 2 * Low(w / 2, k - 1) + w % 2
  }

  function Bit(w: nat, i: nat): (b: nat)
    ensures b < 2
  {
    High(w, i) % 2
  }

  lemma {:induction false} HighIs(w: nat, k: nat)
    ensures High(w, k) == w / Pow2(k)
  {
    if k > 0 {
      HighIs(w / 2, k - 1);
      HalfOfQuotient(w, Pow2(k - 1));
    }
  }

  lemma HalfOfQuotient(w: nat, p: nat)
    requires p > 0
    ensures w / 2 / p == w / (2 * p)
  {
    var (q, r) := (w / (2 * p), w % (2 * p));
    assert w == q * (2 * p) + r;
    TwiceInside(q, p);
    DivModIs(w / 2, q, r / 2, p);
  }

  lemma TwiceInside(q: int, p: int)
    ensures q * (2 * p) == 2 * (q * p)
  {
  }

  lemma {:induction false} LowIs(w: nat, k: nat)
    ensures Low(w, k) == w % Pow2(k)
  {
    HighIs(w, k);
    Parts(w, k);
    hide High, Low, Times;
    TimesIs(High(w, k), Pow2(k));
    DivModIs(w, High(w, k), Low(w, k), Pow2(k));
  }

  lemma TimesIs(x: nat, y: nat)
    ensures Times(x, y) == x * y
  {
  }

  lemma {:induction false} Parts(w: nat, k: nat)
    ensures w == Times(High(w, k), Pow2(k)) + Low(w, k) && Low(w, k) < Pow2(k)
  {
    hide Times;
    if k == 0 {
      TimesSmall(w);
    } else {
      Parts(w / 2, k - 1);
      TimesSum(High(w, k), Pow2(k - 1), Pow2(k - 1));
    }
  }

  lemma {:induction false} Joined(high: nat, low: nat, k: nat)
    requires low < Pow2(k)
    ensures High(Times(high, Pow2(k)) + low, k) == high && Low(Times(high, Pow2(k)) + low, k) == low
  {
    hide Times;
    if k == 0 {
      TimesSmall(high);
    } else {
      TimesSum(high, Pow2(k - 1), Pow2(k - 1));
      Joined(high, low / 2, k - 1);
    }
  }

  // ---------------------------------------------------------------- exclusive or

  /** Digit by digit, without a carry. */
  function XorOf(a: nat, b: nat): nat
    decreases a + b
  {
    if a == 0 && b == 0 then 0 else 2 * XorOf(a / 2, b / 2) + (a + b) % 2
  }

  lemma TwiceAndDigit(x: nat, d: nat)
    requires d < 2
    ensures (2 * x + d) / 2 == x && (2 * x + d) % 2 == d
  {
  }

  lemma NothingToXor()
    ensures XorOf(0, 0) == 0
  {
  }

  lemma XorUnfolds(a: nat, b: nat)
    requires a + b > 0
    ensures XorOf(a, b) == 2 * XorOf(a / 2, b / 2) + (a + b) % 2
  {
  }

  lemma XorDigits(a: nat, b: nat)
    ensures XorOf(a, b) % 2 == (a + b) % 2 && XorOf(a, b) / 2 == XorOf(a / 2, b / 2)
  {
    hide XorOf;
    NothingToXor();
    if a + b > 0 {
      XorUnfolds(a, b);
      TwiceAndDigit(XorOf(a / 2, b / 2), (a + b) % 2);
    }
  }

  /** Every bit of an exclusive or is the sum of two bits, modulo two. */
  lemma {:induction false} XorBits(a: nat, b: nat, i: nat)
    ensures Bit(XorOf(a, b), i) == (Bit(a, i) + Bit(b, i)) % 2
  {
    XorDigits(a, b);
    hide XorOf;
    if i > 0 { XorBits(a / 2, b / 2, i - 1); }
  }

  lemma {:induction false} XorFits(a: nat, b: nat, n: nat)
    requires a < Pow2(n) && b < Pow2(n)
    ensures XorOf(a, b) < Pow2(n)
  {
    XorDigits(a, b);
    NothingToXor();
    hide XorOf;
    if n > 0 { XorFits(a / 2, b / 2, n - 1); }
  }

  lemma {:induction false} XorZero(a: nat)
    ensures XorOf(a, 0) == a == XorOf(0, a)
  {
    XorDigits(a, 0);
    XorDigits(0, a);
    NothingToXor();
    hide XorOf;
    if a > 0 { XorZero(a / 2); }
  }

  lemma {:induction false} XorSelf(a: nat)
    ensures XorOf(a, a) == 0
  {
    XorDigits(a, a);
    NothingToXor();
    hide XorOf;
    if a > 0 { XorSelf(a / 2); }
  }

  lemma {:induction false} XorCommutes(a: nat, b: nat)
    ensures XorOf(a, b) == XorOf(b, a)
    decreases a + b
  {
    XorDigits(a, b);
    XorDigits(b, a);
    hide XorOf;
    if a + b > 0 { XorCommutes(a / 2, b / 2); }
  }

  lemma {:induction false} XorRegroups(a: nat, b: nat, c: nat)
    ensures XorOf(XorOf(a, b), c) == XorOf(a, XorOf(b, c))
    decreases a + b + c
  {
    hide XorOf;
    var (left, right) := (XorOf(XorOf(a, b), c), XorOf(a, XorOf(b, c)));
    if a + b + c == 0 {
      NothingToXor();
    } else {
      XorRegroups(a / 2, b / 2, c / 2);
      XorDigits(a, b);
      XorDigits(b, c);
      XorDigits(XorOf(a, b), c);
      XorDigits(a, XorOf(b, c));
      SameParity(XorOf(a, b), a + b, c, c);
      SameParity(a, a, XorOf(b, c), b + c);
      SameDigits(left, right);
    }
  }

  lemma SameDigits(x: nat, y: nat)
    requires x / 2 == y / 2 && x % 2 == y % 2
    ensures x == y
  {
  }

  /** Exclusive or works on the two parts of a number apart. */
  lemma {:induction false} XorHigh(a: nat, b: nat, k: nat)
    ensures High(XorOf(a, b), k) == XorOf(High(a, k), High(b, k))
  {
    hide XorOf;
    XorDigits(a, b);
    if k > 0 { XorHigh(a / 2, b / 2, k - 1); }
  }

  lemma LowDigits(w: nat, k: nat)
    requires k > 0
    ensures Low(w, k) % 2 == w % 2 && Low(w, k) / 2 == Low(w / 2, k - 1)
  {
    TwiceAndDigit(Low(w / 2, k - 1), w % 2);
  }

  lemma {:induction false} XorLow(a: nat, b: nat, k: nat)
    ensures Low(XorOf(a, b), k) == XorOf(Low(a, k), Low(b, k))
  {
    hide XorOf;
    if k == 0 {
      NothingToXor();
    } else {
      XorLow(a / 2, b / 2, k - 1);
      LowDigits(a, k);
      LowDigits(b, k);
      LowDigits(XorOf(a, b), k);
      XorDigits(a, b);
      XorDigits(Low(a, k), Low(b, k));
      hide Low;
      SameParity(Low(a, k), a, Low(b, k), b);
      SameDigits(Low(XorOf(a, b), k), XorOf(Low(a, k), Low(b, k)));
    }
  }

  /** What lies above the digits of b stays. */
  lemma XorBelow(h: nat, l: nat, b: nat, k: nat)
    requires l < Pow2(k) && b < Pow2(k)
    ensures XorOf(Times(h, Pow2(k)) + l, b) == Times(h, Pow2(k)) + XorOf(l, b)
  {
    hide XorOf, High, Low, Times, Pow2;
    var a := Times(h, Pow2(k)) + l;
    Joined(h, l, k);
    TimesSmall(Pow2(k));
    Joined(0, b, k);
    XorHigh(a, b, k);
    XorLow(a, b, k);
    XorZero(h);
    Parts(XorOf(a, b), k);
  }

  /** A bit above all others is added, or taken away. */
  lemma XorTop(k: nat, x: nat)
    requires x < Pow2(k)
    ensures XorOf(Pow2(k), x) == Pow2(k) + x && XorOf(Pow2(k), Pow2(k) + x) == x
  {
    hide XorOf, Times;
    TimesSmall(Pow2(k));
    XorBelow(1, 0, x, k);
    XorZero(x);
    XorSelf(Pow2(k));
    XorRegroups(Pow2(k), Pow2(k), x);
  }

  lemma SameParity(x: nat, a: nat, y: nat, b: nat)
    requires x % 2 == a % 2 && y % 2 == b % 2
    ensures (x + y) % 2 == (a + b) % 2
  {
  }

  // ---------------------------------------------------------------- rotation

  /** A word of n bits turned left by r places: the low part moves up, and the high part comes below it. */
  function Rotated(w: nat, r: nat, n: nat): nat
    requires r <= n
  {
    Times(Low(w, n - r), Pow2(r)) + High(w, n - r)
  }

  lemma {:induction false} Pow2Sum(j: nat, k: nat)
    ensures Pow2(j + k) == Times(Pow2(j), Pow2(k))
  {
    hide Times;
    TimesSmall(Pow2(k));
    if j > 0 {
      Pow2Sum(j - 1, k);
      TimesSum(Pow2(k), Pow2(j - 1), Pow2(j - 1));
    }
  }

  lemma {:induction false} HighFits(w: nat, j: nat, k: nat)
    requires w < Pow2(j + k)
    ensures High(w, k) < Pow2(j)
  {
    if k > 0 { HighFits(w / 2, j, k - 1); }
  }

  lemma {:induction false} LowFits(w: nat, k: nat)
    ensures Low(w, k) < Pow2(k)
  {
    if k > 0 { LowFits(w / 2, k - 1); }
  }

  lemma {:induction false} JoinedFits(high: nat, low: nat, j: nat, k: nat)
    requires high < Pow2(j) && low < Pow2(k)
    ensures Times(high, Pow2(k)) + low < Pow2(j + k)
  {
    hide Times;
    if k == 0 {
      TimesSmall(high);
    } else {
      TimesSum(high, Pow2(k - 1), Pow2(k - 1));
      JoinedFits(high, low / 2, j, k - 1);
    }
  }

  lemma RotatedFits(w: nat, r: nat, n: nat)
    requires r <= n && w < Pow2(n)
    ensures High(w, n - r) < Pow2(r) && Rotated(w, r, n) < Pow2(n)
  {
    HighFits(w, r, n - r);
    LowFits(w, n - r);
    JoinedFits(Low(w, n - r), High(w, n - r), n - r, r);
  }

  lemma {:induction false} ZeroParts(k: nat)
    ensures High(0, k) == Low(0, k) == 0
  {
    if k > 0 { ZeroParts(k - 1); }
  }

  lemma RotatedZero(r: nat, n: nat)
    requires r <= n
    ensures Rotated(0, r, n) == 0
  {
    ZeroParts(n - r);
    TimesSmall(Pow2(r));
    hide Times, Pow2, High, Low;
  }

  lemma {:induction false} BitAbove(w: nat, j: nat, i: nat)
    ensures Bit(High(w, j), i) == Bit(w, j + i)
  {
    if j > 0 { BitAbove(w / 2, j - 1, i); }
  }

  lemma {:induction false} BitBelow(w: nat, k: nat, i: nat)
    requires i < k
    ensures Bit(Low(w, k), i) == Bit(w, i)
  {
    if i > 0 { BitBelow(w / 2, k - 1, i - 1); }
  }

  /** Bit i goes to place i + r, around the end. */
  lemma RotatedBits(w: nat, r: nat, n: nat, i: nat)
    requires r <= n && w < Pow2(n) && i < n
    ensures Bit(Rotated(w, r, n), (i + r) % n) == Bit(w, i)
  {
    RotatedFits(w, r, n);
    var turned := Rotated(w, r, n);
    Joined(Low(w, n - r), High(w, n - r), r);
    hide Bit, Times, Pow2, High, Low;
    if i < n - r {
      SmallMod(i + r, n);
      BitAbove(turned, r, i);
      BitBelow(w, n - r, i);
    } else {
      DivModIs(i + r, 1, i + r - n, n);
      BitBelow(turned, r, i + r - n);
      BitAbove(w, n - r, i + r - n);
    }
  }
}
