/** The sieve over a buffer that outlives its calls, and the sieve it is compared with. */
module Sieve {
  import opened Bytes
  import opened Modular

  predicate Divides(d: nat, m: nat)
    requires d > 0
  {
    m % d == 0
  }

  function Square(d: nat): nat { d * d }

  predicate Prime(k: nat) {
    k >= 2 && forall d | 2 <= d < k :: !Divides(d, k)
  }

  /** The primes up to n. */
  ghost function Primes(n: int): set<nat> {
    set p: nat | p <= n && Prime(p)
  }

  predicate Crosses(d: nat, m: nat)
    requires d > 0
  {
    Square(d) <= m && Divides(d, m)
  }

  /** m is a multiple of some number below p, at or past that number's square. */
  predicate Crossed(m: nat, p: nat) {
    exists d | 2 <= d < p :: Crosses(d, m)
  }

  // ---------------------------------------------------------------- multiples and squares

  lemma DividesThrough(d: nat, p: nat, m: nat)
    requires 0 < d && 0 < p && Divides(d, p) && Divides(p, m)
    ensures Divides(d, m)
  {
    var k := p / d;
    assert p == k * d;
    assert k > 0 by {
      if k <= 0 { NoFactor(k, d); }
    }
    ModOfMultiple(m, k, d);
    SmallMod(0, d);
  }

  lemma NoFactor(k: int, d: nat)
    requires k <= 0
    ensures k * d <= 0
  {
  }

  lemma SquareOfSum(d: nat, k: nat)
    ensures Square(d + k) == Square(d) + k * (2 * d + k)
    ensures k * (2 * d + k) >= 0
  {
  }

  lemma SquareGrows(d: nat, p: nat)
    ensures d <= p ==> Square(d) <= Square(p)
    ensures Square(d) < Square(p) ==> d < p
  {
    hide Square;
    if d <= p { SquareOfSum(d, p - d); } else { SquareOfSum(p, d - p); }
  }

  lemma SquareIsMore(d: nat)
    requires d >= 2
    ensures d < Square(d)
  {
    assert d * d == (d - 2) * d + 2 * d;
  }

  lemma CofactorIs(d: nat, m: nat) returns (e: nat)
    requires 2 <= d < m && Divides(d, m)
    ensures 2 <= e && Divides(e, m)
    ensures d <= e ==> Square(d) <= m
    ensures e <= d ==> Square(e) <= m
  {
    e := m / d;
    assert m == d * e;
    assert e != 0 && e != 1;
    Factors(d, e);
  }

  lemma Factors(d: nat, e: nat)
    requires e > 0
    ensures Divides(e, d * e)
    ensures d <= e ==> Square(d) <= d * e
    ensures e <= d ==> Square(e) <= d * e
  {
    hide Square;
    ModPlusMultiple(0, d, e);
    SmallMod(0, e);
    if d <= e { ProductOfSum(d, e - d); }
    if e <= d { ProductOfSum(e, d - e); }
    Commutes(d, e);
  }

  lemma ProductOfSum(d: nat, k: nat)
    ensures d * (d + k) == Square(d) + d * k
    ensures d * k >= 0
  {
  }

  /** Between two neighbouring multiples of p there is none. */
  lemma NextMultiple(m: nat, p: nat)
    requires p > 0 && Divides(p, m)
    ensures Divides(p, m + p)
    ensures forall j | m < j < m + p :: !Divides(p, j)
  {
    ModPlusMultiple(m, 1, p);
    forall j | m < j < m + p ensures !Divides(p, j) {
      assert m == m / p * p;
      DivModIs(j, m / p, j - m, p);
    }
  }

  lemma SquareIsMultiple(p: nat)
    requires p > 0
    ensures Divides(p, Square(p))
  {
    ModPlusMultiple(0, p, p);
    SmallMod(0, p);
  }

  // ---------------------------------------------------------------- what is crossed out

  /** Crossing out the multiples of a number that is crossed out itself changes nothing. */
  lemma CompositeAddsNothing(m: nat, p: nat)
    requires p >= 2 && Crossed(p, p) && Crosses(p, m)
    ensures Crossed(m, p)
  {
    hide Square, Divides;
    var d :| 2 <= d < p && Crosses(d, p);
    DividesThrough(d, p, m);
    SquareGrows(d, p);
    assert Crosses(d, m);
  }

  lemma CrossedStep(m: nat, p: nat)
    requires p >= 2
    ensures Crossed(m, p + 1) <==> Crossed(m, p) || Crosses(p, m)
  {
    hide Crosses;
    if d :| 2 <= d < p + 1 && Crosses(d, m) { assert d < p ==> Crossed(m, p); }
    if d :| 2 <= d < p && Crosses(d, m) { assert d < p + 1; }
  }

  /** Of two cofactors one is not above the square root. */
  lemma CrossedIffComposite(m: nat, p: nat)
    requires m >= 2 && Square(p) > m
    ensures Crossed(m, p) <==> !Prime(m)
  {
    hide Square, Divides;
    if d :| 2 <= d < p && Crosses(d, m) {
      SquareIsMore(d);
      assert 2 <= d < m && Divides(d, m);
    }
    if !Prime(m) {
      var d :| 2 <= d < m && Divides(d, m);
      var e := CofactorIs(d, m);
      var f := if d <= e then d else e;
      SquareGrows(f, p);
      assert Crosses(f, m);
    }
  }

  lemma MorePrimes(i: nat)
    requires i >= 2
    ensures Primes(i) == Primes(i - 1) + if Prime(i) then {i} else {}
    ensures i !in Primes(i - 1)
  {
    hide Prime;
  }

  lemma NoPrimes(n: int)
    requires n < 2
    ensures Primes(n) == {}
  {
  }

  // ---------------------------------------------------------------- the buffer

  /** Everything below p has been crossed, and the multiples of p below m. */
  predicate Marked(s: seq<bool>, n: int, p: nat, m: nat)
    requires n < |s| && p >= 2
  {
    forall j | 0 <= j <= n :: s[j] <==> Crossed(j, p) || (j < m && Crosses(p, j))
  }

  /** A byte marks a number when it is not zero. */
  function Flags(bytes: seq<Byte>): (s: seq<bool>)
    ensures |s| == |bytes|
    ensures forall i | 0 <= i < |s| :: s[i] == (bytes[i] != 0)
  {
    if bytes == [] then [] else Flags(bytes[..|bytes|-1]) + [bytes[|bytes|-1] != 0]
  }

  lemma FlagOne(bytes: seq<Byte>, m: nat)
    requires m < |bytes|
    ensures Flags(bytes[m := 1]) == Flags(bytes)[m := true]
  {
  }

  lemma MarkOne(s: seq<bool>, n: nat, p: nat, m: nat)
    requires n < |s| && p >= 2 && Square(p) <= m <= n && Divides(p, m)
    requires Marked(s, n, p, m)
    ensures Marked(s[m := true], n, p, m + p) && Divides(p, m + p)
  {
    hide Crossed, Divides, Square;
    NextMultiple(m, p);
  }

  lemma NextRow(s: seq<bool>, n: int, p: nat, m: nat)
    requires n < |s| && p >= 2 && n < m && Marked(s, n, p, m)
    ensures Marked(s, n, p + 1, Square(p + 1))
  {
    hide Crossed, Divides, Square;
    forall j | 0 <= j <= n ensures s[j] <==> Crossed(j, p + 1) || (j < Square(p + 1) && Crosses(p + 1, j)) {
      CrossedStep(j, p);
    }
  }

  /** A row that is skipped is one that was crossed out already. */
  lemma SkipRow(s: seq<bool>, n: int, p: nat)
    requires n < |s| && p >= 2 && p <= n && s[p] && Marked(s, n, p, Square(p))
    ensures Marked(s, n, p, n + 1)
  {
    hide Crossed, Divides, Square;
    SquareIsMore(p);
    forall j | 0 <= j <= n ensures s[j] <==> Crossed(j, p) || Crosses(p, j) {
      if Crosses(p, j) { CompositeAddsNothing(j, p); }
    }
  }

  lemma NothingMarked(s: seq<bool>, n: int)
    requires n < |s| && forall j | 0 <= j <= n :: !s[j]
    ensures Marked(s, n, 2, Square(2))
  {
  }

  lemma UnmarkedIsPrime(s: seq<bool>, n: int, p: nat, i: nat)
    requires n < |s| && p >= 2 && Marked(s, n, p, Square(p)) && n < Square(p) && 2 <= i <= n
    ensures !s[i] <==> Prime(i)
  {
    hide Crossed, Square;
    CrossedIffComposite(i, p);
  }

  // ---------------------------------------------------------------- the two sieves

  /** The count of primes, whatever an earlier call left in the buffer. */
  method Sieve(buffer: array<Byte>, n: int) returns (count: int)
    requires buffer.Length == 10_001
    modifies buffer
    ensures count == if 0 <= n <= 10_000 then |Primes(n)| else -1
    ensures n < 0 || n > 10_000 ==> buffer[..] == old(buffer[..])
  {
    hide Marked, Square, Divides, Prime, Primes;
    hide Flags;
    // The cast to usize makes a negative argument large.
    if n < 0 || n > 10_000 { return -1; }
    for i := 0 to n + 1
      invariant forall j | 0 <= j < i :: buffer[j] == 0
    {
      buffer[i] := 0;
    }
    NothingMarked(Flags(buffer[..]), n);
    var p := 2;
    while Square(p) <= n
      invariant p >= 2 && Marked(Flags(buffer[..]), n, p, Square(p))
      decreases n + 1 - p
    {
      SquareIsMore(p);
      if buffer[p] == 0 {
        SquareIsMultiple(p);
        var m := Square(p);
        while m <= n
          invariant Square(p) <= m && Divides(p, m) && Marked(Flags(buffer[..]), n, p, m)
        {
          MarkOne(Flags(buffer[..]), n, p, m);
          ghost var before := buffer[..];
          buffer[m] := 1;
          assert buffer[..] == before[m := 1];
          FlagOne(before, m);
          m := m + p;
        }
        NextRow(Flags(buffer[..]), n, p, m);
      } else {
        SkipRow(Flags(buffer[..]), n, p);
        NextRow(Flags(buffer[..]), n, p, n + 1);
      }
      p := p + 1;
    }
    ghost var final := Flags(buffer[..]);
    count := 0;
    NoPrimes(1);
    if n < 2 { NoPrimes(n); }
    var i := 2;
    while i <= n
      invariant 2 <= i && (i <= n + 1 || i == 2)
      invariant count == |Primes(i - 1)|
      invariant Flags(buffer[..]) == final
    {
      UnmarkedIsPrime(final, n, p, i);
      MorePrimes(i);
      if buffer[i] == 0 { count := count + 1; }
      i := i + 1;
    }
    assert n >= 2 ==> i - 1 == n;
  }

  /** The same count for every n, over a vector of its own. */
  method Reference(n: int) returns (count: nat)
    ensures count == |Primes(n)|
  {
    hide Marked, Square, Divides, Prime, Primes;
    NoPrimes(1);
    if n < 2 {
      NoPrimes(n);
      return 0;
    }
    var sieve := new bool[n + 1](i => false);
    NothingMarked(sieve[..], n);
    var p := 2;
    while Square(p) <= n
      invariant p >= 2 && Marked(sieve[..], n, p, Square(p))
      decreases n + 1 - p
    {
      SquareIsMore(p);
      if !sieve[p] {
        SquareIsMultiple(p);
        var m := Square(p);
        while m <= n
          invariant Square(p) <= m && Divides(p, m) && Marked(sieve[..], n, p, m)
        {
          MarkOne(sieve[..], n, p, m);
          ghost var before := sieve[..];
          sieve[m] := true;
          assert sieve[..] == before[m := true];
          m := m + p;
        }
        NextRow(sieve[..], n, p, m);
      } else {
        SkipRow(sieve[..], n, p);
        NextRow(sieve[..], n, p, n + 1);
      }
      p := p + 1;
    }
    ghost var final := sieve[..];
    count := 0;
    for i := 2 to n + 1
      invariant count == |Primes(i - 1)|
      invariant sieve[..] == final
    {
      UnmarkedIsPrime(final, n, p, i);
      MorePrimes(i);
      if !sieve[i] { count := count + 1; }
    }
  }
}
