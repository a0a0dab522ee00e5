/**
 * The statements of the exception-handling workload: their grammar, and the counter
 * automaton that reads them one byte at a time.
 */
module Grammar {
  import opened Bytes
  import opened Options

  type Text = seq<Byte>
  type Digit = d: int | 0 <= d < 10

  const STAR: Byte := 42
  const PLUS: Byte := 43
  const OPEN: Byte := 40
  const CLOSE: Byte := 41
  const SEMI: Byte := 59
  const ZERO: Byte := 48

  predicate IsDigit(b: Byte) { 48 <= b < 58 }

  // ---------------------------------------------------------------- the grammar

  datatype Factor = Number(d: Digit) | Paren(inner: Expr)
  datatype Term = One(f: Factor) | Times(left: Term, f: Factor)
  datatype Expr = Single(t: Term) | Plus(left: Expr, t: Term)

  function FactorText(f: Factor): (r: Text)
    ensures |r| > 0
  {
    match f
    case Number(d) => [ZERO + d]
    case Paren(e) => [OPEN] + ExprText(e) + [CLOSE]
  }

  function TermText(t: Term): (r: Text)
    ensures |r| > 0
  {
    match t
    case One(f) => FactorText(f)
    case Times(l, f) => TermText(l) + [STAR] + FactorText(f)
  }

  function ExprText(e: Expr): (r: Text)
    ensures |r| > 0
  {
    match e
    case Single(t) => TermText(t)
    case Plus(l, t) => ExprText(l) + [PLUS] + TermText(t)
  }

  function FactorValue(f: Factor): Word {
    match f
    case Number(d) => d
    case Paren(e) => ExprValue(e)
  }

  function TermValue(t: Term): Word {
    match t
    case One(f) => FactorValue(f)
    case Times(l, f) => Wrap(TermValue(l) * FactorValue(f))
  }

  /** Multiplication binds tighter than addition; both wrap at 32 bits. */
  function ExprValue(e: Expr): Word {
    match e
    case Single(t) => TermValue(t)
    case Plus(l, t) => Wrap(ExprValue(l) + TermValue(t))
  }

  function StatementText(e: Expr): Text { ExprText(e) + [SEMI] }

  /** Some well-formed statement starts with u. */
  ghost predicate Viable(u: Text) {
    exists e :: u <= StatementText(e)
  }

  // ---------------------------------------------------------------- the automaton

  datatype State = Operand(depth: nat) | Operator(depth: nat) | Done

  function Step(s: State, b: Byte): Option<State> {
    match s
    case Operand(d) => if IsDigit(b) then Some(Operator(d)) else if b == OPEN then Some(Operand(d + 1)) else None
    case Operator(d) =>
      if b == PLUS || b == STAR then Some(Operand(d))
      else if b == CLOSE && d > 0 then Some(Operator(d - 1))
      else if b == SEMI && d == 0 then Some(Done)
      else None
    case Done => None
  }

  /** The state after reading u, if every byte of it can be read. */
  function Scan(s: State, u: Text): Option<State> {
    if u == [] then Some(s) else
    match Scan(s, u[..|u|-1])
    case None => None
    case Some(before) => Step(before, u[|u|-1])
  }

  lemma {:induction false} ScanJoins(s: State, u: Text, v: Text)
    ensures Scan(s, u + v) == if Scan(s, u).None? then None else Scan(Scan(s, u).value, v)
  {
    if v == [] {
      assert u + v == u;
    } else {
      ScanJoins(s, u, v[..|v|-1]);
      assert (u + v)[..|u + v|-1] == u + v[..|v|-1];
    }
  }

  lemma ScanOne(s: State, b: Byte)
    ensures Scan(s, [b]) == Step(s, b)
  {
    assert [b][..0] == [];
    assert Scan(s, []) == Some(s);
  }

  lemma ScanPrefix(s: State, u: Text, v: Text)
    requires u <= v && Scan(s, v).Some?
    ensures Scan(s, u).Some?
  {
    assert v == u + v[|u|..];
    ScanJoins(s, u, v[|u|..]);
  }

  lemma {:induction false} ScanFactor(d: nat, f: Factor)
    ensures Scan(Operand(d), FactorText(f)) == Some(Operator(d))
    decreases f
  {
    match f
    case Number(n) => ScanOne(Operand(d), ZERO + n);
    case Paren(e) =>
      ScanOne(Operand(d), OPEN);
      ScanExpr(d + 1, e);
      ScanOne(Operator(d + 1), CLOSE);
      ScanJoins(Operand(d), [OPEN], ExprText(e));
      ScanJoins(Operand(d), [OPEN] + ExprText(e), [CLOSE]);
  }

  lemma {:induction false} ScanTerm(d: nat, t: Term)
    ensures Scan(Operand(d), TermText(t)) == Some(Operator(d))
    decreases t
  {
    match t
    case One(f) => ScanFactor(d, f);
    case Times(l, f) =>
      ScanTerm(d, l);
      ScanOne(Operator(d), STAR);
      ScanFactor(d, f);
      ScanJoins(Operand(d), TermText(l), [STAR]);
      ScanJoins(Operand(d), TermText(l) + [STAR], FactorText(f));
  }

  lemma {:induction false} ScanExpr(d: nat, e: Expr)
    ensures Scan(Operand(d), ExprText(e)) == Some(Operator(d))
    decreases e
  {
    match e
    case Single(t) => ScanTerm(d, t);
    case Plus(l, t) =>
      ScanExpr(d, l);
      ScanOne(Operator(d), PLUS);
      ScanTerm(d, t);
      ScanJoins(Operand(d), ExprText(l), [PLUS]);
      ScanJoins(Operand(d), ExprText(l) + [PLUS], TermText(t));
  }

  lemma ScanStatement(e: Expr)
    ensures Scan(Operand(0), StatementText(e)) == Some(Done)
  {
    ScanExpr(0, e);
    ScanOne(Operator(0), SEMI);
    ScanJoins(Operand(0), ExprText(e), [SEMI]);
  }

  // ---------------------------------------------------------------- every state can be finished

  function Closers(d: nat): (r: Text) {
    if d == 0 then [SEMI] else [CLOSE] + Closers(d - 1)
  }

  lemma {:induction false} ClosersFinish(d: nat)
    ensures Scan(Operator(d), Closers(d)) == Some(Done)
  {
    if d == 0 {
      ScanOne(Operator(0), SEMI);
    } else {
      ScanOne(Operator(d), CLOSE);
      ClosersFinish(d - 1);
      ScanJoins(Operator(d), [CLOSE], Closers(d - 1));
    }
  }

  lemma Completion(s: State) returns (v: Text)
    ensures Scan(s, v) == Some(Done)
  {
    match s
    case Operand(d) =>
      v := [ZERO] + Closers(d);
      ScanOne(s, ZERO);
      ClosersFinish(d);
      ScanJoins(s, [ZERO], Closers(d));
    case Operator(d) =>
      v := Closers(d);
      ClosersFinish(d);
    case Done => v := [];
  }

  // ---------------------------------------------------------------- counting bytes

  function Count(u: Text, p: Byte -> bool): nat {
    if u == [] then 0 else Count(u[..|u|-1], p) + (if p(u[|u|-1]) then 1 else 0)
  }

  lemma {:induction false} CountJoins(u: Text, v: Text, p: Byte -> bool)
    ensures Count(u + v, p) == Count(u, p) + Count(v, p)
  {
    if v == [] {
      assert u + v == u;
    } else {
      CountJoins(u, v[..|v|-1], p);
      assert (u + v)[..|u + v|-1] == u + v[..|v|-1];
    }
  }

  lemma CountOne(b: Byte, p: Byte -> bool)
    ensures Count([b], p) == if p(b) then 1 else 0
  {
    assert [b][..0] == [];
    assert Count([], p) == 0;
  }

  function IsDigitFn(): Byte -> bool { (b: Byte) => IsDigit(b) }
  function IsOperatorFn(): Byte -> bool { (b: Byte) => b == PLUS || b == STAR }
  function IsOpenFn(): Byte -> bool { (b: Byte) => b == OPEN }
  function IsCloseFn(): Byte -> bool { (b: Byte) => b == CLOSE }
  function IsSemiFn(): Byte -> bool { (b: Byte) => b == SEMI }

  function DepthOf(s: State): nat {
    match s
    case Operand(d) => d
    case Operator(d) => d
    case Done => 0
  }

  /** What reading has to balance: one operand more than operators once an operand is complete. */
  lemma {:induction false} ScanBalance(u: Text)
    requires Scan(Operand(0), u).Some?
    ensures var s := Scan(Operand(0), u).value;
            && Count(u, IsOpenFn()) == Count(u, IsCloseFn()) + DepthOf(s)
            && Count(u, IsDigitFn()) == Count(u, IsOperatorFn()) + (if s.Operand? then 0 else 1)
            && Count(u, IsSemiFn()) == (if s.Done? then 1 else 0)
  {
    if u != [] {
      ScanBalance(u[..|u|-1]);
    }
  }
}
