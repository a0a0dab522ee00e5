/** The statement loop with its error recovery, and the generator whose stream it reads. */
module EhParser {
  import opened Bytes
  import opened Options
  import opened Grammar
  import opened Parser

  // ---------------------------------------------------------------- statements of a stream

  /** The index of the first `;` at or after pos, or the length. */
  function FirstSemi(data: Text, pos: nat): (r: nat)
    requires pos <= |data|
    ensures pos <= r <= |data|
    ensures forall i | pos <= i < r :: data[i] != SEMI
    ensures r < |data| ==> data[r] == SEMI
    decreases |data| - pos
  {
    if pos == |data| || data[pos] == SEMI then pos else FirstSemi(data, pos + 1)
  }

  /** Where the statement that starts at pos is over: after its own `;`. */
  function NextStart(data: Text, pos: nat): (r: nat)
    requires pos <= |data|
    ensures pos <= r <= |data| && (pos < |data| ==> pos < r)
  {
    if FirstSemi(data, pos) < |data| then FirstSemi(data, pos) + 1 else |data|
  }

  predicate Accepts(u: Text) { Scan(Operand(0), u) == Some(Done) }

  /** How far u can be read. */
  function Reach(u: Text): (r: nat)
    ensures r <= |u|
  {
    if Scan(Operand(0), u).Some? then |u| else Reach(u[..|u|-1])
  }

  lemma {:induction false} ReachIs(u: Text, k: nat)
    requires k <= |u| && Scan(Operand(0), u[..k]).Some? && (k < |u| ==> Scan(Operand(0), u[..k+1]).None?)
    ensures Reach(u) == k
  {
    if k == |u| {
      assert u[..k] == u;
    } else {
      if Scan(Operand(0), u).Some? {
        ScanPrefix(Operand(0), u[..k+1], u);
      }
      assert u[..|u|-1][..k] == u[..k];
      if k < |u| - 1 { assert u[..|u|-1][..k+1] == u[..k+1]; }
      ReachIs(u[..|u|-1], k);
    }
  }

  lemma SomeStatement(u: Text)
    requires Accepts(u)
    ensures exists e :: u == StatementText(e)
  {
    var e := AcceptedIsStatement(u);
  }

  /** The value of the one statement that u spells. */
  ghost function ValueOf(u: Text): Word
    requires Accepts(u)
  {
    SomeStatement(u);
    var e :| u == StatementText(e);
    ExprValue(e)
  }

  lemma ValueOfStatement(e: Expr)
    ensures Accepts(StatementText(e)) && ValueOf(StatementText(e)) == ExprValue(e)
  {
    var u := StatementText(e);
    ScanStatement(e);
    var e' :| u == StatementText(e') && ValueOf(u) == ExprValue(e');
    assert u[0..|u|] == u;
    StatementComplete(u, 0, e);
    StatementComplete(u, 0, e');
  }

  lemma {:induction false} NoSemiInside(u: Text)
    requires Count(u, IsSemiFn()) == 0
    ensures forall i | 0 <= i < |u| :: u[i] != SEMI
  {
    if u != [] { NoSemiInside(u[..|u|-1]); }
  }

  /** A readable stretch that is not a whole statement holds no `;`. */
  lemma UnfinishedHasNoSemi(data: Text, pos: nat, p: nat)
    requires pos <= p <= |data|
    requires Scan(Operand(0), data[pos..p]).Some? && Scan(Operand(0), data[pos..p]).value != Done
    ensures p <= FirstSemi(data, pos)
  {
    var w := data[pos..p];
    ScanBalance(w);
    NoSemiInside(w);
    assert forall i | pos <= i < p :: data[i] == w[i - pos];
  }

  lemma SemiIsFirst(data: Text, pos: nat, q: nat)
    requires pos <= q < |data| && q <= FirstSemi(data, pos) && data[q] == SEMI
    ensures FirstSemi(data, pos) == q
  {
  }

  lemma SemiBefore(data: Text, pos: nat, p: nat, v: Word)
    requires pos < |data| && ParseStatement(data, pos) == Ok(p, v)
    ensures pos < p <= |data| && data[p-1] == SEMI
  {
    hide ParseExpr;
  }

  lemma LastByte(data: Text, pos: nat, p: nat)
    requires pos < p <= |data|
    ensures data[pos..p] == data[pos..p-1] + [data[p-1]]
  {
  }

  lemma GoodStatementAt(data: Text, pos: nat, p: nat, v: Word)
    requires pos < |data| && ParseStatement(data, pos) == Ok(p, v)
    ensures var u := data[pos..NextStart(data, pos)]; p == NextStart(data, pos) && Accepts(u) && v == ValueOf(u)
  {
    SemiBefore(data, pos, p, v);
    var e := ExprSound(data, pos);
    ScanExpr(0, e);
    UnfinishedHasNoSemi(data, pos, p - 1);
    hide Scan, ParseExpr, ExprText;
    SemiIsFirst(data, pos, p - 1);
    LastByte(data, pos, p);
    ValueOfStatement(e);
  }

  lemma BadStatementAt(data: Text, pos: nat, p: nat)
    requires pos < |data| && ParseStatement(data, pos) == Err(p)
    ensures var u := data[pos..NextStart(data, pos)];
            pos <= p <= FirstSemi(data, pos) && p == pos + Reach(u) && !Accepts(u)
  {
    StatementStops(data, pos);
    UnfinishedHasNoSemi(data, pos, p);
    hide ParseStatement, FirstSemi;
    var u, w := data[pos..NextStart(data, pos)], data[pos..p];
    assert u[..p-pos] == w;
    if p < |data| {
      assert u[..p+1-pos][..p-pos] == w;
      if Accepts(u) { ScanPrefix(Operand(0), u[..p+1-pos], u); }
    } else {
      assert u == w;
    }
    ReachIs(u, p - pos);
  }

  /** One call of $statement at pos, told by the text up to the statement's own `;`. */
  lemma StatementAt(data: Text, pos: nat)
    requires pos < |data|
    ensures var u := data[pos..NextStart(data, pos)];
            match ParseStatement(data, pos)
            case Ok(p, v) => Accepts(u) && v == ValueOf(u) && p == NextStart(data, pos)
            case Err(p) => !Accepts(u) && p == pos + Reach(u) && pos <= p <= FirstSemi(data, pos)
  {
    hide *;
    match ParseStatement(data, pos)
    case Ok(p, v) => GoodStatementAt(data, pos, p, v);
    case Err(p) => BadStatementAt(data, pos, p);
  }

  // ---------------------------------------------------------------- the loop

  datatype Tally = Tally(total: Word, errs: nat)

  /** What one statement, well formed or not, does to the running tally. */
  ghost function Tallied(t: Tally, pos: nat, u: Text): Tally {
    if Accepts(u) then Tally(Wrap(t.total * 31 + ValueOf(u)), t.errs)
    else Tally(Xor(t.total, Wrap(pos + Reach(u))), t.errs + 1)
  }

  ghost function RunFrom(data: Text, pos: nat, t: Tally): Tally
    requires pos <= |data|
    decreases |data| - pos
  {
    if pos == |data| then t else
    var n := NextStart(data, pos);
    RunFrom(data, n, Tallied(t, pos, data[pos..n]))
  }

  method Skip(m: Machine)
    requires m.pos <= |m.data|
    modifies m
    ensures m.pos == NextStart(m.data, old(m.pos))
  {
    while true
      invariant old(m.pos) <= m.pos <= |m.data|
      invariant FirstSemi(m.data, m.pos) == FirstSemi(m.data, old(m.pos))
      decreases |m.data| - m.pos
    {
      if m.pos >= |m.data| { return; }
      if m.data[m.pos] == 59 {
        m.pos := m.pos + 1;
        return;
      }
      m.pos := m.pos + 1;
    }
  }

  lemma SameSemi(data: Text, pos: nat, p: nat)
    requires pos <= p <= |data| && p <= FirstSemi(data, pos)
    ensures FirstSemi(data, p) == FirstSemi(data, pos)
  {
  }

  lemma SmallResult(n: int)
    ensures Wrap(n) % 0x1_0000_0000 == (Wrap(n) - 0x1_0000_0000) % 0x1_0000_0000 == n % 0x1_0000_0000
  {
  }

  /** The exported function: every statement, well formed or not, is met exactly once. */
  method EhParserRun(data: Text, seed: Word) returns (result: int)
    ensures -0x8000_0000 <= result < 0x8000_0000
    ensures var t := RunFrom(data, 0, Tally(seed, 0));
            result % 0x1_0000_0000 == (t.total + t.errs * 1000003) % 0x1_0000_0000
  {
    hide Xor, Wrap, ParseStatement, FirstSemi, Scan, Reach, ValueOf;
    var m := new Machine(data);
    var sum: Word, errs: nat := seed, 0;
    while m.pos < |data|
      invariant m.data == data && m.pos <= |data|
      invariant RunFrom(data, m.pos, Tally(sum, errs)) == RunFrom(data, 0, Tally(seed, 0))
      decreases |data| - m.pos
    {
      ghost var start := m.pos;
      StatementAt(data, start);
      var ok, v := m.StatementCall();
      if ok {
        sum := Wrap(sum * 31 + v);
      } else {
        sum := Xor(sum, Wrap(m.errpos));
        errs := errs + 1;
        SameSemi(data, start, m.errpos);
        Skip(m);
      }
    }
    SmallResult(sum + errs * 1000003);
    result := Wrap(sum + errs * 1000003);
    if result >= 0x8000_0000 { result := result - 0x1_0000_0000; }
  }

  // ---------------------------------------------------------------- the generator

  /** The generator's own grammar: one ambiguous nonterminal. */
  datatype Choice =
    | AnyDigit(d: Digit)
    | Sum(l: Choice, r: Choice)
    | Product(l: Choice, r: Choice)
    | Group(inner: Choice)

  function ChoiceText(c: Choice): Text {
    match c
    case AnyDigit(d) => [ZERO + d]
    case Sum(l, r) => ChoiceText(l) + [PLUS] + ChoiceText(r)
    case Product(l, r) => ChoiceText(l) + [STAR] + ChoiceText(r)
    case Group(i) => [OPEN] + ChoiceText(i) + [CLOSE]
  }

  lemma {:induction false} ChoiceScans(c: Choice, d: nat)
    ensures Scan(Operand(d), ChoiceText(c)) == Some(Operator(d))
    decreases c
  {
    match c
    case AnyDigit(n) => ScanOne(Operand(d), ZERO + n);
    case Sum(l, r) =>
      ChoiceScans(l, d);
      ChoiceScans(r, d);
      BinaryScans(ChoiceText(l), PLUS, ChoiceText(r), d);
    case Product(l, r) =>
      ChoiceScans(l, d);
      ChoiceScans(r, d);
      BinaryScans(ChoiceText(l), STAR, ChoiceText(r), d);
    case Group(i) =>
      ScanOne(Operand(d), OPEN);
      ChoiceScans(i, d + 1);
      ScanOne(Operator(d + 1), CLOSE);
      ScanJoins(Operand(d), [OPEN], ChoiceText(i));
      ScanJoins(Operand(d), [OPEN] + ChoiceText(i), [CLOSE]);
  }

  lemma BinaryScans(l: Text, op: Byte, r: Text, d: nat)
    requires op == PLUS || op == STAR
    requires Scan(Operand(d), l) == Scan(Operand(d), r) == Some(Operator(d))
    ensures Scan(Operand(d), l + [op] + r) == Some(Operator(d))
  {
    ScanOne(Operator(d), op);
    ScanJoins(Operand(d), l, [op]);
    ScanJoins(Operand(d), l + [op], r);
  }

  /** The generator's grammar yields sentences of the parser's grammar. */
  lemma GeneratedIsAccepted(c: Choice)
    ensures Accepts(ChoiceText(c) + [SEMI])
    ensures exists e :: ChoiceText(c) == ExprText(e)
  {
    ChoiceScans(c, 0);
    ScanOne(Operator(0), SEMI);
    ScanJoins(Operand(0), ChoiceText(c), [SEMI]);
    var e := AcceptedIsStatement(ChoiceText(c) + [SEMI]);
    assert ChoiceText(c) == (ChoiceText(c) + [SEMI])[..|ChoiceText(c)|] == ExprText(e);
  }

  /** expr(depth), with every random draw left open. */
  method GenExpr(depth: int) returns (s: Text, ghost c: Choice)
    ensures s == ChoiceText(c)
    decreases if depth < 0 then 0 else depth
  {
    if depth <= 0 {
      var d: Digit :| true;
      return [48 + d], AnyDigit(d);
    }
    var stop: real :| 0.0 <= stop < 1.0;
    if stop < 0.25 {
      var d: Digit :| true;
      return [48 + d], AnyDigit(d);
    }
    var k: real :| 0.0 <= k < 1.0;
    if k < 0.35 {
      var l, cl := GenExpr(depth - 1);
      var r, cr := GenExpr(depth - 1);
      return l + [43] + r, Sum(cl, cr);
    }
    if k < 0.7 {
      var l, cl := GenExpr(depth - 1);
      var r, cr := GenExpr(depth - 1);
      return l + [42] + r, Product(cl, cr);
    }
    var i, ci := GenExpr(depth - 1);
    return [40] + i + [41], Group(ci);
  }

  method Positions(s: Text, p: Byte -> bool) returns (r: seq<nat>)
    ensures forall j | 0 <= j < |r| :: r[j] < |s| && p(s[r[j]])
    ensures (exists i | 0 <= i < |s| :: p(s[i])) ==> r != []
  {
    r := [];
    for i := 0 to |s|
      invariant forall j | 0 <= j < |r| :: r[j] < i && p(s[r[j]])
      invariant (exists j | 0 <= j < i :: p(s[j])) ==> r != []
    {
      if p(s[i]) { r := r + [i]; }
    }
  }

  function Without(s: Text, i: nat): Text
    requires i < |s|
  {
    s[..i] + s[i+1..]
  }

  lemma CountWithout(s: Text, i: nat, p: Byte -> bool)
    requires i < |s|
    ensures Count(s, p) == Count(Without(s, i), p) + (if p(s[i]) then 1 else 0)
  {
    hide Count;
    assert s == s[..i] + [s[i]] + s[i+1..];
    CountJoins(s[..i] + [s[i]], s[i+1..], p);
    CountJoins(s[..i], [s[i]], p);
    CountOne(s[i], p);
    CountJoins(s[..i], s[i+1..], p);
  }

  lemma CountAppended(s: Text, b: Byte, p: Byte -> bool)
    ensures Count(s + [b], p) == Count(s, p) + (if p(b) then 1 else 0)
  {
    CountJoins(s, [b], p);
    CountOne(b, p);
  }

  predicate Balanced(s: Text) {
    && Count(s, IsDigitFn()) == Count(s, IsOperatorFn()) + 1
    && Count(s, IsOpenFn()) == Count(s, IsCloseFn())
  }

  lemma AcceptedIsBalanced(s: Text)
    requires Accepts(s + [SEMI])
    ensures Balanced(s)
  {
    ScanBalance(s + [SEMI]);
    CountAppended(s, SEMI, IsDigitFn());
    CountAppended(s, SEMI, IsOperatorFn());
    CountAppended(s, SEMI, IsOpenFn());
    CountAppended(s, SEMI, IsCloseFn());
  }

  predicate NoSemi(s: Text) {
    forall i | 0 <= i < |s| :: s[i] != SEMI
  }

  lemma GeneratedIsBalanced(c: Choice)
    ensures Balanced(ChoiceText(c)) && NoSemi(ChoiceText(c))
  {
    GeneratedIsAccepted(c);
    AcceptedIsBalanced(ChoiceText(c));
    ChoiceScans(c, 0);
    ScanBalance(ChoiceText(c));
    NoSemiInside(ChoiceText(c));
  }

  /** The three ways to spoil a statement, in the generator's order of preference. */
  method Mutate(s: Text) returns (t: Text)
    requires Balanced(s) && NoSemi(s)
    ensures NoSemi(t) && !Accepts(t + [SEMI])
  {
    hide Count, Scan;
    var kind: int :| 0 <= kind < 3;
    var digits := Positions(s, IsDigitFn());
    if kind == 0 && |digits| > 1 {
      var k: nat :| k < |digits|;
      var i := digits[k];
      t := Without(s, i);
      CountWithout(s, i, IsDigitFn());
      CountWithout(s, i, IsOperatorFn());
    } else if kind == 1 {
      t := s + [41];
      CountAppended(s, CLOSE, IsOpenFn());
      CountAppended(s, CLOSE, IsCloseFn());
    } else {
      var closes := Positions(s, IsCloseFn());
      if closes != [] {
        var k: nat :| k < |closes|;
        var i := closes[k];
        t := Without(s, i);
        CountWithout(s, i, IsOpenFn());
        CountWithout(s, i, IsCloseFn());
      } else {
        t := s + [43];
        CountAppended(s, PLUS, IsDigitFn());
        CountAppended(s, PLUS, IsOperatorFn());
      }
    }
    assert !Balanced(t);
    if Accepts(t + [SEMI]) { AcceptedIsBalanced(t); }
  }

  function Flatten(ss: seq<Text>): Text {
    if ss == [] then [] else Flatten(ss[..|ss|-1]) + ss[|ss|-1] + [SEMI]
  }

  function CountBad(ss: seq<Text>): nat {
    if ss == [] then 0 else CountBad(ss[..|ss|-1]) + (if Accepts(ss[|ss|-1] + [SEMI]) then 0 else 1)
  }

  /** gen_statements: `bad` counts exactly the statements that the parser will reject. */
  method GenStatements(n: nat) returns (stream: Text, bad: nat, ghost ss: seq<Text>)
    ensures |ss| == n && stream == Flatten(ss) && bad == CountBad(ss)
    ensures forall i | 0 <= i < n :: NoSemi(ss[i])
  {
    stream, bad, ss := [], 0, [];
    for k := 0 to n
      invariant |ss| == k && stream == Flatten(ss) && bad == CountBad(ss)
      invariant forall i | 0 <= i < k :: NoSemi(ss[i])
    {
      var s, c := GenExpr(6);
      GeneratedIsAccepted(c);
      GeneratedIsBalanced(c);
      var r: real :| 0.0 <= r < 1.0;
      if r < 0.25 {
        bad := bad + 1;
        s := Mutate(s);
      }
      ghost var more := ss + [s];
      assert more[..k] == ss;
      stream, ss := stream + s + [59], more;
    }
  }

  // ---------------------------------------------------------------- the loop counts what the generator spoiled

  lemma {:induction false} FlattenJoins(a: seq<Text>, b: seq<Text>)
    ensures Flatten(a + b) == Flatten(a) + Flatten(b)
  {
    if b == [] {
      assert a + b == a;
    } else {
      var front := b[..|b|-1];
      FlattenJoins(a, front);
      assert (a + b)[..|a + b|-1] == a + front;
      assert Flatten(a) + Flatten(front) + b[|b|-1] + [SEMI] == Flatten(a) + (Flatten(front) + b[|b|-1] + [SEMI]);
    }
  }

  /** Statement j of the stream is read from its first byte to its own `;`, whatever came before it. */
  lemma StartsAt(ss: seq<Text>, j: nat)
    requires j < |ss| && NoSemi(ss[j])
    ensures var data, start := Flatten(ss), |Flatten(ss[..j])|;
            && start < |data| && NextStart(data, start) == |Flatten(ss[..j+1])| <= |data|
            && data[start..NextStart(data, start)] == ss[j] + [SEMI]
  {
    var data, before, after := Flatten(ss), Flatten(ss[..j]), Flatten(ss[j+1..]);
    assert ss == ss[..j+1] + ss[j+1..] && ss[..j+1][..j] == ss[..j];
    FlattenJoins(ss[..j+1], ss[j+1..]);
    assert data == before + ss[j] + [SEMI] + after;
    hide Flatten;
    SemiEnds(before, ss[j], after);
  }

  lemma SemiEnds(before: Text, s: Text, after: Text)
    requires NoSemi(s)
    ensures var data, start := before + s + [SEMI] + after, |before|;
            && NextStart(data, start) == start + |s| + 1
            && data[start..NextStart(data, start)] == s + [SEMI]
  {
    var data, start := before + s + [SEMI] + after, |before|;
    assert data[start + |s|] == SEMI;
    assert forall i | start <= i < start + |s| :: data[i] == s[i - start];
    assert FirstSemi(data, start) == start + |s|;
  }

  lemma {:induction false} CountBadJoins(a: seq<Text>, b: seq<Text>)
    ensures CountBad(a + b) == CountBad(a) + CountBad(b)
  {
    if b == [] {
      assert a + b == a;
    } else {
      CountBadJoins(a, b[..|b|-1]);
      assert (a + b)[..|a + b|-1] == a + b[..|b|-1];
    }
  }

  lemma CountBadFirst(ss: seq<Text>, j: nat)
    requires j < |ss|
    ensures CountBad(ss[j..]) == (if Accepts(ss[j] + [SEMI]) then 0 else 1) + CountBad(ss[j+1..])
  {
    var one: seq<Text> := [ss[j]];
    assert ss[j..] == one + ss[j+1..];
    CountBadJoins(one, ss[j+1..]);
    assert one[..0] == [];
    assert CountBad(one) == CountBad([]) + (if Accepts(ss[j] + [SEMI]) then 0 else 1);
  }

  lemma {:induction false} RunCountsFrom(ss: seq<Text>, j: nat, t: Tally)
    requires j <= |ss| && forall i | 0 <= i < |ss| :: NoSemi(ss[i])
    requires |Flatten(ss[..j])| <= |Flatten(ss)|
    ensures RunFrom(Flatten(ss), |Flatten(ss[..j])|, t).errs == t.errs + CountBad(ss[j..])
    decreases |ss| - j
  {
    hide Accepts, Flatten, NextStart, Xor, ValueOf, Reach, NoSemi;
    if j == |ss| {
      assert ss[..j] == ss && ss[j..] == [];
    } else {
      StartsAt(ss, j);
      CountBadFirst(ss, j);
      RunCountsFrom(ss, j + 1, Tallied(t, |Flatten(ss[..j])|, ss[j] + [SEMI]));
    }
  }

  /** The number of errors the loop counts is the number of statements the generator spoiled. */
  lemma RunCountsBad(ss: seq<Text>, seed: Word)
    requires forall i | 0 <= i < |ss| :: NoSemi(ss[i])
    ensures RunFrom(Flatten(ss), 0, Tally(seed, 0)).errs == CountBad(ss)
  {
    assert ss[..0] == [] && ss[0..] == ss;
    RunCountsFrom(ss, 0, Tally(seed, 0));
  }
}
