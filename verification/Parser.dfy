/** The throwing recursive-descent parser: as a function, and as the program with its globals. */
module Parser {
  import opened Bytes
  import opened Options
  import opened Grammar

  /** Err carries what the thrower leaves in the errpos global. */
  datatype Parse = Ok(pos: nat, value: Word) | Err(errpos: nat)

  /** The byte at pos, or 0 past the end. */
  function Peek(data: Text, pos: nat): Byte {
    if pos < |data| then data[pos] else 0
  }

  function ParseExpr(data: Text, pos: nat): (r: Parse)
    requires pos <= |data|
    ensures r.Ok? ==> pos < r.pos <= |data|
    decreases |data| - pos, 5
  {
    match ParseTerm(data, pos)
    case Ok(p, v) => MoreTerms(data, p, v)
    case Err(p) => Err(p)
  }

  function MoreTerms(data: Text, pos: nat, v: Word): (r: Parse)
    requires pos <= |data|
    ensures r.Ok? ==> pos <= r.pos <= |data|
    decreases |data| - pos, 4
  {
    if Peek(data, pos) != PLUS then Ok(pos, v) else
    match ParseTerm(data, pos + 1)
    case Ok(p, t) => MoreTerms(data, p, Wrap(v + t))
    case Err(p) => Err(p)
  }

  function ParseTerm(data: Text, pos: nat): (r: Parse)
    requires pos <= |data|
    ensures r.Ok? ==> pos < r.pos <= |data|
    decreases |data| - pos, 3
  {
    match ParseFactor(data, pos)
    case Ok(p, v) => MoreFactors(data, p, v)
    case Err(p) => Err(p)
  }

  function MoreFactors(data: Text, pos: nat, v: Word): (r: Parse)
    requires pos <= |data|
    ensures r.Ok? ==> pos <= r.pos <= |data|
    decreases |data| - pos, 2
  {
    if Peek(data, pos) != STAR then Ok(pos, v) else
    match ParseFactor(data, pos + 1)
    case Ok(p, t) => MoreFactors(data, p, Wrap(v * t))
    case Err(p) => Err(p)
  }

  function ParseFactor(data: Text, pos: nat): (r: Parse)
    requires pos <= |data|
    ensures r.Ok? ==> pos < r.pos <= |data|
    decreases |data| - pos, 1
  {
    var c := Peek(data, pos);
    if IsDigit(c) then Ok(pos + 1, c - 48)
    else if c == OPEN then
      match ParseExpr(data, pos + 1)
      case Ok(p, v) => if Peek(data, p) == CLOSE then Ok(p + 1, v) else Err(p)
      case Err(p) => Err(p)
    else Err(pos)
  }

  function ParseStatement(data: Text, pos: nat): (r: Parse)
    requires pos <= |data|
    ensures r.Ok? ==> pos < r.pos <= |data|
  {
    match ParseExpr(data, pos)
    case Ok(p, v) => if Peek(data, p) == SEMI then Ok(p + 1, v) else Err(p)
    case Err(p) => Err(p)
  }

  // ---------------------------------------------------------------- success means a sentence

  lemma {:induction false} ExprSound(data: Text, pos: nat) returns (e: Expr)
    requires pos <= |data| && ParseExpr(data, pos).Ok?
    ensures var r := ParseExpr(data, pos);
            && data[pos..r.pos] == ExprText(e) && ExprValue(e) == r.value
            && Peek(data, r.pos) != PLUS && Peek(data, r.pos) != STAR
    decreases |data| - pos, 5
  {
    var t := TermSound(data, pos);
    var r := ParseTerm(data, pos);
    e := MoreTermsSound(data, pos, r.pos, Single(t));
  }

  lemma {:induction false} MoreTermsSound(data: Text, start: nat, pos: nat, left: Expr) returns (e: Expr)
    requires start <= pos <= |data| && data[start..pos] == ExprText(left) && Peek(data, pos) != STAR
    requires MoreTerms(data, pos, ExprValue(left)).Ok?
    ensures var r := MoreTerms(data, pos, ExprValue(left));
            && data[start..r.pos] == ExprText(e) && ExprValue(e) == r.value
            && Peek(data, r.pos) != PLUS && Peek(data, r.pos) != STAR
    decreases |data| - pos, 4
  {
    if Peek(data, pos) != PLUS {
      e := left;
    } else {
      var t := TermSound(data, pos + 1);
      var r := ParseTerm(data, pos + 1);
      assert data[start..r.pos] == data[start..pos] + [PLUS] + data[pos+1..r.pos];
      e := MoreTermsSound(data, start, r.pos, Plus(left, t));
    }
  }

  lemma {:induction false} TermSound(data: Text, pos: nat) returns (t: Term)
    requires pos <= |data| && ParseTerm(data, pos).Ok?
    ensures var r := ParseTerm(data, pos);
            data[pos..r.pos] == TermText(t) && TermValue(t) == r.value && Peek(data, r.pos) != STAR
    decreases |data| - pos, 3
  {
    var f := FactorSound(data, pos);
    var r := ParseFactor(data, pos);
    t := MoreFactorsSound(data, pos, r.pos, One(f));
  }

  lemma {:induction false} MoreFactorsSound(data: Text, start: nat, pos: nat, left: Term) returns (t: Term)
    requires start <= pos <= |data| && data[start..pos] == TermText(left)
    requires MoreFactors(data, pos, TermValue(left)).Ok?
    ensures var r := MoreFactors(data, pos, TermValue(left));
            data[start..r.pos] == TermText(t) && TermValue(t) == r.value && Peek(data, r.pos) != STAR
    decreases |data| - pos, 2
  {
    if Peek(data, pos) != STAR {
      t := left;
    } else {
      var f := FactorSound(data, pos + 1);
      var r := ParseFactor(data, pos + 1);
      assert data[start..r.pos] == data[start..pos] + [STAR] + data[pos+1..r.pos];
      t := MoreFactorsSound(data, start, r.pos, Times(left, f));
    }
  }

  lemma {:induction false} FactorSound(data: Text, pos: nat) returns (f: Factor)
    requires pos <= |data| && ParseFactor(data, pos).Ok?
    ensures var r := ParseFactor(data, pos); data[pos..r.pos] == FactorText(f) && FactorValue(f) == r.value
    decreases |data| - pos, 1
  {
    var c := Peek(data, pos);
    if IsDigit(c) {
      f := Number(c - 48);
    } else {
      var e := ExprSound(data, pos + 1);
      var r := ParseExpr(data, pos + 1);
      f := Paren(e);
      assert data[pos..r.pos+1] == [OPEN] + data[pos+1..r.pos] + [CLOSE];
    }
  }

  // ---------------------------------------------------------------- a sentence means success

  predicate Reads(data: Text, pos: nat, u: Text) {
    pos + |u| <= |data| && data[pos..pos+|u|] == u
  }

  lemma ReadsBoth(data: Text, pos: nat, u: Text, v: Text)
    requires Reads(data, pos, u + v)
    ensures Reads(data, pos, u) && Reads(data, pos + |u|, v)
  {
    assert data[pos..pos+|u|] == (u + v)[..|u|];
    assert data[pos+|u|..pos+|u|+|v|] == (u + v)[|u|..];
  }

  lemma ReadsByte(data: Text, pos: nat, b: Byte)
    requires Reads(data, pos, [b])
    ensures pos < |data| && Peek(data, pos) == b
  {
    assert data[pos] == data[pos..pos+1][0];
  }

  lemma ReadsAround(data: Text, pos: nat, u: Text, b: Byte, v: Text)
    requires Reads(data, pos, u + [b] + v)
    ensures Reads(data, pos, u) && Peek(data, pos + |u|) == b && Reads(data, pos + |u| + 1, v)
  {
    ReadsBoth(data, pos, u + [b], v);
    ReadsBoth(data, pos, u, [b]);
    ReadsByte(data, pos + |u|, b);
  }

  lemma {:induction false} FactorComplete(data: Text, pos: nat, f: Factor)
    requires Reads(data, pos, FactorText(f))
    ensures ParseFactor(data, pos) == Ok(pos + |FactorText(f)|, FactorValue(f))
    decreases f
  {
    match f
    case Number(d) => ReadsByte(data, pos, ZERO + d);
    case Paren(e) =>
      ReadsBoth(data, pos, [OPEN] + ExprText(e), [CLOSE]);
      ReadsBoth(data, pos, [OPEN], ExprText(e));
      ReadsByte(data, pos, OPEN);
      ReadsByte(data, pos + 1 + |ExprText(e)|, CLOSE);
      ExprComplete(data, pos + 1, e);
  }

  lemma {:induction false} TermComplete(data: Text, pos: nat, t: Term)
    requires Reads(data, pos, TermText(t))
    ensures ParseTerm(data, pos) == MoreFactors(data, pos + |TermText(t)|, TermValue(t))
    decreases t
  {
    hide ParseFactor, Reads;
    match t
    case One(f) => FactorComplete(data, pos, f);
    case Times(l, f) =>
      ReadsAround(data, pos, TermText(l), STAR, FactorText(f));
      TermComplete(data, pos, l);
      FactorComplete(data, pos + |TermText(l)| + 1, f);
  }

  lemma {:induction false} ExprComplete(data: Text, pos: nat, e: Expr)
    requires Reads(data, pos, ExprText(e)) && Peek(data, pos + |ExprText(e)|) != STAR
    ensures ParseExpr(data, pos) == MoreTerms(data, pos + |ExprText(e)|, ExprValue(e))
    decreases e
  {
    hide ParseTerm, Reads;
    match e
    case Single(t) => TermComplete(data, pos, t);
    case Plus(l, t) =>
      ReadsAround(data, pos, ExprText(l), PLUS, TermText(t));
      ExprComplete(data, pos, l);
      TermComplete(data, pos + |ExprText(l)| + 1, t);
  }

  /** The parser accepts at pos exactly when a statement stands there, and returns that statement's value. */
  lemma ParsesExactlyStatements(data: Text, pos: nat, p: nat, v: Word)
    requires pos <= |data|
    ensures ParseStatement(data, pos) == Ok(p, v) <==>
            exists e :: p == pos + |StatementText(e)| && Reads(data, pos, StatementText(e)) && ExprValue(e) == v
  {
    if ParseStatement(data, pos) == Ok(p, v) {
      var e := ExprSound(data, pos);
      assert data[pos..p] == data[pos..p-1] + [SEMI];
      assert p == pos + |StatementText(e)| && Reads(data, pos, StatementText(e)) && ExprValue(e) == v;
    }
    if e :| p == pos + |StatementText(e)| && Reads(data, pos, StatementText(e)) && ExprValue(e) == v {
      StatementComplete(data, pos, e);
    }
  }

  lemma StatementComplete(data: Text, pos: nat, e: Expr)
    requires Reads(data, pos, StatementText(e))
    ensures ParseStatement(data, pos) == Ok(pos + |StatementText(e)|, ExprValue(e))
  {
    ReadsBoth(data, pos, ExprText(e), [SEMI]);
    ReadsByte(data, pos + |ExprText(e)|, SEMI);
    ExprComplete(data, pos, e);
  }

  // ---------------------------------------------------------------- failure is at the first offending byte

  /** From state s the bytes before p can be read, and the byte at p, if there is one, cannot. */
  ghost predicate StopsAt(data: Text, pos: nat, s: State, p: nat) {
    && pos <= p <= |data|
    && Scan(s, data[pos..p]).Some? && Scan(s, data[pos..p]).value != Done
    && (p < |data| ==> Step(Scan(s, data[pos..p]).value, data[p]).None?)
  }

  lemma StopsLater(data: Text, pos: nat, s: State, q: nat, s': State, p: nat)
    requires pos <= q <= |data| && Scan(s, data[pos..q]) == Some(s') && StopsAt(data, q, s', p)
    ensures StopsAt(data, pos, s, p)
  {
    assert data[pos..p] == data[pos..q] + data[q..p];
    ScanJoins(s, data[pos..q], data[q..p]);
  }

  lemma StopsHere(data: Text, pos: nat, s: State)
    requires pos <= |data| && s != Done && (pos < |data| ==> Step(s, data[pos]).None?)
    ensures StopsAt(data, pos, s, pos)
  {
    assert data[pos..pos] == [];
  }

  lemma ReadsThrough(data: Text, pos: nat, s: State, b: Byte)
    requires pos < |data| && data[pos] == b && Step(s, b).Some?
    ensures Scan(s, data[pos..pos+1]) == Step(s, b)
  {
    assert data[pos..pos+1] == [b];
    ScanOne(s, b);
  }

  lemma {:induction false} ExprStops(data: Text, pos: nat, d: nat)
    requires pos <= |data| && ParseExpr(data, pos).Err?
    ensures StopsAt(data, pos, Operand(d), ParseExpr(data, pos).errpos)
    decreases |data| - pos, 5
  {
    match ParseTerm(data, pos)
    case Err(_) => TermStops(data, pos, d);
    case Ok(p, v) =>
      var t := TermSound(data, pos);
      ScanTerm(d, t);
      MoreTermsStop(data, p, v, d);
      StopsLater(data, pos, Operand(d), p, Operator(d), ParseExpr(data, pos).errpos);
  }

  lemma {:induction false} MoreTermsStop(data: Text, pos: nat, v: Word, d: nat)
    requires pos <= |data| && MoreTerms(data, pos, v).Err?
    ensures StopsAt(data, pos, Operator(d), MoreTerms(data, pos, v).errpos)
    decreases |data| - pos, 4
  {
    hide ParseTerm;
    var p := MoreTerms(data, pos, v).errpos;
    ReadsThrough(data, pos, Operator(d), PLUS);
    match ParseTerm(data, pos + 1)
    case Err(_) =>
      TermStops(data, pos + 1, d);
      StopsLater(data, pos, Operator(d), pos + 1, Operand(d), p);
    case Ok(q, w) =>
      var t := TermSound(data, pos + 1);
      ScanTerm(d, t);
      MoreTermsStop(data, q, Wrap(v + w), d);
      StopsLater(data, pos + 1, Operand(d), q, Operator(d), p);
      StopsLater(data, pos, Operator(d), pos + 1, Operand(d), p);
  }

  lemma {:induction false} TermStops(data: Text, pos: nat, d: nat)
    requires pos <= |data| && ParseTerm(data, pos).Err?
    ensures StopsAt(data, pos, Operand(d), ParseTerm(data, pos).errpos)
    decreases |data| - pos, 3
  {
    match ParseFactor(data, pos)
    case Err(_) => FactorStops(data, pos, d);
    case Ok(p, v) =>
      var f := FactorSound(data, pos);
      ScanFactor(d, f);
      MoreFactorsStop(data, p, v, d);
      StopsLater(data, pos, Operand(d), p, Operator(d), ParseTerm(data, pos).errpos);
  }

  lemma {:induction false} MoreFactorsStop(data: Text, pos: nat, v: Word, d: nat)
    requires pos <= |data| && MoreFactors(data, pos, v).Err?
    ensures StopsAt(data, pos, Operator(d), MoreFactors(data, pos, v).errpos)
    decreases |data| - pos, 2
  {
    hide ParseFactor;
    var p := MoreFactors(data, pos, v).errpos;
    ReadsThrough(data, pos, Operator(d), STAR);
    match ParseFactor(data, pos + 1)
    case Err(_) =>
      FactorStops(data, pos + 1, d);
      StopsLater(data, pos, Operator(d), pos + 1, Operand(d), p);
    case Ok(q, w) =>
      var f := FactorSound(data, pos + 1);
      ScanFactor(d, f);
      MoreFactorsStop(data, q, Wrap(v * w), d);
      StopsLater(data, pos + 1, Operand(d), q, Operator(d), p);
      StopsLater(data, pos, Operator(d), pos + 1, Operand(d), p);
  }

  lemma {:induction false} FactorStops(data: Text, pos: nat, d: nat)
    requires pos <= |data| && ParseFactor(data, pos).Err?
    ensures StopsAt(data, pos, Operand(d), ParseFactor(data, pos).errpos)
    decreases |data| - pos, 1
  {
    if Peek(data, pos) != OPEN {
      StopsHere(data, pos, Operand(d));
    } else {
      ReadsThrough(data, pos, Operand(d), OPEN);
      match ParseExpr(data, pos + 1)
      case Err(p) =>
        ExprStops(data, pos + 1, d + 1);
        StopsLater(data, pos, Operand(d), pos + 1, Operand(d + 1), p);
      case Ok(p, v) =>
        var e := ExprSound(data, pos + 1);
        ScanExpr(d + 1, e);
        StopsHere(data, p, Operator(d + 1));
        StopsLater(data, pos + 1, Operand(d + 1), p, Operator(d + 1), p);
        StopsLater(data, pos, Operand(d), pos + 1, Operand(d + 1), p);
    }
  }

  lemma StatementStops(data: Text, pos: nat)
    requires pos <= |data| && ParseStatement(data, pos).Err?
    ensures StopsAt(data, pos, Operand(0), ParseStatement(data, pos).errpos)
  {
    match ParseExpr(data, pos)
    case Err(_) => ExprStops(data, pos, 0);
    case Ok(p, v) =>
      var e := ExprSound(data, pos);
      ScanExpr(0, e);
      StopsHere(data, p, Operator(0));
      StopsLater(data, pos, Operand(0), p, Operator(0), p);
  }

  // ---------------------------------------------------------------- the automaton reads exactly the viable prefixes

  lemma AcceptedIsStatement(u: Text) returns (e: Expr)
    requires Scan(Operand(0), u) == Some(Done)
    ensures u == StatementText(e)
  {
    if ParseStatement(u, 0).Err? {
      StatementStops(u, 0);
      var p := ParseStatement(u, 0).errpos;
      assert u[0..p] == u[..p] && u[..|u|] == u;
      if p < |u| {
        assert u[..p+1] <= u && u[..p+1][..p] == u[..p];
        ScanPrefix(Operand(0), u[..p+1], u);
      }
      assert false;
    }
    e := ExprSound(u, 0);
    var p := ParseStatement(u, 0).pos;
    assert u[0..p] == StatementText(e);
    ScanStatement(e);
    if p < |u| {
      assert u[..p+1] <= u && u[..p+1][..p] == u[0..p];
      ScanPrefix(Operand(0), u[..p+1], u);
      assert false;
    }
    assert u[0..p] == u;
  }

  lemma ViableIffReadable(u: Text)
    ensures Viable(u) <==> Scan(Operand(0), u).Some?
  {
    if e :| u <= StatementText(e) {
      ScanStatement(e);
      ScanPrefix(Operand(0), u, StatementText(e));
    }
    if Scan(Operand(0), u).Some? {
      var v := Completion(Scan(Operand(0), u).value);
      ScanJoins(Operand(0), u, v);
      var e := AcceptedIsStatement(u + v);
      assert u <= StatementText(e);
    }
  }

  /** The recorded position is the first byte that no statement could go on with. */
  lemma ErrorIsFirstOffendingByte(data: Text, pos: nat)
    requires pos <= |data| && ParseStatement(data, pos).Err?
    ensures var p := ParseStatement(data, pos).errpos;
            && pos <= p <= |data|
            && Viable(data[pos..p])
            && (p < |data| ==> !Viable(data[pos..p+1]))
            && (forall e :: data[pos..p] != StatementText(e))
  {
    StatementStops(data, pos);
    var p := ParseStatement(data, pos).errpos;
    ViableIffReadable(data[pos..p]);
    if p < |data| {
      assert data[pos..p+1][..p-pos] == data[pos..p];
      ViableIffReadable(data[pos..p+1]);
    }
    forall e ensures data[pos..p] != StatementText(e) { ScanStatement(e); }
  }

  // ---------------------------------------------------------------- the program with its globals

  class Machine {
    const data: Text
    var pos: nat
    var errpos: nat

    constructor (data: Text)
      ensures this.data == data && pos == 0
    {
      this.data, pos, errpos := data, 0, 0;
    }

    /** What a call leaves behind: the new position and a value, or a throw at errpos. */
    twostate predicate Ran(r: Parse, ok: bool, v: Word)
      reads this
    {
      if ok then r == Ok(pos, v) && pos <= |data| && errpos == old(errpos)
      else r == Err(errpos) && pos == errpos <= |data|
    }

    method PeekByte() returns (b: Byte)
      ensures b == Peek(data, pos)
    {
      if pos < |data| { b := data[pos]; } else { b := 0; }
    }

    method ExprCall() returns (ok: bool, v: Word)
      requires pos <= |data|
      modifies this
      ensures Ran(ParseExpr(data, old(pos)), ok, v)
      decreases |data| - pos, 3
    {
      ghost var start := pos;
      ok, v := TermCall();
      if !ok { return; }
      while true
        invariant start < pos <= |data| && ok && errpos == old(errpos)
        invariant ParseExpr(data, start) == MoreTerms(data, pos, v)
        decreases |data| - pos
      {
        var c := PeekByte();
        if c != 43 { return; }
        pos := pos + 1;
        var t;
        ok, t := TermCall();
        if !ok { return; }
        v := Wrap(v + t);
      }
    }

    method TermCall() returns (ok: bool, v: Word)
      requires pos <= |data|
      modifies this
      ensures Ran(ParseTerm(data, old(pos)), ok, v)
      decreases |data| - pos, 2
    {
      ghost var start := pos;
      ok, v := FactorCall();
      if !ok { return; }
      while true
        invariant start < pos <= |data| && ok && errpos == old(errpos)
        invariant ParseTerm(data, start) == MoreFactors(data, pos, v)
        decreases |data| - pos
      {
        var c := PeekByte();
        if c != 42 { return; }
        pos := pos + 1;
        var t;
        ok, t := FactorCall();
        if !ok { return; }
        v := Wrap(v * t);
      }
    }

    method FactorCall() returns (ok: bool, v: Word)
      requires pos <= |data|
      modifies this
      ensures Ran(ParseFactor(data, old(pos)), ok, v)
      decreases |data| - pos, 1
    {
      v := 0;
      var c := PeekByte();
      if 48 <= c < 58 {
        pos := pos + 1;
        return true, c - 48;
      }
      if c == 40 {
        pos := pos + 1;
        ok, v := ExprCall();
        if !ok { return; }
        var close := PeekByte();
        if close != 41 {
          errpos := pos;
          return false, 0;
        }
        pos := pos + 1;
        return true, v;
      }
      errpos := pos;
      return false, 0;
    }

    method StatementCall() returns (ok: bool, v: Word)
      requires pos <= |data|
      modifies this
      ensures Ran(ParseStatement(data, old(pos)), ok, v)
    {
      ok, v := ExprCall();
      if !ok { return; }
      var c := PeekByte();
      if c != 59 {
        errpos := pos;
        return false, 0;
      }
      pos := pos + 1;
    }
  }
}
