/** The reader of a WebAssembly module's import names, and the layout it reads (Core Specification, section 5). */
module Imports {
  import opened Bytes
  import opened Modular

  datatype Error =
    | TruncatedNumber
    // the overflow check of a checked build, which stops the program
    | ShiftOverflow
    // as does a reservation that cannot be met
    | NoRoom
    | TruncatedName
    | TruncatedImport
    | NotAFunction(imp: Import, kind: Byte)

  datatype Result<+T> = Ok(value: T) | Err(error: Error)
  {
    predicate IsFailure() { Err? }

    function PropagateFailure<U>(): Result<U>
      requires Err?
    {
      Err(error)
    }

    function Extract(): T
      requires Ok?
    {
      value
    }
  }

  /**
   * Whether a shift by 32 or more is checked, and stops the program, or takes its remainder;
   * and for how many imports there is room in memory.
   */
  datatype Build = Build(checked: bool, room: nat)

  datatype Import = Import(from: seq<Byte>, name: seq<Byte>)

  // ---------------------------------------------------------------- LEB128 numbers (section 5.2.2)

  /** How many bytes lead up to and include the first without a continuation bit. */
  function LebLength(s: seq<Byte>): (n: nat)
    ensures n <= |s|
    ensures forall i | 0 <= i < n - 1 :: s[i] >= 128
  {
    if s == [] then 0 else if s[0] < 128 then 1 else 1 + LebLength(s[1..])
  }

  /** Seven bits a byte, the least significant first. */
  function LebValue(s: seq<Byte>): nat {
    if s == [] then 0 else s[0] % 128 + 128 * LebValue(s[1..])
  }

  function Weight(n: nat): nat { if n == 0 then 1 else 128 * Weight(n - 1) }

  predicate IsLeb(s: seq<Byte>) {
    s != [] && s[|s|-1] < 128 && forall i | 0 <= i < |s| - 1 :: s[i] >= 128
  }

  /** s is one of the forms of w: at most five bytes, padding allowed. */
  predicate Denotes(s: seq<Byte>, w: Word) {
    IsLeb(s) && |s| <= 5 && LebValue(s) == w
  }

  /** Bitwise or of two numbers of n bits. */
  function Or(n: nat, a: nat, b: nat): (r: nat)
    requires a < Pow2(n) && b < Pow2(n)
    ensures r < Pow2(n)
  {
    if n == 0 then 0 else 2 * Or(n - 1, a / 2, b / 2) + if a % 2 == 1 || b % 2 == 1 then 1 else 0
  }

  /** v | bits << shift, on 32 bits: what is shifted past the end is lost, and the shift is taken modulo 32. */
  function OrShifted(v: Word, bits: nat, shift: nat): Word {
    WordBits();
    Or(32, v, Wrap(Times(Pow2(shift % 32), bits)))
  }

  lemma OrShiftedIs(v: Word, bits: nat, shift: nat)
    ensures v < Pow2(32) && Wrap(Times(Pow2(shift % 32), bits)) < Pow2(32)
    ensures Or(32, v, Wrap(Times(Pow2(shift % 32), bits))) == OrShifted(v, bits, shift)
    ensures OrShifted(v, bits, shift) < 0x1_0000_0000
  {
    WordBits();
    hide Or, Wrap, Times, Pow2;
  }

  /** The loop's value after the bytes of s. */
  function LebOr(s: seq<Byte>): Word {
    if s == [] then 0 else OrShifted(LebOr(s[..|s|-1]), s[|s|-1] % 128, 7 * (|s| - 1))
  }

  /** What the reader makes of a number at the front of s. */
  function ReadU32(build: Build, s: seq<Byte>): Result<(Word, seq<Byte>)> {
    var n := LebLength(s);
    if n > 5 && build.checked then Err(ShiftOverflow)
    else if n == 0 || s[n - 1] >= 128 then Err(TruncatedNumber)
    else Ok((LebOr(s[..n]), s[n..]))
  }

  lemma {:induction false} LebSnoc(s: seq<Byte>, b: Byte)
    ensures LebValue(s + [b]) == LebValue(s) + Weight(|s|) * (b % 128)
  {
    if s == [] {
      assert s + [b] == [b];
      assert LebValue([b][1..]) == 0;
    } else {
      LebSnoc(s[1..], b);
      assert (s + [b])[1..] == s[1..] + [b];
      Spread(LebValue(s[1..]), Weight(|s| - 1), b % 128);
    }
  }

  lemma Spread(v: nat, w: nat, d: nat)
    ensures 128 * (v + w * d) == 128 * v + 128 * w * d
  {
  }

  lemma {:induction false} LebBelow(s: seq<Byte>)
    ensures LebValue(s) < Weight(|s|)
  {
    if s != [] { LebBelow(s[1..]); }
  }

  lemma {:induction false} LengthOfLeb(s: seq<Byte>, rest: seq<Byte>)
    requires IsLeb(s)
    ensures LebLength(s + rest) == |s|
  {
    if |s| > 1 {
      assert s[0] >= 128;
      LengthOfLeb(s[1..], rest);
      assert (s + rest)[1..] == s[1..] + rest;
    }
  }

  /** Every form of every number reads back as that number. */
  lemma EveryFormIsRead(build: Build, s: seq<Byte>, w: Word, rest: seq<Byte>)
    requires Denotes(s, w)
    ensures ReadU32(build, s + rest) == Ok((w, rest))
  {
    hide LebOr;
    LengthOfLeb(s, rest);
    LebOrIs(s);
    assert (s + rest)[..|s|] == s && (s + rest)[|s|..] == rest;
  }

  lemma {:induction false} OrNothing(n: nat, h: nat)
    requires h < Pow2(n)
    ensures Or(n, 0, h) == h
  {
    if n > 0 { OrNothing(n - 1, h / 2); }
  }

  /** Or adds numbers that share no bits: one below 2^k, the other a multiple of it. */
  lemma {:induction false} OrAdds(n: nat, k: nat, v: nat, h: nat)
    requires v < Pow2(k) && Times(Pow2(k), h) < Pow2(n) && v < Pow2(n)
    ensures Or(n, v, Times(Pow2(k), h)) == v + Times(Pow2(k), h)
  {
    hide Times;
    if k == 0 {
      TimesSmall(h);
      OrNothing(n, h);
    } else if n > 0 {
      TimesSum(h, Pow2(k - 1), Pow2(k - 1));
      OrAdds(n - 1, k - 1, v / 2, h);
    } else {
      OrZeroBits(v, Times(Pow2(k), h));
    }
  }

  lemma OrZeroBits(a: nat, b: nat)
    requires a < Pow2(0) && b < Pow2(0)
    ensures a == 0 && b == 0
  {
  }

  /** Up to five bytes, the new bits lie above the old ones, so "or" adds them. */
  lemma {:induction false} LebOrIs(s: seq<Byte>)
    requires |s| <= 5
    ensures LebOr(s) == Wrap(LebValue(s))
  {
    hide Or, LebValue, Weight, Times, Wrap;
    if s == [] {
      LebOfNothing();
    } else {
      var (front, k, d) := (s[..|s|-1], |s| - 1, s[|s|-1] % 128);
      LebOrIs(front);
      LebBelow(front);
      LebSnoc(front, s[k]);
      assert front + [s[k]] == s;
      OneMoreDigit(k, LebValue(front), d);
    }
  }

  lemma LebOfNothing()
    ensures Wrap(LebValue([])) == 0
  {
  }

  lemma OneMoreDigit(k: nat, v: nat, d: nat)
    requires k < 5 && v < Weight(k) && d < 128
    ensures OrShifted(Wrap(v), d, 7 * k) == Wrap(v + Weight(k) * d)
  {
    hide Or, Times, Wrap, Weight, Pow2;
    WordBits();
    WeightIsPower(k);
    // the last digit of five keeps four bits
    var h := if k < 4 then d else d % 16;
    if k < 4 { ShortDigit(Weight(k), v, d); } else { LastDigit(v, d); }
    TimesIs(Pow2(7 * k), d);
    TimesIs(Pow2(7 * k), h);
    OrAdds(32, 7 * k, v, h);
  }

  lemma TimesIs(x: nat, y: nat)
    ensures Times(x, y) == x * y
  {
  }

  lemma WeightIsPower(k: nat)
    requires k < 5
    ensures 7 * k % 32 == 7 * k && Pow2(7 * k) == Weight(k)
    ensures if k < 4 then 0 < Weight(k) <= 0x20_0000 else Weight(k) == 0x1000_0000
  {
    Weights();
    Powers();
  }

  lemma ShortDigit(w: nat, v: nat, d: nat)
    requires w <= 0x20_0000 && v < w && d < 128
    ensures Wrap(v) == v && Wrap(w * d) == w * d && Wrap(v + w * d) == v + w * d && w * d < 0x1_0000_0000
  {
    ProductWithin(w, 0, 0x20_0000, d);
  }

  lemma LastDigit(v: nat, d: nat)
    requires v < 0x1000_0000 && d < 128
    ensures Wrap(v) == v && Wrap(0x1000_0000 * d) == 0x1000_0000 * (d % 16) < 0x1_0000_0000
    ensures Wrap(v + 0x1000_0000 * d) == v + 0x1000_0000 * (d % 16)
  {
  }

  lemma Powers()
    ensures Pow2(0) == 1 && Pow2(7) == 0x80 && Pow2(14) == 0x4000 && Pow2(21) == 0x20_0000 && Pow2(28) == 0x1000_0000
  {
    assert Pow2(4) == 16 && Pow2(10) == 0x400 && Pow2(18) == 0x4_0000 && Pow2(24) == 0x100_0000;
  }

  /** What is read is a form of the result, unless a fifth byte or a later one carries bits that are lost. */
  lemma ReadIsAForm(build: Build, s: seq<Byte>)
    requires ReadU32(build, s).Ok?
    ensures var (w, rest) := ReadU32(build, s).value;
      var n := LebLength(s);
      1 <= n && rest == s[n..] && IsLeb(s[..n]) && (Denotes(s[..n], w) <==> n < 5 || (n == 5 && s[4] < 16))
  {
    hide LebValue, LebLength, Weight, LebOr;
    var n := LebLength(s);
    Weights();
    LebBelow(s[..n]);
    if n <= 5 { LebOrIs(s[..n]); }
    if n == 5 {
      LebBelow(s[..4]);
      LebSnoc(s[..4], s[4]);
      assert s[..4] + [s[4]] == s[..5];
    }
  }

  lemma {:induction false} PaddingIsNothing(k: nat)
    ensures LebValue(seq(k, _ => 0x80)) == 0
  {
    if k > 0 {
      assert seq(k, _ => 0x80)[1..] == seq(k - 1, _ => 0x80);
      PaddingIsNothing(k - 1);
    }
  }

  /** k bytes of padding and a last byte. */
  function Padded(k: nat, last: Byte): seq<Byte> { seq(k, _ => 0x80) + [last] }

  lemma PaddedIsLeb(k: nat, last: Byte)
    requires last < 128
    ensures IsLeb(Padded(k, last)) && LebLength(Padded(k, last)) == k + 1
    ensures LebValue(Padded(k, last)) == Weight(k) * last
  {
    hide LebLength, Weight;
    PaddingIsNothing(k);
    LebSnoc(seq(k, _ => 0x80), last);
    LengthOfLeb(Padded(k, last), []);
    assert Padded(k, last) + [] == Padded(k, last);
  }

  /** 80 80 80 80 10 spells 2^32, and every build reads 0. */
  lemma TooLargeIsRead(build: Build)
    ensures IsLeb(Padded(4, 0x10)) && LebValue(Padded(4, 0x10)) == 0x1_0000_0000
    ensures ReadU32(build, Padded(4, 0x10)) == Ok((0, []))
  {
    hide LebValue, LebOr, LebLength, Weight;
    Weights();
    PaddedIsLeb(4, 0x10);
    LebOrIs(Padded(4, 0x10));
    assert Padded(4, 0x10)[..5] == Padded(4, 0x10) && Padded(4, 0x10)[5..] == [];
  }

  /** 80 80 80 80 80 00 spells 0, and only an unchecked build reads it. */
  lemma TooLongIsRead(build: Build)
    ensures IsLeb(Padded(5, 0)) && LebValue(Padded(5, 0)) == 0
    ensures ReadU32(build, Padded(5, 0)) == if build.checked then Err(ShiftOverflow) else Ok((0, []))
  {
    hide Or, LebValue, LebLength, Weight;
    var (front, s) := (seq(5, _ => 0x80), Padded(5, 0));
    PaddedIsLeb(5, 0);
    PaddingIsNothing(5);
    LebOrIs(front);
    assert s[..5] == front && s[..6] == s && s[6..] == [] && s[5] == 0;
    WordBits();
    OrNothing(32, 0);
    TimesIs(Pow2(35 % 32), 0);
    assert LebOr(s) == OrShifted(0, 0, 35) == 0;
  }

  lemma Weights()
    ensures Weight(0) == 1 && Weight(1) == 0x80 && Weight(2) == 0x4000 && Weight(3) == 0x20_0000
    ensures Weight(4) == 0x1000_0000
  {
  }

  /** Padded to at least `width` bytes. */
  function Leb(w: nat, width: nat): (s: seq<Byte>)
    requires w < Weight(width)
    ensures |s| == width && LebValue(s) == w
  {
    if width == 0 then []
    else if width == 1 then var s := [w]; assert s[1..] == []; s
    else [w % 128 + 128] + Leb(w / 128, width - 1)
  }

  /** Every number has a form of every width it fits. */
  lemma {:induction false} LebDenotes(w: Word, width: nat)
    requires 1 <= width <= 5 && w < Weight(width)
    ensures Denotes(Leb(w, width), w)
  {
    LebIsLeb(w, width);
  }

  lemma {:induction false} LebIsLeb(w: nat, width: nat)
    requires width >= 1 && w < Weight(width)
    ensures IsLeb(Leb(w, width))
  {
    if width > 1 { LebIsLeb(w / 128, width - 1); }
  }

  // ---------------------------------------------------------------- the reader

  method Uleb(build: Build, b: seq<Byte>, start: nat) returns (r: Result<Word>, pos: nat)
    requires start <= |b|
    ensures start <= pos <= |b|
    ensures match ReadU32(build, b[start..])
      case Ok((w, rest)) => r == Ok(w) && rest == b[pos..] && start < pos
      case Err(e) => r == Err(e)
  {
    hide *;
    pos := start;
    ghost var s := b[start..];
    var v: Word, shift := 0, 0;
    NothingRead(s);
    while true
      invariant start <= pos <= |b| && shift == 7 * (pos - start) && (build.checked ==> pos - start <= 5)
      invariant Continues(s, pos - start) && v == LebOr(s[..pos - start])
      decreases |b| - pos
    {
      Ends(build, s, pos - start);
      if pos >= |b| { return Err(TruncatedNumber), pos; }
      var byte := b[pos];
      assert byte == s[pos - start];
      pos := pos + 1;
      if shift >= 32 && build.checked { return Err(ShiftOverflow), pos; }
      Turn(build, s, pos - 1 - start);
      OrShiftedIs(v, byte % 128, shift);
      v := Or(32, v, Wrap(Times(Pow2(shift % 32), byte % 128)));
      assert s[pos - start..] == b[pos..];
      if byte < 128 { return Ok(v), pos; }
      shift := shift + 7;
    }
  }

  /** The first k bytes carry continuation bits. */
  predicate Continues(s: seq<Byte>, k: nat) {
    k <= |s| && forall i | 0 <= i < k :: s[i] >= 128
  }

  lemma NothingRead(s: seq<Byte>)
    ensures Continues(s, 0) && LebOr(s[..0]) == 0
  {
  }

  lemma Ends(build: Build, s: seq<Byte>, k: nat)
    requires Continues(s, k) && (build.checked ==> k <= 5)
    ensures k == |s| ==> ReadU32(build, s) == Err(TruncatedNumber)
    ensures k == 5 < |s| && build.checked ==> ReadU32(build, s) == Err(ShiftOverflow)
  {
    hide LebOr;
    LeadingBytes(s, k);
  }

  lemma Turn(build: Build, s: seq<Byte>, k: nat)
    requires Continues(s, k) && k < |s| && (build.checked ==> k < 5)
    ensures OrShifted(LebOr(s[..k]), s[k] % 128, 7 * k) == LebOr(s[..k + 1])
    ensures if s[k] < 128 then ReadU32(build, s) == Ok((LebOr(s[..k + 1]), s[k + 1..])) else Continues(s, k + 1)
  {
    hide LebLength, OrShifted;
    LeadingBytes(s, k);
    assert s[..k + 1][..k] == s[..k];
  }

  lemma {:induction false} LeadingBytes(s: seq<Byte>, k: nat)
    requires k <= |s| && forall i | 0 <= i < k :: s[i] >= 128
    ensures LebLength(s) >= k
    ensures k < |s| && s[k] < 128 ==> LebLength(s) == k + 1
    ensures k < |s| && s[k] >= 128 ==> LebLength(s) >= k + 1
    ensures k == |s| ==> LebLength(s) == k
  {
    if k > 0 { LeadingBytes(s[1..], k - 1); }
  }

  // ---------------------------------------------------------------- what is read of a section

  function ReadName(build: Build, s: seq<Byte>): Result<(seq<Byte>, seq<Byte>)> {
    match ReadU32(build, s)
    case Err(e) => Err(e)
    case Ok((n, rest)) => if n > |rest| then Err(TruncatedName) else Ok((rest[..n], rest[n..]))
  }

  function ReadImport(build: Build, s: seq<Byte>): Result<(Import, seq<Byte>)> {
    match ReadName(build, s)
    case Err(e) => Err(e)
    case Ok((from, afterFrom)) =>
      match ReadName(build, afterFrom)
      case Err(e) => Err(e)
      case Ok((name, afterName)) =>
        if afterName == [] then Err(TruncatedImport)
        else if afterName[0] != 0 then Err(NotAFunction(Import(from, name), afterName[0])) else
        match ReadU32(build, afterName[1..])
        case Err(e) => Err(e)
        case Ok((_, rest)) => Ok((Import(from, name), rest))
  }

  function ReadImports(build: Build, n: nat, s: seq<Byte>): Result<seq<Import>> {
    if n == 0 then Ok([]) else
    match ReadImport(build, s)
    case Err(e) => Err(e)
    case Ok((imp, rest)) => Prepend(imp, ReadImports(build, n - 1, rest))
  }

  function Prepend(imp: Import, r: Result<seq<Import>>): Result<seq<Import>> {
    match r
    case Err(e) => Err(e)
    case Ok(imports) => Ok([imp] + imports)
  }

  function ReadImportSection(build: Build, s: seq<Byte>): Result<seq<Import>> {
    match ReadU32(build, s)
    case Err(e) => Err(e)
    case Ok((n, rest)) => if n > build.room then Err(NoRoom) else ReadImports(build, n, rest)
  }

  /** The sections from here on: the first import section decides. */
  function Scan(build: Build, s: seq<Byte>): Result<seq<Import>>
    decreases |s|
  {
    if s == [] then Ok([]) else
    match ReadU32(build, s[1..])
    case Err(e) => Err(e)
    case Ok((size, rest)) =>
      if s[0] == 2 then ReadImportSection(build, rest)
      else if size >= |rest| then Ok([])
      else Scan(build, rest[size..])
  }

  /** What is read of a whole file: eight bytes are passed over, and then come the sections. */
  function Names(build: Build, wasm: seq<Byte>): Result<seq<Import>> {
    if |wasm| < 8 then Ok([]) else Scan(build, wasm[8..])
  }

  method Name(build: Build, b: seq<Byte>, start: nat) returns (r: Result<seq<Byte>>, pos: nat)
    requires start <= |b|
    ensures start <= pos <= |b|
    ensures match ReadName(build, b[start..])
      case Ok((name, rest)) => r == Ok(name) && rest == b[pos..]
      case Err(e) => r == Err(e)
  {
    hide ReadU32;
    var n: Word;
    n, pos :- Uleb(build, b, start);
    if pos + n > |b| { return Err(TruncatedName), pos; }
    var s := b[pos..pos + n];
    assert b[pos..][..n] == s && b[pos..][n..] == b[pos + n..];
    pos := pos + n;
    r := Ok(s);
  }

  method ImportEntry(build: Build, b: seq<Byte>, start: nat) returns (r: Result<Import>, pos: nat)
    requires start <= |b|
    ensures start <= pos <= |b|
    ensures match ReadImport(build, b[start..])
      case Ok((imp, rest)) => r == Ok(imp) && rest == b[pos..]
      case Err(e) => r == Err(e)
  {
    hide ReadU32, ReadName;
    var from: seq<Byte>, name: seq<Byte>, index: Word;
    from, pos :- Name(build, b, start);
    name, pos :- Name(build, b, pos);
    if pos >= |b| { return Err(TruncatedImport), pos; }
    var kind := b[pos];
    assert b[pos..][1..] == b[pos + 1..];
    pos := pos + 1;
    if kind != 0 { return Err(NotAFunction(Import(from, name), kind)), pos; }
    index, pos :- Uleb(build, b, pos);
    r := Ok(Import(from, name));
  }

  method ImportNames(build: Build, wasm: seq<Byte>) returns (r: Result<seq<Import>>)
    ensures r == Names(build, wasm)
  {
    hide ReadU32, ReadImport;
    var pos := 8;
    while pos < |wasm|
      invariant Names(build, wasm) == if pos <= |wasm| then Scan(build, wasm[pos..]) else Ok([])
      decreases |wasm| - pos
    {
      var id := wasm[pos];
      assert wasm[pos..][1..] == wasm[pos + 1..];
      pos := pos + 1;
      var size: Word;
      size, pos :- Uleb(build, wasm, pos);
      var end := pos + size;
      if id == 2 {
        var n: Word;
        n, pos :- Uleb(build, wasm, pos);
        if n > build.room { return Err(NoRoom); }
        var out: seq<Import> := [];
        ghost var body := ReadImports(build, n, wasm[pos..]);
        PrependNothing(body, []);
        for i := 0 to n
          invariant pos <= |wasm|
          invariant body == PrependAll(out, ReadImports(build, n - i, wasm[pos..]))
        {
          var imp: Import;
          imp, pos :- ImportEntry(build, wasm, pos);
          PrependSnoc(out, imp, ReadImports(build, n - i - 1, wasm[pos..]));
          out := out + [imp];
        }
        PrependNothing(Ok([]), out);
        return Ok(out);
      }
      if end < |wasm| { assert wasm[pos..][size..] == wasm[end..]; }
      pos := end;
    }
    r := Ok([]);
  }

  function PrependAll(imports: seq<Import>, r: Result<seq<Import>>): Result<seq<Import>> {
    match r
    case Err(e) => Err(e)
    case Ok(more) => Ok(imports + more)
  }

  lemma PrependNothing(r: Result<seq<Import>>, imports: seq<Import>)
    ensures PrependAll([], r) == r && PrependAll(imports, Ok([])) == Ok(imports)
  {
    if r.Ok? {
      assert [] + r.value == r.value;
    }
    assert imports + [] == imports;
  }

  lemma PrependSnoc(imports: seq<Import>, imp: Import, r: Result<seq<Import>>)
    ensures PrependAll(imports, Prepend(imp, r)) == PrependAll(imports + [imp], r)
  {
    if r.Ok? {
      assert imports + ([imp] + r.value) == imports + [imp] + r.value;
    }
  }

  // ---------------------------------------------------------------- modules (sections 5.5.2 and 5.5.5)

  /** An import as laid out: two names, each after its length, a kind, and its description. */
  datatype Entry = Entry(imp: Import, fromLength: seq<Byte>, nameLength: seq<Byte>, kind: Byte, desc: seq<Byte>)

  predicate EntryIsWellFormed(e: Entry) {
    && |e.imp.from| < 0x1_0000_0000 && Denotes(e.fromLength, |e.imp.from|)
    && |e.imp.name| < 0x1_0000_0000 && Denotes(e.nameLength, |e.imp.name|)
    && (e.kind == 0 ==> exists index: Word :: Denotes(e.desc, index))
  }

  predicate EntriesAreWellFormed(es: seq<Entry>) { forall i | 0 <= i < |es| :: EntryIsWellFormed(es[i]) }

  function EntryBytes(e: Entry): seq<Byte> {
    e.fromLength + e.imp.from + (e.nameLength + e.imp.name + ([e.kind] + e.desc))
  }

  function EntriesBytes(es: seq<Entry>): seq<Byte> {
    if es == [] then [] else EntryBytes(es[0]) + EntriesBytes(es[1..])
  }

  datatype Section = Section(id: Byte, size: seq<Byte>, body: seq<Byte>)

  predicate SectionIsWellFormed(s: Section) { |s.body| < 0x1_0000_0000 && Denotes(s.size, |s.body|) }

  predicate OtherSections(sections: seq<Section>) {
    forall i | 0 <= i < |sections| :: SectionIsWellFormed(sections[i]) && sections[i].id != 2
  }

  function SectionBytes(s: Section): seq<Byte> { [s.id] + s.size + s.body }

  function SectionsBytes(sections: seq<Section>): seq<Byte> {
    if sections == [] then [] else SectionBytes(sections[0]) + SectionsBytes(sections[1..])
  }

  /** s is an import section of these entries. */
  predicate IsImportSection(s: Section, es: seq<Entry>) {
    && s.id == 2 && SectionIsWellFormed(s) && EntriesAreWellFormed(es)
    && exists n | 0 < n <= |s.body| && |es| < 0x1_0000_0000 && Denotes(s.body[..n], |es|) ::
        s.body[n..] == EntriesBytes(es)
  }

  /** The names in order, or the complaint about the first import that is not a function. */
  function Expected(es: seq<Entry>): Result<seq<Import>> {
    if es == [] then Ok([])
    else if es[0].kind != 0 then Err(NotAFunction(es[0].imp, es[0].kind))
    else Prepend(es[0].imp, Expected(es[1..]))
  }

  lemma {:induction false} FunctionsAreNamed(es: seq<Entry>)
    ensures Expected(es).Ok? <==> forall i | 0 <= i < |es| :: es[i].kind == 0
    ensures Expected(es).Ok? ==> Expected(es).value == seq(|es|, i requires 0 <= i < |es| => es[i].imp)
  {
    if es != [] {
      FunctionsAreNamed(es[1..]);
      if es[0].kind == 0 {
        assert Expected(es).Ok? <==> forall i | 0 <= i < |es| - 1 :: es[1..][i].kind == 0;
        assert forall i | 0 < i < |es| :: es[i] == es[1..][i - 1];
      }
    }
  }

  lemma NameIsRead(build: Build, form: seq<Byte>, name: seq<Byte>, rest: seq<Byte>)
    requires |name| < 0x1_0000_0000 && Denotes(form, |name|)
    ensures ReadName(build, form + name + rest) == Ok((name, rest))
  {
    hide ReadU32, Denotes;
    EveryFormIsRead(build, form, |name|, name + rest);
    assert form + name + rest == form + (name + rest);
  }

  lemma EntryIsRead(build: Build, e: Entry, rest: seq<Byte>)
    requires EntryIsWellFormed(e)
    ensures ReadImport(build, EntryBytes(e) + rest) ==
      if e.kind == 0 then Ok((e.imp, rest)) else Err(NotAFunction(e.imp, e.kind))
  {
    hide ReadU32, ReadName, Denotes;
    var afterName := [e.kind] + e.desc + rest;
    var afterFrom := e.nameLength + e.imp.name + afterName;
    assert EntryBytes(e) + rest == e.fromLength + e.imp.from + afterFrom;
    NameIsRead(build, e.fromLength, e.imp.from, afterFrom);
    NameIsRead(build, e.nameLength, e.imp.name, afterName);
    assert afterName[1..] == e.desc + rest;
    if e.kind == 0 {
      var index: Word :| Denotes(e.desc, index);
      EveryFormIsRead(build, e.desc, index, rest);
    }
  }

  lemma {:induction false} EntriesAreRead(build: Build, es: seq<Entry>, rest: seq<Byte>)
    requires EntriesAreWellFormed(es)
    ensures ReadImports(build, |es|, EntriesBytes(es) + rest) == Expected(es)
  {
    hide ReadImport, EntryBytes, EntryIsWellFormed;
    if es != [] {
      EntryIsRead(build, es[0], EntriesBytes(es[1..]) + rest);
      assert EntriesBytes(es) + rest == EntryBytes(es[0]) + (EntriesBytes(es[1..]) + rest);
      if es[0].kind == 0 { EntriesAreRead(build, es[1..], rest); }
    }
  }

  lemma SectionIsSkipped(build: Build, s: Section, more: seq<Byte>)
    requires SectionIsWellFormed(s) && s.id != 2
    ensures Scan(build, SectionBytes(s) + more) == Scan(build, more)
  {
    hide ReadU32, ReadImportSection, Denotes;
    var bytes := SectionBytes(s) + more;
    assert bytes[1..] == s.size + (s.body + more);
    EveryFormIsRead(build, s.size, |s.body|, s.body + more);
    assert (s.body + more)[|s.body|..] == more;
  }

  lemma {:induction false} OthersAreSkipped(build: Build, sections: seq<Section>, rest: seq<Byte>)
    requires OtherSections(sections)
    ensures Scan(build, SectionsBytes(sections) + rest) == Scan(build, rest)
  {
    hide Scan, Denotes, SectionBytes;
    if sections == [] {
      assert SectionsBytes(sections) + rest == rest;
    } else {
      var (first, more) := (sections[0], SectionsBytes(sections[1..]) + rest);
      assert SectionsBytes(sections) + rest == SectionBytes(first) + more;
      SectionIsSkipped(build, first, more);
      OthersAreSkipped(build, sections[1..], rest);
    }
  }

  /** The expected outcome, unless there is no room for as many imports as are announced. */
  function Granted(build: Build, es: seq<Entry>): Result<seq<Import>> {
    if |es| > build.room then Err(NoRoom) else Expected(es)
  }

  lemma {:induction false} ImportSectionIsRead(build: Build, s: Section, es: seq<Entry>, rest: seq<Byte>)
    requires IsImportSection(s, es)
    ensures Scan(build, SectionBytes(s) + rest) == ReadImportSection(build, s.body + rest) == Granted(build, es)
  {
    hide ReadU32, ReadImports, Denotes;
    var n :| 0 < n <= |s.body| && |es| < 0x1_0000_0000 && Denotes(s.body[..n], |es|) && s.body[n..] == EntriesBytes(es);
    assert (SectionBytes(s) + rest)[1..] == s.size + (s.body + rest);
    EveryFormIsRead(build, s.size, |s.body|, s.body + rest);
    assert s.body + rest == s.body[..n] + (EntriesBytes(es) + rest);
    EveryFormIsRead(build, s.body[..n], |es|, EntriesBytes(es) + rest);
    EntriesAreRead(build, es, rest);
  }

  function Module(header: seq<Byte>, sections: seq<Section>): seq<Byte> { header + SectionsBytes(sections) }

  lemma HeaderIsPassedOver(build: Build, header: seq<Byte>, rest: seq<Byte>)
    requires |header| == 8
    ensures Names(build, header + rest) == Scan(build, rest)
  {
    hide Scan;
    assert (header + rest)[8..] == rest;
  }

  lemma ModuleParts(header: seq<Byte>, before: seq<Section>, bytes: seq<Byte>, rest: seq<Byte>)
    ensures Module(header, before) + bytes + rest == header + (SectionsBytes(before) + (bytes + rest))
  {
    hide SectionsBytes;
  }

  /** A module's imports are named in order, whatever stands before and after its import section. */
  lemma {:induction false} NamesAreExact(
      build: Build, header: seq<Byte>, before: seq<Section>, s: Section, es: seq<Entry>, rest: seq<Byte>)
    requires |header| == 8 && OtherSections(before) && IsImportSection(s, es)
    ensures Names(build, Module(header, before) + SectionBytes(s) + rest) == Granted(build, es)
  {
    hide *;
    OthersAreSkipped(build, before, SectionBytes(s) + rest);
    ImportSectionIsRead(build, s, es, rest);
    HeaderIsPassedOver(build, header, SectionsBytes(before) + (SectionBytes(s) + rest));
    ModuleParts(header, before, SectionBytes(s), rest);
  }

  lemma NoImportsNoNames(build: Build, header: seq<Byte>, sections: seq<Section>)
    requires |header| == 8 && OtherSections(sections)
    ensures Names(build, Module(header, sections)) == Ok([])
  {
    hide ReadU32;
    OthersAreSkipped(build, sections, []);
    assert Module(header, sections)[8..] == SectionsBytes(sections) + [];
  }

  // ---------------------------------------------------------------- modules cut short

  predicate Truncated(e: Error) { e.TruncatedNumber? || e.TruncatedName? || e.TruncatedImport? }

  /** An outcome that more bytes do not change, but for the bytes left over. */
  predicate Settled<T(==)>(short: Result<(T, seq<Byte>)>, long: Result<(T, seq<Byte>)>, more: seq<Byte>) {
    match short
    case Ok((x, rest)) => long == Ok((x, rest + more))
    case Err(e) => Truncated(e) || long == Err(e)
  }

  lemma {:induction false} LengthSettles(s: seq<Byte>, more: seq<Byte>)
    ensures s != [] && s[LengthOf(s) - 1] < 128 ==> LebLength(s + more) == LebLength(s)
    ensures LebLength(s + more) >= LebLength(s)
  {
    if s != [] && s[0] >= 128 {
      LengthSettles(s[1..], more);
      assert (s + more)[1..] == s[1..] + more;
    }
  }

  function LengthOf(s: seq<Byte>): (n: nat)
    requires s != []
    ensures 0 < n <= |s|
  {
    LebLength(s)
  }

  lemma NumberSettles(build: Build, s: seq<Byte>, more: seq<Byte>)
    ensures Settled(ReadU32(build, s), ReadU32(build, s + more), more)
  {
    hide LebOr, LebLength;
    LengthSettles(s, more);
    var n := LebLength(s);
    assert (s + more)[..n] == s[..n] && (s + more)[n..] == s[n..] + more;
  }

  lemma NameSettles(build: Build, s: seq<Byte>, more: seq<Byte>)
    ensures Settled(ReadName(build, s), ReadName(build, s + more), more)
  {
    hide ReadU32;
    NumberSettles(build, s, more);
    if ReadU32(build, s).Ok? {
      var (n, rest) := ReadU32(build, s).value;
      if n <= |rest| {
        assert (rest + more)[..n] == rest[..n] && (rest + more)[n..] == rest[n..] + more;
      }
    }
  }

  lemma ImportSettles(build: Build, s: seq<Byte>, more: seq<Byte>)
    ensures Settled(ReadImport(build, s), ReadImport(build, s + more), more)
  {
    hide ReadU32, ReadName;
    NameSettles(build, s, more);
    if ReadName(build, s).Ok? {
      var afterFrom := ReadName(build, s).value.1;
      NameSettles(build, afterFrom, more);
      if ReadName(build, afterFrom).Ok? && ReadName(build, afterFrom).value.1 != [] {
        var afterName := ReadName(build, afterFrom).value.1;
        assert (afterName + more)[1..] == afterName[1..] + more;
        NumberSettles(build, afterName[1..], more);
      }
    }
  }

  /** The bytes left after n imports, when they can be read. */
  function AfterImports(build: Build, n: nat, s: seq<Byte>): Result<(seq<Import>, seq<Byte>)> {
    if n == 0 then Ok(([], s)) else
    match ReadImport(build, s)
    case Err(e) => Err(e)
    case Ok((imp, rest)) =>
      match AfterImports(build, n - 1, rest)
      case Err(e) => Err(e)
      case Ok((imports, after)) => Ok(([imp] + imports, after))
  }

  lemma {:induction false} ImportsSettle(build: Build, n: nat, s: seq<Byte>, more: seq<Byte>)
    ensures Settled(AfterImports(build, n, s), AfterImports(build, n, s + more), more)
  {
    hide ReadImport;
    if n > 0 {
      ImportSettles(build, s, more);
      if ReadImport(build, s).Ok? { ImportsSettle(build, n - 1, ReadImport(build, s).value.1, more); }
    }
  }

  lemma {:induction false} AfterImportsIs(build: Build, n: nat, s: seq<Byte>)
    ensures ReadImports(build, n, s) ==
      match AfterImports(build, n, s)
      case Ok((imports, _)) => Ok(imports)
      case Err(e) => Err(e)
  {
    hide ReadImport;
    if n > 0 && ReadImport(build, s).Ok? { AfterImportsIs(build, n - 1, ReadImport(build, s).value.1); }
  }

  lemma {:induction false} NothingIsLeft(build: Build, es: seq<Entry>)
    requires EntriesAreWellFormed(es) && Expected(es).Ok?
    ensures AfterImports(build, |es|, EntriesBytes(es)).Ok? && AfterImports(build, |es|, EntriesBytes(es)).value.1 == []
  {
    hide ReadImport, EntryBytes, EntryIsWellFormed;
    if es != [] {
      EntryIsRead(build, es[0], EntriesBytes(es[1..]));
      NothingIsLeft(build, es[1..]);
    }
  }

  /** A module that ends inside its import section is refused as truncated, wherever it is cut. */
  lemma {:induction false} CutShortIsRefused(
      build: Build, header: seq<Byte>, before: seq<Section>, s: Section, es: seq<Entry>, cut: nat)
    requires |header| == 8 && OtherSections(before) && IsImportSection(s, es) && Expected(es).Ok?
    requires 0 < cut < |SectionBytes(s)|
    ensures var r := Names(build, Module(header, before) + SectionBytes(s)[..cut]);
      r.Err? && (Truncated(r.error) || (r.error == NoRoom && |es| > build.room))
  {
    hide Scan, IsImportSection;
    var kept := SectionBytes(s)[..cut];
    OthersAreSkipped(build, before, kept);
    assert (Module(header, before) + kept)[8..] == SectionsBytes(before) + kept;
    CutSection(build, s, es, cut);
  }

  lemma {:induction false} CutSection(build: Build, s: Section, es: seq<Entry>, cut: nat)
    requires IsImportSection(s, es) && Expected(es).Ok?
    requires 0 < cut < |SectionBytes(s)|
    ensures var r := Scan(build, SectionBytes(s)[..cut]);
      r.Err? && (Truncated(r.error) || (r.error == NoRoom && |es| > build.room))
  {
    hide ReadU32, ReadImports, Denotes, ReadImportSection;
    var bytes := SectionBytes(s);
    var (kept, more) := (bytes[1..cut], bytes[cut..]);
    assert bytes[..cut][1..] == kept;
    assert kept + more == s.size + s.body;
    NumberSettles(build, kept, more);
    EveryFormIsRead(build, s.size, |s.body|, s.body);
    if ReadU32(build, kept).Ok? {
      var rest := ReadU32(build, kept).value.1;
      assert rest + more == s.body;
      CutBody(build, s.body, es, rest, more);
    }
  }

  lemma {:induction false} CutBody(build: Build, body: seq<Byte>, es: seq<Entry>, kept: seq<Byte>, more: seq<Byte>)
    requires body == kept + more && more != []
    requires EntriesAreWellFormed(es) && Expected(es).Ok?
    requires exists n | 0 < n <= |body| && |es| < 0x1_0000_0000 && Denotes(body[..n], |es|) ::
        body[n..] == EntriesBytes(es)
    ensures var r := ReadImportSection(build, kept);
      r.Err? && (Truncated(r.error) || (r.error == NoRoom && |es| > build.room))
  {
    hide ReadU32, Denotes, AfterImports;
    var n :| 0 < n <= |body| && |es| < 0x1_0000_0000 && Denotes(body[..n], |es|) && body[n..] == EntriesBytes(es);
    NumberSettles(build, kept, more);
    assert body == body[..n] + body[n..];
    EveryFormIsRead(build, body[..n], |es|, EntriesBytes(es));
    if ReadU32(build, kept).Ok? {
      var rest := ReadU32(build, kept).value.1;
      assert rest + more == EntriesBytes(es);
      ImportsSettle(build, |es|, rest, more);
      NothingIsLeft(build, es);
      AfterImportsIs(build, |es|, rest);
    }
  }
}
