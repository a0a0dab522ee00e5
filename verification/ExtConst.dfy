/** Constant expressions evaluated at instantiation, and the twin that has them folded beforehand. */
module ExtConst {
  import opened Options
  import opened Bytes
  import opened Modular
  import opened LinearMemory

  const M32 := 0x1_0000_0000
  const M64 := 0x1_0000_0000_0000_0000
  const PAGE := 65536

  datatype Op = Add | Sub | Mul

  datatype Tree = Const(c: int) | Node(op: Op, left: Tree, right: Tree)

  function Apply(op: Op, a: int, b: int): int {
    match op
    case Add => a + b
    case Sub => a - b
    case Mul => a * b
  }

  // ---------------------------------------------------------------- three ways to a value

  /** As integers, nothing wrapped. */
  function Exact(t: Tree): int {
    match t
    case Const(c) => c
    case Node(Add, l, r) => Exact(l) + Exact(r)
    case Node(Sub, l, r) => Exact(l) - Exact(r)
    case Node(Mul, l, r) => Exact(l) * Exact(r)
  }

  /** As the engine evaluates it: every operation on words of m values. */
  function Evaluated(t: Tree, m: nat): int
    requires m > 0
  {
    match t
    case Const(c) => c % m
    case Node(op, l, r) => Apply(op, Evaluated(l, m), Evaluated(r, m)) % m
  }

  lemma ApplyModulo(op: Op, a: int, b: int, m: nat)
    requires m > 0
    ensures Apply(op, a % m, b % m) % m == Apply(op, a, b) % m
  {
    match op
    case Add => ModOfBothTerms(a, b, m);
    case Mul => ModOfBothFactors(a, b, m);
    case Sub =>
      var (p, q) := (a / m, b / m);
      assert a == p * m + a % m && b == q * m + b % m;
      assert a - b == (a % m - b % m) + (p - q) * m;
      ModPlusMultiple(a % m - b % m, p - q, m);
  }

  /** Wrapping at every node is wrapping once. */
  lemma {:induction false} EvaluatedIsExact(t: Tree, m: nat)
    requires m > 0
    ensures Evaluated(t, m) == Exact(t) % m
  {
    match t
    case Const(_) =>
    case Node(op, l, r) =>
      EvaluatedIsExact(l, m);
      EvaluatedIsExact(r, m);
      ApplyModulo(op, Exact(l), Exact(r), m);
  }

  /** The constant as a signed number, which is how the text format is given it. */
  function Signed(v: int, m: nat): int
    requires m > 0
  {
    var w := v % m;
    if 2 * w >= m then w - m else w
  }

  lemma SignedIsSame(v: int, m: nat)
    requires m > 0
    ensures Evaluated(Const(Signed(v, m)), m) == v % m && -(m as int) <= 2 * Signed(v, m) < m
  {
    var w := v % m;
    SmallMod(w, m);
    ModPlusMultiple(w, -1, m);
  }

  // ---------------------------------------------------------------- the generator and the reference

  /** A random stream: what the k-th draw gives before it is brought into range. */
  type Draws = nat -> nat

  function OpOf(d: nat): Op { if d % 3 == 0 then Add else if d % 3 == 1 then Sub else Mul }

  lemma EveryOpIsDrawn()
    ensures OpOf(0) == Add && OpOf(1) == Sub && OpOf(2) == Mul
  {
  }

  /** The generator's tree, its folded value, and how many draws have been made. */
  function GenTree(draws: Draws, at: nat, depth: nat, m: nat): (Tree, int, nat)
    requires m > 0
    decreases depth
  {
    if depth == 0 then (Const(draws(at) % 0x1_0000), draws(at) % 0x1_0000, at + 1) else
    var op := OpOf(draws(at));
    var (a, av, at1) := GenTree(draws, at + 1, depth - 1, m);
    var (b, bv, at2) := GenTree(draws, at1, depth - 1, m);
    (Node(op, a, b), Apply(op, av, bv) % m, at2)
  }

  /** The reference keeps only the value. */
  function RefTree(draws: Draws, at: nat, depth: nat, m: nat): (int, nat)
    requires m > 0
    decreases depth
  {
    if depth == 0 then (draws(at) % 0x1_0000, at + 1) else
    var op := OpOf(draws(at));
    var (a, at1) := RefTree(draws, at + 1, depth - 1, m);
    var (b, at2) := RefTree(draws, at1, depth - 1, m);
    (Apply(op, a, b) % m, at2)
  }

  lemma {:induction false} TreeHasItsValue(draws: Draws, at: nat, depth: nat, m: nat)
    requires m >= 0x1_0000
    ensures var (t, v, next) := GenTree(draws, at, depth, m);
      RefTree(draws, at, depth, m) == (v, next) && 0 <= v < m && Evaluated(t, m) == v
    decreases depth
  {
    hide Apply, OpOf;
    if depth == 0 {
      SmallMod(draws(at) % 0x1_0000, m);
    } else {
      TreeHasItsValue(draws, at + 1, depth - 1, m);
      TreeHasItsValue(draws, GenTree(draws, at + 1, depth - 1, m).2, depth - 1, m);
    }
  }

  function GenTrees(draws: Draws, at: nat, n: nat, m: nat): (seq<Tree>, seq<int>, nat)
    requires m > 0
  {
    if n == 0 then ([], [], at) else
    var (ts, vs, at1) := GenTrees(draws, at, n - 1, m);
    var (t, v, at2) := GenTree(draws, at1, 3, m);
    (ts + [t], vs + [v], at2)
  }

  function RefTrees(draws: Draws, at: nat, n: nat, m: nat): (seq<int>, nat)
    requires m > 0
  {
    if n == 0 then ([], at) else
    var (vs, at1) := RefTrees(draws, at, n - 1, m);
    var (v, at2) := RefTree(draws, at1, 3, m);
    (vs + [v], at2)
  }

  predicate Values(ts: seq<Tree>, vs: seq<int>, m: nat)
    requires m > 0
  {
    |ts| == |vs| && forall i | 0 <= i < |vs| :: 0 <= vs[i] < m && Evaluated(ts[i], m) == vs[i]
  }

  lemma {:induction false} TreesHaveTheirValues(draws: Draws, at: nat, n: nat, m: nat)
    requires m >= 0x1_0000
    ensures var (ts, vs, next) := GenTrees(draws, at, n, m);
      RefTrees(draws, at, n, m) == (vs, next) && |vs| == n && Values(ts, vs, m)
  {
    hide GenTree, RefTree, Evaluated;
    if n > 0 {
      TreesHaveTheirValues(draws, at, n - 1, m);
      TreeHasItsValue(draws, GenTrees(draws, at, n - 1, m).2, 3, m);
    }
  }

  /** k * 16 + ((4096 + a) - a) */
  function OffsetTree(k: nat, a: nat): Tree {
    Node(Add, Node(Mul, Const(k), Const(16)), Node(Sub, Const(4096 + a), Const(a)))
  }

  function OffsetOf(k: nat): nat { k * 16 + 4096 }

  lemma OffsetHasItsValue(k: nat, a: nat)
    requires k < 256
    ensures Evaluated(OffsetTree(k, a), M32) == OffsetOf(k) == Evaluated(Const(OffsetOf(k)), M32)
  {
    EvaluatedIsExact(OffsetTree(k, a), M32);
    assert Exact(Node(Mul, Const(k), Const(16))) == k * 16;
    assert Exact(Node(Sub, Const(4096 + a), Const(a))) == 4096;
  }

  datatype Segment = Segment(offset: Tree, word: Word)

  /** The data segments of the module, with offsets spelled as trees or as constants. */
  function Segments(draws: Draws, at: nat, n: nat, extended: bool): (seq<Segment>, nat) {
    if n == 0 then ([], at) else
    var (segs, at1) := Segments(draws, at, n - 1, extended);
    var offset := if extended then OffsetTree(n - 1, 1 + draws(at1) % 63) else Const(OffsetOf(n - 1));
    (segs + [Segment(offset, draws(at1 + 1) % M32)], at1 + 2)
  }

  /** The reference draws and drops the offsets' noise. */
  function RefWords(draws: Draws, at: nat, n: nat): (seq<Word>, nat) {
    if n == 0 then ([], at) else
    var (words, at1) := RefWords(draws, at, n - 1);
    (words + [draws(at1 + 1) % M32], at1 + 2)
  }

  /** Segment k lies at the k-th offset and holds the k-th word. */
  predicate Laid(segs: seq<Segment>, words: seq<Word>) {
    |segs| == |words| && forall k | 0 <= k < |segs| ::
        Evaluated(segs[k].offset, M32) == OffsetOf(k) && segs[k].word == words[k]
  }

  lemma {:induction false} SegmentsAreLaid(draws: Draws, at: nat, n: nat, extended: bool)
    requires n <= 256
    ensures Segments(draws, at, n, extended).1 == RefWords(draws, at, n).1
    ensures |Segments(draws, at, n, extended).0| == n
    ensures Laid(Segments(draws, at, n, extended).0, RefWords(draws, at, n).0)
  {
    hide Evaluated, OffsetTree, OffsetOf;
    if n > 0 {
      SegmentsAreLaid(draws, at, n - 1, extended);
      OffsetHasItsValue(n - 1, 1 + draws(RefWords(draws, at, n - 1).1) % 63);
    }
  }

  // ---------------------------------------------------------------- the modules

  datatype Program = Program(g32: seq<Tree>, g64: seq<Tree>, segments: seq<Segment>)

  function Constants(vs: seq<int>, m: nat): (ts: seq<Tree>)
    requires m > 0
    ensures |ts| == |vs| && forall i | 0 <= i < |vs| :: ts[i] == Const(Signed(vs[i], m))
  {
    seq(|vs|, i requires 0 <= i < |vs| => Const(Signed(vs[i], m)))
  }

  function Generated(draws: Draws, extended: bool): Program {
    var (t32, v32, at1) := GenTrees(draws, 0, 2048, M32);
    var (t64, v64, at2) := GenTrees(draws, at1, 512, M64);
    Program(if extended then t32 else Constants(v32, M32), if extended then t64 else Constants(v64, M64),
            Segments(draws, at2, 256, extended).0)
  }

  predicate AllTrees(ts: seq<Tree>) { forall i | 0 <= i < |ts| :: ts[i].Node? }

  predicate AllConstants(ts: seq<Tree>) { forall i | 0 <= i < |ts| :: ts[i].Const? }

  function Offsets(segs: seq<Segment>): (ts: seq<Tree>)
    ensures |ts| == |segs|
  {
    seq(|segs|, i requires 0 <= i < |segs| => segs[i].offset)
  }

  lemma TreesBranch(draws: Draws, at: nat, depth: nat, m: nat)
    requires m > 0 && depth > 0
    ensures GenTree(draws, at, depth, m).0.Node?
  {
  }

  lemma {:induction false} GeneratedAreTrees(draws: Draws, at: nat, n: nat, m: nat)
    requires m > 0
    ensures AllTrees(GenTrees(draws, at, n, m).0)
  {
    hide GenTree;
    if n > 0 {
      GeneratedAreTrees(draws, at, n - 1, m);
      TreesBranch(draws, GenTrees(draws, at, n - 1, m).2, 3, m);
    }
  }

  lemma OneMoreOffset(segs: seq<Segment>, s: Segment)
    ensures Offsets(segs + [s]) == Offsets(segs) + [s.offset]
    ensures AllTrees(Offsets(segs)) && s.offset.Node? ==> AllTrees(Offsets(segs + [s]))
    ensures AllConstants(Offsets(segs)) && s.offset.Const? ==> AllConstants(Offsets(segs + [s]))
  {
  }

  lemma {:induction false} OffsetsAreSpelled(draws: Draws, at: nat, n: nat, extended: bool)
    ensures var offsets := Offsets(Segments(draws, at, n, extended).0);
            if extended then AllTrees(offsets) else AllConstants(offsets)
  {
    if n > 0 {
      OffsetsAreSpelled(draws, at, n - 1, extended);
      var (segs, at1) := Segments(draws, at, n - 1, extended);
      var offset := if extended then OffsetTree(n - 1, 1 + draws(at1) % 63) else Const(OffsetOf(n - 1));
      OneMoreOffset(segs, Segment(offset, draws(at1 + 1) % M32));
      hide AllTrees, AllConstants, Offsets;
    }
  }

  lemma ConstantsAreConstants(vs: seq<int>, m: nat)
    requires m > 0
    ensures AllConstants(Constants(vs, m))
  {
  }

  /** One module spells every constant as an expression, and its twin has none. */
  lemma TwinIsFolded(draws: Draws, extended: bool)
    ensures var p := Generated(draws, extended);
            if extended then AllTrees(p.g32) && AllTrees(p.g64) && AllTrees(Offsets(p.segments))
            else AllConstants(p.g32) && AllConstants(p.g64) && AllConstants(Offsets(p.segments))
  {
    hide GenTrees, Segments, AllTrees, AllConstants, Offsets, Constants;
    ConstantsAreConstants(GenTrees(draws, 0, 2048, M32).1, M32);
    ConstantsAreConstants(GenTrees(draws, GenTrees(draws, 0, 2048, M32).2, 512, M64).1, M64);
    var at1 := GenTrees(draws, 0, 2048, M32).2;
    var at2 := GenTrees(draws, at1, 512, M64).2;
    GeneratedAreTrees(draws, 0, 2048, M32);
    GeneratedAreTrees(draws, at1, 512, M64);
    OffsetsAreSpelled(draws, at2, 256, extended);
  }

  lemma ConstantsHaveTheirValues(vs: seq<int>, m: nat)
    requires m > 0 && forall i | 0 <= i < |vs| :: 0 <= vs[i] < m
    ensures Values(Constants(vs, m), vs, m)
  {
    hide Evaluated;
    forall i | 0 <= i < |vs| ensures Evaluated(Constants(vs, m)[i], m) == vs[i] {
      SignedIsSame(vs[i], m);
      SmallMod(vs[i], m);
    }
  }

  // ---------------------------------------------------------------- the checksum

  function Fold32(h: Word, vs: seq<int>): Word {
    if vs == [] then h else Wrap((Rotl(Fold32(h, vs[..|vs|-1]), 3) as int) + vs[|vs|-1])
  }

  function Fold64(vs: seq<int>): Long {
    if vs == [] then 0 else Wrap64((Rotl64(Fold64(vs[..|vs|-1]), 5) as int) + vs[|vs|-1])
  }

  function FoldWords(h: Word, words: seq<Word>): Word {
    if words == [] then h else Xor(Rotl(FoldWords(h, words[..|words|-1]), 1), words[|words|-1])
  }

  function Checksum(seed: Word, v32: seq<int>, v64: seq<int>, words: seq<Word>): Word {
    var w := Fold64(v64);
    Wrap((FoldWords(Fold32(seed, v32), words) as int) + Xor(w % 0x1_0000_0000, w / 0x1_0000_0000))
  }

  function Reference(draws: Draws, seed: Word): Word {
    var (v32, at1) := RefTrees(draws, 0, 2048, 0x1_0000_0000);
    var (v64, at2) := RefTrees(draws, at1, 512, 0x1_0000_0000_0000_0000);
    Checksum(seed, v32, v64, RefWords(draws, at2, 256).0)
  }

  // ---------------------------------------------------------------- instantiating and calling

  /** The first n segments are in place. */
  predicate Placed(m: seq<Byte>, words: seq<Word>, n: nat) {
    |m| == PAGE && n <= |words| && n <= 256 && forall k | 0 <= k < n :: WordAt(m, OffsetOf(k)) == words[k]
  }

  lemma PlaceOne(m: seq<Byte>, m': seq<Byte>, words: seq<Word>, n: nat)
    requires Placed(m, words, n) && n < |words| && n < 256
    requires SameOutside(m, m', OffsetOf(n), 4) && WordAt(m', OffsetOf(n)) == words[n]
    ensures Placed(m', words, n + 1)
  {
    forall k | 0 <= k < n + 1 ensures WordAt(m', OffsetOf(k)) == words[k] {
      if k < n { assert WordAt(m, OffsetOf(k)) == words[k]; }
    }
  }

  lemma NonePlaced(m: seq<Byte>, words: seq<Word>)
    requires |m| == PAGE
    ensures Placed(m, words, 0)
  {
  }

  method Globals(ts: seq<Tree>, m: nat, ghost vs: seq<int>) returns (globals: seq<int>)
    requires m > 0 && Values(ts, vs, m)
    ensures globals == vs
  {
    hide Evaluated;
    globals := [];
    for i := 0 to |ts|
      invariant globals == vs[..i]
    {
      globals := globals + [Evaluated(ts[i], m)];
    }
  }

  lemma ProgramHasItsValues(draws: Draws, extended: bool)
    ensures var p := Generated(draws, extended);
      var (v32, at1) := RefTrees(draws, 0, 2048, M32);
      var (v64, at2) := RefTrees(draws, at1, 512, M64);
      var words := RefWords(draws, at2, 256).0;
      Values(p.g32, v32, M32) && Values(p.g64, v64, M64) && |words| == 256 && Laid(p.segments, words)
  {
    hide GenTrees, RefTrees, Segments, RefWords, Evaluated, Laid;
    var at1 := GenTrees(draws, 0, 2048, M32).2;
    TreesHaveTheirValues(draws, 0, 2048, M32);
    TreesHaveTheirValues(draws, at1, 512, M64);
    var at2 := GenTrees(draws, at1, 512, M64).2;
    SegmentsAreLaid(draws, at2, 256, extended);
    LaidIsAsLong(Segments(draws, at2, 256, extended).0, RefWords(draws, at2, 256).0);
    ConstantsHaveTheirValues(GenTrees(draws, 0, 2048, M32).1, M32);
    ConstantsHaveTheirValues(GenTrees(draws, at1, 512, M64).1, M64);
  }

  lemma LaidIsAsLong(segs: seq<Segment>, words: seq<Word>)
    requires Laid(segs, words)
    ensures |segs| == |words|
  {
  }

  lemma SegmentIs(segs: seq<Segment>, words: seq<Word>, k: nat)
    requires Laid(segs, words) && k < |segs| <= 256
    ensures k < |words| && Evaluated(segs[k].offset, M32) == OffsetOf(k) && segs[k].word == words[k]
    ensures OffsetOf(k) + 4 <= PAGE
  {
  }

  /** The exported function: rotate and add the globals, rotate and xor a word of every segment. */
  method Exported(
      memory: array<Byte>, g32: seq<int>, g64: seq<int>, seed: Word, ghost words: seq<Word>) returns (sum: Word)
    requires |words| == 256 && Placed(memory[..], words, 256)
    ensures sum == Checksum(seed, g32, g64, words)
  {
    hide Wrap, Wrap64, Rotl, Rotl64, Xor, Xor64, WordAt;
    var h := seed;
    var w: Long := 0;
    for i := 0 to |g32|
      invariant h == Fold32(seed, g32[..i])
    {
      assert g32[..i + 1][..i] == g32[..i];
      h := Wrap((Rotl(h, 3) as int) + g32[i]);
    }
    assert g32[..|g32|] == g32;
    for i := 0 to |g64|
      invariant w == Fold64(g64[..i])
    {
      assert g64[..i + 1][..i] == g64[..i];
      w := Wrap64((Rotl64(w, 5) as int) + g64[i]);
    }
    assert g64[..|g64|] == g64;
    ghost var start := h;
    for k := 0 to 256
      invariant h == FoldWords(start, words[..k])
    {
      assert words[..k + 1][..k] == words[..k];
      var word := Load32(memory, OffsetOf(k));
      h := Xor(Rotl(h, 1), word);
    }
    assert words[..256] == words;
    HalvesAre(w);
    var folded: Word := Xor64(w, w / 0x1_0000_0000) % 0x1_0000_0000;
    sum := Wrap((h as int) + folded);
  }

  /** Both modules: instantiation never traps, and the exported function returns the reference's checksum. */
  method Run(draws: Draws, extended: bool, seed: Word) returns (r: Option<Word>)
    ensures r == Some(Reference(draws, seed))
  {
    hide GenTrees, RefTrees, Segments, RefWords, Evaluated, Values, Laid, Placed, SameOutside, WordAt,
         Wrap, Wrap64, Rotl, Rotl64, Xor, Fold32, Fold64, FoldWords;
    var p := Generated(draws, extended);
    ghost var (v32, at1) := RefTrees(draws, 0, 2048, M32);
    ghost var (v64, at2) := RefTrees(draws, at1, 512, M64);
    ghost var words := RefWords(draws, at2, 256).0;
    ProgramHasItsValues(draws, extended);
    var g32 := Globals(p.g32, M32, v32);
    var g64 := Globals(p.g64, M64, v64);
    var memory := new Byte[65536](i => 0);
    NonePlaced(memory[..], words);
    LaidIsAsLong(p.segments, words);
    for k := 0 to |p.segments|
      invariant Placed(memory[..], words, k)
    {
      SegmentIs(p.segments, words, k);
      var at := Evaluated(p.segments[k].offset, M32);
      if at + 4 > 65536 { return None; }
      ghost var before := memory[..];
      Store32(memory, at, p.segments[k].word);
      PlaceOne(before, memory[..], words, k);
    }
    var sum := Exported(memory, g32, g64, seed, words);
    r := Some(sum);
  }
}
