/** The pointer chase over the linked heap, on 64-bit and on 32-bit addresses. */
module Chase {
  import opened Bytes
  import opened Modular
  import opened Lcg
  import opened LinearMemory

  const A := 1103515245
  const C := 12345
  const BITS := 22
  const NODES := 0x400000
  const HOPS := 262144
  const KEY: Long := 0x9E37_79B9_7F4A_7C15

  lemma NodesIsAPower()
    ensures Pow2(BITS) == NODES
  {
    assert Pow2(10) == 1024;
    assert Pow2(12) == 4 * Pow2(10) && Pow2(14) == 4 * Pow2(12) && Pow2(16) == 4 * Pow2(14);
    assert Pow2(18) == 4 * Pow2(16) && Pow2(20) == 4 * Pow2(18) && Pow2(22) == 4 * Pow2(20);
  }

  function Payload(i: nat): Long
    requires i < NODES
  {
    Xor64(i, KEY)
  }

  lemma PayloadIs(i: nat)
    requires i < NODES
    ensures Payload(i) == Xor64(i, 0x9E37_79B9_7F4A_7C15)
  {
    hide Xor64;
  }

  function Node(seed: Word, k: nat): (r: nat)
    ensures r < NODES
  {
    NodesIsAPower();
    SmallSeed(seed);
    HopsInRange(BITS, A, C, k, seed % NODES);
    Hops(BITS, A, C, k, seed % NODES)
  }

  lemma SmallSeed(seed: Word)
    ensures seed % NODES < Pow2(BITS)
  {
    NodesIsAPower();
  }

  /** One turn of the loop body, apart from following the link. */
  function Absorb(acc: Long, payload: Long): Long { Wrap64((Rotl64(acc, 7) as int) + payload) }

  /** The accumulator after k nodes of the permutation. */
  function Accumulated(seed: Word, k: nat): Long {
    if k == 0 then 0 else Absorb(Accumulated(seed, k - 1), Payload(Node(seed, k - 1)))
  }

  /** The two halves of the accumulator, exclusive-or'ed. */
  function Checksum(acc: Long): Word { Xor(acc % 0x1_0000_0000, acc / 0x1_0000_0000) }

  /** Where the link of node i leads. */
  function LinkOf(i: nat): (r: nat)
    ensures r < NODES
  {
    (i * A + C) % NODES
  }

  lemma NodeStep(seed: Word, k: nat)
    ensures Node(seed, 0) == seed % NODES
    ensures Node(seed, k + 1) == LinkOf(Node(seed, k))
  {
    NodesIsAPower();
    Commutes(Node(seed, k), A);
  }

  /** The nodes of one call are pairwise different, whatever the seed. */
  lemma ChaseMeetsDistinctNodes(seed: Word, i: nat, j: nat)
    requires i < j < HOPS
    ensures Node(seed, i) != Node(seed, j)
  {
    NodesIsAPower();
    HopsAreDistinct(BITS, A, C, seed % NODES, i, j);
  }

  /** The plain loop of the reference: no memory, one index masked at every hop. */
  method Reference(seed: Word) returns (checksum: Word)
    ensures checksum == Checksum(Accumulated(seed, HOPS))
  {
    hide Node, Rotl64, Wrap64, Xor64, Xor;
    NodeStep(seed, 0);
    var p: nat, acc: Long := seed % 0x400000, 0;
    for k := 0 to 262144
      invariant p == Node(seed, k) && acc == Accumulated(seed, k)
    {
      acc := Wrap64((Rotl64(acc, 7) as int) + Xor64(p, 0x9E37_79B9_7F4A_7C15));
      NodeStep(seed, k);
      p := (p * 1103515245 + 12345) % 0x400000;
    }
    HalvesAre(acc);
    checksum := Xor64(acc, acc / 0x1_0000_0000) % 0x1_0000_0000;
  }

  /** Node i of the heap: its link, as wide as addresses are, and its payload behind it. */
  predicate HoldsNode(m64: bool, m: seq<Byte>, i: nat)
    requires 16 * i + 16 <= |m| && i < NODES
  {
    LinkAt(m64, m, i) == 16 * LinkOf(i) && LongAt(m, 16 * i + 8) == Payload(i)
  }

  function LinkAt(m64: bool, m: seq<Byte>, i: nat): nat
    requires 16 * i + 16 <= |m|
  {
    if m64 then LongAt(m, 16 * i) else WordAt(m, 16 * i)
  }

  predicate Linked(m64: bool, m: seq<Byte>, n: nat) {
    |m| == 16 * NODES && n <= NODES && forall i | 0 <= i < n :: HoldsNode(m64, m, i)
  }

  lemma NodeStays(m64: bool, m: seq<Byte>, m': seq<Byte>, i: nat, lo: nat, n: nat)
    requires SameOutside(m, m', lo, n) && 16 * i + 16 <= |m| && i < NODES && 16 * i + 16 <= lo
    ensures HoldsNode(m64, m, i) ==> HoldsNode(m64, m', i)
  {
    hide WordAt, LongAt, LinkOf, Payload;
    WordStays(m, m', 16 * i, lo, n);
    LongStays(m, m', 16 * i, lo, n);
    LongStays(m, m', 16 * i + 8, lo, n);
  }

  lemma LinkedStays(m64: bool, m: seq<Byte>, m': seq<Byte>, k: nat, lo: nat, n: nat)
    requires Linked(m64, m, k) && SameOutside(m, m', lo, n) && 16 * k <= lo
    ensures Linked(m64, m', k)
  {
    hide HoldsNode;
    forall i | 0 <= i < k ensures HoldsNode(m64, m', i) {
      assert HoldsNode(m64, m, i);
      NodeStays(m64, m, m', i, lo, n);
    }
  }

  /** The address of the next node, every operation wrapping at the width of addresses. */
  function LinkAddress(i: nat, width: nat): int
    requires width > 0
  {
    (((i * 1103515245) % width + 12345) % width % 0x400000) * 16 % width
  }

  /** Masking to 22 bits forgets the width at which the product wrapped. */
  lemma LinkIsNext(i: nat)
    ensures LinkAddress(i, 0x1_0000_0000_0000_0000) == LinkAddress(i, 0x1_0000_0000) == 16 * LinkOf(i)
  {
    ModOfSum(i * A, C, 0x1_0000_0000_0000_0000);
    ModOfSum(i * A, C, 0x1_0000_0000);
    ModOfMultiple(i * A + C, 0x400_0000_0000, NODES);
    ModOfMultiple(i * A + C, 0x400, NODES);
    SmallMod(LinkOf(i) * 16, 0x1_0000_0000_0000_0000);
    SmallMod(LinkOf(i) * 16, 0x1_0000_0000);
  }

  /** One of the two modules: m64 chooses the width at which addresses wrap and at which links are stored. */
  class Module {
    const m64: bool
    const memory: array<Byte>
    var ready: bool

    ghost predicate Valid()
      reads this, memory
    {
      memory.Length == 0x400_0000 && (ready ==> Linked(m64, memory[..], NODES))
    }

    constructor (m64: bool)
      ensures Valid() && this.m64 == m64 && fresh(memory)
    {
      this.m64 := m64;
      memory := new Byte[65536 * 1024];
      ready := false;
    }

    method Init()
      requires Valid()
      modifies this, memory
      ensures Valid() && ready
    {
      hide LinkOf, LinkAddress, Payload, HoldsNode, Linked, SameOutside;
      NothingLinked(m64, memory[..]);
      for i := 0 to 0x400000
        invariant Linked(m64, memory[..], i)
      {
        StoreNode(i);
      }
      ready := true;
    }

    /** One turn of the loop that lays out the heap. */
    method StoreNode(i: nat)
      requires memory.Length == 0x400_0000 && i < NODES && Linked(m64, memory[..], i)
      modifies memory
      ensures Linked(m64, memory[..], i + 1)
    {
      hide LinkOf, LinkAddress, Payload, WordAt, LongAt, Linked, SameOutside, HoldsNode;
      ghost var m0 := memory[..];
      LinkIsNext(i);
      if m64 {
        Store64(memory, 16 * i, LinkAddress(i, 0x1_0000_0000_0000_0000));
      } else {
        Store32(memory, 16 * i, LinkAddress(i, 0x1_0000_0000));
      }
      ghost var m1 := memory[..];
      PayloadIs(i);
      Store64(memory, 16 * i + 8, Xor64(i, 0x9E37_79B9_7F4A_7C15));
      ghost var m2 := memory[..];
      LinkedStays(m64, m0, m1, i, 16 * i, if m64 then 8 else 4);
      LinkedStays(m64, m1, m2, i, 16 * i + 8, 8);
      LastNode(m64, m1, m2, i);
    }

    /** The exported function: the reference's checksum, on either width, on the first call and on later ones. */
    method Run(seed: Word) returns (checksum: Word)
      requires Valid()
      modifies this, memory
      ensures Valid() && ready
      ensures checksum == Checksum(Accumulated(seed, HOPS))
    {
      hide LinkOf, Payload, Node, Rotl64, Wrap64, Xor64, WordAt, LongAt, Linked, Xor;
      if !ready { Init(); }
      NodeStep(seed, 0);
      SmallMod(Node(seed, 0) * 16, 0x1_0000_0000_0000_0000);
      SmallMod(Node(seed, 0) * 16, 0x1_0000_0000);
      var p: nat := (seed % 0x400000) * 16 % if m64 then 0x1_0000_0000_0000_0000 else 0x1_0000_0000;
      var acc: Long := 0;
      for k := 0 to 262144
        invariant Valid() && ready
        invariant p == 16 * Node(seed, k) && acc == Accumulated(seed, k)
      {
        NodeStep(seed, k);
        NodeIs(m64, memory[..], Node(seed, k));
        var payload := Load64(memory, p + 8);
        acc := Wrap64((Rotl64(acc, 7) as int) + payload);
        if m64 {
          p := Load64(memory, p);
        } else {
          p := Load32(memory, p);
        }
      }
      HalvesAre(acc);
      checksum := Xor64(acc, acc / 0x1_0000_0000) % 0x1_0000_0000;
    }
  }

  lemma NothingLinked(m64: bool, m: seq<Byte>)
    requires |m| == 16 * NODES
    ensures Linked(m64, m, 0)
  {
  }

  lemma LastNode(m64: bool, m: seq<Byte>, m': seq<Byte>, i: nat)
    requires Linked(m64, m', i) && i < NODES && SameOutside(m, m', 16 * i + 8, 8)
    requires LinkAt(m64, m, i) == 16 * LinkOf(i) && LongAt(m', 16 * i + 8) == Payload(i)
    ensures Linked(m64, m', i + 1)
  {
    hide WordAt, LongAt, LinkOf, Payload;
    WordStays(m, m', 16 * i, 16 * i + 8, 8);
    LongStays(m, m', 16 * i, 16 * i + 8, 8);
  }

  lemma NodeIs(m64: bool, m: seq<Byte>, i: nat)
    requires Linked(m64, m, NODES) && i < NODES
    ensures 16 * i + 16 <= |m| && LinkAt(m64, m, i) == 16 * LinkOf(i) && LongAt(m, 16 * i + 8) == Payload(i)
  {
    hide WordAt, LongAt, LinkAt, LinkOf, Payload;
    assert HoldsNode(m64, m, i);
  }
}
