/** The Bloom filter in front of the reverse index. The two base hashes are any functions. */
module Bloom {
  import opened Bits
  import opened Types

  type Hashes = string -> (u64, u64)

  /** The bit of the i-th derived hash, in 64-bit wrapping arithmetic. */
  function KirschMitzenmacher(h1: u64, h2: u64, i: nat, m: nat): (bit: nat)
    requires m > 0
    ensures bit < m
  {
    var a: int, b: int := h1, h2;
    (a + b * i % U64_LIMIT) % U64_LIMIT % m
  }

  /** The 64-bit value behind the i-th bit: the first hash, then the second one added again and again. */
  function Probe(h1: u64, h2: u64, i: nat): u64 {
    if i == 0 then h1
    else
      var before: int, step: int := Probe(h1, h2, i - 1), h2;
      (before + step) % 0x1_0000_0000_0000_0000
  }

  /** Every derived bit is a probe modulo the size. */
  lemma {:induction false} BitsAreProbes(h1: u64, h2: u64, i: nat, m: nat)
    requires m > 0
    ensures KirschMitzenmacher(h1, h2, i, m) == Probe(h1, h2, i) % m
  {
    ProbeIsProduct(h1, h2, i);
  }

  lemma {:induction false} ProbeIsProduct(h1: u64, h2: u64, i: nat)
    ensures var a: int, b: int := h1, h2; Probe(h1, h2, i) == (a + b * i % U64_LIMIT) % U64_LIMIT
  {
    var a: int, b: int := h1, h2;
    if i > 0 {
      ProbeIsProduct(h1, h2, i - 1);
      assert b * i == b * (i - 1) + b;
      WrapsTwice(a, b * (i - 1), b);
    }
  }

  /** Wrapping on the way makes no difference. */
  lemma WrapsTwice(a: int, x: int, b: int)
    ensures ((a + x % U64_LIMIT) % U64_LIMIT + b) % U64_LIMIT == (a + (x + b) % U64_LIMIT) % U64_LIMIT
  {
  }

  /** The word `w | 1 << k`. */
  function Raised(w: u64, k: nat): u64
    requires k < 64
  {
    WordSizes();
    RaiseBitFits(w, k, 64);
    RaiseBit(w, k)
  }

  /** Bit `p` of a list of words. */
  predicate BitAt(words: seq<u64>, p: nat)
    requires p / 64 < |words|
  {
    TestBit(words[p / 64], p % 64)
  }

  lemma SetBit(words: seq<u64>, p: nat, q: nat)
    requires p / 64 < |words| && q / 64 < |words|
    ensures BitAt(words[p / 64 := Raised(words[p / 64], p % 64)], q) <==> p == q || BitAt(words, q)
  {
    RaiseBitEffect(words[p / 64], p % 64, q % 64);
  }

  class BloomFilter {
    const bits: array<u64>
    const numBits: nat
    const numHashes: nat
    const baseHashes: Hashes
    /** Every item inserted so far. */
    ghost var inserted: set<string>

    ghost predicate Valid()
      reads this, bits
    {
      && numBits > 0
      && bits.Length == (numBits + 63) / 64
      && forall p :: 0 <= p < numBits ==> (BitAt(bits[..], p) <==> Covered(inserted, p))
    }

    /** The bits an item stands for. */
    function Positions(item: string): (ps: set<nat>)
      requires numBits > 0
      ensures forall p :: p in ps ==> p < numBits
    {
      var (h1, h2) := baseHashes(item);
      set i | 0 <= i < numHashes :: KirschMitzenmacher(h1, h2, i, numBits)
    }

    /** Some item of `items` has bit `p` among its own. */
    ghost predicate Covered(items: set<string>, p: nat)
      requires numBits > 0
    {
      exists x :: x in items && p in Positions(x)
    }

    /** An empty filter for `capacity` items; the sizing formula may be any, its result is raised to the floor. */
    constructor WithCapacity(capacity: nat, optimal: nat -> (nat, nat), baseHashes: Hashes)
      ensures Valid() && fresh(bits) && inserted == {} && this.baseHashes == baseHashes
      ensures numBits >= 64 && numHashes >= 1
      ensures var (m, k) := optimal(if capacity == 0 then 1 else capacity);
        && numBits >= m && (numBits == m || numBits == 64)
        && numHashes >= k && (numHashes == k || numHashes == 1)
    {
      var (m, k) := optimal(if capacity == 0 then 1 else capacity);
      var numBits, numHashes := if m < 64 then 64 else m, if k < 1 then 1 else k;
      bits := new u64[(numBits + 63) / 64](_ => 0);
      this.numBits, this.numHashes, this.baseHashes := numBits, numHashes, baseHashes;
      inserted := {};
      new;
      forall p | 0 <= p < numBits
        ensures !BitAt(bits[..], p)
      {
        NoBits(p % 64);
      }
    }

    method Insert(item: string)
      requires Valid()
      modifies this`inserted, bits
      ensures Valid() && inserted == old(inserted) + {item}
    {
      var (h1, h2) := baseHashes(item);
      ghost var done: set<nat> := {};
      for i := 0 to numHashes
        modifies bits
        invariant done == set j | 0 <= j < i :: KirschMitzenmacher(h1, h2, j, numBits)
        invariant forall p :: 0 <= p < numBits ==> (BitAt(bits[..], p) <==> p in done || old(BitAt(bits[..], p)))
      {
        var bit := KirschMitzenmacher(h1, h2, i, numBits);
        Raise(bit);
        done := done + {bit};
      }
      assert done == Positions(item);
      inserted := inserted + {item};
      forall p | 0 <= p < numBits
        ensures Covered(inserted, p) <==> p in Positions(item) || Covered(old(inserted), p)
      {
        assert p in Positions(item) ==> item in inserted;
        assert forall x :: x in old(inserted) ==> x in inserted;
      }
    }

    method Raise(bit: nat)
      requires bit < numBits && bits.Length == (numBits + 63) / 64
      modifies bits
      ensures forall p :: 0 <= p < numBits ==> (BitAt(bits[..], p) <==> p == bit || old(BitAt(bits[..], p)))
    {
      ghost var before := bits[..];
      bits[bit / 64] := Raised(bits[bit / 64], bit % 64);
      assert bits[..] == before[bit / 64 := Raised(before[bit / 64], bit % 64)];
      forall p | 0 <= p < numBits
        ensures BitAt(bits[..], p) <==> p == bit || BitAt(before, p)
      {
        SetBit(before, bit, p);
      }
    }

    /** Yes exactly when every bit of the item comes from some inserted item; so an inserted item is never missed. */
    method Test(item: string) returns (r: bool)
      requires Valid()
      ensures r <==> forall p :: p in Positions(item) ==> Covered(inserted, p)
      ensures item in inserted ==> r
    {
      var (h1, h2) := baseHashes(item);
      for i := 0 to numHashes
        invariant forall j :: 0 <= j < i ==> BitAt(bits[..], KirschMitzenmacher(h1, h2, j, numBits))
      {
        var bit := KirschMitzenmacher(h1, h2, i, numBits);
        assert bits[..][bit / 64] == bits[bit / 64];
        if !TestBit(bits[bit / 64], bit % 64) {
          assert bit in Positions(item) && !BitAt(bits[..], bit);
          return false;
        }
      }
      r := true;
    }
  }
}
