/** The in-memory write buffer: pending additions and pending removals per key. */
module WriteBuffer {
  import opened Types

  type Sets = map<Key, set<u32>>

  function Lookup(m: Sets, k: Key): set<u32> { if k in m then m[k] else {} }

  /** `m` with `bits` united into every key of `ks`, absent keys counting as empty. */
  function OrAll(m: Sets, ks: set<Key>, bits: set<u32>): Sets {
    map k | k in m.Keys + ks :: if k in ks then Lookup(m, k) + bits else m[k]
  }

  /** `m` with `bits` taken out of every key of `ks`; a key left empty disappears. */
  function ClearAll(m: Sets, ks: set<Key>, bits: set<u32>): Sets {
    map k | k in m && !(k in ks && m[k] - bits == {}) :: if k in ks then m[k] - bits else m[k]
  }

  lemma OrAllTwice(m: Sets, a: set<Key>, b: set<Key>, bits: set<u32>)
    ensures OrAll(OrAll(m, a, bits), b, bits) == OrAll(m, a + b, bits)
  {
  }

  lemma ClearAllTwice(m: Sets, a: set<Key>, b: set<Key>, bits: set<u32>)
    ensures ClearAll(ClearAll(m, a, bits), b, bits) == ClearAll(m, a + b, bits)
  {
    var once := ClearAll(m, a, bits);
    forall k
      ensures k in ClearAll(once, b, bits) <==> k in ClearAll(m, a + b, bits)
      ensures k in ClearAll(m, a + b, bits) ==> k in once && ClearAll(once, b, bits)[k] == ClearAll(m, a + b, bits)[k]
    {
      if k in m && k in a {
        assert m[k] - bits - bits == m[k] - bits;
      }
    }
  }

  lemma NoKeys(m: Sets, bits: set<u32>)
    ensures OrAll(m, {}, bits) == m && ClearAll(m, {}, bits) == m
  {
  }

  // ----- the size counter -----------------------------------------------------------------

  /** A counter step of a 64-bit wrapping register. */
  function Wrap(n: int): u64 { n % U64_LIMIT }

  /** `after` is `before` moved by `delta`, less some whole turns of the register. */
  ghost predicate Moved(before: u64, after: u64, delta: int) {
    exists turns :: Turned(before, after, delta, turns)
  }

  ghost predicate Turned(before: u64, after: u64, delta: int, turns: int) {
    after == before + delta + U64_LIMIT * turns
  }

  lemma WrapMoves(before: u64, delta: int)
    ensures Moved(before, Wrap(before + delta), delta)
  {
    var n := before + delta;
    assert Turned(before, Wrap(n), delta, -(n / U64_LIMIT));
  }

  /** The register is determined by what moved it. */
  lemma MovedWraps(before: u64, after: u64, delta: int)
    requires Moved(before, after, delta)
    ensures after == Wrap(before + delta)
  {
    var turns :| Turned(before, after, delta, turns);
    assert (before + delta) % U64_LIMIT == after;
  }

  /** Moves add up, whether the register wraps in between or not. */
  lemma MovedTwice(x: u64, y: u64, z: u64, a: int, b: int)
    requires Moved(x, y, a) && Moved(y, z, b)
    ensures Moved(x, z, a + b)
  {
    var i :| Turned(x, y, a, i);
    var j :| Turned(y, z, b, j);
    assert Turned(x, z, a + b, i + j);
  }

  lemma Unmoved(x: u64)
    ensures Moved(x, x, 0)
  {
    assert Turned(x, x, 0, 0);
  }

  type Sizes = set<u32> -> u64

  /** The size of a set beyond `base`. */
  function Excess(bits: set<u32>, base: u64, sizeOf: Sizes): int {
    var full: int, least: int := sizeOf(bits), base;
    full - least
  }

  /** The excess of all entries together. */
  ghost function Weight(m: Sets, base: u64, sizeOf: Sizes): int
    decreases |m|
  {
    if m == map[] then 0
    else
      var k :| k in m;
      assert (m - {k}).Keys == m.Keys - {k};
      Excess(m[k], base, sizeOf) + Weight(m - {k}, base, sizeOf)
  }

  /** By how much the entries have grown together. */
  ghost function Growth(later: Sets, earlier: Sets, base: u64, sizeOf: Sizes): int {
    Weight(later, base, sizeOf) - Weight(earlier, base, sizeOf)
  }

  lemma GrowthTwice(x: u64, y: u64, z: u64, a: Sets, b: Sets, c: Sets, base: u64, sizeOf: Sizes)
    requires Moved(x, y, Growth(b, a, base, sizeOf)) && Moved(y, z, Growth(c, b, base, sizeOf))
    ensures Moved(x, z, Growth(c, a, base, sizeOf))
  {
    MovedTwice(x, y, z, Growth(b, a, base, sizeOf), Growth(c, b, base, sizeOf));
  }

  /** The counter has moved with the entries, each counted with what it takes beyond an empty set. */
  ghost predicate Grown(x: u64, y: u64, a: Sets, b: Sets, sizeOf: Sizes) {
    Moved(x, y, Growth(b, a, sizeOf({}), sizeOf))
  }

  lemma GrownTwice(x: u64, y: u64, z: u64, a: Sets, b: Sets, c: Sets, sizeOf: Sizes)
    requires Grown(x, y, a, b, sizeOf) && Grown(y, z, b, c, sizeOf)
    ensures Grown(x, z, a, c, sizeOf)
  {
    GrowthTwice(x, y, z, a, b, c, sizeOf({}), sizeOf);
  }

  lemma {:induction false} WeightWithout(m: Sets, k: Key, base: u64, sizeOf: Sizes)
    requires k in m
    ensures Weight(m, base, sizeOf) == Excess(m[k], base, sizeOf) + Weight(m - {k}, base, sizeOf)
    decreases |m|
  {
    var first :| first in m &&
                 Weight(m, base, sizeOf) == Excess(m[first], base, sizeOf) + Weight(m - {first}, base, sizeOf);
    if first != k {
      assert (m - {first}).Keys == m.Keys - {first} && (m - {k}).Keys == m.Keys - {k};
      WeightWithout(m - {first}, k, base, sizeOf);
      WeightWithout(m - {k}, first, base, sizeOf);
      assert m - {first} - {k} == m - {k} - {first};
    }
  }

  /** Replacing an entry, or adding one, moves the weight by the difference; a new entry counts whole. */
  lemma WeightUpdate(m: Sets, k: Key, bits: set<u32>, base: u64, sizeOf: Sizes)
    ensures Growth(m[k := bits], m, base, sizeOf) ==
      Excess(bits, base, sizeOf) - if k in m then Excess(m[k], base, sizeOf) else 0
  {
    var after := m[k := bits];
    WeightWithout(after, k, base, sizeOf);
    assert after - {k} == m - {k};
    if k in m {
      WeightWithout(m, k, base, sizeOf);
    } else {
      assert m - {k} == m;
    }
  }

  lemma WeightRemove(m: Sets, k: Key, sizeOf: Sizes)
    requires k in m && m[k] == {}
    ensures Weight(m - {k}, sizeOf({}), sizeOf) == Weight(m, sizeOf({}), sizeOf)
  {
    WeightWithout(m, k, sizeOf({}), sizeOf);
  }

  // ----- the buffer as a value ----------------------------------------------------------------

  datatype Buffer = Buffer(bitmaps: Sets, deltas: Sets, size: u64)
  {
    /** The part ids a flush of this buffer takes. */
    function Entries(): nat { |bitmaps| + |deltas| }
  }

  const EMPTY_BUFFER := Buffer(map[], map[], 0)

  /** `b` with other entries; the size moves by what the additions gain, then by what the removals change. */
  ghost function Refilled(b: Buffer, bitmaps: Sets, deltas: Sets, gained: int, sizeOf: Sizes): Buffer {
    Buffer(bitmaps, deltas, Wrap(b.size + (gained + Growth(deltas, b.deltas, sizeOf({}), sizeOf))))
  }

  lemma RefilledInHalves(b: Buffer, size: u64, after: Buffer, gained: int, sizeOf: Sizes)
    requires Moved(b.size, size, gained)
    requires Moved(size, after.size, Growth(after.deltas, b.deltas, sizeOf({}), sizeOf))
    ensures after == Refilled(b, after.bitmaps, after.deltas, gained, sizeOf)
  {
    MovedTwice(b.size, size, after.size, gained, Growth(after.deltas, b.deltas, sizeOf({}), sizeOf));
    MovedWraps(b.size, after.size, gained + Growth(after.deltas, b.deltas, sizeOf({}), sizeOf));
  }

  /** A put at the keys of `ks`. An entry counts with what it takes beyond an empty set. */
  ghost function PutBuffer(b: Buffer, ks: set<Key>, bits: set<u32>, sizeOf: Sizes): Buffer {
    var bitmaps := OrAll(b.bitmaps, ks, bits);
    Refilled(b, bitmaps, ClearAll(b.deltas, ks, bits), Growth(bitmaps, b.bitmaps, sizeOf({}), sizeOf), sizeOf)
  }

  /** A put at `buckets`, whose entries count whole, and then at `ks`. */
  ghost function PutSharedBuffer(b: Buffer, buckets: set<Key>, ks: set<Key>, bits: set<u32>, sizeOf: Sizes): Buffer {
    var bucketed, bitmaps := OrAll(b.bitmaps, buckets, bits), OrAll(b.bitmaps, buckets + ks, bits);
    var gained := Growth(bucketed, b.bitmaps, 0, sizeOf) + Growth(bitmaps, bucketed, sizeOf({}), sizeOf);
    Refilled(b, bitmaps, ClearAll(b.deltas, buckets + ks, bits), gained, sizeOf)
  }

  /** A removal at the keys of `ks`. */
  ghost function RemoveBuffer(b: Buffer, ks: set<Key>, bits: set<u32>, sizeOf: Sizes): Buffer {
    Refilled(b, b.bitmaps, OrAll(b.deltas, ks, bits), 0, sizeOf)
  }

  // ----- how many entries there are ---------------------------------------------------------------

  lemma Fewer<T>(a: set<T>, b: set<T>)
    requires a <= b
    ensures |a| <= |b|
  {
    assert b == a + (b - a);
  }

  lemma OrAllEntries(m: Sets, ks: set<Key>, bits: set<u32>)
    ensures |OrAll(m, ks, bits)| <= |m| + |ks|
  {
    assert |OrAll(m, ks, bits)| == |OrAll(m, ks, bits).Keys| && |m| == |m.Keys|;
    assert OrAll(m, ks, bits).Keys == m.Keys + ks;
  }

  lemma ClearAllEntries(m: Sets, ks: set<Key>, bits: set<u32>)
    ensures |ClearAll(m, ks, bits)| <= |m|
  {
    assert |ClearAll(m, ks, bits)| == |ClearAll(m, ks, bits).Keys| && |m| == |m.Keys|;
    Fewer(ClearAll(m, ks, bits).Keys, m.Keys);
  }

  lemma PutEntries(b: Buffer, ks: set<Key>, bits: set<u32>, sizeOf: Sizes)
    ensures PutBuffer(b, ks, bits, sizeOf).Entries() <= b.Entries() + |ks|
  {
    OrAllEntries(b.bitmaps, ks, bits);
    ClearAllEntries(b.deltas, ks, bits);
  }

  lemma PutSharedEntries(b: Buffer, buckets: set<Key>, ks: set<Key>, bits: set<u32>, sizeOf: Sizes)
    ensures PutSharedBuffer(b, buckets, ks, bits, sizeOf).Entries() <= b.Entries() + |buckets + ks|
  {
    OrAllEntries(b.bitmaps, buckets + ks, bits);
    ClearAllEntries(b.deltas, buckets + ks, bits);
  }

  lemma RemoveEntries(b: Buffer, ks: set<Key>, bits: set<u32>, sizeOf: Sizes)
    ensures RemoveBuffer(b, ks, bits, sizeOf).Entries() <= b.Entries() + |ks|
  {
    OrAllEntries(b.deltas, ks, bits);
  }

  lemma FewerEntries(bitmaps: Sets, deltas: Sets, ks: set<Key>)
    ensures |bitmaps - ks| <= |bitmaps| && |deltas - ks| <= |deltas|
  {
    assert |bitmaps - ks| == |(bitmaps - ks).Keys| && |bitmaps| == |bitmaps.Keys|;
    assert |deltas - ks| == |(deltas - ks).Keys| && |deltas| == |deltas.Keys|;
    Fewer((bitmaps - ks).Keys, bitmaps.Keys);
    Fewer((deltas - ks).Keys, deltas.Keys);
  }

  class MemPart {
    var bitmaps: Sets
    var deltas: Sets
    var sizeBytes: u64
    /** The serialized size of a set. */
    const sizeOf: Sizes

    function State(): Buffer
      reads this
    {
      Buffer(bitmaps, deltas, sizeBytes)
    }

    constructor (sizeOf: Sizes)
      ensures State() == EMPTY_BUFFER && this.sizeOf == sizeOf
    {
      bitmaps, deltas, sizeBytes := map[], map[], 0;
      this.sizeOf := sizeOf;
    }

    predicate IsEmpty()
      reads this
    {
      bitmaps == map[] && deltas == map[]
    }

    method OrBitmap(k: Key, bits: set<u32>)
      modifies this`bitmaps, this`sizeBytes
      ensures bitmaps == OrAll(old(bitmaps), {k}, bits)
      ensures Grown(old(sizeBytes), sizeBytes, old(bitmaps), bitmaps, sizeOf)
    {
      var existing := Lookup(bitmaps, k);
      WeightUpdate(bitmaps, k, existing + bits, sizeOf({}), sizeOf);
      bitmaps := bitmaps[k := existing + bits];
      sizeBytes := Resized(sizeBytes, existing, existing + bits, sizeOf);
    }

    /** As `OrBitmap`, except that a vacant key is charged the whole serialized size. */
    method OrBitmapShared(k: Key, bits: set<u32>)
      modifies this`bitmaps, this`sizeBytes
      ensures bitmaps == OrAll(old(bitmaps), {k}, bits)
      ensures Moved(old(sizeBytes), sizeBytes, Growth(bitmaps, old(bitmaps), 0, sizeOf))
    {
      WeightUpdate(bitmaps, k, Lookup(bitmaps, k) + bits, 0, sizeOf);
      assert {} + bits == bits;
      if k !in bitmaps {
        WrapMoves(sizeBytes, sizeOf(bits));
        sizeBytes := Wrap(sizeBytes + sizeOf(bits));
        bitmaps := bitmaps[k := bits];
      } else {
        var existing := bitmaps[k];
        bitmaps := bitmaps[k := existing + bits];
        sizeBytes := Resized(sizeBytes, existing, existing + bits, sizeOf);
      }
    }

    method OrDelta(k: Key, bits: set<u32>)
      modifies this`deltas, this`sizeBytes
      ensures deltas == OrAll(old(deltas), {k}, bits)
      ensures Grown(old(sizeBytes), sizeBytes, old(deltas), deltas, sizeOf)
    {
      var existing := Lookup(deltas, k);
      WeightUpdate(deltas, k, existing + bits, sizeOf({}), sizeOf);
      deltas := deltas[k := existing + bits];
      sizeBytes := Resized(sizeBytes, existing, existing + bits, sizeOf);
    }

    method ClearDeltaBits(k: Key, bits: set<u32>)
      modifies this`deltas, this`sizeBytes
      ensures deltas == ClearAll(old(deltas), {k}, bits)
      ensures Grown(old(sizeBytes), sizeBytes, old(deltas), deltas, sizeOf)
    {
      Unmoved(sizeBytes);
      if k !in deltas {
        return;
      }
      var existing := deltas[k];
      WeightUpdate(deltas, k, existing - bits, sizeOf({}), sizeOf);
      deltas := deltas[k := existing - bits];
      sizeBytes := Resized(sizeBytes, existing, existing - bits, sizeOf);
      if existing - bits == {} {
        WeightRemove(deltas, k, sizeOf);
        deltas := deltas - {k};
      }
    }

    /** Forgets every pending change of the given keys; the size counter is left as it is. */
    method Discard(ks: set<Key>)
      modifies this`bitmaps, this`deltas
      ensures bitmaps == old(bitmaps) - ks && deltas == old(deltas) - ks
    {
      bitmaps := bitmaps - ks;
      deltas := deltas - ks;
    }

    method TakeSnapshot() returns (data: Sets, removals: Sets)
      modifies this
      ensures data == old(bitmaps) && removals == old(deltas)
      ensures State() == EMPTY_BUFFER
    {
      data, removals := bitmaps, deltas;
      bitmaps, deltas, sizeBytes := map[], map[], 0;
    }
  }

  /** The counter after one entry has changed its serialized size: add the new size, then take the old one. */
  function Resized(size: u64, earlier: set<u32>, later: set<u32>, sizeOf: Sizes): (r: u64)
    ensures forall base :: Moved(size, r, Excess(later, base, sizeOf) - Excess(earlier, base, sizeOf))
  {
    var added, taken: int := sizeOf(later), sizeOf(earlier);
    WrapMoves(size, added);
    WrapMoves(Wrap(size + added), -taken);
    MovedTwice(size, Wrap(size + added), Wrap(Wrap(size + added) - taken), added, -taken);
    Wrap(Wrap(size + added) - taken)
  }
}
