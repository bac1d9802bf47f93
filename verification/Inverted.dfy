/** The frozen reverse index: memberships grouped by the 64-bit hash of an id. */
module Inverted {
  import opened Types
  import opened Sorting
  import opened Bloom

  type EventList = seq<string>

  // ----- packed memberships ---------------------------------------------------------------

  /** The event id in the upper half, the period id in the lower half. */
  function Inline(eventId: u16, periodId: u16): u32 {
    var e: int, p: int := eventId, periodId;
    0x1_0000 * e + p
  }

  predicate IsExtended(m: u32) { m / 0x8000_0000 % 2 == 1 }

  function EventIdOf(m: u32): u16 { m / 0x1_0000 % 0x8000 }

  function PeriodIdOf(m: u32): u16 { m % 0x1_0000 }

  /** Unpacking gives the two ids back exactly when the flag bit was left free. */
  lemma InlineRoundTrip(eventId: u16, periodId: u16)
    ensures PeriodIdOf(Inline(eventId, periodId)) == periodId
    ensures EventIdOf(Inline(eventId, periodId)) == eventId <==> eventId < 0x8000
    ensures IsExtended(Inline(eventId, periodId)) <==> eventId >= 0x8000
    ensures Inline(eventId, periodId) / 65536 == eventId && Inline(eventId, periodId) % 65536 == periodId
  {
  }

  // ----- staged rows and what they mean -----------------------------------------------------

  datatype StagedRow = StagedRow(h64: u64, id: string, eventId: u16, periodId: u16)

  datatype IndexEntry = IndexEntry(idHash: u64, offset: u32, count: u32)

  ghost predicate ByHash(rows: seq<StagedRow>) { forall i, j :: 0 <= i < j < |rows| ==> rows[i].h64 <= rows[j].h64 }

  function SortRows(rows: seq<StagedRow>): (sorted: seq<StagedRow>)
    ensures ByHash(sorted) && multiset(sorted) == multiset(rows)
  {
    var hash := (r: StagedRow) => r.h64;
    var sorted := SortBy(rows, hash);
    assert forall i, j :: 0 <= i < j < |sorted| ==> hash(sorted[i]) <= hash(sorted[j]);
    sorted
  }

  function LowHalf(h: u64): u32 { h % U32_LIMIT }

  function Pack(r: StagedRow): u32 { Inline(r.eventId, r.periodId) }

  function PackAll(rows: seq<StagedRow>): seq<u32> { seq(|rows|, i requires 0 <= i < |rows| => Pack(rows[i])) }

  /** The rows staged under one hash. */
  function Matching(rows: seq<StagedRow>, h: u64): seq<StagedRow> {
    if rows == [] then []
    else Matching(rows[..|rows| - 1], h) + if rows[|rows| - 1].h64 == h then [rows[|rows| - 1]] else []
  }

  /** A membership whose ids are outside the decode tables is dropped. */
  function Decode(m: u32, names: EventList, periods: seq<Period>): seq<Key> {
    var e, p := EventIdOf(m), PeriodIdOf(m);
    if e < |names| && p < |periods| then [Key(names[e], periods[p])] else []
  }

  function Decoder(names: EventList, periods: seq<Period>): u32 -> seq<Key> { (m: u32) => Decode(m, names, periods) }

  function RowDecoder(names: EventList, periods: seq<Period>): StagedRow -> seq<Key> {
    (r: StagedRow) => Decode(Pack(r), names, periods)
  }

  lemma PackSlice(rows: seq<StagedRow>, from: nat, to: nat)
    requires from <= to <= |rows|
    ensures PackAll(rows)[from..to] == PackAll(rows[from..to])
  {
  }

  lemma {:induction false} DecodePacked(rows: seq<StagedRow>, names: EventList, periods: seq<Period>)
    ensures FlatMap(PackAll(rows), Decoder(names, periods)) == FlatMap(rows, RowDecoder(names, periods))
  {
    if rows != [] {
      assert PackAll(rows)[..|rows| - 1] == PackAll(rows[..|rows| - 1]);
      DecodePacked(rows[..|rows| - 1], names, periods);
    }
  }

  lemma {:induction false} MatchingCounts(rows: seq<StagedRow>, h: u64, r: StagedRow)
    ensures multiset(Matching(rows, h))[r] == if r.h64 == h then multiset(rows)[r] else 0
  {
    if rows != [] {
      MatchingCounts(rows[..|rows| - 1], h, r);
      assert rows == rows[..|rows| - 1] + [rows[|rows| - 1]];
    }
  }

  lemma MatchingIgnoresOrder(a: seq<StagedRow>, b: seq<StagedRow>, h: u64)
    requires multiset(a) == multiset(b)
    ensures multiset(Matching(a, h)) == multiset(Matching(b, h))
  {
    forall r: StagedRow
      ensures multiset(Matching(a, h))[r] == multiset(Matching(b, h))[r]
    {
      MatchingCounts(a, h, r);
      MatchingCounts(b, h, r);
    }
  }

  function Ids(rows: seq<StagedRow>): set<string> {
    if rows == [] then {} else Ids(rows[..|rows| - 1]) + {rows[|rows| - 1].id}
  }

  function HashSet(rows: seq<StagedRow>): set<u64> {
    if rows == [] then {} else HashSet(rows[..|rows| - 1]) + {rows[|rows| - 1].h64}
  }

  function LowHashes(rows: seq<StagedRow>): set<u32> {
    if rows == [] then {} else LowHashes(rows[..|rows| - 1]) + {LowHalf(rows[|rows| - 1].h64)}
  }

  lemma OneMoreRow(rows: seq<StagedRow>, i: nat)
    requires i < |rows|
    ensures Ids(rows[..i + 1]) == Ids(rows[..i]) + {rows[i].id}
    ensures HashSet(rows[..i + 1]) == HashSet(rows[..i]) + {rows[i].h64}
    ensures LowHashes(rows[..i + 1]) == LowHashes(rows[..i]) + {LowHalf(rows[i].h64)}
    ensures PackAll(rows[..i + 1]) == PackAll(rows[..i]) + [Pack(rows[i])]
  {
    assert rows[..i + 1][..i] == rows[..i];
  }

  lemma {:induction false} SetsOfRows(rows: seq<StagedRow>)
    ensures forall x :: x in Ids(rows) <==> exists r :: r in rows && r.id == x
    ensures forall h :: h in HashSet(rows) <==> exists r :: r in rows && r.h64 == h
    ensures forall h :: h in LowHashes(rows) <==> exists r :: r in rows && LowHalf(r.h64) == h
  {
    if rows != [] {
      var front, last := rows[..|rows| - 1], rows[|rows| - 1];
      SetsOfRows(front);
      assert forall r :: r in rows <==> r in front || r == last;
    }
  }

  lemma SetsIgnoreOrder(a: seq<StagedRow>, b: seq<StagedRow>)
    requires multiset(a) == multiset(b)
    ensures Ids(a) == Ids(b) && LowHashes(a) == LowHashes(b)
  {
    SameMembers(a, b);
    SetsOfRows(a);
    SetsOfRows(b);
  }

  /** The filter is as large as the formula asks for that many different hashes, or for one, but never below
      the floor. */
  ghost predicate Sized(bloom: BloomFilter, rows: seq<StagedRow>, optimal: nat -> (nat, nat)) {
    var hashes := |set row | row in rows :: row.h64|;
    var (m, k) := optimal(if hashes == 0 then 1 else hashes);
    && bloom.numBits >= 64 && bloom.numBits >= m && (bloom.numBits == m || bloom.numBits == 64)
    && bloom.numHashes >= 1 && bloom.numHashes >= k && (bloom.numHashes == k || bloom.numHashes == 1)
  }

  lemma HashesOfRows(rows: seq<StagedRow>, sorted: seq<StagedRow>)
    requires multiset(rows) == multiset(sorted)
    ensures (set row | row in rows :: row.h64) == HashSet(sorted)
  {
    SameMembers(rows, sorted);
    SetsOfRows(sorted);
  }

  /** In hash order a hash is new exactly when the row before has another one. */
  lemma NewHash(rows: seq<StagedRow>, i: nat)
    requires ByHash(rows) && i < |rows|
    ensures |HashSet(rows[..i + 1])| ==
            |HashSet(rows[..i])| + if i > 0 && rows[i - 1].h64 == rows[i].h64 then 0 else 1
  {
    OneMoreRow(rows, i);
    SeenHash(rows, i);
    var before, h := HashSet(rows[..i]), rows[i].h64;
    if h in before {
      assert before + {h} == before;
    }
  }

  lemma SeenHash(rows: seq<StagedRow>, i: nat)
    requires ByHash(rows) && i < |rows|
    ensures rows[i].h64 in HashSet(rows[..i]) <==> i > 0 && rows[i - 1].h64 == rows[i].h64
  {
    SetsOfRows(rows[..i]);
    if i > 0 && rows[i - 1].h64 == rows[i].h64 {
      assert rows[i - 1] in rows[..i];
    }
    if rows[i].h64 in HashSet(rows[..i]) {
      var r :| r in rows[..i] && r.h64 == rows[i].h64;
      var j :| 0 <= j < i && rows[j] == r;
      assert rows[j].h64 == rows[i].h64;
      if j < i - 1 {
        assert rows[j].h64 <= rows[i - 1].h64;
      }
      assert rows[i - 1].h64 <= rows[i].h64;
    }
  }

  /** The low 32 bits of a count. */
  function Low32(n: nat): (r: u32)
    ensures r <= n
    ensures n < U32_LIMIT ==> r == n
  {
    n % U32_LIMIT
  }

  /** A 32-bit counter after one more step; `n` is the true count. */
  function Bump(count: u32, ghost n: nat): (r: u32)
    requires count == Low32(n)
    ensures r == Low32(n + 1)
  {
    var c: int := count;
    (c + 1) % U32_LIMIT
  }

  // ----- groups ------------------------------------------------------------------------------

  /** Group `k` is rows `starts[k]` up to `starts[k + 1]`, all the rows of one hash; entries name the groups in
      order. */
  ghost predicate Grouped(rows: seq<StagedRow>, entries: seq<IndexEntry>, starts: seq<nat>) {
    && |starts| == |entries| + 1
    && starts[0] == 0
    && (forall k :: 0 <= k < |entries| ==> GroupAt(rows, entries, starts, k))
    && (forall j, k :: 0 <= j < k < |entries| ==> entries[j].idHash < entries[k].idHash)
  }

  /** An entry holds 32-bit copies of the bounds of its group. */
  ghost predicate GroupAt(rows: seq<StagedRow>, entries: seq<IndexEntry>, starts: seq<nat>, k: nat)
    requires k < |entries| && |starts| == |entries| + 1
  {
    && starts[k] < starts[k + 1] <= |rows|
    && entries[k].offset == Low32(starts[k]) && entries[k].count == Low32(starts[k + 1] - starts[k])
    && forall j :: starts[k] <= j < starts[k + 1] ==> rows[j].h64 == entries[k].idHash
  }

  lemma OneMoreGroup(rows: seq<StagedRow>, entries: seq<IndexEntry>, starts: seq<nat>, e: IndexEntry, to: nat)
    requires Grouped(rows, entries, starts) && starts[|entries|] < to <= |rows|
    requires e.offset == Low32(starts[|entries|]) && e.count == Low32(to - starts[|entries|])
    requires forall j :: starts[|entries|] <= j < to ==> rows[j].h64 == e.idHash
    requires entries != [] ==> entries[|entries| - 1].idHash < e.idHash
    ensures Grouped(rows, entries + [e], starts + [to])
  {
    var es, ss := entries + [e], starts + [to];
    forall k | 0 <= k < |es|
      ensures GroupAt(rows, es, ss, k)
    {
      if k < |entries| {
        assert GroupAt(rows, entries, starts, k);
      }
    }
  }

  lemma {:induction false} GroupOfRow(rows: seq<StagedRow>, entries: seq<IndexEntry>, starts: seq<nat>, j: nat, n: nat)
    returns (k: nat)
    requires Grouped(rows, entries, starts) && n <= |entries| && j < starts[n]
    ensures k < n && starts[k] <= j < starts[k + 1]
  {
    k := n - 1;
    assert GroupAt(rows, entries, starts, k);
    if j < starts[k] {
      k := GroupOfRow(rows, entries, starts, j, k);
    }
  }

  lemma {:induction false} StartsAscend(rows: seq<StagedRow>, entries: seq<IndexEntry>, starts: seq<nat>, j: nat,
                                        k: nat)
    requires Grouped(rows, entries, starts) && j <= k <= |entries|
    ensures starts[j] <= starts[k] <= |rows|
  {
    if j < k {
      StartsAscend(rows, entries, starts, j, k - 1);
    }
    if k > 0 {
      assert GroupAt(rows, entries, starts, k - 1);
    }
  }

  lemma {:induction false} MatchingSlice(rows: seq<StagedRow>, h: u64, from: nat, to: nat, n: nat)
    requires from <= to <= |rows| && n <= |rows|
    requires forall j :: 0 <= j < |rows| ==> (rows[j].h64 == h <==> from <= j < to)
    ensures Matching(rows[..n], h) == if n <= from then [] else rows[from..if n < to then n else to]
    decreases n
  {
    if n > 0 {
      var m := n - 1;
      MatchingSlice(rows, h, from, to, m);
      MatchingOneMore(rows, h, m);
      hide Matching;
      var sofar := Matching(rows[..m], h);
      assert rows[m].h64 == h <==> from <= m < to;
      if n <= from || to < n {
        assert sofar + [] == sofar;
      } else {
        assert sofar == rows[from..m];
        assert rows[from..n] == rows[from..m] + [rows[m]];
      }
    }
  }

  lemma MatchingOneMore(rows: seq<StagedRow>, h: u64, n: nat)
    requires n < |rows|
    ensures Matching(rows[..n + 1], h) == Matching(rows[..n], h) + if rows[n].h64 == h then [rows[n]] else []
  {
    assert rows[..n + 1][..n] == rows[..n];
  }

  /** The slice of an entry is exactly the rows of its hash. */
  lemma GroupIsMatching(rows: seq<StagedRow>, entries: seq<IndexEntry>, starts: seq<nat>, k: nat)
    requires Grouped(rows, entries, starts) && starts[|entries|] == |rows| && k < |entries|
    ensures starts[k] < starts[k + 1] <= |rows|
    ensures Matching(rows, entries[k].idHash) == rows[starts[k]..starts[k + 1]]
  {
    var h := entries[k].idHash;
    assert GroupAt(rows, entries, starts, k);
    forall j | 0 <= j < |rows|
      ensures rows[j].h64 == h <==> starts[k] <= j < starts[k + 1]
    {
      var g := GroupOfRow(rows, entries, starts, j, |entries|);
      assert GroupAt(rows, entries, starts, g);
      if g < k {
        StartsAscend(rows, entries, starts, g + 1, k);
      } else if k < g {
        StartsAscend(rows, entries, starts, k + 1, g);
      }
    }
    MatchingSlice(rows, h, starts[k], starts[k + 1], |rows|);
    assert rows[..|rows|] == rows;
  }

  /** A hash without an entry has no rows. */
  lemma NoGroupNoRows(rows: seq<StagedRow>, entries: seq<IndexEntry>, starts: seq<nat>, h: u64)
    requires Grouped(rows, entries, starts) && starts[|entries|] == |rows|
    requires forall k :: 0 <= k < |entries| ==> entries[k].idHash != h
    ensures Matching(rows, h) == []
  {
    forall j | 0 <= j < |rows|
      ensures rows[j].h64 != h
    {
      var g := GroupOfRow(rows, entries, starts, j, |entries|);
      assert GroupAt(rows, entries, starts, g);
    }
    MatchingSlice(rows, h, 0, 0, |rows|);
    assert rows[..|rows|] == rows;
  }

  ghost function DecodeSlice(ms: seq<u32>, names: EventList, periods: seq<Period>): multiset<Key> {
    multiset(FlatMap(ms, Decoder(names, periods)))
  }

  /** The places of every row staged under a hash, each as often as it was staged. */
  ghost function Places(rows: seq<StagedRow>, h: u64, names: EventList, periods: seq<Period>): multiset<Key> {
    multiset(FlatMap(Matching(rows, h), RowDecoder(names, periods)))
  }

  lemma NoPlaces(rows: seq<StagedRow>, sorted: seq<StagedRow>, entries: seq<IndexEntry>, starts: seq<nat>, h: u64,
                 names: EventList, periods: seq<Period>)
    requires multiset(sorted) == multiset(rows)
    requires Grouped(sorted, entries, starts) && starts[|entries|] == |sorted|
    requires forall k :: 0 <= k < |entries| ==> entries[k].idHash != h
    ensures Places(rows, h, names, periods) == multiset{}
  {
    MatchingIgnoresOrder(sorted, rows, h);
    NoGroupNoRows(sorted, entries, starts, h);
    assert Matching(rows, h) == [];
  }

  /** The bounds kept in 32 bits stay inside the memberships, and are exact below 2^32 rows. */
  lemma SliceBounds(rows: seq<StagedRow>, entries: seq<IndexEntry>, starts: seq<nat>, k: nat)
    requires Grouped(rows, entries, starts) && k < |entries|
    ensures var start: int, count: int := entries[k].offset, entries[k].count;
      && starts[k] < starts[k + 1] <= |rows| && start + count <= |rows|
      && (|rows| < U32_LIMIT ==> start == starts[k] && start + count == starts[k + 1])
  {
    assert GroupAt(rows, entries, starts, k);
  }

  /** Decoding the memberships of a group gives every place of the rows with its hash. */
  lemma SliceIsPlaces(rows: seq<StagedRow>, sorted: seq<StagedRow>, entries: seq<IndexEntry>, starts: seq<nat>, k: nat,
                      names: EventList, periods: seq<Period>)
    requires multiset(sorted) == multiset(rows)
    requires Grouped(sorted, entries, starts) && starts[|entries|] == |sorted| && k < |entries|
    ensures starts[k] < starts[k + 1] <= |sorted|
    ensures DecodeSlice(PackAll(sorted)[starts[k]..starts[k + 1]], names, periods)
         == Places(rows, entries[k].idHash, names, periods)
  {
    var h := entries[k].idHash;
    GroupIsMatching(sorted, entries, starts, k);
    PackSlice(sorted, starts[k], starts[k + 1]);
    DecodePacked(Matching(sorted, h), names, periods);
    MatchingIgnoresOrder(sorted, rows, h);
    FlatMapIgnoresOrder(Matching(sorted, h), Matching(rows, h), RowDecoder(names, periods));
  }

  class InvertedIndex {
    const entries: seq<IndexEntry>
    const memberships: seq<u32>
    const bloom: BloomFilter
    const knownHashes: set<u32>
    const names: EventList
    const periods: seq<Period>
    const hash64: string -> u64
    /** The rows the index was built from, and the same rows in index order. */
    ghost const rows: seq<StagedRow>
    ghost const sorted: seq<StagedRow>
    ghost const starts: seq<nat>

    ghost predicate Valid()
      reads bloom, bloom.bits
    {
      && multiset(sorted) == multiset(rows) && ByHash(sorted)
      && Grouped(sorted, entries, starts) && starts[|entries|] == |sorted|
      && memberships == PackAll(sorted)
      && bloom.Valid() && bloom.inserted == Ids(rows)
      && knownHashes == LowHashes(rows)
    }

    /** The id went through the builder. */
    ghost predicate Staged(id: string) { exists r :: r in rows && r.id == id && r.h64 == hash64(id) }

    /** The places of every staged row whose hash is that of `id`. */
    ghost function PlacesOf(id: string): multiset<Key> {
      Places(rows, hash64(id), names, periods)
    }

    constructor (entries: seq<IndexEntry>, memberships: seq<u32>, bloom: BloomFilter, knownHashes: set<u32>,
                 names: EventList, periods: seq<Period>, hash64: string -> u64,
                 ghost rows: seq<StagedRow>, ghost sorted: seq<StagedRow>, ghost starts: seq<nat>)
      ensures this.entries == entries && this.memberships == memberships && this.bloom == bloom
      ensures this.knownHashes == knownHashes && this.names == names && this.periods == periods
      ensures this.hash64 == hash64 && this.rows == rows && this.sorted == sorted && this.starts == starts
    {
      this.entries, this.memberships, this.bloom, this.knownHashes := entries, memberships, bloom, knownHashes;
      this.names, this.periods, this.hash64 := names, periods, hash64;
      this.rows, this.sorted, this.starts := rows, sorted, starts;
    }

    /** Both filters let the id through. */
    ghost predicate Passes(id: string)
      requires bloom.numBits > 0
    {
      BloomPasses(id) && LowHashPasses(id)
    }

    ghost predicate BloomPasses(id: string)
      requires bloom.numBits > 0
    {
      forall p :: p in bloom.Positions(id) ==> bloom.Covered(Ids(rows), p)
    }

    ghost predicate LowHashPasses(id: string) { exists row :: row in rows && LowHalf(row.h64) == LowHalf(hash64(id)) }

    method MaybeContains(id: string) returns (r: bool)
      requires Valid()
      ensures r <==> BloomPasses(id)
      ensures Staged(id) ==> r
    {
      SetsOfRows(rows);
      r := bloom.Test(id);
    }

    method DefinitelyContains(id: string) returns (r: bool)
      requires Valid()
      ensures r <==> LowHashPasses(id)
      ensures r <==> exists row :: row in rows && row.h64 % 0x1_0000_0000 == hash64(id) % 0x1_0000_0000
      ensures Staged(id) ==> r
    {
      SetsOfRows(rows);
      r := LowHalf(hash64(id)) in knownHashes;
    }

    /** Binary search of the entries by hash. */
    method FindEntry(h: u64) returns (found: Option<nat>)
      requires Valid()
      ensures found.Some? ==> found.value < |entries| && entries[found.value].idHash == h
      ensures found.None? ==> forall k :: 0 <= k < |entries| ==> entries[k].idHash != h
    {
      var lo, hi := 0, |entries|;
      while lo < hi
        invariant 0 <= lo <= hi <= |entries|
        invariant forall k :: 0 <= k < lo ==> entries[k].idHash < h
        invariant forall k :: hi <= k < |entries| ==> h < entries[k].idHash
      {
        var mid := lo + (hi - lo) / 2;
        if entries[mid].idHash == h {
          return Some(mid);
        } else if entries[mid].idHash < h {
          lo := mid + 1;
        } else {
          hi := mid;
        }
      }
      found := None;
    }

    /** The places of every row with the given hash, each as often as it was staged. */
    method LookupHash(h: u64) returns (r: seq<Key>)
      requires Valid()
      ensures |rows| < U32_LIMIT ==> multiset(r) == Places(rows, h, names, periods)
    {
      hide Places, Matching, FlatMap;
      var found := FindEntry(h);
      if found.None? {
        NoPlaces(rows, sorted, entries, starts, h, names, periods);
        return [];
      }
      var k := found.value;
      SameMembers(sorted, rows);
      SliceBounds(sorted, entries, starts, k);
      SliceIsPlaces(rows, sorted, entries, starts, k, names, periods);
      var start: int, count: int := entries[k].offset, entries[k].count;
      r := FlatMap(memberships[start..start + count], Decoder(names, periods));
    }

    method Lookup(id: string) returns (r: seq<Key>)
      requires Valid()
      ensures |rows| < U32_LIMIT ==> multiset(r) == if BloomPasses(id) then PlacesOf(id) else multiset{}
      ensures |rows| < U32_LIMIT && Staged(id) ==> multiset(r) == PlacesOf(id)
    {
      var maybe := MaybeContains(id);
      if maybe {
        r := LookupHash(hash64(id));
      } else {
        r := [];
      }
    }

    method Contains(id: string, event: string, period: Period) returns (r: bool)
      requires Valid()
      ensures |rows| < U32_LIMIT ==> (r <==> BloomPasses(id) && Key(event, period) in PlacesOf(id))
    {
      var places := Lookup(id);
      assert Key(event, period) in places <==> Key(event, period) in multiset(places);
      r := Key(event, period) in places;
    }
  }

  class InvertedIndexBuilder {
    const names: EventList
    const periods: seq<Period>
    const hash64: string -> u64
    const baseHashes: Hashes
    const optimal: nat -> (nat, nat)
    var raw: seq<StagedRow>

    constructor (names: EventList, periods: seq<Period>, hash64: string -> u64, baseHashes: Hashes,
                 optimal: nat -> (nat, nat))
      ensures this.names == names && this.periods == periods && this.hash64 == hash64 && raw == []
      ensures this.baseHashes == baseHashes && this.optimal == optimal
    {
      this.names, this.periods, this.hash64 := names, periods, hash64;
      this.baseHashes, this.optimal := baseHashes, optimal;
      raw := [];
    }

    method Add(id: string, eventId: u16, periodId: u16)
      modifies this
      ensures raw == old(raw) + [StagedRow(hash64(id), id, eventId, periodId)]
    {
      raw := raw + [StagedRow(hash64(id), id, eventId, periodId)];
    }

    /** The number of different hashes, which sizes the filter. */
    method DistinctHashes(sorted: seq<StagedRow>) returns (n: nat)
      requires ByHash(sorted)
      ensures n == |HashSet(sorted)|
    {
      n := 0;
      var prev: Option<u64> := None;
      for i := 0 to |sorted|
        invariant n == |HashSet(sorted[..i])|
        invariant prev == if i == 0 then None else Some(sorted[i - 1].h64)
      {
        NewHash(sorted, i);
        if prev != Some(sorted[i].h64) {
          n := n + 1;
        }
        prev := Some(sorted[i].h64);
      }
      assert sorted[..|sorted|] == sorted;
    }

    /** Takes in the rows from `from` on that share a hash; every row's own id goes into the filter. */
    method AppendGroup(sorted: seq<StagedRow>, from: nat, before: seq<u32>, bloom: BloomFilter)
      returns (i: nat, memberships: seq<u32>, count: u32)
      requires from < |sorted| && before == PackAll(sorted[..from])
      requires bloom.Valid() && bloom.inserted == Ids(sorted[..from])
      modifies bloom, bloom.bits
      ensures from < i <= |sorted| && (forall j :: from <= j < i ==> sorted[j].h64 == sorted[from].h64)
      ensures i < |sorted| ==> sorted[from].h64 != sorted[i].h64
      ensures memberships == PackAll(sorted[..i]) && count == Low32(i - from)
      ensures bloom.Valid() && bloom.inserted == Ids(sorted[..i])
      ensures LowHashes(sorted[..i]) == LowHashes(sorted[..from]) + {LowHalf(sorted[from].h64)}
    {
      hide BloomFilter.Valid, LowHalf, Low32, Pack;
      i, memberships, count := from, before, 0;
      while i < |sorted| && sorted[i].h64 == sorted[from].h64
        invariant from <= i <= |sorted|
        invariant forall j :: from <= j < i ==> sorted[j].h64 == sorted[from].h64
        invariant memberships == PackAll(sorted[..i]) && count == Low32(i - from)
        invariant bloom.Valid() && bloom.inserted == Ids(sorted[..i])
        invariant LowHashes(sorted[..i]) ==
          LowHashes(sorted[..from]) + if i == from then {} else {LowHalf(sorted[from].h64)}
      {
        OneMoreRow(sorted, i);
        bloom.Insert(sorted[i].id);
        memberships := memberships + [Pack(sorted[i])];
        count := Bump(count, i - from);
        i := i + 1;
      }
    }

    /** One pass over the sorted rows, one entry for each hash. */
    method GroupRows(sorted: seq<StagedRow>, bloom: BloomFilter)
      returns (entries: seq<IndexEntry>, memberships: seq<u32>, knownHashes: set<u32>, ghost starts: seq<nat>)
      requires ByHash(sorted) && bloom.Valid() && bloom.inserted == {}
      modifies bloom, bloom.bits
      ensures Grouped(sorted, entries, starts) && starts[|entries|] == |sorted|
      ensures memberships == PackAll(sorted) && knownHashes == LowHashes(sorted)
      ensures bloom.Valid() && bloom.inserted == Ids(sorted)
    {
      knownHashes, entries, memberships, starts := {}, [], [], [0];
      var i := 0;
      while i < |sorted|
        invariant 0 <= i <= |sorted|
        invariant memberships == PackAll(sorted[..i]) && knownHashes == LowHashes(sorted[..i])
        invariant bloom.Valid() && bloom.inserted == Ids(sorted[..i])
        invariant Grouped(sorted, entries, starts) && starts[|entries|] == i
        invariant entries != [] && i < |sorted| ==> entries[|entries| - 1].idHash < sorted[i].h64
      {
        var h64, offset := sorted[i].h64, Low32(|memberships|);
        knownHashes := knownHashes + {LowHalf(h64)};
        var count;
        i, memberships, count := AppendGroup(sorted, i, memberships, bloom);
        OneMoreGroup(sorted, entries, starts, IndexEntry(h64, offset, count), i);
        entries := entries + [IndexEntry(h64, offset, count)];
        starts := starts + [i];
      }
      assert sorted[..|sorted|] == sorted;
    }

    /** Every row is indexed under its hash, colliding ids included, and no row under another. */
    method Build() returns (index: InvertedIndex)
      ensures index.Valid() && fresh(index) && fresh(index.bloom) && fresh(index.bloom.bits)
      ensures index.rows == raw && index.names == names && index.periods == periods && index.hash64 == hash64
      ensures index.bloom.baseHashes == baseHashes && Sized(index.bloom, raw, optimal)
    {
      var sorted := SortRows(raw);
      var capacity := DistinctHashes(sorted);
      var bloom := new BloomFilter.WithCapacity(if capacity < 1 then 1 else capacity, optimal, baseHashes);
      var entries, memberships, knownHashes;
      ghost var starts;
      entries, memberships, knownHashes, starts := GroupRows(sorted, bloom);
      SetsIgnoreOrder(raw, sorted);
      HashesOfRows(raw, sorted);
      index := new InvertedIndex(entries, memberships, bloom, knownHashes, names, periods, hash64, raw, sorted, starts);
    }
  }
}
