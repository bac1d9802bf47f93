/** From an external id back to the keys that hold it: the frozen index, the scan that
    replaces it when the index is disabled, and what both owe to the plain reads. */
module Reverse {
  import opened Types
  import opened Sorting
  import opened WriteBuffer
  import opened Durability
  import opened Bloom
  import opened Inverted
  import opened Dictionary
  import opened Propagation
  import opened ReadIndex
  import opened Runs
  import opened Spec
  import opened Store
  import Client

  const MAX_INDEX_EVENTS := 0x7FFF
  const MAX_INDEX_PERIODS := 0x1_0000

  // ----- numbering events and periods ---------------------------------------------------------

  /** Numbers are kept in 16 bits. */
  function Low16(n: nat): (r: u16)
    ensures n < 0x1_0000 ==> r == n
  {
    n % 0x1_0000
  }

  /** `index` numbers the members of `list`, each of them once. */
  ghost predicate Numbers<T(!new)>(list: seq<T>, index: map<T, u16>) {
    && |list| == |index.Keys|
    && (forall x :: x in index <==> x in list)
    && forall x :: x in index && |list| <= 0x1_0000 ==> index[x] < |list| && list[index[x]] == x
  }

  /** A number for `x`, unless it has one. */
  method Number<T(==, !new)>(list: seq<T>, index: map<T, u16>, x: T) returns (list': seq<T>, index': map<T, u16>)
    requires Numbers(list, index)
    ensures Numbers(list', index') && index'.Keys == index.Keys + {x}
  {
    list', index' := list, index;
    if x !in index {
      index' := index[x := Low16(|list|)];
      list' := list + [x];
      assert index'.Keys == index.Keys + {x};
    }
  }

  /** Gives every event and every period of the cache a compact number. */
  method NumberKeys(keys: set<Key>)
    returns (names: EventList, periods: seq<Period>, eventMap: map<string, u16>, periodMap: map<Period, u16>)
    ensures Numbers(names, eventMap) && Numbers(periods, periodMap)
    ensures eventMap.Keys == EventsOf(keys) && periodMap.Keys == PeriodsOf(keys)
  {
    names, periods, eventMap, periodMap := [], [], map[], map[];
    var todo := keys;
    while todo != {}
      invariant Numbers(names, eventMap) && Numbers(periods, periodMap)
      invariant todo <= keys
      invariant eventMap.Keys == EventsOf(keys - todo) && periodMap.Keys == PeriodsOf(keys - todo)
      decreases todo
    {
      var k :| k in todo;
      names, eventMap := Number(names, eventMap, k.event);
      periods, periodMap := Number(periods, periodMap, k.period);
      OneKeyLess(keys, todo, k);
      todo := todo - {k};
    }
    assert keys - {} == keys;
  }

  function EventsOf(keys: set<Key>): set<string> { set k | k in keys :: k.event }

  function PeriodsOf(keys: set<Key>): set<Period> { set k | k in keys :: k.period }

  lemma OneKeyLess(keys: set<Key>, todo: set<Key>, k: Key)
    requires k in todo && todo <= keys
    ensures EventsOf(keys - (todo - {k})) == EventsOf(keys - todo) + {k.event}
    ensures PeriodsOf(keys - (todo - {k})) == PeriodsOf(keys - todo) + {k.period}
  {
  }

  // ----- building the index ----------------------------------------------------------------------

  /** How ids are resolved, hashed and decoded. */
  datatype Reading = Reading(rev: map<u64, string>, hash64: string -> u64, names: EventList, periods: seq<Period>)

  /** One member of one cached set. */
  type Pair = (Key, u32)

  function PairsOf(cache: Cache): set<Pair> { set k, bit | k in cache && bit in cache[k] :: (k, bit) }

  /** A staged row says that the key of a pair holds the id its number resolves to. */
  ghost predicate RowFor(row: StagedRow, p: Pair, x: Reading) {
    p.1 in x.rev && row.id == x.rev[p.1] && row.h64 == x.hash64(row.id) &&
      Decode(Pack(row), x.names, x.periods) == [p.0]
  }

  ghost predicate HasRow(rows: seq<StagedRow>, p: Pair, x: Reading) { exists row :: row in rows && RowFor(row, p, x) }

  ghost predicate HasPair(pairs: set<Pair>, row: StagedRow, x: Reading) { exists p :: p in pairs && RowFor(row, p, x) }

  /** There is a row for every resolvable pair, and no other row. */
  ghost predicate Describes(rows: seq<StagedRow>, pairs: set<Pair>, x: Reading) {
    && (forall p :: p in pairs && p.1 in x.rev ==> HasRow(rows, p, x))
    && (forall row :: row in rows ==> HasPair(pairs, row, x))
  }

  /** No two rows say the same about the same id. */
  ghost predicate Unrepeated(rows: seq<StagedRow>, x: Reading) {
    forall i, j :: 0 <= i < j < |rows| && rows[i].id == rows[j].id ==> SaysOf(rows[i], x) != SaysOf(rows[j], x)
  }

  ghost function SaysOf(row: StagedRow, x: Reading): seq<Key> { Decode(Pack(row), x.names, x.periods) }

  /** No two numbers resolve to the same id. */
  ghost predicate Injective(rev: map<u64, string>) {
    forall a, b :: a in rev && b in rev && rev[a] == rev[b] ==> a == b
  }

  lemma UnrepeatedOneMore(rows: seq<StagedRow>, pairs: set<Pair>, x: Reading, p: Pair, row: StagedRow)
    requires Describes(rows, pairs, x) && Unrepeated(rows, x) && Injective(x.rev)
    requires RowFor(row, p, x) && p !in pairs
    ensures Unrepeated(rows + [row], x)
  {
    forall i | 0 <= i < |rows| && rows[i].id == row.id
      ensures SaysOf(rows[i], x) != SaysOf(row, x)
    {
      assert HasPair(pairs, rows[i], x);
      var q :| q in pairs && RowFor(rows[i], q, x);
      assert q.1 == p.1;
      assert [q.0][0] != [p.0][0];
    }
  }

  lemma PackedKey(k: Key, id: string, h64: u64, names: EventList, periods: seq<Period>,
                  eventMap: map<string, u16>, periodMap: map<Period, u16>)
    requires Numbers(names, eventMap) && Numbers(periods, periodMap) && k.event in eventMap && k.period in periodMap
    requires |names| <= MAX_INDEX_EVENTS && |periods| <= MAX_INDEX_PERIODS
    ensures Decode(Pack(StagedRow(h64, id, eventMap[k.event], periodMap[k.period])), names, periods) == [k]
  {
    InlineRoundTrip(eventMap[k.event], periodMap[k.period]);
  }

  lemma DescribeOneMore(rows: seq<StagedRow>, pairs: set<Pair>, x: Reading, p: Pair, row: StagedRow)
    requires Describes(rows, pairs, x) && RowFor(row, p, x)
    ensures Describes(rows + [row], pairs + {p}, x)
  {
    var all, now := rows + [row], pairs + {p};
    forall q | q in now && q.1 in x.rev
      ensures HasRow(all, q, x)
    {
      if q == p {
        assert row in all;
      } else {
        assert HasRow(rows, q, x);
        var r :| r in rows && RowFor(r, q, x);
        assert r in all;
      }
    }
    forall r | r in all
      ensures HasPair(now, r, x)
    {
      if r in rows {
        assert HasPair(pairs, r, x);
        var q :| q in pairs && RowFor(r, q, x);
        assert q in now;
      } else {
        assert r == row && p in now;
      }
    }
  }

  lemma DescribeUnresolved(rows: seq<StagedRow>, pairs: set<Pair>, x: Reading, p: Pair)
    requires Describes(rows, pairs, x) && p.1 !in x.rev
    ensures Describes(rows, pairs + {p}, x)
  {
    forall r | r in rows
      ensures HasPair(pairs + {p}, r, x)
    {
      assert HasPair(pairs, r, x);
      var q :| q in pairs && RowFor(r, q, x);
      assert q in pairs + {p};
    }
  }

  lemma NothingDescribed(x: Reading)
    ensures Describes([], {}, x) && Unrepeated([], x)
  {
  }

  lemma WellFormedIsInjective(t: Tables)
    requires WellFormed(t)
    ensures Injective(t.rev)
  {
  }

  /** Stages a row for every pair the dictionary can resolve. */
  method StagePairs(builder: InvertedIndexBuilder, pairs: set<Pair>, rev: map<u64, string>,
                    eventMap: map<string, u16>, periodMap: map<Period, u16>)
    requires Numbers(builder.names, eventMap) && Numbers(builder.periods, periodMap) && builder.raw == []
    requires |builder.names| <= MAX_INDEX_EVENTS && |builder.periods| <= MAX_INDEX_PERIODS
    requires forall p :: p in pairs ==> p.0.event in eventMap && p.0.period in periodMap
    requires Injective(rev)
    modifies builder
    ensures Describes(builder.raw, pairs, Reading(rev, builder.hash64, builder.names, builder.periods))
    ensures Unrepeated(builder.raw, Reading(rev, builder.hash64, builder.names, builder.periods))
  {
    ghost var x := Reading(rev, builder.hash64, builder.names, builder.periods);
    hide Describes, Unrepeated, RowFor;
    var todo := pairs;
    NothingDescribed(x);
    while todo != {}
      invariant todo <= pairs && Describes(builder.raw, pairs - todo, x) && Unrepeated(builder.raw, x)
      decreases todo
    {
      var p :| p in todo;
      var (k, bit) := p;
      if bit in rev {
        var id := rev[bit];
        PackedKey(k, id, builder.hash64(id), builder.names, builder.periods, eventMap, periodMap);
        ghost var row := StagedRow(builder.hash64(id), id, eventMap[k.event], periodMap[k.period]);
        DescribeOneMore(builder.raw, pairs - todo, x, p, row);
        UnrepeatedOneMore(builder.raw, pairs - todo, x, p, row);
        builder.Add(id, eventMap[k.event], periodMap[k.period]);
      } else {
        DescribeUnresolved(builder.raw, pairs - todo, x, p);
      }
      assert pairs - (todo - {p}) == pairs - todo + {p};
      todo := todo - {p};
    }
    assert pairs - {} == pairs;
  }

  /** The compact numbers reach for the events and periods of the cache. */
  predicate Fits(cache: Cache) {
    |EventsOf(cache.Keys)| <= MAX_INDEX_EVENTS && |PeriodsOf(cache.Keys)| <= MAX_INDEX_PERIODS
  }

  /** The rows of the index are those of the cache under a reverse table, each of them once. */
  ghost predicate Reflects(index: InvertedIndex, cache: Cache, rev: map<u64, string>) {
    && Describes(index.rows, PairsOf(cache), ReadingOf(index, rev))
    && Unrepeated(index.rows, ReadingOf(index, rev))
  }

  ghost function ReadingOf(index: InvertedIndex, rev: map<u64, string>): Reading {
    Reading(rev, index.hash64, index.names, index.periods)
  }

  /** Scans every cached set; refuses when the compact numbers would not fit. */
  method BuildFrozen(cache: Cache, dict: Dict, hash64: string -> u64, baseHashes: Hashes, optimal: nat -> (nat, nat))
    returns (r: Result<InvertedIndex>)
    requires dict.Valid()
    ensures r.Ok? <==> Fits(cache)
    ensures r.Ok? <==> |set k | k in cache :: k.event| <= 32767 && |set k | k in cache :: k.period| <= 65536
    ensures r.Err? ==> r == Err(Configuration)
    ensures r.Ok? ==> var index := r.value;
      && index.Valid() && fresh(index) && fresh(index.bloom) && fresh(index.bloom.bits) && index.hash64 == hash64
      && Reflects(index, cache, dict.rev) && index.bloom.baseHashes == baseHashes
  {
    hide Describes, Unrepeated;
    assert EventsOf(cache.Keys) == (set k | k in cache :: k.event);
    assert PeriodsOf(cache.Keys) == (set k | k in cache :: k.period);
    var names, periods, eventMap, periodMap := NumberKeys(cache.Keys);
    if |names| > MAX_INDEX_EVENTS || |periods| > MAX_INDEX_PERIODS {
      return Err(Configuration);
    }
    var builder := new InvertedIndexBuilder(names, periods, hash64, baseHashes, optimal);
    WellFormedIsInjective(dict.State());
    StagePairs(builder, PairsOf(cache), dict.rev, eventMap, periodMap);
    var index := builder.Build();
    r := Ok(index);
  }

  // ----- what the index says about an id -------------------------------------------------------------

  lemma {:induction false} InFlatMap<S(!new), T(!new)>(s: seq<S>, f: S -> seq<T>)
    ensures forall y :: y in FlatMap(s, f) <==> exists x :: x in s && y in f(x)
  {
    if s != [] {
      var front, last := s[..|s| - 1], s[|s| - 1];
      InFlatMap(front, f);
      assert forall x :: x in s <==> x in front || x == last;
    }
  }

  lemma InMatching(rows: seq<StagedRow>, h: u64)
    ensures forall r :: r in Matching(rows, h) <==> r in rows && r.h64 == h
  {
  }

  /** No other indexed id has the hash of this one. */
  ghost predicate NoCollision(rows: seq<StagedRow>, id: string, hash64: string -> u64) {
    forall r :: r in rows && r.h64 == hash64(id) ==> r.id == id
  }

  /** Without a collision the index names exactly the cached sets that hold a number resolved to the id. */
  lemma PlacesAreKeys(rows: seq<StagedRow>, pairs: set<Pair>, x: Reading, id: string, k: Key)
    requires Describes(rows, pairs, x) && NoCollision(rows, id, x.hash64)
    ensures k in Places(rows, x.hash64(id), x.names, x.periods) <==> HeldAs(pairs, x, id, k)
  {
    var matching, decode := Matching(rows, x.hash64(id)), RowDecoder(x.names, x.periods);
    InMatching(rows, x.hash64(id));
    InFlatMap(matching, decode);
    assert k in Places(rows, x.hash64(id), x.names, x.periods) <==> k in FlatMap(matching, decode);
    if k in FlatMap(matching, decode) {
      var row :| row in matching && k in decode(row);
      assert HasPair(pairs, row, x);
      var p :| p in pairs && RowFor(row, p, x);
      assert p == (k, p.1);
    }
    if HeldAs(pairs, x, id, k) {
      var bit :| bit in x.rev && x.rev[bit] == id && (k, bit) in pairs;
      assert HasRow(rows, (k, bit), x);
      var row :| row in rows && RowFor(row, (k, bit), x);
      assert row in matching && k in decode(row);
    }
  }

  /** What the last row says about an id, no earlier row of that id says. */
  lemma SaidOnce(rows: seq<StagedRow>, x: Reading, last: StagedRow, k: Key)
    requires forall row :: row in rows && row.h64 == last.h64 ==> SaysOf(row, x) != SaysOf(last, x)
    requires k in SaysOf(last, x)
    ensures k !in FlatMap(Matching(rows, last.h64), RowDecoder(x.names, x.periods))
  {
    var h, decode := last.h64, RowDecoder(x.names, x.periods);
    InMatching(rows, h);
    InFlatMap(Matching(rows, h), decode);
    forall row | row in Matching(rows, h)
      ensures k !in decode(row)
    {
      assert decode(row) == SaysOf(row, x);
      OneKeyAtMost(row, last, x, k);
    }
  }

  lemma OneKeyAtMost(a: StagedRow, b: StagedRow, x: Reading, k: Key)
    requires SaysOf(a, x) != SaysOf(b, x) && k in SaysOf(b, x)
    ensures k !in SaysOf(a, x)
  {
    assert SaysOf(b, x) == [k];
  }

  /** Without a collision no place is named twice. */
  lemma {:induction false} PlacesOnce(rows: seq<StagedRow>, x: Reading, id: string, k: Key)
    requires Unrepeated(rows, x) && NoCollision(rows, id, x.hash64)
    ensures Places(rows, x.hash64(id), x.names, x.periods)[k] <= 1
  {
    hide SaysOf;
    if rows != [] {
      var front, last, h, decode := rows[..|rows| - 1], rows[|rows| - 1], x.hash64(id), RowDecoder(x.names, x.periods);
      PlacesOnce(front, x, id, k);
      if last.h64 == h {
        FlatMapOneMore(Matching(front, h), last, decode);
        assert decode(last) == SaysOf(last, x) by { LastSays(last, x); }
        forall row | row in front && row.h64 == h
          ensures SaysOf(row, x) != SaysOf(last, x)
        {
          var i :| 0 <= i < |front| && front[i] == row;
          assert rows[i] == row && rows[|rows| - 1] == last && row.id == last.id;
        }
        if k in SaysOf(last, x) {
          SaidOnce(front, x, last, k);
        }
        CountOfBoth(FlatMap(Matching(front, h), decode), decode(last), k);
      } else {
        assert Matching(rows, h) == Matching(front, h);
      }
    }
  }

  lemma LastSays(row: StagedRow, x: Reading)
    ensures RowDecoder(x.names, x.periods)(row) == SaysOf(row, x)
  {
  }

  lemma CountOfBoth(a: seq<Key>, b: seq<Key>, k: Key)
    requires multiset(a)[k] <= 1 && |b| <= 1 && !(k in a && k in b)
    ensures multiset(a + b)[k] <= 1
  {
    assert b == [] || b == [b[0]];
  }

  lemma NoneTwice(ms: seq<Key>)
    requires forall k :: multiset(ms)[k] <= 1
    ensures NoRepeats(ms)
  {
    forall i, j | 0 <= i < j < |ms|
      ensures ms[i] != ms[j]
    {
      assert ms == ms[..j] + [ms[j]] + ms[j + 1..];
      assert multiset(ms)[ms[j]] == multiset(ms[..j])[ms[j]] + 1 + multiset(ms[j + 1..])[ms[j]];
      assert ms[..j][i] in multiset(ms[..j]);
    }
  }

  /** The key holds a number that resolves to the id. */
  ghost predicate HeldAs(pairs: set<Pair>, x: Reading, id: string, k: Key) {
    exists bit: u32 :: bit in x.rev && x.rev[bit] == id && (k, bit) in pairs
  }

  // ----- what reads say about an id -----------------------------------------------------------------------

  /** The id has a number and the key's set, as `Get` returns it, holds the number. */
  ghost predicate Holds(store: InoxSet, dict: Dict, id: string, k: Key)
    reads store.mem, store.disk, dict
  {
    id in dict.fwd && dict.fwd[id] < U32_LIMIT &&
    dict.fwd[id] in Shown(store.disk.state, store.mem.bitmaps, store.mem.deltas, k)
  }

  lemma HoldsIsHeld(store: InoxSet, dict: Dict, id: string)
    ensures forall k :: Holds(store, dict, id, k) <==> HeldIn(store.Live(), dict.State(), id, k)
  {
  }

  /** What is flushed at the key, if anything, is in the cache. */
  ghost predicate Cached(store: InoxSet, k: Key)
    reads store.disk
  {
    Indexed(k.period) || Committed(store.disk.state, k) == {}
  }

  ghost predicate AllCached(store: InoxSet)
    reads store.disk
  {
    forall k :: Cached(store, k)
  }

  /** Bits of the cache and of the buffer, as reads combine them. */
  lemma HoldsByParts(store: InoxSet, dict: Dict, id: string, k: Key)
    requires store.Valid() && dict.Valid() && id in dict.fwd
    requires Cached(store, k)
    ensures dict.fwd[id] < U32_LIMIT
    ensures Holds(store, dict, id, k) <==>
      ((dict.fwd[id] in Lookup(store.cache, k) || dict.fwd[id] in Lookup(store.mem.bitmaps, k)) &&
       !Removed(store.mem.deltas, k, dict.fwd[id]))
  {
    if k !in ListedKeys(store.disk.state.tables) {
      UnlistedIsEmpty(store.disk.state, k);
    }
    assert Committed(store.disk.state, k) == Lookup(store.cache, k);
  }

  lemma PutIsLive(s: Settings, m: Model, event: string, period: Period, bits: set<u32>)
    requires Canonical(m.events)
    ensures PutSpec(s, m, event, period, bits).1.Ok? ==>
      forall bit :: bit in bits ==> Row(event, period, bit) in PutSpec(s, m, event, period, bits).0.live
  {
    if PutSpec(s, m, event, period, bits).1.Ok? {
      EnsureEventCanonical(s, m.events, event);
    }
  }

  /** A put without a flush is one event. */
  lemma PutAlone(s: Settings, m: Model, event: string, period: Period, bits: set<u32>, events: seq<Event>)
    requires Client.Yields(Put(event, period, bits), events) && |events| != 2
    ensures (After(s, m, events), Client.Answer(s, m, events)) == PutSpec(s, m, event, period, bits)
  {
    hide After, PutSpec, Client.Answer;
    assert events == [events[0]] && events[0].op == Put(event, period, bits);
    Client.AfterOne(s, m, events[0]);
  }

  // ----- overlaying the buffer ---------------------------------------------------------------------------

  predicate Removed(deltas: Sets, k: Key, i: u32) { k in deltas && i in deltas[k] }

  predicate NoRepeats(ms: seq<Key>) { forall i, j :: 0 <= i < j < |ms| ==> ms[i] != ms[j] }

  /** Adds the buffered keys of `keys` that hold `i` and are not pending removal. */
  method AddUnflushed(before: seq<Key>, i: u32, bitmaps: Sets, deltas: Sets, keys: set<Key>) returns (ms: seq<Key>)
    requires keys <= bitmaps.Keys
    ensures forall k :: k in ms <==> (k in before || (k in keys && i in bitmaps[k] && !Removed(deltas, k, i)))
    ensures NoRepeats(before) ==> NoRepeats(ms)
  {
    ms := before;
    var todo := keys;
    while todo != {}
      invariant todo <= keys
      invariant forall k :: k in ms <==>
        (k in before || (k in keys - todo && i in bitmaps[k] && !Removed(deltas, k, i)))
      invariant NoRepeats(before) ==> NoRepeats(ms)
      decreases todo
    {
      var k :| k in todo;
      if i in bitmaps[k] && !Removed(deltas, k, i) && k !in ms {
        ms := ms + [k];
      }
      todo := todo - {k};
    }
  }

  /** Drops the keys where `i` is pending removal; with an event given, only that event's keys are looked at. */
  method Retain(before: seq<Key>, i: u32, deltas: Sets, only: Option<string>) returns (ms: seq<Key>)
    ensures forall k :: k in ms <==> (k in before && !(Concerns(only, k) && Removed(deltas, k, i)))
    ensures NoRepeats(before) ==> NoRepeats(ms)
  {
    ms := [];
    for n := 0 to |before|
      invariant forall k :: k in ms <==> (k in before[..n] && !(Concerns(only, k) && Removed(deltas, k, i)))
      invariant NoRepeats(before) ==> NoRepeats(ms)
    {
      var k := before[n];
      if !(Concerns(only, k) && Removed(deltas, k, i)) {
        ms := ms + [k];
      }
      assert before[..n + 1] == before[..n] + [k];
    }
    assert before[..|before|] == before;
  }

  predicate Concerns(only: Option<string>, k: Key) { only.None? || k.event == only.value }

  // ----- what may happen between two lookups ----------------------------------------------------------

  datatype Change = Perform(op: Op, now: u64) | Name(id: string) | Forget(id: string)

  /** The operations on the store among the changes. */
  function OpsAmong(changes: seq<Change>): seq<Op> {
    if changes == [] then []
    else
      var front, last := OpsAmong(changes[..|changes| - 1]), changes[|changes| - 1];
      if last.Perform? then front + [last.op] else front
  }

  /** The dictionary after one change. */
  function NamedBy(t: Tables, change: Change): Tables {
    match change
    case Perform(_, _) => t
    case Name(id) => Assign(t, id).0
    case Forget(id) => Dictionary.Remove(t, id)
  }

  function Renamed(t: Tables, changes: seq<Change>): Tables {
    if changes == [] then t else NamedBy(Renamed(t, changes[..|changes| - 1]), changes[|changes| - 1])
  }

  lemma OneMoreChange(t: Tables, changes: seq<Change>, i: nat)
    requires i < |changes|
    ensures var now, next := changes[..i], changes[..i + 1];
      && OpsAmong(next) == (if changes[i].Perform? then OpsAmong(now) + [changes[i].op] else OpsAmong(now))
      && Renamed(t, next) == NamedBy(Renamed(t, now), changes[i])
      && (changes[i].Perform? ==> Renamed(t, next) == Renamed(t, now))
  {
    assert changes[..i + 1][..i] == changes[..i];
  }

  /** The relation, the dictionary and the load on the part-id counter at a moment. */
  datatype Moment = Moment(model: Model, names: Tables, load: nat)

  /** The changes lead from one moment to another, with these events on the store. */
  ghost predicate Leads(s: Settings, a: Moment, changes: seq<Change>, events: seq<Event>, b: Moment) {
    var cost := Client.TotalCost(OpsAmong(changes));
    && Client.YieldsAll(OpsAmong(changes), events) && b.model == After(s, a.model, events)
    && b.names == Renamed(a.names, changes) && b.load <= a.load + cost
    && Client.Justified(events, a.load + cost < U64_LIMIT)
  }

  lemma LeadsNowhere(s: Settings, a: Moment, changes: seq<Change>)
    ensures Leads(s, a, changes[..0], [], a)
  {
    Client.AfterNothing(s, a.model);
    Client.NothingToJustify(a.load + Client.TotalCost([]) < U64_LIMIT);
  }

  lemma LeadsOverOperation(s: Settings, a: Moment, changes: seq<Change>, i: nat, events: seq<Event>, b: Moment,
                           more: seq<Event>, c: Moment)
    requires i < |changes| && changes[i].Perform? && Leads(s, a, changes[..i], events, b)
    requires Client.Yields(changes[i].op, more) && c.model == After(s, b.model, more) && c.names == b.names
    requires c.load <= b.load + Client.Cost(changes[i].op)
    requires Client.Justified(more, b.load + Client.Cost(changes[i].op) < U64_LIMIT)
    ensures Leads(s, a, changes[..i + 1], events + more, c)
  {
    hide Client.Yields, Client.Cost, Client.Justified, NamedBy;
    var ops, op := OpsAmong(changes[..i]), changes[i].op;
    OneMoreChange(a.names, changes, i);
    Client.AfterConcat(s, a.model, events, more);
    Client.YieldsOneMore(ops, events, op, more);
    Client.OneMoreCost(ops, op);
    var cost := Client.TotalCost(ops);
    Client.JustifiedTogether(events, more, a.load + cost < U64_LIMIT, b.load + Client.Cost(op) < U64_LIMIT,
                             a.load + cost + Client.Cost(op) < U64_LIMIT);
  }

  lemma LeadsOverRename(s: Settings, a: Moment, changes: seq<Change>, i: nat, events: seq<Event>, b: Moment)
    requires i < |changes| && !changes[i].Perform? && Leads(s, a, changes[..i], events, b)
    ensures Leads(s, a, changes[..i + 1], events, b.(names := NamedBy(b.names, changes[i])))
  {
    hide NamedBy;
    OneMoreChange(a.names, changes, i);
  }

  lemma WhereItLeads(s: Settings, a: Moment, changes: seq<Change>, events: seq<Event>, b: Moment)
    requires Leads(s, a, changes, events, b)
    ensures Client.YieldsAll(OpsAmong(changes), events) && b.model == After(s, a.model, events)
    ensures b.names == Renamed(a.names, changes)
    ensures Client.Justified(events, a.load + Client.TotalCost(OpsAmong(changes)) < U64_LIMIT)
  {
  }

  /** In this relation and under these tables, the id has a number and the key's set holds the number. */
  ghost predicate HeldIn(live: iset<Row>, t: Tables, id: string, k: Key) {
    id in t.fwd && t.fwd[id] < U32_LIMIT && Row(k.event, k.period, t.fwd[id]) in live
  }

  /** The members of the cache are the durable rows of periods whose text can be read back. */
  lemma PairsAreDurable(store: InoxSet)
    requires store.Valid()
    ensures SamePairs(store.cache, store.Durable())
  {
    forall k: Key, bit: u32
      ensures (k, bit) in PairsOf(store.cache) <==> Indexed(k.period) && Row(k.event, k.period, bit) in store.Durable()
    {
      if k !in ListedKeys(store.disk.state.tables) {
        UnlistedIsEmpty(store.disk.state, k);
      }
    }
  }

  ghost predicate SamePairs(cache: Cache, durable: iset<Row>) {
    forall k: Key, bit: u32 ::
      (k, bit) in PairsOf(cache) <==> Indexed(k.period) && Row(k.event, k.period, bit) in durable
  }

  lemma StillReflects(index: InvertedIndex, rev: map<u64, string>, a: Cache, b: Cache, durable: iset<Row>)
    requires Reflects(index, a, rev) && SamePairs(a, durable) && SamePairs(b, durable)
    ensures Reflects(index, b, rev)
  {
    forall p
      ensures p in PairsOf(a) <==> p in PairsOf(b)
    {
      var (k, bit) := p;
      assert (k, bit) == p;
    }
    assert PairsOf(a) == PairsOf(b);
  }

  lemma NothingPending(store: InoxSet)
    requires store.mem.IsEmpty()
    ensures store.Live() == store.Durable()
  {
    EmptyBufferShowsView(store.disk.state);
  }

  /** The operation has committed changes, which is what makes the store rebuild its read cache. A flush does so when
      there was something `pending`, a deletion when the event was `known`, a compaction when it `moved` the counter. */
  predicate Refreshes(op: Op, answer: Result<()>, flushed: bool, pending: bool, known: bool, moved: bool) {
    match op
    case Put(_, _, _) => flushed && answer.Ok?
    case PutRange(_, _, _, _) => flushed && answer.Ok?
    case RemoveRange(_, _, _, _) => flushed && answer.Ok?
    case Replace(_, _, _) => answer.Ok?
    case BulkReplace(_, _) => answer.Ok?
    case DeletePeriod(_, _) => answer.Ok? && known
    case DropEvent(_) => answer.Ok?
    case Flush => answer.Ok? && pending
    case Compact => moved
    case _ => false
  }

  /** Writes commit by a flush that finds its ids, flushes when there is something to flush and ids for it, replacements
      and drops when they succeed. */
  lemma RefreshedByCommit(s: Settings, m: Model, op: Op, events: seq<Event>, pending: bool, known: bool, moved: bool)
    requires Client.Yields(op, events)
    ensures var answer := Client.Answer(s, m, events);
      var refreshed := Refreshes(op, answer, |events| == 2, pending, known, moved);
      && (Buffered(op) || op.RegisterEvent? ==> (refreshed <==> |events| == 2 && events[1].idsLeft))
      && (op.Flush? ==> (refreshed <==> pending && events[0].idsLeft))
      && (op.Replace? || op.BulkReplace? || op.DropEvent? ==> (refreshed <==> answer.Ok?))
      && (op.DeletePeriod? ==> (refreshed <==> answer.Ok? && known)) && (op.Compact? ==> (refreshed <==> moved))
  {
    hide Step, After, Client.Answer;
    if |events| == 1 {
      assert events == [events[0]];
      Client.AfterOne(s, m, events[0]);
    } else {
      assert events == [events[0], events[1]];
      Client.AfterTwo(s, m, events[0], events[1]);
      FlushAnswer(s, Step(s, m, op, events[0].idsLeft).0, events[1].idsLeft);
    }
    if op.Flush? {
      FlushAnswer(s, m, events[0].idsLeft);
    }
  }

  lemma FlushAnswer(s: Settings, m: Model, ok: bool)
    ensures Step(s, m, Flush, ok).1.Ok? <==> ok
  {
  }

  lemma StepStays(s: Settings, m: Model, op: Op, ok: bool, pending: bool, known: bool, moved: bool)
    requires !op.Reopen? && !Refreshes(op, Step(s, m, op, ok).1, false, pending, known, moved)
    requires (op.DeletePeriod? ==> known) && (!pending ==> m.live == m.durable)
    ensures Step(s, m, op, ok).0.durable == m.durable
  {
  }

  /** An operation that commits nothing leaves what a restart would find. */
  lemma UncommittedStays(s: Settings, m: Model, op: Op, events: seq<Event>, pending: bool, known: bool, moved: bool)
    requires Client.Yields(op, events) && !op.Reopen?
    requires !Refreshes(op, Client.Answer(s, m, events), |events| == 2, pending, known, moved)
    requires (op.DeletePeriod? ==> known) && (!pending ==> m.live == m.durable)
    ensures After(s, m, events).durable == m.durable
  {
    hide Step, After, Client.Answer;
    if |events| == 1 {
      assert events == [events[0]];
      Client.AfterOne(s, m, events[0]);
      StepStays(s, m, op, events[0].idsLeft, pending, known, moved);
    } else {
      assert events == [events[0], events[1]];
      Client.AfterTwo(s, m, events[0], events[1]);
      StepStays(s, m, op, events[0].idsLeft, pending, known, moved);
      FailedFlushStays(s, Step(s, m, op, events[0].idsLeft).0, events[1].idsLeft);
    }
  }

  lemma FailedFlushStays(s: Settings, m: Model, ok: bool)
    ensures Step(s, m, Flush, ok).1.Err? ==> Step(s, m, Flush, ok).0.durable == m.durable
  {
  }

  // ----- lookups ----------------------------------------------------------------------------------------

  class ReverseLookup {
    const store: InoxSet
    const dict: Dict
    var index: InvertedIndex
    /** The reverse table as the last rebuild read it. */
    ghost var indexed: map<u64, string>

    /** The index describes the cache the store reads from now, under the dictionary of the last rebuild. Later
        writes to the buffer and later dictionary changes do not disturb this. */
    ghost predicate Valid()
      reads this, store, store.mem, store.disk, dict, index.bloom, index.bloom.bits
    {
      store.Valid() && dict.Valid() && index.Valid() && Reflects(index, store.cache, indexed)
    }

    /** Of the numbers in flushed sets, the index resolved to `id` just the one the dictionary gives it now, if any. */
    ghost predicate MappingKept(id: string)
      reads this, store, dict
    {
      id in dict.fwd ==>
        forall p :: p in PairsOf(store.cache) ==> ((p.1 in indexed && indexed[p.1] == id) <==> p.1 == dict.fwd[id])
    }

    ghost predicate Usable(id: string)
      reads this, store, store.disk, dict
    {
      && AllCached(store) && MappingKept(id)
      && NoCollision(index.rows, id, index.hash64) && |index.rows| < U32_LIMIT
    }

    constructor (store: InoxSet, dict: Dict, index: InvertedIndex)
      requires store.Valid() && dict.Valid() && index.Valid() && Reflects(index, store.cache, dict.rev)
      ensures Valid() && this.store == store && this.dict == dict && this.index == index && indexed == dict.rev
    {
      this.store, this.dict, this.index, this.indexed := store, dict, index, dict.rev;
    }

    /** Follows every rebuild of the cache: the new index describes it, or the old one stays and the caller gets an
        error. */
    method RebuildInvertedIndex(baseHashes: Hashes, optimal: nat -> (nat, nat)) returns (r: Result<()>)
      requires store.Valid() && dict.Valid()
      modifies this
      ensures r.Ok? ==> Valid() && indexed == dict.rev && index.hash64 == old(index.hash64)
      ensures r.Err? ==> index == old(index) && indexed == old(indexed)
      ensures r.Ok? <==> Fits(store.cache)
      ensures r.Err? ==> r == Err(Configuration)
    {
      var built := BuildFrozen(store.cache, dict, index.hash64, baseHashes, optimal);
      if built.Err? {
        return Err(built.error);
      }
      index, indexed := built.value, dict.rev;
      r := Ok(());
    }

    /** An operation on a store with a frozen index. An operation that commits is followed by a rebuild of the index; if
        that refuses, the caller gets an error although everything is done and durable. Without a rebuild the index
        goes on describing what reads are served from. */
    method Perform(op: Op, now: u64, baseHashes: Hashes, optimal: nat -> (nat, nat))
      returns (r: Result<()>, refreshed: bool, ghost events: seq<Event>)
      requires Valid() && store.Writable() && !op.Reopen?
      modifies this, store`cache, store`eventNames, store.mem, store.disk
      ensures store.Valid() && dict.Valid() && store.Writable()
      ensures Client.Yields(op, events) && (|events| == 2 <==> old(Client.Fills(store, op)))
      ensures store.Abs() == After(store.settings, old(store.Abs()), events)
      ensures r == if refreshed && !Fits(store.cache) then Err(Configuration)
                   else Client.Answer(store.settings, old(store.Abs()), events)
      ensures refreshed <==>
        Refreshes(op, Client.Answer(store.settings, old(store.Abs()), events), |events| == 2, old(!store.mem.IsEmpty()),
                  op.DeletePeriod? && op.event in old(store.disk.state.tables.events),
                  store.NextId() != old(store.NextId()))
      ensures Buffered(op) || op.RegisterEvent? ==> (refreshed <==> |events| == 2 && events[1].idsLeft)
      ensures op.Flush? ==> (refreshed <==> old(!store.mem.IsEmpty()) && events[0].idsLeft)
      ensures op.Replace? || op.BulkReplace? || op.DropEvent? ==>
        (refreshed <==> Client.Answer(store.settings, old(store.Abs()), events).Ok?)
      ensures op.Compact? ==> (refreshed <==> store.NextId() != old(store.NextId()))
      ensures Client.Justified(events, old(store.NextId() + Client.Needed(store, op)) < U64_LIMIT)
      ensures Client.Justified(events, old(store.Load()) + Client.Cost(op) < U64_LIMIT)
      ensures store.Load() <= old(store.Load()) + Client.Cost(op)
      ensures if refreshed && Fits(store.cache) then Valid() && indexed == dict.rev && index.hash64 == old(index.hash64)
              else index == old(index) && indexed == old(indexed)
      ensures !refreshed ==> Valid()
    {
      hide Reflects, InvertedIndex.Valid, InoxSet.Valid, Dict.Valid, Rows, View, Fits, After, Client.Answer;
      hide Client.Fills, Client.Needed, Client.Justified, PairsOf, SamePairs, Disk.Valid, Step, Untidy, Registered;
      hide InoxSet.Load, Client.Cost, Refreshes, Client.Yields;
      ghost var m, cache := store.Abs(), store.cache;
      PairsAreDurable(store);
      var pending, counter := !store.mem.IsEmpty(), store.NextId();
      if !pending {
        NothingPending(store);
      }
      var known := op.DeletePeriod? && op.event in store.disk.state.tables.events;
      var flushed;
      r, flushed, events := Client.Perform(store, op, now);
      refreshed := Refreshes(op, r, flushed, pending, known, store.NextId() != counter);
      RefreshedByCommit(store.settings, m, op, events, pending, known, store.NextId() != counter);
      if refreshed {
        var rebuilt := RebuildInvertedIndex(baseHashes, optimal);
        if rebuilt.Err? {
          r := rebuilt;
        }
      } else {
        if !(op.DeletePeriod? && !known) {
          UncommittedStays(store.settings, m, op, events, pending, known, store.NextId() != counter);
        }
        PairsAreDurable(store);
        StillReflects(index, indexed, cache, store.cache, store.Durable());
      }
    }

    ghost function Here(): Moment
      reads store, store.mem, store.disk, dict
    {
      Moment(store.Abs(), dict.State(), store.Load())
    }

    lemma PartsAreValid()
      requires Valid()
      ensures store.Valid() && dict.Valid()
    {
    }

    /** A change of the dictionary alone does not disturb the index. */
    method Rename(change: Change)
      requires Valid() && !change.Perform?
      modifies dict
      ensures Valid() && dict.State() == NamedBy(old(dict.State()), change)
    {
      hide Reflects, InvertedIndex.Valid, InoxSet.Valid, WellFormed;
      match change {
        case Name(id) => var r := dict.AssignOrGet(id);
        case Forget(id) => var r := dict.Delete(id);
      }
    }

    /** One operation on the store; when the rebuild after it refuses, the index is left behind. */
    method ServeOne(op: Op, now: u64, baseHashes: Hashes, optimal: nat -> (nat, nat))
      returns (refused: bool, ghost events: seq<Event>)
      requires Valid() && store.Writable() && !op.Reopen?
      modifies this, store`cache, store`eventNames, store.mem, store.disk
      ensures store.Valid() && dict.Valid() && store.Writable()
      ensures if refused then !Fits(store.cache) else Valid()
      ensures Client.Yields(op, events) && store.Abs() == After(store.settings, old(store.Abs()), events)
      ensures Client.Justified(events, old(store.Load()) + Client.Cost(op) < U64_LIMIT)
      ensures store.Load() <= old(store.Load()) + Client.Cost(op)
    {
      hide *;
      var r, refreshed;
      r, refreshed, events := Perform(op, now, baseHashes, optimal);
      refused := refreshed && !Fits(store.cache);
    }

    /** Any sequence of operations and dictionary changes, as long as no rebuild refuses: each takes effect in order,
        and lookups stay as good as after a rebuild, because the index keeps describing the cache. */
    method Serve(changes: seq<Change>, baseHashes: Hashes, optimal: nat -> (nat, nat))
      returns (served: nat, refused: bool, ghost events: seq<Event>)
      requires Valid() && store.Writable()
      requires forall c :: c in changes && c.Perform? ==> !c.op.Reopen?
      modifies this, store`cache, store`eventNames, store.mem, store.disk, dict
      ensures store.Valid() && dict.Valid() && store.Writable() && served <= |changes|
      ensures Client.YieldsAll(OpsAmong(changes[..served]), events)
      ensures store.Abs() == After(store.settings, old(store.Abs()), events)
      ensures dict.State() == Renamed(old(dict.State()), changes[..served])
      ensures Client.Justified(events, old(store.Load()) + Client.TotalCost(OpsAmong(changes[..served])) < U64_LIMIT)
      ensures !refused ==> served == |changes| && Valid()
      ensures refused ==> served > 0 && changes[served - 1].Perform? && !Fits(store.cache)
    {
      hide Reflects, InvertedIndex.Valid, InoxSet.Valid, Dict.Valid, Rows, View, Fits, Client.Yields, Client.Cost;
      hide ReverseLookup.Valid, NamedBy, InoxSet.Load, InoxSet.Abs, InoxSet.Writable, Dict.State, Leads;
      hide Client.Justified;
      ghost var s, start := store.settings, Here();
      served, events := 0, [];
      LeadsNowhere(s, start, changes);
      while served < |changes|
        invariant served <= |changes| && Valid() && store.Writable()
        invariant Leads(s, start, changes[..served], events, Here())
      {
        match changes[served] {
          case Perform(op, now) =>
            assert changes[served] in changes;
            ghost var before, more: seq<Event> := Here(), [];
            refused, more := ServeOne(op, now, baseHashes, optimal);
            LeadsOverOperation(s, start, changes, served, events, before, more, Here());
            events, served := events + more, served + 1;
            if refused {
              WhereItLeads(s, start, changes[..served], events, Here());
              return;
            }
          case _ =>
            LeadsOverRename(s, start, changes, served, events, Here());
            Rename(changes[served]);
            served := served + 1;
        }
      }
      refused := false;
      WhereItLeads(s, start, changes[..served], events, Here());
      PartsAreValid();
    }

    /** Lookups after any such sequence: what they find is what the changes, carried out one by one on the relation and
        on the dictionary, leave behind. */
    method ServeAndFind(changes: seq<Change>, id: string, baseHashes: Hashes, optimal: nat -> (nat, nat))
      returns (r: Result<seq<Key>>, refused: bool, ghost events: seq<Event>)
      requires Valid() && store.Writable()
      requires forall c :: c in changes && c.Perform? ==> !c.op.Reopen?
      modifies this, store`cache, store`eventNames, store.mem, store.disk, dict
      ensures !refused ==> Valid() && Client.YieldsAll(OpsAmong(changes), events) && r.Ok?
      ensures !refused ==> Client.Justified(events, old(store.Load()) + Client.TotalCost(OpsAmong(changes)) < U64_LIMIT)
      ensures !refused && Usable(id) && index.Passes(id) ==>
        NoRepeats(r.value) &&
        forall k :: k in r.value <==>
          HeldIn(After(store.settings, old(store.Abs()), events).live, Renamed(old(dict.State()), changes), id, k)
      ensures !refused && !index.Passes(id) ==> r == Ok([])
    {
      hide Reflects, InvertedIndex.Valid, InoxSet.Valid, Dict.Valid, Rows, View, Fits, After, Usable, Client.YieldsAll;
      hide Client.Justified, Client.TotalCost;
      var served;
      served, refused, events := Serve(changes, baseHashes, optimal);
      assert changes[..|changes|] == changes;
      r := Ok([]);
      if !refused {
        r := FindMemberships(id);
        HoldsIsHeld(store, dict, id);
      }
    }

    /** A put that stays in the buffer does not reach the filters: an id they do not let through is not found, although
        a plain read of the key returns it now. After a flush nothing is looked up. */
    method PutUnindexed(event: string, period: Period, bits: set<u32>, id: string, now: u64,
                        baseHashes: Hashes, optimal: nat -> (nat, nat))
      returns (put: Result<()>, ghost flushed: bool, found: Result<seq<Key>>)
      requires Valid() && store.Writable() && !index.Passes(id)
      requires id in dict.fwd && dict.fwd[id] in bits
      modifies this, store`cache, store`eventNames, store.mem, store.disk
      ensures flushed <==> old(Client.Fills(store, Put(event, period, bits)))
      ensures !flushed ==>
        var (m1, r1) := PutSpec(store.settings, old(store.Abs()), event, period, bits);
        Valid() && index == old(index) && (store.Abs(), put) == (m1, r1)
      ensures !flushed && put.Ok? ==> Holds(store, dict, id, Key(event, period)) && found == Ok([])
    {
      hide Reflects, InvertedIndex.Valid, InoxSet.Valid, Dict.Valid, Rows, View, Fits, After, Client.Answer;
      hide Client.Fills, Client.Needed, Client.Justified, Usable, InvertedIndex.Passes;
      hide PutSpec, Client.Yields, Refreshes;
      ghost var s, m := store.settings, store.Abs();
      store.EventsAreCanonical();
      var refreshed;
      ghost var events: seq<Event>;
      put, refreshed, events := Perform(Put(event, period, bits), now, baseHashes, optimal);
      flushed := |events| == 2;
      if refreshed {
        found := Err(Configuration);
      } else {
        found := FindMemberships(id);
      }
      if !flushed {
        PutAlone(s, m, event, period, bits, events);
        HoldsIsHeld(store, dict, id);
        PutIsLive(s, m, event, period, bits);
      }
    }

    /** For a usable id with a number: the index, then the buffered additions, less the pending removals. */
    lemma IndexAgrees(id: string, k: Key)
      requires Valid() && Usable(id) && id in dict.fwd
      ensures dict.fwd[id] < U32_LIMIT
      ensures Holds(store, dict, id, k) <==>
        Overlaid(index.PlacesOf(id), dict.fwd[id], store.mem.bitmaps, store.mem.deltas, k)
    {
      var i, pairs := dict.fwd[id], PairsOf(store.cache);
      HoldsByParts(store, dict, id, k);
      PlacesAreKeys(index.rows, pairs, ReadingOf(index, indexed), id, k);
      assert i in Lookup(store.cache, k) <==> (k, i) in pairs;
    }

    /** The answer names exactly the keys whose plain read holds the id. */
    ghost predicate Exact(id: string, ms: seq<Key>)
      reads this, store, store.mem, store.disk, dict
    {
      forall k :: k in ms <==> Holds(store, dict, id, k)
    }

    ghost predicate Nowhere(id: string)
      reads this, store, store.mem, store.disk, dict
    {
      forall k :: !Holds(store, dict, id, k)
    }

    /** With the frozen index: right for every usable id exactly when the filters let it through or no
        set holds it; in particular for every id that was indexed. */
    method FindMemberships(id: string) returns (r: Result<seq<Key>>)
      requires Valid()
      ensures store.closed ==> r == Err(Closed)
      ensures !store.closed ==> r.Ok?
      ensures !store.closed && Usable(id) ==> (Exact(id, r.value) <==> index.Passes(id) || Nowhere(id))
      ensures !store.closed && index.Staged(id) ==> index.Passes(id)
      ensures !store.closed && Usable(id) ==> NoRepeats(r.value)
      ensures !store.closed && !index.Passes(id) ==> r == Ok([])
    {
      hide InoxSet.Valid, Reflects, PairsOf, Rows, View, Disk.Valid, Shown;
      if store.closed {
        return Err(Closed);
      }
      var number := if id in dict.fwd then Some(AsU32(dict.fwd[id])) else None;
      var ms, passed := FindFrozen(index, id, number, store.mem.bitmaps, store.mem.deltas);
      r := Ok(ms);
      if Usable(id) {
        FrozenAnswer(id, ms, passed);
        PlacesOfOnce(id);
      }
    }

    lemma PlacesOfOnce(id: string)
      requires Valid() && Usable(id)
      ensures forall k :: index.PlacesOf(id)[k] <= 1
    {
      forall k
        ensures index.PlacesOf(id)[k] <= 1
      {
        PlacesOnce(index.rows, ReadingOf(index, indexed), id, k);
      }
    }

    lemma FrozenAnswer(id: string, ms: seq<Key>, passed: bool)
      requires Valid() && Usable(id)
      requires !passed || id !in dict.fwd ==> ms == []
      requires passed && id in dict.fwd ==>
        forall k :: k in ms <==>
          Overlaid(index.PlacesOf(id), AsU32(dict.fwd[id]), store.mem.bitmaps, store.mem.deltas, k)
      ensures Exact(id, ms) <==> passed || Nowhere(id)
    {
      if id !in dict.fwd {
        assert Nowhere(id);
      } else if passed {
        forall k
          ensures k in ms <==> Holds(store, dict, id, k)
        {
          IndexAgrees(id, k);
        }
      } else {
        assert forall k :: k !in ms;
      }
    }

    /** The answer agrees with the plain read exactly when the filters let the id through or the read says no. */
    ghost predicate BitExact(id: string, k: Key, found: bool, passed: bool)
      reads this, store, store.mem, store.disk, dict
    {
      (found <==> Holds(store, dict, id, k)) <==> passed || !Holds(store, dict, id, k)
    }

    /** With the frozen index: one key, under the same condition. */
    method ContainsId(event: string, period: Period, id: string) returns (r: Result<bool>)
      requires Valid()
      ensures store.closed ==> r == Err(Closed)
      ensures !store.closed ==> r.Ok?
      ensures !store.closed && Usable(id) ==>
        BitExact(id, Key(event, period), r.value, index.Passes(id))
    {
      hide InoxSet.Valid, Reflects, PairsOf, Rows, View, Disk.Valid, Shown;
      if store.closed {
        return Err(Closed);
      }
      var number := if id in dict.fwd then Some(AsU32(dict.fwd[id])) else None;
      var k := Key(event, period);
      var found, passed := ContainsFrozen(index, id, k, number, store.mem.bitmaps, store.mem.deltas);
      r := Ok(found);
      if Usable(id) {
        FrozenBit(id, k, found, passed);
      }
    }

    lemma FrozenBit(id: string, k: Key, found: bool, passed: bool)
      requires Valid() && Usable(id)
      requires !passed || id !in dict.fwd ==> !found
      requires passed && id in dict.fwd ==>
        (found <==> Overlaid(index.PlacesOf(id), AsU32(dict.fwd[id]), store.mem.bitmaps, store.mem.deltas, k))
      requires passed <==> index.Passes(id)
      ensures BitExact(id, k, found, index.Passes(id))
    {
      hide InoxSet.Valid, Reflects, PairsOf, Rows, View, Disk.Valid, Shown;
      if id in dict.fwd {
        IndexAgrees(id, k);
      }
    }
  }

  /** Where an id is, given where the flushed sets hold it. */
  ghost predicate Overlaid(places: multiset<Key>, i: u32, bitmaps: Sets, deltas: Sets, k: Key) {
    (k in places || i in Lookup(bitmaps, k)) && !Removed(deltas, k, i)
  }

  method FindFrozen(index: InvertedIndex, id: string, number: Option<u32>, bitmaps: Sets, deltas: Sets)
    returns (ms: seq<Key>, passed: bool)
    requires index.Valid()
    ensures passed <==> index.Passes(id)
    ensures index.Staged(id) ==> passed
    ensures !passed || number.None? ==> ms == []
    ensures passed && number.Some? && |index.rows| < U32_LIMIT ==>
      forall k :: k in ms <==> Overlaid(index.PlacesOf(id), number.value, bitmaps, deltas, k)
    ensures |index.rows| < U32_LIMIT && (forall k :: index.PlacesOf(id)[k] <= 1) ==> NoRepeats(ms)
  {
    var maybe := index.MaybeContains(id);
    var definitely := index.DefinitelyContains(id);
    if !maybe || !definitely {
      return [], false;
    }
    if number.None? {
      return [], true;
    }
    var found := index.Lookup(id);
    if forall k :: multiset(found)[k] <= 1 {
      NoneTwice(found);
    }
    ms := AddUnflushed(found, number.value, bitmaps, deltas, bitmaps.Keys);
    ms := Retain(ms, number.value, deltas, None);
    passed := true;
    assert forall k :: k in found <==> k in multiset(found);
  }

  method ContainsFrozen(index: InvertedIndex, id: string, k: Key, number: Option<u32>, bitmaps: Sets, deltas: Sets)
    returns (r: bool, passed: bool)
    requires index.Valid()
    ensures passed <==> index.Passes(id)
    ensures !passed || number.None? ==> !r
    ensures passed && number.Some? && |index.rows| < U32_LIMIT ==>
      (r <==> Overlaid(index.PlacesOf(id), number.value, bitmaps, deltas, k))
  {
    var maybe := index.MaybeContains(id);
    var definitely := index.DefinitelyContains(id);
    if !maybe || !definitely {
      return false, false;
    }
    var found := index.Contains(id, k.event, k.period);
    if number.None? {
      return false, true;
    }
    if found || (k in bitmaps && number.value in bitmaps[k]) {
      return !Removed(deltas, k, number.value), true;
    }
    r, passed := false, true;
  }

  // ----- with the index disabled ----------------------------------------------------------------------------

  /** The buffer first, then the cache, then the pending removals: right for every key the cache can hold. */
  method ContainsBit(store: InoxSet, k: Key, value: u32) returns (r: bool)
    requires store.Valid()
    ensures Cached(store, k) ==>
      (r <==> value in Shown(store.disk.state, store.mem.bitmaps, store.mem.deltas, k))
  {
    if k !in ListedKeys(store.disk.state.tables) {
      UnlistedIsEmpty(store.disk.state, k);
    }
    assert Cached(store, k) ==>
      Committed(store.disk.state, k) == Lookup(store.cache, k);
    if k in store.mem.bitmaps && value in store.mem.bitmaps[k] && !Removed(store.mem.deltas, k, value) {
      return true;
    }
    if !(k in store.cache && value in store.cache[k]) {
      return false;
    }
    r := !Removed(store.mem.deltas, k, value);
  }

  method ContainsIdByScan(store: InoxSet, dict: Dict, event: string, period: Period, id: string)
    returns (r: Result<bool>)
    requires store.Valid() && dict.Valid()
    ensures store.closed ==> r == Err(Closed)
    ensures !store.closed ==> r.Ok?
    ensures !store.closed && Cached(store, Key(event, period)) ==>
      (r.value <==> Holds(store, dict, id, Key(event, period)))
  {
    if store.closed {
      return Err(Closed);
    }
    if id !in dict.fwd {
      return Ok(false);
    }
    assert AsU32(dict.fwd[id]) == dict.fwd[id];
    var found := ContainsBit(store, Key(event, period), AsU32(dict.fwd[id]));
    r := Ok(found);
  }

  /** Adds the cached keys of one event that hold `i`. */
  method AddCached(before: seq<Key>, i: u32, cache: Cache, event: string) returns (ms: seq<Key>)
    ensures forall k :: k in ms <==> (k in before || (k.event == event && k in cache && i in cache[k]))
    ensures NoRepeats(before) && (forall k :: k in before ==> k.event != event) ==> NoRepeats(ms)
  {
    ms := before;
    var keys := set k | k in cache && k.event == event;
    var todo := keys;
    while todo != {}
      invariant todo <= keys
      invariant forall k :: k in ms <==> (k in before || (k in keys - todo && i in cache[k]))
      invariant NoRepeats(before) && (forall k :: k in before ==> k.event != event) ==> NoRepeats(ms)
      decreases todo
    {
      var k :| k in todo;
      if i in cache[k] {
        ms := ms + [k];
      }
      todo := todo - {k};
    }
  }

  /** Cached keys, then buffered additions, then pending removals, each event by event. */
  method ScanEvents(events: set<string>, i: u32, cache: Cache, bitmaps: Sets, deltas: Sets) returns (ms: seq<Key>)
    ensures forall k :: k in ms <==>
      (k.event in events && (i in Lookup(cache, k) || i in Lookup(bitmaps, k)) && !Removed(deltas, k, i))
    ensures NoRepeats(ms)
  {
    ms := [];
    var todo := events;
    while todo != {}
      invariant todo <= events && NoRepeats(ms)
      invariant forall k :: k in ms <==> (k.event in events - todo && i in Lookup(cache, k))
      decreases todo
    {
      var event :| event in todo;
      ms := AddCached(ms, i, cache, event);
      todo := todo - {event};
    }
    todo := events;
    while todo != {}
      invariant todo <= events && NoRepeats(ms)
      invariant forall k :: k in ms <==> (k.event in events &&
        (i in Lookup(cache, k) || (k.event !in todo && i in Lookup(bitmaps, k) && !Removed(deltas, k, i))))
      decreases todo
    {
      var event :| event in todo;
      ms := AddUnflushed(ms, i, bitmaps, deltas, set k | k in bitmaps && k.event == event);
      todo := todo - {event};
    }
    todo := events;
    while todo != {}
      invariant todo <= events && NoRepeats(ms)
      invariant forall k :: k in ms <==> (k.event in events &&
        (i in Lookup(cache, k) || (i in Lookup(bitmaps, k) && !Removed(deltas, k, i))) &&
        (k.event in todo || !Removed(deltas, k, i)))
      decreases todo
    {
      var event :| event in todo;
      ms := Retain(ms, i, deltas, Some(event));
      todo := todo - {event};
    }
  }

  /** By scan, an id is found at exactly the keys whose plain read holds it, among the events known at the last
      rebuild. */
  method FindByScan(store: InoxSet, dict: Dict, id: string) returns (r: Result<seq<Key>>)
    requires store.Valid() && dict.Valid()
    ensures store.closed ==> r == Err(Closed)
    ensures !store.closed ==> r.Ok?
    ensures !store.closed && AllCached(store) ==>
      forall k :: k in r.value <==> (k.event in store.eventNames && Holds(store, dict, id, k))
    ensures !store.closed ==> NoRepeats(r.value)
  {
    if store.closed {
      return Err(Closed);
    }
    if id !in dict.fwd || store.eventNames == {} {
      return Ok([]);
    }
    var ms := ScanEvents(store.eventNames, AsU32(dict.fwd[id]), store.cache, store.mem.bitmaps, store.mem.deltas);
    r := Ok(ms);
    assert AsU32(dict.fwd[id]) == dict.fwd[id];
    if AllCached(store) {
      forall k
        ensures k in ms <==> (k.event in store.eventNames && Holds(store, dict, id, k))
      {
        HoldsByParts(store, dict, id, k);
      }
    }
  }

  // ----- an id the index has not seen ----------------------------------------------------------------------

  /** Daily events without rollup, any number of them, and a flush at 16 MiB. */
  const DEFAULTS := Settings(Daily, NoRollup, 0, 0x100_0000)

  /** A new store on an empty disk, with the default settings, and the index of its empty cache beside an
      empty dictionary. */
  method FreshLookup(hash64: string -> u64, baseHashes: Hashes, optimal: nat -> (nat, nat), sizeOf: set<u32> -> u64)
    returns (lookup: ReverseLookup)
    ensures fresh(lookup) && fresh(lookup.dict) && fresh(lookup.store) && fresh(lookup.store.mem)
    ensures fresh(lookup.store.disk) && lookup.Valid() && lookup.store.Writable()
    ensures lookup.index.rows == [] && lookup.dict.State() == Dictionary.EMPTY && lookup.store.Abs() == Spec.EMPTY
    ensures lookup.store.settings == Settings(Daily, NoRollup, 0, 16 * 1024 * 1024)
    ensures lookup.store.mem.State() == EMPTY_BUFFER && lookup.store.mem.sizeOf == sizeOf
  {
    hide Describes, InvertedIndex.Valid, Disk.Valid, Rows, View;
    var disk := new Disk();
    Client.EmptyIsEmpty();
    var store := new InoxSet.Open(disk, DEFAULTS, false, sizeOf);
    var dict := new Dict();
    assert store.cache == map[];
    assert EventsOf({}) == {} && PeriodsOf({}) == {};
    var built := BuildFrozen(store.cache, dict, hash64, baseHashes, optimal);
    NothingCached(built.value, dict.rev);
    lookup := new ReverseLookup(store, dict, built.value);
  }

  lemma NothingCached(index: InvertedIndex, rev: map<u64, string>)
    requires Reflects(index, map[], rev)
    ensures index.rows == []
  {
    assert index.rows != [] ==>
      index.rows[0] in index.rows && HasPair(PairsOf(map[]), index.rows[0], ReadingOf(index, rev));
  }

  lemma OneSmallEntry(k: Key, sizeOf: set<u32> -> u64)
    requires sizeOf({}) <= sizeOf({0})
    ensures PutBuffer(EMPTY_BUFFER, {k}, {0}, sizeOf).size <= sizeOf({0})
  {
    var none: Sets := map[];
    assert Lookup(none, k) + {0} == {0};
    assert OrAll(none, {k}, {0}) == none[k := {0}];
    assert ClearAll(none, {k}, {0}) == none;
    WeightUpdate(none, k, {0}, sizeOf({}), sizeOf);
  }

  /** A few bytes in an empty buffer are far below the threshold. */
  lemma SmallPutStays(store: InoxSet)
    requires store.settings == DEFAULTS && store.Abs() == Spec.EMPTY && store.mem.State() == EMPTY_BUFFER
    requires store.mem.sizeOf({}) <= store.mem.sizeOf({0}) < DEFAULTS.flushThreshold
    ensures !Client.Fills(store, Put("login", Day(2024, 1, 1), {0}))
    ensures PutSpec(DEFAULTS, Spec.EMPTY, "login", Day(2024, 1, 1), {0}).1.Ok?
  {
    hide PutBuffer, Rows, View;
    var k, config := Key("login", Day(2024, 1, 1)), NewEventConfig("login", Daily, NoRollup);
    assert Reach(config, k.period) == {k};
    OneSmallEntry(k, store.mem.sizeOf);
  }

  /** With nothing durable every number may be resolved anew. */
  lemma NothingDurableIsUsable(lookup: ReverseLookup, id: string)
    requires lookup.Valid() && lookup.index.rows == [] && lookup.store.Durable() == iset{}
    ensures lookup.Usable(id)
  {
    PairsAreDurable(lookup.store);
    forall k
      ensures Cached(lookup.store, k)
    {
      forall bit: u32
        ensures bit !in Committed(lookup.store.disk.state, k)
      {
        assert Row(k.event, k.period, bit) !in lookup.store.Durable();
      }
    }
  }

  /** An index without rows lets nothing through. */
  lemma EmptyIndexMisses(index: InvertedIndex, id: string)
    requires index.Valid() && index.rows == []
    ensures !index.Passes(id)
  {
  }

  /** One small put through the public operation, to an id the index has never seen: a plain read of the key returns the
      id, the frozen lookup finds nothing. */
  method UnindexedIdIsMissed(hash64: string -> u64, baseHashes: Hashes, optimal: nat -> (nat, nat),
                             sizeOf: set<u32> -> u64)
    returns (lookup: ReverseLookup, put: Result<()>, found: Result<seq<Key>>)
    requires sizeOf({}) <= sizeOf({0}) < DEFAULTS.flushThreshold
    ensures lookup.Valid() && lookup.Usable("alice") && put.Ok? && found == Ok([])
    ensures Holds(lookup.store, lookup.dict, "alice", Key("login", Day(2024, 1, 1)))
  {
    hide Reflects, InvertedIndex.Valid, InoxSet.Valid, Dict.Valid, Disk.Valid, Rows, View, Holds, PutSpec, Client.Fills;
    hide InvertedIndex.Passes, ReverseLookup.Usable;
    lookup := FreshLookup(hash64, baseHashes, optimal, sizeOf);
    var id := lookup.dict.AssignOrGet("alice");
    EmptyIndexMisses(lookup.index, "alice");
    SmallPutStays(lookup.store);
    ghost var flushed;
    put, flushed, found := lookup.PutUnindexed("login", Day(2024, 1, 1), {0}, "alice", 0, baseHashes, optimal);
    PutKeepsDurable(DEFAULTS, Spec.EMPTY, "login", Day(2024, 1, 1), {0});
    NothingDurableIsUsable(lookup, "alice");
  }

  lemma PutKeepsDurable(s: Settings, m: Model, event: string, period: Period, bits: set<u32>)
    ensures PutSpec(s, m, event, period, bits).0.durable == m.durable
  {
  }
}
