/** Writing part files and their records inside the open transaction, and clearing away
    files that a commit has made obsolete. */
module Parts {
  import opened Types
  import opened Calendar
  import opened WriteBuffer
  import opened Catalog
  import opened Durability
  import opened Spec

  lemma {:induction false} BoundedSet(s: set<int>, n: nat)
    requires forall x :: x in s ==> 0 <= x < n
    ensures |s| <= n
  {
    if n == 0 {
      assert forall x :: x !in s;
      assert s == {};
    } else {
      BoundedSet(s - {n - 1}, n - 1);
    }
  }

  /** The number of bits of a set always fits its record. */
  function Cardinality(bits: set<u32>): (n: u64)
    ensures n == |bits|
  {
    var ints: set<int> := bits;
    BoundedSet(ints, U32_LIMIT);
    |bits|
  }

  /** Saturating increment of a compaction level. */
  function NextLevel(level: u8): u8 { if level == 0xFF then level else level + 1 }

  function MakePart(k: Key, config: EventConfig, kind: PartKind, id: u64, bits: set<u32>, size: u64, now: u64,
                    level: u8): Part
  {
    var path := Path(k.event, config.finest, k.period, id, kind);
    Part(id, kind, k.event, k.period, path, size, Cardinality(bits), now, level)
  }

  /** What a part record says of a file, field by field. */
  predicate Recorded(part: Part, id: u64, kind: PartKind, k: Key, finest: Granularity, bits: set<u32>, size: u64,
                     now: u64, level: u8)
  {
    && part.partId == id && part.kind == kind && part.event == k.event && part.period == k.period
    && part.file == Path(k.event, finest, k.period, id, kind)
    && part.sizeBytes == size && part.cardinality == |bits| && part.createdAt == now && part.level == level
  }

  predicate Storable(t: Tables, sets: Sets) {
    forall k | k in sets :: k.event in t.events && ValidPeriod(k.period)
  }

  ghost function Combined(kind: PartKind, current: set<u32>, bits: set<u32>): set<u32> {
    if kind == Data then current + bits else current - bits
  }

  /** One part more is on disk, recorded and listed, under the next id. */
  predicate OnePart(m: Machine, m': Machine, kind: PartKind, k: Key, bits: set<u32>, size: u64, now: u64)
    requires k.event in m.txn.events && m.cursor < U64_LIMIT
  {
    var t, t', id := m.txn, m'.txn, m.cursor;
    && id in t'.parts && t'.parts == t.parts[id := t'.parts[id]]
    && Recorded(t'.parts[id], id, kind, k, t.events[k.event].finest, bits, size, now, 0)
    && m'.files == m.files[t'.parts[id].file := bits]
    && DataIds(t', k) == DataIds(t, k) + (if kind == Data then [id] else [])
    && DeltaIds(t', k) == DeltaIds(t, k) + (if kind == Delta then [id] else [])
  }

  /** Writes one part file under the next reserved id and records it. Among the keys `ks` the transaction has touched
      since `start`, this one is expected. */
  method WriteOnePart(disk: Disk, kind: PartKind, k: Key, bits: set<u32>, now: u64, sizeOf: set<u32> -> u64,
                      ghost start: Tables, ghost ks: set<Key>)
    requires k in ks && SameBut(start, disk.state.txn, ks)
    requires disk.Valid() && k.event in disk.state.txn.events && ValidPeriod(k.period)
    requires disk.state.cursor < disk.state.txn.nextPartId
    modifies disk
    ensures disk.Valid()
    ensures disk.state.tables == old(disk.state.tables) && Kept(old(disk.recovered), disk.recovered)
    ensures disk.state.txn.events == old(disk.state.txn.events)
    ensures disk.state.txn.nextPartId == old(disk.state.txn.nextPartId)
    ensures disk.state.cursor == old(disk.state.cursor) + 1
    ensures forall q :: Committed(disk.state, q) == Committed(old(disk.state), q)
    ensures Pending(disk.state, k) == Combined(kind, Pending(old(disk.state), k), bits)
    ensures forall q :: q != k ==> Pending(disk.state, q) == Pending(old(disk.state), q)
    ensures SameBut(start, disk.state.txn, ks)
    ensures OnePart(old(disk.state), disk.state, kind, k, bits, sizeOf(bits), now)
    ensures disk.state.txn.periodState == old(
      if kind == Data && k !in disk.state.txn.periodState then disk.state.txn.periodState[k := Open]
      else disk.state.txn.periodState)
  {
    hide Kept, Atomic, OnDisk, Disk.Valid, SameBut, Canonical, WellFormed, Sound, KeyIds;
    var config := disk.state.txn.events[k.event];
    var part := MakePart(k, config, kind, disk.state.cursor, bits, sizeOf(bits), now, 0);
    disk.Do(WriteFile(part.file, bits));
    ghost var written := disk.recovered;
    RecordPart(disk, part);
    KeptTwice(old(disk.recovered), written, disk.recovered);
    RecordingKeepsOthers(start, old(disk.state.txn), part, ks);
  }

  /** Records a part whose file is in place. */
  method RecordPart(disk: Disk, part: Part)
    requires disk.Valid() && Recordable(disk.state, part)
    modifies disk
    ensures disk.Valid() && Kept(old(disk.recovered), disk.recovered)
    ensures disk.state.tables == old(disk.state.tables) && disk.state.files == old(disk.state.files)
    ensures disk.state.txn ==
            if part.kind == Data then RecordData(old(disk.state.txn), part) else RecordDelta(old(disk.state.txn), part)
    ensures disk.state.cursor == old(disk.state.cursor) + 1
    ensures var bits := disk.state.files[part.file];
      Pending(disk.state, part.Owner()) == Combined(part.kind, Pending(old(disk.state), part.Owner()), bits)
    ensures forall q :: q != part.Owner() ==> Pending(disk.state, q) == Pending(old(disk.state), q)
  {
    hide Kept, Atomic, OnDisk, Disk.Valid;
    if part.kind == Data {
      disk.Do(AddData(part));
    } else {
      disk.Do(AddDelta(part));
    }
  }

  /** Those of the keys that had no state are open, every other state is as it was. */
  function Opened(states: map<Key, PeriodState>, ks: set<Key>): map<Key, PeriodState> {
    map k | k in states.Keys + ks :: if k in states then states[k] else Open
  }

  lemma NoneOpened(states: map<Key, PeriodState>, all: set<Key>)
    ensures Opened(states, all - all) == states
  {
  }

  lemma OneMoreOpened(states: map<Key, PeriodState>, all: set<Key>, todo: set<Key>, k: Key)
    requires k in todo && todo <= all
    ensures var sofar := Opened(states, all - todo);
      Opened(states, all - (todo - {k})) == if k in sofar then sofar else sofar[k := Open]
  {
    assert all - (todo - {k}) == all - todo + {k};
  }

  /** Writes and records one part per entry; `rest` ids stay reserved for later. */
  method WriteParts(disk: Disk, kind: PartKind, sets: Sets, rest: nat, now: u64, sizeOf: set<u32> -> u64,
                    ghost start: Tables, ghost ks: set<Key>)
    requires sets.Keys <= ks && SameBut(start, disk.state.txn, ks)
    requires disk.Valid() && Storable(disk.state.txn, sets)
    requires disk.state.cursor + |sets| + rest == disk.state.txn.nextPartId
    modifies disk
    ensures disk.Valid()
    ensures disk.state.tables == old(disk.state.tables) && Kept(old(disk.recovered), disk.recovered)
    ensures disk.state.txn.events == old(disk.state.txn.events)
    ensures disk.state.cursor + rest == disk.state.txn.nextPartId == old(disk.state.txn.nextPartId)
    ensures forall k :: Committed(disk.state, k) == Committed(old(disk.state), k)
    ensures forall k :: Pending(disk.state, k) == Combined(kind, Pending(old(disk.state), k), Lookup(sets, k))
    ensures SameBut(start, disk.state.txn, ks)
    ensures disk.state.txn.periodState ==
      if kind == Data then Opened(old(disk.state.txn.periodState), sets.Keys) else old(disk.state.txn.periodState)
  {
    hide Kept, Atomic, OnDisk, Disk.Valid, Opened, OnePart, SameBut;
    var todo := sets.Keys;
    ghost var before := disk.state;
    Unchanged(disk.recovered);
    NoneOpened(before.txn.periodState, todo);
    while todo != {}
      invariant todo <= sets.Keys
      invariant disk.Valid()
      invariant disk.state.tables == before.tables && Kept(old(disk.recovered), disk.recovered)
      invariant disk.state.txn.events == before.txn.events && disk.state.txn.nextPartId == before.txn.nextPartId
      invariant disk.state.cursor + |todo| + rest == disk.state.txn.nextPartId
      invariant forall q :: Committed(disk.state, q) == Committed(before, q)
      invariant forall q :: q !in sets || q in todo ==> Pending(disk.state, q) == Pending(before, q)
      invariant forall q :: q in sets && q !in todo ==>
        Pending(disk.state, q) == Combined(kind, Pending(before, q), sets[q])
      invariant SameBut(start, disk.state.txn, ks)
      invariant disk.state.txn.periodState ==
        if kind == Data then Opened(before.txn.periodState, sets.Keys - todo) else before.txn.periodState
      decreases todo
    {
      var k :| k in todo;
      assert k.event in before.txn.events && ValidPeriod(k.period);
      ghost var sofar := disk.recovered;
      WriteOnePart(disk, kind, k, sets[k], now, sizeOf, start, ks);
      KeptTwice(old(disk.recovered), sofar, disk.recovered);
      OneMoreOpened(before.txn.periodState, sets.Keys, todo, k);
      todo := todo - {k};
    }
    assert sets.Keys - todo == sets.Keys;
  }

  /** One transaction, seen from crashes: what is reserved and written stays unseen until the commit. */
  lemma Transaction(a: seq<iset<Row>>, reserved: seq<iset<Row>>, written: seq<iset<Row>>, b: seq<iset<Row>>)
    requires Kept(a, reserved) && Kept(reserved, written) && Atomic(written, b)
    ensures Atomic(a, b)
  {
    KeptTwice(a, reserved, written);
    KeptThenAtomic(a, written, b);
  }

  /** Writes and records all data, then all removals. */
  method WriteAll(disk: Disk, data: Sets, removals: Sets, now: u64, sizeOf: set<u32> -> u64)
    requires disk.Valid() && Storable(disk.state.txn, data) && Storable(disk.state.txn, removals)
    requires disk.state.cursor + |data| + |removals| == disk.state.txn.nextPartId
    modifies disk
    ensures disk.Valid()
    ensures disk.state.tables == old(disk.state.tables) && Kept(old(disk.recovered), disk.recovered)
    ensures disk.state.txn.events == old(disk.state.txn.events)
    ensures disk.state.cursor == disk.state.txn.nextPartId == old(disk.state.txn.nextPartId)
    ensures forall k :: Committed(disk.state, k) == Committed(old(disk.state), k)
    ensures forall k ::
      Pending(disk.state, k) == Pending(old(disk.state), k) + Lookup(data, k) - Lookup(removals, k)
    ensures SameBut(old(disk.state.txn), disk.state.txn, data.Keys + removals.Keys)
    ensures disk.state.txn.periodState == Opened(old(disk.state.txn.periodState), data.Keys)
  {
    hide Kept, Atomic, OnDisk, Disk.Valid;
    ghost var start, ks := disk.state.txn, data.Keys + removals.Keys;
    WriteParts(disk, Data, data, |removals|, now, sizeOf, start, ks);
    ghost var written, sofar := disk.state, disk.recovered;
    WriteParts(disk, Delta, removals, 0, now, sizeOf, start, ks);
    BothKinds(old(disk.state), written, disk.state, data, removals);
    KeptTwice(old(disk.recovered), sofar, disk.recovered);
  }

  lemma BothKinds(m: Machine, m': Machine, m'': Machine, data: Sets, removals: Sets)
    requires forall k :: Pending(m', k) == Combined(Data, Pending(m, k), Lookup(data, k))
    requires forall k :: Pending(m'', k) == Combined(Delta, Pending(m', k), Lookup(removals, k))
    ensures forall k :: Pending(m'', k) == Pending(m, k) + Lookup(data, k) - Lookup(removals, k)
  {
  }

  /** Writes a drained buffer in one transaction, all data before all removals. */
  method FlushParts(disk: Disk, data: Sets, removals: Sets, now: u64, sizeOf: set<u32> -> u64) returns (r: Result<()>)
    requires disk.Valid() && Quiet(disk.state)
    requires Storable(disk.state.tables, data) && Storable(disk.state.tables, removals)
    modifies disk
    ensures disk.Valid() && Quiet(disk.state)
    ensures disk.state.tables.events == old(disk.state.tables.events)
    ensures r ==
      if old(disk.state.tables.nextPartId) + |data| + |removals| < U64_LIMIT then Ok(()) else Err(CatalogCorrupted)
    ensures r.Err? ==> disk.state == old(disk.state) && disk.recovered == old(disk.recovered)
    ensures r.Ok? ==> Atomic(old(disk.recovered), disk.recovered)
    ensures r.Ok? ==> forall k ::
      Committed(disk.state, k) == Committed(old(disk.state), k) + Lookup(data, k) - Lookup(removals, k)
    ensures r.Ok? ==> disk.state.tables.nextPartId == old(disk.state.tables.nextPartId) + |data| + |removals|
    ensures r.Ok? ==> SameBut(old(disk.state.tables), disk.state.tables, data.Keys + removals.Keys)
    ensures r.Ok? ==> disk.state.tables.periodState == Opened(old(disk.state.tables.periodState), data.Keys)
  {
    hide Kept, Atomic, OnDisk, Disk.Valid;
    var total := |data| + |removals|;
    if AllocPartIds(disk.state.tables, total).Err? {
      return Err(CatalogCorrupted);
    }
    disk.Do(Reserve(total));
    ghost var reserved := disk.recovered;
    WriteAll(disk, data, removals, now, sizeOf);
    ghost var written := disk.recovered;
    disk.Do(Commit);
    Transaction(old(disk.recovered), reserved, written, disk.recovered);
    r := Ok(());
  }

  /** The ids listed for a key before a transaction belong to it, or are gone, within it. */
  lemma StaleIdsBelong(m: Machine, k: Key)
    requires Sound(m)
    ensures forall id :: id in KeyIds(m.tables, k) && id in m.txn.parts ==> m.txn.parts[id].Owner() == k
    ensures forall id :: id in KeyIds(m.tables, k) ==> id < m.tables.nextPartId
  {
    forall id | id in KeyIds(m.tables, k)
      ensures id < m.tables.nextPartId && (id in m.txn.parts ==> m.txn.parts[id].Owner() == k)
    {
      ListedIds(m.tables, m.tables.nextPartId, k, id);
    }
  }

  /** Writes one part and makes it the whole of its key. */
  method WriteReplacement(disk: Disk, k: Key, bits: set<u32>, state: PeriodState, now: u64, level: u8,
                          sizeOf: set<u32> -> u64)
    requires disk.Valid() && k.event in disk.state.txn.events && ValidPeriod(k.period)
    requires disk.state.cursor < disk.state.txn.nextPartId
    modifies disk
    ensures disk.Valid()
    ensures disk.state.tables == old(disk.state.tables) && Kept(old(disk.recovered), disk.recovered)
    ensures disk.state.txn.events == old(disk.state.txn.events)
    ensures disk.state.txn.nextPartId == old(disk.state.txn.nextPartId)
    ensures disk.state.cursor == old(disk.state.cursor) + 1
    ensures forall q :: Committed(disk.state, q) == Committed(old(disk.state), q)
    ensures forall q :: Pending(disk.state, q) == if q == k then bits else Pending(old(disk.state), q)
    ensures Single(disk.state.txn, k) && SameBut(old(disk.state.txn), disk.state.txn, {k})
    ensures forall id :: id in disk.state.txn.parts <==>
      id == old(disk.state.cursor) || (id in old(disk.state.txn.parts) && id !in KeyIds(disk.state.tables, k))
    ensures forall id :: id in disk.state.txn.parts && id != old(disk.state.cursor) ==>
      disk.state.txn.parts[id] == old(disk.state.txn.parts)[id]
    ensures disk.state.txn.periodState == old(disk.state.txn.periodState)[k := state]
    ensures var id := old(disk.state.cursor);
      var part, finest := disk.state.txn.parts[id], old(disk.state.txn.events)[k.event].finest;
      && DataIds(disk.state.txn, k) == [id] && disk.state.files == old(disk.state.files)[part.file := bits]
      && Recorded(part, id, Data, k, finest, bits, sizeOf(bits), now, level)
  {
    hide Kept, Atomic, OnDisk, Disk.Valid;
    var config := disk.state.txn.events[k.event];
    var stale := KeyIds(disk.state.tables, k);
    disk.StateIsSound();
    StaleIdsBelong(disk.state, k);
    var part := MakePart(k, config, Data, disk.state.cursor, bits, sizeOf(bits), now, level);
    ReplacingKeepsOthers(disk.state.txn, part, state, stale);
    disk.Do(WriteFile(part.file, bits));
    ghost var written := disk.recovered;
    disk.Do(Action.Replace(part, state, stale));
    KeptTwice(old(disk.recovered), written, disk.recovered);
  }

  /** The files behind a set of part ids. */
  function FilesOf(t: Tables, ids: set<u64>): set<Path> {
    set id | id in ids && id in t.parts :: t.parts[id].file
  }

  /** The key's state is the given one, its first data part has the given level, and no other state has changed. */
  predicate Marked(t: Tables, t': Tables, k: Key, state: PeriodState, level: u8) {
    && t'.periodState == t.periodState[k := state]
    && DataIds(t', k) != [] && DataIds(t', k)[0] in t'.parts && t'.parts[DataIds(t', k)[0]].level == level
  }

  /** The files of all parts listed for a key. */
  function KeyFiles(t: Tables, k: Key): set<Path> { FilesOf(t, KeyIds(t, k)) }

  /** The obsolete files are gone, the others are still there. */
  predicate Swept(files: Files, files': Files, stale: set<Path>) {
    (forall p :: p in stale ==> p !in files') && forall p :: p in files && p !in stale ==> p in files'
  }

  /** Writes one part, makes it the whole of its key and commits. The files of the parts it
      supersedes are free to go afterwards. */
  method ReplaceKey(disk: Disk, k: Key, bits: set<u32>, state: PeriodState, now: u64, level: u8,
                    sizeOf: set<u32> -> u64)
    returns (r: Result<()>)
    requires disk.Valid() && Quiet(disk.state) && k.event in disk.state.tables.events && ValidPeriod(k.period)
    modifies disk
    ensures disk.Valid() && Quiet(disk.state) && disk.state.tables.events == old(disk.state.tables.events)
    ensures r == if old(disk.state.tables.nextPartId) + 1 < U64_LIMIT then Ok(()) else Err(CatalogCorrupted)
    ensures r.Err? ==> disk.state == old(disk.state) && disk.recovered == old(disk.recovered)
    ensures r.Ok? ==> Atomic(old(disk.recovered), disk.recovered)
    ensures r.Ok? ==> Committed(disk.state, k) == bits
    ensures r.Ok? ==> forall q :: q != k ==> Committed(disk.state, q) == Committed(old(disk.state), q)
    ensures r.Ok? ==> Single(disk.state.tables, k) && SameBut(old(disk.state.tables), disk.state.tables, {k})
    ensures r.Ok? ==> disk.state.tables.nextPartId == old(disk.state.tables.nextPartId) + 1
    ensures r.Ok? ==> Marked(old(disk.state.tables), disk.state.tables, k, state, level)
    ensures forall p :: p in old(disk.state.files) ==> p in disk.state.files
    ensures r.Ok? ==> forall p :: p in FilesOf(old(disk.state.tables), KeyIds(old(disk.state.tables), k)) ==>
      p.partId !in disk.state.tables.parts
  {
    hide Kept, Atomic, OnDisk, Disk.Valid;
    if AllocPartIds(disk.state.tables, 1).Err? {
      return Err(CatalogCorrupted);
    }
    disk.StateIsSound();
    StaleFiles(disk.state, k);
    disk.Do(Reserve(1));
    ghost var reserved := disk.recovered;
    WriteReplacement(disk, k, bits, state, now, level, sizeOf);
    ghost var written := disk.recovered;
    disk.Do(Commit);
    Transaction(old(disk.recovered), reserved, written, disk.recovered);
    r := Ok(());
  }

  /** The files of listed parts carry the ids of those parts. */
  lemma StaleFiles(m: Machine, k: Key)
    requires Sound(m)
    ensures forall p :: p in FilesOf(m.tables, KeyIds(m.tables, k)) ==>
      p.partId in KeyIds(m.tables, k) && p.partId < m.tables.nextPartId
  {
  }

  type Entries = seq<(Period, set<u32>)>

  /** The first data part of the key is at level 0. */
  predicate AtZero(t: Tables, k: Key) {
    DataIds(t, k) != [] && DataIds(t, k)[0] in t.parts && t.parts[DataIds(t, k)[0]].level == 0
  }

  /** Keys without a state become open, and the first data part of every key is at level 0. */
  predicate Renewed(t: Tables, t': Tables, ks: set<Key>) {
    && t'.periodState == Opened(t.periodState, ks)
    && forall k :: k in ks ==> AtZero(t', k)
  }

  /** The files of everything the entries' keys list. */
  function EntryFiles(t: Tables, event: string, entries: Entries): set<Path> {
    set k, p | k in EntryKeys(event, entries) && p in KeyFiles(t, k) :: p
  }

  /** The events have no part in it. */
  lemma SameEntryFiles(t: Tables, t': Tables, event: string, entries: Entries)
    requires t' == t.(events := t'.events)
    ensures EntryFiles(t', event, entries) == EntryFiles(t, event, entries)
  {
    assert forall k :: KeyFiles(t', k) == KeyFiles(t, k);
  }

  /** Replaces every entry's key in one transaction; of several entries for a key the last one stays. */
  method ReplaceMany(disk: Disk, event: string, entries: Entries, now: u64, sizeOf: set<u32> -> u64)
    returns (r: Result<()>)
    requires disk.Valid() && Quiet(disk.state) && event in disk.state.tables.events
    requires forall i :: 0 <= i < |entries| ==> ValidPeriod(entries[i].0)
    modifies disk
    ensures disk.Valid() && Quiet(disk.state) && disk.state.tables.events == old(disk.state.tables.events)
    ensures r == if old(disk.state.tables.nextPartId) + |entries| < U64_LIMIT then Ok(()) else Err(CatalogCorrupted)
    ensures r.Err? ==> disk.state == old(disk.state) && disk.recovered == old(disk.recovered)
    ensures r.Ok? ==> Atomic(old(disk.recovered), disk.recovered)
    ensures r.Ok? ==> forall q ::
      Committed(disk.state, q) == LastEntry(event, entries, q, Committed(old(disk.state), q))
    ensures r.Ok? ==> disk.state.tables.nextPartId == old(disk.state.tables.nextPartId) + |entries|
    ensures r.Ok? ==> SameBut(old(disk.state.tables), disk.state.tables, EntryKeys(event, entries))
    ensures r.Ok? ==> forall q :: q in EntryKeys(event, entries) ==> Single(disk.state.tables, q)
    ensures r.Ok? ==> Renewed(old(disk.state.tables), disk.state.tables, EntryKeys(event, entries))
    ensures forall p :: p in old(disk.state.files) ==> p in disk.state.files
    ensures r.Ok? ==> forall p :: p in EntryFiles(old(disk.state.tables), event, entries) ==>
      p.partId !in disk.state.tables.parts
  {
    hide Kept, Atomic, OnDisk, Disk.Valid;
    if AllocPartIds(disk.state.tables, |entries|).Err? {
      return Err(CatalogCorrupted);
    }
    disk.StateIsSound();
    EntryFilesAreStale(disk.state, event, entries);
    disk.Do(Reserve(|entries|));
    ghost var reserved := disk.recovered;
    WriteReplacements(disk, event, entries, now, sizeOf);
    ghost var written := disk.recovered;
    disk.Do(Commit);
    Transaction(old(disk.recovered), reserved, written, disk.recovered);
    r := Ok(());
  }

  /** Writes and records one replacement per entry inside the open transaction. */
  method WriteReplacements(disk: Disk, event: string, entries: Entries, now: u64, sizeOf: set<u32> -> u64)
    requires disk.Valid() && event in disk.state.txn.events
    requires forall i :: 0 <= i < |entries| ==> ValidPeriod(entries[i].0)
    requires disk.state.cursor + |entries| == disk.state.txn.nextPartId
    requires forall j, id :: 0 <= j < |entries| && id in KeyIds(disk.state.tables, Key(event, entries[j].0)) ==>
      id < disk.state.cursor
    modifies disk
    ensures disk.Valid()
    ensures disk.state.tables == old(disk.state.tables) && Kept(old(disk.recovered), disk.recovered)
    ensures disk.state.txn.events == old(disk.state.txn.events)
    ensures disk.state.cursor == disk.state.txn.nextPartId == old(disk.state.txn.nextPartId)
    ensures forall q :: Committed(disk.state, q) == Committed(old(disk.state), q)
    ensures forall q :: Pending(disk.state, q) == LastEntry(event, entries, q, Pending(old(disk.state), q))
    ensures SameBut(old(disk.state.txn), disk.state.txn, EntryKeys(event, entries))
    ensures forall q :: q in EntryKeys(event, entries) ==> Single(disk.state.txn, q)
    ensures Renewed(old(disk.state.txn), disk.state.txn, EntryKeys(event, entries))
    ensures forall p :: p in old(disk.state.files) ==> p in disk.state.files
    ensures forall j, id :: 0 <= j < |entries| && id in KeyIds(disk.state.tables, Key(event, entries[j].0)) ==>
      id !in disk.state.txn.parts
  {
    hide Kept, Atomic, OnDisk, Disk.Valid, WellFormed, FilesMatch, SameBut, Single, EntriesDone, Sound;
    ghost var before := disk.state;
    Unchanged(disk.recovered);
    NothingDone(before, event, entries);
    for i := 0 to |entries|
      invariant disk.Valid() && Kept(old(disk.recovered), disk.recovered)
      invariant disk.state.tables == before.tables && disk.state.txn.events == before.txn.events
      invariant disk.state.cursor == before.cursor + i && disk.state.txn.nextPartId == before.txn.nextPartId
      invariant forall q :: Committed(disk.state, q) == Committed(before, q)
      invariant forall q :: Pending(disk.state, q) == LastEntry(event, entries[..i], q, Pending(before, q))
      invariant EntriesDone(before, disk.state.txn, event, entries, i)
      invariant forall p :: p in before.files ==> p in disk.state.files
    {
      var k := Key(event, entries[i].0);
      var state := if k in disk.state.txn.periodState then disk.state.txn.periodState[k] else PeriodState.Open;
      assert entries[..i + 1][..i] == entries[..i];
      ghost var txn, sofar := disk.state.txn, disk.recovered;
      disk.StateIsSound();
      WriteReplacement(disk, k, entries[i].1, state, now, 0, sizeOf);
      KeptTwice(old(disk.recovered), sofar, disk.recovered);
      disk.StateIsSound();
      OneMoreDone(before, txn, disk.state.txn, event, entries, i, disk.state.cursor - 1);
    }
    assert entries[..|entries|] == entries;
    AllDone(before, disk.state.txn, event, entries);
  }

  /** What the first `i` entries leave of the catalog. */
  ghost predicate EntriesDone(m: Machine, t: Tables, event: string, entries: Entries, i: nat)
    requires i <= |entries|
  {
    var ks := EntryKeys(event, entries[..i]);
    && SameBut(m.txn, t, ks) && Renewed(m.txn, t, ks) && (forall q :: q in ks ==> Single(t, q))
    && forall j, id :: 0 <= j < i && id in KeyIds(m.tables, Key(event, entries[j].0)) ==> id !in t.parts
  }

  lemma NothingDone(m: Machine, event: string, entries: Entries)
    ensures EntriesDone(m, m.txn, event, entries, 0)
  {
    assert EntryKeys(event, entries[..0]) == {};
  }

  lemma AllDone(m: Machine, t: Tables, event: string, entries: Entries)
    requires EntriesDone(m, t, event, entries, |entries|)
    ensures var ks := EntryKeys(event, entries);
      SameBut(m.txn, t, ks) && Renewed(m.txn, t, ks) && forall q :: q in ks ==> Single(t, q)
    ensures forall j, id :: 0 <= j < |entries| && id in KeyIds(m.tables, Key(event, entries[j].0)) ==> id !in t.parts
  {
    assert entries[..|entries|] == entries;
  }

  lemma OneMoreDone(m: Machine, t: Tables, t': Tables, event: string, entries: Entries, i: nat, id: u64)
    requires i < |entries| && EntriesDone(m, t, event, entries, i)
    requires WellFormed(t, id) && WellFormed(t', id + 1)
    requires forall other :: other in KeyIds(m.tables, Key(event, entries[i].0)) ==> other < id
    requires forall j, other :: 0 <= j < i && other in KeyIds(m.tables, Key(event, entries[j].0)) ==> other < id
    requires var k := Key(event, entries[i].0);
      && SameBut(t, t', {k}) && Single(t', k) && AtZero(t', k)
      && t'.periodState == t.periodState[k := if k in t.periodState then t.periodState[k] else Open]
      && (forall other :: other in t'.parts <==> other == id || (other in t.parts && other !in KeyIds(m.tables, k)))
    requires forall other :: other in t'.parts && other != id ==> t'.parts[other] == t.parts[other]
    ensures EntriesDone(m, t', event, entries, i + 1)
  {
    hide WellFormed, SameBut, AtZero, Renewed, KeyIds, Single;
    OneMoreRenewed(m.txn, t, t', event, entries, i, id);
    OneMoreSingle(t, t', event, entries, i);
    SameTwice(m.txn, t, t', EntryKeys(event, entries[..i]), {Key(event, entries[i].0)});
  }

  lemma StillAtZero(t: Tables, t': Tables, k: Key, q: Key, id: u64)
    requires WellFormed(t, id) && WellFormed(t', id + 1) && SameBut(t, t', {k}) && q != k && AtZero(t, q)
    requires forall other :: other in t'.parts && other != id ==> other in t.parts && t'.parts[other] == t.parts[other]
    ensures AtZero(t', q)
  {
    hide WellFormed, SameBut;
    SameLists(t, t', {k}, q);
    ListedIds(t, id, q, DataIds(t, q)[0]);
    ListedIds(t', id + 1, q, DataIds(t', q)[0]);
  }

  lemma OneMoreRenewed(start: Tables, t: Tables, t': Tables, event: string, entries: Entries, i: nat, id: u64)
    requires i < |entries| && Renewed(start, t, EntryKeys(event, entries[..i]))
    requires WellFormed(t, id) && WellFormed(t', id + 1)
    requires var k := Key(event, entries[i].0);
      && SameBut(t, t', {k}) && AtZero(t', k)
      && t'.periodState == t.periodState[k := if k in t.periodState then t.periodState[k] else Open]
    requires forall other :: other in t'.parts && other != id ==> other in t.parts && t'.parts[other] == t.parts[other]
    ensures Renewed(start, t', EntryKeys(event, entries[..i + 1]))
  {
    hide WellFormed, SameBut, AtZero;
    var k := Key(event, entries[i].0);
    assert EntryKeys(event, entries[..i + 1]) == EntryKeys(event, entries[..i]) + {k} by {
      assert entries[..i + 1] == entries[..i] + [entries[i]];
    }
    forall q | q in EntryKeys(event, entries[..i]) && q != k
      ensures AtZero(t', q)
    {
      StillAtZero(t, t', k, q, id);
    }
  }

  lemma OneMoreSingle(t: Tables, t': Tables, event: string, entries: Entries, i: nat)
    requires i < |entries| && SameBut(t, t', {Key(event, entries[i].0)}) && Single(t', Key(event, entries[i].0))
    requires forall q :: q in EntryKeys(event, entries[..i]) ==> Single(t, q)
    ensures EntryKeys(event, entries[..i + 1]) == EntryKeys(event, entries[..i]) + {Key(event, entries[i].0)}
    ensures forall q :: q in EntryKeys(event, entries[..i + 1]) ==> Single(t', q)
  {
    assert entries[..i + 1] == entries[..i] + [entries[i]];
    assert EntryKeys(event, entries[..i + 1]) == EntryKeys(event, entries[..i]) + {Key(event, entries[i].0)};
    forall q | q in EntryKeys(event, entries[..i]) && q != Key(event, entries[i].0)
      ensures Single(t', q)
    {
      assert Single(t, q);
      SameLists(t, t', {Key(event, entries[i].0)}, q);
    }
  }

  lemma EntryFilesAreStale(m: Machine, event: string, entries: Entries)
    requires Sound(m)
    ensures forall p :: p in EntryFiles(m.tables, event, entries) ==>
      exists i :: 0 <= i < |entries| && p.partId in KeyIds(m.tables, Key(event, entries[i].0))
    ensures forall i, id :: 0 <= i < |entries| && id in KeyIds(m.tables, Key(event, entries[i].0)) ==>
      id < m.tables.nextPartId
  {
    forall p | p in EntryFiles(m.tables, event, entries)
      ensures exists i :: 0 <= i < |entries| && p.partId in KeyIds(m.tables, Key(event, entries[i].0))
    {
      var k :| k in EntryKeys(event, entries) && p in FilesOf(m.tables, KeyIds(m.tables, k));
      StaleFiles(m, k);
    }
    forall i, id | 0 <= i < |entries| && id in KeyIds(m.tables, Key(event, entries[i].0))
      ensures id < m.tables.nextPartId
    {
      ListedIds(m.tables, m.tables.nextPartId, Key(event, entries[i].0), id);
    }
  }

  /** Drops a whole key in one transaction. */
  method EraseKey(disk: Disk, k: Key)
    requires disk.Valid() && Quiet(disk.state)
    modifies disk
    ensures disk.Valid() && Quiet(disk.state) && disk.state.files == old(disk.state.files)
    ensures Atomic(old(disk.recovered), disk.recovered)
    ensures forall q :: Committed(disk.state, q) == if q == k then {} else Committed(old(disk.state), q)
    ensures disk.state.tables == Catalog.DeletePeriod(old(disk.state.tables), k)
    ensures forall p :: p in FilesOf(old(disk.state.tables), KeyIds(old(disk.state.tables), k)) ==>
      p.partId !in disk.state.tables.parts
  {
    hide Kept, Atomic, OnDisk, Disk.Valid;
    disk.StateIsSound();
    StaleFiles(disk.state, k);
    disk.Do(ErasePeriod(k));
    ghost var erased := disk.recovered;
    disk.Do(Commit);
    KeptThenAtomic(old(disk.recovered), erased, disk.recovered);
  }

  /** Drops an event with everything listed under it in one transaction. */
  method EraseAll(disk: Disk, name: string)
    requires disk.Valid() && Quiet(disk.state)
    modifies disk
    ensures disk.Valid() && Quiet(disk.state) && disk.state.files == old(disk.state.files)
    ensures Atomic(old(disk.recovered), disk.recovered)
    ensures forall q :: Committed(disk.state, q) == if q.event == name then {} else Committed(old(disk.state), q)
    ensures disk.state.tables == Catalog.DeleteEvent(old(disk.state.tables), name)
    ensures forall p :: p in FilesOf(old(disk.state.tables), EventDataIds(old(disk.state.tables), name)) ==>
      p.partId !in disk.state.tables.parts
  {
    hide Kept, Atomic, OnDisk, Disk.Valid;
    disk.StateIsSound();
    StaleEventFiles(disk.state, name);
    disk.Do(EraseEvent(name));
    ghost var erased := disk.recovered;
    disk.Do(Commit);
    KeptThenAtomic(old(disk.recovered), erased, disk.recovered);
  }

  lemma StaleEventFiles(m: Machine, name: string)
    requires Sound(m)
    ensures forall p :: p in FilesOf(m.tables, EventDataIds(m.tables, name)) ==>
      p.partId in EventDataIds(m.tables, name)
  {
  }

  /** Deletes obsolete files one by one, after the commit that made them obsolete. */
  method DeleteFiles(disk: Disk, paths: set<Path>)
    requires disk.Valid() && Quiet(disk.state)
    requires forall p :: p in paths ==> p.partId !in disk.state.tables.parts
    modifies disk
    ensures disk.Valid() && Quiet(disk.state)
    ensures disk.state.tables == old(disk.state.tables) && Kept(old(disk.recovered), disk.recovered)
    ensures forall p :: p in disk.state.files <==> p in old(disk.state.files) && p !in paths
    ensures forall k :: Committed(disk.state, k) == Committed(old(disk.state), k)
  {
    hide Kept, Atomic, OnDisk, Disk.Valid;
    var todo := paths;
    ghost var before := disk.state;
    Unchanged(disk.recovered);
    while todo != {}
      invariant todo <= paths
      invariant disk.Valid() && Quiet(disk.state)
      invariant disk.state.tables == before.tables && Kept(old(disk.recovered), disk.recovered)
      invariant forall p :: p in disk.state.files <==> p in before.files && p !in paths - todo
      invariant forall k :: Committed(disk.state, k) == Committed(before, k)
      decreases todo
    {
      var p :| p in todo;
      ghost var sofar := disk.recovered;
      disk.Do(DeleteFile(p));
      KeptTwice(old(disk.recovered), sofar, disk.recovered);
      todo := todo - {p};
    }
  }
}
