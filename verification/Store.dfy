/** The store itself: public operations over the write buffer, the durable machine and
    the read cache, each proved to act on the relation it stands for. */
module Store {
  import opened Types
  import opened Calendar
  import opened PeriodRange
  import opened WriteBuffer
  import opened Propagation
  import opened Merge
  import opened Catalog
  import opened Durability
  import opened Parts
  import opened ReadIndex
  import opened Rules
  import opened Spec

  // ----- what a state shows -----------------------------------------------------------

  /** Flushed bits, then pending additions, then pending removals. */
  ghost function Shown(m: Machine, bitmaps: Sets, deltas: Sets, k: Key): set<u32> {
    Committed(m, k) + Lookup(bitmaps, k) - Lookup(deltas, k)
  }

  ghost function Rows(m: Machine, bitmaps: Sets, deltas: Sets): iset<Row> {
    iset r: Row | r.bit in Shown(m, bitmaps, deltas, Key(r.event, r.period))
  }

  lemma RowsOfSameView(m: Machine, m': Machine, bitmaps: Sets, deltas: Sets)
    requires forall k :: Committed(m', k) == Committed(m, k)
    ensures Rows(m', bitmaps, deltas) == Rows(m, bitmaps, deltas) && View(m') == View(m)
  {
    SameView(m, m');
  }

  lemma EmptyBufferShowsView(m: Machine)
    ensures Rows(m, map[], map[]) == View(m)
  {
  }

  /** A put: bits go in and pending removals of the same bits are cancelled. */
  lemma PutRows(m: Machine, bitmaps: Sets, deltas: Sets, ks: set<Key>, bits: set<u32>)
    ensures Rows(m, OrAll(bitmaps, ks, bits), ClearAll(deltas, ks, bits)) == Rows(m, bitmaps, deltas) + Cells(ks, bits)
  {
    var bitmaps', deltas' := OrAll(bitmaps, ks, bits), ClearAll(deltas, ks, bits);
    forall r: Row
      ensures r in Rows(m, bitmaps', deltas') <==> r in Rows(m, bitmaps, deltas) + Cells(ks, bits)
    {
      var k := Key(r.event, r.period);
      assert Lookup(bitmaps', k) == if k in ks then Lookup(bitmaps, k) + bits else Lookup(bitmaps, k);
      assert Lookup(deltas', k) == if k in ks then Lookup(deltas, k) - bits else Lookup(deltas, k);
    }
  }

  lemma NoCells(ks: set<Key>, rows: iset<Row>)
    ensures rows + Cells(ks, {}) == rows && rows - Cells(ks, {}) == rows
  {
  }

  /** A removal: bits join the pending removals. */
  lemma RemoveRows(m: Machine, bitmaps: Sets, deltas: Sets, ks: set<Key>, bits: set<u32>)
    ensures Rows(m, bitmaps, OrAll(deltas, ks, bits)) == Rows(m, bitmaps, deltas) - Cells(ks, bits)
  {
    var deltas' := OrAll(deltas, ks, bits);
    forall r: Row
      ensures r in Rows(m, bitmaps, deltas') <==> r in Rows(m, bitmaps, deltas) - Cells(ks, bits)
    {
      var k := Key(r.event, r.period);
      assert Lookup(deltas', k) == if k in ks then Lookup(deltas, k) + bits else Lookup(deltas, k);
    }
  }

  /** Forgetting the pending changes of some keys. */
  lemma DiscardRows(m: Machine, bitmaps: Sets, deltas: Sets, ks: set<Key>)
    ensures Rows(m, bitmaps - ks, deltas - ks) ==
      Rows(m, bitmaps, deltas) - RowsOf(ks) + View(m) * RowsOf(ks)
  {
  }

  lemma FlushedRows(m: Machine, m': Machine, data: Sets, removals: Sets)
    requires forall k :: Committed(m', k) == Committed(m, k) + Lookup(data, k) - Lookup(removals, k)
    ensures View(m') == Rows(m, data, removals)
  {
  }

  lemma CacheFollowsView(m: Machine, m': Machine)
    requires ListedKeys(m'.tables) == ListedKeys(m.tables)
    requires forall k :: Committed(m', k) == Committed(m, k)
    ensures CacheOf(m'.tables, m'.files) == CacheOf(m.tables, m.files)
  {
    forall k
      ensures OnDisk(m'.tables, m'.files, k) == OnDisk(m.tables, m.files, k)
    {
      assert Committed(m', k) == Committed(m, k);
    }
  }

  /** An unlisted key shows nothing from disk. */
  lemma UnlistedIsEmpty(m: Machine, k: Key)
    requires k !in ListedKeys(m.tables)
    ensures Committed(m, k) == {}
  {
    NothingListed(m.tables, m.files, k);
  }

  predicate Registered(events: map<string, EventConfig>, sets: Sets) {
    forall k | k in sets :: k.event in events && ValidPeriod(k.period)
  }

  /** What opening does to the disk: only the last commit is there, and a writable store sweeps the files no record
      knows. */
  method Recover(disk: Disk, readOnly: bool)
    requires disk.Valid()
    modifies disk
    ensures disk.Valid() && Quiet(disk.state) && disk.state.tables == old(disk.state.tables)
    ensures View(disk.state) == old(View(disk.state)) && Kept(old(disk.recovered), disk.recovered)
    ensures forall p :: p in disk.state.files <==>
      p in old(disk.state.files) && (readOnly || p.partId in disk.state.tables.parts)
  {
    hide Kept, Rows, View, OnDisk, Disk.Valid;
    ghost var before := disk.state;
    disk.Do(Crash);
    ghost var crashed := disk.recovered;
    Unchanged(crashed);
    if !readOnly {
      var orphans := set p | p in disk.state.files && p.partId !in disk.state.tables.parts;
      DeleteFiles(disk, orphans);
    }
    KeptTwice(old(disk.recovered), crashed, disk.recovered);
    RowsOfSameView(before, disk.state, map[], map[]);
  }

  class InoxSet {
    const settings: Settings
    const readOnly: bool
    const mem: MemPart
    const disk: Disk
    var cache: Cache
    var eventNames: set<string>
    var closed: bool

    ghost predicate Valid()
      reads this, mem, disk
    {
      && disk.Valid() && Quiet(disk.state)
      && Registered(disk.state.tables.events, mem.bitmaps)
      && Registered(disk.state.tables.events, mem.deltas)
      && cache == CacheOf(disk.state.tables, disk.state.files)
    }

    ghost function Live(): iset<Row>
      reads mem, disk
    {
      Rows(disk.state, mem.bitmaps, mem.deltas)
    }

    ghost function Durable(): iset<Row>
      reads disk
    {
      View(disk.state)
    }

    /** The relation this store stands for. */
    ghost function Abs(): Model
      reads mem, disk
    {
      Model(disk.state.tables.events, Live(), Durable())
    }

    /** The counter of part ids. */
    function NextId(): u64
      reads disk
    {
      disk.state.tables.nextPartId
    }

    /** The state each period is marked with. */
    function Marks(): map<Key, PeriodState>
      reads disk
    {
      disk.state.tables.periodState
    }

    /** A period that is not marked counts as open. */
    function StateOf(k: Key): PeriodState
      reads disk
    {
      if k in Marks() then Marks()[k] else PeriodState.Open
    }

    /** What may have to come out of the counter: the ids given out, those a flush of the buffer takes and those
        compacting it afterwards takes, and those of the keys that wait for compaction. */
    ghost function Load(): nat
      reads mem, disk
    {
      NextId() + 2 * mem.State().Entries() + |Untidy(disk.state.tables)|
    }

    /** The buffer a put leaves before it looks at the threshold; unchanged when the put is not admitted. */
    ghost function AfterPut(event: string, period: Period, bits: set<u32>): Buffer
      reads mem, disk
    {
      match PutConfig(settings, disk.state.tables.events, event, period)
      case Err(_) => mem.State()
      case Ok(config) => PutBuffer(mem.State(), Reach(config, period), bits, mem.sizeOf)
    }

    ghost function AfterRemove(event: string, period: Period, bits: set<u32>): Buffer
      reads mem, disk
    {
      match RemoveConfig(settings, disk.state.tables.events, event, period)
      case Err(_) => mem.State()
      case Ok(config) => RemoveBuffer(mem.State(), Reach(config, period), bits, mem.sizeOf)
    }

    ghost function AfterPutRange(event: string, first: Period, last: Period, bits: set<u32>): Buffer
      reads mem, disk
    {
      match RangeConfig(settings, disk.state.tables.events, event, first, last)
      case Err(_) => mem.State()
      case Ok(config) =>
        if bits == {} then mem.State()
        else PutRangeBuffer(mem.State(), config, RangeBuckets(config, first, last), bits, mem.sizeOf)
    }

    ghost function AfterRemoveRange(event: string, first: Period, last: Period, bits: set<u32>): Buffer
      reads mem, disk
    {
      match RangeConfig(settings, disk.state.tables.events, event, first, last)
      case Err(_) => mem.State()
      case Ok(config) =>
        if bits == {} then mem.State()
        else RemoveBuffer(mem.State(), RangeReach(config, RangeBuckets(config, first, last)), bits, mem.sizeOf)
    }

    lemma EventsAreCanonical()
      requires Valid()
      ensures Canonical(Abs().events)
    {
      disk.StateIsSound();
    }

    predicate Writable()
      reads this
    {
      !closed && !readOnly
    }

    function Refusal(): Error
      reads this
    {
      if closed then Closed else ReadOnly
    }

    /** Opening sees the last commit only, sweeps the files no record knows, and rebuilds the cache. */
    constructor Open(disk: Disk, settings: Settings, readOnly: bool, sizeOf: set<u32> -> u64)
      requires disk.Valid()
      modifies disk
      ensures Valid() && fresh(mem) && this.disk == disk && this.settings == settings && this.readOnly == readOnly
      ensures !closed && mem.State() == EMPTY_BUFFER && mem.sizeOf == sizeOf
      ensures disk.state.tables == old(disk.state.tables) && Kept(old(disk.recovered), disk.recovered)
      ensures Abs() == Model(old(disk.state.tables.events), old(View(disk.state)), old(View(disk.state)))
      ensures forall p :: p in disk.state.files <==>
        p in old(disk.state.files) && (readOnly || p.partId in disk.state.tables.parts)
    {
      this.settings, this.readOnly, this.disk := settings, readOnly, disk;
      this.mem := new MemPart(sizeOf);
      closed := false;
      new;
      hide Kept, Rows, View, OnDisk, Disk.Valid, CacheOf;
      Recover(disk, readOnly);
      disk.StateIsSound();
      eventNames, cache := Build(disk.state.tables, disk.state.files, disk.state.tables.nextPartId);
      EmptyBufferShowsView(disk.state);
    }

    // ----- registration -----------------------------------------------------------------

    /** Looks an event up, registering it with the defaults if it is new. */
    method EnsureRegistered(name: string) returns (r: Result<EventConfig>)
      requires Valid()
      modifies disk
      ensures Valid()
      ensures r == EnsureEvent(settings, old(disk.state.tables.events), name)
      ensures r.Ok? ==> r.value.name == name
      ensures disk.state.tables == old(disk.state.tables).(
              events := if r.Ok? then old(disk.state.tables.events)[name := r.value] else old(disk.state.tables.events))
      ensures disk.state.files == old(disk.state.files) && Load() == old(Load())
      ensures Live() == old(Live()) && Durable() == old(Durable())
      ensures Kept(old(disk.recovered), disk.recovered)
      ensures r.Err? ==> disk.state == old(disk.state)
    {
      hide Untidy, Rows, View, CacheOf, Registered, Kept, Atomic, OnDisk;
      Unchanged(disk.recovered);
      disk.StateIsSound();
      r := EnsureEvent(settings, disk.state.tables.events, name);
      if r.Ok? {
        EnsureEventCanonical(settings, disk.state.tables.events, name);
        if name !in disk.state.tables.events {
          CommitEvent(r.value);
        }
      }
    }

    /** Registers one event in a transaction of its own. */
    method CommitEvent(config: EventConfig)
      requires Valid() && ValidEventName(config.name)
      requires config == NewEventConfig(config.name, config.finest, config.rollup)
      modifies disk
      ensures Valid() && disk.state.files == old(disk.state.files) && Load() == old(Load())
      ensures disk.state.tables ==
              old(disk.state.tables).(events := old(disk.state.tables.events)[config.name := config])
      ensures Live() == old(Live()) && Durable() == old(Durable())
      ensures Kept(old(disk.recovered), disk.recovered)
    {
      hide Untidy, Rows, View, Disk.Valid, Kept, Atomic, OnDisk;
      ghost var earlier := disk.recovered;
      disk.RecoversNow();
      disk.Do(Register(config));
      ghost var staged := disk.recovered;
      disk.Do(Commit);
      SameLoad(old(disk.state), disk.state);
      RowsOfSameView(old(disk.state), disk.state, mem.bitmaps, mem.deltas);
      CacheFollowsView(old(disk.state), disk.state);
      disk.RecoversNow();
      KeptThenAtomic(earlier, staged, disk.recovered);
      AtomicIsKept(earlier, disk.recovered);
    }

    // ----- flushing ---------------------------------------------------------------------

    /** Rebuilds the read cache after a change to the catalog. */
    method RebuildReadIndex()
      requires disk.Valid() && Quiet(disk.state)
      modifies this`cache, this`eventNames
      ensures cache == CacheOf(disk.state.tables, disk.state.files)
      ensures eventNames == disk.state.tables.events.Keys
    {
      disk.StateIsSound();
      eventNames, cache := Build(disk.state.tables, disk.state.files, disk.state.tables.nextPartId);
    }

    /** Drains the buffer and writes it as parts; if the ids run out, what was drained is lost. */
    method FlushInternal(now: u64) returns (r: Result<()>)
      requires Valid()
      modifies this`cache, this`eventNames, mem, disk
      ensures Valid() && mem.State() == if old(mem.IsEmpty()) then old(mem.State()) else EMPTY_BUFFER
      ensures (Abs(), r) == FlushSpec(old(Abs()), r.Ok?)
      ensures r.Ok? <==> old(NextId() + mem.State().Entries()) < U64_LIMIT
      ensures r.Err? ==> cache == old(cache) && eventNames == old(eventNames)
      ensures NextId() == old(NextId()) + if r.Ok? then old(mem.State().Entries()) else 0
      ensures Marks() == if r.Ok? then Opened(old(Marks()), old(mem.bitmaps.Keys)) else old(Marks())
      ensures Load() <= old(Load())
      ensures Atomic(old(disk.recovered), disk.recovered)
    {
      hide Untidy, Rows, View, OnDisk, CacheOf, Disk.Valid, Kept, Atomic;
      Unchanged(disk.recovered);
      if mem.IsEmpty() {
        EmptyBufferShowsView(disk.state);
        return Ok(());
      }
      ghost var before := disk.state;
      var data, removals := mem.TakeSnapshot();
      r := FlushParts(disk, data, removals, now, mem.sizeOf);
      if r.Ok? {
        RebuildReadIndex();
        FlushedRows(before, disk.state, data, removals);
        UntidyGrows(before.tables, disk.state.tables, data.Keys, removals.Keys);
      }
      EmptyBufferShowsView(disk.state);
    }

    /** Flushes when the buffer has grown past the threshold. */
    method AutoFlush(now: u64) returns (r: Result<()>, flushed: bool)
      requires Valid()
      modifies this`cache, this`eventNames, mem, disk
      ensures Valid()
      ensures flushed <==> old(mem.sizeBytes) >= settings.flushThreshold
      ensures !flushed ==> r == Ok(()) && Abs() == old(Abs()) && mem.State() == old(mem.State())
      ensures !flushed ==> NextId() == old(NextId())
      ensures Marks() == if flushed && r.Ok? then Opened(old(Marks()), old(mem.bitmaps.Keys)) else old(Marks())
      ensures !flushed || r.Err? ==> cache == old(cache) && eventNames == old(eventNames)
      ensures flushed ==> (Abs(), r) == FlushSpec(old(Abs()), r.Ok?)
      ensures flushed ==> (r.Ok? <==> old(NextId() + mem.State().Entries()) < U64_LIMIT)
      ensures flushed ==> NextId() == old(NextId()) + if r.Ok? then old(mem.State().Entries()) else 0
      ensures Load() <= old(Load())
      ensures Atomic(old(disk.recovered), disk.recovered)
    {
      hide Kept, Atomic, OnDisk;
      Unchanged(disk.recovered);
      if mem.sizeBytes >= settings.flushThreshold {
        r := FlushInternal(now);
        flushed := true;
      } else {
        r, flushed := Ok(()), false;
      }
    }

    // ----- single writes ----------------------------------------------------------------

    /** Buffers a put at a period and its rollup ancestors, cancelling pending removals there. */
    method BufferPut(config: EventConfig, period: Period, bits: set<u32>)
      requires Valid() && config.name in disk.state.tables.events && ValidPeriod(period)
      modifies mem
      ensures Valid()
      ensures mem.State() == PutBuffer(old(mem.State()), Reach(config, period), bits, mem.sizeOf)
      ensures Live() == old(Live()) + Cells(Reach(config, period), bits)
    {
      PutAt(mem, config, period, bits);
      PutRows(disk.state, old(mem.bitmaps), old(mem.deltas), Reach(config, period), bits);
      ReachIsStorable(disk.state.tables.events, config, period);
    }

    /** Everything a put checks and prepares before it touches the buffer. */
    method AdmitPut(event: string, period: Period, now: u64, ghost bits: set<u32>) returns (r: Result<EventConfig>)
      requires Valid()
      modifies disk
      ensures Valid() && Live() == old(Live()) && Durable() == old(Durable())
      ensures NextId() == old(NextId()) && Load() == old(Load())
      ensures r == PutConfig(settings, old(disk.state.tables.events), event, period)
      ensures r.Ok? ==> ValidPeriod(period) && r.value.name in disk.state.tables.events && r.value.name == event
      ensures PutSpec(settings, old(Abs()), event, period, bits) ==
        if r.Err? then (Abs(), Err(r.error))
        else (Abs().(live := Live() + Cells(Reach(r.value, period), bits)), Ok(()))
      ensures Marks() ==
        if r.Ok? && ClosedAt(period, now) then Reverted(old(Marks()), {Key(event, period)}) else old(Marks())
      ensures Kept(old(disk.recovered), disk.recovered)
    {
      hide Untidy, Rows, View, Cells, Reach, CacheOf, Registered, Disk.Valid, Kept, Atomic, OnDisk;
      Unchanged(disk.recovered);
      if !ValidPeriod(period) {
        return Err(InvalidPeriod);
      }
      r := EnsureRegistered(event);
      ghost var ensured := disk.recovered;
      if r.Err? {
        return;
      }
      if !period.Static? && period.Granularity() != r.value.finest {
        return Err(GranularityMismatch);
      }
      var over := IsClosed(period, now);
      if over {
        Revert(Key(event, period));
        KeptTwice(old(disk.recovered), ensured, disk.recovered);
      }
    }

    method PutBitmap(event: string, period: Period, bits: set<u32>, now: u64) returns (r: Result<()>, flushed: bool)
      requires Valid()
      modifies this`cache, this`eventNames, mem, disk
      ensures Valid()
      ensures !Writable() ==> r == Err(if closed then Closed else ReadOnly) && !flushed && Abs() == old(Abs())
      ensures Writable() && !flushed ==> (Abs(), r) == PutSpec(settings, old(Abs()), event, period, bits)
      ensures Writable() && flushed ==>
        var (m1, r1) := PutSpec(settings, old(Abs()), event, period, bits);
        r1.Ok? && (Abs(), r) == FlushSpec(m1, r.Ok?)
      ensures r.Ok? ==> forall q, bit ::
        q in ShownAt(settings, old(disk.state.tables.events), event, period) && bit in bits ==>
          Row(event, q, bit) in Live()
      ensures flushed <==> Writable() && PutConfig(settings, old(disk.state.tables.events), event, period).Ok? &&
                           old(AfterPut(event, period, bits)).size >= settings.flushThreshold
      ensures !flushed ==> mem.State() == if Writable() then old(AfterPut(event, period, bits)) else old(mem.State())
      ensures !flushed ==> NextId() == old(NextId())
      ensures !flushed && r.Err? ==> Marks() == old(Marks())
      ensures flushed || r.Ok? ==>
        var marks := if ClosedAt(period, now) then Reverted(old(Marks()), {Key(event, period)}) else old(Marks());
        Marks() == if flushed && r.Ok? then Opened(marks, old(AfterPut(event, period, bits)).bitmaps.Keys) else marks
      ensures !flushed || r.Err? ==> cache == old(cache) && eventNames == old(eventNames)
      ensures flushed ==>
        var entries := old(AfterPut(event, period, bits)).Entries();
        (r.Ok? <==> old(NextId()) + entries < U64_LIMIT) && NextId() == old(NextId()) + if r.Ok? then entries else 0
      ensures Load() <= old(Load()) + 2 * MAX_REACH
      ensures flushed && r.Err? ==> old(Load()) + 2 * MAX_REACH >= U64_LIMIT
      ensures Atomic(old(disk.recovered), disk.recovered)
    {
      hide Untidy, PutBuffer, Rows, View, Cells, Reach, CacheOf, Registered, Disk.Valid, Kept, Atomic, OnDisk, Opened;
      Unchanged(disk.recovered);
      if !Writable() {
        return Err(Refusal()), false;
      }
      EventsAreCanonical();
      var admitted := AdmitPut(event, period, now, bits);
      KeptIsAtomic(old(disk.recovered), disk.recovered);
      if admitted.Err? {
        return Err(admitted.error), false;
      }
      ghost var ready := disk.recovered;
      r, flushed := PutAdmitted(admitted.value, period, bits, now);
      KeptThenAtomic(old(disk.recovered), ready, disk.recovered);
      if r.Ok? {
        PutShows(settings, old(Abs()), event, period, bits);
      }
    }

    /** The admitted part of the write: it is buffered, and the buffer flushed if that filled it. */
    method PutAdmitted(config: EventConfig, period: Period, bits: set<u32>, now: u64)
      returns (r: Result<()>, flushed: bool)
      requires Valid() && config.name in disk.state.tables.events && ValidPeriod(period)
      modifies this`cache, this`eventNames, mem, disk
      ensures Valid()
      ensures var b := PutBuffer(old(mem.State()), Reach(config, period), bits, mem.sizeOf);
        && (flushed <==> b.size >= settings.flushThreshold)
        && (!flushed ==> mem.State() == b)
        && Marks() == (if flushed && r.Ok? then Opened(old(Marks()), b.bitmaps.Keys) else old(Marks()))
        && (flushed ==> (r.Ok? <==> old(NextId()) + b.Entries() < U64_LIMIT))
        && NextId() == old(NextId()) + if flushed && r.Ok? then b.Entries() else 0
      ensures Load() <= old(Load()) + 2 * MAX_REACH
      ensures flushed && r.Err? ==> old(Load()) + 2 * MAX_REACH >= U64_LIMIT
      ensures !flushed || r.Err? ==> cache == old(cache) && eventNames == old(eventNames)
      ensures var m := old(Abs()).(live := old(Live()) + Cells(Reach(config, period), bits));
        if flushed then (Abs(), r) == FlushSpec(m, r.Ok?) else (Abs(), r) == (m, Ok(()))
      ensures Atomic(old(disk.recovered), disk.recovered)
    {
      hide Untidy, PutBuffer, Kept, Atomic, OnDisk;
      BufferPut(config, period, bits);
      ReachEntries(old(mem.State()), config, period, bits, mem.sizeOf);
      r, flushed := AutoFlush(now);
    }

    /** A compacted key is marked closed again before it takes new data. */
    method Revert(k: Key)
      requires Valid()
      modifies disk
      ensures Valid() && NextId() == old(NextId()) && Load() == old(Load())
      ensures disk.state.tables == old(disk.state.tables).(
              periodState := Reverted(old(disk.state.tables.periodState), {k}))
      ensures Live() == old(Live()) && Durable() == old(Durable())
      ensures Kept(old(disk.recovered), disk.recovered)
    {
      hide Kept, Atomic, Untidy, Rows, View, OnDisk, Disk.Valid, CacheOf, Registered, Reverted;
      ghost var earlier := disk.recovered;
      Unchanged(earlier);
      disk.RecoversNow();
      OneReverted(disk.state.tables.periodState, k);
      if k in disk.state.tables.periodState && disk.state.tables.periodState[k] == Compacted {
        disk.Do(MarkState(k, ClosedPeriod));
        ghost var staged := disk.recovered;
        disk.Do(Commit);
        SameLoad(old(disk.state), disk.state);
        RowsOfSameView(old(disk.state), disk.state, mem.bitmaps, mem.deltas);
        CacheFollowsView(old(disk.state), disk.state);
        disk.RecoversNow();
        KeptThenAtomic(earlier, staged, disk.recovered);
        AtomicIsKept(earlier, disk.recovered);
      }
    }

    /** Buffers a removal at a period and its rollup ancestors. */
    method BufferRemoval(config: EventConfig, period: Period, bits: set<u32>)
      requires Valid() && config.name in disk.state.tables.events && ValidPeriod(period)
      modifies mem
      ensures Valid()
      ensures mem.State() == RemoveBuffer(old(mem.State()), Reach(config, period), bits, mem.sizeOf)
      ensures Live() == old(Live()) - Cells(Reach(config, period), bits)
    {
      RemoveAt(mem, config, period, bits);
      RemoveRows(disk.state, mem.bitmaps, old(mem.deltas), Reach(config, period), bits);
      ReachIsStorable(disk.state.tables.events, config, period);
    }

    method RemoveBits(event: string, period: Period, bits: set<u32>) returns (r: Result<()>)
      requires Valid()
      modifies mem, disk
      ensures Valid()
      ensures !Writable() ==> r == Err(if closed then Closed else ReadOnly) && Abs() == old(Abs())
      ensures Writable() ==> (Abs(), r) == RemoveSpec(settings, old(Abs()), event, period, bits)
      ensures mem.State() == if Writable() then old(AfterRemove(event, period, bits)) else old(mem.State())
      ensures Marks() == old(Marks()) && NextId() == old(NextId()) && Load() <= old(Load()) + 2 * MAX_REACH
      ensures Kept(old(disk.recovered), disk.recovered)
    {
      hide Untidy, Rows, View, CacheOf, Registered, Disk.Valid, RemoveBuffer, Kept, Atomic, OnDisk;
      Unchanged(disk.recovered);
      if !Writable() {
        return Err(Refusal());
      }
      if !ValidPeriod(period) {
        return Err(InvalidPeriod);
      }
      var ensured := EnsureRegistered(event);
      if ensured.Err? {
        return Err(ensured.error);
      }
      BufferRemoval(ensured.value, period, bits);
      ReachEntries(old(mem.State()), ensured.value, period, bits, mem.sizeOf);
      r := Ok(());
    }

    method RegisterEvent(name: string, granularity: Granularity, rollup: Types.Rollup) returns (r: Result<()>)
      requires Valid()
      modifies disk
      ensures Valid()
      ensures !Writable() ==> r == Err(if closed then Closed else ReadOnly) && Abs() == old(Abs())
      ensures Writable() ==> (Abs(), r) == RegisterSpec(old(Abs()), name, granularity, rollup)
      ensures NextId() == old(NextId()) && Load() == old(Load())
      ensures Kept(old(disk.recovered), disk.recovered)
    {
      hide Untidy, Rows, View, CacheOf, Registered, Disk.Valid, Kept, Atomic, OnDisk;
      Unchanged(disk.recovered);
      if !Writable() {
        return Err(Refusal());
      }
      if !ValidEventName(name) {
        return Err(InvalidEventName);
      }
      if name in disk.state.tables.events {
        return Err(EventAlreadyRegistered);
      }
      CommitEvent(NewEventConfig(name, granularity, rollup));
      r := Ok(());
    }

    // ----- range writes -------------------------------------------------------------------

    /** Validates the bounds of a range write and enumerates its buckets. */
    method CheckedWriteRange(config: EventConfig, first: Period, last: Period) returns (r: Result<seq<Period>>)
      ensures CheckRange(config, first, last).Err? ==> r == Err(CheckRange(config, first, last).error)
      ensures CheckRange(config, first, last).Ok? ==> r == Ok(RangeBuckets(config, first, last))
    {
      if first.Static? || last.Static? || !ValidPeriod(first) || !ValidPeriod(last) {
        return Err(InvalidPeriod);
      }
      if first.Granularity() != config.finest || last.Granularity() != config.finest {
        return Err(GranularityMismatch);
      }
      if last.Less(first) {
        return Err(Configuration);
      }
      var enumerated := EnumeratePeriods(first, last);
      var ps := enumerated.value;
      if |ps| > MAX_RANGE_PERIODS {
        return Err(Configuration);
      }
      EnumerationUnique(ps, RangeBuckets(config, first, last), first, last);
      r := Ok(ps);
    }

    /** Marks every compacted bucket of a range that has closed as closed again, in one transaction. */
    method RevertAll(event: string, ps: seq<Period>, now: u64)
      requires Valid() && forall p :: p in ps ==> ValidPeriod(p)
      modifies disk
      ensures Valid() && NextId() == old(NextId()) && Load() == old(Load())
      ensures disk.state.tables == old(disk.state.tables).(
              periodState := Reverted(old(disk.state.tables.periodState), ClosedKeys(event, ps, now)))
      ensures Live() == old(Live()) && Durable() == old(Durable())
      ensures Kept(old(disk.recovered), disk.recovered)
    {
      hide Kept, Atomic, Untidy, Rows, View, OnDisk, Disk.Valid, ClosedKeys, ClosedAt, CacheOf;
      ghost var before, earlier := disk.state, disk.recovered;
      Unchanged(earlier);
      disk.RecoversNow();
      NoneClosed(before.tables.periodState, event, ps, now);
      for i := 0 to |ps|
        invariant disk.Valid() && Kept(earlier, disk.recovered)
        invariant disk.state.tables == before.tables && disk.state.files == before.files
        invariant disk.state.txn == before.txn.(
                  periodState := Reverted(before.tables.periodState, ClosedKeys(event, ps[..i], now)))
        invariant disk.state.cursor == before.cursor
        invariant forall k :: Pending(disk.state, k) == Pending(before, k)
      {
        var over := IsClosed(ps[i], now);
        var k := Key(event, ps[i]);
        ghost var sofar := disk.recovered;
        OneMoreClosed(before.tables.periodState, event, ps, i, now);
        if over && k in disk.state.tables.periodState && disk.state.tables.periodState[k] == Compacted {
          disk.Do(MarkState(k, ClosedPeriod));
          KeptTwice(earlier, sofar, disk.recovered);
        }
      }
      assert ps[..|ps|] == ps;
      ghost var staged := disk.recovered;
      KeptIsAtomic(earlier, staged);
      if !Quiet(disk.state) {
        disk.Do(Commit);
        KeptThenAtomic(earlier, staged, disk.recovered);
      }
      SameLoad(before, disk.state);
      RowsOfSameView(before, disk.state, mem.bitmaps, mem.deltas);
      CacheFollowsView(before, disk.state);
      disk.RecoversNow();
      AtomicIsKept(earlier, disk.recovered);
    }

    /** Everything a range write checks before it touches the buffer. */
    method AdmitRange(event: string, first: Period, last: Period, ghost bits: set<u32>)
      returns (r: Result<(EventConfig, seq<Period>)>)
      requires Valid()
      modifies disk
      ensures Valid() && Live() == old(Live()) && Durable() == old(Durable())
      ensures NextId() == old(NextId()) && Load() == old(Load()) && Marks() == old(Marks())
      ensures var admitted := RangeConfig(settings, old(disk.state.tables.events), event, first, last);
        if admitted.Err? then r == Err(admitted.error)
        else r == Ok((admitted.value, RangeBuckets(admitted.value, first, last)))
      ensures r.Err? ==>
        && PutRangeSpec(settings, old(Abs()), event, first, last, bits) == (Abs(), Err(r.error))
        && RemoveRangeSpec(settings, old(Abs()), event, first, last, bits) == (Abs(), Err(r.error))
      ensures r.Ok? ==>
        var cells := Cells(RangeReach(r.value.0, r.value.1), bits);
        && r.value.0.name in disk.state.tables.events && r.value.0.name == event
        && (forall p :: p in r.value.1 ==> ValidPeriod(p)) && |r.value.1| <= MAX_RANGE_PERIODS
        && PutRangeSpec(settings, old(Abs()), event, first, last, bits) == (Abs().(live := Live() + cells), Ok(()))
        && RemoveRangeSpec(settings, old(Abs()), event, first, last, bits) == (Abs().(live := Live() - cells), Ok(()))
      ensures Kept(old(disk.recovered), disk.recovered)
    {
      hide Untidy, Rows, View, CacheOf, Registered, Disk.Valid, Kept, Atomic, OnDisk;
      Unchanged(disk.recovered);
      var ensured := EnsureRegistered(event);
      if ensured.Err? {
        return Err(ensured.error);
      }
      var buckets := CheckedWriteRange(ensured.value, first, last);
      if buckets.Err? {
        return Err(buckets.error);
      }
      RangeCellsAre(ensured.value, first, last, buckets.value, bits);
      r := Ok((ensured.value, buckets.value));
    }

    method PutBitmapRange(event: string, first: Period, last: Period, bits: set<u32>, now: u64)
      returns (r: Result<()>, flushed: bool)
      requires Valid()
      modifies this`cache, this`eventNames, mem, disk
      ensures Valid()
      ensures !Writable() ==> r == Err(if closed then Closed else ReadOnly) && !flushed && Abs() == old(Abs())
      ensures Writable() && !flushed ==> (Abs(), r) == PutRangeSpec(settings, old(Abs()), event, first, last, bits)
      ensures Writable() && flushed ==>
        var (m1, r1) := PutRangeSpec(settings, old(Abs()), event, first, last, bits);
        r1.Ok? && (Abs(), r) == FlushSpec(m1, r.Ok?)
      ensures flushed <==>
        Writable() && RangeConfig(settings, old(disk.state.tables.events), event, first, last).Ok? && bits != {} &&
        old(AfterPutRange(event, first, last, bits)).size >= settings.flushThreshold
      ensures !flushed ==>
        mem.State() == if Writable() then old(AfterPutRange(event, first, last, bits)) else old(mem.State())
      ensures !flushed ==> NextId() == old(NextId())
      ensures !flushed && (r.Err? || bits == {}) ==> Marks() == old(Marks())
      ensures flushed || (r.Ok? && bits != {}) ==>
        var marks := Backfilled(old(Marks()), event, first, last, now);
        Marks() == if flushed && r.Ok? then Opened(marks, old(AfterPutRange(event, first, last, bits)).bitmaps.Keys)
                   else marks
      ensures !flushed || r.Err? ==> cache == old(cache) && eventNames == old(eventNames)
      ensures flushed ==>
        var entries := old(AfterPutRange(event, first, last, bits)).Entries();
        (r.Ok? <==> old(NextId()) + entries < U64_LIMIT) && NextId() == old(NextId()) + if r.Ok? then entries else 0
      ensures Load() <= old(Load()) + 2 * MAX_REACH * MAX_RANGE_PERIODS
      ensures flushed && r.Err? ==> old(Load()) + 2 * MAX_REACH * MAX_RANGE_PERIODS >= U64_LIMIT
      ensures Atomic(old(disk.recovered), disk.recovered)
    {
      hide Untidy, PutRangeBuffer, RangeBuckets, Rows, View, Cells, RangeReach, CacheOf, RangeCells, Registered, Opened;
      hide Disk.Valid, Kept, Atomic, OnDisk;
      Unchanged(disk.recovered);
      if !Writable() {
        return Err(Refusal()), false;
      }
      var admitted := AdmitRange(event, first, last, bits);
      KeptIsAtomic(old(disk.recovered), disk.recovered);
      ghost var checked := disk.recovered;
      if admitted.Err? {
        return Err(admitted.error), false;
      }
      if bits == {} {
        NoCells(RangeReach(admitted.value.0, admitted.value.1), Live());
        return Ok(()), false;
      }
      BackfilledIsReverted(Marks(), event, first, last, admitted.value.1, now);
      RevertAll(event, admitted.value.1, now);
      ghost var ready := disk.recovered;
      KeptTwice(old(disk.recovered), checked, ready);
      r, flushed := PutRangeAdmitted(admitted.value.0, admitted.value.1, bits, now);
      KeptThenAtomic(old(disk.recovered), ready, disk.recovered);
    }

    /** The admitted part of the write: it is buffered, and the buffer flushed if that filled it. */
    method PutRangeAdmitted(config: EventConfig, ps: seq<Period>, bits: set<u32>, now: u64)
      returns (r: Result<()>, flushed: bool)
      requires Valid() && config.name in disk.state.tables.events && (forall p :: p in ps ==> ValidPeriod(p)) &&
        |ps| <= MAX_RANGE_PERIODS
      modifies this`cache, this`eventNames, mem, disk
      ensures Valid()
      ensures var b := PutRangeBuffer(old(mem.State()), config, ps, bits, mem.sizeOf);
        && (flushed <==> b.size >= settings.flushThreshold)
        && (!flushed ==> mem.State() == b)
        && Marks() == (if flushed && r.Ok? then Opened(old(Marks()), b.bitmaps.Keys) else old(Marks()))
        && (flushed ==> (r.Ok? <==> old(NextId()) + b.Entries() < U64_LIMIT))
        && NextId() == old(NextId()) + if flushed && r.Ok? then b.Entries() else 0
      ensures Load() <= old(Load()) + 2 * MAX_REACH * MAX_RANGE_PERIODS
      ensures flushed && r.Err? ==> old(Load()) + 2 * MAX_REACH * MAX_RANGE_PERIODS >= U64_LIMIT
      ensures !flushed || r.Err? ==> cache == old(cache) && eventNames == old(eventNames)
      ensures var m := old(Abs()).(live := old(Live()) + Cells(RangeReach(config, ps), bits));
        if flushed then (Abs(), r) == FlushSpec(m, r.Ok?) else (Abs(), r) == (m, Ok(()))
      ensures Atomic(old(disk.recovered), disk.recovered)
    {
      hide Untidy, PutRangeBuffer, Kept, Atomic, OnDisk;
      BufferPutRange(config, ps, bits);
      RangeEntries(old(mem.State()), config, ps, bits, mem.sizeOf);
      r, flushed := AutoFlush(now);
    }

    method BufferPutRange(config: EventConfig, ps: seq<Period>, bits: set<u32>)
      requires Valid() && config.name in disk.state.tables.events && forall p :: p in ps ==> ValidPeriod(p)
      modifies mem
      ensures Valid()
      ensures mem.State() == PutRangeBuffer(old(mem.State()), config, ps, bits, mem.sizeOf)
      ensures Live() == old(Live()) + Cells(RangeReach(config, ps), bits)
    {
      PutRangeAt(mem, config, ps, bits);
      RangeReachSplits(config, ps);
      PutRows(disk.state, old(mem.bitmaps), old(mem.deltas), RangeReach(config, ps), bits);
      RangeReachIsStorable(disk.state.tables.events, config, ps);
    }

    method RemoveBitsRange(event: string, first: Period, last: Period, bits: set<u32>, now: u64)
      returns (r: Result<()>, flushed: bool)
      requires Valid()
      modifies this`cache, this`eventNames, mem, disk
      ensures Valid()
      ensures !Writable() ==> r == Err(if closed then Closed else ReadOnly) && !flushed && Abs() == old(Abs())
      ensures Writable() && !flushed ==> (Abs(), r) == RemoveRangeSpec(settings, old(Abs()), event, first, last, bits)
      ensures Writable() && flushed ==>
        var (m1, r1) := RemoveRangeSpec(settings, old(Abs()), event, first, last, bits);
        r1.Ok? && (Abs(), r) == FlushSpec(m1, r.Ok?)
      ensures flushed <==>
        Writable() && RangeConfig(settings, old(disk.state.tables.events), event, first, last).Ok? && bits != {} &&
        old(AfterRemoveRange(event, first, last, bits)).size >= settings.flushThreshold
      ensures !flushed ==>
        mem.State() == if Writable() then old(AfterRemoveRange(event, first, last, bits)) else old(mem.State())
      ensures !flushed ==> NextId() == old(NextId())
      ensures Marks() ==
        if flushed && r.Ok? then Opened(old(Marks()), old(AfterRemoveRange(event, first, last, bits)).bitmaps.Keys)
        else old(Marks())
      ensures !flushed || r.Err? ==> cache == old(cache) && eventNames == old(eventNames)
      ensures flushed ==>
        var entries := old(AfterRemoveRange(event, first, last, bits)).Entries();
        (r.Ok? <==> old(NextId()) + entries < U64_LIMIT) && NextId() == old(NextId()) + if r.Ok? then entries else 0
      ensures Load() <= old(Load()) + 2 * MAX_REACH * MAX_RANGE_PERIODS
      ensures flushed && r.Err? ==> old(Load()) + 2 * MAX_REACH * MAX_RANGE_PERIODS >= U64_LIMIT
      ensures Atomic(old(disk.recovered), disk.recovered)
    {
      hide Untidy, RemoveBuffer, RangeBuckets, Rows, View, Cells, RangeReach, CacheOf, RangeCells, Registered, Opened;
      hide Disk.Valid, Kept, Atomic, OnDisk;
      Unchanged(disk.recovered);
      if !Writable() {
        return Err(Refusal()), false;
      }
      var admitted := AdmitRange(event, first, last, bits);
      KeptIsAtomic(old(disk.recovered), disk.recovered);
      ghost var ready := disk.recovered;
      if admitted.Err? {
        return Err(admitted.error), false;
      }
      if bits == {} {
        NoCells(RangeReach(admitted.value.0, admitted.value.1), Live());
        return Ok(()), false;
      }
      r, flushed := RemoveRangeAdmitted(admitted.value.0, admitted.value.1, bits, now);
      KeptThenAtomic(old(disk.recovered), ready, disk.recovered);
    }

    /** The admitted part of the write: it is buffered, and the buffer flushed if that filled it. */
    method RemoveRangeAdmitted(config: EventConfig, ps: seq<Period>, bits: set<u32>, now: u64)
      returns (r: Result<()>, flushed: bool)
      requires Valid() && config.name in disk.state.tables.events && (forall p :: p in ps ==> ValidPeriod(p)) &&
        |ps| <= MAX_RANGE_PERIODS
      modifies this`cache, this`eventNames, mem, disk
      ensures Valid()
      ensures var b := RemoveBuffer(old(mem.State()), RangeReach(config, ps), bits, mem.sizeOf);
        && (flushed <==> b.size >= settings.flushThreshold)
        && (!flushed ==> mem.State() == b)
        && Marks() == (if flushed && r.Ok? then Opened(old(Marks()), b.bitmaps.Keys) else old(Marks()))
        && (flushed ==> (r.Ok? <==> old(NextId()) + b.Entries() < U64_LIMIT))
        && NextId() == old(NextId()) + if flushed && r.Ok? then b.Entries() else 0
      ensures Load() <= old(Load()) + 2 * MAX_REACH * MAX_RANGE_PERIODS
      ensures flushed && r.Err? ==> old(Load()) + 2 * MAX_REACH * MAX_RANGE_PERIODS >= U64_LIMIT
      ensures !flushed || r.Err? ==> cache == old(cache) && eventNames == old(eventNames)
      ensures var m := old(Abs()).(live := old(Live()) - Cells(RangeReach(config, ps), bits));
        if flushed then (Abs(), r) == FlushSpec(m, r.Ok?) else (Abs(), r) == (m, Ok(()))
      ensures Atomic(old(disk.recovered), disk.recovered)
    {
      hide Untidy, RemoveBuffer, Kept, Atomic, OnDisk;
      BufferRemovalRange(config, ps, bits);
      RangeEntries(old(mem.State()), config, ps, bits, mem.sizeOf);
      r, flushed := AutoFlush(now);
    }

    method BufferRemovalRange(config: EventConfig, ps: seq<Period>, bits: set<u32>)
      requires Valid() && config.name in disk.state.tables.events && forall p :: p in ps ==> ValidPeriod(p)
      modifies mem
      ensures Valid()
      ensures mem.State() == RemoveBuffer(old(mem.State()), RangeReach(config, ps), bits, mem.sizeOf)
      ensures Live() == old(Live()) - Cells(RangeReach(config, ps), bits)
    {
      RemoveRangeAt(mem, config, ps, bits);
      RemoveRows(disk.state, mem.bitmaps, old(mem.deltas), RangeReach(config, ps), bits);
      RangeReachIsStorable(disk.state.tables.events, config, ps);
    }

    // ----- replacing and deleting -----------------------------------------------------------

    /** Clears away superseded files once the cache no longer depends on them. */
    method Sweep(paths: set<Path>)
      requires disk.Valid() && Quiet(disk.state)
      requires forall p :: p in paths ==> p.partId !in disk.state.tables.parts
      requires cache == CacheOf(disk.state.tables, disk.state.files)
      modifies disk
      ensures disk.Valid() && Quiet(disk.state)
      ensures disk.state.tables == old(disk.state.tables) && Kept(old(disk.recovered), disk.recovered)
      ensures cache == CacheOf(disk.state.tables, disk.state.files)
      ensures forall k :: Committed(disk.state, k) == Committed(old(disk.state), k)
      ensures forall p :: p in disk.state.files <==> p in old(disk.state.files) && p !in paths
      ensures Live() == old(Live()) && Durable() == old(Durable())
    {
      hide Kept, Atomic, OnDisk;
      ghost var before := disk.state;
      DeleteFiles(disk, paths);
      RowsOfSameView(before, disk.state, mem.bitmaps, mem.deltas);
      CacheFollowsView(before, disk.state);
    }

    /** Makes one part the whole of a key, rebuilds the cache and clears away what it supersedes. */
    method Install(k: Key, bits: set<u32>, state: PeriodState, level: u8, now: u64) returns (r: Result<()>)
      requires Valid() && k.event in disk.state.tables.events && ValidPeriod(k.period)
      modifies this`cache, this`eventNames, disk
      ensures Valid() && disk.state.tables.events == old(disk.state.tables.events)
      ensures r == if old(disk.state.tables.nextPartId) + 1 < U64_LIMIT then Ok(()) else Err(CatalogCorrupted)
      ensures r.Err? ==> disk.state == old(disk.state) && disk.recovered == old(disk.recovered)
      ensures r.Ok? ==> Atomic(old(disk.recovered), disk.recovered)
      ensures r.Ok? ==> Committed(disk.state, k) == bits
      ensures r.Ok? ==> forall q :: q != k ==> Committed(disk.state, q) == Committed(old(disk.state), q)
      ensures r.Ok? ==> Single(disk.state.tables, k) && SameBut(old(disk.state.tables), disk.state.tables, {k})
      ensures r.Ok? ==> Marked(old(disk.state.tables), disk.state.tables, k, state, level)
      ensures r.Ok? ==>
        Swept(old(disk.state.files), disk.state.files, KeyFiles(old(disk.state.tables), k))
      ensures NextId() == old(NextId()) + if r.Ok? then 1 else 0
    {
      hide Kept, Atomic, OnDisk, Marked, Single, SameBut, FilesOf, Rows, View;
      var stale := FilesOf(disk.state.tables, KeyIds(disk.state.tables, k));
      r := ReplaceKey(disk, k, bits, state, now, level, mem.sizeOf);
      if r.Ok? {
        ghost var replaced := disk.recovered;
        RebuildReadIndex();
        Sweep(stale);
        AtomicThenKept(old(disk.recovered), replaced, disk.recovered);
      }
    }

    method ReplaceBitmap(event: string, period: Period, bits: set<u32>, now: u64) returns (r: Result<()>)
      requires Valid()
      modifies this`cache, this`eventNames, mem, disk
      ensures Valid()
      ensures !Writable() ==> r == Err(if closed then Closed else ReadOnly) && Abs() == old(Abs())
      ensures Writable() ==>
        (Abs(), r) == ReplaceSpec(settings, old(Abs()), event, period, bits, r != Err(CatalogCorrupted))
      ensures r == Err(CatalogCorrupted) ==> old(NextId()) + 1 >= U64_LIMIT
      ensures r.Ok? ==> old(NextId()) + 1 < U64_LIMIT
      ensures NextId() == old(NextId()) + (if r.Ok? then 1 else 0) && Load() <= old(Load()) + 1
      ensures r.Ok? ==>
        var k := Key(event, period);
        && Marked(old(disk.state.tables), disk.state.tables, k, old(StateOf(k)), 0)
        && Swept(old(disk.state.files), disk.state.files, KeyFiles(old(disk.state.tables), k))
      ensures Atomic(old(disk.recovered), disk.recovered)
    {
      hide Untidy, Rows, View, CacheOf, Registered, Disk.Valid, Kept, Atomic, OnDisk;
      Unchanged(disk.recovered);
      if !Writable() {
        return Err(Refusal());
      }
      if !ValidPeriod(period) {
        return Err(InvalidPeriod);
      }
      var ensured := EnsureRegistered(event);
      ghost var ready := disk.recovered;
      KeptIsAtomic(old(disk.recovered), ready);
      if ensured.Err? {
        return Err(ensured.error);
      }
      r := DiscardAndInstall(Key(event, period), bits, now);
      KeptThenAtomic(old(disk.recovered), ready, disk.recovered);
    }

    /** Replaces a key; if no id is left the pending changes of the key are already gone. */
    method DiscardAndInstall(k: Key, bits: set<u32>, now: u64) returns (r: Result<()>)
      requires Valid() && k.event in disk.state.tables.events && ValidPeriod(k.period)
      modifies this`cache, this`eventNames, mem, disk
      ensures Valid()
      ensures r == if old(NextId()) + 1 < U64_LIMIT then Ok(()) else Err(CatalogCorrupted)
      ensures NextId() == old(NextId()) + (if r.Ok? then 1 else 0) && Load() <= old(Load()) + 1
      ensures r.Err? ==> Abs() == FallBack(old(Abs()), {k}) && disk.recovered == old(disk.recovered)
      ensures r.Ok? ==>
        var m := old(Abs()); Abs() == m.(live := Overwrite(m.live, k, bits), durable := Overwrite(m.durable, k, bits))
      ensures r.Ok? ==> Marked(old(disk.state.tables), disk.state.tables, k, old(StateOf(k)), 0)
      ensures r.Ok? ==>
        Swept(old(disk.state.files), disk.state.files, KeyFiles(old(disk.state.tables), k))
      ensures Atomic(old(disk.recovered), disk.recovered)
    {
      hide Untidy, Rows, View, CacheOf, Kept, Atomic, OnDisk;
      Unchanged(disk.recovered);
      ghost var before, bitmaps, deltas := disk.state, mem.bitmaps, mem.deltas;
      mem.Discard({k});
      DiscardRows(disk.state, bitmaps, deltas, {k});
      r := Install(k, bits, StateOf(k), 0, now);
      if r.Ok? {
        ReplacedRows(before, disk.state, bitmaps, deltas, k, bits);
        UntidyShrinks(before.tables, disk.state.tables, {k});
      }
      FewerEntries(bitmaps, deltas, {k});
    }

    method DeletePeriod(event: string, period: Period) returns (r: Result<()>)
      requires Valid()
      modifies this`cache, this`eventNames, mem, disk
      ensures Valid()
      ensures !Writable() ==> r == Err(if closed then Closed else ReadOnly) && Abs() == old(Abs())
      ensures Writable() ==> (Abs(), r) == DeletePeriodSpec(old(Abs()), event, period)
      ensures event !in old(disk.state.tables.events) ==> Durable() == old(Durable())
      ensures r.Ok? && event in old(disk.state.tables.events) ==>
        Swept(old(disk.state.files), disk.state.files, KeyFiles(old(disk.state.tables), Key(event, period)))
      ensures NextId() == old(NextId()) && Load() <= old(Load())
      ensures Atomic(old(disk.recovered), disk.recovered)
    {
      hide Kept, Atomic, OnDisk;
      Unchanged(disk.recovered);
      if !Writable() {
        return Err(Refusal());
      }
      if !ValidEventName(event) {
        return Err(InvalidEventName);
      }
      DiscardAndErase(Key(event, period));
      r := Ok(());
    }

    method DiscardAndErase(k: Key)
      requires Valid()
      modifies this`cache, this`eventNames, mem, disk
      ensures Valid()
      ensures var m := old(Abs()); Abs() == m.(live := m.live - RowsOf({k}), durable := m.durable - RowsOf({k}))
      ensures k.event !in old(disk.state.tables.events) ==> Durable() == old(Durable())
      ensures k.event in old(disk.state.tables.events) ==>
        Swept(old(disk.state.files), disk.state.files, KeyFiles(old(disk.state.tables), k))
      ensures NextId() == old(NextId()) && Load() <= old(Load())
      ensures Atomic(old(disk.recovered), disk.recovered)
    {
      hide Untidy, Rows, View, OnDisk, FilesOf, CacheOf, Disk.Valid, Kept, Atomic, Catalog.DeletePeriod, Committed;
      hide Sound, Registered;
      ghost var before, bitmaps, deltas := disk.state, mem.bitmaps, mem.deltas;
      FewerStayRegistered(before.tables.events, bitmaps, {k});
      FewerStayRegistered(before.tables.events, deltas, {k});
      mem.Discard({k});
      Unchanged(disk.recovered);
      FewerEntries(bitmaps, deltas, {k});
      if k.event !in disk.state.tables.events {
        disk.StateIsSound();
        UnregisteredKey(before, bitmaps, deltas, k);
        return;
      }
      var stale := FilesOf(disk.state.tables, KeyIds(disk.state.tables, k));
      EraseKey(disk, k);
      ghost var erased := disk.recovered;
      ErasedRows(before, disk.state, bitmaps, deltas, {k});
      ErasedIsTidy(before.tables, k);
      RebuildReadIndex();
      Sweep(stale);
      AtomicThenKept(old(disk.recovered), erased, disk.recovered);
    }

    method DropEvent(name: string) returns (r: Result<()>)
      requires Valid()
      modifies this`cache, this`eventNames, mem, disk
      ensures Valid()
      ensures !Writable() ==> r == Err(if closed then Closed else ReadOnly) && Abs() == old(Abs())
      ensures Writable() ==> (Abs(), r) == DropEventSpec(old(Abs()), name)
      ensures r.Ok? ==> disk.state.tables == Catalog.DeleteEvent(old(disk.state.tables), name)
      ensures r.Ok? ==> forall p :: p in disk.state.files <==>
        p in old(disk.state.files) &&
        p !in FilesOf(old(disk.state.tables), EventDataIds(old(disk.state.tables), name))
      ensures NextId() == old(NextId()) && Load() <= old(Load())
      ensures Atomic(old(disk.recovered), disk.recovered)
    {
      hide Kept, Atomic, OnDisk;
      Unchanged(disk.recovered);
      if !Writable() {
        return Err(Refusal());
      }
      if !ValidEventName(name) {
        return Err(InvalidEventName);
      }
      DiscardAndDrop(name);
      r := Ok(());
    }

    method DiscardAndDrop(name: string)
      requires Valid()
      modifies this`cache, this`eventNames, mem, disk
      ensures Valid() && disk.state.tables == Catalog.DeleteEvent(old(disk.state.tables), name)
      ensures forall p :: p in disk.state.files <==>
        p in old(disk.state.files) &&
        p !in FilesOf(old(disk.state.tables), EventDataIds(old(disk.state.tables), name))
      ensures NextId() == old(NextId()) && Load() <= old(Load())
      ensures Live() == old(Live()) - RowsOfEvent(name) && Durable() == old(Durable()) - RowsOfEvent(name)
      ensures Atomic(old(disk.recovered), disk.recovered)
    {
      hide Untidy, FilesOf, EventDataIds, Catalog.DeleteEvent, Rows, View, CacheOf, Disk.Valid, Kept, Atomic, OnDisk;
      var stale := FilesOf(disk.state.tables, EventDataIds(disk.state.tables, name));
      EraseRows(name);
      ghost var erased := disk.recovered;
      RebuildReadIndex();
      Sweep(stale);
      AtomicThenKept(old(disk.recovered), erased, disk.recovered);
    }

    /** The event goes from the buffer and, in one transaction, from the catalog. */
    method EraseRows(name: string)
      requires Valid()
      modifies mem, disk
      ensures disk.Valid() && Quiet(disk.state) && disk.state.files == old(disk.state.files)
      ensures disk.state.tables == Catalog.DeleteEvent(old(disk.state.tables), name)
      ensures Registered(disk.state.tables.events, mem.bitmaps) && Registered(disk.state.tables.events, mem.deltas)
      ensures forall p :: p in FilesOf(old(disk.state.tables), EventDataIds(old(disk.state.tables), name)) ==>
        p.partId !in disk.state.tables.parts
      ensures NextId() == old(NextId()) && Load() <= old(Load())
      ensures Live() == old(Live()) - RowsOfEvent(name) && Durable() == old(Durable()) - RowsOfEvent(name)
      ensures Atomic(old(disk.recovered), disk.recovered)
    {
      hide Untidy, FilesOf, EventDataIds, Catalog.DeleteEvent, Rows, View, CacheOf, KeysOfEvent, Sound, Kept, Atomic;
      hide OnDisk;
      ghost var before, bitmaps, deltas := disk.state, mem.bitmaps, mem.deltas;
      FewerEntries(bitmaps, deltas, KeysOfEvent(bitmaps, deltas, name));
      mem.Discard(KeysOfEvent(mem.bitmaps, mem.deltas, name));
      EraseAll(disk, name);
      DroppedIsTidy(before.tables, name);
      OthersStayRegistered(before.tables.events, bitmaps, deltas, name);
      DroppedRows(before, disk.state, bitmaps, deltas, mem.bitmaps, mem.deltas, name);
    }

    method BulkReplace(event: string, entries: Entries, now: u64) returns (r: Result<()>)
      requires Valid()
      modifies this`cache, this`eventNames, mem, disk
      ensures Valid()
      ensures !Writable() ==> r == Err(if closed then Closed else ReadOnly) && Abs() == old(Abs())
      ensures Writable() ==>
        (Abs(), r) == BulkReplaceSpec(settings, old(Abs()), event, entries, r != Err(CatalogCorrupted))
      ensures r == Err(CatalogCorrupted) ==> old(NextId()) + |entries| >= U64_LIMIT
      ensures r.Ok? ==> old(NextId()) + |entries| < U64_LIMIT
      ensures NextId() == old(NextId()) + (if r.Ok? then |entries| else 0) && Load() <= old(Load()) + |entries|
      ensures r.Ok? ==> Renewed(old(disk.state.tables), disk.state.tables, EntryKeys(event, entries))
      ensures r.Ok? ==>
        Swept(old(disk.state.files), disk.state.files, EntryFiles(old(disk.state.tables), event, entries))
      ensures Atomic(old(disk.recovered), disk.recovered)
    {
      hide Untidy, Rows, View, CacheOf, Registered, Disk.Valid, Kept, Atomic, OnDisk, EntryFiles, Swept, Opened, AtZero;
      Unchanged(disk.recovered);
      if !Writable() {
        return Err(Refusal());
      }
      for i := 0 to |entries|
        invariant forall j :: 0 <= j < i ==> ValidPeriod(entries[j].0)
      {
        if !ValidPeriod(entries[i].0) {
          return Err(InvalidPeriod);
        }
      }
      var ensured := EnsureRegistered(event);
      ghost var ready := disk.recovered;
      KeptIsAtomic(old(disk.recovered), ready);
      if ensured.Err? {
        return Err(ensured.error);
      }
      SameEntryFiles(old(disk.state.tables), disk.state.tables, event, entries);
      r := DiscardAndInstallAll(event, entries, now);
      KeptThenAtomic(old(disk.recovered), ready, disk.recovered);
    }

    method DiscardAndInstallAll(event: string, entries: Entries, now: u64) returns (r: Result<()>)
      requires Valid() && event in disk.state.tables.events
      requires forall i :: 0 <= i < |entries| ==> ValidPeriod(entries[i].0)
      modifies this`cache, this`eventNames, mem, disk
      ensures Valid()
      ensures r == if old(NextId()) + |entries| < U64_LIMIT then Ok(()) else Err(CatalogCorrupted)
      ensures NextId() == old(NextId()) + (if r.Ok? then |entries| else 0) && Load() <= old(Load()) + |entries|
      ensures r.Err? ==>
        Abs() == FallBack(old(Abs()), EntryKeys(event, entries)) && disk.recovered == old(disk.recovered)
      ensures r.Ok? ==>
        var m := old(Abs());
        Abs() == m.(live := OverwriteAll(m.live, event, entries), durable := OverwriteAll(m.durable, event, entries))
      ensures r.Ok? ==> Renewed(old(disk.state.tables), disk.state.tables, EntryKeys(event, entries))
      ensures r.Ok? ==>
        Swept(old(disk.state.files), disk.state.files, EntryFiles(old(disk.state.tables), event, entries))
      ensures Atomic(old(disk.recovered), disk.recovered)
    {
      hide Untidy, Rows, View, CacheOf, Kept, Atomic, OnDisk, EntryFiles, Renewed, Disk.Valid;
      Unchanged(disk.recovered);
      ghost var before, bitmaps, deltas := disk.state, mem.bitmaps, mem.deltas;
      mem.Discard(EntryKeys(event, entries));
      FewerEntries(bitmaps, deltas, EntryKeys(event, entries));
      DiscardRows(disk.state, bitmaps, deltas, EntryKeys(event, entries));
      var stale := EntryFiles(disk.state.tables, event, entries);
      r := ReplaceMany(disk, event, entries, now, mem.sizeOf);
      ghost var replaced := disk.recovered;
      if r.Ok? {
        ReplacedAllRows(before, disk.state, bitmaps, deltas, event, entries);
        UntidyShrinks(before.tables, disk.state.tables, EntryKeys(event, entries));
        RebuildReadIndex();
        Sweep(stale);
        AtomicThenKept(old(disk.recovered), replaced, disk.recovered);
      }
    }

    // ----- reading ----------------------------------------------------------------------------

    method Get(event: string, period: Period) returns (r: Result<set<u32>>)
      requires Valid()
      ensures closed ==> r == Err(Closed)
      ensures !closed ==> r == Ok(Shown(disk.state, mem.bitmaps, mem.deltas, Key(event, period)))
      ensures !closed ==> forall x: u32 :: x in r.value <==> Row(event, period, x) in Live()
    {
      hide View, OnDisk, Disk.Valid;
      if closed {
        return Err(Closed);
      }
      var k := Key(event, period);
      var result: set<u32>;
      if k in cache {
        result := cache[k];
      } else {
        disk.StateIsSound();
        result := ReadKey(disk.state.tables, disk.state.files, k, disk.state.tables.nextPartId);
      }
      assert result == Committed(disk.state, k);
      if k in mem.bitmaps {
        result := result + mem.bitmaps[k];
      }
      assert result == Committed(disk.state, k) + Lookup(mem.bitmaps, k);
      if k in mem.deltas {
        result := result - mem.deltas[k];
      }
      assert result == Shown(disk.state, mem.bitmaps, mem.deltas, k);
      r := Ok(result);
    }

    /** The fast path trusts the recorded cardinality of a sole data part; it is the count of `Get`. */
    method CardinalityOf(event: string, period: Period) returns (r: Result<nat>)
      requires Valid()
      ensures closed ==> r == Err(Closed)
      ensures !closed ==> r == Ok(|Shown(disk.state, mem.bitmaps, mem.deltas, Key(event, period))|)
    {
      if closed {
        return Err(Closed);
      }
      var k := Key(event, period);
      var t := disk.state.tables;
      if k !in mem.bitmaps && k !in mem.deltas {
        if event in t.events && k in t.periodState && t.periodState[k] == Compacted {
          var data, deltas := DataIds(t, k), DeltaIds(t, k);
          if |data| == 1 && deltas == [] && data[0] in t.parts {
            disk.StateIsSound();
            SoleDataPart(disk.state, k);
            return Ok(t.parts[data[0]].cardinality);
          }
        }
      }
      var bits := Get(event, period);
      r := Ok(|bits.value|);
    }

    // ----- compaction ---------------------------------------------------------------------------

    method CompactPeriod(k: Key, now: u64) returns (r: Result<()>)
      requires Valid()
      modifies this`cache, this`eventNames, disk
      ensures Valid() && disk.state.tables.events == old(disk.state.tables.events)
      ensures Live() == old(Live()) && Durable() == old(Durable())
      ensures Kept(old(disk.recovered), disk.recovered)
      ensures k !in Untidy(old(disk.state.tables)) ==> r.Ok? && disk.state == old(disk.state)
      ensures r == Ok(()) || r == Err(CatalogCorrupted)
      ensures r.Ok? <==> k !in Untidy(old(disk.state.tables)) || old(NextId()) + 1 < U64_LIMIT
      ensures Untidy(disk.state.tables) == Untidy(old(disk.state.tables)) - if r.Ok? then {k} else {}
      ensures SameBut(old(disk.state.tables), disk.state.tables, {k} * Untidy(old(disk.state.tables)))
      ensures r.Ok? && k in Untidy(old(disk.state.tables)) ==> Single(disk.state.tables, k)
      ensures r.Ok? && k in Untidy(old(disk.state.tables)) ==>
        exists level: u8 :: HighestLevel(old(disk.state.tables), KeyIds(old(disk.state.tables), k), level) &&
          Marked(old(disk.state.tables), disk.state.tables, k, Compacted, if level < 255 then level + 1 else 255)
      ensures r.Ok? && k in Untidy(old(disk.state.tables)) ==>
        Swept(old(disk.state.files), disk.state.files, KeyFiles(old(disk.state.tables), k))
      ensures r.Ok? ==> |DataIds(disk.state.tables, k)| <= 1 && DeltaIds(disk.state.tables, k) == []
      ensures NextId() + |Untidy(disk.state.tables)| == old(NextId() + |Untidy(disk.state.tables)|)
    {
      hide Rows, View, CacheOf, Registered, OnDisk, FilesOf, WellFormed, FilesMatch, Kept, Atomic, SameBut, Single;
      hide Untidy, DataIds, DeltaIds, Marked, HighestLevel;
      Unchanged(disk.recovered);
      disk.RecoversNow();
      SameNothing(disk.state.tables, {k} * Untidy(disk.state.tables));
      var data, deltas := DataIds(disk.state.tables, k), DeltaIds(disk.state.tables, k);
      EligibleIsUntidy(disk.state.tables, k);
      if !IsEligible(|data|, |deltas|) {
        return Ok(());
      }
      disk.StateIsSound();
      ListedKeysAreValid(disk.state.tables, disk.state.tables.nextPartId, k);
      var merged := ReadKey(disk.state.tables, disk.state.files, k, disk.state.tables.nextPartId);
      var level := MaxLevel(disk.state.tables, KeyIds(disk.state.tables, k));
      r := Install(k, merged, Compacted, NextLevel(level), now);
      assert NextLevel(level) == if level < 255 then level + 1 else 255;
      if r.Ok? {
        RowsOfSameView(old(disk.state), disk.state, mem.bitmaps, mem.deltas);
        OneKeyTidied(old(disk.state.tables), disk.state.tables, k);
        EligibleIsUntidy(disk.state.tables, k);
        assert {k} * Untidy(old(disk.state.tables)) == {k};
        disk.RecoversNow();
        AtomicIsKept(old(disk.recovered), disk.recovered);
      }
    }

    /** Compacts every key of one event. */
    method CompactEvent(event: string, now: u64) returns (r: Result<()>)
      requires Valid()
      modifies this`cache, this`eventNames, disk
      ensures Valid() && disk.state.tables.events == old(disk.state.tables.events)
      ensures Live() == old(Live()) && Durable() == old(Durable())
      ensures Kept(old(disk.recovered), disk.recovered)
      ensures Untidy(old(disk.state.tables)) == {} ==> r.Ok? && disk.state == old(disk.state)
      ensures r == Ok(()) || r == Err(CatalogCorrupted)
      ensures Untidy(disk.state.tables) <= Untidy(old(disk.state.tables))
      ensures forall k :: k in Untidy(old(disk.state.tables)) - Untidy(disk.state.tables) ==> k.event == event
      ensures r.Ok? ==> forall k :: k in Untidy(disk.state.tables) ==> k.event != event
      ensures r.Ok? ==> forall k: Key :: k.event == event ==>
        |DataIds(disk.state.tables, k)| <= 1 && DeltaIds(disk.state.tables, k) == []
      ensures SameBut(old(disk.state.tables), disk.state.tables, UntidyOf(old(disk.state.tables), event))
      ensures forall k :: k in Untidy(old(disk.state.tables)) - Untidy(disk.state.tables) ==>
        Single(disk.state.tables, k)
      ensures NextId() + |Untidy(disk.state.tables)| == old(NextId() + |Untidy(disk.state.tables)|)
      ensures r.Ok? <==> old(NextId() + |UntidyOf(disk.state.tables, event)|) < U64_LIMIT
    {
      hide Rows, View, CacheOf, Registered, Disk.Valid, Kept, Atomic, OnDisk, Untidy, SameBut, Single, Progress;
      hide InoxSet.Valid;
      ghost var before := disk.state.tables;
      var todo := set k | k in ListedKeys(disk.state.tables) && k.event == event;
      r := Ok(());
      Unchanged(disk.recovered);
      NoProgress(before, event);
      while todo != {}
        invariant Valid() && r == Ok(()) && disk.state.tables.events == old(disk.state.tables.events)
        invariant Live() == old(Live()) && Durable() == old(Durable())
        invariant Kept(old(disk.recovered), disk.recovered)
        invariant Progress(before, disk.state.tables, event)
        invariant Untidy(before) == {} ==> disk.state == old(disk.state)
        invariant forall k :: k in Untidy(disk.state.tables) && k.event == event ==> k in todo
        invariant forall k :: k in todo ==> k.event == event
        decreases todo
      {
        var k :| k in todo;
        ghost var t, sofar := disk.state.tables, disk.recovered;
        r := CompactPeriod(k, now);
        KeptTwice(old(disk.recovered), sofar, disk.recovered);
        OneMoreTidied(before, t, disk.state.tables, event, k, r.Ok?);
        if r.Err? {
          Progressed(before, t, event);
          IdsRanOut(before, t, k, old(NextId()));
          Progressed(before, disk.state.tables, event);
          return;
        }
        todo := todo - {k};
      }
      Progressed(before, disk.state.tables, event);
      IdsSufficed(before, disk.state.tables, event);
      OthersAreTidy(disk.state.tables);
    }

    /** Compacts every key of every registered event. Reads and durable state do not move; when
        it succeeds no key is left with anything to merge, and a run that finds none changes nothing. */
    method Compact(now: u64) returns (r: Result<()>)
      requires Valid()
      modifies this`cache, this`eventNames, disk
      ensures Valid()
      ensures !Writable() ==> r == Err(if closed then Closed else ReadOnly) && Abs() == old(Abs())
      ensures Writable() ==> (Abs(), r) == CompactSpec(old(Abs()), r.Ok?)
      ensures Writable() ==> (r.Ok? <==> old(NextId() + |Untidy(disk.state.tables)|) < U64_LIMIT)
      ensures NextId() + |Untidy(disk.state.tables)| == old(NextId() + |Untidy(disk.state.tables)|)
      ensures r.Ok? ==> forall k :: |DataIds(disk.state.tables, k)| <= 1 && DeltaIds(disk.state.tables, k) == []
      ensures SameBut(old(disk.state.tables), disk.state.tables, Untidy(old(disk.state.tables)))
      ensures forall k :: k in Untidy(old(disk.state.tables)) - Untidy(disk.state.tables) ==>
        Single(disk.state.tables, k)
      ensures Writable() && (forall k :: Tidy(old(disk.state.tables), k)) ==> r.Ok? && disk.state == old(disk.state)
      ensures Kept(old(disk.recovered), disk.recovered)
    {
      hide Rows, View, CacheOf, Registered, Disk.Valid, Kept, Atomic, OnDisk, SameBut, Single;
      Unchanged(disk.recovered);
      SameNothing(disk.state.tables, Untidy(disk.state.tables));
      if !Writable() {
        return Err(Refusal());
      }
      var events := disk.state.tables.events.Keys;
      r := Ok(());
      while events != {}
        invariant Valid() && r == Ok(()) && disk.state.tables.events == old(disk.state.tables.events)
        invariant Live() == old(Live()) && Durable() == old(Durable())
        invariant Kept(old(disk.recovered), disk.recovered)
        invariant SameBut(old(disk.state.tables), disk.state.tables, Untidy(old(disk.state.tables)))
        invariant forall k :: k in Untidy(old(disk.state.tables)) - Untidy(disk.state.tables) ==>
          Single(disk.state.tables, k)
        invariant Untidy(disk.state.tables) <= Untidy(old(disk.state.tables))
        invariant NextId() + |Untidy(disk.state.tables)| == old(NextId() + |Untidy(disk.state.tables)|)
        invariant Untidy(old(disk.state.tables)) == {} ==> disk.state == old(disk.state)
        invariant forall k :: k in Untidy(disk.state.tables) && k.event in disk.state.tables.events ==>
          k.event in events
        decreases events
      {
        var event :| event in events;
        ghost var t, sofar := disk.state.tables, disk.recovered;
        r := CompactEvent(event, now);
        KeptTwice(old(disk.recovered), sofar, disk.recovered);
        OneMoreCompacted(old(disk.state.tables), t, disk.state.tables, UntidyOf(t, event),
                         Untidy(old(disk.state.tables)));
        if r.Err? {
          FewerOfOneEvent(t, event);
          return;
        }
        events := events - {event};
      }
      disk.StateIsSound();
      forall k
        ensures k !in Untidy(disk.state.tables)
      {
        if k in Untidy(disk.state.tables) {
          ListedKeysAreValid(disk.state.tables, disk.state.tables.nextPartId, k);
        }
      }
      OthersAreTidy(disk.state.tables);
    }

    method Flush(now: u64) returns (r: Result<()>)
      requires Valid()
      modifies this`cache, this`eventNames, mem, disk
      ensures Valid()
      ensures !Writable() ==> r == Err(if closed then Closed else ReadOnly) && Abs() == old(Abs())
      ensures Writable() ==> (Abs(), r) == FlushSpec(old(Abs()), r.Ok?)
      ensures Writable() ==> (r.Ok? <==> old(NextId() + mem.State().Entries()) < U64_LIMIT)
      ensures NextId() == old(NextId()) + if Writable() && r.Ok? then old(mem.State().Entries()) else 0
      ensures Marks() ==
        if Writable() && r.Ok? then Opened(old(Marks()), old(mem.bitmaps.Keys)) else old(Marks())
      ensures Load() <= old(Load())
      ensures Atomic(old(disk.recovered), disk.recovered)
    {
      hide Kept, Atomic, OnDisk;
      Unchanged(disk.recovered);
      if !Writable() {
        return Err(Refusal());
      }
      r := FlushInternal(now);
    }

    /** Closing flushes once; a closed store answers nothing more. */
    method Close(now: u64) returns (r: Result<()>)
      requires Valid()
      modifies this, mem, disk
      ensures Valid() && closed
      ensures old(closed) || readOnly ==> r == Ok(()) && Abs() == old(Abs())
      ensures !old(closed) && !readOnly ==> (Abs(), r) == FlushSpec(old(Abs()), r.Ok?)
      ensures !old(closed) && !readOnly ==> (r.Ok? <==> old(NextId() + mem.State().Entries()) < U64_LIMIT)
      ensures Atomic(old(disk.recovered), disk.recovered)
    {
      hide Kept, Atomic, OnDisk;
      Unchanged(disk.recovered);
      if closed {
        return Ok(());
      }
      closed := true;
      r := Ok(());
      if !readOnly {
        r := FlushInternal(now);
      }
    }
  }

  // ----- how the shown rows move ----------------------------------------------------------------

  /** A key with at most one data part and no delta: nothing left to merge. */
  predicate Tidy(t: Tables, k: Key) { |DataIds(t, k)| <= 1 && DeltaIds(t, k) == [] }

  /** The keys a compaction has work to do on. */
  ghost function Untidy(t: Tables): set<Key> { set k | k in ListedKeys(t) && !Tidy(t, k) }

  lemma OthersAreTidy(t: Tables)
    ensures forall k :: k in Untidy(t) || (|DataIds(t, k)| <= 1 && DeltaIds(t, k) == [])
  {
  }

  /** A step of compaction on top of others: `done` are the keys it may touch, `all` those all may. */
  lemma OneMoreCompacted(t: Tables, t': Tables, t'': Tables, done: set<Key>, all: set<Key>)
    requires SameBut(t, t', all) && SameBut(t', t'', done) && done <= all
    requires forall k :: k in Untidy(t) - Untidy(t') ==> Single(t', k)
    requires forall k :: k in Untidy(t') - Untidy(t'') ==> Single(t'', k)
    requires done <= Untidy(t')
    ensures SameBut(t, t'', all)
    ensures forall k :: k in Untidy(t) - Untidy(t'') ==> Single(t'', k)
  {
    SameTwice(t, t', t'', all, done);
    assert all + done == all;
    forall k | k in Untidy(t) - Untidy(t'')
      ensures Single(t'', k)
    {
      if k !in Untidy(t') {
        assert Single(t', k);
        SameLists(t', t'', done, k);
      }
    }
  }

  /** Of all keys only those of the event that were eligible have been touched, each that no longer is has one part,
      and each took one id. */
  ghost predicate Progress(t: Tables, t': Tables, event: string) {
    && SameBut(t, t', UntidyOf(t, event)) && Untidy(t') <= Untidy(t)
    && (forall k :: k in Untidy(t) - Untidy(t') ==> k.event == event && Single(t', k))
    && t'.nextPartId + |Untidy(t')| == t.nextPartId + |Untidy(t)|
  }

  /** Before anything is compacted every listed key of the event may still be eligible. */
  lemma NoProgress(t: Tables, event: string)
    ensures Progress(t, t, event) && Untidy(t) <= ListedKeys(t)
  {
    SameNothing(t, UntidyOf(t, event));
  }

  lemma OneMoreTidied(t: Tables, t': Tables, t'': Tables, event: string, k: Key, ok: bool)
    requires Progress(t, t', event) && k.event == event
    requires SameBut(t', t'', {k} * Untidy(t')) && Untidy(t'') == Untidy(t') - if ok then {k} else {}
    requires ok && k in Untidy(t') ==> Single(t'', k)
    requires t''.nextPartId + |Untidy(t'')| == t'.nextPartId + |Untidy(t')|
    ensures Progress(t, t'', event)
  {
    hide SameBut, Single, Untidy;
    OneMoreCompacted(t, t', t'', {k} * Untidy(t'), UntidyOf(t, event));
  }

  lemma Progressed(t: Tables, t': Tables, event: string)
    requires Progress(t, t', event)
    ensures SameBut(t, t', UntidyOf(t, event)) && Untidy(t') <= Untidy(t)
    ensures forall k :: k in Untidy(t) - Untidy(t') ==> k.event == event && Single(t', k)
    ensures t'.nextPartId + |Untidy(t')| == t.nextPartId + |Untidy(t)|
  {
  }

  ghost function UntidyOf(t: Tables, event: string): set<Key> { set k | k in Untidy(t) && k.event == event }

  /** The keys of the buckets that have closed. */
  function ClosedKeys(event: string, ps: seq<Period>, now: u64): set<Key> {
    set p | p in ps && ClosedAt(p, now) :: Key(event, p)
  }

  /** The marks after a write to a range: every compacted bucket that has closed is closed again. */
  ghost function Backfilled(states: map<Key, PeriodState>, event: string, first: Period, last: Period, now: u64)
    : map<Key, PeriodState>
  {
    map k | k in states ::
      if k.event == event && InRange(first, last, k.period) && ClosedAt(k.period, now) && states[k] == Compacted
      then ClosedPeriod else states[k]
  }

  lemma BackfilledIsReverted(states: map<Key, PeriodState>, event: string, first: Period, last: Period,
                             ps: seq<Period>, now: u64)
    requires ValidPeriod(first) && ValidPeriod(last) && first.Granularity() == last.Granularity() && !first.Static?
    requires Enumerates(ps, first, last)
    ensures Reverted(states, ClosedKeys(event, ps, now)) == Backfilled(states, event, first, last, now)
  {
    EnumerationIsExact(ps, first, last);
    forall k | k in states
      ensures k in ClosedKeys(event, ps, now) <==>
        k.event == event && InRange(first, last, k.period) && ClosedAt(k.period, now)
    {
      assert k.event == event ==> k == Key(event, k.period);
    }
  }

  lemma OneReverted(states: map<Key, PeriodState>, k: Key)
    ensures Reverted(states, {k}) ==
      if k in states && states[k] == Compacted then states[k := ClosedPeriod] else states
  {
  }

  lemma NoneClosed(states: map<Key, PeriodState>, event: string, ps: seq<Period>, now: u64)
    ensures Reverted(states, ClosedKeys(event, ps[..0], now)) == states
  {
  }

  lemma OneMoreClosed(states: map<Key, PeriodState>, event: string, ps: seq<Period>, i: nat, now: u64)
    requires i < |ps|
    ensures var (sofar, next) := (ClosedKeys(event, ps[..i], now), ClosedKeys(event, ps[..i + 1], now));
            var k := Key(event, ps[i]);
      Reverted(states, next) ==
      if ClosedAt(ps[i], now) && k in states && states[k] == Compacted then Reverted(states, sofar)[k := ClosedPeriod]
      else Reverted(states, sofar)
  {
    assert ps[..i + 1] == ps[..i] + [ps[i]];
    var sofar, next, k := ClosedKeys(event, ps[..i], now), ClosedKeys(event, ps[..i + 1], now), Key(event, ps[i]);
    assert next == if ClosedAt(ps[i], now) then sofar + {k} else sofar;
  }

  lemma SameLoad(m: Machine, m': Machine)
    requires SameParts(m.tables, m'.tables)
    ensures Untidy(m'.tables) == Untidy(m.tables)
  {
  }

  /** Keys left with nothing to merge leave the work list, and no other key joins it. */
  lemma UntidyShrinks(t: Tables, t': Tables, ks: set<Key>)
    requires SameBut(t, t', ks) && forall k :: k in ks ==> Tidy(t', k)
    ensures Untidy(t') == Untidy(t) - ks && |Untidy(t')| <= |Untidy(t)|
  {
    forall k
      ensures k in Untidy(t') <==> k in Untidy(t) - ks
    {
      if k !in ks { SameLists(t, t', ks, k); }
    }
    Fewer(Untidy(t'), Untidy(t));
  }

  lemma OneKeyTidied(t: Tables, t': Tables, k: Key)
    requires SameBut(t, t', {k}) && Single(t', k) && k in Untidy(t)
    ensures Untidy(t') == Untidy(t) - {k} && |Untidy(t')| == |Untidy(t)| - 1
  {
    UntidyShrinks(t, t', {k});
  }

  /** A key is worth compacting, and listed, exactly when it has several data parts or a delta. */
  lemma EligibleIsUntidy(t: Tables, k: Key)
    ensures k in Untidy(t) <==> IsEligible(|DataIds(t, k)|, |DeltaIds(t, k)|)
    ensures k in Untidy(t) <==> |DataIds(t, k)| > 1 || DeltaIds(t, k) != []
    ensures k in Untidy(t) ==> k in ListedKeys(t)
  {
  }

  /** At worst every key that got a part has something to merge now. */
  lemma UntidyGrows(t: Tables, t': Tables, a: set<Key>, b: set<Key>)
    requires SameBut(t, t', a + b)
    ensures |Untidy(t')| <= |Untidy(t)| + |a| + |b|
  {
    forall k | k in Untidy(t')
      ensures k in Untidy(t) + a + b
    {
      if k !in a + b { SameLists(t, t', a + b, k); }
    }
    Fewer(Untidy(t'), Untidy(t) + a + b);
  }

  lemma ErasedIsTidy(t: Tables, k: Key)
    ensures var t' := Catalog.DeletePeriod(t, k);
      |Untidy(t')| <= |Untidy(t)| && t'.nextPartId == t.nextPartId && t'.events == t.events
  {
    UntidyShrinks(t, Catalog.DeletePeriod(t, k), {k});
  }

  lemma DroppedIsTidy(t: Tables, name: string)
    ensures var t' := Catalog.DeleteEvent(t, name);
      |Untidy(t')| <= |Untidy(t)| && t'.nextPartId == t.nextPartId && t'.events == t.events - {name}
  {
    var ks := set k | k in ListedKeys(t) && k.event == name;
    var t' := Catalog.DeleteEvent(t, name);
    assert t'.periodParts - ks == t.periodParts - ks;
    assert t'.periodDeltas - ks == t.periodDeltas - ks;
    UntidyShrinks(t, t', ks);
  }

  /** Compaction stopped at a key of an event: what it had left to do was more than the counter could serve. */
  lemma IdsRanOut(t: Tables, t': Tables, k: Key, next: u64)
    requires k in Untidy(t') && Untidy(t') <= Untidy(t)
    requires forall q :: q in Untidy(t) - Untidy(t') ==> q.event == k.event
    requires t'.nextPartId + |Untidy(t')| == next + |Untidy(t)| && t'.nextPartId + 1 >= U64_LIMIT
    ensures next + |UntidyOf(t, k.event)| >= U64_LIMIT
  {
    var done := Untidy(t) - Untidy(t');
    assert Untidy(t) == Untidy(t') + done;
    assert {k} !! done;
    Fewer({k} + done, UntidyOf(t, k.event));
  }

  /** Compaction finished an event: the counter has served every key of it. */
  lemma IdsSufficed(t: Tables, t': Tables, event: string)
    requires Untidy(t') <= Untidy(t) && t'.nextPartId + |Untidy(t')| == t.nextPartId + |Untidy(t)|
    requires forall q :: q in Untidy(t) - Untidy(t') ==> q.event == event
    requires forall q :: q in Untidy(t') ==> q.event != event
    ensures t.nextPartId + |UntidyOf(t, event)| == t'.nextPartId
  {
    hide Untidy;
    assert UntidyOf(t, event) == Untidy(t) - Untidy(t');
    assert Untidy(t) == Untidy(t') + UntidyOf(t, event);
  }

  lemma FewerOfOneEvent(t: Tables, event: string)
    ensures |UntidyOf(t, event)| <= |Untidy(t)|
  {
    Fewer(UntidyOf(t, event), Untidy(t));
  }

  // ----- how far one write fills the buffer -------------------------------------------------------

  lemma ReachEntries(b: Buffer, config: EventConfig, p: Period, bits: set<u32>, sizeOf: Sizes)
    ensures PutBuffer(b, Reach(config, p), bits, sizeOf).Entries() <= b.Entries() + MAX_REACH
    ensures RemoveBuffer(b, Reach(config, p), bits, sizeOf).Entries() <= b.Entries() + MAX_REACH
  {
    ReachIsSmall(config, p);
    PutEntries(b, Reach(config, p), bits, sizeOf);
    RemoveEntries(b, Reach(config, p), bits, sizeOf);
  }

  lemma RangeEntries(b: Buffer, config: EventConfig, ps: seq<Period>, bits: set<u32>, sizeOf: Sizes)
    requires |ps| <= MAX_RANGE_PERIODS
    ensures PutRangeBuffer(b, config, ps, bits, sizeOf).Entries() <= b.Entries() + MAX_REACH * MAX_RANGE_PERIODS
    ensures RemoveBuffer(b, RangeReach(config, ps), bits, sizeOf).Entries() <=
      b.Entries() + MAX_REACH * MAX_RANGE_PERIODS
  {
    RangeReachIsSmall(config, ps, |ps|);
    assert ps[..|ps|] == ps;
    RangeReachSplits(config, ps);
    PutSharedEntries(b, BucketKeys(config.name, ps), KeysOf(config.name, AllAncestors(config, ps)), bits, sizeOf);
    RemoveEntries(b, RangeReach(config, ps), bits, sizeOf);
  }

  ghost predicate HighestLevel(t: Tables, ids: set<u64>, level: u8) {
    && (forall id :: id in ids && id in t.parts ==> t.parts[id].level <= level)
    && (level == 0 || exists id :: id in ids && id in t.parts && t.parts[id].level == level)
  }

  method MaxLevel(t: Tables, ids: set<u64>) returns (level: u8)
    ensures HighestLevel(t, ids, level)
  {
    level := 0;
    var todo := ids;
    while todo != {}
      invariant todo <= ids
      invariant forall id :: id in ids - todo && id in t.parts ==> t.parts[id].level <= level
      invariant level == 0 || exists id :: id in ids && id in t.parts && t.parts[id].level == level
      decreases todo
    {
      var id :| id in todo;
      if id in t.parts && level < t.parts[id].level {
        level := t.parts[id].level;
      }
      todo := todo - {id};
    }
  }

  lemma ReplacedRows(m: Machine, m': Machine, bitmaps: Sets, deltas: Sets, k: Key, bits: set<u32>)
    requires Committed(m', k) == bits
    requires forall q :: q != k ==> Committed(m', q) == Committed(m, q)
    ensures Rows(m', bitmaps - {k}, deltas - {k}) == Overwrite(Rows(m, bitmaps, deltas), k, bits)
    ensures View(m') == Overwrite(View(m), k, bits)
  {
    forall r: Row
      ensures r in Rows(m', bitmaps - {k}, deltas - {k}) <==> r in Overwrite(Rows(m, bitmaps, deltas), k, bits)
      ensures r in View(m') <==> r in Overwrite(View(m), k, bits)
    {
      var q := Key(r.event, r.period);
      assert Lookup(bitmaps - {k}, q) == if q == k then {} else Lookup(bitmaps, q);
      assert Lookup(deltas - {k}, q) == if q == k then {} else Lookup(deltas, q);
    }
  }

  lemma ReplacedAllRows(m: Machine, m': Machine, bitmaps: Sets, deltas: Sets, event: string, entries: Entries)
    requires forall q :: Committed(m', q) == LastEntry(event, entries, q, Committed(m, q))
    ensures var ks := EntryKeys(event, entries);
      Rows(m', bitmaps - ks, deltas - ks) == OverwriteAll(Rows(m, bitmaps, deltas), event, entries)
    ensures View(m') == OverwriteAll(View(m), event, entries)
  {
    var ks := EntryKeys(event, entries);
    forall r: Row
      ensures r in Rows(m', bitmaps - ks, deltas - ks) <==> r in OverwriteAll(Rows(m, bitmaps, deltas), event, entries)
      ensures r in View(m') <==> r in OverwriteAll(View(m), event, entries)
    {
      var q := Key(r.event, r.period);
      OverwriteAllByKey(Rows(m, bitmaps, deltas), event, entries, r);
      OverwriteAllByKey(View(m), event, entries, r);
      LastEntryOfListed(event, entries, q, Committed(m, q));
      assert Lookup(bitmaps - ks, q) == if q in ks then {} else Lookup(bitmaps, q);
      assert Lookup(deltas - ks, q) == if q in ks then {} else Lookup(deltas, q);
    }
  }

  lemma ErasedRows(m: Machine, m': Machine, bitmaps: Sets, deltas: Sets, ks: set<Key>)
    requires forall q :: Committed(m', q) == if q in ks then {} else Committed(m, q)
    ensures Rows(m', bitmaps - ks, deltas - ks) == Rows(m, bitmaps, deltas) - RowsOf(ks)
    ensures View(m') == View(m) - RowsOf(ks)
  {
    forall r: Row
      ensures r in Rows(m', bitmaps - ks, deltas - ks) <==> r in Rows(m, bitmaps, deltas) - RowsOf(ks)
      ensures r in View(m') <==> r in View(m) - RowsOf(ks)
    {
      var q := Key(r.event, r.period);
      assert Lookup(bitmaps - ks, q) == if q in ks then {} else Lookup(bitmaps, q);
      assert Lookup(deltas - ks, q) == if q in ks then {} else Lookup(deltas, q);
    }
  }

  /** The buffered keys of one event. */
  function KeysOfEvent(bitmaps: Sets, deltas: Sets, name: string): set<Key> {
    set k | k in bitmaps.Keys + deltas.Keys && k.event == name
  }

  lemma FewerStayRegistered(events: map<string, EventConfig>, sets: Sets, ks: set<Key>)
    requires Registered(events, sets)
    ensures Registered(events, sets - ks)
  {
  }

  lemma OthersStayRegistered(events: map<string, EventConfig>, bitmaps: Sets, deltas: Sets, name: string)
    requires Registered(events, bitmaps) && Registered(events, deltas)
    ensures Registered(events - {name}, bitmaps - KeysOfEvent(bitmaps, deltas, name))
    ensures Registered(events - {name}, deltas - KeysOfEvent(bitmaps, deltas, name))
  {
  }

  lemma DroppedRows(m: Machine, m': Machine, bitmaps: Sets, deltas: Sets, bitmaps': Sets, deltas': Sets, name: string)
    requires forall q :: Committed(m', q) == if q.event == name then {} else Committed(m, q)
    requires bitmaps' == bitmaps - KeysOfEvent(bitmaps, deltas, name)
    requires deltas' == deltas - KeysOfEvent(bitmaps, deltas, name)
    ensures Rows(m', bitmaps', deltas') == Rows(m, bitmaps, deltas) - RowsOfEvent(name)
    ensures View(m') == View(m) - RowsOfEvent(name)
  {
    forall r: Row
      ensures r in Rows(m', bitmaps', deltas') <==> r in Rows(m, bitmaps, deltas) - RowsOfEvent(name)
      ensures r in View(m') <==> r in View(m) - RowsOfEvent(name)
    {
      var q := Key(r.event, r.period);
      assert Lookup(bitmaps', q) == if q.event == name then {} else Lookup(bitmaps, q);
      assert Lookup(deltas', q) == if q.event == name then {} else Lookup(deltas, q);
    }
  }

  /** A key of an unregistered event has nothing anywhere. */
  lemma UnregisteredKey(m: Machine, bitmaps: Sets, deltas: Sets, k: Key)
    requires Sound(m) && k.event !in m.tables.events
    requires Registered(m.tables.events, bitmaps) && Registered(m.tables.events, deltas)
    ensures bitmaps - {k} == bitmaps && deltas - {k} == deltas
    ensures Rows(m, bitmaps, deltas) - RowsOf({k}) == Rows(m, bitmaps, deltas)
    ensures View(m) - RowsOf({k}) == View(m)
  {
    if k in ListedKeys(m.tables) {
      ListedKeysAreValid(m.tables, m.tables.nextPartId, k);
    }
    UnlistedIsEmpty(m, k);
  }

  /** With one data part and no delta, the record's count is the count of the key. */
  lemma SoleDataPart(m: Machine, k: Key)
    requires Sound(m) && |DataIds(m.tables, k)| == 1 && DeltaIds(m.tables, k) == []
    ensures var id := DataIds(m.tables, k)[0];
      id in m.tables.parts && m.tables.parts[id].cardinality == |Committed(m, k)|
  {
    var id := DataIds(m.tables, k)[0];
    assert id in KeyIds(m.tables, k);
    assert FileOk(m.tables, m.files, id);
    var s := Merge.Step(id, false, Content(m.tables, m.files, id));
    assert DiskSteps(m.tables, m.files, k) == {s};
    NewestDataAdds({}, s);
    assert {} + {s} == {s} && Visible({}) == {};
  }

  lemma RangeReachIsStorable(events: map<string, EventConfig>, config: EventConfig, ps: seq<Period>)
    requires config.name in events && forall p :: p in ps ==> ValidPeriod(p)
    ensures forall k :: k in RangeReach(config, ps) ==> k.event in events && ValidPeriod(k.period)
  {
    forall k | k in RangeReach(config, ps)
      ensures k.event in events && ValidPeriod(k.period)
    {
      var p :| p in ps && k in Reach(config, p);
      ReachIsStorable(events, config, p);
    }
  }

  /** Everything a write reaches can be stored: ancestors of a valid period are valid. */
  lemma ReachIsStorable(events: map<string, EventConfig>, config: EventConfig, p: Period)
    requires config.name in events && ValidPeriod(p)
    ensures forall k :: k in Reach(config, p) ==> k.event in events && ValidPeriod(k.period)
  {
    AncestorsAreValid(p);
  }

  lemma {:induction false} AncestorsAreValid(p: Period)
    requires ValidPeriod(p)
    ensures forall q :: q in p.Ancestors() ==> ValidPeriod(q) && !q.Static?
    decreases p.Height()
  {
    if p.Parent().Some? {
      AncestorsAreValid(p.Parent().value);
    }
  }
}
