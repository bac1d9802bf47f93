/** Arbitrary sequences of operations on a store, reopenings included. */
module Client {
  import opened Types
  import opened PeriodRange
  import opened WriteBuffer
  import opened Propagation
  import opened Catalog
  import opened Parts
  import opened Durability
  import opened Spec
  import opened Runs
  import opened Store

  /** The events an operation gives rise to: itself, followed by a flush if it filled the buffer. */
  ghost predicate Yields(op: Op, events: seq<Event>) {
    (|events| == 1 && events[0].op == op) ||
    (|events| == 2 && events[0].op == op && events[1].op == Flush && (op.Put? || op.PutRange? || op.RemoveRange?))
  }

  /** The events of operations carried out one after the other. */
  ghost predicate YieldsAll(ops: seq<Op>, events: seq<Event>)
    decreases |ops|
  {
    if ops == [] then events == []
    else
      var last := |ops| - 1;
      exists n :: 0 <= n <= |events| && YieldsAll(ops[..last], events[..n]) && Yields(ops[last], events[n..])
  }

  lemma YieldsOneMore(ops: seq<Op>, log: seq<Event>, op: Op, events: seq<Event>)
    requires YieldsAll(ops, log) && Yields(op, events)
    ensures YieldsAll(ops + [op], log + events)
  {
    hide Yields;
    assert (ops + [op])[..|ops|] == ops;
    assert (log + events)[..|log|] == log && (log + events)[|log|..] == events;
  }

  /** What the caller is told: the outcome of the last event. */
  ghost function Answer(s: Settings, m: Model, events: seq<Event>): Result<()>
    requires events != []
  {
    var n := |events| - 1;
    Step(s, After(s, m, events[..n]), events[n].op, events[n].idsLeft).1
  }

  lemma AfterNothing(s: Settings, m: Model)
    ensures After(s, m, []) == m
  {
  }

  lemma AfterOne(s: Settings, m: Model, e: Event)
    ensures (After(s, m, [e]), Answer(s, m, [e])) == Step(s, m, e.op, e.idsLeft)
  {
    assert [e][..0] == [];
  }

  lemma AfterTwo(s: Settings, m: Model, e: Event, f: Event)
    ensures (After(s, m, [e, f]), Answer(s, m, [e, f])) ==
      Step(s, Step(s, m, e.op, e.idsLeft).0, f.op, f.idsLeft)
  {
    assert [e, f][..1] == [e];
    AfterOne(s, m, e);
  }

  lemma AfterReopening(s: Settings, m: Model)
    ensures (After(s, m, [Event(Reopen, true)]), Answer(s, m, [Event(Reopen, true)])) == (ReopenSpec(m), Ok(()))
  {
    AfterOne(s, m, Event(Reopen, true));
  }

  lemma AfterWrite(s: Settings, m: Model, op: Op, ok: bool)
    ensures (After(s, m, [Event(op, true)]), Answer(s, m, [Event(op, true)])) == Step(s, m, op, true)
    ensures (After(s, m, [Event(op, true), Event(Flush, ok)]), Answer(s, m, [Event(op, true), Event(Flush, ok)])) ==
      FlushSpec(Step(s, m, op, true).0, ok)
  {
    AfterOne(s, m, Event(op, true));
    AfterTwo(s, m, Event(op, true), Event(Flush, ok));
  }

  lemma {:induction false} AfterConcat(s: Settings, m: Model, a: seq<Event>, b: seq<Event>)
    ensures After(s, m, a + b) == After(s, After(s, m, a), b)
    decreases |b|
  {
    if b == [] {
      assert a + b == a;
    } else {
      assert (a + b)[..|a + b| - 1] == a + b[..|b| - 1];
      AfterConcat(s, m, a, b[..|b| - 1]);
    }
  }

  // ----- part ids -----------------------------------------------------------------------------------

  /** The part ids an operation asks the counter for; a write asks for those of the flush it may cause. */
  ghost function Needed(store: InoxSet, op: Op): nat
    reads store.mem, store.disk
  {
    match op
    case Put(event, p, bits) => store.AfterPut(event, p, bits).Entries()
    case PutRange(event, first, last, bits) => store.AfterPutRange(event, first, last, bits).Entries()
    case RemoveRange(event, first, last, bits) => store.AfterRemoveRange(event, first, last, bits).Entries()
    case Replace(_, _, _) => 1
    case BulkReplace(_, entries) => |entries|
    case Flush => store.mem.State().Entries()
    case Compact => |Untidy(store.disk.state.tables)|
    case _ => 0
  }

  /** How far an operation can raise the load on the counter, whatever state it meets. */
  function Cost(op: Op): nat {
    match op
    case Put(_, _, _) => 2 * MAX_REACH
    case Remove(_, _, _) => 2 * MAX_REACH
    case PutRange(_, _, _, _) => 2 * MAX_REACH * MAX_RANGE_PERIODS
    case RemoveRange(_, _, _, _) => 2 * MAX_REACH * MAX_RANGE_PERIODS
    case Replace(_, _, _) => 1
    case BulkReplace(_, entries) => |entries|
    case _ => 0
  }

  function TotalCost(ops: seq<Op>): nat {
    if ops == [] then 0 else TotalCost(ops[..|ops| - 1]) + Cost(ops[|ops| - 1])
  }

  // ----- one operation ------------------------------------------------------------------------------

  /** The operation is admitted and leaves more in the buffer than the threshold allows. */
  ghost predicate Fills(store: InoxSet, op: Op)
    reads store.mem, store.disk
  {
    var s, events := store.settings, store.disk.state.tables.events;
    match op
    case Put(event, p, bits) =>
      PutConfig(s, events, event, p).Ok? && store.AfterPut(event, p, bits).size >= s.flushThreshold
    case PutRange(event, first, last, bits) =>
      RangeConfig(s, events, event, first, last).Ok? && bits != {} &&
      store.AfterPutRange(event, first, last, bits).size >= s.flushThreshold
    case RemoveRange(event, first, last, bits) =>
      RangeConfig(s, events, event, first, last).Ok? && bits != {} &&
      store.AfterRemoveRange(event, first, last, bits).size >= s.flushThreshold
    case _ => false
  }

  lemma WritesNeverRunOut(s: Settings, m: Model, op: Op)
    requires Buffered(op)
    ensures Step(s, m, op, true).1 != Err(CatalogCorrupted)
  {
  }

  /** Carries out an operation that goes to the buffer, and flushes exactly if it fills it. The read cache moves only
      with a flush that succeeds. */
  method PerformWrite(store: InoxSet, op: Op, now: u64) returns (r: Result<()>, flushed: bool)
    requires store.Valid() && store.Writable() && Buffered(op)
    modifies store`cache, store`eventNames, store.mem, store.disk
    ensures store.Valid() && store.Writable()
    ensures flushed <==> old(Fills(store, op))
    ensures flushed ==> !op.Remove?
    ensures var (m1, r1) := Step(store.settings, old(store.Abs()), op, true);
      if flushed then r1.Ok? && (store.Abs(), r) == FlushSpec(m1, r.Ok?) else (store.Abs(), r) == (m1, r1)
    ensures flushed ==> (r.Ok? <==> old(store.NextId() + Needed(store, op)) < U64_LIMIT)
    ensures r == Err(CatalogCorrupted) <==> flushed && r.Err?
    ensures !flushed || r.Err? ==> store.cache == old(store.cache) && store.eventNames == old(store.eventNames)
    ensures store.Load() <= old(store.Load()) + Cost(op)
    ensures flushed && r.Err? ==> old(store.Load()) + Cost(op) >= U64_LIMIT
    ensures Atomic(old(store.disk.recovered), store.disk.recovered)
  {
    hide Untidy, Rows, View, Disk.Valid, PutBuffer, PutRangeBuffer, RemoveBuffer, RangeBuckets, Cells, RangeCells;
    hide Reach, Kept, Atomic, InoxSet.Valid, InoxSet.Load, InoxSet.AfterPut, InoxSet.AfterPutRange;
    hide InoxSet.AfterRemoveRange, InoxSet.AfterRemove, PutSpec, PutRangeSpec, RemoveSpec, RemoveRangeSpec;
    hide PutConfig, RangeConfig;
    WritesNeverRunOut(store.settings, store.Abs(), op);
    match op {
      case Put(event, p, bits) =>
        r, flushed := store.PutBitmap(event, p, bits, now);
      case Remove(event, p, bits) =>
        r := store.RemoveBits(event, p, bits);
        flushed := false;
        KeptIsAtomic(old(store.disk.recovered), store.disk.recovered);
      case PutRange(event, first, last, bits) =>
        r, flushed := store.PutBitmapRange(event, first, last, bits, now);
      case RemoveRange(event, first, last, bits) =>
        r, flushed := store.RemoveBitsRange(event, first, last, bits, now);
    }
  }

  /** Replaces or removes whole sets, in memory and on disk. */
  method PerformReplacement(store: InoxSet, op: Op, now: u64) returns (r: Result<()>)
    requires store.Valid() && store.Writable()
    requires op.Replace? || op.BulkReplace? || op.DeletePeriod? || op.DropEvent?
    modifies store`cache, store`eventNames, store.mem, store.disk
    ensures store.Valid() && store.Writable()
    ensures (store.Abs(), r) == Step(store.settings, old(store.Abs()), op, r != Err(CatalogCorrupted))
    ensures r == Err(CatalogCorrupted) ==> old(store.NextId() + Needed(store, op)) >= U64_LIMIT
    ensures r.Ok? ==> old(store.NextId() + Needed(store, op)) < U64_LIMIT
    ensures op.DeletePeriod? && op.event !in old(store.disk.state.tables.events) ==>
      store.Durable() == old(store.Durable())
    ensures store.Load() <= old(store.Load()) + Cost(op)
    ensures Atomic(old(store.disk.recovered), store.disk.recovered)
  {
    hide Untidy, Rows, View, Disk.Valid, Cells, FilesOf, EventDataIds, Kept, Atomic, InoxSet.Valid, InoxSet.Load;
    hide ReplaceSpec, BulkReplaceSpec;
    match op {
      case Replace(event, p, bits) => r := store.ReplaceBitmap(event, p, bits, now);
      case BulkReplace(event, entries) => r := store.BulkReplace(event, entries, now);
      case DeletePeriod(event, p) => r := store.DeletePeriod(event, p);
      case DropEvent(event) => r := store.DropEvent(event);
    }
  }

  /** Registers an event, flushes or compacts. */
  method PerformUpkeep(store: InoxSet, op: Op, now: u64) returns (r: Result<()>)
    requires store.Valid() && store.Writable()
    requires op.RegisterEvent? || op.Flush? || op.Compact?
    modifies store`cache, store`eventNames, store.mem, store.disk
    ensures store.Valid() && store.Writable()
    ensures (store.Abs(), r) == Step(store.settings, old(store.Abs()), op, r != Err(CatalogCorrupted))
    ensures r == Err(CatalogCorrupted) ==> old(store.NextId() + Needed(store, op)) >= U64_LIMIT
    ensures r.Ok? ==> old(store.NextId() + Needed(store, op)) < U64_LIMIT
    ensures store.Load() <= old(store.Load()) + Cost(op)
    ensures Atomic(old(store.disk.recovered), store.disk.recovered)
  {
    hide Untidy, Rows, View, Disk.Valid, Kept, Atomic, SameBut, Single, Tidy;
    match op {
      case RegisterEvent(name, g, rollup) =>
        r := store.RegisterEvent(name, g, rollup);
        KeptIsAtomic(old(store.disk.recovered), store.disk.recovered);
      case Flush => r := store.Flush(now);
      case Compact =>
        r := store.Compact(now);
        KeptIsAtomic(old(store.disk.recovered), store.disk.recovered);
    }
  }

  /** Closes nothing and loses the buffer: a new store on the same disk. */
  method Reopened(store: InoxSet) returns (next: InoxSet)
    requires store.Valid() && store.Writable()
    modifies store.disk
    ensures fresh(next) && fresh(next.mem) && next.disk == store.disk
    ensures next.Valid() && next.Writable() && next.settings == store.settings
    ensures next.Abs() == ReopenSpec(old(store.Abs()))
    ensures next.Load() <= old(store.Load())
    ensures Kept(old(store.disk.recovered), store.disk.recovered)
  {
    next := new InoxSet.Open(store.disk, store.settings, store.readOnly, store.mem.sizeOf);
  }

  /** The operation ran out of part ids only if the counter could not serve it. */
  ghost predicate Justified(events: seq<Event>, available: bool) {
    forall e :: e in events && !e.idsLeft ==> !available
  }

  lemma NothingToJustify(available: bool)
    ensures Justified([], available)
  {
  }

  lemma JustifiedTogether(log: seq<Event>, events: seq<Event>, before: bool, now: bool, available: bool)
    requires Justified(log, before) && Justified(events, now) && (available ==> before && now)
    ensures Justified(log + events, available)
  {
  }

  /** Carries out one operation on an open store. An event that ran out of ids met a counter that could not give the
      ids the operation needs, and the load on the counter rises by no more than the operation's cost. */
  method Perform(store: InoxSet, op: Op, now: u64) returns (r: Result<()>, flushed: bool, ghost events: seq<Event>)
    requires store.Valid() && store.Writable() && !op.Reopen?
    modifies store`cache, store`eventNames, store.mem, store.disk
    ensures store.Valid() && store.Writable()
    ensures Yields(op, events) && (flushed <==> |events| == 2) && (flushed <==> old(Fills(store, op)))
    ensures (store.Abs(), r) == (After(store.settings, old(store.Abs()), events),
                                 Answer(store.settings, old(store.Abs()), events))
    ensures events[|events| - 1].idsLeft <==> r != Err(CatalogCorrupted)
    ensures op.DeletePeriod? && op.event !in old(store.disk.state.tables.events) ==>
      store.Durable() == old(store.Durable())
    ensures Justified(events, old(store.NextId() + Needed(store, op)) < U64_LIMIT)
    ensures Justified(events, old(store.Load()) + Cost(op) < U64_LIMIT)
    ensures store.Load() <= old(store.Load()) + Cost(op)
    ensures Atomic(old(store.disk.recovered), store.disk.recovered)
  {
    hide Untidy, Rows, View, Disk.Valid, Needed, Step, FlushSpec, ReopenSpec, After, Answer, InoxSet.Load, Cost, Kept;
    hide Atomic, Fills;
    ghost var s, m := store.settings, store.Abs();
    flushed := false;
    if Buffered(op) {
      r, flushed := PerformWrite(store, op, now);
      AfterWrite(s, m, op, r.Ok?);
      events := if flushed then [Event(op, true), Event(Flush, r.Ok?)] else [Event(op, true)];
    } else {
      NothingFills(store, op);
      NeededWithinLoad(store, op);
      if op.RegisterEvent? || op.Flush? || op.Compact? {
        r := PerformUpkeep(store, op, now);
      } else {
        r := PerformReplacement(store, op, now);
      }
      events := [Event(op, r != Err(CatalogCorrupted))];
      AfterOne(s, m, events[0]);
    }
  }

  lemma NothingFills(store: InoxSet, op: Op)
    requires !Buffered(op)
    ensures !Fills(store, op)
  {
  }

  lemma NeededWithinLoad(store: InoxSet, op: Op)
    requires !Buffered(op)
    ensures store.NextId() + Needed(store, op) <= store.Load() + Cost(op)
  {
  }

  /** Carries out one operation, whatever it is; a reopening goes on with a new store on the same disk. */
  method Advance(store: InoxSet, op: Op, now: u64)
    returns (next: InoxSet, r: Result<()>, ghost events: seq<Event>)
    requires store.Valid() && store.Writable()
    modifies store`cache, store`eventNames, store.mem, store.disk
    ensures next == store || (fresh(next) && fresh(next.mem))
    ensures next.Valid() && next.Writable() && next.disk == store.disk && next.settings == store.settings
    ensures Yields(op, events)
    ensures (next.Abs(), r) == (After(store.settings, old(store.Abs()), events),
                                Answer(store.settings, old(store.Abs()), events))
    ensures Justified(events, old(store.NextId() + Needed(store, op)) < U64_LIMIT)
    ensures Justified(events, old(store.Load()) + Cost(op) < U64_LIMIT)
    ensures next.Load() <= old(store.Load()) + Cost(op)
    ensures Atomic(old(store.disk.recovered), store.disk.recovered)
  {
    hide Untidy, Rows, View, Disk.Valid, Needed, Step, ReopenSpec, After, Answer, InoxSet.Load, Cost, Kept, Atomic;
    hide Fills;
    ghost var s, m := store.settings, store.Abs();
    next := store;
    if op.Reopen? {
      next := Reopened(store);
      KeptIsAtomic(old(store.disk.recovered), store.disk.recovered);
      r, events := Ok(()), [Event(op, true)];
      AfterReopening(s, m);
    } else {
      var flushed;
      r, flushed, events := Perform(store, op, now);
    }
  }

  // ----- what crashes recover, as moments of the history ------------------------------------------------

  /** For every number of steps, `at` is the moment of the history whose durable state a crash then recovers. The
      moments never go back, and the last one is now. */
  ghost predicate Timeline(s: Settings, m: Model, log: seq<Event>, recovered: seq<iset<Row>>, at: seq<nat>) {
    && |at| == |recovered| > 0
    && at[|at| - 1] == |log|
    && (forall i, j :: 0 <= i <= j < |at| ==> at[i] <= at[j])
    && forall i :: 0 <= i < |at| ==> at[i] <= |log| && recovered[i] == After(s, m, log[..at[i]]).durable
  }

  /** For every completed operation, how many steps the disk had taken by its end and how long the history was: a crash
      at any step from then on recovers a moment at or after that end. */
  ghost predicate EndsKept(ends: seq<(nat, nat)>, at: seq<nat>) {
    forall i :: 0 <= i < |ends| ==> ends[i].0 < |at| && ends[i].1 <= at[ends[i].0]
  }

  /** The ends lie within what has happened, and the events between two of them are those of the operation. */
  ghost predicate Accounts(done: seq<Op>, log: seq<Event>, ends: seq<(nat, nat)>, steps: nat) {
    && |ends| == |done| && Start(ends, |ends|).0 <= steps && Start(ends, |ends|).1 == |log|
    && forall i :: 0 <= i < |ends| ==> AccountsFor(done[i], log, Start(ends, i), ends[i], steps)
  }

  ghost predicate AccountsFor(op: Op, log: seq<Event>, start: (nat, nat), end: (nat, nat), steps: nat) {
    start.0 <= end.0 <= steps && start.1 <= end.1 <= |log| && Yields(op, log[start.1..end.1])
  }

  /** Where operation `i` began: at the end of the one before, the first after the opening. */
  function Start(ends: seq<(nat, nat)>, i: nat): (nat, nat)
    requires i <= |ends|
  {
    if i == 0 then (0, 0) else ends[i - 1]
  }

  lemma AccountsOneMore(done: seq<Op>, log: seq<Event>, ends: seq<(nat, nat)>, steps: nat,
                        op: Op, events: seq<Event>, steps': nat)
    requires Accounts(done, log, ends, steps) && Yields(op, events) && steps <= steps'
    ensures Accounts(done + [op], log + events, ends + [(steps', |log + events|)], steps')
  {
    hide AccountsFor;
    var ends' := ends + [(steps', |log + events|)];
    forall i | 0 <= i < |ends'|
      ensures AccountsFor((done + [op])[i], log + events, Start(ends', i), ends'[i], steps')
    {
      if i < |ends| {
        AccountStays(done[i], log, events, Start(ends, i), ends[i], steps, steps');
      } else {
        NewAccount(op, log, events, Start(ends, |ends|), steps, steps');
      }
    }
  }

  lemma AccountStays(op: Op, log: seq<Event>, events: seq<Event>, start: (nat, nat), end: (nat, nat),
                     steps: nat, steps': nat)
    requires AccountsFor(op, log, start, end, steps) && steps <= steps'
    ensures AccountsFor(op, log + events, start, end, steps')
  {
    hide Yields;
    SliceOfFront(log, events, start.1, end.1);
  }

  lemma NewAccount(op: Op, log: seq<Event>, events: seq<Event>, start: (nat, nat), steps: nat, steps': nat)
    requires Yields(op, events) && start.0 <= steps <= steps' && start.1 == |log|
    ensures AccountsFor(op, log + events, start, (steps', |log + events|), steps')
  {
    hide Yields;
    assert (log + events)[|log|..|log + events|] == events;
  }

  lemma SliceOfFront<T>(a: seq<T>, b: seq<T>, from: nat, to: nat)
    requires from <= to <= |a|
    ensures (a + b)[from..to] == a[from..to]
  {
  }

  /** The moments after `events`: what is recovered meanwhile belongs before them until it has moved on, and the last
      step is the present. */
  ghost function Extended(at: seq<nat>, log: seq<Event>, events: seq<Event>, recovered: seq<iset<Row>>,
                          before: iset<Row>): seq<nat>
    requires |at| <= |recovered|
  {
    seq(|recovered|, i requires 0 <= i < |recovered| =>
      if i == |recovered| - 1 then |log + events|
      else if i < |at| then at[i]
      else if exists k :: |at| <= k <= i && recovered[k] != before then |log + events|
      else |log|)
  }

  lemma TimelineStart(s: Settings, m: Model, recovered: seq<iset<Row>>) returns (at: seq<nat>)
    requires |recovered| > 0 && forall i :: 0 <= i < |recovered| ==> recovered[i] == m.durable
    ensures Timeline(s, m, [], recovered, at) && EndsKept([], at)
  {
    at := seq(|recovered|, _ => 0);
    var none: seq<Event> := [];
    assert none[..0] == none;
  }

  /** The moments go on as the history does, and those of earlier steps stay, except that the last one moves with the
      history as long as the disk takes no step. */
  lemma TimelineStep(s: Settings, m: Model, log: seq<Event>, events: seq<Event>,
                     recovered: seq<iset<Row>>, recovered': seq<iset<Row>>, at: seq<nat>, ends: seq<(nat, nat)>)
    returns (at': seq<nat>)
    requires EndsKept(ends, at) && Timeline(s, m, log, recovered, at)
    requires Atomic(recovered, recovered')
    requires recovered'[|recovered'| - 1] == After(s, m, log + events).durable
    ensures Timeline(s, m, log + events, recovered', at')
    ensures EndsKept(ends + [(|recovered'| - 1, |log + events|)], at')
    ensures forall n :: 0 <= n < |at| - 1 ==> at'[n] == at[n]
  {
    hide After;
    var whole, before := log + events, After(s, m, log).durable;
    at' := Extended(at, log, events, recovered', before);
    assert log[..|log|] == log && whole[..|log|] == log && whole[..|whole|] == whole;
    assert recovered[|recovered| - 1] == before;
    forall i | 0 <= i < |at'|
      ensures at'[i] <= |whole| && recovered'[i] == After(s, m, whole[..at'[i]]).durable
    {
      if i == |recovered'| - 1 {
      } else if i < |at| {
        assert whole[..at[i]] == log[..at[i]];
      } else if exists k :: |at| <= k <= i && recovered'[k] != before {
        var k :| |at| <= k <= i && recovered'[k] != before;
        assert recovered'[i] == After(s, m, whole).durable;
      } else {
        assert recovered'[i] == before;
      }
    }
  }

  // ----- a store and its life -----------------------------------------------------------------------------

  /** A store on a disk that was empty once, with a record of all that has been done to it since. */
  class Life {
    const settings: Settings
    const disk: Disk
    var store: InoxSet
    /** The completed operations and the events they gave rise to. */
    ghost var done: seq<Op>
    ghost var log: seq<Event>
    /** The end of every operation, in steps of the disk and in events. */
    ghost var ends: seq<(nat, nat)>
    /** The moment that a crash recovers, by steps of the disk. */
    ghost var at: seq<nat>

    ghost predicate Valid()
      reads this, store, store.mem, disk
    {
      && store.disk == disk && store.settings == settings && store.Valid() && store.Writable()
      && disk.origin == EMPTY_MACHINE
      && store.Abs() == After(settings, EMPTY, log)
      && Accounts(done, log, ends, |disk.journal|)
      && Timeline(settings, EMPTY, log, disk.recovered, at) && EndsKept(ends, at)
      && store.Load() <= 1 + TotalCost(done) && Justified(log, 1 + TotalCost(done) < U64_LIMIT)
    }

    constructor (settings: Settings, sizeOf: set<u32> -> u64)
      ensures Valid() && fresh(disk) && fresh(store) && fresh(store.mem)
      ensures this.settings == settings && done == [] && log == [] && ends == []
    {
      var disk := new Disk();
      EmptyIsEmpty();
      disk.RecoversNow();
      var store := new InoxSet.Open(disk, settings, false, sizeOf);
      this.settings, this.disk, this.store := settings, disk, store;
      done, log, ends, at := [], [], [], [];
      new;
      store.disk.RecoversNow();
      AfterNothing(settings, EMPTY);
      at := TimelineStart(settings, EMPTY, disk.recovered);
    }

    /** One operation. A crash at any of the steps the disk takes for it recovers what was durable before it or what is
        durable after it, first the one and then the other; from its last step on the operation is recovered, as far as
        it was durable at its end, whatever is done later. */
    method Do(op: Op, now: u64) returns (r: Result<()>)
      requires Valid()
      modifies this, store`cache, store`eventNames, store.mem, disk
      ensures Valid() && (store == old(store) || (fresh(store) && fresh(store.mem)))
      ensures done == old(done) + [op] && old(log) <= log && Yields(op, log[|old(log)|..])
      ensures r == Answer(settings, old(store.Abs()), log[|old(log)|..])
      ensures Justified(log[|old(log)|..], old(store.NextId() + Needed(store, op)) < U64_LIMIT)
      ensures ends == old(ends) + [(|disk.journal|, |log|)]
      ensures |old(disk.journal)| <= |disk.journal| && Atomic(old(disk.recovered), disk.recovered)
      ensures old(disk.recovered)[|old(disk.journal)|] == old(store.Durable())
      ensures disk.recovered[|disk.journal|] == store.Durable()
      ensures forall n :: 0 <= n < |old(disk.journal)| ==> at[n] == old(at)[n]
    {
      hide Untidy, Rows, View, Disk.Valid, Yields, InoxSet.Load, Cost, After, Timeline, Atomic, EndsKept, Accounts;
      hide TotalCost, Needed, Answer, Justified, InoxSet.Valid, Fills, Registered;
      ghost var recovered, steps := disk.recovered, |disk.journal|;
      RecoversDurable(store);
      ghost var events: seq<Event>;
      store, r, events := Advance(store, op, now);
      RecoversDurable(store);
      AfterConcat(settings, EMPTY, log, events);
      AtomicGrows(recovered, disk.recovered);
      AccountsOneMore(done, log, ends, steps, op, events, |disk.journal|);
      TimelineLength(settings, EMPTY, log, recovered, at);
      at := TimelineStep(settings, EMPTY, log, events, recovered, disk.recovered, at, ends);
      OneMoreCost(done, op);
      ghost var enough := 1 + TotalCost(done + [op]) < U64_LIMIT;
      JustifiedTogether(log, events, 1 + TotalCost(done) < U64_LIMIT, old(store.Load()) + Cost(op) < U64_LIMIT, enough);
      done, log, ends := done + [op], log + events, ends + [(|disk.journal|, |log + events|)];
    }

    /** After `n` steps of the disk, a crash recovers moment `at[n]` of the history, and every operation that had ended
        by then is part of that moment. */
    ghost predicate Survives(n: nat)
      reads this, disk
      requires n <= |disk.journal| && |at| == |disk.journal| + 1
    {
      && at[n] <= |log| && Legal(EMPTY_MACHINE, disk.journal[..n])
      && View(Apply(Durability.Run(EMPTY_MACHINE, disk.journal[..n]), Crash))
         == After(settings, EMPTY, log[..at[n]]).durable
      && forall i :: 0 <= i < |ends| && ends[i].0 <= n ==> ends[i].1 <= at[n]
    }

    lemma CrashesAreSafe()
      requires Valid()
      ensures |at| == |disk.journal| + 1 && at[|disk.journal|] == |log|
      ensures forall n, k :: 0 <= n <= k <= |disk.journal| ==> at[n] <= at[k]
      ensures forall n :: 0 <= n <= |disk.journal| ==> Survives(n)
    {
      hide After, View, Apply, Untidy, Rows, Accounts, TotalCost, Justified, Registered, Sound;
      forall n | 0 <= n <= |disk.journal|
        ensures |at| == |disk.journal| + 1 && Survives(n)
      {
        RecoveredAt(disk.origin, disk.journal, n);
      }
    }
  }

  lemma RecoversDurable(store: InoxSet)
    requires store.Valid()
    ensures var (recovered, steps) := (store.disk.recovered, |store.disk.journal|);
      |recovered| == steps + 1 && recovered[steps] == store.Durable()
  {
    store.disk.RecoversNow();
  }

  lemma AtomicGrows(a: seq<iset<Row>>, b: seq<iset<Row>>)
    requires Atomic(a, b)
    ensures |a| <= |b|
  {
  }

  lemma TimelineLength(s: Settings, m: Model, log: seq<Event>, recovered: seq<iset<Row>>, at: seq<nat>)
    requires Timeline(s, m, log, recovered, at)
    ensures |at| == |recovered|
  {
  }

  lemma OneMoreCost(done: seq<Op>, op: Op)
    ensures TotalCost(done + [op]) == TotalCost(done) + Cost(op)
  {
    assert (done + [op])[..|done|] == done;
  }

  /** Without bulk replacements an operation costs at most 70272 part ids, without range writes at most eight, without
      buffered writes at most one, and nothing if it replaces nothing either. */
  lemma {:induction false} WorkIsCheap(ops: seq<Op>)
    requires forall op :: op in ops ==> !op.BulkReplace?
    ensures TotalCost(ops) <= 70272 * |ops|
    ensures (forall op :: op in ops ==> !op.PutRange? && !op.RemoveRange?) ==> TotalCost(ops) <= 8 * |ops|
    ensures (forall op :: op in ops ==> !Buffered(op)) ==> TotalCost(ops) <= |ops|
    ensures (forall op :: op in ops ==> !Buffered(op) && !op.Replace?) ==> TotalCost(ops) == 0
    decreases |ops|
  {
    if ops != [] {
      var before, last := ops[..|ops| - 1], ops[|ops| - 1];
      WorkIsCheap(before);
      assert last in ops && forall op :: op in before ==> op in ops;
      assert !Buffered(last) ==> Cost(last) <= 1;
    }
  }

  /** From an empty disk through any sequence of operations, with flushes, compactions and reopenings in any order.
      Reads and disk follow the rule that the last writer wins; every crash on the way recovers a moment of the history
      that never moves back and holds every operation ended by then; no event runs out of part ids as long as the costs
      of the operations stay below the limit. */
  method Lifetime(settings: Settings, sizeOf: set<u32> -> u64, work: seq<(Op, u64)>) returns (life: Life)
    ensures life.Valid() && life.settings == settings && life.done == Ops(work)
    ensures forall row :: row in life.store.Live() <==> WrittenAndKept(settings, life.log, row)
    ensures forall row :: row in life.store.Durable() <==> WrittenAndRecorded(settings, life.log, row)
    ensures |life.at| == |life.disk.journal| + 1 && life.at[|life.disk.journal|] == |life.log|
    ensures forall n, k :: 0 <= n <= k <= |life.disk.journal| ==> life.at[n] <= life.at[k]
    ensures forall n :: 0 <= n <= |life.disk.journal| ==> life.Survives(n)
    ensures 1 + TotalCost(Ops(work)) < U64_LIMIT ==> forall e :: e in life.log ==> e.idsLeft
  {
    hide Life.Survives, After, WrittenAndKept, WrittenAndRecorded, Timeline, Accounts, EndsKept, Atomic, Yields;
    life := new Life(settings, sizeOf);
    for i := 0 to |work|
      invariant fresh(life) && fresh(life.disk) && fresh(life.store) && fresh(life.store.mem)
      invariant life.Valid() && life.settings == settings && life.done == Ops(work[..i])
    {
      var (op, now) := work[i];
      var r := life.Do(op, now);
      OpsOneMore(work, i);
    }
    assert work[..|work|] == work;
    life.CrashesAreSafe();
    LastWriterAlwaysWins(settings, life.log);
  }

  lemma OpsOneMore(work: seq<(Op, u64)>, i: nat)
    requires i < |work|
    ensures Ops(work[..i + 1]) == Ops(work[..i]) + [work[i].0]
  {
  }

  lemma LastWriterAlwaysWins(s: Settings, log: seq<Event>)
    ensures forall row :: row in After(s, EMPTY, log).live <==> WrittenAndKept(s, log, row)
    ensures forall row :: row in After(s, EMPTY, log).durable <==> WrittenAndRecorded(s, log, row)
  {
    forall row
      ensures row in After(s, EMPTY, log).live <==> WrittenAndKept(s, log, row)
      ensures row in After(s, EMPTY, log).durable <==> WrittenAndRecorded(s, log, row)
    {
      LastWriterWins(s, log, row);
    }
  }

  lemma EmptyIsEmpty()
    ensures View(EMPTY_MACHINE) == iset{}
  {
  }

  function Ops(work: seq<(Op, u64)>): seq<Op> { seq(|work|, i requires 0 <= i < |work| => work[i].0) }
}
