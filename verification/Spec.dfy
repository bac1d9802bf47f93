/** The simple thing the store stands for: a relation between (event, period) and ids, with
    a copy of it that survives a restart. */
module Spec {
  import opened Types
  import opened Calendar
  import opened PeriodRange
  import opened Propagation

  /** `live` is what reads see, `durable` what a restart would find. */
  datatype Model = Model(events: map<string, EventConfig>, live: iset<Row>, durable: iset<Row>)

  const EMPTY := Model(map[], iset{}, iset{})

  datatype Settings = Settings(
    defaultGranularity: Granularity, defaultRollup: Rollup, maxEvents: nat, flushThreshold: u64)

  datatype Op =
    | RegisterEvent(name: string, granularity: Granularity, rollup: Rollup)
    | Put(event: string, period: Period, bits: set<u32>)
    | Remove(event: string, period: Period, bits: set<u32>)
    | PutRange(event: string, first: Period, last: Period, bits: set<u32>)
    | RemoveRange(event: string, first: Period, last: Period, bits: set<u32>)
    | Replace(event: string, period: Period, bits: set<u32>)
    | BulkReplace(event: string, entries: seq<(Period, set<u32>)>)
    | DeletePeriod(event: string, period: Period)
    | DropEvent(event: string)
    | Flush
    | Compact
    | Reopen

  // ----- registration ---------------------------------------------------------------

  function EnsureEvent(s: Settings, events: map<string, EventConfig>, name: string): Result<EventConfig> {
    if !ValidEventName(name) then Err(InvalidEventName)
    else if name in events then Ok(events[name])
    else if 0 < s.maxEvents <= |events| then Err(Configuration)
    else Ok(NewEventConfig(name, s.defaultGranularity, s.defaultRollup))
  }

  lemma EnsureEventCanonical(s: Settings, events: map<string, EventConfig>, name: string)
    requires Canonical(events) && EnsureEvent(s, events, name).Ok?
    ensures var config := EnsureEvent(s, events, name).value;
      config.name == name && Canonical(events[name := config])
      && (name in events ==> events[name := config] == events)
  {
  }

  // ----- cells ----------------------------------------------------------------------

  ghost function Cells(ks: set<Key>, bits: set<u32>): iset<Row> {
    iset r: Row | Key(r.event, r.period) in ks && r.bit in bits
  }

  ghost function RowsOf(ks: set<Key>): iset<Row> { iset r: Row | Key(r.event, r.period) in ks }

  ghost function RowsOfEvent(name: string): iset<Row> { iset r: Row | r.event == name }

  // ----- admission --------------------------------------------------------------------

  /** The configuration a put works with, if it is admitted at all. */
  function PutConfig(s: Settings, events: map<string, EventConfig>, event: string, p: Period): Result<EventConfig> {
    if !ValidPeriod(p) then Err(InvalidPeriod)
    else
      match EnsureEvent(s, events, event)
      case Err(e) => Err(e)
      case Ok(config) =>
        if !p.Static? && p.Granularity() != config.finest then Err(GranularityMismatch) else Ok(config)
  }

  /** Removals do not look at the granularity. */
  function RemoveConfig(s: Settings, events: map<string, EventConfig>, event: string, p: Period): Result<EventConfig> {
    if !ValidPeriod(p) then Err(InvalidPeriod) else EnsureEvent(s, events, event)
  }

  function RangeConfig(s: Settings, events: map<string, EventConfig>, event: string, first: Period, last: Period)
    : Result<EventConfig>
  {
    match EnsureEvent(s, events, event)
    case Err(e) => Err(e)
    case Ok(config) =>
      match CheckRange(config, first, last)
      case Err(e) => Err(e)
      case Ok(_) => Ok(config)
  }

  // ----- single writes ----------------------------------------------------------------

  ghost function PutSpec(s: Settings, m: Model, event: string, p: Period, bits: set<u32>): (Model, Result<()>) {
    if !ValidPeriod(p) then (m, Err(InvalidPeriod))
    else
      match EnsureEvent(s, m.events, event)
      case Err(e) => (m, Err(e))
      case Ok(config) =>
        var m1 := m.(events := m.events[event := config]);
        if !p.Static? && p.Granularity() != config.finest then (m1, Err(GranularityMismatch))
        else (m1.(live := m1.live + Cells(Reach(config, p), bits)), Ok(()))
  }

  ghost function RemoveSpec(s: Settings, m: Model, event: string, p: Period, bits: set<u32>): (Model, Result<()>) {
    if !ValidPeriod(p) then (m, Err(InvalidPeriod))
    else
      match EnsureEvent(s, m.events, event)
      case Err(e) => (m, Err(e))
      case Ok(config) =>
        var m1 := m.(events := m.events[event := config]);
        (m1.(live := m1.live - Cells(Reach(config, p), bits)), Ok(()))
  }

  // ----- range writes -----------------------------------------------------------------

  function CheckRange(config: EventConfig, first: Period, last: Period): Result<()> {
    if first.Static? || last.Static? then Err(InvalidPeriod)
    else if !ValidPeriod(first) || !ValidPeriod(last) then Err(InvalidPeriod)
    else if first.Granularity() != config.finest || last.Granularity() != config.finest then Err(GranularityMismatch)
    else if last.Less(first) then Err(Configuration)
    else if Ordinal(last) - Ordinal(first) + 1 > MAX_RANGE_PERIODS then Err(Configuration)
    else Ok(())
  }

  /** The buckets of a range that passes the checks. */
  ghost function RangeBuckets(config: EventConfig, first: Period, last: Period): (ps: seq<Period>)
    requires CheckRange(config, first, last).Ok?
    ensures Enumerates(ps, first, last) && |ps| <= MAX_RANGE_PERIODS
  {
    OrdinalOrders(last, first);
    Buckets(first, last)
  }

  /** The valid periods from `first` to `last`. */
  ghost predicate InRange(first: Period, last: Period, p: Period) {
    ValidPeriod(p) && p.Granularity() == first.Granularity() && !p.Less(first) && !last.Less(p)
  }

  ghost function RangeCells(config: EventConfig, first: Period, last: Period, bits: set<u32>): iset<Row> {
    iset r: Row | r.bit in bits && exists p :: InRange(first, last, p) && Key(r.event, r.period) in Reach(config, p)
  }

  /** The rows of a range, stated by its bounds, are the cells its enumerated buckets reach. */
  lemma RangeCellsAre(config: EventConfig, first: Period, last: Period, ps: seq<Period>, bits: set<u32>)
    requires CheckRange(config, first, last).Ok? && Enumerates(ps, first, last)
    ensures RangeCells(config, first, last, bits) == Cells(RangeReach(config, ps), bits)
    ensures forall p :: p in ps ==> ValidPeriod(p)
  {
    EnumerationIsExact(ps, first, last);
    forall r: Row
      ensures r in RangeCells(config, first, last, bits) <==> r in Cells(RangeReach(config, ps), bits)
    {
      var k := Key(r.event, r.period);
      if k in RangeReach(config, ps) {
        var p :| p in ps && k in Reach(config, p);
        assert InRange(first, last, p);
      }
      if r in RangeCells(config, first, last, bits) {
        var p :| InRange(first, last, p) && k in Reach(config, p);
        assert p in ps;
      }
    }
  }

  ghost function PutRangeSpec(s: Settings, m: Model, event: string, first: Period, last: Period, bits: set<u32>)
    : (Model, Result<()>)
  {
    match EnsureEvent(s, m.events, event)
    case Err(e) => (m, Err(e))
    case Ok(config) =>
      var m1 := m.(events := m.events[event := config]);
      match CheckRange(config, first, last)
      case Err(e) => (m1, Err(e))
      case Ok(_) => (m1.(live := m1.live + RangeCells(config, first, last, bits)), Ok(()))
  }

  ghost function RemoveRangeSpec(s: Settings, m: Model, event: string, first: Period, last: Period, bits: set<u32>)
    : (Model, Result<()>)
  {
    match EnsureEvent(s, m.events, event)
    case Err(e) => (m, Err(e))
    case Ok(config) =>
      var m1 := m.(events := m.events[event := config]);
      match CheckRange(config, first, last)
      case Err(e) => (m1, Err(e))
      case Ok(_) => (m1.(live := m1.live - RangeCells(config, first, last, bits)), Ok(()))
  }

  // ----- replacing and deleting ---------------------------------------------------------

  ghost function Overwrite(rows: iset<Row>, k: Key, bits: set<u32>): iset<Row> {
    rows - RowsOf({k}) + Cells({k}, bits)
  }

  /** The rows of `ks` fall back to what was durable. */
  ghost function FallBack(m: Model, ks: set<Key>): Model {
    m.(live := m.live - RowsOf(ks) + m.durable * RowsOf(ks))
  }

  /** `idsLeft` says whether the part-id counter could serve the operation. */
  ghost function ReplaceSpec(s: Settings, m: Model, event: string, p: Period, bits: set<u32>, idsLeft: bool)
    : (Model, Result<()>)
  {
    if !ValidPeriod(p) then (m, Err(InvalidPeriod))
    else
      match EnsureEvent(s, m.events, event)
      case Err(e) => (m, Err(e))
      case Ok(config) =>
        var m1 := m.(events := m.events[event := config]);
        var k := Key(event, p);
        if !idsLeft then (FallBack(m1, {k}), Err(CatalogCorrupted))
        else (m1.(live := Overwrite(m1.live, k, bits), durable := Overwrite(m1.durable, k, bits)), Ok(()))
  }

  ghost function OverwriteAll(rows: iset<Row>, event: string, entries: seq<(Period, set<u32>)>): iset<Row>
    decreases |entries|
  {
    if entries == [] then rows
    else
      var n := |entries| - 1;
      Overwrite(OverwriteAll(rows, event, entries[..n]), Key(event, entries[n].0), entries[n].1)
  }

  /** What a list of replacements leaves at `k`: its last entry for that key, else `base`. */
  ghost function LastEntry(event: string, entries: seq<(Period, set<u32>)>, k: Key, base: set<u32>): set<u32>
    decreases |entries|
  {
    if entries == [] then base
    else
      var n := |entries| - 1;
      if Key(event, entries[n].0) == k then entries[n].1 else LastEntry(event, entries[..n], k, base)
  }

  lemma {:induction false} OverwriteAllByKey(rows: iset<Row>, event: string, entries: seq<(Period, set<u32>)>, r: Row)
    ensures r in OverwriteAll(rows, event, entries) <==>
      if Key(r.event, r.period) in EntryKeys(event, entries)
      then r.bit in LastEntry(event, entries, Key(r.event, r.period), {})
      else r in rows
    decreases |entries|
  {
    if entries != [] {
      var n := |entries| - 1;
      OverwriteAllByKey(rows, event, entries[..n], r);
      assert EntryKeys(event, entries) == EntryKeys(event, entries[..n]) + {Key(event, entries[n].0)} by {
        assert forall i :: 0 <= i < n ==> entries[..n][i] == entries[i];
      }
    }
  }

  lemma {:induction false} LastEntryOfListed(event: string, entries: seq<(Period, set<u32>)>, k: Key, base: set<u32>)
    ensures LastEntry(event, entries, k, base) ==
      if k in EntryKeys(event, entries) then LastEntry(event, entries, k, {}) else base
    decreases |entries|
  {
    if entries != [] {
      var n := |entries| - 1;
      LastEntryOfListed(event, entries[..n], k, base);
      assert EntryKeys(event, entries) == EntryKeys(event, entries[..n]) + {Key(event, entries[n].0)} by {
        assert forall i :: 0 <= i < n ==> entries[..n][i] == entries[i];
      }
    }
  }

  function EntryKeys(event: string, entries: seq<(Period, set<u32>)>): set<Key> {
    set i | 0 <= i < |entries| :: Key(event, entries[i].0)
  }

  ghost function BulkReplaceSpec(s: Settings, m: Model, event: string, entries: seq<(Period, set<u32>)>, idsLeft: bool)
    : (Model, Result<()>)
  {
    if exists i :: 0 <= i < |entries| && !ValidPeriod(entries[i].0) then (m, Err(InvalidPeriod))
    else
      match EnsureEvent(s, m.events, event)
      case Err(e) => (m, Err(e))
      case Ok(config) =>
        var m1 := m.(events := m.events[event := config]);
        if !idsLeft then (FallBack(m1, EntryKeys(event, entries)), Err(CatalogCorrupted))
        else (m1.(live := OverwriteAll(m1.live, event, entries),
                  durable := OverwriteAll(m1.durable, event, entries)), Ok(()))
  }

  ghost function DeletePeriodSpec(m: Model, event: string, p: Period): (Model, Result<()>) {
    if !ValidEventName(event) then (m, Err(InvalidEventName))
    else
      var rows := RowsOf({Key(event, p)});
      (m.(live := m.live - rows, durable := m.durable - rows), Ok(()))
  }

  ghost function DropEventSpec(m: Model, name: string): (Model, Result<()>) {
    if !ValidEventName(name) then (m, Err(InvalidEventName))
    else (Model(m.events - {name}, m.live - RowsOfEvent(name), m.durable - RowsOfEvent(name)), Ok(()))
  }

  ghost function RegisterSpec(m: Model, name: string, g: Granularity, rollup: Rollup): (Model, Result<()>) {
    if !ValidEventName(name) then (m, Err(InvalidEventName))
    else if name in m.events then (m, Err(EventAlreadyRegistered))
    else (m.(events := m.events[name := NewEventConfig(name, g, rollup)]), Ok(()))
  }

  // ----- flushing, compacting, reopening --------------------------------------------------

  /** A flush makes everything durable; one that runs out of part ids has already drained
      the buffer, so reads fall back to what was durable. */
  ghost function FlushSpec(m: Model, idsLeft: bool): (Model, Result<()>) {
    if idsLeft then (m.(durable := m.live), Ok(()))
    else (m.(live := m.durable), Err(CatalogCorrupted))
  }

  ghost function CompactSpec(m: Model, idsLeft: bool): (Model, Result<()>) {
    (m, if idsLeft then Ok(()) else Err(CatalogCorrupted))
  }

  ghost function ReopenSpec(m: Model): Model { m.(live := m.durable) }

  ghost function Step(s: Settings, m: Model, op: Op, idsLeft: bool): (Model, Result<()>) {
    match op
    case RegisterEvent(name, g, rollup) => RegisterSpec(m, name, g, rollup)
    case Put(event, p, bits) => PutSpec(s, m, event, p, bits)
    case Remove(event, p, bits) => RemoveSpec(s, m, event, p, bits)
    case PutRange(event, first, last, bits) => PutRangeSpec(s, m, event, first, last, bits)
    case RemoveRange(event, first, last, bits) => RemoveRangeSpec(s, m, event, first, last, bits)
    case Replace(event, p, bits) => ReplaceSpec(s, m, event, p, bits, idsLeft)
    case BulkReplace(event, entries) => BulkReplaceSpec(s, m, event, entries, idsLeft)
    case DeletePeriod(event, p) => DeletePeriodSpec(m, event, p)
    case DropEvent(event) => DropEventSpec(m, event)
    case Flush => FlushSpec(m, idsLeft)
    case Compact => CompactSpec(m, idsLeft)
    case Reopen => (ReopenSpec(m), Ok(()))
  }
}
