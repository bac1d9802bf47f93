/** What writes promise, without the functions that carry them out: at which periods a write shows, which writes are
    admitted, how long a range may be, and how many events there can be. */
module Rules {
  import opened Types
  import opened Calendar
  import opened PeriodRange
  import opened Propagation
  import opened Spec
  import opened Runs

  // ----- where a write shows ----------------------------------------------------------------

  /** Periods of `g` are made up of periods of `f`. */
  predicate Coarser(g: Granularity, f: Granularity) {
    match f
    case Hourly => g == Daily || g == Monthly || g == Yearly
    case Daily => g == Monthly || g == Yearly
    case Monthly => g == Yearly
    case _ => false
  }

  predicate NoFiner(g: Granularity, f: Granularity) { g == f || Coarser(g, f) }

  lemma ChainIsUpward(g: Granularity, f: Granularity)
    ensures g in RollupChain(f) <==> f != Timeless && NoFiner(g, f)
  {
  }

  /** Hour, day, month and year: what a write at a period of any granularity reaches. */
  lemma ReachOfAuto(name: string, finest: Granularity, p: Period)
    requires finest != Timeless
    ensures Reach(NewEventConfig(name, finest, Auto), p) ==
      KeysOf(name, {p} + set q | q in Chain(p) && NoFiner(q.Granularity(), finest))
  {
    AncestorsAreChain(p);
    var config := NewEventConfig(name, finest, Auto);
    forall q
      ensures q in RollupAncestors(config, p) <==> q in Chain(p) && q != p && NoFiner(q.Granularity(), finest)
    {
      ChainIsUpward(q.Granularity(), finest);
    }
    assert RollupAncestors(config, p) + {p} == {p} + set q | q in Chain(p) && NoFiner(q.Granularity(), finest);
    assert KeysOf(name, RollupAncestors(config, p)) + KeysOf(name, {p}) ==
      KeysOf(name, RollupAncestors(config, p) + {p});
    assert KeysOf(name, {p}) == {Key(name, p)};
  }

  lemma {:induction false} AncestorsAreChain(p: Period)
    ensures forall q :: q in p.Ancestors() <==> q in Chain(p) && q != p
    decreases p.Height()
  {
    if p.Parent().Some? {
      var q := p.Parent().value;
      AncestorsAreChain(q);
      assert p.Ancestors() == [q] + q.Ancestors();
    }
  }

  /** A period of the finest granularity reaches all of its chain. */
  lemma ReachOfOwn(name: string, p: Period)
    ensures Reach(NewEventConfig(name, p.Granularity(), Auto), p) == KeysOf(name, Chain(p))
  {
    if p.Static? {
      assert KeysOf(name, {}) == {} && KeysOf(name, {p}) == {Key(name, p)};
    } else {
      ReachOfAuto(name, p.Granularity(), p);
      assert {p} + (set q | q in Chain(p) && NoFiner(q.Granularity(), p.Granularity())) == Chain(p);
    }
  }

  lemma ReachWithoutRollup(name: string, finest: Granularity, p: Period)
    ensures Reach(NewEventConfig(name, finest, NoRollup), p) == {Key(name, p)}
  {
    assert KeysOf(name, {}) == {};
  }

  /** Whether an event rolls up, registered or not. */
  predicate RollsUp(s: Settings, events: map<string, EventConfig>, event: string) {
    if event in events then events[event].rollup == Auto
    else s.defaultRollup == Auto && s.defaultGranularity != Timeless
  }

  function FinestOf(s: Settings, events: map<string, EventConfig>, event: string): Granularity {
    if event in events then events[event].finest else s.defaultGranularity
  }

  /** The row is one of those a write of `bits` at `p` is about. */
  predicate Concerns(s: Settings, events: map<string, EventConfig>, event: string, p: Period, bits: set<u32>, row: Row)
  {
    && row.event == event && row.bit in bits
    && (row.period == p || (RollsUp(s, events, event) && row.period in Chain(p) &&
                            NoFiner(row.period.Granularity(), FinestOf(s, events, event))))
  }

  lemma CellsAreConcerned(s: Settings, events: map<string, EventConfig>, event: string, p: Period, bits: set<u32>,
                          row: Row)
    requires Canonical(events) && EnsureEvent(s, events, event).Ok?
    ensures row in Cells(Reach(EnsureEvent(s, events, event).value, p), bits) <==>
      Concerns(s, events, event, p, bits, row)
  {
    var config := EnsureEvent(s, events, event).value;
    if config.rollup == Auto {
      ReachOfAuto(event, config.finest, p);
    } else {
      ReachWithoutRollup(event, config.finest, p);
    }
  }

  /** The periods whose reads show a put: its own, and with rollup the day, the month and the year around it. */
  function ShownAt(s: Settings, events: map<string, EventConfig>, event: string, p: Period): set<Period> {
    if RollsUp(s, events, event) then Chain(p) else {p}
  }

  /** An admitted put shows at its period and, with rollup, at the day, the month and the year around it. */
  lemma PutByRow(s: Settings, m: Model, event: string, p: Period, bits: set<u32>, row: Row)
    requires Canonical(m.events) && PutSpec(s, m, event, p, bits).1.Ok?
    ensures row in PutSpec(s, m, event, p, bits).0.live <==>
      row in m.live ||
      (row.event == event && row.bit in bits && row.period in ShownAt(s, m.events, event, p))
  {
    CellsAreConcerned(s, m.events, event, p, bits, row);
  }

  lemma PutShows(s: Settings, m: Model, event: string, p: Period, bits: set<u32>)
    requires Canonical(m.events) && PutSpec(s, m, event, p, bits).1.Ok?
    ensures forall q, bit :: q in ShownAt(s, m.events, event, p) && bit in bits ==>
      Row(event, q, bit) in PutSpec(s, m, event, p, bits).0.live
  {
    forall q, bit | q in ShownAt(s, m.events, event, p) && bit in bits
      ensures Row(event, q, bit) in PutSpec(s, m, event, p, bits).0.live
    {
      PutByRow(s, m, event, p, bits, Row(event, q, bit));
    }
  }

  /** A removal takes away what its period holds and what the periods around it hold, down to the finest level. */
  lemma RemoveByRow(s: Settings, m: Model, event: string, p: Period, bits: set<u32>, row: Row)
    requires Canonical(m.events) && RemoveSpec(s, m, event, p, bits).1.Ok?
    ensures row in RemoveSpec(s, m, event, p, bits).0.live <==>
      row in m.live && !Concerns(s, m.events, event, p, bits, row)
  {
    CellsAreConcerned(s, m.events, event, p, bits, row);
  }

  /** A range write is about what writes to the periods between its bounds are about. */
  lemma RangeByRow(s: Settings, m: Model, event: string, first: Period, last: Period, bits: set<u32>, row: Row)
    requires Canonical(m.events) && RangeConfig(s, m.events, event, first, last).Ok?
    ensures row in PutRangeSpec(s, m, event, first, last, bits).0.live <==>
      row in m.live || exists p :: InRange(first, last, p) && Concerns(s, m.events, event, p, bits, row)
    ensures row in RemoveRangeSpec(s, m, event, first, last, bits).0.live <==>
      row in m.live && !exists p :: InRange(first, last, p) && Concerns(s, m.events, event, p, bits, row)
  {
    var config := RangeConfig(s, m.events, event, first, last).value;
    forall p
      ensures Key(row.event, row.period) in Reach(config, p) && row.bit in bits <==>
        Concerns(s, m.events, event, p, bits, row)
    {
      CellsAreConcerned(s, m.events, event, p, bits, row);
    }
    assert row in RangeCells(config, first, last, bits) <==>
      exists p :: InRange(first, last, p) && Concerns(s, m.events, event, p, bits, row);
  }

  // ----- which writes are admitted --------------------------------------------------------------

  /** The periods that exist, number by number. */
  lemma PeriodsThatExist(y: u16, m: u8, d: u8, h: u8)
    ensures ValidPeriod(Static) && ValidPeriod(Year(y))
    ensures ValidPeriod(Month(y, m)) <==> 1 <= m <= 12
    ensures ValidPeriod(Day(y, m, d)) <==>
      && 1 <= m <= 12 && 1 <= d <= 31 && (m == 4 || m == 6 || m == 9 || m == 11 ==> d <= 30)
      && (m == 2 ==> d <= 29) && (m == 2 && d == 29 ==> y % 4 == 0 && (y % 100 == 0 ==> y % 400 == 0))
    ensures ValidPeriod(Hour(y, m, d, h)) <==> ValidPeriod(Day(y, m, d)) && h < 24
  {
  }

  /** There is room for one more event. */
  predicate Room(s: Settings, events: map<string, EventConfig>) { s.maxEvents == 0 || |events| < s.maxEvents }

  /** The first thing that is wrong with a put decides its answer. */
  lemma PutAnswer(s: Settings, m: Model, event: string, p: Period, bits: set<u32>)
    ensures PutSpec(s, m, event, p, bits).1 ==
      if !ValidPeriod(p) then Err(InvalidPeriod)
      else if !ValidEventName(event) then Err(InvalidEventName)
      else if event !in m.events && !Room(s, m.events) then Err(Configuration)
      else if p != Static && p.Granularity() != FinestOf(s, m.events, event) then Err(GranularityMismatch)
      else Ok(())
  {
  }

  /** A removal may name any valid period. */
  lemma RemoveAnswer(s: Settings, m: Model, event: string, p: Period, bits: set<u32>)
    ensures RemoveSpec(s, m, event, p, bits).1 ==
      if !ValidPeriod(p) then Err(InvalidPeriod)
      else if !ValidEventName(event) then Err(InvalidEventName)
      else if event !in m.events && !Room(s, m.events) then Err(Configuration)
      else Ok(())
  {
  }

  /** A replacement is refused like a removal; otherwise it fails only when the part ids have run out. */
  lemma ReplaceAnswer(s: Settings, m: Model, event: string, p: Period, bits: set<u32>, idsLeft: bool)
    ensures ReplaceSpec(s, m, event, p, bits, idsLeft).1 ==
      if !ValidPeriod(p) then Err(InvalidPeriod)
      else if !ValidEventName(event) then Err(InvalidEventName)
      else if event !in m.events && !Room(s, m.events) then Err(Configuration)
      else if !idsLeft then Err(CatalogCorrupted)
      else Ok(())
  {
  }

  /** One invalid period refuses a whole list of replacements. */
  lemma BulkReplaceAnswer(s: Settings, m: Model, event: string, entries: seq<(Period, set<u32>)>, idsLeft: bool)
    ensures BulkReplaceSpec(s, m, event, entries, idsLeft).1 ==
      if exists e :: e in entries && !ValidPeriod(e.0) then Err(InvalidPeriod)
      else if !ValidEventName(event) then Err(InvalidEventName)
      else if event !in m.events && !Room(s, m.events) then Err(Configuration)
      else if !idsLeft then Err(CatalogCorrupted)
      else Ok(())
  {
  }

  /** The first thing that is wrong with a range write decides its answer; the event comes before the bounds. */
  lemma RangeWriteAnswer(s: Settings, m: Model, event: string, first: Period, last: Period, bits: set<u32>)
    ensures PutRangeSpec(s, m, event, first, last, bits).1 == RemoveRangeSpec(s, m, event, first, last, bits).1 ==
      if !ValidEventName(event) then Err(InvalidEventName)
      else if event !in m.events && !Room(s, m.events) then Err(Configuration)
      else if first == Static || last == Static || !ValidPeriod(first) || !ValidPeriod(last) then Err(InvalidPeriod)
      else if first.Granularity() != FinestOf(s, m.events, event) then Err(GranularityMismatch)
      else if last.Granularity() != FinestOf(s, m.events, event) then Err(GranularityMismatch)
      else if last.Less(first) || Ordinal(last) - Ordinal(first) >= 8784 then Err(Configuration)
      else Ok(())
  {
  }

  /** Deleting looks at the name alone, registering at the name and then at whether it is taken. */
  lemma OtherAnswers(m: Model, event: string, p: Period, g: Granularity, rollup: Rollup)
    ensures DeletePeriodSpec(m, event, p).1 == DropEventSpec(m, event).1 ==
      if ValidEventName(event) then Ok(()) else Err(InvalidEventName)
    ensures RegisterSpec(m, event, g, rollup).1 ==
      if !ValidEventName(event) then Err(InvalidEventName)
      else if event in m.events then Err(EventAlreadyRegistered)
      else Ok(())
  {
  }

  /** What a registration leaves: the event as asked for, but never a rollup without levels, and the
      others as before. */
  lemma RegisteredAsAsked(m: Model, name: string, g: Granularity, rollup: Rollup)
    requires RegisterSpec(m, name, g, rollup).1.Ok?
    ensures var (m', _) := RegisterSpec(m, name, g, rollup);
      && name !in m.events && m'.events.Keys == m.events.Keys + {name}
      && m'.events[name].name == name && m'.events[name].finest == g
      && (m'.events[name].rollup == Auto <==> rollup == Auto && g != Timeless)
      && (forall n :: n in m.events ==> m'.events[n] == m.events[n])
      && m'.live == m.live && m'.durable == m.durable
  {
  }

  // ----- how many events there can be --------------------------------------------------------------

  lemma WriteKeepsLimit(s: Settings, events: map<string, EventConfig>, name: string)
    requires 0 < s.maxEvents && |events| <= s.maxEvents && Canonical(events) && EnsureEvent(s, events, name).Ok?
    ensures |events[name := EnsureEvent(s, events, name).value]| <= s.maxEvents
  {
    if name in events {
      EnsureEventCanonical(s, events, name);
    } else {
      OneMoreEvent(events, name, EnsureEvent(s, events, name).value);
    }
  }

  lemma OneMoreEvent(events: map<string, EventConfig>, name: string, config: EventConfig)
    ensures |events[name := config]| <= |events| + 1
  {
    assert events[name := config].Keys == events.Keys + {name};
  }

  /** Any operation on a name that may come to be registered with the defaults. */
  predicate Ensures(op: Op) {
    op.Put? || op.Remove? || op.PutRange? || op.RemoveRange? || op.Replace? || op.BulkReplace?
  }

  lemma EventsAfter(s: Settings, m: Model, op: Op, idsLeft: bool)
    requires Ensures(op)
    ensures var events := Step(s, m, op, idsLeft).0.events;
      events == m.events ||
      (EnsureEvent(s, m.events, op.event).Ok? &&
       events == m.events[op.event := EnsureEvent(s, m.events, op.event).value])
  {
  }

  /** Other operations register nothing. */
  lemma EventsStay(s: Settings, m: Model, op: Op, idsLeft: bool)
    requires !Ensures(op) && !op.RegisterEvent?
    ensures Step(s, m, op, idsLeft).0.events == m.events ||
            (op.DropEvent? && Step(s, m, op, idsLeft).0.events == m.events - {op.event})
  {
  }

  lemma StepKeepsLimit(s: Settings, m: Model, e: Event)
    requires 0 < s.maxEvents && Canonical(m.events) && |m.events| <= s.maxEvents && !e.op.RegisterEvent?
    ensures var m' := Step(s, m, e.op, e.idsLeft).0; Canonical(m'.events) && |m'.events| <= s.maxEvents
  {
    hide Step, EnsureEvent;
    if Ensures(e.op) {
      EventsAfter(s, m, e.op, e.idsLeft);
      if EnsureEvent(s, m.events, e.op.event).Ok? {
        WriteKeepsLimit(s, m.events, e.op.event);
        EnsureEventCanonical(s, m.events, e.op.event);
      }
    } else {
      EventsStay(s, m, e.op, e.idsLeft);
      if e.op.DropEvent? {
        assert (m.events - {e.op.event}).Keys == m.events.Keys - {e.op.event};
      }
    }
  }

  /** Writes never register more events than the limit allows. */
  lemma {:induction false} EventLimit(s: Settings, log: seq<Event>)
    requires 0 < s.maxEvents && forall i :: 0 <= i < |log| ==> !log[i].op.RegisterEvent?
    ensures Canonical(After(s, EMPTY, log).events) && |After(s, EMPTY, log).events| <= s.maxEvents
    decreases |log|
  {
    if log != [] {
      var before := log[..|log| - 1];
      EventLimit(s, before);
      StepKeepsLimit(s, After(s, EMPTY, before), log[|log| - 1]);
    }
  }

  // ----- how long a range may be ----------------------------------------------------------------------

  /** From the first hour of a year to its last there are 24 hours for each of its days. */
  lemma HoursOfYear(y: u16, p: Period)
    requires ValidPeriod(p) && p.Hour? && p.year == y
    ensures Ordinal(Hour(y, 1, 1, 0)) <= Ordinal(p) <= Ordinal(Hour(y, 12, 31, 23))
    ensures Ordinal(Hour(y, 12, 31, 23)) == Ordinal(Hour(y, 1, 1, 0)) + 24 * (if IsLeap(y) then 366 else 365) - 1
  {
    YearSteps(y);
    MonthsFillYear(y);
    if p != Hour(y, 1, 1, 0) { OrdinalOrders(Hour(y, 1, 1, 0), p); }
    if p != Hour(y, 12, 31, 23) { OrdinalOrders(p, Hour(y, 12, 31, 23)); }
  }

  /** Any hours of one year, first not after last, make up a range. */
  lemma HoursOfOneYearAreAdmitted(config: EventConfig, first: Period, last: Period)
    requires config.finest == Hourly && first.Hour? && last.Hour? && first.year == last.year
    requires ValidPeriod(first) && ValidPeriod(last) && !last.Less(first)
    ensures CheckRange(config, first, last) == Ok(())
  {
    HoursOfYear(first.year, first);
    HoursOfYear(first.year, last);
  }

  lemma HoursAhead(y: u16)
    requires y < 0xFFFF
    ensures var n := Ordinal(Hour(y, 1, 1, 0)) + 24 * YearLength(y);
      && Ordinal(Hour(y + 1, 1, 1, 0)) == n && Ordinal(Hour(y + 1, 1, 1, 23)) == n + 23
      && Ordinal(Hour(y + 1, 1, 2, 0)) == n + 24
  {
    YearSteps(y);
  }

  /** A leap year from its first hour to its last is the longest range of hours that is admitted. */
  lemma LeapYearIsTheLongest(config: EventConfig, y: u16)
    requires config.finest == Hourly && y < 0xFFFF
    ensures IsLeap(y) ==> CheckRange(config, Hour(y, 1, 1, 0), Hour(y, 12, 31, 23)) == Ok(())
    ensures IsLeap(y) ==> CheckRange(config, Hour(y, 1, 1, 0), Hour(y + 1, 1, 1, 0)) == Err(Configuration)
    ensures !IsLeap(y) ==> CheckRange(config, Hour(y, 1, 1, 0), Hour(y + 1, 1, 1, 23)) == Ok(())
    ensures !IsLeap(y) ==> CheckRange(config, Hour(y, 1, 1, 0), Hour(y + 1, 1, 2, 0)) == Err(Configuration)
  {
    hide Ordinal, IsLeap;
    HoursOfYear(y, Hour(y, 1, 1, 0));
    HoursAhead(y);
  }

  /** The checks of a range in their order; what they let through has at most 8784 periods. */
  lemma RangeAnswer(config: EventConfig, first: Period, last: Period)
    ensures CheckRange(config, first, last) ==
      if first == Static || last == Static || !ValidPeriod(first) || !ValidPeriod(last) then Err(InvalidPeriod)
      else if first.Granularity() != config.finest || last.Granularity() != config.finest then Err(GranularityMismatch)
      else if last.Less(first) || Ordinal(last) - Ordinal(first) >= 8784 then Err(Configuration)
      else Ok(())
  {
  }
}
