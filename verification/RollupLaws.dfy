/** What rollup keeps over whole histories: every coarser level stays within the union of the
    level below it, and is that union as long as nothing has been removed. */
module RollupLaws {
  import opened Types
  import opened Propagation
  import opened Spec
  import opened Rules
  import opened Runs

  /** The operation leaves the stored sets of `name` to puts and removals. */
  predicate OnlyPutsAndRemoves(op: Op, name: string) {
    match op
    case Replace(event, _, _) => event != name
    case BulkReplace(event, _) => event != name
    case DeletePeriod(event, _) => event != name
    case DropEvent(event) => event != name
    case _ => true
  }

  predicate IsRemoval(op: Op, name: string) {
    match op
    case Remove(event, _, _) => event == name
    case RemoveRange(event, _, _, _) => event == name
    case _ => false
  }

  ghost predicate HasChild(rows: iset<Row>, r: Row) {
    exists c: Period :: c.Parent() == Some(r.period) && Row(r.event, c, r.bit) in rows
  }

  /** The row sits above the event's finest level. */
  predicate RolledUp(r: Row, config: EventConfig) {
    r.event == config.name && Coarser(r.period.Granularity(), config.finest)
  }

  /** The row sits right below a level the event rolls up to. */
  predicate BelowChain(r: Row, config: EventConfig) {
    && r.event == config.name && r.period.Parent().Some?
    && NoFiner(r.period.Parent().value.Granularity(), config.finest)
  }

  /** The row of the same id one level up. */
  function Up(r: Row): Row
    requires r.period.Parent().Some?
  {
    Row(r.event, r.period.Parent().value, r.bit)
  }

  /** Every id at a rolled-up level is present one level down. */
  ghost predicate Contained(rows: iset<Row>, config: EventConfig) {
    forall r :: r in rows && RolledUp(r, config) ==> HasChild(rows, r)
  }

  /** Every id below a level of the chain is present at that level. */
  ghost predicate ClosedUpward(rows: iset<Row>, config: EventConfig) {
    forall r :: r in rows && BelowChain(r, config) ==> Up(r) in rows
  }

  lemma {:induction false} AncestorChain(p: Period, q: Period)
    requires q in p.Ancestors()
    ensures exists c: Period :: c.Parent() == Some(q) && (c == p || c in p.Ancestors())
    ensures q.Parent().Some? ==> q.Parent().value in p.Ancestors()
    decreases p.Height()
  {
    var up := p.Parent().value;
    assert p.Ancestors() == [up] + up.Ancestors();
    if q == up {
      assert p.Parent() == Some(q);
      assert q.Parent().Some? ==> q.Ancestors()[0] == q.Parent().value;
    } else {
      assert q in up.Ancestors();
      AncestorChain(up, q);
      var c: Period :| c.Parent() == Some(q) && (c == up || c in up.Ancestors());
      assert c in p.Ancestors();
    }
  }

  /** The configuration is as its constructor makes it, and rolls up. */
  predicate Rolling(config: EventConfig) {
    config == NewEventConfig(config.name, config.finest, config.rollup) && config.rollup == Auto
  }

  /** Right above a level that takes part there is another one, and right below a coarser one, too. */
  lemma ChainLevels(config: EventConfig, c: Period, q: Period)
    requires Rolling(config) && c.Parent() == Some(q)
    ensures NoFiner(c.Granularity(), config.finest) ==> Coarser(q.Granularity(), config.finest)
    ensures Coarser(q.Granularity(), config.finest) ==> NoFiner(c.Granularity(), config.finest)
    ensures NoFiner(q.Granularity(), config.finest) <==> q.Granularity() in config.chain
    ensures NoFiner(c.Granularity(), config.finest) <==> c.Granularity() in config.chain
  {
    ChainIsUpward(q.Granularity(), config.finest);
    ChainIsUpward(c.Granularity(), config.finest);
  }

  /** What reaches a period reaches its parent too, as long as the parent takes part. */
  lemma ReachClosedUpward(config: EventConfig, p: Period, c: Period, q: Period)
    requires Rolling(config) && c.Parent() == Some(q) && NoFiner(q.Granularity(), config.finest)
    requires Key(config.name, c) in Reach(config, p)
    ensures Key(config.name, q) in Reach(config, p)
  {
    ChainLevels(config, c, q);
    if c == p {
      assert p.Ancestors()[0] == q;
      assert q in p.Ancestors();
    } else {
      assert c in p.Ancestors();
      AncestorChain(p, c);
    }
    assert q in RollupAncestors(config, p);
  }

  /** A rolled-up level reached from a finest period is reached through one of its children. */
  lemma ReachedThroughChild(config: EventConfig, p: Period, q: Period)
    requires Rolling(config) && p.Granularity() == config.finest && Coarser(q.Granularity(), config.finest)
    requires Key(config.name, q) in Reach(config, p)
    ensures exists c: Period :: c.Parent() == Some(q) && Key(config.name, c) in Reach(config, p)
  {
    assert q != p;
    assert q in p.Ancestors();
    AncestorChain(p, q);
    var c: Period :| c.Parent() == Some(q) && (c == p || c in p.Ancestors());
    ChainLevels(config, c, q);
    assert Key(config.name, c) in Reach(config, p);
  }

  lemma RemovingKeepsContained(rows: iset<Row>, cells: iset<Row>, config: EventConfig)
    requires Contained(rows, config) && ClosedUpward(cells, config)
    ensures Contained(rows - cells, config)
  {
    var rest := rows - cells;
    forall r | r in rest && RolledUp(r, config)
      ensures HasChild(rest, r)
    {
      assert HasChild(rows, r);
      var c: Period :| c.Parent() == Some(r.period) && Row(r.event, c, r.bit) in rows;
      var below := Row(r.event, c, r.bit);
      assert BelowChain(below, config) && Up(below) == r;
      assert below in rest;
    }
  }

  lemma CellsClosedUpward(config: EventConfig, p: Period, bits: set<u32>)
    requires Rolling(config)
    ensures ClosedUpward(Cells(Reach(config, p), bits), config)
  {
    forall r | r in Cells(Reach(config, p), bits) && BelowChain(r, config)
      ensures Up(r) in Cells(Reach(config, p), bits)
    {
      ReachClosedUpward(config, p, r.period, r.period.Parent().value);
    }
  }

  lemma RangeCellsClosedUpward(config: EventConfig, first: Period, last: Period, bits: set<u32>)
    requires Rolling(config)
    ensures ClosedUpward(RangeCells(config, first, last, bits), config)
  {
    forall r | r in RangeCells(config, first, last, bits) && BelowChain(r, config)
      ensures Up(r) in RangeCells(config, first, last, bits)
    {
      var p :| InRange(first, last, p) && Key(r.event, r.period) in Reach(config, p);
      ReachClosedUpward(config, p, r.period, r.period.Parent().value);
    }
  }

  lemma CellsContained(config: EventConfig, p: Period, bits: set<u32>)
    requires Rolling(config)
    requires p.Static? || p.Granularity() == config.finest
    ensures Contained(Cells(Reach(config, p), bits), config)
  {
    var cells := Cells(Reach(config, p), bits);
    forall r | r in cells && RolledUp(r, config)
      ensures HasChild(cells, r)
    {
      if !p.Static? {
        ReachedThroughChild(config, p, r.period);
        var c: Period :| c.Parent() == Some(r.period) && Key(config.name, c) in Reach(config, p);
        assert Row(r.event, c, r.bit) in cells;
      }
    }
  }

  lemma RangeCellsContained(config: EventConfig, first: Period, last: Period, bits: set<u32>)
    requires Rolling(config)
    requires CheckRange(config, first, last).Ok?
    ensures Contained(RangeCells(config, first, last, bits), config)
  {
    var cells := RangeCells(config, first, last, bits);
    forall r | r in cells && RolledUp(r, config)
      ensures HasChild(cells, r)
    {
      var p :| InRange(first, last, p) && Key(r.event, r.period) in Reach(config, p);
      ReachedThroughChild(config, p, r.period);
      var c: Period :| c.Parent() == Some(r.period) && Key(config.name, c) in Reach(config, p);
      assert Row(r.event, c, r.bit) in cells;
    }
  }

  // ----- whole histories ----------------------------------------------------------------------

  ghost predicate NoRowsOf(rows: iset<Row>, name: string) { forall r :: r in rows ==> r.event != name }

  /** What holds of the rows of `name` along every history that leaves them to puts and removals. */
  ghost predicate Kept(events: map<string, EventConfig>, rows: iset<Row>, name: string, removed: bool) {
    && (name !in events ==> NoRowsOf(rows, name))
    && (name in events && events[name].rollup == Auto ==>
         Contained(rows, events[name]) && (!removed ==> ClosedUpward(rows, events[name])))
  }

  ghost predicate RollupKept(m: Model, name: string, removed: bool) {
    Canonical(m.events) && Kept(m.events, m.live, name, removed) && Kept(m.events, m.durable, name, removed)
  }

  ghost predicate SameRowsOf(rows: iset<Row>, rows': iset<Row>, name: string) {
    forall r: Row :: r.event == name ==> (r in rows <==> r in rows')
  }

  lemma KeptElsewhere(events: map<string, EventConfig>, events': map<string, EventConfig>,
                      rows: iset<Row>, rows': iset<Row>, name: string, removed: bool)
    requires Canonical(events) && Kept(events, rows, name, removed) && SameRowsOf(rows, rows', name)
    requires name in events ==> name in events' && events'[name] == events[name]
    requires Canonical(events')
    ensures Kept(events', rows', name, removed)
  {
  }

  /** Registering the event of a write leaves what is kept as it is. */
  lemma KeptOnRegistering(s: Settings, m: Model, event: string, name: string, removed: bool)
    requires RollupKept(m, name, removed) && EnsureEvent(s, m.events, event).Ok?
    ensures var config := EnsureEvent(s, m.events, event).value;
      RollupKept(m.(events := m.events[event := config]), name, removed)
  {
  }

  lemma KeptByAdding(m: Model, cells: iset<Row>, config: EventConfig, name: string, removed: bool)
    requires RollupKept(m, name, removed) && config.name in m.events && m.events[config.name] == config
    requires forall r :: r in cells ==> r.event == config.name
    requires config.rollup == Auto ==> Contained(cells, config) && ClosedUpward(cells, config)
    ensures RollupKept(m.(live := m.live + cells), name, removed)
  {
  }

  lemma KeptByRemoving(m: Model, cells: iset<Row>, config: EventConfig, name: string, removed: bool)
    requires RollupKept(m, name, removed) && config.name in m.events && m.events[config.name] == config
    requires forall r :: r in cells ==> r.event == config.name
    requires config.rollup == Auto ==> ClosedUpward(cells, config)
    requires removed || config.name != name
    ensures RollupKept(m.(live := m.live - cells), name, removed)
  {
    if config.name == name {
      if config.rollup == Auto {
        RemovingKeepsContained(m.live, cells, config);
      }
    } else {
      KeptElsewhere(m.events, m.events, m.live, m.live - cells, name, removed);
    }
  }

  lemma WriteKeepsRollup(s: Settings, m: Model, op: Op, name: string, removed: bool)
    requires RollupKept(m, name, removed) && (op.Put? || op.PutRange?)
    ensures RollupKept(Step(s, m, op, true).0, name, removed)
  {
    if EnsureEvent(s, m.events, op.event).Ok? {
      var config := EnsureEvent(s, m.events, op.event).value;
      EnsureEventCanonical(s, m.events, op.event);
      KeptOnRegistering(s, m, op.event, name, removed);
      var m1 := m.(events := m.events[op.event := config]);
      if op.Put? {
        if config.rollup == Auto && (op.period.Static? || op.period.Granularity() == config.finest) {
          CellsContained(config, op.period, op.bits);
          CellsClosedUpward(config, op.period, op.bits);
        }
        if op.period.Static? || op.period.Granularity() == config.finest {
          KeptByAdding(m1, Cells(Reach(config, op.period), op.bits), config, name, removed);
        }
      } else if CheckRange(config, op.first, op.last).Ok? {
        if config.rollup == Auto {
          RangeCellsContained(config, op.first, op.last, op.bits);
          RangeCellsClosedUpward(config, op.first, op.last, op.bits);
        }
        KeptByAdding(m1, RangeCells(config, op.first, op.last, op.bits), config, name, removed);
      }
    }
  }

  lemma RemovalKeepsRollup(s: Settings, m: Model, op: Op, name: string, removed: bool)
    requires RollupKept(m, name, removed) && (op.Remove? || op.RemoveRange?)
    requires removed || op.event != name
    ensures RollupKept(Step(s, m, op, true).0, name, removed)
  {
    if EnsureEvent(s, m.events, op.event).Ok? {
      var config := EnsureEvent(s, m.events, op.event).value;
      EnsureEventCanonical(s, m.events, op.event);
      KeptOnRegistering(s, m, op.event, name, removed);
      var m1 := m.(events := m.events[op.event := config]);
      if op.Remove? {
        if config.rollup == Auto { CellsClosedUpward(config, op.period, op.bits); }
        KeptByRemoving(m1, Cells(Reach(config, op.period), op.bits), config, name, removed);
      } else if CheckRange(config, op.first, op.last).Ok? {
        if config.rollup == Auto { RangeCellsClosedUpward(config, op.first, op.last, op.bits); }
        KeptByRemoving(m1, RangeCells(config, op.first, op.last, op.bits), config, name, removed);
      }
    }
  }

  lemma OverwriteAllElsewhere(rows: iset<Row>, event: string, entries: seq<(Period, set<u32>)>, name: string)
    requires event != name
    ensures SameRowsOf(rows, OverwriteAll(rows, event, entries), name)
  {
  }

  /** The rows and the registration of an event are those of before. */
  ghost predicate Untouched(m: Model, m': Model, name: string) {
    && Canonical(m'.events) && (name in m.events ==> name in m'.events && m'.events[name] == m.events[name])
    && SameRowsOf(m.live, m'.live, name) && SameRowsOf(m.durable, m'.durable, name)
  }

  lemma OtherSetsStay(s: Settings, m: Model, op: Op, idsLeft: bool, name: string)
    requires Canonical(m.events) && OnlyPutsAndRemoves(op, name)
    requires op.Replace? || op.DeletePeriod? || op.DropEvent?
    ensures Untouched(m, Step(s, m, op, idsLeft).0, name)
  {
    if op.Replace? && EnsureEvent(s, m.events, op.event).Ok? {
      EnsureEventCanonical(s, m.events, op.event);
    }
  }

  lemma OtherListsStay(s: Settings, m: Model, op: Op, idsLeft: bool, name: string)
    requires Canonical(m.events) && OnlyPutsAndRemoves(op, name) && op.BulkReplace?
    ensures Untouched(m, Step(s, m, op, idsLeft).0, name)
  {
    if EnsureEvent(s, m.events, op.event).Ok? {
      EnsureEventCanonical(s, m.events, op.event);
    }
    OverwriteAllElsewhere(m.live, op.event, op.entries, name);
    OverwriteAllElsewhere(m.durable, op.event, op.entries, name);
  }

  lemma OtherKeepsRollup(s: Settings, m: Model, op: Op, idsLeft: bool, name: string, removed: bool)
    requires RollupKept(m, name, removed) && OnlyPutsAndRemoves(op, name)
    requires op.Replace? || op.BulkReplace? || op.DeletePeriod? || op.DropEvent?
    ensures RollupKept(Step(s, m, op, idsLeft).0, name, removed)
  {
    hide Kept, Step, SameRowsOf;
    var m' := Step(s, m, op, idsLeft).0;
    if op.BulkReplace? {
      OtherListsStay(s, m, op, idsLeft, name);
    } else {
      OtherSetsStay(s, m, op, idsLeft, name);
    }
    KeptElsewhere(m.events, m'.events, m.live, m'.live, name, removed);
    KeptElsewhere(m.events, m'.events, m.durable, m'.durable, name, removed);
  }

  lemma StepKeepsRollup(s: Settings, m: Model, e: Event, name: string, removed: bool)
    requires RollupKept(m, name, removed) && OnlyPutsAndRemoves(e.op, name)
    requires IsRemoval(e.op, name) ==> removed
    ensures RollupKept(Step(s, m, e.op, e.idsLeft).0, name, removed)
  {
    var m' := Step(s, m, e.op, e.idsLeft).0;
    match e.op {
      case Put(_, _, _) => WriteKeepsRollup(s, m, e.op, name, removed);
      case PutRange(_, _, _, _) => WriteKeepsRollup(s, m, e.op, name, removed);
      case Remove(_, _, _) => RemovalKeepsRollup(s, m, e.op, name, removed);
      case RemoveRange(_, _, _, _) => RemovalKeepsRollup(s, m, e.op, name, removed);
      case Replace(_, _, _) => OtherKeepsRollup(s, m, e.op, e.idsLeft, name, removed);
      case BulkReplace(_, _) => OtherKeepsRollup(s, m, e.op, e.idsLeft, name, removed);
      case DeletePeriod(_, _) => OtherKeepsRollup(s, m, e.op, e.idsLeft, name, removed);
      case DropEvent(_) => OtherKeepsRollup(s, m, e.op, e.idsLeft, name, removed);
      case RegisterEvent(_, _, _) =>
        KeptElsewhere(m.events, m'.events, m.live, m'.live, name, removed);
        KeptElsewhere(m.events, m'.events, m.durable, m'.durable, name, removed);
      case _ =>
    }
  }

  lemma {:induction false} HistoryKeepsRollup(s: Settings, log: seq<Event>, name: string, removed: bool)
    requires forall i :: 0 <= i < |log| ==>
      OnlyPutsAndRemoves(log[i].op, name) && (IsRemoval(log[i].op, name) ==> removed)
    ensures RollupKept(After(s, EMPTY, log), name, removed)
    decreases |log|
  {
    if log != [] {
      var before := log[..|log| - 1];
      HistoryKeepsRollup(s, before, name, removed);
      StepKeepsRollup(s, After(s, EMPTY, before), log[|log| - 1], name, removed);
    }
  }

  /** Along any history that changes an Auto event only by puts and removals, with flushes,
      compactions, crashes and id shortages anywhere, a rolled-up level never holds an id its
      children lack, in memory or on disk; and without removals it holds exactly their union. */
  lemma RollupContainment(s: Settings, log: seq<Event>, name: string, r: Row)
    requires forall i :: 0 <= i < |log| ==> OnlyPutsAndRemoves(log[i].op, name)
    requires var m := After(s, EMPTY, log);
      name in m.events && m.events[name].rollup == Auto && RolledUp(r, m.events[name])
    ensures var m := After(s, EMPTY, log);
      (r in m.live ==> HasChild(m.live, r)) && (r in m.durable ==> HasChild(m.durable, r))
    ensures var m := After(s, EMPTY, log);
      (forall i :: 0 <= i < |log| ==> !IsRemoval(log[i].op, name)) ==>
        (r in m.live <==> HasChild(m.live, r)) && (r in m.durable <==> HasChild(m.durable, r))
  {
    var m := After(s, EMPTY, log);
    HistoryKeepsRollup(s, log, name, true);
    assert m.events[name].name == name;
    if forall i :: 0 <= i < |log| ==> !IsRemoval(log[i].op, name) {
      HistoryKeepsRollup(s, log, name, false);
      if HasChild(m.live, r) { ChildrenShowAbove(m.live, m.events[name], r); }
      if HasChild(m.durable, r) { ChildrenShowAbove(m.durable, m.events[name], r); }
    }
  }

  lemma ChildrenShowAbove(rows: iset<Row>, config: EventConfig, r: Row)
    requires ClosedUpward(rows, config) && RolledUp(r, config) && HasChild(rows, r)
    ensures r in rows
  {
    var c: Period :| c.Parent() == Some(r.period) && Row(r.event, c, r.bit) in rows;
    assert Up(Row(r.event, c, r.bit)) == r;
  }
}
