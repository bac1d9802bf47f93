/** Durable state as a machine that may crash between any two of its steps: a part file
    appears, the open transaction is edited, committed or lost, a file is deleted. */
module Durability {
  import opened Types
  import opened Calendar
  import opened Catalog

  /** `tables` is the last commit, `txn` the open transaction (equal to `tables` when none is
      open), `cursor` the next reserved part id the transaction will use. */
  datatype Machine = Machine(tables: Tables, txn: Tables, files: Files, cursor: nat)

  datatype Action =
    | Reserve(count: nat)
    | WriteFile(path: Path, bits: set<u32>)
    | AddData(part: Part)
    | AddDelta(part: Part)
    | Replace(part: Part, state: PeriodState, stale: set<u64>)
    | ErasePeriod(key: Key)
    | EraseEvent(name: string)
    | Register(config: EventConfig)
    | MarkState(key: Key, state: PeriodState)
    | Commit
    | Abort
    | DeleteFile(path: Path)
    | Crash

  const EMPTY_MACHINE := Machine(EMPTY_TABLES, EMPTY_TABLES, map[], 1)

  /** The part record matches a file written under the next reserved id. */
  predicate Recordable(m: Machine, part: Part) {
    && part.partId == m.cursor < m.txn.nextPartId
    && part.file.partId == part.partId
    && part.event in m.txn.events && ValidPeriod(part.period)
    && part.file in m.files && part.cardinality == |m.files[part.file]|
  }

  predicate Enabled(m: Machine, a: Action) {
    match a
    case Reserve(count) => m.cursor == m.txn.nextPartId && AllocPartIds(m.txn, count).Ok?
    case WriteFile(path, _) => path.partId == m.cursor < m.txn.nextPartId
    case AddData(part) => part.kind == Data && Recordable(m, part)
    case AddDelta(part) => part.kind == Delta && Recordable(m, part)
    case Replace(part, _, stale) =>
      part.kind == Data && Recordable(m, part) && part.partId !in stale &&
      forall id | id in stale && id in m.txn.parts :: m.txn.parts[id].Owner() == part.Owner()
    case Register(config) =>
      ValidEventName(config.name) && config == NewEventConfig(config.name, config.finest, config.rollup)
    case DeleteFile(path) => m.txn == m.tables && path.partId !in m.tables.parts
    case _ => true
  }

  function Apply(m: Machine, a: Action): Machine
    requires Enabled(m, a)
  {
    match a
    case Reserve(count) => m.(txn := AllocPartIds(m.txn, count).value)
    case WriteFile(path, bits) => m.(files := m.files[path := bits])
    case AddData(part) => m.(txn := RecordData(m.txn, part), cursor := m.cursor + 1)
    case AddDelta(part) => m.(txn := RecordDelta(m.txn, part), cursor := m.cursor + 1)
    case Replace(part, state, stale) =>
      m.(txn := RecordReplacement(m.txn, part, state, stale), cursor := m.cursor + 1)
    case ErasePeriod(key) => m.(txn := DeletePeriod(m.txn, key))
    case EraseEvent(name) => m.(txn := DeleteEvent(m.txn, name))
    case Register(config) => m.(txn := RegisterEvent(m.txn, config))
    case MarkState(key, state) => m.(txn := SetPeriodState(m.txn, key, state))
    case Commit => m.(tables := m.txn, cursor := m.txn.nextPartId)
    case Abort => m.(txn := m.tables, cursor := m.tables.nextPartId)
    case DeleteFile(path) => m.(files := m.files - {path})
    case Crash => m.(txn := m.tables, cursor := m.tables.nextPartId)
  }

  // ----- what every step keeps -------------------------------------------------------

  ghost predicate Sound(m: Machine) {
    && WellFormed(m.tables, m.tables.nextPartId) && FilesMatch(m.tables, m.files)
    && WellFormed(m.txn, m.cursor) && FilesMatch(m.txn, m.files)
    && m.tables.nextPartId <= m.cursor <= m.txn.nextPartId
    && Canonical(m.tables.events) && Canonical(m.txn.events)
    && forall id :: id in m.txn.parts && id < m.tables.nextPartId ==>
         id in m.tables.parts && m.txn.parts[id] == m.tables.parts[id]
  }

  /** The bits of a key as of the last commit. */
  ghost function Committed(m: Machine, k: Key): set<u32> { OnDisk(m.tables, m.files, k) }

  /** The bits of a key as the open transaction would leave them. */
  ghost function Pending(m: Machine, k: Key): set<u32> { OnDisk(m.txn, m.files, k) }

  /** What the open transaction's view of `k` becomes. */
  ghost function PendingAfter(m: Machine, a: Action, k: Key): set<u32>
    requires Enabled(m, a)
  {
    match a
    case AddData(part) => Pending(m, k) + if k == part.Owner() then m.files[part.file] else {}
    case AddDelta(part) => Pending(m, k) - if k == part.Owner() then m.files[part.file] else {}
    case Replace(part, _, _) => if k == part.Owner() then m.files[part.file] else Pending(m, k)
    case ErasePeriod(key) => if k == key then {} else Pending(m, k)
    case EraseEvent(name) => if k.event == name then {} else Pending(m, k)
    case Abort => Committed(m, k)
    case Crash => Committed(m, k)
    case _ => Pending(m, k)
  }

  lemma WideWellFormed(t: Tables, bound: int, wider: int)
    requires WellFormed(t, bound) && bound <= wider
    ensures WellFormed(t, wider)
  {
  }

  lemma FileStep(m: Machine, a: Action)
    requires Sound(m) && Enabled(m, a) && (a.WriteFile? || a.DeleteFile?)
    ensures Sound(Apply(m, a))
    ensures forall k :: Pending(Apply(m, a), k) == Pending(m, k)
    ensures forall k :: Committed(Apply(m, a), k) == Committed(m, k)
  {
    var m' := Apply(m, a);
    if a.WriteFile? {
      FreshIsUnreferenced(m.tables, m.tables.nextPartId, a.path);
      FreshIsUnreferenced(m.txn, m.cursor, a.path);
    } else {
      assert Unreferenced(m.tables, a.path);
    }
    UnreferencedFile(m.tables, m.files, m'.files, a.path);
    UnreferencedFile(m.txn, m.files, m'.files, a.path);
  }

  lemma RecordStep(m: Machine, a: Action)
    requires Sound(m) && Enabled(m, a) && (a.AddData? || a.AddDelta? || a.Replace?)
    ensures Sound(Apply(m, a))
    ensures forall k :: Pending(Apply(m, a), k) == PendingAfter(m, a, k)
  {
    hide OnDisk, WellFormed, FilesMatch, FileOk;
    assert ReadyPart(m.txn, m.files, a.part);
    match a {
      case AddData(part) => RecordDataEffect(m.txn, m.files, part);
      case AddDelta(part) => RecordDeltaEffect(m.txn, m.files, part);
      case Replace(part, state, stale) => RecordReplacementEffect(m.txn, m.files, part, state, stale);
    }
  }

  lemma EraseStep(m: Machine, a: Action)
    requires Sound(m) && Enabled(m, a) && (a.ErasePeriod? || a.EraseEvent?)
    ensures Sound(Apply(m, a))
    ensures forall k :: Pending(Apply(m, a), k) == PendingAfter(m, a, k)
  {
    match a {
      case ErasePeriod(key) => DeletePeriodEffect(m.txn, m.files, m.cursor, key);
      case EraseEvent(name) => DeleteEventEffect(m.txn, m.files, m.cursor, name);
    }
  }

  lemma BookkeepingStep(m: Machine, a: Action)
    requires Sound(m) && Enabled(m, a) && (a.Reserve? || a.Register? || a.MarkState?)
    ensures Sound(Apply(m, a))
    ensures forall k :: Pending(Apply(m, a), k) == Pending(m, k)
  {
    BookkeepingOnly(m.txn, Apply(m, a).txn, m.files, m.cursor);
  }

  lemma BoundaryStep(m: Machine, a: Action)
    requires Sound(m) && (a.Commit? || a.Abort? || a.Crash?)
    ensures Sound(Apply(m, a))
    ensures forall k :: Pending(Apply(m, a), k) == PendingAfter(m, a, k)
  {
    WideWellFormed(m.txn, m.cursor, m.txn.nextPartId);
  }

  /** Every step keeps the machine sound, changes the pending view as its action says, and
      leaves the committed view alone unless it is the commit that publishes the pending one. */
  lemma StepEffect(m: Machine, a: Action)
    requires Sound(m) && Enabled(m, a)
    ensures Sound(Apply(m, a))
    ensures forall k :: Pending(Apply(m, a), k) == PendingAfter(m, a, k)
    ensures forall k :: Committed(Apply(m, a), k) == if a.Commit? then Pending(m, k) else Committed(m, k)
  {
    match a {
      case WriteFile(_, _) => FileStep(m, a);
      case DeleteFile(_) => FileStep(m, a);
      case AddData(_) => RecordStep(m, a);
      case AddDelta(_) => RecordStep(m, a);
      case Replace(_, _, _) => RecordStep(m, a);
      case ErasePeriod(_) => EraseStep(m, a);
      case EraseEvent(_) => EraseStep(m, a);
      case Reserve(_) => BookkeepingStep(m, a);
      case Register(_) => BookkeepingStep(m, a);
      case MarkState(_, _) => BookkeepingStep(m, a);
      case Commit => BoundaryStep(m, a);
      case Abort => BoundaryStep(m, a);
      case Crash => BoundaryStep(m, a);
    }
  }

  /** A part listed before and after a step keeps its record, and its file keeps its content. */
  lemma ListedPartIsStable(m: Machine, a: Action, k: Key, id: u64)
    requires Sound(m) && Enabled(m, a)
    requires id in KeyIds(m.tables, k) && id in KeyIds(Apply(m, a).tables, k)
    ensures var m' := Apply(m, a);
      && id in m.tables.parts && id in m'.tables.parts && m'.tables.parts[id] == m.tables.parts[id]
      && FileOk(m.tables, m.files, id) && FileOk(m'.tables, m'.files, id)
      && m'.files[m.tables.parts[id].file] == m.files[m.tables.parts[id].file]
  {
    hide Committed, Pending, PendingAfter, OnDisk, WellFormed, FilesMatch;
    var m' := Apply(m, a);
    StepEffect(m, a);
    ListedIds(m.tables, m.tables.nextPartId, k, id);
    ListedFile(m.tables, m.files, k, id);
    ListedFile(m'.tables, m'.files, k, id);
    assert m'.tables.parts[id] == m.tables.parts[id];
  }

  lemma ListedFile(t: Tables, files: Files, k: Key, id: u64)
    requires FilesMatch(t, files) && id in KeyIds(t, k)
    ensures FileOk(t, files, id)
  {
  }

  // ----- runs ---------------------------------------------------------------------------

  ghost predicate Legal(start: Machine, actions: seq<Action>)
    decreases |actions|, 0
  {
    actions == [] ||
    (Legal(start, actions[..|actions| - 1]) &&
     Enabled(Run(start, actions[..|actions| - 1]), actions[|actions| - 1]))
  }

  ghost function Run(start: Machine, actions: seq<Action>): Machine
    requires Legal(start, actions)
    decreases |actions|, 1
  {
    if actions == [] then start
    else Apply(Run(start, actions[..|actions| - 1]), actions[|actions| - 1])
  }

  lemma {:induction false} RunIsSound(start: Machine, actions: seq<Action>)
    requires Sound(start) && Legal(start, actions)
    ensures Sound(Run(start, actions))
    decreases |actions|
  {
    if actions != [] {
      var before := actions[..|actions| - 1];
      RunIsSound(start, before);
      StepEffect(Run(start, before), actions[|actions| - 1]);
    }
  }

  lemma {:induction false} LegalPrefix(start: Machine, actions: seq<Action>, n: nat)
    requires Legal(start, actions) && n <= |actions|
    ensures Legal(start, actions[..n])
    decreases |actions|
  {
    if n < |actions| {
      var before := actions[..|actions| - 1];
      LegalPrefix(start, before, n);
      assert before[..n] == actions[..n];
    } else {
      assert actions[..n] == actions;
    }
  }

  /** Everything the last commit made durable. */
  ghost function View(m: Machine): iset<Row> {
    iset r: Row | r.bit in Committed(m, Key(r.event, r.period))
  }

  lemma SameView(m: Machine, m': Machine)
    requires forall k :: Committed(m', k) == Committed(m, k)
    ensures View(m') == View(m)
  {
  }

  /** A crash leaves what is committed and nothing in flight. */
  lemma CrashKeepsView(m: Machine)
    requires Sound(m)
    ensures var crashed := Apply(m, Crash); Sound(crashed) && Quiet(crashed) && View(crashed) == View(m)
  {
    StepEffect(m, Crash);
    SameView(m, Apply(m, Crash));
  }

  /** The views published so far: the initial one, then one for every commit. */
  ghost function Published(start: Machine, actions: seq<Action>): seq<iset<Row>>
    requires Legal(start, actions)
    ensures |Published(start, actions)| >= 1
    decreases |actions|
  {
    if actions == [] then [View(start)]
    else
      var before := Published(start, actions[..|actions| - 1]);
      if actions[|actions| - 1].Commit? then before + [View(Run(start, actions))] else before
  }

  /** A crash after any `n` steps recovers the view that the last commit among them
      published; what was published until then is a prefix of what is published later. */
  lemma {:induction false} CrashRecoversLastCommit(start: Machine, actions: seq<Action>, n: nat)
    requires Sound(start) && Legal(start, actions) && n <= |actions|
    ensures Legal(start, actions[..n])
    ensures var crashed := Apply(Run(start, actions[..n]), Crash);
            var published := Published(start, actions[..n]);
      && Sound(crashed) && Quiet(crashed)
      && View(crashed) == published[|published| - 1]
      && published <= Published(start, actions)
    decreases |actions|, n
  {
    hide Sound, Quiet, View, Apply, Enabled;
    LegalPrefix(start, actions, n);
    if n < |actions| {
      var before := actions[..|actions| - 1];
      CrashRecoversLastCommit(start, before, n);
      assert before[..n] == actions[..n];
    } else {
      assert actions[..n] == actions;
      RunIsSound(start, actions);
      CrashKeepsView(Run(start, actions));
      LastPublishedIsCurrent(start, actions);
    }
  }

  lemma {:induction false} LastPublishedIsCurrent(start: Machine, actions: seq<Action>)
    requires Sound(start) && Legal(start, actions)
    ensures var published := Published(start, actions); published[|published| - 1] == View(Run(start, actions))
    decreases |actions|
  {
    if actions != [] {
      var before := actions[..|actions| - 1];
      LastPublishedIsCurrent(start, before);
      RunIsSound(start, before);
      StepEffect(Run(start, before), actions[|actions| - 1]);
      if !actions[|actions| - 1].Commit? {
        SameView(Run(start, before), Run(start, actions));
      }
    }
  }

  // ----- what crashes recover, step by step ----------------------------------------------

  /** What a crash recovers after no step, after one step, and so on. */
  ghost function Recovered(start: Machine, actions: seq<Action>): (views: seq<iset<Row>>)
    requires Legal(start, actions)
    ensures |views| == |actions| + 1
    decreases |actions|
  {
    var last := [View(Apply(Run(start, actions), Crash))];
    if actions == [] then last else Recovered(start, actions[..|actions| - 1]) + last
  }

  lemma {:induction false} RecoveredAt(start: Machine, actions: seq<Action>, n: nat)
    requires Legal(start, actions) && n <= |actions|
    ensures Legal(start, actions[..n])
    ensures Recovered(start, actions)[n] == View(Apply(Run(start, actions[..n]), Crash))
    decreases |actions|
  {
    LegalPrefix(start, actions, n);
    if n < |actions| {
      var before := actions[..|actions| - 1];
      RecoveredAt(start, before, n);
      assert before[..n] == actions[..n];
    } else {
      assert actions[..n] == actions;
    }
  }

  /** A crash now recovers what is committed now. */
  lemma LastRecovered(start: Machine, actions: seq<Action>)
    requires Sound(start) && Legal(start, actions)
    ensures Recovered(start, actions)[|actions|] == View(Run(start, actions))
  {
    RecoveredAt(start, actions, |actions|);
    assert actions[..|actions|] == actions;
    RunIsSound(start, actions);
    CrashKeepsView(Run(start, actions));
  }

  /** `later` goes on from `earlier`. */
  predicate GoesOn(earlier: seq<iset<Row>>, later: seq<iset<Row>>) {
    earlier <= later && (earlier == [] ==> later == [])
  }

  /** Between `earlier` and `later` a crash recovers what it did before. */
  ghost predicate Kept(earlier: seq<iset<Row>>, later: seq<iset<Row>>) {
    GoesOn(earlier, later) && forall i :: |earlier| <= i < |later| ==> later[i] == earlier[|earlier| - 1]
  }

  /** Between `earlier` and `later` a crash recovers what it did before, up to a step from which on it recovers what it
      does in the end. */
  ghost predicate Atomic(earlier: seq<iset<Row>>, later: seq<iset<Row>>) {
    GoesOn(earlier, later) &&
    forall i, j :: |earlier| <= i <= j < |later| ==>
      later[i] == earlier[|earlier| - 1] || later[j] == later[|later| - 1]
  }

  lemma LastKept(a: seq<iset<Row>>, b: seq<iset<Row>>)
    requires Kept(a, b) && (a != [] || b != [])
    ensures a != [] && b != [] && b[|b| - 1] == a[|a| - 1]
  {
    if |a| == |b| {
      assert a == b;
    }
  }

  lemma KeptTwice(a: seq<iset<Row>>, b: seq<iset<Row>>, c: seq<iset<Row>>)
    requires Kept(a, b) && Kept(b, c)
    ensures Kept(a, c)
  {
    forall i | |a| <= i < |c|
      ensures c[i] == a[|a| - 1]
    {
      LastKept(a, b);
      assert i < |b| ==> c[i] == b[i];
    }
  }

  lemma KeptThenAtomic(a: seq<iset<Row>>, b: seq<iset<Row>>, c: seq<iset<Row>>)
    requires Kept(a, b) && Atomic(b, c)
    ensures Atomic(a, c)
  {
    forall i, j | |a| <= i <= j < |c|
      ensures c[i] == a[|a| - 1] || c[j] == c[|c| - 1]
    {
      LastKept(a, b);
      assert i < |b| ==> c[i] == b[i];
    }
  }

  lemma AtomicThenKept(a: seq<iset<Row>>, b: seq<iset<Row>>, c: seq<iset<Row>>)
    requires Atomic(a, b) && Kept(b, c)
    ensures Atomic(a, c)
  {
    forall i, j | |a| <= i <= j < |c|
      ensures c[i] == a[|a| - 1] || c[j] == c[|c| - 1]
    {
      LastKept(b, c);
      assert j < |b| ==> c[i] == b[i] && c[j] == b[j];
    }
  }

  lemma KeptIsAtomic(a: seq<iset<Row>>, b: seq<iset<Row>>)
    requires Kept(a, b)
    ensures Atomic(a, b)
  {
  }

  /** Nothing has moved if a crash recovers in the end what it did before. */
  lemma AtomicIsKept(a: seq<iset<Row>>, b: seq<iset<Row>>)
    requires Atomic(a, b) && a != [] && b[|b| - 1] == a[|a| - 1]
    ensures Kept(a, b)
  {
    assert forall i :: |a| <= i < |b| ==> b[i] == a[|a| - 1] || b[i] == b[|b| - 1];
  }

  lemma Unchanged(a: seq<iset<Row>>)
    ensures Kept(a, a) && Atomic(a, a)
  {
  }

  /** Nothing is in flight. */
  predicate Quiet(m: Machine) { m.txn == m.tables && m.cursor == m.tables.nextPartId }

  /** The machine together with the record of everything done to it. */
  class Disk {
    var state: Machine
    ghost const origin: Machine
    ghost var journal: seq<Action>
    /** What a crash recovers, after every number of steps. */
    ghost var recovered: seq<iset<Row>>

    ghost predicate Valid()
      reads this
    {
      && Sound(origin) && Legal(origin, journal) && state == Run(origin, journal)
      && recovered == Recovered(origin, journal)
    }

    lemma StateIsSound()
      requires Valid()
      ensures Sound(state)
    {
      RunIsSound(origin, journal);
    }

    lemma RecoversNow()
      requires Valid()
      ensures |recovered| == |journal| + 1 && recovered[|journal|] == View(state)
    {
      LastRecovered(origin, journal);
    }

    constructor ()
      ensures Valid() && state == origin == EMPTY_MACHINE && journal == [] && recovered == [View(EMPTY_MACHINE)]
    {
      state := EMPTY_MACHINE;
      origin := EMPTY_MACHINE;
      journal := [];
      recovered := [View(EMPTY_MACHINE)];
      new;
      LastRecovered(origin, journal);
    }

    /** One atomic step. */
    method Do(a: Action)
      requires Valid() && Enabled(state, a)
      modifies this
      ensures Valid() && state == Apply(old(state), a)
      ensures journal == old(journal) + [a]
      ensures recovered == old(recovered) + [View(state)]
      ensures if a.Commit? then Atomic(old(recovered), recovered) else Kept(old(recovered), recovered)
      ensures forall k :: Pending(state, k) == PendingAfter(old(state), a, k)
      ensures forall k :: Committed(state, k) == if a.Commit? then Pending(old(state), k) else Committed(old(state), k)
    {
      StateIsSound();
      RecoversNow();
      StepEffect(state, a);
      state := Apply(state, a);
      journal := journal + [a];
      assert journal[..|journal| - 1] == old(journal);
      recovered := recovered + [View(state)];
      LastRecovered(origin, journal);
      if !a.Commit? {
        SameView(old(state), state);
      }
    }
  }
}
