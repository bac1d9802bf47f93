/** Whole histories of the store's relation: who wrote a bit last, what ranges amount to,
    and what rollup keeps. */
module Runs {
  import opened Types
  import opened Calendar
  import opened PeriodRange
  import opened Propagation
  import opened Spec

  /** One completed operation; `idsLeft` is false when the part-id counter ran out under it. */
  datatype Event = Event(op: Op, idsLeft: bool)

  ghost function After(s: Settings, m: Model, log: seq<Event>): Model
    decreases |log|
  {
    if log == [] then m
    else Step(s, After(s, m, log[..|log| - 1]), log[|log| - 1].op, log[|log| - 1].idsLeft).0
  }

  /** The state in which event `i` of a history from the empty store took place. */
  ghost function StateAt(s: Settings, log: seq<Event>, i: nat): Model
    requires i <= |log|
  {
    After(s, EMPTY, log[..i])
  }

  // ----- last writer wins -------------------------------------------------------------

  /** The configuration an operation on `name` works with in state `m`. */
  ghost function ConfigFor(s: Settings, m: Model, name: string): Result<EventConfig> { EnsureEvent(s, m.events, name) }

  /** The operation, carried out in `m`, establishes the row. */
  ghost predicate Writes(s: Settings, m: Model, op: Op, row: Row) {
    match op
    case Put(event, p, bits) =>
      PutSpec(s, m, event, p, bits).1.Ok? &&
      row in Cells(Reach(ConfigFor(s, m, event).value, p), bits)
    case PutRange(event, first, last, bits) =>
      PutRangeSpec(s, m, event, first, last, bits).1.Ok? &&
      row in RangeCells(ConfigFor(s, m, event).value, first, last, bits)
    case Replace(event, p, bits) =>
      ReplaceSpec(s, m, event, p, bits, true).1.Ok? && row in Cells({Key(event, p)}, bits)
    case BulkReplace(event, entries) =>
      BulkReplaceSpec(s, m, event, entries, true).1.Ok? &&
      Key(row.event, row.period) in EntryKeys(event, entries) &&
      row.bit in LastEntry(event, entries, Key(row.event, row.period), {})
    case _ => false
  }

  /** The operation, carried out in `m`, takes the row away, whether or not it was there. */
  ghost predicate Erases(s: Settings, m: Model, op: Op, row: Row) {
    match op
    case Remove(event, p, bits) =>
      RemoveSpec(s, m, event, p, bits).1.Ok? &&
      row in Cells(Reach(ConfigFor(s, m, event).value, p), bits)
    case RemoveRange(event, first, last, bits) =>
      RemoveRangeSpec(s, m, event, first, last, bits).1.Ok? &&
      row in RangeCells(ConfigFor(s, m, event).value, first, last, bits)
    case Replace(event, p, bits) =>
      ReplaceSpec(s, m, event, p, bits, true).1.Ok? &&
      Key(row.event, row.period) == Key(event, p) && row.bit !in bits
    case BulkReplace(event, entries) =>
      BulkReplaceSpec(s, m, event, entries, true).1.Ok? &&
      Key(row.event, row.period) in EntryKeys(event, entries) &&
      row.bit !in LastEntry(event, entries, Key(row.event, row.period), {})
    case DeletePeriod(event, p) => ValidEventName(event) && Key(row.event, row.period) == Key(event, p)
    case DropEvent(event) => ValidEventName(event) && row.event == event
    case _ => false
  }

  /** The operation only fills the buffer. */
  predicate Buffered(op: Op) { op.Put? || op.Remove? || op.PutRange? || op.RemoveRange? }

  /** A replacement takes effect only if the part-id counter served it. */
  predicate Served(e: Event) { e.op.Replace? || e.op.BulkReplace? ==> e.idsLeft }

  /** The event makes everything that was only buffered durable. */
  predicate Settles(e: Event) { e.op.Flush? && e.idsLeft }

  /** The event, taking place in `m`, drops what was only buffered about the row: a reopening does, a flush that runs
      out of ids, and a replacement of its key that does. */
  ghost predicate FallsBack(s: Settings, m: Model, e: Event, row: Row) {
    match e.op
    case Reopen => true
    case Flush => !e.idsLeft
    case Replace(event, p, bits) =>
      !e.idsLeft && ReplaceSpec(s, m, event, p, bits, true).1.Ok? && Key(row.event, row.period) == Key(event, p)
    case BulkReplace(event, entries) =>
      !e.idsLeft && BulkReplaceSpec(s, m, event, entries, true).1.Ok? &&
      Key(row.event, row.period) in EntryKeys(event, entries)
    case _ => false
  }

  /** What one event does to one row, in memory and on disk. */
  lemma StepByRow(s: Settings, m: Model, e: Event, row: Row)
    ensures var m' := Step(s, m, e.op, e.idsLeft).0;
            var writes, erases := Served(e) && Writes(s, m, e.op, row), Served(e) && Erases(s, m, e.op, row);
      && (row in m'.live <==>
          if FallsBack(s, m, e, row) then row in m.durable else writes || (row in m.live && !erases))
      && (row in m'.durable <==>
          if Settles(e) then row in m.live
          else if Buffered(e.op) then row in m.durable
          else writes || (row in m.durable && !erases))
      && !(writes && erases) && !(Settles(e) && FallsBack(s, m, e, row))
      && (Settles(e) || FallsBack(s, m, e, row) ==> !writes && !erases && !Buffered(e.op))
  {
    if e.op.BulkReplace? {
      OverwriteAllByKey(m.live, e.op.event, e.op.entries, row);
      OverwriteAllByKey(m.durable, e.op.event, e.op.entries, row);
    }
  }

  // Two flags, one for memory and one for disk, under events that set or clear them.

  datatype Mark = Mark(sets: bool, clears: bool, buffered: bool, settles: bool, reverts: bool)

  predicate Clear(m: Mark) {
    !(m.sets && m.clears) && !(m.settles && m.reverts) &&
    (m.settles || m.reverts ==> !m.sets && !m.clears && !m.buffered)
  }

  predicate AllClear(ms: seq<Mark>) { forall m | m in ms :: Clear(m) }

  /** Among the first `n` events, one drops what event `i` had only buffered. */
  ghost predicate Loses(ms: seq<Mark>, i: nat, n: nat)
    requires i < n <= |ms|
  {
    ms[i].buffered && exists j :: LosesAt(ms, i, j, n)
  }

  predicate LosesAt(ms: seq<Mark>, i: nat, j: int, n: nat)
    requires n <= |ms|
  {
    i < j < n && ms[j].reverts && forall k | i < k < j :: !ms[k].settles
  }

  /** Within the first `n` events, event `i` has reached the disk. */
  ghost predicate Keeps(ms: seq<Mark>, i: nat, n: nat)
    requires i < n <= |ms|
  {
    !ms[i].buffered || exists j :: KeepsAt(ms, i, j, n)
  }

  predicate KeepsAt(ms: seq<Mark>, i: nat, j: int, n: nat)
    requires n <= |ms|
  {
    i < j < n && ms[j].settles && forall k | i < k < j :: !ms[k].reverts
  }

  /** Event `i` is still only in the buffer after `n` events. */
  predicate Waits(ms: seq<Mark>, i: nat, n: nat)
    requires i < n <= |ms|
  {
    ms[i].buffered && forall k | i < k < n :: !ms[k].settles && !ms[k].reverts
  }

  /** Every event waits, is kept or is lost, and only an event that waits can change its fate. */
  lemma {:induction false} FateStep(ms: seq<Mark>, i: nat, n: nat)
    requires i < n < |ms| && AllClear(ms)
    ensures !(Loses(ms, i, n) && Keeps(ms, i, n))
    ensures Loses(ms, i, n + 1) <==> Loses(ms, i, n) || (ms[n].reverts && !Keeps(ms, i, n))
    ensures Keeps(ms, i, n + 1) <==> Keeps(ms, i, n) || (ms[n].settles && !Loses(ms, i, n))
    ensures Waits(ms, i, n) <==> !Loses(ms, i, n) && !Keeps(ms, i, n)
  {
    OneFate(ms, i, n);
    OneFate(ms, i, n + 1);
    assert Clear(ms[n]);
    if Loses(ms, i, n) {
      var j :| LosesAt(ms, i, j, n);
      assert LosesAt(ms, i, j, n + 1);
    }
    if Keeps(ms, i, n) && ms[i].buffered {
      var j :| KeepsAt(ms, i, j, n);
      assert KeepsAt(ms, i, j, n + 1);
    }
    if Waits(ms, i, n) {
      assert ms[n].reverts ==> LosesAt(ms, i, n, n + 1);
      assert ms[n].settles ==> KeepsAt(ms, i, n, n + 1);
    }
  }

  lemma {:induction false} OneFate(ms: seq<Mark>, i: nat, n: nat)
    requires i < n <= |ms| && AllClear(ms)
    ensures Waits(ms, i, n) || Loses(ms, i, n) || Keeps(ms, i, n)
    ensures !(Waits(ms, i, n) && Loses(ms, i, n)) && !(Waits(ms, i, n) && Keeps(ms, i, n))
    ensures !(Loses(ms, i, n) && Keeps(ms, i, n))
  {
    if i + 1 < n {
      OneFate(ms, i, n - 1);
      assert Clear(ms[n - 1]);
      if Waits(ms, i, n - 1) {
        assert ms[n - 1].reverts ==> LosesAt(ms, i, n - 1, n);
        assert ms[n - 1].settles ==> KeepsAt(ms, i, n - 1, n);
      } else if Loses(ms, i, n - 1) {
        var j :| LosesAt(ms, i, j, n - 1);
        assert LosesAt(ms, i, j, n);
      } else if ms[i].buffered {
        var j :| KeepsAt(ms, i, j, n - 1);
        assert KeepsAt(ms, i, j, n);
      }
    }
    if Loses(ms, i, n) {
      var j :| LosesAt(ms, i, j, n);
      assert Clear(ms[j]);
      assert forall k :: !KeepsAt(ms, i, k, n);
    }
  }

  ghost predicate SetLast(ms: seq<Mark>, i: int, n: nat)
    requires n <= |ms|
  {
    0 <= i < n && ms[i].sets && !Loses(ms, i, n) && forall j :: i < j < n && ms[j].clears ==> Loses(ms, j, n)
  }

  ghost predicate KeptLast(ms: seq<Mark>, i: int, n: nat)
    requires n <= |ms|
  {
    0 <= i < n && ms[i].sets && Keeps(ms, i, n) && forall j :: i < j < n && ms[j].clears ==> !Keeps(ms, j, n)
  }

  /** The flags move as the marks say. */
  predicate Follows(ms: seq<Mark>, live: seq<bool>, durable: seq<bool>) {
    && |live| == |durable| == |ms| + 1 && !live[0] && !durable[0] && AllClear(ms)
    && forall i | 0 <= i < |ms| ::
         && live[i + 1] == (if ms[i].reverts then durable[i] else ms[i].sets || (live[i] && !ms[i].clears))
         && durable[i + 1] == if ms[i].settles then live[i]
                              else if ms[i].buffered then durable[i]
                              else ms[i].sets || (durable[i] && !ms[i].clears)
  }

  /** How the last setters change under one more event. */
  lemma LastStep(ms: seq<Mark>, i: int, n: nat)
    requires AllClear(ms) && n < |ms| && i < n
    ensures SetLast(ms, i, n + 1) <==>
      if ms[n].reverts then KeptLast(ms, i, n) else SetLast(ms, i, n) && !ms[n].clears
    ensures KeptLast(ms, i, n + 1) <==>
      if ms[n].settles then SetLast(ms, i, n) else KeptLast(ms, i, n) && (ms[n].buffered || !ms[n].clears)
  {
    assert Clear(ms[n]);
    forall j | 0 <= j < n
      ensures Loses(ms, j, n + 1) <==> Loses(ms, j, n) || (ms[n].reverts && !Keeps(ms, j, n))
      ensures Keeps(ms, j, n + 1) <==> Keeps(ms, j, n) || (ms[n].settles && !Loses(ms, j, n))
      ensures !(Loses(ms, j, n) && Keeps(ms, j, n))
    {
      FateStep(ms, j, n);
    }
    NewestFate(ms, n);
  }

  lemma NewestFate(ms: seq<Mark>, n: nat)
    requires n < |ms|
    ensures !Loses(ms, n, n + 1) && (Keeps(ms, n, n + 1) <==> !ms[n].buffered)
    ensures SetLast(ms, n, n + 1) <==> ms[n].sets
    ensures KeptLast(ms, n, n + 1) <==> ms[n].sets && !ms[n].buffered
  {
  }

  /** A flag is up exactly when an event set it whose effect counts, and every later one that cleared it does not. */
  lemma {:induction false} FlagHistory(ms: seq<Mark>, live: seq<bool>, durable: seq<bool>, n: nat)
    requires Follows(ms, live, durable) && n <= |ms|
    ensures live[n] <==> exists i :: SetLast(ms, i, n)
    ensures durable[n] <==> exists i :: KeptLast(ms, i, n)
  {
    if n > 0 {
      var m := n - 1;
      FlagHistory(ms, live, durable, m);
      NewestFate(ms, m);
      assert Clear(ms[m]);
      forall i | i < m
        ensures SetLast(ms, i, n) <==> if ms[m].reverts then KeptLast(ms, i, m) else SetLast(ms, i, m) && !ms[m].clears
        ensures KeptLast(ms, i, n) <==>
          if ms[m].settles then SetLast(ms, i, m) else KeptLast(ms, i, m) && (ms[m].buffered || !ms[m].clears)
      {
        LastStep(ms, i, m);
      }
      LiveStep(ms, live, durable, m, n);
      DurableStep(ms, live, durable, m, n);
    }
  }

  lemma LiveStep(ms: seq<Mark>, live: seq<bool>, durable: seq<bool>, m: nat, n: nat)
    requires Follows(ms, live, durable) && n == m + 1 <= |ms|
    requires live[m] <==> exists i :: SetLast(ms, i, m)
    requires durable[m] <==> exists i :: KeptLast(ms, i, m)
    requires SetLast(ms, m, n) <==> ms[m].sets
    requires forall i :: i < m ==>
      (SetLast(ms, i, n) <==> if ms[m].reverts then KeptLast(ms, i, m) else SetLast(ms, i, m) && !ms[m].clears)
    ensures live[n] <==> exists i :: SetLast(ms, i, n)
  {
    assert Clear(ms[m]);
    if live[n] {
      if ms[m].reverts {
        var i :| KeptLast(ms, i, m);
        assert SetLast(ms, i, n);
      } else if ms[m].sets {
        assert SetLast(ms, m, n);
      } else {
        var i :| SetLast(ms, i, m);
        assert SetLast(ms, i, n);
      }
    }
    if exists i :: SetLast(ms, i, n) {
      var i :| SetLast(ms, i, n);
      if i < m {
        assert if ms[m].reverts then KeptLast(ms, i, m) else SetLast(ms, i, m);
      }
    }
  }

  lemma DurableStep(ms: seq<Mark>, live: seq<bool>, durable: seq<bool>, m: nat, n: nat)
    requires Follows(ms, live, durable) && n == m + 1 <= |ms|
    requires live[m] <==> exists i :: SetLast(ms, i, m)
    requires durable[m] <==> exists i :: KeptLast(ms, i, m)
    requires KeptLast(ms, m, n) <==> ms[m].sets && !ms[m].buffered
    requires forall i :: i < m ==>
      (KeptLast(ms, i, n) <==>
       if ms[m].settles then SetLast(ms, i, m) else KeptLast(ms, i, m) && (ms[m].buffered || !ms[m].clears))
    ensures durable[n] <==> exists i :: KeptLast(ms, i, n)
  {
    assert Clear(ms[m]);
    if durable[n] {
      if ms[m].settles {
        var i :| SetLast(ms, i, m);
        assert KeptLast(ms, i, n);
      } else if ms[m].sets && !ms[m].buffered {
        assert KeptLast(ms, m, n);
      } else {
        var i :| KeptLast(ms, i, m);
        assert KeptLast(ms, i, n);
      }
    }
    if exists i :: KeptLast(ms, i, n) {
      var i :| KeptLast(ms, i, n);
      if i < m {
        assert if ms[m].settles then SetLast(ms, i, m) else KeptLast(ms, i, m);
      }
    }
  }

  // What the flags amount to in a history of the store.

  ghost predicate WritesAt(s: Settings, log: seq<Event>, row: Row, i: nat)
    requires i < |log|
  {
    Served(log[i]) && Writes(s, StateAt(s, log, i), log[i].op, row)
  }

  ghost predicate ErasesAt(s: Settings, log: seq<Event>, row: Row, i: nat)
    requires i < |log|
  {
    Served(log[i]) && Erases(s, StateAt(s, log, i), log[i].op, row)
  }

  ghost predicate FallsBackAt(s: Settings, log: seq<Event>, row: Row, i: nat)
    requires i < |log|
  {
    FallsBack(s, StateAt(s, log, i), log[i], row)
  }

  /** What event `i` did to the row was only buffered, and event `j` dropped it before a flush came. */
  ghost predicate DroppedAt(s: Settings, log: seq<Event>, row: Row, i: nat, j: int) {
    i < j < |log| && FallsBackAt(s, log, row, j) && forall k :: i < k < j ==> !Settles(log[k])
  }

  ghost predicate Lost(s: Settings, log: seq<Event>, row: Row, i: nat)
    requires i < |log|
  {
    Buffered(log[i].op) && exists j :: DroppedAt(s, log, row, i, j)
  }

  /** Event `j` flushed what event `i` did to the row, with nothing dropping it in between. */
  ghost predicate FlushedAt(s: Settings, log: seq<Event>, row: Row, i: nat, j: int) {
    i < j < |log| && Settles(log[j]) && forall k :: i < k < j ==> !FallsBackAt(s, log, row, k)
  }

  ghost predicate OnRecord(s: Settings, log: seq<Event>, row: Row, i: nat)
    requires i < |log|
  {
    !Buffered(log[i].op) || exists j :: FlushedAt(s, log, row, i, j)
  }

  /** Event `i` wrote the row and was not lost, and every later event that erased it was. */
  ghost predicate WrittenLast(s: Settings, log: seq<Event>, row: Row, i: int) {
    0 <= i < |log| && WritesAt(s, log, row, i) && !Lost(s, log, row, i) &&
    forall j :: i < j < |log| && ErasesAt(s, log, row, j) ==> Lost(s, log, row, j)
  }

  ghost predicate WrittenAndKept(s: Settings, log: seq<Event>, row: Row) {
    exists i :: WrittenLast(s, log, row, i)
  }

  /** Event `i` wrote the row and has reached the disk, and no later event that has reached it erased the row. */
  ghost predicate RecordedLast(s: Settings, log: seq<Event>, row: Row, i: int) {
    0 <= i < |log| && WritesAt(s, log, row, i) && OnRecord(s, log, row, i) &&
    forall j :: i < j < |log| && ErasesAt(s, log, row, j) ==> !OnRecord(s, log, row, j)
  }

  ghost predicate WrittenAndRecorded(s: Settings, log: seq<Event>, row: Row) {
    exists i :: RecordedLast(s, log, row, i)
  }

  ghost function MarkAt(s: Settings, log: seq<Event>, row: Row, i: nat): Mark
    requires i < |log|
  {
    Mark(WritesAt(s, log, row, i), ErasesAt(s, log, row, i), Buffered(log[i].op), Settles(log[i]),
         FallsBackAt(s, log, row, i))
  }

  ghost function Marks(s: Settings, log: seq<Event>, row: Row): (ms: seq<Mark>)
    ensures |ms| == |log|
  {
    seq(|log|, i requires 0 <= i < |log| => MarkAt(s, log, row, i))
  }

  lemma EventByRow(s: Settings, log: seq<Event>, row: Row, i: nat)
    requires i < |log|
    ensures var m := MarkAt(s, log, row, i);
      && Clear(m)
      && (row in StateAt(s, log, i + 1).live <==>
          if m.reverts then row in StateAt(s, log, i).durable
          else m.sets || (row in StateAt(s, log, i).live && !m.clears))
      && (row in StateAt(s, log, i + 1).durable <==>
          if m.settles then row in StateAt(s, log, i).live
          else if m.buffered then row in StateAt(s, log, i).durable
          else m.sets || (row in StateAt(s, log, i).durable && !m.clears))
  {
    assert log[..i + 1][..i] == log[..i] && log[..i + 1][i] == log[i];
    StepByRow(s, StateAt(s, log, i), log[i], row);
  }

  ghost function Lives(s: Settings, log: seq<Event>, row: Row): seq<bool> {
    seq(|log| + 1, i requires 0 <= i <= |log| => row in StateAt(s, log, i).live)
  }

  ghost function Durables(s: Settings, log: seq<Event>, row: Row): seq<bool> {
    seq(|log| + 1, i requires 0 <= i <= |log| => row in StateAt(s, log, i).durable)
  }

  lemma HistoryFollows(s: Settings, log: seq<Event>, row: Row)
    ensures Follows(Marks(s, log, row), Lives(s, log, row), Durables(s, log, row))
  {
    hide StateAt, MarkAt;
    var ms, live, durable := Marks(s, log, row), Lives(s, log, row), Durables(s, log, row);
    assert StateAt(s, log, 0) == EMPTY by { NothingYet(s, log); }
    forall i | 0 <= i < |log|
      ensures Clear(ms[i])
      ensures live[i + 1] == if ms[i].reverts then durable[i] else ms[i].sets || (live[i] && !ms[i].clears)
      ensures durable[i + 1] == if ms[i].settles then live[i]
                                else if ms[i].buffered then durable[i]
                                else ms[i].sets || (durable[i] && !ms[i].clears)
    {
      EventByRow(s, log, row, i);
    }
  }

  lemma NothingYet(s: Settings, log: seq<Event>)
    ensures StateAt(s, log, 0) == EMPTY
  {
  }

  lemma FatesAgree(s: Settings, log: seq<Event>, row: Row, i: nat)
    requires i < |log|
    ensures Lost(s, log, row, i) <==> Loses(Marks(s, log, row), i, |log|)
    ensures OnRecord(s, log, row, i) <==> Keeps(Marks(s, log, row), i, |log|)
  {
    var ms := Marks(s, log, row);
    assert forall k :: 0 <= k < |log| ==>
      ms[k].settles == Settles(log[k]) && ms[k].reverts == FallsBackAt(s, log, row, k);
    forall j
      ensures DroppedAt(s, log, row, i, j) <==> LosesAt(ms, i, j, |log|)
      ensures FlushedAt(s, log, row, i, j) <==> KeepsAt(ms, i, j, |log|)
    {
      if 0 <= j < |log| { assert ms[j] == MarkAt(s, log, row, j); }
    }
  }

  lemma LastsAgree(s: Settings, log: seq<Event>, row: Row, i: int)
    ensures SetLast(Marks(s, log, row), i, |log|) <==> WrittenLast(s, log, row, i)
    ensures KeptLast(Marks(s, log, row), i, |log|) <==> RecordedLast(s, log, row, i)
  {
    var ms := Marks(s, log, row);
    forall j | 0 <= j < |log|
      ensures Lost(s, log, row, j) <==> Loses(ms, j, |log|)
      ensures OnRecord(s, log, row, j) <==> Keeps(ms, j, |log|)
    {
      FatesAgree(s, log, row, j);
    }
    assert forall j :: 0 <= j < |log| ==> ms[j] == MarkAt(s, log, row, j);
  }

  /** The last writer wins, in every history: whatever flushes, compactions and reopenings it holds and whether or not
      the part ids last, reads show a row exactly when some event wrote it that was not lost, and all later events that
      erased it were. The disk holds the row exactly when the same is true of the events that have reached it. */
  lemma LastWriterWins(s: Settings, log: seq<Event>, row: Row)
    ensures row in After(s, EMPTY, log).live <==> WrittenAndKept(s, log, row)
    ensures row in After(s, EMPTY, log).durable <==> WrittenAndRecorded(s, log, row)
  {
    var n, ms := |log|, Marks(s, log, row);
    HistoryFollows(s, log, row);
    FlagHistory(ms, Lives(s, log, row), Durables(s, log, row), n);
    assert log[..n] == log;
    forall i
      ensures SetLast(ms, i, n) <==> WrittenLast(s, log, row, i)
      ensures KeptLast(ms, i, n) <==> RecordedLast(s, log, row, i)
    {
      LastsAgree(s, log, row, i);
    }
  }

  /** Without reopenings and with ids to spare nothing is ever lost, and the rule is the plain one: a row is there
      exactly when some operation wrote it and no later one erased it, wherever flushes and compactions fall. */
  lemma NothingLost(s: Settings, log: seq<Event>, row: Row)
    requires forall j :: 0 <= j < |log| ==> log[j].idsLeft && !log[j].op.Reopen?
    ensures row in After(s, EMPTY, log).live <==>
      exists i :: 0 <= i < |log| && WritesAt(s, log, row, i) && forall j :: i < j < |log| ==> !ErasesAt(s, log, row, j)
  {
    LastWriterWins(s, log, row);
    forall i | 0 <= i < |log|
      ensures !Lost(s, log, row, i)
    {
      assert forall j :: !DroppedAt(s, log, row, i, j);
    }
    assert forall i :: 0 <= i < |log| && WritesAt(s, log, row, i) ==>
      (WrittenLast(s, log, row, i) <==> forall j :: i < j < |log| ==> !ErasesAt(s, log, row, j));
  }

  // ----- a range write is the loop of its single writes -----------------------------------

  ghost function PutEach(s: Settings, m: Model, event: string, ps: seq<Period>, bits: set<u32>): Model
    decreases |ps|
  {
    if ps == [] then m else PutSpec(s, PutEach(s, m, event, ps[..|ps| - 1], bits), event, ps[|ps| - 1], bits).0
  }

  ghost function RemoveEach(s: Settings, m: Model, event: string, ps: seq<Period>, bits: set<u32>): Model
    decreases |ps|
  {
    if ps == [] then m else RemoveSpec(s, RemoveEach(s, m, event, ps[..|ps| - 1], bits), event, ps[|ps| - 1], bits).0
  }

  lemma CellsAddUp(rows: iset<Row>, a: set<Key>, b: set<Key>, bits: set<u32>)
    ensures rows + Cells(a, bits) + Cells(b, bits) == rows + Cells(a + b, bits)
    ensures rows - Cells(a, bits) - Cells(b, bits) == rows - Cells(a + b, bits)
  {
  }

  lemma NoBuckets(rows: iset<Row>, config: EventConfig, ps: seq<Period>, bits: set<u32>)
    ensures rows + Cells(RangeReach(config, ps[..0]), bits) == rows
    ensures rows - Cells(RangeReach(config, ps[..0]), bits) == rows
  {
  }

  lemma OneWrite(s: Settings, m: Model, event: string, config: EventConfig, p: Period, bits: set<u32>)
    requires EnsureEvent(s, m.events, event) == Ok(config) && ValidPeriod(p) && p.Granularity() == config.finest
    ensures PutSpec(s, m, event, p, bits).0 ==
      Model(m.events[event := config], m.live + Cells(Reach(config, p), bits), m.durable)
    ensures RemoveSpec(s, m, event, p, bits).0 ==
      Model(m.events[event := config], m.live - Cells(Reach(config, p), bits), m.durable)
    ensures m.events[event := config][event := config] == m.events[event := config]
    ensures EnsureEvent(s, m.events[event := config], event) == Ok(config)
  {
  }

  /** One more bucket, on top of writes that have reached `sofar`. */
  lemma OneMoreWrite(s: Settings, m: Model, event: string, config: EventConfig, sofar: set<Key>, p: Period,
                     bits: set<u32>)
    requires EnsureEvent(s, m.events, event) == Ok(config) && ValidPeriod(p) && p.Granularity() == config.finest
    ensures var events, reached := m.events[event := config], sofar + Reach(config, p);
      && PutSpec(s, Model(events, m.live + Cells(sofar, bits), m.durable), event, p, bits).0
         == Model(events, m.live + Cells(reached, bits), m.durable)
      && RemoveSpec(s, Model(events, m.live - Cells(sofar, bits), m.durable), event, p, bits).0
         == Model(events, m.live - Cells(reached, bits), m.durable)
  {
    OneWrite(s, m, event, config, p, bits);
    CellsAddUp(m.live, sofar, Reach(config, p), bits);
  }

  lemma {:induction false} PutEachReaches(s: Settings, m: Model, event: string, config: EventConfig, ps: seq<Period>,
                                          bits: set<u32>, n: nat)
    requires 1 <= n <= |ps| && EnsureEvent(s, m.events, event) == Ok(config)
    requires forall p :: p in ps ==> ValidPeriod(p) && p.Granularity() == config.finest
    ensures PutEach(s, m, event, ps[..n], bits) ==
      Model(m.events[event := config], m.live + Cells(RangeReach(config, ps[..n]), bits), m.durable)
  {
    assert ps[..n][..n - 1] == ps[..n - 1] && ps[..n][n - 1] == ps[n - 1];
    RangeReachGrows(config, ps, n - 1);
    if n == 1 {
      NoBuckets(m.live, config, ps, bits);
      OneWrite(s, m, event, config, ps[0], bits);
    } else {
      PutEachReaches(s, m, event, config, ps, bits, n - 1);
      OneMoreWrite(s, m, event, config, RangeReach(config, ps[..n - 1]), ps[n - 1], bits);
    }
  }

  lemma {:induction false} RemoveEachReaches(s: Settings, m: Model, event: string, config: EventConfig,
                                             ps: seq<Period>, bits: set<u32>, n: nat)
    requires 1 <= n <= |ps| && EnsureEvent(s, m.events, event) == Ok(config)
    requires forall p :: p in ps ==> ValidPeriod(p) && p.Granularity() == config.finest
    ensures RemoveEach(s, m, event, ps[..n], bits) ==
      Model(m.events[event := config], m.live - Cells(RangeReach(config, ps[..n]), bits), m.durable)
  {
    assert ps[..n][..n - 1] == ps[..n - 1] && ps[..n][n - 1] == ps[n - 1];
    RangeReachGrows(config, ps, n - 1);
    if n == 1 {
      NoBuckets(m.live, config, ps, bits);
      OneWrite(s, m, event, config, ps[0], bits);
    } else {
      RemoveEachReaches(s, m, event, config, ps, bits, n - 1);
      OneMoreWrite(s, m, event, config, RangeReach(config, ps[..n - 1]), ps[n - 1], bits);
    }
  }

  /** A range write, although it touches each ancestor once, is exactly the sequence of single
      writes to its buckets. */
  lemma RangeIsLoop(s: Settings, m: Model, event: string, first: Period, last: Period, ps: seq<Period>, bits: set<u32>)
    requires EnsureEvent(s, m.events, event).Ok?
    requires CheckRange(EnsureEvent(s, m.events, event).value, first, last).Ok?
    requires Enumerates(ps, first, last)
    ensures PutRangeSpec(s, m, event, first, last, bits) == (PutEach(s, m, event, ps, bits), Ok(()))
    ensures RemoveRangeSpec(s, m, event, first, last, bits) == (RemoveEach(s, m, event, ps, bits), Ok(()))
  {
    var config := EnsureEvent(s, m.events, event).value;
    OrdinalOrders(last, first);
    EnumerationIsExact(ps, first, last);
    RangeCellsAre(config, first, last, ps, bits);
    PutEachReaches(s, m, event, config, ps, bits, |ps|);
    RemoveEachReaches(s, m, event, config, ps, bits, |ps|);
    assert ps[..|ps|] == ps;
  }
}
