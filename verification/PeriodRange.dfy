/** Stepping through periods of one granularity and enumerating a range of them. */
module PeriodRange {
  import opened Types
  import opened Calendar

  /** The longest range an operation accepts: a year of hourly buckets. */
  const MAX_RANGE_PERIODS := 366 * 24

  /** The position of a period among the valid periods of its granularity. */
  function Ordinal(p: Period): int
    requires ValidPeriod(p)
  {
    match p
    case Static => 0
    case Hour(y, m, d, h) => 24 * DayNumber(y, m, d) + h
    case Day(y, m, d) => DayNumber(y, m, d)
    case Month(y, m) => 12 * y + m
    case Year(y) => y
  }

  lemma OrdinalOrders(p: Period, q: Period)
    requires ValidPeriod(p) && ValidPeriod(q) && p.Granularity() == q.Granularity()
    ensures p.Less(q) <==> Ordinal(p) < Ordinal(q)
    ensures p == q <==> Ordinal(p) == Ordinal(q)
  {
    if p.Day? || p.Hour? {
      if DateLess(p.year, p.month, p.day, q.year, q.month, q.day) {
        DayNumberIncreases(p.year, p.month, p.day, q.year, q.month, q.day);
      } else if DateLess(q.year, q.month, q.day, p.year, p.month, p.day) {
        DayNumberIncreases(q.year, q.month, q.day, p.year, p.month, p.day);
      }
    }
  }

  /** The step out of `p` carries into the next year. */
  predicate EndsYear(p: Period) {
    match p
    case Static => false
    case Hour(y, m, d, h) => h >= 23 && d >= DaysInMonth(y, m) && m >= 12
    case Day(y, m, d) => d >= DaysInMonth(y, m) && m >= 12
    case Month(_, m) => m >= 12
    case Year(_) => true
  }

  /** The step out of `p` stays within 16-bit years. */
  predicate StepFits(p: Period) { EndsYear(p) ==> p.year < 0xFFFF }

  function NextPeriod(p: Period): Option<Period>
    requires StepFits(p)
  {
    match p
    case Static => None
    case Hour(y, m, d, h) =>
      if h >= 23 then
        if d >= DaysInMonth(y, m) then
          if m >= 12 then Some(Hour(y + 1, 1, 1, 0)) else Some(Hour(y, m + 1, 1, 0))
        else Some(Hour(y, m, d + 1, 0))
      else Some(Hour(y, m, d, h + 1))
    case Day(y, m, d) =>
      if d >= DaysInMonth(y, m) then
        if m >= 12 then Some(Day(y + 1, 1, 1)) else Some(Day(y, m + 1, 1))
      else Some(Day(y, m, d + 1))
    case Month(y, m) => if m >= 12 then Some(Month(y + 1, 1)) else Some(Month(y, m + 1))
    case Year(y) => Some(Year(y + 1))
  }

  lemma NextHourTiles(p: Period)
    requires ValidPeriod(p) && p.Hour? && StepFits(p)
    ensures var q := NextPeriod(p).value;
      ValidPeriod(q) && q.Hour? &&
        24 * DayNumber(q.year, q.month, q.day) + q.hour == 24 * DayNumber(p.year, p.month, p.day) + p.hour + 1
  {
    hide DayNumber, DaysInMonth;
    if p.hour == 23 {
      DayNumberStep(p.year, p.month, p.day);
      var (y, m, d) := NextDate(p.year, p.month, p.day);
      assert NextPeriod(p).value == Hour(y, m, d, 0);
    }
  }

  lemma NextDayTiles(p: Period)
    requires ValidPeriod(p) && p.Day? && StepFits(p)
    ensures var q := NextPeriod(p).value;
      ValidPeriod(q) && q.Day? && DayNumber(q.year, q.month, q.day) == DayNumber(p.year, p.month, p.day) + 1
  {
    hide DayNumber, DaysInMonth;
    DayNumberStep(p.year, p.month, p.day);
    var (y, m, d) := NextDate(p.year, p.month, p.day);
    assert NextPeriod(p).value == Day(y, m, d);
  }

  /** The step reaches the next valid period, which begins at the very hour `p` ends. */
  lemma NextPeriodTiles(p: Period)
    requires ValidPeriod(p) && !p.Static? && StepFits(p)
    ensures NextPeriod(p).Some? && ValidPeriod(NextPeriod(p).value)
    ensures NextPeriod(p).value.Granularity() == p.Granularity()
    ensures Ordinal(NextPeriod(p).value) == Ordinal(p) + 1
    ensures Start(NextPeriod(p).value) == Start(p) + Hours(p)
  {
    match p {
      case Hour(_, _, _, _) => NextHourTiles(p);
      case Day(_, _, _) => NextDayTiles(p);
      case Month(y, m) =>
        if m < 12 { MonthSteps(y, m); } else { MonthsFillYear(y); MonthSteps(y, 12); YearSteps(y); }
      case Year(y) => YearSteps(y);
    }
  }

  /** Below a valid bound the year never overflows, wherever the steps started. */
  lemma StepBelowBound(p: Period, end: Period)
    requires ValidPeriod(end) && p.Granularity() == end.Granularity() && p.Less(end)
    ensures !p.Static? && StepFits(p)
  {
  }

  ghost predicate Enumerates(ps: seq<Period>, start: Period, end: Period)
    requires ValidPeriod(start) && ValidPeriod(end)
  {
    && |ps| == Ordinal(end) - Ordinal(start) + 1
    && forall i :: 0 <= i < |ps| ==>
         ValidPeriod(ps[i]) && ps[i].Granularity() == start.Granularity() && Ordinal(ps[i]) == Ordinal(start) + i
  }

  /** The periods from `start` to `end`, each the successor of the one before. */
  ghost function Buckets(start: Period, end: Period): (ps: seq<Period>)
    requires ValidPeriod(start) && ValidPeriod(end) && start.Granularity() == end.Granularity() && !start.Static?
    requires Ordinal(start) <= Ordinal(end)
    ensures Enumerates(ps, start, end)
    decreases Ordinal(end) - Ordinal(start)
  {
    OrdinalOrders(start, end);
    if start == end then [start]
    else
      StepBelowBound(start, end);
      NextPeriodTiles(start);
      [start] + Buckets(NextPeriod(start).value, end)
  }

  /** Steps from `start` that stay below `end`. */
  ghost predicate StepsBelow(ps: seq<Period>, start: Period, end: Period) {
    && |ps| > 0 && ps[0] == start
    && forall i :: 0 <= i < |ps| - 1 ==>
         ps[i].Less(end) && StepFits(ps[i]) && NextPeriod(ps[i]) == Some(ps[i + 1])
  }

  /** Steps from `start` up to `end`, or up to the last step before it if they pass it by. */
  ghost predicate Walks(ps: seq<Period>, start: Period, end: Period) {
    && StepsBelow(ps, start, end)
    && var last := ps[|ps| - 1];
       last == end || (last.Less(end) && StepFits(last) && NextPeriod(last).Some? && end.Less(NextPeriod(last).value))
  }

  /** Steps from `start` that run out of 16-bit years below `end`. */
  ghost predicate RunsOut(ps: seq<Period>, start: Period, end: Period) {
    StepsBelow(ps, start, end) && ps[|ps| - 1].Less(end) && !StepFits(ps[|ps| - 1])
  }

  /** Works for any bounds. Only a bound that is itself out of range, in the last year, can make the year overflow. */
  method EnumeratePeriods(start: Period, end: Period) returns (r: Option<seq<Period>>)
    ensures start.Granularity() != end.Granularity() ==> r == Some([])
    ensures start.Static? && end.Static? ==> r == Some([Static])
    ensures end.Less(start) && start.Granularity() == end.Granularity() ==> r == Some([])
    ensures start.Granularity() == end.Granularity() && !start.Static? && !end.Less(start) ==>
      if r.Some? then Walks(r.value, start, end) else !ValidPeriod(end) && end.year == 0xFFFF
    ensures start.Granularity() == end.Granularity() && !start.Static? && !end.Less(start) ==>
      (r.None? <==> exists ps :: RunsOut(ps, start, end))
    ensures ValidPeriod(start) && ValidPeriod(end) && start.Granularity() == end.Granularity() && !start.Static? ==>
      r.Some? && (end.Less(start) || Enumerates(r.value, start, end))
  {
    if start.Granularity() != end.Granularity() {
      return Some([]);
    }
    if start == Static || end == Static {
      return Some([Static]);
    }
    if end.Less(start) {
      return Some([]);
    }
    var ps := [];
    var p := start;
    while true
      invariant p.Granularity() == end.Granularity() && !p.Static?
      invariant StepsBelow(ps + [p], start, end)
      invariant ps == [] ==> !end.Less(p)
      invariant ps != [] ==> Walked(ps, start, end, p)
      decreases 0xFFFF - p.year, 0xFF - MonthOf(p), 0xFF - DayOf(p), 0xFF - HourOf(p)
    {
      if end.Less(p) {
        break;
      }
      LessOrEqual(p, end);
      ps := ps + [p];
      if p == end {
        break;
      }
      if !StepFits(p) {
        assert RunsOut(ps, start, end);
        OnlyBadBounds(p, end);
        return None;
      }
      StepIsLater(p);
      p := NextPeriod(p).value;
      assert (ps + [p])[..|ps|] == ps;
    }
    r := Some(ps);
    forall qs
      ensures !RunsOut(qs, start, end)
    {
      OneOutcome(ps, qs, start, end);
    }
    if ValidPeriod(start) && ValidPeriod(end) {
      ValidWalk(ps, start, end);
    }
  }

  /** `p` is the step after the last of `ps`. */
  ghost predicate Walked(ps: seq<Period>, start: Period, end: Period, p: Period)
    requires ps != []
  {
    var last := ps[|ps| - 1];
    StepsBelow(ps, start, end) && last.Less(end) && StepFits(last) && NextPeriod(last) == Some(p)
  }

  function MonthOf(p: Period): u8 { if p.Static? || p.Year? then 0 else p.month }

  function DayOf(p: Period): u8 { if p.Day? || p.Hour? then p.day else 0 }

  function HourOf(p: Period): u8 { if p.Hour? then p.hour else 0 }

  lemma LessOrEqual(p: Period, q: Period)
    requires p.Granularity() == q.Granularity()
    ensures p.Less(q) || q.Less(p) || p == q
  {
  }

  lemma NotBoth(p: Period, q: Period)
    ensures !(p.Less(q) && q.Less(p))
  {
  }

  /** Every step, from wherever, leads to a later period of the same granularity. */
  lemma StepIsLater(p: Period)
    requires !p.Static? && StepFits(p)
    ensures NextPeriod(p).Some?
    ensures var q := NextPeriod(p).value; p.Less(q) && q.Granularity() == p.Granularity()
  {
  }

  lemma OnlyBadBounds(p: Period, end: Period)
    requires p.Granularity() == end.Granularity() && p.Less(end) && !StepFits(p)
    ensures !ValidPeriod(end) && end.year == 0xFFFF
  {
  }

  lemma {:induction false} SameSteps(ps: seq<Period>, qs: seq<Period>, start: Period, end: Period, i: nat)
    requires StepsBelow(ps, start, end) && StepsBelow(qs, start, end) && i < |ps| && i < |qs|
    ensures ps[i] == qs[i]
  {
    if i > 0 {
      SameSteps(ps, qs, start, end, i - 1);
    }
  }

  /** Either the steps reach the bound or they run out of years. */
  lemma OneOutcome(ps: seq<Period>, qs: seq<Period>, start: Period, end: Period)
    requires Walks(ps, start, end)
    ensures !RunsOut(qs, start, end)
  {
    if StepsBelow(qs, start, end) {
      NotBoth(end, end);
      if |qs| <= |ps| {
        SameSteps(ps, qs, start, end, |qs| - 1);
      } else {
        SameSteps(ps, qs, start, end, |ps| - 1);
        var next := qs[|ps|];
        assert NextPeriod(qs[|ps| - 1]) == Some(next);
        NotBoth(next, end);
      }
    }
  }

  /** Between valid bounds the steps pass no valid period by and end at the bound. */
  lemma ValidWalk(ps: seq<Period>, start: Period, end: Period)
    requires ValidPeriod(start) && ValidPeriod(end) && start.Granularity() == end.Granularity() && !start.Static?
    requires Walks(ps, start, end)
    ensures Enumerates(ps, start, end)
  {
    WalkedOrdinals(ps, start, end, |ps| - 1);
    var last := ps[|ps| - 1];
    OrdinalOrders(last, end);
    if last != end {
      NextPeriodTiles(last);
      OrdinalOrders(end, NextPeriod(last).value);
    }
    forall i | 0 <= i < |ps|
      ensures ValidPeriod(ps[i]) && ps[i].Granularity() == start.Granularity() && Ordinal(ps[i]) == Ordinal(start) + i
    {
      WalkedOrdinals(ps, start, end, i);
    }
  }

  lemma {:induction false} WalkedOrdinals(ps: seq<Period>, start: Period, end: Period, i: nat)
    requires ValidPeriod(start) && !start.Static? && StepsBelow(ps, start, end) && i < |ps|
    ensures ValidPeriod(ps[i]) && ps[i].Granularity() == start.Granularity() && Ordinal(ps[i]) == Ordinal(start) + i
  {
    if i > 0 {
      WalkedOrdinals(ps, start, end, i - 1);
      NextPeriodTiles(ps[i - 1]);
    }
  }

  /** An enumeration holds exactly the valid periods between its bounds, strictly
      increasing, each starting where the one before it ends. */
  lemma EnumerationIsExact(ps: seq<Period>, start: Period, end: Period)
    requires ValidPeriod(start) && ValidPeriod(end) && start.Granularity() == end.Granularity() && !start.Static?
    requires Enumerates(ps, start, end)
    ensures forall p :: p in ps <==>
      ValidPeriod(p) && p.Granularity() == start.Granularity() && !p.Less(start) && !end.Less(p)
    ensures forall i, j :: 0 <= i < j < |ps| ==> ps[i].Less(ps[j])
    ensures forall i :: 0 <= i < |ps| - 1 ==> Start(ps[i + 1]) == Start(ps[i]) + Hours(ps[i])
  {
    forall p
      ensures p in ps <==> ValidPeriod(p) && p.Granularity() == start.Granularity() && !p.Less(start) && !end.Less(p)
    {
      if ValidPeriod(p) && p.Granularity() == start.Granularity() {
        OrdinalOrders(p, start);
        OrdinalOrders(end, p);
        if !p.Less(start) && !end.Less(p) {
          var i := Ordinal(p) - Ordinal(start);
          OrdinalOrders(p, ps[i]);
          assert ps[i] == p;
        }
      }
    }
    forall i, j | 0 <= i < j < |ps|
      ensures ps[i].Less(ps[j])
    {
      OrdinalOrders(ps[i], ps[j]);
    }
    forall i | 0 <= i < |ps| - 1
      ensures Start(ps[i + 1]) == Start(ps[i]) + Hours(ps[i])
    {
      OrdinalOrders(ps[i], end);
      StepBelowBound(ps[i], end);
      NextPeriodTiles(ps[i]);
      OrdinalOrders(ps[i + 1], NextPeriod(ps[i]).value);
    }
  }

  /** Two enumerations of one range are the same sequence. */
  lemma EnumerationUnique(ps: seq<Period>, qs: seq<Period>, start: Period, end: Period)
    requires ValidPeriod(start) && ValidPeriod(end)
    requires Enumerates(ps, start, end) && Enumerates(qs, start, end)
    ensures ps == qs
  {
    forall i | 0 <= i < |ps|
      ensures ps[i] == qs[i]
    {
      OrdinalOrders(ps[i], qs[i]);
    }
  }

  /** The last child of a period closes exactly when the period does. */
  lemma LastChildClosesParent(p: Period)
    requires ValidPeriod(p) && p.Parent().Some? && StepFits(p)
    ensures ValidPeriod(p.Parent().value) && NextPeriod(p).Some? && ValidPeriod(NextPeriod(p).value)
    ensures NextPeriod(p).value.Parent() != p.Parent() <==>
      Start(p) + Hours(p) == Start(p.Parent().value) + Hours(p.Parent().value)
  {
    NextPeriodTiles(p);
    match p {
      case Hour(y, m, d, h) =>
      case Day(y, m, d) => LastDayEndsMonth(y, m, d);
      case Month(y, m) => LastMonthEndsYear(y, m);
    }
  }

  lemma LastDayEndsMonth(y: u16, m: u8, d: u8)
    requires ValidDate(y, m, d)
    ensures 24 * DayNumber(y, m, d) + 24 == 24 * DayNumber(y, m, 1) + 24 * DaysInMonth(y, m) <==> d == DaysInMonth(y, m)
  {
  }

  lemma LastMonthEndsYear(y: u16, m: u8)
    requires 1 <= m <= 12
    ensures m == 12 <==>
      24 * DayNumber(y, m, 1) + 24 * DaysInMonth(y, m) == 24 * DayNumber(y, 1, 1) + 24 * YearLength(y)
  {
    MonthTable(y);
    MonthsFillYear(y);
    if m < 12 {
      MonthsMonotone(y, m, 12);
      MonthSteps(y, 12);
    } else {
      MonthSteps(y, 12);
    }
  }
}
