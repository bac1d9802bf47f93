/** Calendar arithmetic: month lengths, the closed-form day count, carrying
    normalisation, and the instants at which periods start and close. */
module Calendar {
  import opened Types

  // ----- the reference calendar (RFC 3339, section 5.7 and Appendix C) --------

  predicate IsLeap(y: int) { y % 4 == 0 && (y % 100 != 0 || y % 400 == 0) }

  function YearLength(y: int): int { if IsLeap(y) then 366 else 365 }

  function DaysInMonth(y: int, m: int): int {
    match m
    case 1 | 3 | 5 | 7 | 8 | 10 | 12 => 31
    case 4 | 6 | 9 | 11 => 30
    case 2 => if IsLeap(y) then 29 else 28
    case _ => 30
  }

  predicate ValidDate(y: int, m: int, d: int) { 1 <= m <= 12 && 1 <= d <= DaysInMonth(y, m) }

  /** Days before month `m` within year `y`, counted month by month. */
  function DaysBeforeMonth(y: int, m: int): int
    requires 1 <= m <= 13
    decreases m
  {
    if m == 1 then 0 else DaysBeforeMonth(y, m - 1) + DaysInMonth(y, m - 1)
  }

  /** Days from 1970-01-01 to January 1 of `y`, counted year by year in either direction. */
  function DaysBeforeYear(y: int): int
    decreases if y >= 1970 then y - 1970 else 1970 - y
  {
    if y == 1970 then 0
    else if y > 1970 then DaysBeforeYear(y - 1) + YearLength(y - 1)
    else DaysBeforeYear(y + 1) - YearLength(y)
  }

  /** Days from 1970-01-01 to a date, by counting. */
  function DayNumber(y: int, m: int, d: int): int
    requires 1 <= m <= 12
  {
    DaysBeforeYear(y) + DaysBeforeMonth(y, m) + d - 1
  }

  // ----- the closed form ------------------------------------------------------

  function DaysFromCivil(year: int, m: int, d: int): int {
    var y := if m <= 2 then year - 1 else year;
    var era := y / 400;
    var yoe := y % 400;
    var doy := (153 * (if m > 2 then m - 3 else m + 9) + 2) / 5 + d - 1;
    var doe := yoe * 365 + yoe / 4 - yoe / 100 + doy;
    era * 146097 + doe - 719468
  }

  /** Days from the epoch to March 1 of year `y`. */
  function MarchFirst(y: int): int {
    (y / 400) * 146097 + (y % 400) * 365 + (y % 400) / 4 - (y % 400) / 100 - 719468
  }

  lemma RemainderByFour(n: int, q: int, s: int)
    requires n == 4 * q + s && 0 <= s < 4
    ensures n % 4 == s
  {
  }

  lemma RemainderByHundred(n: int, q: int, s: int)
    requires n == 100 * q + s && 0 <= s < 100
    ensures n % 100 == s
  {
  }

  lemma WholeCenturies(e: int, r: int)
    ensures (400 * e + r) % 4 == r % 4
    ensures (400 * e + r) % 100 == r % 100
  {
    RemainderByFour(400 * e + r, 100 * e + r / 4, r % 4);
    RemainderByHundred(400 * e + r, 4 * e + r / 100, r % 100);
  }

  lemma LeapByRemainder(y: int)
    ensures var r := y % 400; IsLeap(y) <==> r % 4 == 0 && (r % 100 != 0 || r == 0)
  {
    WholeCenturies(y / 400, y % 400);
  }

  lemma QuotientStep(r: int, k: int)
    requires 0 < r && k in {4, 100}
    ensures r / k == (r - 1) / k + if r % k == 0 then 1 else 0
  {
  }

  lemma MarchFirstStep(y: int)
    ensures MarchFirst(y) == MarchFirst(y - 1) + YearLength(y)
  {
    var e, r := y / 400, y % 400;
    LeapByRemainder(y);
    if r == 0 {
      assert y - 1 == 400 * (e - 1) + 399;
      assert (y - 1) / 400 == e - 1 && (y - 1) % 400 == 399;
    } else {
      assert y - 1 == 400 * e + (r - 1);
      assert (y - 1) / 400 == e && (y - 1) % 400 == r - 1;
      QuotientStep(r, 4);
      QuotientStep(r, 100);
    }
  }

  /** The offset of each month from the March that opens its shifted year. */
  lemma MonthOffsets(y: int, m: int, d: int)
    requires 1 <= m <= 12
    ensures m > 2 ==> DaysFromCivil(y, m, d) == MarchFirst(y) + DaysBeforeMonth(y, m) - DaysBeforeMonth(y, 3) + d - 1
    ensures m <= 2 ==> DaysFromCivil(y, m, d) == MarchFirst(y - 1) + 306 + DaysBeforeMonth(y, m) + d - 1
  {
    MonthTable(y);
  }

  lemma MonthTable(y: int)
    ensures DaysBeforeMonth(y, 1) == 0 && DaysBeforeMonth(y, 2) == 31
    ensures var f := DaysBeforeMonth(y, 3);
      && f == 59 + (if IsLeap(y) then 1 else 0)
      && DaysBeforeMonth(y, 4) == f + 31 && DaysBeforeMonth(y, 5) == f + 61 && DaysBeforeMonth(y, 6) == f + 92
      && DaysBeforeMonth(y, 7) == f + 122 && DaysBeforeMonth(y, 8) == f + 153 && DaysBeforeMonth(y, 9) == f + 184
      && DaysBeforeMonth(y, 10) == f + 214 && DaysBeforeMonth(y, 11) == f + 245 && DaysBeforeMonth(y, 12) == f + 275
      && DaysBeforeMonth(y, 13) == f + 306
  {
  }

  lemma MonthSteps(y: int, m: int)
    requires 1 <= m <= 12
    ensures DaysBeforeMonth(y, m + 1) == DaysBeforeMonth(y, m) + DaysInMonth(y, m)
  {
  }

  lemma MonthsFillYear(y: int)
    ensures DaysBeforeMonth(y, 13) == YearLength(y)
  {
    MonthTable(y);
  }

  lemma {:induction false} MarchFirstCounts(y: int)
    ensures MarchFirst(y) == DaysBeforeYear(y) + DaysBeforeMonth(y, 3)
    decreases if y >= 1970 then y - 1970 else 1970 - y
  {
    MonthTable(y);
    if y > 1970 {
      MarchFirstCounts(y - 1);
      MonthTable(y - 1);
      MarchFirstStep(y);
    } else if y < 1970 {
      MarchFirstCounts(y + 1);
      MonthTable(y + 1);
      MarchFirstStep(y + 1);
    }
  }

  /** The closed form agrees with counting whole years and whole months, in every year. */
  lemma DaysFromCivilCounts(y: int, m: int, d: int)
    requires 1 <= m <= 12
    ensures DaysFromCivil(y, m, d) == DayNumber(y, m, d)
  {
    MonthOffsets(y, m, d);
    MarchFirstCounts(y);
    if m <= 2 {
      MarchFirstCounts(y - 1);
      MonthTable(y - 1);
      YearSteps(y - 1);
    }
  }

  lemma YearSteps(y: int)
    ensures DaysBeforeYear(y + 1) == DaysBeforeYear(y) + YearLength(y)
  {
  }

  // ----- order ----------------------------------------------------------------

  predicate DateLess(y: int, m: int, d: int, y': int, m': int, d': int) {
    y < y' || (y == y' && (m < m' || (m == m' && d < d')))
  }

  lemma {:induction false} YearsMonotone(y: int, y': int)
    requires y < y'
    ensures DaysBeforeYear(y) + YearLength(y) <= DaysBeforeYear(y')
    decreases y' - y
  {
    YearSteps(y);
    if y + 1 < y' {
      YearsMonotone(y + 1, y');
    }
  }

  lemma {:induction false} MonthsMonotone(y: int, m: int, m': int)
    requires 1 <= m < m' <= 13
    ensures DaysBeforeMonth(y, m) + DaysInMonth(y, m) <= DaysBeforeMonth(y, m')
    decreases m' - m
  {
    if m + 1 < m' {
      MonthsMonotone(y, m, m' - 1);
    }
  }

  /** The day after a date, in calendar terms. */
  function NextDate(y: int, m: int, d: int): (int, int, int) {
    if d < DaysInMonth(y, m) then (y, m, d + 1)
    else if m < 12 then (y, m + 1, 1)
    else (y + 1, 1, 1)
  }

  lemma DayNumberStep(y: int, m: int, d: int)
    requires ValidDate(y, m, d)
    ensures var (y', m', d') := NextDate(y, m, d);
      ValidDate(y', m', d') && DayNumber(y', m', d') == DayNumber(y, m, d) + 1
  {
  }

  lemma DayNumberIncreases(y: int, m: int, d: int, y': int, m': int, d': int)
    requires ValidDate(y, m, d) && ValidDate(y', m', d')
    requires DateLess(y, m, d, y', m', d')
    ensures DayNumber(y, m, d) < DayNumber(y', m', d')
  {
    if y < y' {
      YearsMonotone(y, y');
      MonthTable(y);
      MonthsMonotone(y, m, 13);
      if 1 < m' { MonthsMonotone(y', 1, m'); }
    } else if m < m' {
      MonthsMonotone(y, m, m');
    }
  }

  /** The closed form is zero at the epoch and moves by exactly one day at every calendar step. */
  lemma DayCountStep(y: int, m: int, d: int)
    requires ValidDate(y, m, d)
    ensures DaysFromCivil(1970, 1, 1) == 0
    ensures var (y', m', d') := NextDate(y, m, d);
      ValidDate(y', m', d') && DaysFromCivil(y', m', d') == DaysFromCivil(y, m, d) + 1
  {
    var next := NextDate(y, m, d);
    DayNumberStep(y, m, d);
    DaysFromCivilCounts(1970, 1, 1);
    DaysFromCivilCounts(y, m, d);
    DaysFromCivilCounts(next.0, next.1, next.2);
  }

  /** The closed form orders valid dates exactly as the calendar does. */
  lemma DayCountMonotone(y: int, m: int, d: int, y': int, m': int, d': int)
    requires ValidDate(y, m, d) && ValidDate(y', m', d')
    ensures DateLess(y, m, d, y', m', d') <==> DaysFromCivil(y, m, d) < DaysFromCivil(y', m', d')
  {
    DaysFromCivilCounts(y, m, d);
    DaysFromCivilCounts(y', m', d');
    if DateLess(y, m, d, y', m', d') {
      DayNumberIncreases(y, m, d, y', m', d');
    } else if DateLess(y', m', d', y, m, d) {
      DayNumberIncreases(y', m', d', y, m, d);
    }
  }

  // ----- normalisation ----------------------------------------------------------

  /** Hours since the epoch denoted by possibly out-of-range components: hours run over into days, days into the
      following months, months into the following years. A month 0 has thirty days: its days up to the thirtieth are
      those of the December before, and the first of January follows. */
  function Instant(y: int, m: int, d: int, h: int): int
    requires 0 <= m
  {
    if m > 0 then
      var y' := y + (m - 1) / 12;
      var m' := (m - 1) % 12 + 1;
      24 * DayNumber(y', m', d) + h
    else
      var d' := d + h / 24;
      24 * (if d' <= 30 then DayNumber(y - 1, 12, d') else DayNumber(y, 1, d' - 30)) + h % 24
  }

  lemma InstantCarriesYear(y: int, m: int, d: int, h: int)
    requires 12 < m
    ensures Instant(y + 1, m - 12, d, h) == Instant(y, m, d, h)
  {
    assert (m - 13) / 12 == (m - 1) / 12 - 1 && (m - 13) % 12 == (m - 1) % 12;
  }

  lemma InstantCarriesDay(y: int, m: int, d: int, h: int)
    requires 0 <= m
    ensures Instant(y, m, d + h / 24, h % 24) == Instant(y, m, d, h)
  {
  }

  lemma InstantInRange(y: int, m: int, d: int, h: int)
    requires 1 <= m <= 12
    ensures Instant(y, m, d, h) == 24 * DayNumber(y, m, d) + h
  {
  }

  /** Running off the end of a month lands in the next month, or in the next year's January. */
  lemma MonthOverflows(y: int, m: int, d: int)
    requires 1 <= m <= 12
    ensures m < 12 ==> DayNumber(y, m + 1, d - DaysInMonth(y, m)) == DayNumber(y, m, d)
    ensures m == 12 ==> DayNumber(y + 1, 1, d - DaysInMonth(y, m)) == DayNumber(y, m, d)
  {
  }

  lemma InstantCarriesMonth(y: int, m: int, d: int, h: int)
    requires 1 <= m <= 12
    ensures Instant(y, m + 1, d - DaysInMonth(y, m), h) == Instant(y, m, d, h)
  {
    MonthOverflows(y, m, d);
    InstantInRange(y, m, d, h);
    if m < 12 {
      InstantInRange(y, m + 1, d - DaysInMonth(y, m), h);
    } else {
      InstantCarriesYear(y, 13, d - DaysInMonth(y, m), h);
      InstantInRange(y + 1, 1, d - DaysInMonth(y, m), h);
    }
  }

  lemma InstantDropsMonth(y: int, m: int, d: int, h: int)
    requires 0 <= m <= 12 && DaysInMonth(y, m) < d && 0 <= h < 24
    ensures Instant(y, m + 1, d - DaysInMonth(y, m), h) == Instant(y, m, d, h)
  {
    if m == 0 {
      InstantInRange(y, 1, d - 30, h);
    } else {
      InstantCarriesMonth(y, m, d, h);
    }
  }

  /** Carries hours into days, months into years and days into months. It ends on every input. Components that are not
      negative come out within their ranges and denote the same instant; started no lower than the calendar, they come
      out as a valid date. */
  method Normalize(y0: int, m0: int, d0: int, h0: int) returns (y: int, m: int, d: int, h: int)
    ensures 0 <= m0 && 0 <= d0 && 0 <= h0 ==>
      0 <= m <= 12 && 0 <= d <= DaysInMonth(y, m) && 0 <= h < 24 && Instant(y, m, d, h) == Instant(y0, m0, d0, h0)
    ensures 1 <= m0 && 1 <= d0 && 0 <= h0 ==> ValidDate(y, m, d)
  {
    hide Instant;
    ghost var tame, inRange := 0 <= m0 && 0 <= d0 && 0 <= h0, 1 <= m0 && 1 <= d0 && 0 <= h0;
    y, m, d, h := y0, m0, d0, h0;
    if h >= 24 {
      if tame { InstantCarriesDay(y, m, d, h); }
      d := d + h / 24;
      h := h % 24;
    }
    while m > 12
      invariant tame ==> 0 <= m && 0 <= d && 0 <= h < 24 && Instant(y, m, d, h) == Instant(y0, m0, d0, h0)
      invariant inRange ==> 1 <= m && 1 <= d
    {
      InstantCarriesYear(y, m, d, h);
      m := m - 12;
      y := y + 1;
    }
    while d > DaysInMonth(y, m)
      invariant m <= 12
      invariant tame ==> 0 <= m && 0 <= d && 0 <= h < 24 && Instant(y, m, d, h) == Instant(y0, m0, d0, h0)
      invariant inRange ==> 1 <= m && 1 <= d
      decreases d
    {
      if tame {
        InstantDropsMonth(y, m, d, h);
      }
      d := d - DaysInMonth(y, m);
      m := m + 1;
      if m > 12 {
        InstantCarriesYear(y, m, d, h);
        m := m - 12;
        y := y + 1;
      }
    }
  }

  // ----- period boundaries --------------------------------------------------------

  predicate ValidPeriod(p: Period) {
    match p
    case Static => true
    case Year(_) => true
    case Month(_, m) => 1 <= m <= 12
    case Day(y, m, d) => ValidDate(y, m, d)
    case Hour(y, m, d, h) => ValidDate(y, m, d) && h <= 23
  }

  /** First hour of a period, counted from the epoch. */
  function Start(p: Period): int
    requires ValidPeriod(p) && !p.Static?
  {
    match p
    case Hour(y, m, d, h) => 24 * DayNumber(y, m, d) + h
    case Day(y, m, d) => 24 * DayNumber(y, m, d)
    case Month(y, m) => 24 * DayNumber(y, m, 1)
    case Year(y) => 24 * DayNumber(y, 1, 1)
  }

  /** Length of a period in hours. */
  function Hours(p: Period): int
    requires ValidPeriod(p) && !p.Static?
  {
    match p
    case Hour(_, _, _, _) => 1
    case Day(_, _, _) => 24
    case Month(y, m) => 24 * DaysInMonth(y, m)
    case Year(y) => 24 * YearLength(y)
  }

  /** The saturated Unix second of an instant: everything before the epoch is 0. */
  function Seconds(hours: int): nat { if hours < 0 then 0 else 3600 * hours }

  method DatetimeToUnix(y: int, m: int, d: int, h: int) returns (t: nat)
    requires 0 <= m && 0 <= d && 0 <= h
    ensures t == Seconds(Instant(y, m, d, h))
  {
    var y1, m1, d1, h1 := Normalize(y, m, d, h);
    var days := DaysFromCivil(y1, m1, d1);
    CountedFromCivil(y1, m1, d1, h1);
    if days < 0 {
      return 0;
    }
    t := days * 86400 + h1 * 3600;
  }

  /** The closed form takes a month 0 for the December before. */
  lemma CountedFromCivil(y: int, m: int, d: int, h: int)
    requires 0 <= m <= 12 && 0 <= d <= DaysInMonth(y, m) && 0 <= h < 24
    ensures Instant(y, m, d, h) == 24 * DaysFromCivil(y, m, d) + h
  {
    if m == 0 {
      assert DaysFromCivil(y, 0, d) == DaysFromCivil(y - 1, 12, d);
      DaysFromCivilCounts(y - 1, 12, d);
    } else {
      InstantInRange(y, m, d, h);
      DaysFromCivilCounts(y, m, d);
    }
  }

  /** The instant right after a period, whether or not its components are in range. */
  function End(p: Period): int
    requires !p.Static?
  {
    match p
    case Hour(y, m, d, h) => Instant(y, m, d, h + 1)
    case Day(y, m, d) => Instant(y, m, d + 1, 0)
    case Month(y, m) => if m >= 12 then Instant(y + 1, 1, 1, 0) else Instant(y, m + 1, 1, 0)
    case Year(y) => Instant(y + 1, 1, 1, 0)
  }

  /** A valid period ends when it has run for its full length. */
  lemma ValidEnd(p: Period)
    requires ValidPeriod(p) && !p.Static?
    ensures End(p) == Start(p) + Hours(p)
  {
    match p {
      case Hour(y, m, d, h) => InstantInRange(y, m, d, h + 1);
      case Day(y, m, d) => InstantInRange(y, m, d + 1, 0);
      case Month(y, m) =>
        MonthOverflows(y, m, DaysInMonth(y, m) + 1);
        if m >= 12 { InstantInRange(y + 1, 1, 1, 0); } else { InstantInRange(y, m + 1, 1, 0); }
      case Year(y) =>
        YearSteps(y);
        InstantInRange(y + 1, 1, 1, 0);
    }
  }

  /** The close boundary of a period is the saturated second at which it ends. */
  method CloseBoundaryUnix(p: Period) returns (t: Option<nat>)
    ensures p.Static? ==> t == None
    ensures !p.Static? ==> t == Some(Seconds(End(p)))
    ensures !p.Static? && ValidPeriod(p) ==> t == Some(Seconds(Start(p) + Hours(p)))
  {
    hide Instant, Seconds;
    if !p.Static? && ValidPeriod(p) {
      ValidEnd(p);
    }
    match p {
      case Static => t := None;
      case Hour(y, m, d, h) =>
        var s := DatetimeToUnix(y, m, d, h + 1);
        t := Some(s);
      case Day(y, m, d) =>
        var s := DatetimeToUnix(y, m, d + 1, 0);
        t := Some(s);
      case Month(y, m) =>
        var ny, nm := if m >= 12 then y + 1 else y, if m >= 12 then 1 else m + 1;
        var s := DatetimeToUnix(ny, nm, 1, 0);
        t := Some(s);
      case Year(y) =>
        var s := DatetimeToUnix(y + 1, 1, 1, 0);
        t := Some(s);
    }
  }

  predicate ClosedAt(p: Period, now: u64) { !p.Static? && now >= Seconds(End(p)) }

  method IsClosed(p: Period, now: u64) returns (closed: bool)
    ensures closed <==> ClosedAt(p, now)
    ensures !p.Static? && ValidPeriod(p) ==> (closed <==> now >= Seconds(Start(p) + Hours(p)))
  {
    var boundary := CloseBoundaryUnix(p);
    closed := boundary.Some? && now >= boundary.value;
  }

  /** A period lies inside its parent. */
  lemma ChildInsideParent(p: Period)
    requires ValidPeriod(p) && p.Parent().Some?
    ensures var q := p.Parent().value;
      ValidPeriod(q) && !q.Static? && Start(q) <= Start(p) && Start(p) + Hours(p) <= Start(q) + Hours(q)
  {
    match p {
      case Month(y, m) =>
        MonthTable(y);
        MonthsMonotone(y, m, 13);
        if 1 < m { MonthsMonotone(y, 1, m); }
      case _ =>
    }
  }

  /** A closed parent has only closed children. */
  lemma ClosedParentClosesChildren(p: Period, now: u64)
    requires ValidPeriod(p) && p.Parent().Some?
    ensures ValidPeriod(p.Parent().value)
    ensures ClosedAt(p.Parent().value, now) ==> ClosedAt(p, now)
  {
    ChildInsideParent(p);
    ValidEnd(p);
    ValidEnd(p.Parent().value);
  }
}
