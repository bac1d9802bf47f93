/** The strings that name things: period keys, catalog keys, part file names. */
module Names {
  import opened Types
  import opened Calendar

  // ----- decimal numbers -----------------------------------------------------------

  predicate IsDigit(c: char) { '0' <= c <= '9' }

  function DigitChar(d: nat): char
    requires d < 10
  {
    ['0', '1', '2', '3', '4', '5', '6', '7', '8', '9'][d]
  }

  function DigitValue(c: char): nat
    requires IsDigit(c)
  {
    (c as int) - ('0' as int)
  }

  predicate AllDigits(s: string) { forall i | 0 <= i < |s| :: IsDigit(s[i]) }

  function Decimal(n: nat): (s: string)
    ensures s != "" && AllDigits(s)
  {
    if n < 10 then [DigitChar(n)] else Decimal(n / 10) + [DigitChar(n % 10)]
  }

  /** At least `width` characters, filled with zeros on the left. */
  function Pad(s: string, width: nat): string
    decreases width - |s|
  {
    if width <= |s| then s else Pad("0" + s, width)
  }

  function Padded(n: nat, width: nat): string { Pad(Decimal(n), width) }

  function DecimalValue(s: string): nat
    requires AllDigits(s)
  {
    if s == "" then 0 else 10 * DecimalValue(s[..|s| - 1]) + DigitValue(s[|s| - 1])
  }

  /** An optional plus sign, then one or more digits, with a value within the limit. */
  function ParseUnsigned(s: string, limit: nat): Option<nat> {
    var digits := if s != "" && s[0] == '+' then s[1..] else s;
    if digits == "" || !AllDigits(digits) then None
    else if DecimalValue(digits) > limit then None
    else Some(DecimalValue(digits))
  }

  lemma {:induction false} DecimalRoundTrip(n: nat)
    ensures DecimalValue(Decimal(n)) == n
  {
    if n >= 10 {
      DecimalRoundTrip(n / 10);
      assert Decimal(n)[..|Decimal(n)| - 1] == Decimal(n / 10);
    }
  }

  lemma {:induction false} LeadingZero(s: string)
    requires AllDigits(s)
    ensures AllDigits("0" + s) && DecimalValue("0" + s) == DecimalValue(s)
    decreases |s|
  {
    var z := "0" + s;
    if s == "" {
      assert z[..0] == "";
    } else {
      LeadingZero(s[..|s| - 1]);
      assert z[..|z| - 1] == "0" + s[..|s| - 1];
    }
  }

  lemma {:induction false} PadKeepsValue(s: string, width: nat)
    requires AllDigits(s)
    ensures AllDigits(Pad(s, width)) && DecimalValue(Pad(s, width)) == DecimalValue(s)
    ensures |Pad(s, width)| == if |s| < width then width else |s|
    decreases width - |s|
  {
    if |s| < width {
      LeadingZero(s);
      PadKeepsValue("0" + s, width);
    }
  }

  function Pow10(w: nat): nat { if w == 0 then 1 else 10 * Pow10(w - 1) }

  lemma {:induction false} DecimalLength(n: nat, w: nat)
    requires 1 <= w
    ensures n < Pow10(w) <==> |Decimal(n)| <= w
    decreases n
  {
    if n < 10 {
      PowersPositive(w - 1);
    } else if w == 1 {
      assert Pow10(1) == 10;
    } else {
      DecimalLength(n / 10, w - 1);
    }
  }

  lemma {:induction false} PowersPositive(w: nat)
    ensures 1 <= Pow10(w)
  {
    if w > 0 { PowersPositive(w - 1); }
  }

  lemma PaddedRoundTrip(n: nat, width: nat, limit: nat)
    requires n <= limit
    ensures AllDigits(Padded(n, width)) && ParseUnsigned(Padded(n, width), limit) == Some(n)
    ensures 1 <= width ==> width <= |Padded(n, width)| && (n < Pow10(width) <==> |Padded(n, width)| == width)
  {
    DecimalRoundTrip(n);
    PadKeepsValue(Decimal(n), width);
    if 1 <= width {
      DecimalLength(n, width);
    }
    assert IsDigit(Padded(n, width)[0]);
  }

  // ----- period keys ------------------------------------------------------------------

  function PeriodKey(p: Period): string {
    match p
    case Static => "_static"
    case Hour(y, m, d, h) => Padded(y, 4) + "-" + Padded(m, 2) + "-" + Padded(d, 2) + "T" + Padded(h, 2)
    case Day(y, m, d) => Padded(y, 4) + "-" + Padded(m, 2) + "-" + Padded(d, 2)
    case Month(y, m) => Padded(y, 4) + "-" + Padded(m, 2)
    case Year(y) => Padded(y, 4)
  }

  function ParseU16(s: string): Option<u16> {
    match ParseUnsigned(s, 0xFFFF) case None => None case Some(n) => if n < 0x1_0000 then Some(n) else None
  }

  function ParseU8(s: string): Option<u8> {
    match ParseUnsigned(s, 0xFF) case None => None case Some(n) => if n < 0x100 then Some(n) else None
  }

  function ParsePeriodKey(s: string): Option<Period> {
    if s == "_static" then Some(Static)
    else if |s| == 4 then
      match ParseU16(s) case None => None case Some(y) => Some(Year(y))
    else if |s| == 7 && s[4] == '-' then
      match (ParseU16(s[..4]), ParseU8(s[5..7]))
      case (Some(y), Some(m)) => if 1 <= m <= 12 then Some(Month(y, m)) else None
      case _ => None
    else if |s| == 10 && s[4] == '-' && s[7] == '-' then
      match (ParseU16(s[..4]), ParseU8(s[5..7]), ParseU8(s[8..10]))
      case (Some(y), Some(m), Some(d)) => if 1 <= m <= 12 && 1 <= d <= 31 then Some(Day(y, m, d)) else None
      case _ => None
    else if |s| == 13 && s[4] == '-' && s[7] == '-' && s[10] == 'T' then
      match (ParseU16(s[..4]), ParseU8(s[5..7]), ParseU8(s[8..10]), ParseU8(s[11..13]))
      case (Some(y), Some(m), Some(d), Some(h)) =>
        if 1 <= m <= 12 && 1 <= d <= 31 && h <= 23 then Some(Hour(y, m, d, h)) else None
      case _ => None
    else None
  }

  /** The year of a period; a static period counts as year 0. */
  function YearOf(p: Period): nat { if p.Static? then 0 else p.year }

  lemma TwoDigits(n: u8)
    requires n <= 99
    ensures |Padded(n, 2)| == 2 && ParseU8(Padded(n, 2)) == Some(n) && AllDigits(Padded(n, 2))
  {
    PaddedRoundTrip(n, 2, 0xFF);
    assert Pow10(2) == 100;
  }

  lemma YearDigits(y: u16)
    ensures ParseU16(Padded(y, 4)) == Some(y) && AllDigits(Padded(y, 4))
    ensures y <= 9999 ==> |Padded(y, 4)| == 4
    ensures y > 9999 ==> |Padded(y, 4)| == 5
  {
    PaddedRoundTrip(y, 4, 0xFFFF);
    assert Pow10(4) == 10000;
    if y > 9999 {
      DecimalLength(y, 5);
      assert Pow10(5) == 100000;
      PadKeepsValue(Decimal(y), 4);
    }
  }

  /** A key starting with a digit is not the static key. */
  lemma DigitsAreNotStatic(ys: string, rest: string)
    requires ys != "" && AllDigits(ys)
    ensures ys + rest != "_static"
  {
    assert (ys + rest)[0] == ys[0];
  }

  lemma ParseMonthKey(ys: string, ms: string, y: u16, m: u8)
    requires 4 <= |ys| <= 5 && AllDigits(ys) && ParseU16(ys) == Some(y)
    requires |ms| == 2 && ParseU8(ms) == Some(m) && 1 <= m <= 12
    ensures ParsePeriodKey(ys + "-" + ms) == if |ys| == 4 then Some(Month(y, m)) else None
  {
    var s := ys + "-" + ms;
    DigitsAreNotStatic(ys, "-" + ms);
    assert s == ys + ("-" + ms);
    if |ys| == 4 {
      assert s[..4] == ys && s[5..7] == ms;
    }
  }

  lemma ParseDayKey(ys: string, ms: string, ds: string, y: u16, m: u8, d: u8)
    requires 4 <= |ys| <= 5 && AllDigits(ys) && ParseU16(ys) == Some(y)
    requires |ms| == 2 && ParseU8(ms) == Some(m) && 1 <= m <= 12
    requires |ds| == 2 && ParseU8(ds) == Some(d) && 1 <= d <= 31
    ensures ParsePeriodKey(ys + "-" + ms + "-" + ds) == if |ys| == 4 then Some(Day(y, m, d)) else None
  {
    var s := ys + "-" + ms + "-" + ds;
    DigitsAreNotStatic(ys, "-" + ms + "-" + ds);
    assert s == ys + ("-" + ms + "-" + ds);
    if |ys| == 4 {
      assert s[..4] == ys && s[5..7] == ms && s[8..10] == ds;
    }
  }

  lemma ParseHourKey(ys: string, ms: string, ds: string, hs: string, y: u16, m: u8, d: u8, h: u8)
    requires 4 <= |ys| <= 5 && AllDigits(ys) && ParseU16(ys) == Some(y)
    requires |ms| == 2 && ParseU8(ms) == Some(m) && 1 <= m <= 12
    requires |ds| == 2 && ParseU8(ds) == Some(d) && 1 <= d <= 31
    requires |hs| == 2 && ParseU8(hs) == Some(h) && h <= 23
    ensures ParsePeriodKey(ys + "-" + ms + "-" + ds + "T" + hs) == if |ys| == 4 then Some(Hour(y, m, d, h)) else None
  {
    var s := ys + "-" + ms + "-" + ds + "T" + hs;
    DigitsAreNotStatic(ys, "-" + ms + "-" + ds + "T" + hs);
    assert s == ys + ("-" + ms + "-" + ds + "T" + hs);
    if |ys| == 4 {
      assert |s| == 13 && s[4] == '-' && s[7] == '-' && s[10] == 'T';
      assert s[..4] == ys;
      assert s[5..7] == ms;
      assert s[8..10] == ds;
      assert s[11..13] == hs;
    }
  }

  /** Parsing undoes formatting exactly for the periods of years up to 9999. */
  lemma PeriodKeyRoundTrip(p: Period)
    requires ValidPeriod(p)
    ensures ParsePeriodKey(PeriodKey(p)) == if YearOf(p) <= 9999 then Some(p) else None
  {
    match p {
      case Static =>
      case Year(y) =>
        YearDigits(y);
        DigitsAreNotStatic(Padded(y, 4), "");
        assert Padded(y, 4) + "" == Padded(y, 4);
      case Month(y, m) =>
        YearDigits(y);
        TwoDigits(m);
        ParseMonthKey(Padded(y, 4), Padded(m, 2), y, m);
      case Day(y, m, d) =>
        YearDigits(y);
        TwoDigits(m);
        TwoDigits(d);
        ParseDayKey(Padded(y, 4), Padded(m, 2), Padded(d, 2), y, m, d);
      case Hour(y, m, d, h) =>
        YearDigits(y);
        TwoDigits(m);
        TwoDigits(d);
        TwoDigits(h);
        ParseHourKey(Padded(y, 4), Padded(m, 2), Padded(d, 2), Padded(h, 2), y, m, d, h);
    }
  }

  /** The number spelled by `n` characters from `at` on, by their ASCII codes. */
  function Spelled(s: string, at: nat, n: nat): int
    requires at + n <= |s|
  {
    if n == 0 then 0 else 10 * Spelled(s, at, n - 1) + (s[at + n - 1] as int - 48)
  }

  lemma {:induction false} SpelledIsValue(s: string)
    requires AllDigits(s)
    ensures Spelled(s, 0, |s|) == DecimalValue(s)
  {
    if s != "" {
      SpelledIsValue(s[..|s| - 1]);
      SpelledInside("", s[..|s| - 1], [s[|s| - 1]], |s| - 1);
      assert "" + s[..|s| - 1] + [s[|s| - 1]] == s;
    }
  }

  lemma {:induction false} SpelledInside(a: string, s: string, b: string, n: nat)
    requires n <= |s|
    ensures Spelled(a + s + b, |a|, n) == Spelled(s, 0, n)
  {
    if n > 0 {
      SpelledInside(a, s, b, n - 1);
      assert (a + s + b)[|a| + (n - 1)] == s[n - 1];
    }
  }

  lemma PaddedSpells(n: nat, width: nat)
    ensures Spelled(Padded(n, width), 0, |Padded(n, width)|) == n
  {
    DecimalRoundTrip(n);
    PadKeepsValue(Decimal(n), width);
    SpelledIsValue(Padded(n, width));
  }

  /** The shape of keys up to year 9999: YYYY, YYYY-MM, YYYY-MM-DD or YYYY-MM-DDTHH. */
  lemma KeyText(p: Period)
    requires ValidPeriod(p) && YearOf(p) <= 9999
    ensures var k := PeriodKey(p);
      match p
      case Static => k == "_static"
      case Year(y) => |k| == 4 && Spelled(k, 0, 4) == y
      case Month(y, m) => |k| == 7 && Spelled(k, 0, 4) == y && k[4] == '-' && Spelled(k, 5, 2) == m
      case Day(y, m, d) =>
        |k| == 10 && Spelled(k, 0, 4) == y && k[4] == '-' && Spelled(k, 5, 2) == m
        && k[7] == '-' && Spelled(k, 8, 2) == d
      case Hour(y, m, d, h) =>
        |k| == 13 && Spelled(k, 0, 4) == y && k[4] == '-' && Spelled(k, 5, 2) == m
        && k[7] == '-' && Spelled(k, 8, 2) == d
        && k[10] == 'T' && Spelled(k, 11, 2) == h
  {
    hide Padded;
    if !p.Static? {
      var ys := Padded(p.year, 4);
      YearDigits(p.year);
      PaddedSpells(p.year, 4);
      match p {
        case Year(_) =>
        case Month(_, m) =>
          FieldText(ys + "-", m, "");
          SpelledInside("", ys, "-" + Padded(m, 2), 4);
          assert PeriodKey(p) == ys + "-" + Padded(m, 2) + "" == "" + ys + ("-" + Padded(m, 2));
        case Day(_, m, d) =>
          DateText(ys, m, d, "");
          assert PeriodKey(p) == ys + "-" + Padded(m, 2) + "-" + Padded(d, 2) + "";
        case Hour(_, m, d, h) =>
          DateText(ys, m, d, "T" + Padded(h, 2));
          FieldText(ys + "-" + Padded(m, 2) + "-" + Padded(d, 2) + "T", h, "");
          TwoDigits(m);
          TwoDigits(d);
          assert PeriodKey(p) == ys + "-" + Padded(m, 2) + "-" + Padded(d, 2) + ("T" + Padded(h, 2));
          assert PeriodKey(p) == ys + "-" + Padded(m, 2) + "-" + Padded(d, 2) + "T" + Padded(h, 2) + "";
      }
    }
  }

  /** A field of two digits in its place. */
  lemma FieldText(before: string, n: u8, after: string)
    requires n <= 99
    ensures |Padded(n, 2)| == 2 && Spelled(before + Padded(n, 2) + after, |before|, 2) == n
  {
    TwoDigits(n);
    PaddedSpells(n, 2);
    SpelledInside(before, Padded(n, 2), after, 2);
  }

  lemma DateText(ys: string, m: u8, d: u8, rest: string)
    requires |ys| == 4 && m <= 99 && d <= 99
    ensures |Padded(m, 2)| == |Padded(d, 2)| == 2
    ensures var k := ys + "-" + Padded(m, 2) + "-" + Padded(d, 2) + rest;
      Spelled(k, 0, 4) == Spelled(ys, 0, 4) && k[4] == '-' && Spelled(k, 5, 2) == m
      && k[7] == '-' && Spelled(k, 8, 2) == d
  {
    hide Padded;
    var ms, ds := Padded(m, 2), Padded(d, 2);
    var k := ys + "-" + ms + "-" + ds + rest;
    FieldText(ys + "-", m, "-" + ds + rest);
    FieldText(ys + "-" + ms + "-", d, rest);
    SpelledInside("", ys, "-" + ms + "-" + ds + rest, 4);
    assert k == (ys + "-") + ms + ("-" + ds + rest) == (ys + "-" + ms + "-") + ds + rest;
    assert k == "" + ys + ("-" + ms + "-" + ds + rest);
  }

  // ----- catalog keys --------------------------------------------------------------------

  function DirName(g: Granularity): string {
    match g
    case Timeless => "none"
    case Hourly => "hour"
    case Daily => "day"
    case Monthly => "month"
    case Yearly => "year"
  }

  function CatalogKey(event: string, g: Granularity, p: Period): string {
    event + "/" + DirName(g) + "/" + PeriodKey(p)
  }

  /** The event, the granularity of the period by its name, and the period. */
  lemma CatalogKeyText(event: string, p: Period)
    ensures CatalogKey(event, p.Granularity(), p) == event + PeriodFolder(p) + PeriodKey(p)
  {
  }

  function PeriodFolder(p: Period): string {
    match p
    case Static => "/none/"
    case Hour(_, _, _, _) => "/hour/"
    case Day(_, _, _) => "/day/"
    case Month(_, _) => "/month/"
    case Year(_) => "/year/"
  }

  lemma SplitAtFirst(a: string, b: string, x: string, y: string, c: char)
    requires c !in a && c !in b && a + [c] + x == b + [c] + y
    ensures a == b && x == y
  {
    var s, t := a + [c] + x, b + [c] + y;
    assert s[|a|] == c && t[|b|] == c;
    assert forall i :: 0 <= i < |a| ==> s[i] == a[i] != c;
    assert forall i :: 0 <= i < |b| ==> t[i] == b[i] != c;
    assert |a| == |b|;
    assert a == s[..|a|] == t[..|b|] == b;
    assert x == s[|a| + 1..] == t[|b| + 1..] == y;
  }

  lemma NamesHaveNoSlash(name: string)
    requires ValidEventName(name)
    ensures '/' !in name
  {
  }

  lemma DirNamesDiffer(g: Granularity, h: Granularity)
    ensures '/' !in DirName(g)
    ensures DirName(g) == DirName(h) ==> g == h
  {
    assert "none"[0] == 'n' && "hour"[0] == 'h' && "day"[0] == 'd' && "month"[0] == 'm' && "year"[0] == 'y';
  }

  /** A run of digits, a dash and two characters are recovered from any text that continues them. */
  lemma SplitYearMonth(ys: string, ms: string, rest: string, ys': string, ms': string, rest': string)
    requires AllDigits(ys) && AllDigits(ys') && |ms| == |ms'| == 2
    requires ys + "-" + ms + rest == ys' + "-" + ms' + rest'
    ensures ys == ys' && ms == ms' && rest == rest'
  {
    assert ys + ['-'] + (ms + rest) == ys + "-" + ms + rest;
    assert ys' + ['-'] + (ms' + rest') == ys' + "-" + ms' + rest';
    SplitAtFirst(ys, ys', ms + rest, ms' + rest', '-');
    assert (ms + rest)[..2] == ms && (ms' + rest')[..2] == ms';
    assert (ms + rest)[2..] == rest && (ms' + rest')[2..] == rest';
  }

  lemma SplitDay(ys: string, ms: string, ds: string, ys': string, ms': string, ds': string)
    requires AllDigits(ys) && AllDigits(ys') && |ms| == |ms'| == 2
    requires ys + "-" + ms + "-" + ds == ys' + "-" + ms' + "-" + ds'
    ensures ys == ys' && ms == ms' && ds == ds'
  {
    var a, b := "-" + ds, "-" + ds';
    assert ys + "-" + ms + a == ys + "-" + ms + "-" + ds;
    assert ys' + "-" + ms' + b == ys' + "-" + ms' + "-" + ds';
    SplitYearMonth(ys, ms, a, ys', ms', b);
    assert a[1..] == ds && b[1..] == ds';
  }

  lemma SplitHour(ys: string, ms: string, ds: string, hs: string, ys': string, ms': string, ds': string, hs': string)
    requires AllDigits(ys) && AllDigits(ys') && |ms| == |ms'| == |ds| == |ds'| == 2
    requires ys + "-" + ms + "-" + ds + "T" + hs == ys' + "-" + ms' + "-" + ds' + "T" + hs'
    ensures ys == ys' && ms == ms' && ds == ds' && hs == hs'
  {
    var a, b := ds + "T" + hs, ds' + "T" + hs';
    assert ys + "-" + ms + "-" + a == ys + "-" + ms + "-" + ds + "T" + hs;
    assert ys' + "-" + ms' + "-" + b == ys' + "-" + ms' + "-" + ds' + "T" + hs';
    SplitDay(ys, ms, a, ys', ms', b);
    assert a[..2] == ds && b[..2] == ds' && a[3..] == hs && b[3..] == hs';
  }

  lemma PaddedDiffer(m: u8, m': u8)
    requires m <= 99 && m' <= 99
    ensures |Padded(m, 2)| == |Padded(m', 2)| == 2
    ensures Padded(m, 2) == Padded(m', 2) ==> m == m'
  {
    TwoDigits(m);
    TwoDigits(m');
  }

  lemma PeriodKeysDiffer(p: Period, q: Period)
    requires ValidPeriod(p) && ValidPeriod(q) && p.Granularity() == q.Granularity()
    requires PeriodKey(p) == PeriodKey(q)
    ensures p == q
  {
    match p {
      case Static =>
      case Year(y) =>
        YearDigits(y);
        YearDigits(q.year);
      case Month(y, m) =>
        YearDigits(y);
        YearDigits(q.year);
        PaddedDiffer(m, q.month);
        SplitAtFirst(Padded(y, 4), Padded(q.year, 4), Padded(m, 2), Padded(q.month, 2), '-');
      case Day(y, m, d) =>
        YearDigits(y);
        YearDigits(q.year);
        PaddedDiffer(m, q.month);
        PaddedDiffer(d, q.day);
        SplitDay(Padded(y, 4), Padded(m, 2), Padded(d, 2), Padded(q.year, 4), Padded(q.month, 2), Padded(q.day, 2));
      case Hour(y, m, d, h) =>
        YearDigits(y);
        YearDigits(q.year);
        PaddedDiffer(m, q.month);
        PaddedDiffer(d, q.day);
        PaddedDiffer(h, q.hour);
        SplitHour(Padded(y, 4), Padded(m, 2), Padded(d, 2), Padded(h, 2),
                  Padded(q.year, 4), Padded(q.month, 2), Padded(q.day, 2), Padded(q.hour, 2));
    }
  }

  /** Two slash-separated triples are equal part by part. */
  lemma SplitTriple(a: string, b: string, c: string, a': string, b': string, c': string)
    requires '/' !in a && '/' !in b && '/' !in a' && '/' !in b'
    requires a + "/" + b + "/" + c == a' + "/" + b' + "/" + c'
    ensures a == a' && b == b' && c == c'
  {
    assert a + ['/'] + (b + ['/'] + c) == a + "/" + b + "/" + c;
    assert a' + ['/'] + (b' + ['/'] + c') == a' + "/" + b' + "/" + c';
    SplitAtFirst(a, a', b + ['/'] + c, b' + ['/'] + c', '/');
    SplitAtFirst(b, b', c, c', '/');
  }

  /** What follows the first slash. */
  function AfterSlash(s: string): Option<string> {
    if s == "" then None else if s[0] == '/' then Some(s[1..]) else AfterSlash(s[1..])
  }

  /** Split at slashes into at most three pieces, the third one. */
  function ThirdPiece(s: string): Option<string> {
    match AfterSlash(s) case None => None case Some(rest) => AfterSlash(rest)
  }

  lemma {:induction false} AfterFirstSlash(a: string, b: string)
    requires '/' !in a
    ensures AfterSlash(a + "/" + b) == Some(b)
  {
    var s := a + "/" + b;
    if a == "" {
      assert s[1..] == b;
    } else {
      assert s[1..] == a[1..] + "/" + b;
      AfterFirstSlash(a[1..], b);
    }
  }

  /** Reads a period back out of its catalog key, as the index does when it loads the catalog. */
  method Reparse(event: string, p: Period) returns (r: Option<Period>)
    requires ValidEventName(event) && ValidPeriod(p)
    ensures r == if YearOf(p) <= 9999 then Some(p) else None
  {
    hide PeriodKey, ParsePeriodKey;
    var key := CatalogKey(event, p.Granularity(), p);
    NamesHaveNoSlash(event);
    DirNamesDiffer(p.Granularity(), p.Granularity());
    assert key == event + "/" + (DirName(p.Granularity()) + "/" + PeriodKey(p));
    AfterFirstSlash(event, DirName(p.Granularity()) + "/" + PeriodKey(p));
    AfterFirstSlash(DirName(p.Granularity()), PeriodKey(p));
    PeriodKeyRoundTrip(p);
    match ThirdPiece(key) {
      case Some(text) => r := ParsePeriodKey(text);
      case None => r := None;
    }
  }

  /** Distinct keys of legally named events never share a catalog row. */
  lemma CatalogKeyInjective(e: string, p: Period, e': string, p': Period)
    requires ValidEventName(e) && ValidEventName(e') && ValidPeriod(p) && ValidPeriod(p')
    requires CatalogKey(e, p.Granularity(), p) == CatalogKey(e', p'.Granularity(), p')
    ensures e == e' && p == p'
  {
    NamesHaveNoSlash(e);
    NamesHaveNoSlash(e');
    var g, g' := p.Granularity(), p'.Granularity();
    DirNamesDiffer(g, g');
    DirNamesDiffer(g', g);
    SplitTriple(e, DirName(g), PeriodKey(p), e', DirName(g'), PeriodKey(p'));
    PeriodKeysDiffer(p, p');
  }

  // ----- part files ------------------------------------------------------------------------

  function PartFileName(p: Period, id: u64, kind: PartKind): string {
    PeriodKey(p) + (if kind == Data then "." else ".d_") + Padded(id, 12) + ".roar"
  }

  /** Up to 10^12 a part id takes twelve digits; a delta is marked by d_. */
  lemma FileNameText(p: Period, id: u64)
    requires id < 1000000000000
    ensures |Padded(id, 12)| == 12 && Spelled(Padded(id, 12), 0, 12) == id
    ensures PartFileName(p, id, Data) == PeriodKey(p) + ['.'] + Padded(id, 12) + ['.', 'r', 'o', 'a', 'r']
    ensures PartFileName(p, id, Delta) == PeriodKey(p) + ['.', 'd', '_'] + Padded(id, 12) + ['.', 'r', 'o', 'a', 'r']
  {
    hide PeriodKey, Padded;
    PaddedRoundTrip(id, 12, U64_LIMIT - 1);
    PaddedSpells(id, 12);
    assert Pow10(6) == 1000000;
    assert Pow10(12) == 1000000 * Pow10(6);
  }

  /** The segment after the last dot; the whole string if there is none. */
  function LastSegment(s: string): string {
    if s == "" || s[|s| - 1] == '.' then "" else LastSegment(s[..|s| - 1]) + [s[|s| - 1]]
  }

  function StripSuffix(s: string, suffix: string): Option<string> {
    if |suffix| <= |s| && s[|s| - |suffix|..] == suffix then Some(s[..|s| - |suffix|]) else None
  }

  function ExtractPartId(name: string): Option<nat> {
    match StripSuffix(name, ".roar")
    case None => None
    case Some(stem) =>
      var last := LastSegment(stem);
      ParseUnsigned(if 2 <= |last| && last[..2] == "d_" then last[2..] else last, U64_LIMIT - 1)
  }

  lemma {:induction false} LastSegmentOf(prefix: string, s: string)
    requires '.' !in s
    ensures LastSegment(prefix + "." + s) == s
    decreases |s|
  {
    var t := prefix + "." + s;
    if s == "" {
      assert t[|t| - 1] == '.';
    } else {
      assert t[|t| - 1] == s[|s| - 1];
      assert t[..|t| - 1] == prefix + "." + s[..|s| - 1];
      LastSegmentOf(prefix, s[..|s| - 1]);
      assert s == s[..|s| - 1] + [s[|s| - 1]];
    }
  }

  lemma StripOwnSuffix(stem: string, suffix: string)
    ensures StripSuffix(stem + suffix, suffix) == Some(stem)
  {
    var s := stem + suffix;
    assert s[|s| - |suffix|..] == suffix && s[..|s| - |suffix|] == stem;
  }

  lemma ExtractFromData(prefix: string, digits: string)
    requires AllDigits(digits) && digits != ""
    ensures ExtractPartId(prefix + "." + digits + ".roar") == ParseUnsigned(digits, U64_LIMIT - 1)
  {
    hide ParseUnsigned, StripSuffix;
    StripOwnSuffix(prefix + "." + digits, ".roar");
    assert '.' !in digits;
    LastSegmentOf(prefix, digits);
    assert 2 <= |digits| ==> digits[..2][0] != "d_"[0];
  }

  lemma ExtractFromDelta(prefix: string, digits: string)
    requires AllDigits(digits) && digits != ""
    ensures ExtractPartId(prefix + "." + ("d_" + digits) + ".roar") == ParseUnsigned(digits, U64_LIMIT - 1)
  {
    hide ParseUnsigned, StripSuffix;
    var last := "d_" + digits;
    StripOwnSuffix(prefix + "." + last, ".roar");
    assert '.' !in last;
    LastSegmentOf(prefix, last);
    assert last[..2] == "d_" && last[2..] == digits;
  }

  /** The sweep reads back the very id a part file was named with. */
  lemma PartFileNameRoundTrip(p: Period, id: u64, kind: PartKind)
    ensures ExtractPartId(PartFileName(p, id, kind)) == Some(id)
  {
    hide PeriodKey, ExtractPartId;
    PaddedRoundTrip(id, 12, U64_LIMIT - 1);
    var key, digits := PeriodKey(p), Padded(id, 12);
    if kind == Data {
      ExtractFromData(key, digits);
    } else {
      ExtractFromDelta(key, digits);
      assert key + ".d_" + digits + ".roar" == key + "." + ("d_" + digits) + ".roar";
    }
  }

  function RelativePath(path: Path): string {
    path.event + "/" + DirName(path.granularity) + "/" + PartFileName(path.period, path.partId, path.kind)
  }

  /** The first character and the length of a key tell the granularity, and no key holds a dot. */
  lemma KeyShape(p: Period)
    requires ValidPeriod(p)
    ensures '.' !in PeriodKey(p) && PeriodKey(p) != ""
    ensures p.Static? <==> !IsDigit(PeriodKey(p)[0])
    ensures !p.Static? ==> ShapeFits(p, |PeriodKey(p)|)
  {
    if !p.Static? {
      YearDigits(p.year);
      var ys := Padded(p.year, 4);
      match p {
        case Year(_) =>
        case Month(_, m) =>
          TwoDigits(m);
          JoinedShape(ys, "-", Padded(m, 2));
        case Day(_, m, d) =>
          TwoDigits(m);
          TwoDigits(d);
          JoinedShape(ys, "-", Padded(m, 2));
          JoinedShape(ys + "-" + Padded(m, 2), "-", Padded(d, 2));
        case Hour(_, m, d, h) =>
          TwoDigits(m);
          TwoDigits(d);
          TwoDigits(h);
          JoinedShape(ys, "-", Padded(m, 2));
          JoinedShape(ys + "-" + Padded(m, 2), "-", Padded(d, 2));
          JoinedShape(ys + "-" + Padded(m, 2) + "-" + Padded(d, 2), "T", Padded(h, 2));
      }
    }
  }

  predicate ShapeFits(p: Period, n: nat) {
    match p
    case Static => true
    case Year(_) => 4 <= n <= 5
    case Month(_, _) => 7 <= n <= 8
    case Day(_, _, _) => 10 <= n <= 11
    case Hour(_, _, _, _) => 13 <= n <= 14
  }

  lemma JoinedShape(a: string, c: string, digits: string)
    requires a != "" && IsDigit(a[0]) && '.' !in a && |c| == 1 && c[0] != '.' && |digits| == 2 && AllDigits(digits)
    ensures var s := a + c + digits; s[0] == a[0] && '.' !in s && |s| == |a| + 3
  {
    var s := a + c + digits;
    forall i | 0 <= i < |s|
      ensures s[i] != '.'
    {
      if i < |a| {
        assert s[i] == a[i];
      } else if i > |a| {
        assert s[i] == digits[i - |a| - 1];
      }
    }
  }

  /** Valid periods have different keys, across granularities too. */
  lemma PeriodKeyInjective(p: Period, q: Period)
    requires ValidPeriod(p) && ValidPeriod(q) && PeriodKey(p) == PeriodKey(q)
    ensures p == q
  {
    hide PeriodKey, IsDigit;
    KeyShape(p);
    KeyShape(q);
    PeriodKeysDiffer(p, q);
  }

  /** What follows the period in a file name. */
  function FileTail(id: u64, kind: PartKind): string {
    (if kind == Data then "" else "d_") + Padded(id, 12) + ".roar"
  }

  lemma NameAndTail(p: Period, id: u64, kind: PartKind)
    ensures PartFileName(p, id, kind) == PeriodKey(p) + ['.'] + FileTail(id, kind)
  {
    hide PeriodKey, Padded;
    DottedTail(PeriodKey(p), Padded(id, 12));
  }

  lemma DottedTail(key: string, digits: string)
    ensures key + "." + digits + ".roar" == key + ['.'] + ("" + digits + ".roar")
    ensures key + ".d_" + digits + ".roar" == key + ['.'] + ("d_" + digits + ".roar")
  {
  }

  lemma TailsDiffer(id: u64)
    ensures FileTail(id, Data) != FileTail(id, Delta)
  {
    PaddedRoundTrip(id, 12, U64_LIMIT - 1);
    assert IsDigit(Padded(id, 12)[0]);
    assert FileTail(id, Data)[0] == Padded(id, 12)[0] && FileTail(id, Delta)[0] == 'd';
  }

  lemma FileNameInjective(p: Period, id: u64, kind: PartKind, p': Period, id': u64, kind': PartKind)
    requires ValidPeriod(p) && ValidPeriod(p') && PartFileName(p, id, kind) == PartFileName(p', id', kind')
    ensures p == p' && id == id' && kind == kind'
  {
    hide PartFileName, FileTail, PeriodKey, ExtractPartId;
    PartFileNameRoundTrip(p, id, kind);
    PartFileNameRoundTrip(p', id', kind');
    KeyShape(p);
    KeyShape(p');
    NameAndTail(p, id, kind);
    NameAndTail(p', id', kind');
    SplitAtFirst(PeriodKey(p), PeriodKey(p'), FileTail(id, kind), FileTail(id', kind'), '.');
    PeriodKeyInjective(p, p');
    TailsDiffer(id);
  }

  /** Different part files of legally named events and valid periods have different paths. */
  lemma PathsAreInjective(a: Path, b: Path)
    requires ValidEventName(a.event) && ValidEventName(b.event) && ValidPeriod(a.period) && ValidPeriod(b.period)
    requires RelativePath(a) == RelativePath(b)
    ensures a == b
  {
    hide PartFileName, DirName;
    NamesHaveNoSlash(a.event);
    NamesHaveNoSlash(b.event);
    DirNamesDiffer(a.granularity, b.granularity);
    DirNamesDiffer(b.granularity, a.granularity);
    var f, f' := PartFileName(a.period, a.partId, a.kind), PartFileName(b.period, b.partId, b.kind);
    SplitTriple(a.event, DirName(a.granularity), f, b.event, DirName(b.granularity), f');
    FileNameInjective(a.period, a.partId, a.kind, b.period, b.partId, b.kind);
  }
}
