/** The value types of the store: machine integers, granularities, periods and
    their derived order, event configurations and part metadata. */
module Types {

  const U32_LIMIT := 0x1_0000_0000
  const U64_LIMIT := 0x1_0000_0000_0000_0000

  type u8 = n: int | 0 <= n < 0x100
  type u16 = n: int | 0 <= n < 0x1_0000
  type u32 = n: int | 0 <= n < 0x1_0000_0000
  type u64 = n: int | 0 <= n < 0x1_0000_0000_0000_0000

  datatype Option<+T> = None | Some(value: T)

  datatype Result<+T> = Ok(value: T) | Err(error: Error)

  datatype Error =
    | Closed
    | ReadOnly
    | InvalidEventName
    | EventAlreadyRegistered
    | InvalidPeriod
    | GranularityMismatch
    | Configuration
    | CatalogCorrupted

  // ----- granularities and periods ------------------------------------------

  datatype Granularity = Timeless | Hourly | Daily | Monthly | Yearly

  datatype Period =
    | Static
    | Hour(year: u16, month: u8, day: u8, hour: u8)
    | Day(year: u16, month: u8, day: u8)
    | Month(year: u16, month: u8)
    | Year(year: u16)
  {
    function Granularity(): Granularity {
      match this
      case Static => Timeless
      case Hour(_, _, _, _) => Hourly
      case Day(_, _, _) => Daily
      case Month(_, _) => Monthly
      case Year(_) => Yearly
    }

    function Parent(): Option<Period> {
      match this
      case Static => None
      case Year(_) => None
      case Hour(y, m, d, _) => Some(Day(y, m, d))
      case Day(y, m, _) => Some(Month(y, m))
      case Month(y, _) => Some(Year(y))
    }

    /** The number of levels above this period. */
    function Height(): nat {
      match this
      case Static => 0
      case Year(_) => 0
      case Month(_, _) => 1
      case Day(_, _, _) => 2
      case Hour(_, _, _, _) => 3
    }

    /** Every ancestor, the immediate parent first. */
    function Ancestors(): seq<Period>
      decreases Height()
    {
      match Parent()
      case None => []
      case Some(p) => [p] + p.Ancestors()
    }

    /** The derived order compares the variant first, then the fields from left to right. */
    function VariantRank(): nat {
      match this
      case Static => 0
      case Hour(_, _, _, _) => 1
      case Day(_, _, _) => 2
      case Month(_, _) => 3
      case Year(_) => 4
    }

    predicate Less(that: Period) {
      VariantRank() < that.VariantRank() ||
      (VariantRank() == that.VariantRank() &&
       match this
       case Static => false
       case Hour(y, m, d, h) =>
         y < that.year || (y == that.year &&
           (m < that.month || (m == that.month &&
             (d < that.day || (d == that.day && h < that.hour)))))
       case Day(y, m, d) =>
         y < that.year || (y == that.year && (m < that.month || (m == that.month && d < that.day)))
       case Month(y, m) => y < that.year || (y == that.year && m < that.month)
       case Year(y) => y < that.year)
    }
  }

  // ----- events --------------------------------------------------------------

  datatype Rollup = Auto | NoRollup

  datatype EventConfig = EventConfig(name: string, finest: Granularity, rollup: Rollup, chain: seq<Granularity>)

  function RollupChain(finest: Granularity): seq<Granularity> {
    match finest
    case Timeless => []
    case Hourly => [Hourly, Daily, Monthly, Yearly]
    case Daily => [Daily, Monthly, Yearly]
    case Monthly => [Monthly, Yearly]
    case Yearly => [Yearly]
  }

  function NewEventConfig(name: string, finest: Granularity, requested: Rollup): EventConfig {
    var rollup := if finest == Timeless then NoRollup else requested;
    EventConfig(name, finest, rollup, if rollup == Auto then RollupChain(finest) else [])
  }

  predicate IsNameChar(c: char) {
    'a' <= c <= 'z' || 'A' <= c <= 'Z' || '0' <= c <= '9' || c == '_' || c == ':' || c == '.' || c == '-'
  }

  predicate ValidEventName(name: string) {
    name != "" && name != "." && name != ".." && forall i | 0 <= i < |name| :: IsNameChar(name[i])
  }

  /** A digit, a letter, or one of the signs - . : _ by its ASCII code. */
  predicate LegalCode(n: int) { 48 <= n <= 57 || 65 <= n <= 90 || 97 <= n <= 122 || n in {45, 46, 58, 95} }

  /** A name is legal when all of it is, and when it is none of the names a directory has for itself. */
  lemma LegalNames(name: string)
    ensures ValidEventName(name) <==>
      name !in {"", ".", ".."} && forall i :: 0 <= i < |name| ==> LegalCode(name[i] as int)
  {
  }

  /** Configurations are stored in the form their constructor gives them. */
  predicate Canonical(events: map<string, EventConfig>) {
    forall n | n in events :: ValidEventName(n) && events[n] == NewEventConfig(n, events[n].finest, events[n].rollup)
  }

  // ----- keys and parts ------------------------------------------------------

  /** The logical name of one stored set. */
  datatype Key = Key(event: string, period: Period)

  /** One id stored under one key. */
  datatype Row = Row(event: string, period: Period, bit: u32)

  datatype PartKind = Data | Delta

  datatype PeriodState = Open | ClosedPeriod | Compacted | Dropped

  /** The location of a part file under the parts root. */
  datatype Path = Path(event: string, granularity: Granularity, period: Period, partId: u64, kind: PartKind)

  datatype Part = Part(
    partId: u64,
    kind: PartKind,
    event: string,
    period: Period,
    file: Path,
    sizeBytes: u64,
    cardinality: u64,
    createdAt: u64,
    level: u8)
  {
    /** The key whose list this part belongs to. */
    function Owner(): Key { Key(event, period) }
  }
}
