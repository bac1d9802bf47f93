/** The search of `serialized_contains`: a container by its key, then a value inside it. */
module Search {
  import opened Bits
  import opened LittleEndian
  import opened Types
  import opened Roaring
  import opened Encoding
  import Bytewise

  /** Binary search of the descriptive header for a container key. */
  method FindContainer(data: Bytes, h: Header, hi: u16) returns (found: Option<nat>)
    requires HeadersFit(data, h)
    ensures found.Some? ==> found.value < h.count && KeyOf(data, h, found.value) == hi
    ensures found.None? && SortedKeys(data, h) ==> forall i :: 0 <= i < h.count ==> KeyOf(data, h, i) != hi
  {
    var lo_idx, hi_idx := 0, h.count;
    while lo_idx < hi_idx
      invariant 0 <= lo_idx <= hi_idx <= h.count
      invariant SortedKeys(data, h) ==> forall i :: 0 <= i < lo_idx ==> KeyOf(data, h, i) < hi
      invariant SortedKeys(data, h) ==> forall i :: hi_idx <= i < h.count ==> hi < KeyOf(data, h, i)
    {
      var mid := lo_idx + (hi_idx - lo_idx) / 2;
      var key := KeyOf(data, h, mid);
      if key == hi {
        return Some(mid);
      } else if key < hi {
        lo_idx := mid + 1;
      } else {
        hi_idx := mid;
      }
    }
    found := None;
  }

  method ArrayContains(data: Bytes, at: nat, card: nat, lo: u16) returns (r: bool)
    ensures r ==> InArray(data, at, card, lo)
    ensures SortedArray(data, at, card) && InArray(data, at, card, lo) ==> r
  {
    if |data| < at + card * 2 {
      return false;
    }
    var lo_idx, hi_idx := 0, card;
    while lo_idx < hi_idx
      invariant 0 <= lo_idx <= hi_idx <= card
      invariant SortedArray(data, at, card) ==> forall j :: 0 <= j < lo_idx ==> Entry(data, at, j) < lo
      invariant SortedArray(data, at, card) ==> forall j :: hi_idx <= j < card ==> lo < Entry(data, at, j)
    {
      var mid := lo_idx + (hi_idx - lo_idx) / 2;
      var val := Entry(data, at, mid);
      if val == lo {
        return true;
      } else if val < lo {
        lo_idx := mid + 1;
      } else {
        hi_idx := mid;
      }
    }
    r := false;
  }

  predicate RunsComplete(data: Bytes, at: nat) {
    at + 2 <= |data| &&
    var n: int := U16At(data, at);
    at + 2 + 4 * n <= |data|
  }

  lemma HigherRuns(data: Bytes, at: nat, mid: nat, lo: u16)
    requires OrderedRuns(data, at) && RunsComplete(data, at) && mid < U16At(data, at) && lo < RunStart(data, at, mid)
    ensures forall j :: mid <= j < U16At(data, at) ==> lo < RunStart(data, at, j)
  {
    hide U16At;
    forall j | mid < j < U16At(data, at)
      ensures lo < RunStart(data, at, j)
    {
      assert RunEnd(data, at, mid) < RunStart(data, at, j);
    }
  }

  /** The run ends before the value, or it is the last one and passes 65535. */
  ghost predicate Missed(data: Bytes, at: nat, j: nat, lo: u16)
    requires RunsComplete(data, at) && j < U16At(data, at)
  {
    RunEnd(data, at, j) < lo || (j as int == U16At(data, at) - 1 && InLongRun(data, at, lo))
  }

  lemma LowerRuns(data: Bytes, at: nat, mid: nat, lo: u16)
    requires OrderedRuns(data, at) && RunsComplete(data, at) && mid < U16At(data, at)
    requires RunStart(data, at, mid) <= lo && RunEnd(data, at, mid) % 0x1_0000 < lo
    ensures forall j :: 0 <= j <= mid ==> Missed(data, at, j, lo)
  {
    hide U16At;
    forall j | 0 <= j < mid
      ensures Missed(data, at, j, lo)
    {
      assert RunEnd(data, at, j) < RunStart(data, at, mid);
    }
    if mid + 1 < U16At(data, at) {
      assert RunEnd(data, at, mid) < RunStart(data, at, mid + 1);
    }
  }

  lemma FoundRun(data: Bytes, at: nat, mid: nat, lo: u16)
    requires RunsComplete(data, at) && mid < U16At(data, at)
    requires RunStart(data, at, mid) <= lo <= RunEnd(data, at, mid) % 0x1_0000
    ensures InRuns(data, at, lo) && (OrderedRuns(data, at) ==> !InLongRun(data, at, lo))
  {
    hide U16At;
    assert RunCovers(data, at, mid, lo);
  }

  lemma NoRun(data: Bytes, at: nat, i: nat, lo: u16)
    requires RunsComplete(data, at) && i <= U16At(data, at)
    requires forall j :: 0 <= j < i ==> Missed(data, at, j, lo)
    requires forall j :: i <= j < U16At(data, at) ==> lo < RunStart(data, at, j)
    ensures InRuns(data, at, lo) ==> InLongRun(data, at, lo)
  {
    hide U16At, InLongRun;
    if InRuns(data, at, lo) {
      var j: nat :| j < U16At(data, at) && RunCovers(data, at, j, lo);
      assert j < i && Missed(data, at, j, lo);
    }
  }

  /** The end of a run is computed in 16 bits and wraps when it passes 65535. When runs are in order that can happen to
      the last one only, and exactly the values from its start on are then missed. */
  method RunsContain(data: Bytes, at: nat, lo: u16) returns (r: bool)
    ensures r ==> InRuns(data, at, lo)
    ensures OrderedRuns(data, at) ==> (r <==> InRuns(data, at, lo) && !InLongRun(data, at, lo))
  {
    if |data| < at + 2 {
      return false;
    }
    var n: int := U16At(data, at);
    if |data| < at + 2 + n * 4 {
      return false;
    }
    hide U16At, OrderedRuns, InLongRun, InRuns, Missed;
    var lo_idx, hi_idx := 0, n;
    while lo_idx < hi_idx
      invariant 0 <= lo_idx <= hi_idx <= n
      invariant OrderedRuns(data, at) ==> forall j :: 0 <= j < lo_idx ==> Missed(data, at, j, lo)
      invariant OrderedRuns(data, at) ==> forall j :: hi_idx <= j < n ==> lo < RunStart(data, at, j)
    {
      var mid := lo_idx + (hi_idx - lo_idx) / 2;
      var start: int, length: int := U16At(data, at + 2 + 4 * mid), U16At(data, at + 2 + 4 * mid + 2);
      var end := (start + length) % 0x1_0000;
      if lo < start {
        if OrderedRuns(data, at) { HigherRuns(data, at, mid, lo); }
        hi_idx := mid;
      } else if lo > end {
        if OrderedRuns(data, at) { LowerRuns(data, at, mid, lo); }
        lo_idx := mid + 1;
      } else {
        FoundRun(data, at, mid, lo);
        return true;
      }
    }
    if OrderedRuns(data, at) { NoRun(data, at, lo_idx, lo); }
    r := false;
  }

  /** A positive answer is always backed by the bytes, and on bytes that ascend the answer is what they stand for,
      byte by byte. On ordered data the answer is exact but for a run that is too long, on data in the format's
      order it is exact, and so it is on every encoding of a set. */
  method SerializedContains(data: Bytes, value: u32) returns (r: bool)
    ensures r ==> Bytewise.Contains(data, value)
    ensures Bytewise.Ascends(data) ==> (r <==> Bytewise.Contains(data, value))
    ensures r ==> Holds(data, value)
    ensures InOrder(data) ==> (r <==> Holds(data, value) && !Overrun(data, value))
    ensures Sorted(data) ==> (r <==> Holds(data, value))
    ensures Bytewise.Ascends(data) && Bytewise.PlacesAreStored(data) ==> (r <==> FormatHolds(data, value))
    ensures forall s, runs :: IsEncoding(data, s, runs) ==> (r <==> value in s)
  {
    hide InArray, InBitmap, InRuns, InLongRun, SortedArray, OrderedRuns, EncodeWith, FormatHolds, SortedContainer;
    hide Bytewise.Contains, Bytewise.Ascends;
    Bytewise.ReaderAgrees(data, value);
    if Sorted(data) {
      Bytewise.HeadersAgree(data);
    }
    forall s, runs | IsEncoding(data, s, runs)
      ensures Sorted(data) && (Holds(data, value) <==> value in s)
    {
      EncodingIsFaithful(s, runs, value);
    }
    if Sorted(data) {
      SortedIsOrdered(data, value);
      if HasOffsets(ReadHeader(data).value) {
        OffsetsReadTheFormat(data, value);
      }
    }
    var hi, lo := value / 0x1_0000, value % 0x1_0000;
    if |data| < 4 {
      return false;
    }
    var cookie: int := U32At(data, 0);
    var count: nat, hasRuns, start: nat;
    if cookie == COOKIE_NO_RUNS {
      if |data| < 8 {
        return false;
      }
      count, hasRuns, start := U32At(data, 4), false, 8;
    } else if cookie % 0x1_0000 == COOKIE_WITH_RUNS {
      count, hasRuns, start := cookie / 0x1_0000 + 1, true, 4;
    } else {
      return false;
    }
    var h := Header(count, hasRuns, start);
    assert ReadHeader(data) == Some(h);
    if count == 0 || |data| < h.OffsetStart() {
      return false;
    }
    var found := FindContainer(data, h, hi);
    if found.None? {
      return false;
    }
    var i := found.value;
    if InOrder(data) {
      OnlyContainer(data, h, i, value);
      assert OrderedContainer(data, h, i);
    }
    if |data| < h.OffsetStart() + 4 * i + 4 {
      return false;
    }
    var at, card := BodyOf(data, h, i), CardOf(data, h, i);
    if IsRun(data, h, i) {
      r := RunsContain(data, at, lo);
    } else if card <= ARRAY_LIMIT {
      r := ArrayContains(data, at, card, lo);
    } else {
      r := BitmapContains(data, at, lo);
    }
  }

  ghost predicate IsEncoding(data: Bytes, s: set<u32>, runs: Choice) {
    Short(runs) && Suits(runs, s) && data == EncodeWith(s, runs)
  }

  method BitmapContains(data: Bytes, at: nat, lo: u16) returns (r: bool)
    ensures r <==> InBitmap(data, at, lo)
  {
    r := |data| >= at + BITMAP_BYTES && TestBit(data[at + lo / 8], lo % 8);
  }

  // ----- what encodings look like ------------------------------------------------------------------

  lemma HeaderBytes(e: Bytes)
    requires ReadHeader(e).Some?
    ensures var h := ReadHeader(e).value;
      if h.hasRuns then |e| >= 4 && e[..2] == [0x3B, 0x30] && Bytewise.Two(e, 2) == h.count - 1
      else |e| >= 8 && e[..4] == [0x3A, 0x30, 0, 0] && Bytewise.Four(e, 4) == h.count
  {
    hide ReadHeader, Bytewise.Two, Bytewise.Four;
    Bytewise.HeadersAgree(e);
  }

  /** Without runs an encoding starts with 3A 30 00 00 and the number of keys; with runs with 3B 30 and the number of
      keys less one. */
  lemma EncodingStarts(s: set<u32>, runs: Choice)
    requires Short(runs)
    ensures var e, keys := EncodeWith(s, runs), Keys(s);
      if forall hi :: hi in keys ==> hi !in runs
      then |e| >= 8 && e[..4] == [0x3A, 0x30, 0, 0] && Bytewise.Four(e, 4) == |keys|
      else |e| >= 4 && e[..2] == [0x3B, 0x30] && Bytewise.Two(e, 2) == |keys| - 1
  {
    hide Assemble, LaidOut, ReadHeader, Bytewise.Two, Bytewise.Four;
    var e, cs, keys := EncodeWith(s, runs), Containers(s, runs), Keys(s);
    KeysAreExact(s);
    AssembledIsLaidOut(cs);
    AssembledHeader(e, cs);
    HeaderBytes(e);
    assert forall i :: 0 <= i < |cs| ==> (cs[i].run <==> keys[i] in runs);
  }

  /** Two bytes for each value up to 4096 values, one bit for each possible value above that. */
  lemma ContainerSizes(s: set<u32>, runs: Choice, hi: u16)
    requires Short(runs) && Lows(s, hi) != [] && hi !in runs
    ensures var n, size := |Lows(s, hi)|, |ContainerOf(s, runs, hi).body|;
      (n <= 4096 ==> size == 2 * n) && (n > 4096 ==> size == 8192)
  {
  }

  /** An encoding stands for its set, byte by byte. */
  lemma EncodingStandsFor(s: set<u32>, runs: Choice, v: u32)
    requires Short(runs) && Suits(runs, s)
    ensures Bytewise.Ascends(EncodeWith(s, runs))
    ensures Bytewise.Contains(EncodeWith(s, runs), v) <==> v in s
  {
    hide Bytewise.Contains, Bytewise.Ascends, Sorted, Holds;
    EncodingIsFaithful(s, runs, v);
    Bytewise.ReaderAgrees(EncodeWith(s, runs), v);
  }

  /** The eighteen bytes of a set with one value. */
  function OneValue(key: u16, low: u16): (r: Bytes)
    ensures |r| == 18
  {
    [0x3A, 0x30, 0, 0, 1, 0, 0, 0, key % 256, key / 256, 0, 0, 16, 0, 0, 0, low % 256, low / 256]
  }

  method OneValueIsFound(key: u16, low: u16, value: u32) returns (r: bool)
    ensures r <==> value / 65536 == key && value % 65536 == low
  {
    var data := OneValue(key, low);
    OneValueReads(key, low, value);
    r := SerializedContains(data, value);
  }

  lemma OneValueReads(key: u16, low: u16, value: u32)
    ensures Bytewise.Ascends(OneValue(key, low))
    ensures Bytewise.Contains(OneValue(key, low), value) <==> value / 65536 == key && value % 65536 == low
  {
    var data := OneValue(key, low);
    assert Bytewise.WithoutRuns(data) && Bytewise.Count(data) == 1 && Bytewise.Table(data) == 8;
    assert Bytewise.KeyAt(data, 0) == key && Bytewise.CardAt(data, 0) == 1 && Bytewise.PlaceAt(data, 0) == 16;
    assert Bytewise.ItemAt(data, 16, 0) == low;
    assert Bytewise.Stored(data, 0, value % 65536) <==> value % 65536 == low;
  }

  // ----- what the search misses -----------------------------------------------------------------

  /** One container that holds one run, with its offset. */
  function StoredRun(key: u16, cardMinusOne: u16, run: Run): Bytes {
    Assemble([Container(key, cardMinusOne, true, RunBody([run]))])
  }

  lemma OneRunReads(data: Bytes, at: nat, run: Run)
    requires Starts(data, at, RunBody([run]))
    ensures at + 6 <= |data| && U16At(data, at) == 1
    ensures RunStart(data, at, 0) == run.start && RunEnd(data, at, 0) == run.Last()
  {
    StartsBoth(data, at, Le16(1), RunFields([run]));
    Le16At(data, at, 1);
    RunFieldAt(data, at + 2, [run], 0);
  }

  lemma StoredRunReads(key: u16, cardMinusOne: u16, run: Run)
    ensures var data, h := StoredRun(key, cardMinusOne, run), Header(1, true, 4);
      && ReadHeader(data) == Some(h) && HeadersFit(data, h) && OffsetFits(data, h, 0)
      && KeyOf(data, h, 0) == key && IsRun(data, h, 0)
      && var at := BodyOf(data, h, 0);
         && at + 6 <= |data| && U16At(data, at) == 1
         && RunStart(data, at, 0) == run.start && RunEnd(data, at, 0) == run.Last()
  {
    hide Assemble, Starts, RunBody, IsRun, Offset, LaidOut, RunStart, RunEnd;
    var cs := [Container(key, cardMinusOne, true, RunBody([run]))];
    var data := StoredRun(key, cardMinusOne, run);
    assert cs[0].run;
    AssembledIsLaidOut(cs);
    AssembledHeader(data, cs);
    AssembledFlag(data, cs, 0);
    AssembledDescriptor(data, cs, 0);
    AssembledBody(data, cs, 0);
    OneRunReads(data, Offset(cs, 0), run);
  }

  /** A run that starts at or before the value and passes 65535 covers it. */
  lemma LongRunCovers(data: Bytes, h: Header, run: Run, value: u32)
    requires ReadHeader(data) == Some(h) && h.count == 1 && HeadersFit(data, h) && OffsetFits(data, h, 0)
    requires KeyOf(data, h, 0) == value / 0x1_0000 && IsRun(data, h, 0)
    requires var at := BodyOf(data, h, 0);
      && at + 6 <= |data| && U16At(data, at) == 1
      && RunStart(data, at, 0) == run.start && RunEnd(data, at, 0) == run.Last()
    requires run.Last() > 0xFFFF && run.start <= value % 0x1_0000
    ensures InOrder(data) && Holds(data, value) && Overrun(data, value)
  {
    hide ReadHeader, KeyOf, IsRun, RunStart, RunEnd, BodyOf;
    assert RunCovers(data, BodyOf(data, h, 0), 0, value % 0x1_0000);
    assert InContainer(data, h, 0, value % 0x1_0000);
  }

  /** Complete data with a run that passes 65535: every value from its start on is in the run, and the search finds none
      of them. */
  method LongRunIsMissed(key: u16, cardMinusOne: u16, run: Run, value: u32) returns (r: bool)
    requires run.Last() > 0xFFFF && value / 0x1_0000 == key && run.start <= value % 0x1_0000
    ensures !r && Holds(StoredRun(key, cardMinusOne, run), value)
  {
    hide InOrder, Holds, Overrun, Sorted, IsEncoding, StoredRun, ReadHeader, KeyOf, IsRun, RunStart, RunEnd, BodyOf;
    var data := StoredRun(key, cardMinusOne, run);
    StoredRunReads(key, cardMinusOne, run);
    LongRunCovers(data, Header(1, true, 4), run, value);
    r := SerializedContains(data, value);
  }

  /** One container with one run as the format stores it, without an offset. */
  function SingleRun(key: u16, run: Run): (r: Bytes)
    ensures |r| == 15
  {
    Le32(COOKIE_WITH_RUNS) + ([1] + ((Le16(key) + Le16(run.length)) + (Le16(1) + RunField(run))))
  }

  lemma SingleRunInPlace(key: u16, run: Run)
    ensures var e := SingleRun(key, run);
      && Starts(e, 0, Le32(COOKIE_WITH_RUNS)) && e[4] == 1
      && Starts(e, 5, Le16(key) + Le16(run.length)) && Starts(e, 9, Le16(1)) && Starts(e, 11, RunField(run))
  {
    var e := SingleRun(key, run);
    FourFields(e, Le32(COOKIE_WITH_RUNS), [1], Le16(key) + Le16(run.length), Le16(1) + RunField(run));
    assert e[4 + 0] == [1][0];
    StartsBoth(e, 9, Le16(1), RunField(run));
  }

  lemma SingleRunFields(key: u16, run: Run)
    ensures var e, h := SingleRun(key, run), Header(1, true, 4);
      && ReadHeader(e) == Some(h) && HeadersFit(e, h) && IsRun(e, h, 0) && KeyOf(e, h, 0) == key
      && U16At(e, 9) == 1 && RunStart(e, 9, 0) == run.start && RunEnd(e, 9, 0) == run.Last()
  {
    hide SingleRun, Starts, Le16, Le32, RunField;
    var e := SingleRun(key, run);
    SingleRunInPlace(key, run);
    Le32At(e, 0, COOKIE_WITH_RUNS);
    TwoFields(e, 5, key, run.length);
    Le16At(e, 9, 1);
    RunFieldReads(e, 11, run);
  }

  lemma RunFieldReads(e: Bytes, at: nat, run: Run)
    requires Starts(e, at, RunField(run))
    ensures at + 4 <= |e| && U16At(e, at) == run.start && U16At(e, at + 2) == run.length
  {
    TwoFields(e, at, run.start, run.length);
  }

  /** By the format these bytes hold the run. The search takes the first bytes of the container for its offset and finds
      no value at all. */
  lemma SingleRunIsMissed(key: u16, run: Run, value: u32)
    ensures !HasOffsets(Header(1, true, 4))
    ensures FormatHolds(SingleRun(key, run), value) <==> value / 0x1_0000 == key && run.Covers(value % 0x1_0000)
    ensures !Holds(SingleRun(key, run), value)
  {
    var e, h := SingleRun(key, run), Header(1, true, 4);
    SingleRunFields(key, run);
    assert FormatBody(e, h, 0) == Some(9);
    assert InFormatContainer(e, h, 0, value % 0x1_0000) <==> RunCovers(e, 9, 0, value % 0x1_0000);
    var start: int := run.start;
    assert BodyOf(e, h, 0) == 1 + 0x1_0000 * start;
    if start == 0 {
      assert U16At(e, 1) == 0x30;
    }
  }
}
