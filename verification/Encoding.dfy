/** The bytes that stand for a set: RoaringFormatSpec, an array for up to 4096 values under one key, a bitmap above
    that, and runs wherever the writer chose them. Offsets are always written. */
module Encoding {
  import opened Bits
  import opened LittleEndian
  import opened Types
  import opened Roaring

  // ----- headers and bodies around any list of containers -----------------------------------

  datatype Container = Container(key: u16, cardMinusOne: u16, run: bool, body: Bytes)

  ghost predicate Storable(cs: seq<Container>) {
    |cs| <= 0x1_0000 && forall i :: 0 <= i < |cs| ==> |cs[i].body| <= BITMAP_BYTES
  }

  /** The bodies of the first `n` containers, one after the other. */
  function Bodies(cs: seq<Container>, n: nat): Bytes
    requires n <= |cs|
  {
    if n == 0 then [] else Bodies(cs, n - 1) + cs[n - 1].body
  }

  lemma {:induction false} BodiesAreShort(cs: seq<Container>, n: nat)
    requires n <= |cs| && Storable(cs)
    ensures |Bodies(cs, n)| <= BITMAP_BYTES * n
  {
    if n > 0 {
      BodiesAreShort(cs, n - 1);
    }
  }

  lemma {:induction false} BodyInBodies(cs: seq<Container>, i: nat, n: nat)
    requires i < n <= |cs|
    ensures |Bodies(cs, i)| + |cs[i].body| <= |Bodies(cs, n)|
    ensures forall k :: 0 <= k < |cs[i].body| ==> Bodies(cs, n)[|Bodies(cs, i)| + k] == cs[i].body[k]
    decreases n
  {
    if i < n - 1 {
      BodyInBodies(cs, i, n - 1);
    }
  }

  /** Where the body of container `i` starts; a 32-bit number for any storable list. */
  function Offset(cs: seq<Container>, i: nat): u32
    requires i < |cs| && Storable(cs)
  {
    BodiesAreShort(cs, i);
    HeaderOf(cs).OffsetStart() + 4 * |cs| + |Bodies(cs, i)|
  }

  predicate HasRuns(cs: seq<Container>) { exists i | 0 <= i < |cs| :: cs[i].run }

  function HeaderOf(cs: seq<Container>): Header {
    if HasRuns(cs) then Header(|cs|, true, 4) else Header(|cs|, false, 8)
  }

  /** Eight run flags, the lowest first; none beyond the last container. */
  function FlagsAt(cs: seq<Container>, j: nat): (r: seq<bool>)
    ensures |r| == 8
  {
    seq(8, k requires 0 <= k < 8 => 8 * j + k < |cs| && cs[8 * j + k].run)
  }

  function FlagBytes(cs: seq<Container>): (r: Bytes)
    ensures |r| == (|cs| + 7) / 8
  {
    seq((|cs| + 7) / 8, j requires 0 <= j < (|cs| + 7) / 8 => PackByte(FlagsAt(cs, j)))
  }

  function RunCookie(cs: seq<Container>): u32
    requires 0 < |cs| <= 0x1_0000
  {
    COOKIE_WITH_RUNS + 0x1_0000 * (|cs| - 1)
  }

  /** Everything before the descriptors. */
  function Front(cs: seq<Container>): (r: Bytes)
    requires Storable(cs)
    ensures |r| == HeaderOf(cs).DescStart()
  {
    if HasRuns(cs) then Le32(RunCookie(cs)) + FlagBytes(cs) else Le32(COOKIE_NO_RUNS) + Le32(|cs|)
  }

  function DescriptorOf(c: Container): (r: Bytes)
    ensures |r| == 4
  {
    Le16(c.key) + Le16(c.cardMinusOne)
  }

  function Descriptors(cs: seq<Container>): (r: Bytes)
    ensures |r| == 4 * |cs|
  {
    seq(4 * |cs|, i requires 0 <= i < 4 * |cs| => DescriptorOf(cs[i / 4])[i % 4])
  }

  function Offsets(cs: seq<Container>): (r: Bytes)
    requires Storable(cs)
    ensures |r| == 4 * |cs|
  {
    seq(4 * |cs|, i requires 0 <= i < 4 * |cs| => Le32(Offset(cs, i / 4))[i % 4])
  }

  function Assemble(cs: seq<Container>): Bytes
    requires Storable(cs)
  {
    Front(cs) + (Descriptors(cs) + (Offsets(cs) + Bodies(cs, |cs|)))
  }

  // ----- reading the pieces back ---------------------------------------------------------------

  /** `e` has the header, the descriptors, the offsets and the bodies of `cs` in their places. */
  ghost predicate LaidOut(e: Bytes, cs: seq<Container>)
    requires Storable(cs)
  {
    var n, h := |cs|, HeaderOf(cs);
    && |e| == h.OffsetStart() + 4 * n + |Bodies(cs, n)|
    && Starts(e, 0, Front(cs))
    && Starts(e, h.DescStart(), Descriptors(cs))
    && Starts(e, h.OffsetStart(), Offsets(cs))
    && Starts(e, h.OffsetStart() + 4 * n, Bodies(cs, n))
  }

  lemma AssembledIsLaidOut(cs: seq<Container>)
    requires Storable(cs)
    ensures LaidOut(Assemble(cs), cs)
  {
    FourFields(Assemble(cs), Front(cs), Descriptors(cs), Offsets(cs), Bodies(cs, |cs|));
  }

  lemma FourFields(e: Bytes, a: Bytes, b: Bytes, c: Bytes, d: Bytes)
    requires e == a + (b + (c + d))
    ensures |e| == |a| + |b| + |c| + |d|
    ensures Starts(e, 0, a) && Starts(e, |a|, b) && Starts(e, |a| + |b|, c) && Starts(e, |a| + |b| + |c|, d)
  {
    StartsBoth(e, 0, a, b + (c + d));
    StartsBoth(e, |a|, b, c + d);
    StartsBoth(e, |a| + |b|, c, d);
  }

  lemma AssembledHeader(e: Bytes, cs: seq<Container>)
    requires Storable(cs) && LaidOut(e, cs)
    ensures ReadHeader(e) == Some(HeaderOf(cs)) && HeadersFit(e, HeaderOf(cs))
  {
    if HasRuns(cs) {
      StartsBoth(e, 0, Le32(RunCookie(cs)), FlagBytes(cs));
      Le32At(e, 0, RunCookie(cs));
      CookieParts(|cs| - 1);
    } else {
      StartsBoth(e, 0, Le32(COOKIE_NO_RUNS), Le32(|cs|));
      Le32At(e, 0, COOKIE_NO_RUNS);
      Le32At(e, 4, |cs|);
    }
  }

  lemma CookieParts(n: nat)
    ensures (COOKIE_WITH_RUNS + 0x1_0000 * n) % 0x1_0000 == COOKIE_WITH_RUNS
    ensures (COOKIE_WITH_RUNS + 0x1_0000 * n) / 0x1_0000 == n
  {
  }

  /** The run flags are read back. */
  lemma AssembledFlag(e: Bytes, cs: seq<Container>, i: nat)
    requires Storable(cs) && LaidOut(e, cs) && i < |cs| && HeadersFit(e, HeaderOf(cs))
    ensures IsRun(e, HeaderOf(cs), i) <==> cs[i].run
  {
    if HasRuns(cs) {
      var j, k := i / 8, i % 8;
      StartsBoth(e, 0, Le32(RunCookie(cs)), FlagBytes(cs));
      assert e[4 + j] == FlagBytes(cs)[j] == PackByte(FlagsAt(cs, j));
      PackedBit(FlagsAt(cs, j), k);
      assert 8 * j + k == i;
    }
  }

  /** Entry `i` of a list of four-byte fields is in place when the whole list is. */
  lemma FieldInList(e: Bytes, at: nat, list: Bytes, i: nat, field: Bytes)
    requires Starts(e, at, list) && |field| == 4 && 4 * i + 4 <= |list|
    requires forall k :: 0 <= k < 4 ==> list[4 * i + k] == field[k]
    ensures Starts(e, at + 4 * i, field)
  {
  }

  lemma FourApart(cs: seq<Container>, i: nat)
    requires Storable(cs) && i < |cs|
    ensures forall k :: 0 <= k < 4 ==> Descriptors(cs)[4 * i + k] == DescriptorOf(cs[i])[k]
    ensures forall k :: 0 <= k < 4 ==> Offsets(cs)[4 * i + k] == Le32(Offset(cs, i))[k]
  {
    forall k | 0 <= k < 4
      ensures Descriptors(cs)[4 * i + k] == DescriptorOf(cs[i])[k] && Offsets(cs)[4 * i + k] == Le32(Offset(cs, i))[k]
    {
      assert (4 * i + k) / 4 == i && (4 * i + k) % 4 == k;
    }
  }

  lemma AssembledDescriptor(e: Bytes, cs: seq<Container>, i: nat)
    requires Storable(cs) && LaidOut(e, cs) && i < |cs|
    ensures var h := HeaderOf(cs);
      && HeadersFit(e, h) && OffsetFits(e, h, i)
      && KeyOf(e, h, i) == cs[i].key && CardOf(e, h, i) == cs[i].cardMinusOne + 1
      && BodyOf(e, h, i) == Offset(cs, i)
  {
    var h := HeaderOf(cs);
    FourApart(cs, i);
    FieldInList(e, h.DescStart(), Descriptors(cs), i, DescriptorOf(cs[i]));
    FieldInList(e, h.OffsetStart(), Offsets(cs), i, Le32(Offset(cs, i)));
    TwoFields(e, h.DescStart() + 4 * i, cs[i].key, cs[i].cardMinusOne);
    Le32At(e, h.OffsetStart() + 4 * i, Offset(cs, i));
  }

  lemma TwoFields(e: Bytes, at: nat, x: u16, y: u16)
    requires at + 4 <= |e| && Starts(e, at, Le16(x) + Le16(y))
    ensures U16At(e, at) == x && U16At(e, at + 2) == y
  {
    StartsBoth(e, at, Le16(x), Le16(y));
    Le16At(e, at, x);
    Le16At(e, at + 2, y);
  }

  lemma AssembledBody(e: Bytes, cs: seq<Container>, i: nat)
    requires Storable(cs) && LaidOut(e, cs) && i < |cs|
    ensures Starts(e, Offset(cs, i), cs[i].body)
  {
    var all, before := Bodies(cs, |cs|), |Bodies(cs, i)|;
    BodyInBodies(cs, i, |cs|);
    forall k | 0 <= k < |cs[i].body|
      ensures e[Offset(cs, i) + k] == cs[i].body[k]
    {
      assert e[HeaderOf(cs).OffsetStart() + 4 * |cs| + (before + k)] == all[before + k];
    }
  }

  // ----- the containers of a set -----------------------------------------------------------------

  predicate Least(s: set<u16>, m: u16) { m in s && forall x :: x in s ==> m <= x }

  lemma {:induction false} LeastExists(s: set<u16>)
    requires s != {}
    ensures exists m :: Least(s, m)
  {
    var y :| y in s;
    if s != {y} {
      LeastExists(s - {y});
      var m :| Least(s - {y}, m);
      var least := if y < m then y else m;
      assert forall x :: x in s ==> x == y || x in s - {y};
      assert Least(s, least);
    } else {
      assert Least(s, y);
    }
  }

  function Minimum(s: set<u16>): (m: u16)
    requires s != {}
    ensures Least(s, m)
  {
    LeastExists(s);
    var m :| Least(s, m);
    m
  }

  /** The members of a set, least first. */
  function Ordered(s: set<u16>): seq<u16> {
    if s == {} then [] else [Minimum(s)] + Ordered(s - {Minimum(s)})
  }

  lemma {:induction false} OrderedIsExact(s: set<u16>)
    ensures forall x :: x in Ordered(s) <==> x in s
    ensures forall i, j :: 0 <= i < j < |Ordered(s)| ==> Ordered(s)[i] < Ordered(s)[j]
  {
    if s != {} {
      var m := Minimum(s);
      OrderedIsExact(s - {m});
      var rest := Ordered(s - {m});
      assert forall j :: 0 <= j < |rest| ==> rest[j] in rest;
      assert forall x :: x in Ordered(s) <==> x == m || x in rest;
    }
  }

  lemma {:induction false} AscendingIsShort(r: seq<u16>)
    requires forall i, j :: 0 <= i < j < |r| ==> r[i] < r[j]
    ensures r != [] ==> r[|r| - 1] >= |r| - 1
    ensures |r| <= 0x1_0000
  {
    if r != [] {
      AscendingIsShort(r[..|r| - 1]);
    }
  }

  function Value(hi: u16, lo: u16): u32 {
    var h: int, l: int := hi, lo;
    0x1_0000 * h + l
  }

  function High(v: u32): u16 { v / 0x1_0000 }

  function Low(v: u32): u16 { v % 0x1_0000 }

  /** The low halves stored under one key. */
  function Lows(s: set<u32>, hi: u16): seq<u16> { Ordered(set v | v in s && High(v) == hi :: Low(v)) }

  /** The keys that have something stored under them. */
  function Keys(s: set<u32>): seq<u16> { Ordered(set v | v in s :: High(v)) }

  function Pack(bits: seq<bool>): nat {
    if bits == [] then 0 else (if bits[0] then 1 else 0) + 2 * Pack(bits[1..])
  }

  lemma {:induction false} PackedBit(bits: seq<bool>, k: nat)
    requires k < |bits|
    ensures TestBit(Pack(bits), k) == bits[k]
    decreases k
  {
    assert Pack(bits) / 2 == Pack(bits[1..]);
    if k > 0 {
      PackedBit(bits[1..], k - 1);
    }
  }

  lemma {:induction false} PackIsBounded(bits: seq<bool>, bound: nat)
    requires bound == Power(|bits|)
    ensures Pack(bits) < bound
  {
    if bits != [] {
      PackIsBounded(bits[1..], Power(|bits| - 1));
    }
  }

  /** Eight bits as one byte. */
  function PackByte(bits: seq<bool>): u8
    requires |bits| == 8
  {
    WordSizes();
    PackIsBounded(bits, 256);
    Pack(bits)
  }

  /** Eight membership bits, lowest first. */
  function BitsAt(s: set<u32>, hi: u16, j: nat): (r: seq<bool>)
    requires j < BITMAP_BYTES
    ensures |r| == 8
  {
    seq(8, k requires 0 <= k < 8 => Value(hi, 8 * j + k) in s)
  }

  function ByteAt(s: set<u32>, hi: u16, j: nat): u8
    requires j < BITMAP_BYTES
  {
    PackByte(BitsAt(s, hi, j))
  }

  function ArrayBody(lows: seq<u16>): (r: Bytes)
    ensures |r| == 2 * |lows|
  {
    seq(2 * |lows|, i requires 0 <= i < 2 * |lows| => Le16(lows[i / 2])[i % 2])
  }

  function BitmapBody(s: set<u32>, hi: u16): (r: Bytes)
    ensures |r| == BITMAP_BYTES
  {
    seq(BITMAP_BYTES, j requires 0 <= j < BITMAP_BYTES => ByteAt(s, hi, j))
  }

  // Runs, as the writer may choose them.

  /** The values from `start` to `start + length`. */
  datatype Run = Run(start: u16, length: u16) {
    function Last(): int {
      var s: int, l: int := start, length;
      s + l
    }

    predicate Covers(lo: u16) { start <= lo <= Last() }
  }

  /** How many runs take no more room than a bitmap. */
  const MAX_RUNS := 2047

  lemma RunsThatFit(n: nat)
    ensures n <= MAX_RUNS <==> 2 + 4 * n <= 8192
  {
  }

  function RunField(r: Run): (b: Bytes)
    ensures |b| == 4
  {
    Le16(r.start) + Le16(r.length)
  }

  function RunFields(runs: seq<Run>): (r: Bytes)
    ensures |r| == 4 * |runs|
  {
    seq(4 * |runs|, i requires 0 <= i < 4 * |runs| => RunField(runs[i / 4])[i % 4])
  }

  function RunBody(runs: seq<Run>): (r: Bytes)
    requires |runs| <= MAX_RUNS
    ensures |r| == 2 + 4 * |runs|
  {
    Le16(|runs|) + RunFields(runs)
  }

  ghost predicate Covered(runs: seq<Run>, lo: u16) { exists j :: 0 <= j < |runs| && runs[j].Covers(lo) }

  /** Runs apart and in order that cover just what the set has under `hi`. */
  ghost predicate RunsOf(runs: seq<Run>, s: set<u32>, hi: u16) {
    && |runs| <= MAX_RUNS
    && (forall j :: 0 <= j < |runs| ==> runs[j].Last() <= 0xFFFF)
    && (forall i, j :: 0 <= i < j < |runs| ==> runs[i].Last() < runs[j].start)
    && forall lo: u16 :: Covered(runs, lo) <==> Value(hi, lo) in s
  }

  /** Any runs that are apart, in order and within a container stand for a set. */
  lemma RunsDefineSets(runs: seq<Run>, hi: u16)
    requires |runs| <= 2047 && forall j :: 0 <= j < |runs| ==> runs[j].start + runs[j].length <= 65535
    requires forall i, j :: 0 <= i < j < |runs| ==> runs[i].start + runs[i].length < runs[j].start
    ensures exists s :: RunsOf(runs, s, hi)
  {
    var s := set lo: u16 | 0 <= lo < 0x1_0000 && Covered(runs, lo) :: Value(hi, lo);
    forall lo: u16
      ensures Covered(runs, lo) <==> Value(hi, lo) in s
    {
      if Value(hi, lo) in s {
        var l: u16 :| Covered(runs, l) && Value(hi, l) == Value(hi, lo);
        assert l == lo;
      }
    }
    assert RunsOf(runs, s, hi);
  }

  /** A choice of keys to store as runs. */
  type Choice = map<u16, seq<Run>>

  ghost predicate Suits(runs: Choice, s: set<u32>) { forall hi :: hi in runs ==> RunsOf(runs[hi], s, hi) }

  predicate Short(runs: Choice) { forall hi | hi in runs :: |runs[hi]| <= MAX_RUNS }

  function ContainerOf(s: set<u32>, runs: Choice, hi: u16): (c: Container)
    requires Lows(s, hi) != [] && Short(runs)
    ensures |c.body| <= BITMAP_BYTES
  {
    var lows := Lows(s, hi);
    LowsAreExact(s, hi);
    var body := if hi in runs then RunBody(runs[hi])
                else if |lows| <= ARRAY_LIMIT then ArrayBody(lows)
                else BitmapBody(s, hi);
    Container(hi, |lows| - 1, hi in runs, body)
  }

  lemma LowsAreExact(s: set<u32>, hi: u16)
    ensures |Lows(s, hi)| <= 0x1_0000
    ensures forall lo: u16 :: lo in Lows(s, hi) <==> Value(hi, lo) in s
    ensures forall i, j :: 0 <= i < j < |Lows(s, hi)| ==> Lows(s, hi)[i] < Lows(s, hi)[j]
  {
    OrderedIsExact(set v | v in s && High(v) == hi :: Low(v));
    AscendingIsShort(Lows(s, hi));
    forall lo: u16
      ensures lo in Lows(s, hi) <==> Value(hi, lo) in s
    {
      assert High(Value(hi, lo)) == hi && Low(Value(hi, lo)) == lo;
      if lo in Lows(s, hi) {
        var v :| v in s && High(v) == hi && Low(v) == lo;
        assert v == Value(hi, lo);
      }
    }
  }

  lemma KeysAreExact(s: set<u32>)
    ensures |Keys(s)| <= 0x1_0000
    ensures forall hi: u16 :: hi in Keys(s) <==> Lows(s, hi) != []
    ensures forall i, j :: 0 <= i < j < |Keys(s)| ==> Keys(s)[i] < Keys(s)[j]
  {
    OrderedIsExact(set v | v in s :: High(v));
    AscendingIsShort(Keys(s));
    forall hi: u16
      ensures hi in Keys(s) <==> Lows(s, hi) != []
    {
      LowsAreExact(s, hi);
      if hi in Keys(s) {
        var v :| v in s && High(v) == hi;
        assert Value(hi, Low(v)) == v;
        assert Low(v) in Lows(s, hi);
      }
      if Lows(s, hi) != [] {
        assert Lows(s, hi)[0] in Lows(s, hi);
        assert High(Value(hi, Lows(s, hi)[0])) == hi;
      }
    }
  }

  function Containers(s: set<u32>, runs: Choice): (cs: seq<Container>)
    requires Short(runs)
    ensures Storable(cs)
  {
    KeysAreExact(s);
    var keys := Keys(s);
    seq(|keys|, i requires 0 <= i < |keys| => ContainerOf(s, runs, keys[i]))
  }

  /** The bytes of a set whose keys in `runs` are stored as runs. */
  function EncodeWith(s: set<u32>, runs: Choice): Bytes
    requires Short(runs)
  {
    Assemble(Containers(s, runs))
  }

  // ----- the encoding of a set -------------------------------------------------------------------

  lemma ArrayHolds(data: Bytes, at: nat, lows: seq<u16>, lo: u16)
    requires Starts(data, at, ArrayBody(lows))
    requires forall i, j :: 0 <= i < j < |lows| ==> lows[i] < lows[j]
    ensures SortedArray(data, at, |lows|)
    ensures InArray(data, at, |lows|, lo) <==> lo in lows
  {
    forall j | 0 <= j < |lows|
      ensures Entry(data, at, j) == lows[j]
    {
      assert data[at + 2 * j + 0] == ArrayBody(lows)[2 * j] == Le16(lows[j])[0];
      assert data[at + (2 * j + 1)] == ArrayBody(lows)[2 * j + 1] == Le16(lows[j])[1];
      Le16At(data, at + 2 * j, lows[j]);
    }
  }

  lemma BitmapHolds(data: Bytes, at: nat, s: set<u32>, hi: u16, lo: u16)
    requires Starts(data, at, BitmapBody(s, hi))
    ensures InBitmap(data, at, lo) <==> Value(hi, lo) in s
  {
    var j: nat, k: nat := lo / 8, lo % 8;
    assert data[at + j] == BitmapBody(s, hi)[j] == ByteAt(s, hi, j);
    PackedBit(BitsAt(s, hi, j), k);
    assert 8 * j + k == lo;
  }

  lemma RunFieldAt(data: Bytes, at: nat, runs: seq<Run>, j: nat)
    requires Starts(data, at, RunFields(runs)) && j < |runs|
    ensures at + 4 * j + 4 <= |data|
    ensures U16At(data, at + 4 * j) == runs[j].start && U16At(data, at + 4 * j + 2) == runs[j].length
  {
    forall k | 0 <= k < 4
      ensures RunFields(runs)[4 * j + k] == RunField(runs[j])[k]
    {
      assert (4 * j + k) / 4 == j && (4 * j + k) % 4 == k;
    }
    FieldInList(data, at, RunFields(runs), j, RunField(runs[j]));
    TwoFields(data, at + 4 * j, runs[j].start, runs[j].length);
  }

  lemma RunsHold(data: Bytes, at: nat, runs: seq<Run>, lo: u16)
    requires |runs| <= MAX_RUNS && Starts(data, at, RunBody(runs))
    requires forall j :: 0 <= j < |runs| ==> runs[j].Last() <= 0xFFFF
    requires forall i, j :: 0 <= i < j < |runs| ==> runs[i].Last() < runs[j].start
    ensures OrderedRuns(data, at) && !HasLongRun(data, at)
    ensures InRuns(data, at, lo) <==> Covered(runs, lo)
  {
    StartsBoth(data, at, Le16(|runs|), RunFields(runs));
    Le16At(data, at, |runs|);
    forall j | 0 <= j < |runs|
      ensures at + 2 + 4 * j + 4 <= |data|
      ensures RunStart(data, at, j) == runs[j].start && RunEnd(data, at, j) == runs[j].Last()
      ensures RunCovers(data, at, j, lo) <==> runs[j].Covers(lo)
    {
      RunFieldAt(data, at + 2, runs, j);
    }
  }

  /** Where the body of a container lies, its storage holds what the set does. */
  ghost predicate Stores(e: Bytes, at: nat, s: set<u32>, runs: Choice, hi: u16, lo: u16) {
    var card := |Lows(s, hi)|;
    if hi in runs then
      OrderedRuns(e, at) && !HasLongRun(e, at) && (InRuns(e, at, lo) <==> Value(hi, lo) in s)
    else if card <= ARRAY_LIMIT then
      SortedArray(e, at, card) && (InArray(e, at, card, lo) <==> Value(hi, lo) in s)
    else
      InBitmap(e, at, lo) <==> Value(hi, lo) in s
  }

  lemma BodyHolds(e: Bytes, at: nat, s: set<u32>, runs: Choice, hi: u16, lo: u16)
    requires Lows(s, hi) != [] && Short(runs) && Suits(runs, s) && Starts(e, at, ContainerOf(s, runs, hi).body)
    ensures Stores(e, at, s, runs, hi, lo)
  {
    LowsAreExact(s, hi);
    if hi in runs {
      assert RunsOf(runs[hi], s, hi);
      RunsHold(e, at, runs[hi], lo);
    } else if |Lows(s, hi)| <= ARRAY_LIMIT {
      ArrayHolds(e, at, Lows(s, hi), lo);
    } else {
      BitmapHolds(e, at, s, hi, lo);
    }
  }

  /** A container is judged by its runs, its array or its bitmap. */
  lemma JudgedContainer(e: Bytes, h: Header, i: nat, s: set<u32>, runs: Choice, hi: u16, lo: u16, at: nat)
    requires HeadersFit(e, h) && OffsetFits(e, h, i) && i < h.count
    requires CardOf(e, h, i) == |Lows(s, hi)| && BodyOf(e, h, i) == at && (IsRun(e, h, i) <==> hi in runs)
    requires Stores(e, at, s, runs, hi, lo)
    ensures SortedContainer(e, h, i) && (InContainer(e, h, i, lo) <==> Value(hi, lo) in s)
  {
  }

  lemma EncodedContainer(e: Bytes, s: set<u32>, runs: Choice, cs: seq<Container>, keys: seq<u16>, i: nat, lo: u16)
    requires Short(runs) && Suits(runs, s)
    requires cs == Containers(s, runs) && keys == Keys(s) && LaidOut(e, cs) && i < |keys|
    ensures var h := HeaderOf(cs);
      && i < h.count && HeadersFit(e, h) && KeyOf(e, h, i) == keys[i] && SortedContainer(e, h, i)
      && (InContainer(e, h, i, lo) <==> Value(keys[i], lo) in s)
  {
    var hi := keys[i];
    KeysAreExact(s);
    assert cs[i] == ContainerOf(s, runs, hi);
    AssembledDescriptor(e, cs, i);
    AssembledFlag(e, cs, i);
    AssembledBody(e, cs, i);
    BodyHolds(e, Offset(cs, i), s, runs, hi, lo);
    JudgedContainer(e, HeaderOf(cs), i, s, runs, hi, lo, Offset(cs, i));
  }

  /** What each container says about the low half of `v`, put together. */
  lemma HoldsByKey(e: Bytes, h: Header, keys: seq<u16>, s: set<u32>, v: u32)
    requires ReadHeader(e) == Some(h) && HeadersFit(e, h) && h.count == |keys| && keys == Keys(s)
    requires forall i :: 0 <= i < |keys| ==> KeyOf(e, h, i) == keys[i] && SortedContainer(e, h, i)
    requires forall i :: 0 <= i < |keys| ==> (InContainer(e, h, i, Low(v)) <==> Value(keys[i], Low(v)) in s)
    ensures Sorted(e) && (Holds(e, v) <==> v in s)
  {
    KeysAreExact(s);
    LowsAreExact(s, High(v));
    assert Value(High(v), Low(v)) == v;
    if v in s {
      assert Low(v) in Lows(s, High(v));
      assert High(v) in keys;
      var i :| 0 <= i < |keys| && keys[i] == High(v);
      assert KeyOf(e, h, i) == v / 0x1_0000 && InContainer(e, h, i, v % 0x1_0000);
    }
  }

  /** Whatever keys it stores as runs, the encoding is in the format's order, and holds a value exactly when the set
      does. */
  lemma EncodingIsFaithful(s: set<u32>, runs: Choice, v: u32)
    requires Short(runs) && Suits(runs, s)
    ensures Sorted(EncodeWith(s, runs))
    ensures Holds(EncodeWith(s, runs), v) <==> v in s
  {
    var e, cs, keys := EncodeWith(s, runs), Containers(s, runs), Keys(s);
    AssembledIsLaidOut(cs);
    AssembledHeader(e, cs);
    forall i | 0 <= i < |keys|
      ensures KeyOf(e, HeaderOf(cs), i) == keys[i] && SortedContainer(e, HeaderOf(cs), i)
      ensures InContainer(e, HeaderOf(cs), i, Low(v)) <==> Value(keys[i], Low(v)) in s
    {
      EncodedContainer(e, s, runs, cs, keys, i, Low(v));
    }
    HoldsByKey(e, HeaderOf(cs), keys, s, v);
  }
}
