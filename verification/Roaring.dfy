/** Membership tested directly on serialized bytes (RoaringFormatSpec, sections "Cookie
    header", "Descriptive header", "Offset header" and "Container storage"). */
module Roaring {
  import opened Bits
  import opened LittleEndian
  import opened Types

  const COOKIE_NO_RUNS := 12346
  const COOKIE_WITH_RUNS := 12347
  const ARRAY_LIMIT := 4096
  const BITMAP_BYTES := 8192

  // ----- the layout of a serialized set ------------------------------------------------

  datatype Header = Header(count: nat, hasRuns: bool, start: nat)
  {
    function RunBytes(): nat { if hasRuns then (count + 7) / 8 else 0 }
    function DescStart(): nat { start + RunBytes() }
    function OffsetStart(): nat { DescStart() + 4 * count }
  }

  function ReadHeader(data: Bytes): Option<Header> {
    if |data| < 4 then None
    else
      var cookie: int := U32At(data, 0);
      if cookie == COOKIE_NO_RUNS then
        if |data| < 8 then None else Some(Header(U32At(data, 4), false, 8))
      else if cookie % 0x1_0000 == COOKIE_WITH_RUNS then Some(Header(cookie / 0x1_0000 + 1, true, 4))
      else None
  }

  /** The descriptive header is inside the data. */
  predicate HeadersFit(data: Bytes, h: Header) { h.OffsetStart() <= |data| }

  /** The offset of container `i` is inside the data. */
  predicate OffsetFits(data: Bytes, h: Header, i: nat) { h.OffsetStart() + 4 * i + 4 <= |data| }

  function KeyOf(data: Bytes, h: Header, i: nat): u16
    requires HeadersFit(data, h) && i < h.count
  {
    U16At(data, h.DescStart() + 4 * i)
  }

  function CardOf(data: Bytes, h: Header, i: nat): nat
    requires HeadersFit(data, h) && i < h.count
  {
    U16At(data, h.DescStart() + 4 * i + 2) + 1
  }

  function BodyOf(data: Bytes, h: Header, i: nat): nat
    requires OffsetFits(data, h, i)
  {
    U32At(data, h.OffsetStart() + 4 * i)
  }

  predicate IsRun(data: Bytes, h: Header, i: nat)
    requires HeadersFit(data, h) && i < h.count
  {
    h.hasRuns && TestBit(data[h.start + i / 8], i % 8)
  }

  // Each kind of container holds a value when a plain scan of its storage would find it.

  function Entry(data: Bytes, at: nat, j: nat): u16
    requires at + 2 * j + 2 <= |data|
  {
    U16At(data, at + 2 * j)
  }

  ghost predicate InArray(data: Bytes, at: nat, card: nat, lo: u16) {
    at + 2 * card <= |data| && exists j :: 0 <= j < card && Entry(data, at, j) == lo
  }

  ghost predicate InBitmap(data: Bytes, at: nat, lo: u16) {
    at + BITMAP_BYTES <= |data| && TestBit(data[at + lo / 8], lo % 8)
  }

  function RunStart(data: Bytes, at: nat, j: nat): u16
    requires at + 2 + 4 * j + 4 <= |data|
  {
    U16At(data, at + 2 + 4 * j)
  }

  function RunEnd(data: Bytes, at: nat, j: nat): nat
    requires at + 2 + 4 * j + 4 <= |data|
  {
    var start: int, length: int := RunStart(data, at, j), U16At(data, at + 2 + 4 * j + 2);
    start + length
  }

  predicate RunCovers(data: Bytes, at: nat, j: nat, lo: u16)
    requires at + 2 + 4 * j + 4 <= |data|
  {
    RunStart(data, at, j) <= lo <= RunEnd(data, at, j)
  }

  ghost predicate InRuns(data: Bytes, at: nat, lo: u16) {
    at + 2 <= |data| &&
    var n := U16At(data, at);
    at + 2 + 4 * n <= |data| && exists j :: 0 <= j < n && RunCovers(data, at, j, lo)
  }

  /** Container `i` holds a value, if its storage starts at `at`. */
  ghost predicate StoredAt(data: Bytes, h: Header, i: nat, at: nat, lo: u16)
    requires HeadersFit(data, h) && i < h.count
  {
    var card := CardOf(data, h, i);
    if IsRun(data, h, i) then InRuns(data, at, lo)
    else if card <= ARRAY_LIMIT then InArray(data, at, card, lo)
    else InBitmap(data, at, lo)
  }

  ghost predicate InContainer(data: Bytes, h: Header, i: nat, lo: u16)
    requires HeadersFit(data, h) && i < h.count
  {
    OffsetFits(data, h, i) && StoredAt(data, h, i, BodyOf(data, h, i), lo)
  }

  /** Some container stored under the high half holds the low half. */
  ghost predicate Holds(data: Bytes, value: u32) {
    ReadHeader(data).Some? &&
    var h := ReadHeader(data).value;
    HeadersFit(data, h) &&
    exists i :: 0 <= i < h.count && KeyOf(data, h, i) == value / 0x1_0000 && InContainer(data, h, i, value % 0x1_0000)
  }

  // ----- the same by the letter of the format ------------------------------------------------

  /** The format stores offsets unless there are runs and fewer than four containers. */
  predicate HasOffsets(h: Header) { !h.hasRuns || h.count >= 4 }

  /** The bytes container `i` takes if it starts at `at`. */
  function SizeAt(data: Bytes, h: Header, i: nat, at: nat): Option<nat>
    requires HeadersFit(data, h) && i < h.count
  {
    if IsRun(data, h, i) then
      if at + 2 <= |data| then Some(2 + 4 * U16At(data, at)) else None
    else if CardOf(data, h, i) <= ARRAY_LIMIT then Some(2 * CardOf(data, h, i))
    else Some(BITMAP_BYTES)
  }

  /** Without offsets the containers follow the descriptors one after the other. */
  function Sequential(data: Bytes, h: Header, i: nat): Option<nat>
    requires HeadersFit(data, h) && i < h.count
  {
    if i == 0 then Some(h.OffsetStart())
    else
      match Sequential(data, h, i - 1)
      case None => None
      case Some(at) =>
        match SizeAt(data, h, i - 1, at)
        case None => None
        case Some(size) => Some(at + size)
  }

  function FormatBody(data: Bytes, h: Header, i: nat): Option<nat>
    requires HeadersFit(data, h) && i < h.count
  {
    if !HasOffsets(h) then Sequential(data, h, i)
    else if OffsetFits(data, h, i) then Some(BodyOf(data, h, i))
    else None
  }

  ghost predicate InFormatContainer(data: Bytes, h: Header, i: nat, lo: u16)
    requires HeadersFit(data, h) && i < h.count
  {
    var body := FormatBody(data, h, i);
    body.Some? && StoredAt(data, h, i, body.value, lo)
  }

  /** The value is in the set that the bytes stand for by the format. */
  ghost predicate FormatHolds(data: Bytes, value: u32) {
    ReadHeader(data).Some? &&
    var h := ReadHeader(data).value;
    HeadersFit(data, h) &&
    exists i ::
      0 <= i < h.count && KeyOf(data, h, i) == value / 0x1_0000 && InFormatContainer(data, h, i, value % 0x1_0000)
  }

  /** Where the format stores offsets, looking through them is reading the format. */
  lemma OffsetsReadTheFormat(data: Bytes, value: u32)
    requires ReadHeader(data).Some? ==> HasOffsets(ReadHeader(data).value)
    ensures FormatHolds(data, value) <==> Holds(data, value)
  {
    if ReadHeader(data).Some? && HeadersFit(data, ReadHeader(data).value) {
      var h := ReadHeader(data).value;
      forall i | 0 <= i < h.count
        ensures InFormatContainer(data, h, i, value % 0x1_0000) <==> InContainer(data, h, i, value % 0x1_0000)
      {
      }
    }
  }

  // ----- order inside the data -----------------------------------------------------------

  ghost predicate SortedKeys(data: Bytes, h: Header)
    requires HeadersFit(data, h)
  {
    forall i, j :: 0 <= i < j < h.count ==> KeyOf(data, h, i) < KeyOf(data, h, j)
  }

  ghost predicate SortedArray(data: Bytes, at: nat, card: nat) {
    at + 2 * card <= |data| ==>
      forall i, j :: 0 <= i < j < card ==> Entry(data, at, i) < Entry(data, at, j)
  }

  /** Runs are apart and in order. */
  ghost predicate OrderedRuns(data: Bytes, at: nat) {
    at + 2 <= |data| ==>
      var n := U16At(data, at);
      at + 2 + 4 * n <= |data| ==>
        forall i, j :: 0 <= i < j < n ==> RunEnd(data, at, i) < RunStart(data, at, j)
  }

  /** The last run starts at or before the value and passes 65535, which the format forbids. */
  ghost predicate InLongRun(data: Bytes, at: nat, lo: u16) {
    at + 2 <= |data| &&
    var n: int := U16At(data, at);
    0 < n && at + 2 + 4 * n <= |data| && RunStart(data, at, n - 1) <= lo && RunEnd(data, at, n - 1) > 0xFFFF
  }

  ghost predicate HasLongRun(data: Bytes, at: nat) { InLongRun(data, at, 0xFFFF) }

  /** Container `i` is in order, its runs as far as they go. */
  ghost predicate OrderedContainer(data: Bytes, h: Header, i: nat)
    requires HeadersFit(data, h) && i < h.count
  {
    OffsetFits(data, h, i) ==>
      var at, card := BodyOf(data, h, i), CardOf(data, h, i);
      if IsRun(data, h, i) then OrderedRuns(data, at)
      else card <= ARRAY_LIMIT ==> SortedArray(data, at, card)
  }

  /** Container `i` is in order and no run of it passes 65535. */
  ghost predicate SortedContainer(data: Bytes, h: Header, i: nat)
    requires HeadersFit(data, h) && i < h.count
  {
    OrderedContainer(data, h, i) &&
    (OffsetFits(data, h, i) && IsRun(data, h, i) ==> !HasLongRun(data, BodyOf(data, h, i)))
  }

  /** Keys, arrays and runs are in order, though a run may be too long. */
  ghost predicate InOrder(data: Bytes) {
    ReadHeader(data).Some? &&
    var h := ReadHeader(data).value;
    HeadersFit(data, h) && SortedKeys(data, h) && forall i :: 0 <= i < h.count ==> OrderedContainer(data, h, i)
  }

  /** The value lies in a run of its container that is too long. */
  ghost predicate Overrun(data: Bytes, value: u32) {
    ReadHeader(data).Some? &&
    var h := ReadHeader(data).value;
    HeadersFit(data, h) &&
    exists i ::
      0 <= i < h.count && KeyOf(data, h, i) == value / 0x1_0000 && OffsetFits(data, h, i) && IsRun(data, h, i) &&
      InLongRun(data, BodyOf(data, h, i), value % 0x1_0000)
  }

  /** Keys, arrays and runs are stored in the order the format asks for. */
  ghost predicate Sorted(data: Bytes) {
    ReadHeader(data).Some? &&
    var h := ReadHeader(data).value;
    HeadersFit(data, h) && SortedKeys(data, h) && forall i :: 0 <= i < h.count ==> SortedContainer(data, h, i)
  }

  /** In the format's order no run is too long. */
  lemma SortedIsOrdered(data: Bytes, value: u32)
    requires Sorted(data)
    ensures InOrder(data) && !Overrun(data, value)
  {
    var h := ReadHeader(data).value;
    forall i | 0 <= i < h.count
      ensures OrderedContainer(data, h, i)
      ensures OffsetFits(data, h, i) && IsRun(data, h, i) ==>
        !InLongRun(data, BodyOf(data, h, i), value % 0x1_0000)
    {
      assert SortedContainer(data, h, i);
    }
  }

  /** When keys are in order, the container that has the right key is the only one that may hold a value. */
  lemma OnlyContainer(data: Bytes, h: Header, i: nat, value: u32)
    requires ReadHeader(data) == Some(h) && HeadersFit(data, h) && SortedKeys(data, h)
    requires i < h.count && KeyOf(data, h, i) == value / 0x1_0000
    ensures Holds(data, value) <==> InContainer(data, h, i, value % 0x1_0000)
    ensures Overrun(data, value) <==>
      OffsetFits(data, h, i) && IsRun(data, h, i) && InLongRun(data, BodyOf(data, h, i), value % 0x1_0000)
  {
    assert forall j :: 0 <= j < h.count && j != i ==> KeyOf(data, h, j) != KeyOf(data, h, i);
  }
}
