/** A serialized set byte by byte, every number of the format written out (RoaringFormatSpec, sections "Cookie header",
    "Descriptive header", "Offset header" and "Container storage"). The reader's own functions do not appear in what is
    defined here; the lemmas say that the two agree. */
module Bytewise {
  import opened Bits
  import opened LittleEndian
  import opened Types
  import opened Roaring

  /** Two bytes as a number, the lower one first. */
  function Two(data: Bytes, at: nat): nat
    requires at + 2 <= |data|
  {
    var low: int, high: int := data[at], data[at + 1];
    low + 256 * high
  }

  function Four(data: Bytes, at: nat): nat
    requires at + 4 <= |data|
  {
    Two(data, at) + 65536 * Two(data, at + 2)
  }

  predicate BitOf(b: u8, k: nat)
    requires k < 8
  {
    b / [1, 2, 4, 8, 16, 32, 64, 128][k] % 2 == 1
  }

  predicate WithoutRuns(data: Bytes) {
    |data| >= 8 && data[0] == 0x3A && data[1] == 0x30 && data[2] == 0 && data[3] == 0
  }

  predicate WithRuns(data: Bytes) { |data| >= 4 && data[0] == 0x3B && data[1] == 0x30 }

  /** The number of containers. */
  function Count(data: Bytes): nat
    requires WithoutRuns(data) || WithRuns(data)
  {
    if WithoutRuns(data) then Four(data, 4) else Two(data, 2) + 1
  }

  /** Where the keys and cardinalities begin: behind the count, or behind one flag for every container. */
  function Table(data: Bytes): nat
    requires WithoutRuns(data) || WithRuns(data)
  {
    if WithoutRuns(data) then 8 else 4 + (Count(data) + 7) / 8
  }

  predicate Readable(data: Bytes) {
    (WithoutRuns(data) || WithRuns(data)) && Table(data) + 4 * Count(data) <= |data|
  }

  function KeyAt(data: Bytes, i: nat): nat
    requires Readable(data) && i < Count(data)
  {
    Two(data, Table(data) + 4 * i)
  }

  function CardAt(data: Bytes, i: nat): nat
    requires Readable(data) && i < Count(data)
  {
    Two(data, Table(data) + 4 * i + 2) + 1
  }

  predicate RunAt(data: Bytes, i: nat)
    requires Readable(data) && i < Count(data)
  {
    WithRuns(data) && BitOf(data[4 + i / 8], i % 8)
  }

  /** Behind the keys comes the place of every container. */
  predicate Placed(data: Bytes, i: nat)
    requires Readable(data) && i < Count(data)
  {
    Table(data) + 4 * Count(data) + 4 * i + 4 <= |data|
  }

  function PlaceAt(data: Bytes, i: nat): nat
    requires Readable(data) && i < Count(data) && Placed(data, i)
  {
    Four(data, Table(data) + 4 * Count(data) + 4 * i)
  }

  // Up to 4096 values take two bytes each, more of them one bit for each of the 65536 there may be; a run is its first
  // value and how many follow.

  function ItemAt(data: Bytes, at: nat, j: nat): nat
    requires at + 2 * j + 2 <= |data|
  {
    Two(data, at + 2 * j)
  }

  function FirstAt(data: Bytes, at: nat, j: nat): nat
    requires at + 2 + 4 * j + 4 <= |data|
  {
    Two(data, at + 2 + 4 * j)
  }

  function LastAt(data: Bytes, at: nat, j: nat): nat
    requires at + 2 + 4 * j + 4 <= |data|
  {
    Two(data, at + 2 + 4 * j) + Two(data, at + 4 + 4 * j)
  }

  predicate RunsFit(data: Bytes, at: nat) { at + 2 <= |data| && at + 2 + 4 * Two(data, at) <= |data| }

  ghost predicate AmongItems(data: Bytes, at: nat, card: nat, lo: nat) {
    at + 2 * card <= |data| && exists j :: 0 <= j < card && ItemAt(data, at, j) == lo
  }

  ghost predicate AmongRuns(data: Bytes, at: nat, lo: nat) {
    RunsFit(data, at) && exists j :: 0 <= j < Two(data, at) && FirstAt(data, at, j) <= lo <= LastAt(data, at, j)
  }

  ghost predicate Stored(data: Bytes, i: nat, lo: nat)
    requires Readable(data) && i < Count(data) && lo < 65536
  {
    Placed(data, i) &&
    var at := PlaceAt(data, i);
    if RunAt(data, i) then AmongRuns(data, at, lo)
    else if CardAt(data, i) <= 4096 then AmongItems(data, at, CardAt(data, i), lo)
    else at + 8192 <= |data| && BitOf(data[at + lo / 8], lo % 8)
  }

  /** The bytes stand for a set that has the value. */
  ghost predicate Contains(data: Bytes, value: u32) {
    Readable(data) &&
    exists i :: 0 <= i < Count(data) && KeyAt(data, i) == value / 65536 && Stored(data, i, value % 65536)
  }

  ghost predicate KeysAscend(data: Bytes)
    requires Readable(data)
  {
    forall i, j :: 0 <= i < j < Count(data) ==> KeyAt(data, i) < KeyAt(data, j)
  }

  ghost predicate ItemsAscend(data: Bytes, at: nat, card: nat) {
    at + 2 * card <= |data| ==> forall j, k :: 0 <= j < k < card ==> ItemAt(data, at, j) < ItemAt(data, at, k)
  }

  ghost predicate RunsAscend(data: Bytes, at: nat) {
    RunsFit(data, at) ==>
      (forall j, k :: 0 <= j < k < Two(data, at) ==> LastAt(data, at, j) < FirstAt(data, at, k)) &&
      (forall j :: 0 <= j < Two(data, at) ==> LastAt(data, at, j) <= 65535)
  }

  ghost predicate ContainerAscends(data: Bytes, i: nat)
    requires Readable(data) && i < Count(data)
  {
    Placed(data, i) ==>
      if RunAt(data, i) then RunsAscend(data, PlaceAt(data, i))
      else CardAt(data, i) <= 4096 ==> ItemsAscend(data, PlaceAt(data, i), CardAt(data, i))
  }

  /** Keys, values and runs ascend, and no run passes 65535. */
  ghost predicate Ascends(data: Bytes) {
    Readable(data) && KeysAscend(data) && forall i :: 0 <= i < Count(data) ==> ContainerAscends(data, i)
  }

  // ----- the reader agrees -------------------------------------------------------------------

  lemma FieldsAgree(data: Bytes)
    ensures forall at: nat :: at + 2 <= |data| ==> U16At(data, at) == Two(data, at)
    ensures forall at: nat :: at + 4 <= |data| ==> U32At(data, at) == Four(data, at)
  {
  }

  lemma {:induction false} BitsAgree(b: u8, k: nat)
    requires k < 8
    ensures TestBit(b, k) <==> BitOf(b, k)
  {
    if k > 0 {
      BitsAgree(b / 2, k - 1);
    }
  }

  /** The cookies are recognised by their bytes. */
  lemma HeadersAgree(data: Bytes)
    ensures ReadHeader(data) ==
      if WithoutRuns(data) then Some(Header(Count(data), false, 8))
      else if WithRuns(data) then Some(Header(Count(data), true, 4))
      else None
  {
    FieldsAgree(data);
  }

  lemma TablesAgree(data: Bytes, h: Header)
    requires ReadHeader(data) == Some(h)
    ensures WithoutRuns(data) || WithRuns(data)
    ensures h.count == Count(data) && h.DescStart() == Table(data) && (h.hasRuns <==> WithRuns(data))
    ensures h.hasRuns ==> h.start == 4
    ensures HeadersFit(data, h) <==> Readable(data)
  {
    HeadersAgree(data);
  }

  lemma EntriesAgree(data: Bytes, h: Header, i: nat)
    requires ReadHeader(data) == Some(h) && HeadersFit(data, h) && i < h.count
    ensures Readable(data) && i < Count(data)
    ensures KeyOf(data, h, i) == KeyAt(data, i) && CardOf(data, h, i) == CardAt(data, i)
    ensures (IsRun(data, h, i) <==> RunAt(data, i)) && (OffsetFits(data, h, i) <==> Placed(data, i))
    ensures Placed(data, i) ==> BodyOf(data, h, i) == PlaceAt(data, i)
  {
    hide ReadHeader, U16At, U32At, Two, Four;
    TablesAgree(data, h);
    FieldsAgree(data);
    if h.hasRuns {
      BitsAgree(data[4 + i / 8], i % 8);
    }
  }

  lemma ItemsAgree(data: Bytes, at: nat, card: nat, lo: u16)
    ensures InArray(data, at, card, lo) <==> AmongItems(data, at, card, lo)
    ensures SortedArray(data, at, card) <==> ItemsAscend(data, at, card)
  {
    FieldsAgree(data);
    assert forall j: nat :: at + 2 * j + 2 <= |data| ==> Entry(data, at, j) == ItemAt(data, at, j);
  }

  lemma RunsAgree(data: Bytes, at: nat, lo: u16)
    ensures InRuns(data, at, lo) <==> AmongRuns(data, at, lo)
    ensures OrderedRuns(data, at) && !HasLongRun(data, at) <==> RunsAscend(data, at)
  {
    FieldsAgree(data);
    assert forall j: nat :: at + 2 + 4 * j + 4 <= |data| ==>
      RunStart(data, at, j) == FirstAt(data, at, j) && RunEnd(data, at, j) == LastAt(data, at, j);
    assert forall j: nat :: at + 2 + 4 * j + 4 <= |data| ==>
      (RunCovers(data, at, j, lo) <==> FirstAt(data, at, j) <= lo <= LastAt(data, at, j));
    if RunsFit(data, at) && OrderedRuns(data, at) {
      var n: int := Two(data, at);
      assert forall j :: 0 <= j < n - 1 ==> LastAt(data, at, j) < FirstAt(data, at, n - 1);
    }
  }

  lemma ContainersAgree(data: Bytes, h: Header, i: nat, lo: u16)
    requires ReadHeader(data) == Some(h) && HeadersFit(data, h) && i < h.count
    ensures Readable(data) && i < Count(data)
    ensures InContainer(data, h, i, lo) <==> Stored(data, i, lo)
    ensures SortedContainer(data, h, i) <==> ContainerAscends(data, i)
  {
    EntriesAgree(data, h, i);
    hide ReadHeader, Table, KeyOf, KeyAt, CardOf, CardAt, IsRun, RunAt, OffsetFits, Placed, BodyOf, PlaceAt, TestBit;
    hide InArray, AmongItems, SortedArray, ItemsAscend, InRuns, AmongRuns, OrderedRuns, HasLongRun, RunsAscend, BitOf;
    if Placed(data, i) {
      var at := PlaceAt(data, i);
      RunsAgree(data, at, lo);
      ItemsAgree(data, at, CardAt(data, i), lo);
      if at + 8192 <= |data| {
        BitsAgree(data[at + lo / 8], lo % 8);
      }
    }
  }

  /** What the reader takes for the set is what the bytes stand for, and what it takes for order is order. */
  lemma ReaderAgrees(data: Bytes, value: u32)
    ensures Holds(data, value) <==> Contains(data, value)
    ensures Sorted(data) <==> Ascends(data)
  {
    hide InContainer, Stored, SortedContainer, ContainerAscends, KeyOf, KeyAt;
    HeadersAgree(data);
    if ReadHeader(data).Some? {
      var h := ReadHeader(data).value;
      TablesAgree(data, h);
      if HeadersFit(data, h) {
        forall i | 0 <= i < h.count
          ensures KeyOf(data, h, i) == KeyAt(data, i)
          ensures InContainer(data, h, i, value % 0x1_0000) <==> Stored(data, i, value % 65536)
          ensures SortedContainer(data, h, i) <==> ContainerAscends(data, i)
        {
          EntriesAgree(data, h, i);
          ContainersAgree(data, h, i, value % 0x1_0000);
        }
      }
    }
  }

  // ----- where the format stores no places -----------------------------------------------------

  /** Places are stored unless there are runs and fewer than four containers. */
  predicate PlacesAreStored(data: Bytes)
    requires WithoutRuns(data) || WithRuns(data)
  {
    WithoutRuns(data) || Count(data) >= 4
  }

  /** The bytes a container takes. */
  function SizeOf(data: Bytes, i: nat, at: nat): nat
    requires Readable(data) && i < Count(data) && at + 2 <= |data|
  {
    if RunAt(data, i) then 2 + 4 * Two(data, at)
    else if CardAt(data, i) <= 4096 then 2 * CardAt(data, i)
    else 8192
  }

  /** Without places the first container comes right behind the keys, and each of the others behind the one before. */
  lemma ContainersFollow(data: Bytes, h: Header, i: nat)
    requires ReadHeader(data) == Some(h) && HeadersFit(data, h) && i < h.count
    ensures Readable(data) && i < Count(data) && (HasOffsets(h) <==> PlacesAreStored(data))
    ensures !PlacesAreStored(data) ==> FormatBody(data, h, 0) == Some(Table(data) + 4 * Count(data))
    ensures !PlacesAreStored(data) && i + 1 < Count(data) && FormatBody(data, h, i).Some? ==>
      var at := FormatBody(data, h, i).value;
      at + 2 <= |data| ==> FormatBody(data, h, i + 1) == Some(at + SizeOf(data, i, at))
  {
    EntriesAgree(data, h, i);
    TablesAgree(data, h);
    FieldsAgree(data);
  }
}
