/** The bytes of catalog records: periods, lists of ids, part records. Texts are byte strings;
    whether bytes are valid UTF-8 is decided by a function the caller supplies. */
module Codec {
  import opened LittleEndian
  import opened Types

  // ----- periods ---------------------------------------------------------------------------

  function PeriodBytes(p: Period): (r: Bytes)
    ensures 1 <= |r| <= 6
  {
    match p
    case Static => [0]
    case Hour(y, m, d, h) => [1] + Le16(y) + [m, d, h]
    case Day(y, m, d) => [2] + Le16(y) + [m, d]
    case Month(y, m) => [3] + Le16(y) + [m]
    case Year(y) => [4] + Le16(y)
  }

  /** A tag, then the fields from the year down; the year takes two bytes, the lower one first. */
  lemma PeriodByByte(p: Period)
    ensures PeriodBytes(p) ==
      match p
      case Static => [0]
      case Hour(y, m, d, h) => [1, y % 256, y / 256, m, d, h]
      case Day(y, m, d) => [2, y % 256, y / 256, m, d]
      case Month(y, m) => [3, y % 256, y / 256, m]
      case Year(y) => [4, y % 256, y / 256]
  {
  }

  /** The period at an offset, and how many bytes it takes. */
  function ReadPeriod(data: Bytes, at: nat): Result<(Period, nat)> {
    if at >= |data| then Err(CatalogCorrupted)
    else
      match data[at]
      case 0 => Ok((Static, 1))
      case 1 =>
        if |data| < at + 1 + 5 then Err(CatalogCorrupted)
        else Ok((Hour(U16At(data, at + 1), data[at + 3], data[at + 4], data[at + 5]), 6))
      case 2 =>
        if |data| < at + 1 + 4 then Err(CatalogCorrupted)
        else Ok((Day(U16At(data, at + 1), data[at + 3], data[at + 4]), 5))
      case 3 =>
        if |data| < at + 1 + 3 then Err(CatalogCorrupted) else Ok((Month(U16At(data, at + 1), data[at + 3]), 4))
      case 4 =>
        if |data| < at + 1 + 2 then Err(CatalogCorrupted) else Ok((Year(U16At(data, at + 1)), 3))
      case _ => Err(CatalogCorrupted)
  }

  lemma OneByte(data: Bytes, at: nat, b: u8)
    ensures Starts(data, at, [b]) <==> at < |data| && data[at] == b
  {
    assert Starts(data, at, [b]) ==> data[at + 0] == [b][0];
  }

  lemma TaggedYear(data: Bytes, at: nat, tag: u8, y: u16, rest: Bytes)
    ensures Starts(data, at, [tag] + Le16(y) + rest) <==>
      at + 3 <= |data| && data[at] == tag && U16At(data, at + 1) == y && Starts(data, at + 3, rest)
  {
    StartsBoth(data, at, [tag] + Le16(y), rest);
    StartsBoth(data, at, [tag], Le16(y));
    OneByte(data, at, tag);
    if at + 3 <= |data| {
      Le16At(data, at + 1, y);
    }
  }

  lemma FewBytes(data: Bytes, at: nat, rest: Bytes)
    requires |rest| <= 3
    ensures Starts(data, at, rest) <==>
      at + |rest| <= |data| && (|rest| > 0 ==> data[at] == rest[0]) &&
      (|rest| > 1 ==> data[at + 1] == rest[1]) && (|rest| > 2 ==> data[at + 2] == rest[2])
  {
  }

  /** Reading at any offset gives a period exactly when its bytes are there. */
  lemma ReadPeriodIsExact(data: Bytes, at: nat, p: Period, n: nat)
    ensures ReadPeriod(data, at) == Ok((p, n)) <==> Starts(data, at, PeriodBytes(p)) && n == |PeriodBytes(p)|
  {
    hide Starts, Le16, U16At;
    match p {
      case Static => OneByte(data, at, 0);
      case Hour(y, m, d, h) =>
        TaggedYear(data, at, 1, y, [m, d, h]);
        FewBytes(data, at + 3, [m, d, h]);
      case Day(y, m, d) =>
        TaggedYear(data, at, 2, y, [m, d]);
        FewBytes(data, at + 3, [m, d]);
      case Month(y, m) =>
        TaggedYear(data, at, 3, y, [m]);
        FewBytes(data, at + 3, [m]);
      case Year(y) =>
        TaggedYear(data, at, 4, y, []);
        assert [4] + Le16(y) + [] == [4] + Le16(y);
        FewBytes(data, at + 3, []);
    }
  }

  // ----- lists of ids ------------------------------------------------------------------------

  function IdsBytes(ids: seq<u64>): (r: Bytes)
    ensures |r| == 1 + 8 * |ids|
  {
    if ids == [] then [1] else IdsBytes(ids[..|ids| - 1]) + Le64(ids[|ids| - 1])
  }

  lemma {:induction false} IdsAreUnique(a: seq<u64>, b: seq<u64>)
    requires IdsBytes(a) == IdsBytes(b)
    ensures a == b
  {
    if a != [] {
      var n := |a| - 1;
      var data, x, y := IdsBytes(a), IdsBytes(a[..n]), IdsBytes(b[..n]);
      assert data == x + Le64(a[n]) == y + Le64(b[n]);
      assert data[..|x|] == x && data[..|x|] == y && data[|x|..] == Le64(a[n]) && data[|x|..] == Le64(b[n]);
      IdsAreUnique(a[..n], b[..n]);
      Le64At(Le64(a[n]), 0, a[n]);
      Le64At(Le64(a[n]), 0, b[n]);
      assert a == a[..n] + [a[n]] && b == b[..n] + [b[n]];
    }
  }

  lemma {:induction false} IdAt(ids: seq<u64>, i: nat)
    requires i < |ids|
    ensures U64At(IdsBytes(ids), 1 + 8 * i) == ids[i]
  {
    hide U64At, Le64;
    var n := |ids| - 1;
    if i == n {
      assert Starts(IdsBytes(ids), 1 + 8 * n, Le64(ids[n]));
      Le64At(IdsBytes(ids), 1 + 8 * n, ids[n]);
    } else {
      IdAt(ids[..n], i);
      SameNumber(IdsBytes(ids[..n]), IdsBytes(ids), 1 + 8 * i);
    }
  }

  /** The version, then each id in eight bytes, the lowest first. */
  lemma IdsByByte(ids: seq<u64>, i: nat)
    requires i < |ids|
    ensures IdsBytes(ids)[0] == 1 && Digits(IdsBytes(ids), 1 + 8 * i, 8) == ids[i]
  {
    hide U64At;
    FirstByteIsVersion(ids);
    IdAt(ids, i);
    NumbersByByte(IdsBytes(ids), 1 + 8 * i);
  }

  lemma SameNumber(a: Bytes, b: Bytes, at: nat)
    requires at + 8 <= |a| <= |b| && b[..|a|] == a
    ensures U64At(b, at) == U64At(a, at)
  {
    forall j | at <= j < at + 8
      ensures b[j] == a[j]
    {
      assert b[..|a|][j] == a[j];
    }
  }

  method SerializeIds(ids: seq<u64>) returns (buf: Bytes)
    ensures buf == IdsBytes(ids)
  {
    buf := [1];
    for i := 0 to |ids|
      invariant buf == IdsBytes(ids[..i])
    {
      buf := buf + Le64(ids[i]);
      assert ids[..i + 1][..i] == ids[..i];
    }
    assert ids[..|ids|] == ids;
  }

  /** Undoes `SerializeIds` and accepts nothing else. */
  method DeserializeIds(data: Bytes) returns (r: Result<seq<u64>>)
    ensures forall ids :: r == Ok(ids) <==> data == IdsBytes(ids)
    ensures r.Err? <==> data == [] || data[0] != 1 || (|data| - 1) % 8 != 0
    ensures r.Err? ==> r.error == CatalogCorrupted
  {
    hide Le64, U64At;
    if data == [] || data[0] != 1 || (|data| - 1) % 8 != 0 {
      OnlyLists(data);
      return Err(CatalogCorrupted);
    }
    var out: seq<u64> := [];
    var n := (|data| - 1) / 8;
    for i := 0 to n
      invariant |out| == i && data[..1 + 8 * i] == IdsBytes(out)
    {
      var id := U64At(data, 1 + 8 * i);
      Le64At(data, 1 + 8 * i, id);
      assert data[..1 + 8 * (i + 1)] == data[..1 + 8 * i] + Le64(id);
      assert (out + [id])[..i] == out;
      out := out + [id];
    }
    assert data[..1 + 8 * n] == data;
    r := Ok(out);
    forall ids | data == IdsBytes(ids)
      ensures ids == out
    {
      IdsAreUnique(ids, out);
    }
  }

  lemma {:induction false} FirstByteIsVersion(ids: seq<u64>)
    ensures IdsBytes(ids)[0] == 1
  {
    if ids != [] {
      FirstByteIsVersion(ids[..|ids| - 1]);
    }
  }

  lemma OnlyLists(data: Bytes)
    ensures (exists ids :: data == IdsBytes(ids)) ==> data != [] && data[0] == 1 && (|data| - 1) % 8 == 0
  {
    if ids :| data == IdsBytes(ids) {
      FirstByteIsVersion(ids);
    }
  }

  // ----- texts with a 16-bit length -------------------------------------------------------------

  const MAX_TEXT := 0xFFFF

  function Text(s: Bytes): (r: Bytes)
    requires |s| <= MAX_TEXT
    ensures |r| == 2 + |s|
  {
    Le16(|s|) + s
  }

  /** The text at an offset, and how many bytes it takes with its length. */
  function ReadText(data: Bytes, at: nat): Result<(Bytes, nat)> {
    if |data| < at + 2 then Err(CatalogCorrupted)
    else
      var len: int := U16At(data, at);
      if |data| < at + 2 + len then Err(CatalogCorrupted) else Ok((data[at + 2..at + 2 + len], 2 + len))
  }

  lemma ReadTextIsExact(data: Bytes, at: nat, s: Bytes, n: nat)
    ensures ReadText(data, at) == Ok((s, n)) <==> |s| <= MAX_TEXT && Starts(data, at, Text(s)) && n == 2 + |s|
  {
    if |s| <= MAX_TEXT && at + 2 + |s| <= |data| {
      StartsBoth(data, at, Le16(|s|), s);
      Le16At(data, at, |s|);
      assert Starts(data, at + 2, s) <==> data[at + 2..at + 2 + |s|] == s by {
        if Starts(data, at + 2, s) {
          assert forall k :: 0 <= k < |s| ==> data[at + 2..at + 2 + |s|][k] == data[(at + 2) + k] == s[k];
        }
      }
    }
  }

  // ----- part records ---------------------------------------------------------------------------------

  datatype PartRecord = PartRecord(
    partId: u64, kind: PartKind, sizeBytes: u64, cardinality: u64, createdAt: u64, level: u8,
    period: Period, event: Bytes, path: Bytes)

  predicate Fits(p: PartRecord) { |p.event| <= MAX_TEXT && |p.path| <= MAX_TEXT }

  function KindByte(k: PartKind): u8 { if k == Data then 0 else 1 }

  /** The fixed part of a record. */
  function Head(p: PartRecord): (r: Bytes)
    ensures |r| == 35
  {
    [1] + (Le64(p.partId) + ([KindByte(p.kind)] +
      (Le64(p.sizeBytes) + (Le64(p.cardinality) + (Le64(p.createdAt) + [p.level])))))
  }

  function Layout(p: PartRecord): (r: Bytes)
    requires Fits(p)
    ensures |r| >= 40
  {
    Head(p) + (PeriodBytes(p.period) + (Text(p.event) + Text(p.path)))
  }

  predicate HeadIs(data: Bytes, p: PartRecord)
    requires |data| >= 35
  {
    && data[0] == 1 && U64At(data, 1) == p.partId && data[9] == KindByte(p.kind)
    && U64At(data, 10) == p.sizeBytes && U64At(data, 18) == p.cardinality && U64At(data, 26) == p.createdAt
    && data[34] == p.level
  }

  lemma HeadIsExact(data: Bytes, p: PartRecord)
    requires |data| >= 35
    ensures Starts(data, 0, Head(p)) <==> HeadIs(data, p)
  {
    hide Starts, Le64, U64At;
    var f := Le64(p.createdAt) + [p.level];
    var e := Le64(p.cardinality) + f;
    var d := Le64(p.sizeBytes) + e;
    var c := [KindByte(p.kind)] + d;
    StartsBoth(data, 0, [1], Le64(p.partId) + c);
    StartsBoth(data, 1, Le64(p.partId), c);
    StartsBoth(data, 9, [KindByte(p.kind)], d);
    StartsBoth(data, 10, Le64(p.sizeBytes), e);
    StartsBoth(data, 18, Le64(p.cardinality), f);
    StartsBoth(data, 26, Le64(p.createdAt), [p.level]);
    OneByte(data, 0, 1);
    OneByte(data, 9, KindByte(p.kind));
    OneByte(data, 34, p.level);
    Le64At(data, 1, p.partId);
    Le64At(data, 10, p.sizeBytes);
    Le64At(data, 18, p.cardinality);
    Le64At(data, 26, p.createdAt);
  }

  /** The version, the id, the kind, three numbers and the level, each in its place. */
  predicate HeadByByte(data: Bytes, p: PartRecord) {
    && |data| >= 35 && data[0] == 1 && Digits(data, 1, 8) == p.partId && data[9] == (if p.kind == Data then 0 else 1)
    && Digits(data, 10, 8) == p.sizeBytes && Digits(data, 18, 8) == p.cardinality
    && Digits(data, 26, 8) == p.createdAt && data[34] == p.level
  }

  lemma HeadsByByte(data: Bytes, p: PartRecord)
    requires |data| >= 35 && data[..35] == Head(p)
    ensures HeadByByte(data, p)
  {
    hide Head, U64At, Digits;
    assert Starts(data, 0, Head(p)) by {
      assert forall k :: 0 <= k < 35 ==> data[0 + k] == data[..35][k];
    }
    HeadIsExact(data, p);
    NumbersByByte(data, 1);
    NumbersByByte(data, 10);
    NumbersByByte(data, 18);
    NumbersByByte(data, 26);
  }

  /** Two texts, one after the other. */
  function ReadTexts(data: Bytes, at: nat): Result<(Bytes, Bytes)> {
    var first := ReadText(data, at);
    if first.Err? then Err(first.error)
    else
      var second := ReadText(data, at + first.value.1);
      if second.Err? then Err(second.error) else Ok((first.value.0, second.value.0))
  }

  lemma ReadTextsIsExact(data: Bytes, at: nat, s: Bytes, t: Bytes)
    ensures ReadTexts(data, at) == Ok((s, t)) <==>
      |s| <= MAX_TEXT && |t| <= MAX_TEXT && Starts(data, at, Text(s) + Text(t))
  {
    var first := ReadText(data, at);
    if first.Ok? {
      ReadTextIsExact(data, at, first.value.0, first.value.1);
      ReadTextIsExact(data, at + 2 + |s|, t, 2 + |t|);
      var second := ReadText(data, at + first.value.1);
      if second.Ok? {
        ReadTextIsExact(data, at + first.value.1, second.value.0, second.value.1);
      }
    }
    ReadTextIsExact(data, at, s, 2 + |s|);
    if |s| <= MAX_TEXT && |t| <= MAX_TEXT {
      StartsBoth(data, at, Text(s), Text(t));
    }
  }

  /** The variable part reads back as the record's period and texts. */
  predicate TailIs(data: Bytes, p: PartRecord) {
    var period := ReadPeriod(data, 35);
    period.Ok? && period.value.0 == p.period && ReadTexts(data, 35 + period.value.1) == Ok((p.event, p.path))
  }

  lemma TailIsExact(data: Bytes, p: PartRecord)
    ensures TailIs(data, p) <==>
      Fits(p) && Starts(data, 35, PeriodBytes(p.period) + (Text(p.event) + Text(p.path)))
  {
    hide Starts, ReadPeriod, PeriodBytes, Text;
    var a := |PeriodBytes(p.period)|;
    var period := ReadPeriod(data, 35);
    if period.Ok? {
      ReadPeriodIsExact(data, 35, period.value.0, period.value.1);
    }
    ReadPeriodIsExact(data, 35, p.period, a);
    ReadTextsIsExact(data, 35 + a, p.event, p.path);
    if Fits(p) {
      StartsBoth(data, 35, PeriodBytes(p.period), Text(p.event) + Text(p.path));
    }
  }

  lemma LayoutIsExact(data: Bytes, p: PartRecord)
    requires |data| >= 40
    ensures Fits(p) && Starts(data, 0, Layout(p)) <==> HeadIs(data, p) && TailIs(data, p)
  {
    HeadIsExact(data, p);
    TailIsExact(data, p);
    if Fits(p) {
      StartsBoth(data, 0, Head(p), PeriodBytes(p.period) + (Text(p.event) + Text(p.path)));
    }
  }

  /** Refuses a record whose name or path does not fit a 16-bit length. */
  method SerializePart(p: PartRecord) returns (r: Result<Bytes>)
    ensures r == if Fits(p) then Ok(Layout(p)) else Err(CatalogCorrupted)
    ensures r.Ok? <==> |p.event| <= 65535 && |p.path| <= 65535
    ensures r.Ok? ==> HeadByByte(r.value, p)
  {
    hide HeadByByte, Le64, Le16, PeriodBytes;
    var buf: Bytes := [1];
    buf := buf + Le64(p.partId);
    buf := buf + [if p.kind == Data then 0 else 1];
    buf := buf + Le64(p.sizeBytes);
    buf := buf + Le64(p.cardinality);
    buf := buf + Le64(p.createdAt);
    buf := buf + [p.level];
    assert buf == Head(p);
    ghost var head := buf;
    buf := buf + PeriodBytes(p.period);
    if |p.event| > MAX_TEXT {
      return Err(CatalogCorrupted);
    }
    buf := buf + Le16(|p.event|);
    buf := buf + p.event;
    assert buf == Head(p) + (PeriodBytes(p.period) + Text(p.event));
    if |p.path| > MAX_TEXT {
      return Err(CatalogCorrupted);
    }
    buf := buf + Le16(|p.path|);
    buf := buf + p.path;
    assert buf == Layout(p);
    assert buf == head + (PeriodBytes(p.period) + (Text(p.event) + Text(p.path)));
    HeadsByByte(buf, p);
    r := Ok(buf);
  }

  /** Field by field, at a moving position. */
  method ReadFields(data: Bytes, utf8: Bytes -> bool) returns (r: Result<PartRecord>)
    requires |data| >= 40
    ensures forall p :: r == Ok(p) <==> HeadIs(data, p) && TailIs(data, p) && utf8(p.event) && utf8(p.path)
    ensures r.Err? ==> r.error == CatalogCorrupted
  {
    if data[0] != 1 {
      return Err(CatalogCorrupted);
    }
    var pos := 1;
    var partId := U64At(data, pos);
    pos := pos + 8;
    if data[pos] > 1 {
      return Err(CatalogCorrupted);
    }
    var kind := if data[pos] == 0 then Data else Delta;
    pos := pos + 1;
    var sizeBytes := U64At(data, pos);
    pos := pos + 8;
    var cardinality := U64At(data, pos);
    pos := pos + 8;
    var createdAt := U64At(data, pos);
    pos := pos + 8;
    var level := data[pos];
    pos := pos + 1;
    var period := ReadPeriod(data, pos);
    if period.Err? {
      return Err(period.error);
    }
    pos := pos + period.value.1;
    var event := ReadText(data, pos);
    if event.Err? {
      return Err(event.error);
    }
    if !utf8(event.value.0) {
      return Err(CatalogCorrupted);
    }
    pos := pos + event.value.1;
    var path := ReadText(data, pos);
    if path.Err? {
      return Err(path.error);
    }
    if !utf8(path.value.0) {
      return Err(CatalogCorrupted);
    }
    r := Ok(PartRecord(partId, kind, sizeBytes, cardinality, createdAt, level,
                       period.value.0, event.value.0, path.value.0));
  }

  /** Returns a record exactly when the data starts with its bytes and its texts are valid. */
  method DeserializePart(data: Bytes, utf8: Bytes -> bool) returns (r: Result<PartRecord>)
    ensures forall p :: r == Ok(p) <==> Fits(p) && Starts(data, 0, Layout(p)) && utf8(p.event) && utf8(p.path)
    ensures r.Err? ==> r.error == CatalogCorrupted
  {
    if |data| < 40 {
      return Err(CatalogCorrupted);
    }
    r := ReadFields(data, utf8);
    forall p
      ensures Fits(p) && Starts(data, 0, Layout(p)) <==> HeadIs(data, p) && TailIs(data, p)
    {
      LayoutIsExact(data, p);
    }
  }
}
