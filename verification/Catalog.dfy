/** The catalog tables as one transaction sees them, the helpers that edit them, and
    what the parts they list add up to. */
module Catalog {
  import opened Types
  import opened Calendar
  import opened Merge

  datatype Tables = Tables(
    events: map<string, EventConfig>,
    parts: map<u64, Part>,
    periodParts: map<Key, seq<u64>>,
    periodDeltas: map<Key, seq<u64>>,
    periodState: map<Key, PeriodState>,
    nextPartId: u64)

  type Files = map<Path, set<u32>>

  const EMPTY_TABLES := Tables(map[], map[], map[], map[], map[], 1)

  function DataIds(t: Tables, k: Key): seq<u64> { if k in t.periodParts then t.periodParts[k] else [] }

  function DeltaIds(t: Tables, k: Key): seq<u64> { if k in t.periodDeltas then t.periodDeltas[k] else [] }

  /** Every key outside `ks` lists the same parts in both tables. */
  predicate SameBut(t: Tables, t': Tables, ks: set<Key>) {
    t'.periodParts - ks == t.periodParts - ks && t'.periodDeltas - ks == t.periodDeltas - ks
  }

  lemma SameLists(t: Tables, t': Tables, ks: set<Key>, k: Key)
    requires SameBut(t, t', ks) && k !in ks
    ensures DataIds(t', k) == DataIds(t, k) && DeltaIds(t', k) == DeltaIds(t, k)
  {
    assert k in t'.periodParts <==> k in t'.periodParts - ks;
    assert k in t.periodParts <==> k in t.periodParts - ks;
    assert k in t'.periodDeltas <==> k in t'.periodDeltas - ks;
    assert k in t.periodDeltas <==> k in t.periodDeltas - ks;
  }

  lemma SameNothing(t: Tables, ks: set<Key>)
    ensures SameBut(t, t, ks)
  {
  }

  lemma SameTwice(t: Tables, t': Tables, t'': Tables, a: set<Key>, b: set<Key>)
    requires SameBut(t, t', a) && SameBut(t', t'', b)
    ensures SameBut(t, t'', a + b)
  {
    assert t''.periodParts - (a + b) == (t''.periodParts - b) - a;
    assert t'.periodParts - b - a == (t'.periodParts - a) - b;
    assert t.periodParts - a - b == t.periodParts - (a + b);
    assert t''.periodDeltas - (a + b) == (t''.periodDeltas - b) - a;
    assert t'.periodDeltas - b - a == (t'.periodDeltas - a) - b;
    assert t.periodDeltas - a - b == t.periodDeltas - (a + b);
  }

  /** The lists and the id counter are the same. */
  predicate SameParts(t: Tables, t': Tables) {
    t'.periodParts == t.periodParts && t'.periodDeltas == t.periodDeltas && t'.nextPartId == t.nextPartId
  }

  /** A key that one data part holds alone. */
  predicate Single(t: Tables, k: Key) { |DataIds(t, k)| == 1 && DeltaIds(t, k) == [] }

  // ----- transaction helpers ----------------------------------------------------

  /** Reserves `count` consecutive ids; the counter never passes the 64-bit limit. */
  function AllocPartIds(t: Tables, count: nat): Result<Tables> {
    if t.nextPartId + count >= U64_LIMIT then Err(CatalogCorrupted)
    else Ok(t.(nextPartId := t.nextPartId + count))
  }

  function RegisterEvent(t: Tables, config: EventConfig): Tables { t.(events := t.events[config.name := config]) }

  function RegisterPart(t: Tables, part: Part): Tables { t.(parts := t.parts[part.partId := part]) }

  function AppendPeriodParts(t: Tables, k: Key, id: u64): Tables {
    t.(periodParts := t.periodParts[k := DataIds(t, k) + [id]])
  }

  function AppendPeriodDeltas(t: Tables, k: Key, id: u64): Tables {
    t.(periodDeltas := t.periodDeltas[k := DeltaIds(t, k) + [id]])
  }

  function SetPeriodState(t: Tables, k: Key, state: PeriodState): Tables {
    t.(periodState := t.periodState[k := state])
  }

  /** Compacted marks of the given keys become closed ones. */
  function Reverted(states: map<Key, PeriodState>, ks: set<Key>): map<Key, PeriodState> {
    map k | k in states :: if k in ks && states[k] == Compacted then ClosedPeriod else states[k]
  }

  function OpenIfNew(t: Tables, k: Key): Tables { if k in t.periodState then t else SetPeriodState(t, k, Open) }

  function ForgetParts(t: Tables, ids: set<u64>): Tables { t.(parts := t.parts - ids) }

  /** What a flush does to the catalog for one data part. */
  function RecordData(t: Tables, part: Part): Tables {
    OpenIfNew(AppendPeriodParts(RegisterPart(t, part), part.Owner(), part.partId), part.Owner())
  }

  /** What a flush does to the catalog for one delta part. */
  function RecordDelta(t: Tables, part: Part): Tables {
    AppendPeriodDeltas(RegisterPart(t, part), part.Owner(), part.partId)
  }

  /** Makes `part` the only part of its key and forgets the records of `stale`. */
  function RecordReplacement(t: Tables, part: Part, state: PeriodState, stale: set<u64>): Tables {
    var k := part.Owner();
    var t1 := RegisterPart(t, part);
    var t2 := t1.(periodParts := t1.periodParts[k := [part.partId]], periodDeltas := t1.periodDeltas - {k});
    ForgetParts(SetPeriodState(t2, k, state), stale)
  }

  function KeyIds(t: Tables, k: Key): set<u64> {
    (set id | id in DataIds(t, k)) + (set id | id in DeltaIds(t, k))
  }

  function DeletePeriod(t: Tables, k: Key): Tables {
    ForgetParts(t, KeyIds(t, k)).(
      periodParts := t.periodParts - {k}, periodDeltas := t.periodDeltas - {k}, periodState := t.periodState - {k})
  }

  /** The data parts listed under an event. */
  function EventDataIds(t: Tables, name: string): set<u64> {
    set k, id | k in t.periodParts && k.event == name && id in t.periodParts[k] :: id
  }

  /** Drops every row of an event. The records of its delta parts stay behind. */
  function DeleteEvent(t: Tables, name: string): Tables {
    ForgetParts(t, EventDataIds(t, name)).(
      events := t.events - {name},
      periodParts := map k | k in t.periodParts && k.event != name :: t.periodParts[k],
      periodDeltas := map k | k in t.periodDeltas && k.event != name :: t.periodDeltas[k],
      periodState := map k | k in t.periodState && k.event != name :: t.periodState[k])
  }

  lemma RecordingKeepsOthers(start: Tables, t: Tables, part: Part, ks: set<Key>)
    requires SameBut(start, t, ks) && part.Owner() in ks
    ensures SameBut(start, RecordData(t, part), ks) && SameBut(start, RecordDelta(t, part), ks)
  {
    assert RecordData(t, part).periodParts - ks == t.periodParts - ks;
    assert RecordDelta(t, part).periodDeltas - ks == t.periodDeltas - ks;
  }

  lemma ReplacingKeepsOthers(t: Tables, part: Part, state: PeriodState, stale: set<u64>)
    ensures SameBut(t, RecordReplacement(t, part, state, stale), {part.Owner()})
    ensures Single(RecordReplacement(t, part, state, stale), part.Owner())
  {
    var k := part.Owner();
    assert t.periodParts[k := [part.partId]] - {k} == t.periodParts - {k};
  }

  // ----- well-formed tables -------------------------------------------------------

  ghost predicate Ascending(ids: seq<u64>) { forall i, j :: 0 <= i < j < |ids| ==> ids[i] < ids[j] }

  /** Every listed id has a record of the right kind under the right key. Ids of different
      keys or kinds are thereby different. */
  ghost predicate ListOk(t: Tables, k: Key, ids: seq<u64>, kind: PartKind) {
    && k.event in t.events && ValidPeriod(k.period)
    && Ascending(ids)
    && forall id :: id in ids ==> id in t.parts && t.parts[id].kind == kind && t.parts[id].Owner() == k
  }

  ghost predicate RecordsOk(t: Tables, bound: int) {
    forall id :: id in t.parts ==> t.parts[id].partId == id && t.parts[id].file.partId == id && id < bound
  }

  ghost predicate WellFormed(t: Tables, bound: int) {
    && (forall k :: k in t.periodParts ==> ListOk(t, k, t.periodParts[k], Data))
    && (forall k :: k in t.periodDeltas ==> ListOk(t, k, t.periodDeltas[k], Delta))
    && RecordsOk(t, bound)
  }

  /** A part's file is present and holds as many bits as its record says. */
  ghost predicate FileOk(t: Tables, files: Files, id: u64) {
    id in t.parts && t.parts[id].file in files && t.parts[id].cardinality == |files[t.parts[id].file]|
  }

  ghost predicate FilesMatch(t: Tables, files: Files) {
    forall k, id :: id in KeyIds(t, k) ==> FileOk(t, files, id)
  }

  // ----- what is on disk ------------------------------------------------------------

  function Content(t: Tables, files: Files, id: u64): set<u32> {
    if id in t.parts && t.parts[id].file in files then files[t.parts[id].file] else {}
  }

  function DiskSteps(t: Tables, files: Files, k: Key): set<Step> {
    (set id | id in DataIds(t, k) :: Step(id, false, Content(t, files, id))) +
    (set id | id in DeltaIds(t, k) :: Step(id, true, Content(t, files, id)))
  }

  /** The bits of a key that survive in its flushed parts. */
  ghost function OnDisk(t: Tables, files: Files, k: Key): set<u32> { Visible(DiskSteps(t, files, k)) }

  lemma OnDiskFrame(t: Tables, files: Files, t': Tables, files': Files, k: Key)
    requires DataIds(t', k) == DataIds(t, k) && DeltaIds(t', k) == DeltaIds(t, k)
    requires forall id :: id in KeyIds(t, k) ==> Content(t', files', id) == Content(t, files, id)
    ensures OnDisk(t', files', k) == OnDisk(t, files, k)
  {
    hide Visible;
    assert DiskSteps(t', files', k) == DiskSteps(t, files, k);
  }

  lemma ListedIds(t: Tables, bound: int, k: Key, id: u64)
    requires WellFormed(t, bound) && id in KeyIds(t, k)
    ensures id in t.parts && id < bound && t.parts[id].Owner() == k && t.parts[id].file.partId == id
    ensures id in DataIds(t, k) <==> t.parts[id].kind == Data
    ensures id in DeltaIds(t, k) <==> t.parts[id].kind == Delta
  {
  }

  // ----- the edits, one by one --------------------------------------------------------

  /** A file no record of these tables points at. */
  ghost predicate Unreferenced(t: Tables, p: Path) {
    forall k, id :: id in KeyIds(t, k) && id in t.parts ==> t.parts[id].file != p
  }

  lemma FreshIsUnreferenced(t: Tables, bound: int, p: Path)
    requires WellFormed(t, bound) && bound <= p.partId
    ensures Unreferenced(t, p)
  {
  }

  /** Writing or deleting an unreferenced file changes nothing that is listed. */
  lemma UnreferencedFile(t: Tables, files: Files, files': Files, p: Path)
    requires Unreferenced(t, p) && FilesMatch(t, files)
    requires forall q :: q != p ==> (q in files' <==> q in files) && (q in files ==> files'[q] == files[q])
    ensures FilesMatch(t, files')
    ensures forall k :: OnDisk(t, files', k) == OnDisk(t, files, k)
  {
    forall k, id | id in KeyIds(t, k)
      ensures FileOk(t, files', id)
    {
      assert FileOk(t, files, id);
    }
    forall k
      ensures OnDisk(t, files', k) == OnDisk(t, files, k)
    {
      forall id | id in KeyIds(t, k)
        ensures Content(t, files', id) == Content(t, files, id)
      {
        assert FileOk(t, files, id);
      }
      OnDiskFrame(t, files, t, files', k);
    }
  }

  /** Edits that leave parts and lists alone. */
  lemma BookkeepingOnly(t: Tables, t': Tables, files: Files, bound: int)
    requires WellFormed(t, bound) && FilesMatch(t, files)
    requires t'.parts == t.parts && t'.periodParts == t.periodParts && t'.periodDeltas == t.periodDeltas
    requires t.events.Keys <= t'.events.Keys
    ensures WellFormed(t', bound) && FilesMatch(t', files)
    ensures forall k :: OnDisk(t', files, k) == OnDisk(t, files, k)
  {
    forall k
      ensures OnDisk(t', files, k) == OnDisk(t, files, k)
    {
      OnDiskFrame(t, files, t', files, k);
    }
    forall k, id | id in KeyIds(t', k)
      ensures FileOk(t', files, id)
    {
      assert id in KeyIds(t, k);
      assert FileOk(t, files, id);
    }
  }

  /** A part about to be recorded: its id is next in line and its file is in place. */
  ghost predicate ReadyPart(t: Tables, files: Files, part: Part) {
    && WellFormed(t, part.partId) && FilesMatch(t, files)
    && part.file.partId == part.partId
    && part.event in t.events && ValidPeriod(part.period)
    && part.file in files && part.cardinality == |files[part.file]|
  }

  lemma AscendingAppend(ids: seq<u64>, id: u64)
    requires Ascending(ids) && forall i :: i in ids ==> i < id
    ensures Ascending(ids + [id])
  {
    forall i, j | 0 <= i < j < |ids| + 1
      ensures (ids + [id])[i] < (ids + [id])[j]
    {
      assert ids[i] in ids;
    }
  }

  /** The steps of a key whose data or delta list has grown by one recorded part. */
  lemma StepsGrow(t: Tables, t': Tables, files: Files, part: Part)
    requires ReadyPart(t, files, part)
    requires t'.parts == t.parts[part.partId := part]
    requires DataIds(t', part.Owner()) == DataIds(t, part.Owner()) + if part.kind == Data then [part.partId] else []
    requires DeltaIds(t', part.Owner()) == DeltaIds(t, part.Owner()) + if part.kind == Delta then [part.partId] else []
    ensures DiskSteps(t', files, part.Owner()) ==
      DiskSteps(t, files, part.Owner()) + {Step(part.partId, part.kind == Delta, files[part.file])}
    ensures forall s :: s in DiskSteps(t, files, part.Owner()) ==> s.id < part.partId
  {
    var k := part.Owner();
    forall id | id in KeyIds(t, k)
      ensures id < part.partId && Content(t', files, id) == Content(t, files, id)
    {
      ListedIds(t, part.partId, k, id);
    }
    forall s
      ensures s in DiskSteps(t', files, k) <==>
        s in DiskSteps(t, files, k) + {Step(part.partId, part.kind == Delta, files[part.file])}
    {
      if s in DiskSteps(t, files, k) {
        assert s.id in KeyIds(t, k);
        assert s.isDelta ==> s.id in DeltaIds(t', k);
        assert !s.isDelta ==> s.id in DataIds(t', k);
      }
      if s in DiskSteps(t', files, k) && s.id != part.partId {
        assert s.isDelta ==> s.id in DeltaIds(t, k);
        assert !s.isDelta ==> s.id in DataIds(t, k);
      }
      if s.id == part.partId && s.isDelta == (part.kind == Delta) {
        assert part.partId in if part.kind == Delta then DeltaIds(t', k) else DataIds(t', k);
      }
    }
  }

  lemma DataListGrows(t: Tables, t': Tables, files: Files, part: Part)
    requires ReadyPart(t, files, part) && part.kind == Data
    requires t' == AppendPeriodParts(RegisterPart(t, part), part.Owner(), part.partId)
    ensures forall k :: k in t'.periodParts ==> ListOk(t', k, t'.periodParts[k], Data)
  {
    var own := part.Owner();
    assert forall id :: id in DataIds(t, own) ==> id < part.partId by {
      assert forall id :: id in DataIds(t, own) ==> id in t.parts;
    }
    AscendingAppend(DataIds(t, own), part.partId);
    assert ListOk(t', own, t'.periodParts[own], Data);
    forall k | k in t'.periodParts && k != own
      ensures ListOk(t', k, t'.periodParts[k], Data)
    {
      assert ListOk(t, k, t.periodParts[k], Data);
    }
  }

  lemma DataListGrowsFiles(t: Tables, t': Tables, files: Files, part: Part)
    requires ReadyPart(t, files, part) && part.kind == Data
    requires t' == AppendPeriodParts(RegisterPart(t, part), part.Owner(), part.partId)
    ensures FilesMatch(t', files)
  {
    forall k, id | id in KeyIds(t', k)
      ensures FileOk(t', files, id)
    {
      if id != part.partId {
        assert id in KeyIds(t, k);
        assert FileOk(t, files, id);
      }
    }
  }

  lemma RecordDataKeepsTables(t: Tables, files: Files, part: Part)
    requires ReadyPart(t, files, part) && part.kind == Data
    ensures WellFormed(RecordData(t, part), part.partId + 1) && FilesMatch(RecordData(t, part), files)
  {
    var t' := AppendPeriodParts(RegisterPart(t, part), part.Owner(), part.partId);
    DataListGrows(t, t', files, part);
    DataListGrowsFiles(t, t', files, part);
    forall k | k in t'.periodDeltas
      ensures ListOk(t', k, t'.periodDeltas[k], Delta)
    {
      assert ListOk(t, k, t.periodDeltas[k], Delta);
    }
    BookkeepingOnly(t', RecordData(t, part), files, part.partId + 1);
  }

  lemma RecordDataEffect(t: Tables, files: Files, part: Part)
    requires ReadyPart(t, files, part) && part.kind == Data
    ensures WellFormed(RecordData(t, part), part.partId + 1) && FilesMatch(RecordData(t, part), files)
    ensures forall k ::
      OnDisk(RecordData(t, part), files, k) ==
      OnDisk(t, files, k) + if k == part.Owner() then files[part.file] else {}
  {
    RecordDataKeepsTables(t, files, part);
    forall k
      ensures OnDisk(RecordData(t, part), files, k) ==
              OnDisk(t, files, k) + if k == part.Owner() then files[part.file] else {}
    {
      if k == part.Owner() {
        RecordDataAtOwner(t, files, part);
      } else {
        OnDiskElsewhere(t, RecordData(t, part), files, part, k);
      }
    }
  }

  lemma RecordDataAtOwner(t: Tables, files: Files, part: Part)
    requires ReadyPart(t, files, part) && part.kind == Data
    ensures OnDisk(RecordData(t, part), files, part.Owner()) == OnDisk(t, files, part.Owner()) + files[part.file]
  {
    StepsGrow(t, RecordData(t, part), files, part);
    NewestDataAdds(DiskSteps(t, files, part.Owner()), Step(part.partId, part.kind == Delta, files[part.file]));
  }

  /** Recording a part leaves what other keys have on disk. */
  lemma OnDiskElsewhere(t: Tables, t': Tables, files: Files, part: Part, k: Key)
    requires ReadyPart(t, files, part) && k != part.Owner()
    requires t'.parts == t.parts[part.partId := part]
    requires DataIds(t', k) == DataIds(t, k) && DeltaIds(t', k) == DeltaIds(t, k)
    ensures OnDisk(t', files, k) == OnDisk(t, files, k)
  {
    forall id | id in KeyIds(t, k)
      ensures Content(t', files, id) == Content(t, files, id)
    {
      ListedIds(t, part.partId, k, id);
    }
    OnDiskFrame(t, files, t', files, k);
  }

  lemma DeltaListGrows(t: Tables, t': Tables, files: Files, part: Part)
    requires ReadyPart(t, files, part) && part.kind == Delta
    requires t' == AppendPeriodDeltas(RegisterPart(t, part), part.Owner(), part.partId)
    ensures forall k :: k in t'.periodDeltas ==> ListOk(t', k, t'.periodDeltas[k], Delta)
  {
    var own := part.Owner();
    assert forall id :: id in DeltaIds(t, own) ==> id < part.partId by {
      assert forall id :: id in DeltaIds(t, own) ==> id in t.parts;
    }
    AscendingAppend(DeltaIds(t, own), part.partId);
    assert ListOk(t', own, t'.periodDeltas[own], Delta);
    forall k | k in t'.periodDeltas && k != own
      ensures ListOk(t', k, t'.periodDeltas[k], Delta)
    {
      assert ListOk(t, k, t.periodDeltas[k], Delta);
    }
  }

  lemma DeltaListGrowsFiles(t: Tables, t': Tables, files: Files, part: Part)
    requires ReadyPart(t, files, part) && part.kind == Delta
    requires t' == AppendPeriodDeltas(RegisterPart(t, part), part.Owner(), part.partId)
    ensures FilesMatch(t', files)
  {
    forall k, id | id in KeyIds(t', k)
      ensures FileOk(t', files, id)
    {
      if id != part.partId {
        assert id in KeyIds(t, k);
        assert FileOk(t, files, id);
      }
    }
  }

  lemma RecordDeltaKeepsTables(t: Tables, files: Files, part: Part)
    requires ReadyPart(t, files, part) && part.kind == Delta
    ensures WellFormed(RecordDelta(t, part), part.partId + 1) && FilesMatch(RecordDelta(t, part), files)
  {
    var t' := AppendPeriodDeltas(RegisterPart(t, part), part.Owner(), part.partId);
    DeltaListGrows(t, t', files, part);
    DeltaListGrowsFiles(t, t', files, part);
    forall k | k in t'.periodParts
      ensures ListOk(t', k, t'.periodParts[k], Data)
    {
      assert ListOk(t, k, t.periodParts[k], Data);
    }
    BookkeepingOnly(t', RecordDelta(t, part), files, part.partId + 1);
  }

  lemma RecordDeltaEffect(t: Tables, files: Files, part: Part)
    requires ReadyPart(t, files, part) && part.kind == Delta
    ensures WellFormed(RecordDelta(t, part), part.partId + 1) && FilesMatch(RecordDelta(t, part), files)
    ensures forall k ::
      OnDisk(RecordDelta(t, part), files, k) ==
      OnDisk(t, files, k) - if k == part.Owner() then files[part.file] else {}
  {
    RecordDeltaKeepsTables(t, files, part);
    forall k
      ensures OnDisk(RecordDelta(t, part), files, k) ==
              OnDisk(t, files, k) - if k == part.Owner() then files[part.file] else {}
    {
      if k == part.Owner() {
        RecordDeltaAtOwner(t, files, part);
      } else {
        OnDiskElsewhere(t, RecordDelta(t, part), files, part, k);
      }
    }
  }

  lemma RecordDeltaAtOwner(t: Tables, files: Files, part: Part)
    requires ReadyPart(t, files, part) && part.kind == Delta
    ensures OnDisk(RecordDelta(t, part), files, part.Owner()) == OnDisk(t, files, part.Owner()) - files[part.file]
  {
    StepsGrow(t, RecordDelta(t, part), files, part);
    NewestDeltaErases(DiskSteps(t, files, part.Owner()), Step(part.partId, part.kind == Delta, files[part.file]));
  }

  lemma NothingListed(t: Tables, files: Files, k: Key)
    requires DataIds(t, k) == [] && DeltaIds(t, k) == []
    ensures OnDisk(t, files, k) == {}
  {
    assert DiskSteps(t, files, k) == {};
  }

  /** The lists of `k` are the same in both tables, and so are the records they name. */
  ghost predicate KeptKey(t: Tables, t': Tables, k: Key) {
    && DataIds(t', k) == DataIds(t, k) && DeltaIds(t', k) == DeltaIds(t, k)
    && forall id :: id in KeyIds(t, k) && id in t.parts ==> id in t'.parts
  }

  /** `t'` is what is left of `t` after whole keys have been dropped. */
  ghost predicate Remainder(t: Tables, t': Tables) {
    && (forall id :: id in t'.parts ==> id in t.parts && t'.parts[id] == t.parts[id])
    && (forall n :: n in t'.events ==> n in t.events && t'.events[n] == t.events[n])
    && (forall k :: k in t'.periodParts ==> k in t.periodParts && KeptKey(t, t', k) && k.event in t'.events)
    && (forall k :: k in t'.periodDeltas ==> k in t.periodDeltas && KeptKey(t, t', k) && k.event in t'.events)
  }

  lemma RemainderIsWellFormed(t: Tables, t': Tables, files: Files, bound: int)
    requires WellFormed(t, bound) && FilesMatch(t, files) && Remainder(t, t')
    ensures WellFormed(t', bound) && FilesMatch(t', files)
  {
    forall k | k in t'.periodParts
      ensures ListOk(t', k, t'.periodParts[k], Data)
    {
      assert ListOk(t, k, t.periodParts[k], Data);
      assert forall id :: id in t'.periodParts[k] ==> id in KeyIds(t, k);
    }
    forall k | k in t'.periodDeltas
      ensures ListOk(t', k, t'.periodDeltas[k], Delta)
    {
      assert ListOk(t, k, t.periodDeltas[k], Delta);
      assert forall id :: id in t'.periodDeltas[k] ==> id in KeyIds(t, k);
    }
    forall k, id | id in KeyIds(t', k)
      ensures FileOk(t', files, id)
    {
      assert id in KeyIds(t, k);
      assert FileOk(t, files, id);
    }
  }

  lemma KeptKeyOnDisk(t: Tables, t': Tables, files: Files, bound: int, k: Key)
    requires WellFormed(t, bound) && Remainder(t, t') && KeptKey(t, t', k)
    ensures OnDisk(t', files, k) == OnDisk(t, files, k)
  {
    forall id | id in KeyIds(t, k)
      ensures Content(t', files, id) == Content(t, files, id)
    {
      ListedIds(t, bound, k, id);
    }
    OnDiskFrame(t, files, t', files, k);
  }

  lemma DeletePeriodEffect(t: Tables, files: Files, bound: int, own: Key)
    requires WellFormed(t, bound) && FilesMatch(t, files)
    ensures WellFormed(DeletePeriod(t, own), bound) && FilesMatch(DeletePeriod(t, own), files)
    ensures forall k :: OnDisk(DeletePeriod(t, own), files, k) == if k == own then {} else OnDisk(t, files, k)
  {
    var t' := DeletePeriod(t, own);
    forall k | k != own
      ensures KeptKey(t, t', k)
    {
      forall id | id in KeyIds(t, k) && id in t.parts
        ensures id in t'.parts
      {
        ListedIds(t, bound, k, id);
        if id in KeyIds(t, own) { ListedIds(t, bound, own, id); }
      }
    }
    assert Remainder(t, t') by {
      assert forall k :: k in t.periodParts ==> ListOk(t, k, t.periodParts[k], Data);
      assert forall k :: k in t.periodDeltas ==> ListOk(t, k, t.periodDeltas[k], Delta);
    }
    RemainderIsWellFormed(t, t', files, bound);
    forall k
      ensures OnDisk(t', files, k) == if k == own then {} else OnDisk(t, files, k)
    {
      if k == own {
        NothingListed(t', files, k);
      } else {
        KeptKeyOnDisk(t, t', files, bound, k);
      }
    }
  }

  /** A deletion takes the marks of its own keys and leaves every other mark as it is. */
  lemma MarksAfterDeletion(t: Tables, own: Key, name: string)
    ensures forall k :: k in DeletePeriod(t, own).periodState <==> k in t.periodState && k != own
    ensures var left := DeletePeriod(t, own).periodState; forall k :: k in left ==> left[k] == t.periodState[k]
    ensures forall k :: k in DeleteEvent(t, name).periodState <==> k in t.periodState && k.event != name
    ensures var left := DeleteEvent(t, name).periodState; forall k :: k in left ==> left[k] == t.periodState[k]
  {
  }

  lemma DeleteEventEffect(t: Tables, files: Files, bound: int, name: string)
    requires WellFormed(t, bound) && FilesMatch(t, files)
    ensures WellFormed(DeleteEvent(t, name), bound) && FilesMatch(DeleteEvent(t, name), files)
    ensures forall k :: OnDisk(DeleteEvent(t, name), files, k) == if k.event == name then {} else OnDisk(t, files, k)
  {
    var t' := DeleteEvent(t, name);
    forall k: Key | k.event != name
      ensures KeptKey(t, t', k)
    {
      forall id | id in KeyIds(t, k) && id in t.parts
        ensures id in t'.parts
      {
        ListedIds(t, bound, k, id);
      }
    }
    assert Remainder(t, t') by {
      assert forall k :: k in t.periodParts ==> ListOk(t, k, t.periodParts[k], Data);
      assert forall k :: k in t.periodDeltas ==> ListOk(t, k, t.periodDeltas[k], Delta);
    }
    RemainderIsWellFormed(t, t', files, bound);
    forall k
      ensures OnDisk(t', files, k) == if k.event == name then {} else OnDisk(t, files, k)
    {
      if k.event == name {
        NothingListed(t', files, k);
      } else {
        KeptKeyOnDisk(t, t', files, bound, k);
      }
    }
  }

  /** Of the listed records, dropping an event takes those of its data parts. The records of its delta parts stay,
      although no list names them any more. */
  lemma DroppedRecords(t: Tables, bound: int, name: string)
    requires WellFormed(t, bound)
    ensures forall id :: id in DeleteEvent(t, name).parts <==> id in t.parts && id !in EventDataIds(t, name)
    ensures forall k, id :: id in KeyIds(t, k) ==>
      (id in DeleteEvent(t, name).parts <==> k.event != name || id in DeltaIds(t, k))
    ensures forall k, id :: id in KeyIds(DeleteEvent(t, name), k) <==> id in KeyIds(t, k) && k.event != name
  {
    forall k, id | id in KeyIds(t, k)
      ensures id in DeleteEvent(t, name).parts <==> k.event != name || id in DeltaIds(t, k)
    {
      ListedIds(t, bound, k, id);
      if id in EventDataIds(t, name) {
        var q :| q in t.periodParts && q.event == name && id in t.periodParts[q];
        ListedIds(t, bound, q, id);
      } else if id in DataIds(t, k) {
        assert k.event != name;
      }
    }
  }

  // ----- replacing a whole key ----------------------------------------------------------

  /** `t` without the lists of `k` and without the records of `stale`. */
  function ClearedKey(t: Tables, k: Key, stale: set<u64>): Tables {
    ForgetParts(t, stale).(periodParts := t.periodParts - {k}, periodDeltas := t.periodDeltas - {k})
  }

  lemma UpdateThenRemove<K, V>(m: map<K, V>, k: K, v: V, ks: set<K>)
    requires k !in ks
    ensures m[k := v] - ks == (m - ks)[k := v]
  {
  }

  lemma UpdateAfterRemove<K, V>(m: map<K, V>, k: K, v: V)
    ensures m[k := v] == (m - {k})[k := v]
  {
  }

  lemma ReplacementIsClearThenRecord(t: Tables, part: Part, state: PeriodState, stale: set<u64>)
    requires part.partId !in stale
    ensures RecordReplacement(t, part, state, stale) ==
      SetPeriodState(RecordData(ClearedKey(t, part.Owner(), stale), part), part.Owner(), state)
  {
    var k := part.Owner();
    var cleared := ClearedKey(t, k, stale);
    assert DataIds(cleared, k) + [part.partId] == [part.partId];
    UpdateThenRemove(t.parts, part.partId, part, stale);
    UpdateAfterRemove(t.periodParts, k, [part.partId]);
    var recorded := AppendPeriodParts(RegisterPart(cleared, part), k, part.partId);
    assert recorded.periodState == t.periodState;
    assert SetPeriodState(OpenIfNew(recorded, k), k, state) == SetPeriodState(recorded, k, state);
  }

  lemma ClearedKeyEffect(t: Tables, files: Files, bound: int, own: Key, stale: set<u64>)
    requires WellFormed(t, bound) && FilesMatch(t, files)
    requires forall id :: id in stale && id in t.parts ==> t.parts[id].Owner() == own
    ensures WellFormed(ClearedKey(t, own, stale), bound) && FilesMatch(ClearedKey(t, own, stale), files)
    ensures forall k :: OnDisk(ClearedKey(t, own, stale), files, k) == if k == own then {} else OnDisk(t, files, k)
  {
    var t' := ClearedKey(t, own, stale);
    forall k | k != own
      ensures KeptKey(t, t', k)
    {
      forall id | id in KeyIds(t, k) && id in t.parts
        ensures id in t'.parts
      {
        ListedIds(t, bound, k, id);
      }
    }
    assert Remainder(t, t') by {
      assert forall k :: k in t.periodParts ==> ListOk(t, k, t.periodParts[k], Data);
      assert forall k :: k in t.periodDeltas ==> ListOk(t, k, t.periodDeltas[k], Delta);
    }
    RemainderIsWellFormed(t, t', files, bound);
    forall k
      ensures OnDisk(t', files, k) == if k == own then {} else OnDisk(t, files, k)
    {
      if k == own {
        NothingListed(t', files, k);
      } else {
        KeptKeyOnDisk(t, t', files, bound, k);
      }
    }
  }

  /** A replacement leaves its key with exactly the new part, and every other key as it was. */
  lemma RecordReplacementEffect(t: Tables, files: Files, part: Part, state: PeriodState, stale: set<u64>)
    requires ReadyPart(t, files, part) && part.kind == Data && part.partId !in stale
    requires forall id :: id in stale && id in t.parts ==> t.parts[id].Owner() == part.Owner()
    ensures var t' := RecordReplacement(t, part, state, stale);
      && WellFormed(t', part.partId + 1) && FilesMatch(t', files)
      && DataIds(t', part.Owner()) == [part.partId] && DeltaIds(t', part.Owner()) == []
    ensures forall k ::
      OnDisk(RecordReplacement(t, part, state, stale), files, k) ==
      if k == part.Owner() then files[part.file] else OnDisk(t, files, k)
  {
    var cleared := ClearedKey(t, part.Owner(), stale);
    ReplacementIsClearThenRecord(t, part, state, stale);
    ClearedKeyEffect(t, files, part.partId, part.Owner(), stale);
    RecordDataEffect(cleared, files, part);
    var recorded := RecordData(cleared, part);
    BookkeepingOnly(recorded, SetPeriodState(recorded, part.Owner(), state), files, part.partId + 1);
  }
}
