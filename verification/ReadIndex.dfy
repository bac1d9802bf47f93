/** The merged bitmap cache that reads are served from, rebuilt from the catalog. */
module ReadIndex {
  import opened Types
  import opened Calendar
  import opened Names
  import opened Merge
  import opened Catalog

  type Cache = map<Key, set<u32>>

  function ListedKeys(t: Tables): set<Key> { t.periodParts.Keys + t.periodDeltas.Keys }

  /** Keys of later years do not survive a round trip through their text and stay out of the cache. */
  predicate Indexed(p: Period) { YearOf(p) <= 9999 }

  ghost function CacheOf(t: Tables, files: Files): Cache {
    map k | k in ListedKeys(t) && Indexed(k.period) :: OnDisk(t, files, k)
  }

  /** The parts of one key, data first, as the catalog lists them. */
  method ReadParts(t: Tables, files: Files, k: Key, ghost bound: int) returns (steps: seq<Step>)
    requires WellFormed(t, bound) && FilesMatch(t, files)
    ensures DistinctIds(steps) && StepSet(steps) == DiskSteps(t, files, k)
    ensures |steps| == |DataIds(t, k)| + |DeltaIds(t, k)|
  {
    var data, deltas := DataIds(t, k), DeltaIds(t, k);
    steps := [];
    for i := 0 to |data|
      invariant |steps| == i
      invariant forall j :: 0 <= j < i ==> steps[j] == Step(data[j], false, Content(t, files, data[j]))
    {
      assert data[i] in KeyIds(t, k);
      assert FileOk(t, files, data[i]);
      steps := steps + [Step(data[i], false, files[t.parts[data[i]].file])];
    }
    for i := 0 to |deltas|
      invariant |steps| == |data| + i
      invariant forall j :: 0 <= j < |data| ==> steps[j] == Step(data[j], false, Content(t, files, data[j]))
      invariant forall j :: 0 <= j < i ==> steps[|data| + j] == Step(deltas[j], true, Content(t, files, deltas[j]))
    {
      assert deltas[i] in KeyIds(t, k);
      assert FileOk(t, files, deltas[i]);
      steps := steps + [Step(deltas[i], true, files[t.parts[deltas[i]].file])];
    }
    PartsAreDistinct(t, files, k, bound, steps);
    PartsAreComplete(t, files, k, steps);
  }

  ghost predicate ListsParts(t: Tables, files: Files, k: Key, steps: seq<Step>) {
    var data, deltas := DataIds(t, k), DeltaIds(t, k);
    && |steps| == |data| + |deltas|
    && (forall j :: 0 <= j < |data| ==> steps[j] == Step(data[j], false, Content(t, files, data[j])))
    && (forall j :: 0 <= j < |deltas| ==> steps[|data| + j] == Step(deltas[j], true, Content(t, files, deltas[j])))
  }

  lemma PartsAreDistinct(t: Tables, files: Files, k: Key, bound: int, steps: seq<Step>)
    requires WellFormed(t, bound) && ListsParts(t, files, k, steps)
    ensures DistinctIds(steps)
  {
    var data, deltas := DataIds(t, k), DeltaIds(t, k);
    forall i, j | 0 <= i < j < |steps|
      ensures steps[i].id != steps[j].id
    {
      var x := if i < |data| then data[i] else deltas[i - |data|];
      var y := if j < |data| then data[j] else deltas[j - |data|];
      assert steps[j] == if j < |data| then Step(y, false, Content(t, files, y)) else steps[|data| + (j - |data|)];
      assert steps[i] == if i < |data| then Step(x, false, Content(t, files, x)) else steps[|data| + (i - |data|)];
      assert x in KeyIds(t, k) && y in KeyIds(t, k);
      ListedIds(t, bound, k, x);
      ListedIds(t, bound, k, y);
      assert j < |data| ==> Ascending(data);
      assert |data| <= i ==> Ascending(deltas);
    }
  }

  lemma PartsAreComplete(t: Tables, files: Files, k: Key, steps: seq<Step>)
    requires ListsParts(t, files, k, steps)
    ensures StepSet(steps) == DiskSteps(t, files, k)
  {
    var data, deltas := DataIds(t, k), DeltaIds(t, k);
    forall s | s in DiskSteps(t, files, k)
      ensures s in steps
    {
      if s.isDelta {
        var j :| 0 <= j < |deltas| && deltas[j] == s.id;
        assert steps[|data| + j] == s;
      } else {
        var j :| 0 <= j < |data| && data[j] == s.id;
        assert steps[j] == s;
      }
    }
    forall i | 0 <= i < |steps|
      ensures steps[i] in DiskSteps(t, files, k)
    {
      if i < |data| {
        assert data[i] in DataIds(t, k);
      } else {
        assert steps[|data| + (i - |data|)].id == deltas[i - |data|];
        assert deltas[i - |data|] in DeltaIds(t, k);
      }
    }
  }

  /** The fold of the flushed parts of one key. */
  method ReadKey(t: Tables, files: Files, k: Key, ghost bound: int) returns (bits: set<u32>)
    requires WellFormed(t, bound) && FilesMatch(t, files)
    ensures bits == OnDisk(t, files, k)
  {
    var steps := ReadParts(t, files, k, bound);
    bits := MergeParts(steps);
  }

  /** The cache as far as it has been filled for the keys of `done`. */
  ghost predicate FilledFor(cache: Cache, t: Tables, files: Files, done: iset<Key>) {
    && (forall k :: k in cache <==> k in done && k in ListedKeys(t) && Indexed(k.period))
    && forall k :: k in cache ==> cache[k] == OnDisk(t, files, k)
  }

  lemma ListedKeysAreValid(t: Tables, bound: int, k: Key)
    requires WellFormed(t, bound) && Canonical(t.events) && k in ListedKeys(t)
    ensures k.event in t.events && ValidEventName(k.event) && ValidPeriod(k.period)
  {
  }

  lemma FillStep(cache: Cache, t: Tables, files: Files, done: iset<Key>, key: Key)
    requires FilledFor(cache, t, files, done) && key in ListedKeys(t)
    ensures var cache' := if Indexed(key.period) then cache[key := OnDisk(t, files, key)] else cache;
      FilledFor(cache', t, files, done + iset{key})
  {
  }

  /** Adds the keys of one event to the cache. */
  method AddEvent(t: Tables, files: Files, event: string, before: Cache, ghost done: iset<Key>, ghost bound: int)
    returns (cache: Cache)
    requires WellFormed(t, bound) && FilesMatch(t, files) && Canonical(t.events)
    requires FilledFor(before, t, files, done)
    ensures FilledFor(cache, t, files, done + iset k: Key | k.event == event)
  {
    cache := before;
    var keys := set k | k in ListedKeys(t) && k.event == event;
    var todo := keys;
    ghost var filled := done;
    while todo != {}
      invariant todo <= keys
      invariant FilledFor(cache, t, files, filled)
      invariant forall k :: k in filled <==> k in done || k in keys - todo
      decreases todo
    {
      var key :| key in todo;
      FillStep(cache, t, files, filled, key);
      filled := filled + iset{key};
      ListedKeysAreValid(t, bound, key);
      var period := Reparse(event, key.period);
      if period.Some? {
        var bits := ReadKey(t, files, key, bound);
        cache := cache[Key(event, period.value) := bits];
      }
      todo := todo - {key};
    }
  }

  /** The cache holds, for every listed key of a parseable period, exactly the fold of its parts. */
  method Build(t: Tables, files: Files, ghost bound: int) returns (names: set<string>, cache: Cache)
    requires WellFormed(t, bound) && FilesMatch(t, files) && Canonical(t.events)
    ensures names == t.events.Keys
    ensures cache == CacheOf(t, files)
  {
    names := t.events.Keys;
    cache := map[];
    var events := names;
    while events != {}
      invariant events <= names
      invariant FilledFor(cache, t, files, iset k: Key | k.event in names - events)
      decreases events
    {
      var event :| event in events;
      ghost var done := iset k: Key | k.event in names - events;
      cache := AddEvent(t, files, event, cache, done, bound);
      events := events - {event};
      assert done + (iset k: Key | k.event == event) == iset k: Key | k.event in names - events;
    }
    forall k | k in ListedKeys(t)
      ensures k.event in names
    {
      ListedKeysAreValid(t, bound, k);
    }
  }
}
