/** The dictionary between external string ids and 32-bit internal ids. */
module Dictionary {
  import opened Types

  /** The forward table, the reverse table and the counter, all stored as 64-bit numbers. */
  datatype Tables = Tables(fwd: map<string, u64>, rev: map<u64, string>, next: u64)

  const EMPTY := Tables(map[], map[], 0)

  /** The tables are inverse to each other, every id is below the counter, and the counter within 2^32. */
  ghost predicate WellFormed(t: Tables) {
    && (forall s :: s in t.fwd ==> t.fwd[s] in t.rev && t.rev[t.fwd[s]] == s)
    && (forall i :: i in t.rev ==> t.rev[i] in t.fwd && t.fwd[t.rev[i]] == i)
    && (forall i :: i in t.rev ==> i < t.next)
    && t.next <= U32_LIMIT
  }

  /** A stored id is read back through a cast to 32 bits. */
  function AsU32(v: u64): (r: u32)
    ensures v < U32_LIMIT ==> r == v
  {
    v % U32_LIMIT
  }

  function Find(t: Tables, s: string): Option<u32> { if s in t.fwd then Some(AsU32(t.fwd[s])) else None }

  // ----- transactions as values -------------------------------------------------------------

  /** One write transaction that returns the id of `s`, making one if there is none. */
  function Assign(t: Tables, s: string): (r: (Tables, Result<u32>)) {
    if s in t.fwd then (t, Ok(AsU32(t.fwd[s])))
    else if t.next >= U32_LIMIT then (t, Err(Configuration))
    else
      var next: int := t.next;
      (Tables(t.fwd[s := t.next], t.rev[t.next := s], next + 1), Ok(t.next))
  }

  /** Single assignments in order, up to the first that fails. */
  function AssignAll(t: Tables, ids: seq<string>): (Tables, Result<seq<u32>>) {
    if ids == [] then (t, Ok([]))
    else
      var (t1, front) := AssignAll(t, ids[..|ids| - 1]);
      if front.Err? then (t1, front)
      else
        var (t2, last) := Assign(t1, ids[|ids| - 1]);
        if last.Err? then (t2, Err(last.error)) else (t2, Ok(front.value + [last.value]))
  }

  function FindAll(t: Tables, ids: seq<string>): seq<Option<u32>> {
    seq(|ids|, i requires 0 <= i < |ids| => Find(t, ids[i]))
  }

  /** The write phase of a batch: entries the read phase resolved are taken as they are. */
  function Resolve(t: Tables, ids: seq<string>, known: seq<Option<u32>>): (Tables, Result<seq<u32>>)
    requires |known| == |ids|
  {
    if ids == [] then (t, Ok([]))
    else
      var n := |ids| - 1;
      var (t1, front) := Resolve(t, ids[..n], known[..n]);
      if front.Err? then (t1, front)
      else if known[n].Some? then (t1, Ok(front.value + [known[n].value]))
      else
        var (t2, last) := Assign(t1, ids[n]);
        if last.Err? then (t2, Err(last.error)) else (t2, Ok(front.value + [last.value]))
  }

  /** A failing batch aborts its transaction. */
  function WriteBatch(t: Tables, ids: seq<string>, known: seq<Option<u32>>): (Tables, Result<seq<u32>>)
    requires |known| == |ids|
  {
    var (t1, r) := Resolve(t, ids, known);
    if r.Err? then (t, r) else (t1, r)
  }

  function Remove(t: Tables, s: string): Tables {
    if s in t.fwd then Tables(t.fwd - {s}, t.rev - {t.fwd[s]}, t.next) else t
  }

  // ----- what a transaction keeps --------------------------------------------------------------

  /** `u` has everything `t` has, under the same ids, and a counter at least as high. */
  ghost predicate Extends(u: Tables, t: Tables) {
    && t.next <= u.next
    && (forall s :: s in t.fwd ==> s in u.fwd && u.fwd[s] == t.fwd[s])
    && (forall i :: i in u.rev && i !in t.rev ==> t.next <= i)
  }

  lemma AssignEffect(t: Tables, s: string)
    requires WellFormed(t)
    ensures var (u, r) := Assign(t, s);
      && WellFormed(u) && Extends(u, t)
      && (r.Err? <==> s !in t.fwd && t.next == U32_LIMIT) && (r.Err? ==> u == t)
      && (r.Ok? ==> s in u.fwd && u.fwd[s] == r.value && (s !in t.fwd ==> r.value == t.next))
  {
  }

  lemma RemoveKeepsWellFormed(t: Tables, s: string)
    requires WellFormed(t)
    ensures WellFormed(Remove(t, s)) && s !in Remove(t, s).fwd && Remove(t, s).next == t.next
    ensures forall x :: x in Remove(t, s).fwd <==> x in t.fwd && x != s
  {
  }

  lemma {:induction false} ResolveEffect(t: Tables, ids: seq<string>, known: seq<Option<u32>>)
    requires WellFormed(t) && |known| == |ids|
    ensures var (u, r) := Resolve(t, ids, known);
      && WellFormed(u) && Extends(u, t)
      && (r.Ok? ==> |r.value| == |ids| && forall i :: 0 <= i < |ids| ==> Answered(u, ids[i], known[i], r.value[i]))
  {
    if ids != [] {
      var n := |ids| - 1;
      ResolveEffect(t, ids[..n], known[..n]);
      var (t1, front) := Resolve(t, ids[..n], known[..n]);
      AssignEffect(t1, ids[n]);
    }
  }

  /** A batch answer is what the read phase found, or the id the string has afterwards. */
  ghost predicate Answered(u: Tables, s: string, known: Option<u32>, v: u32) {
    known == Some(v) || (known.None? && s in u.fwd && u.fwd[s] == v)
  }

  /** With nothing in between, the two phases do what single assignments in order do. */
  lemma {:induction false} BatchIsSequence(t: Tables, ids: seq<string>, known: seq<Option<u32>>)
    requires WellFormed(t) && |known| == |ids|
    requires forall i :: 0 <= i < |ids| ==> known[i] == Find(t, ids[i])
    ensures Resolve(t, ids, known) == AssignAll(t, ids)
    ensures Extends(Resolve(t, ids, known).0, t) && WellFormed(Resolve(t, ids, known).0)
  {
    ResolveEffect(t, ids, known);
    if ids != [] {
      var n := |ids| - 1;
      BatchIsSequence(t, ids[..n], known[..n]);
      ResolveEffect(t, ids[..n], known[..n]);
    }
  }

  /** When everything is known already, nothing is written. */
  lemma {:induction false} AllKnown(t: Tables, ids: seq<string>, known: seq<Option<u32>>)
    requires |known| == |ids| && forall i :: 0 <= i < |ids| ==> known[i].Some?
    ensures Resolve(t, ids, known) == (t, Ok(Values(known)))
  {
    if ids != [] {
      AllKnown(t, ids[..|ids| - 1], known[..|ids| - 1]);
      assert Values(known) == Values(known[..|ids| - 1]) + [known[|ids| - 1].value];
    }
  }

  function Values(known: seq<Option<u32>>): seq<u32>
    requires forall i :: 0 <= i < |known| ==> known[i].Some?
  {
    seq(|known|, i requires 0 <= i < |known| => known[i].value)
  }

  /** The strings of a batch that have no id yet, each once. */
  function NewStrings(t: Tables, ids: seq<string>): set<string> { set s | s in ids && s !in t.fwd }

  lemma {:induction false} PrefixIsWellFormed(t: Tables, ids: seq<string>)
    requires WellFormed(t)
    ensures WellFormed(AssignAll(t, ids).0)
  {
    if ids != [] {
      PrefixIsWellFormed(t, ids[..|ids| - 1]);
      AssignEffect(AssignAll(t, ids[..|ids| - 1]).0, ids[|ids| - 1]);
    }
  }

  /** Exactly the strings of `gained` have come in since `t`, each with an id of its own. */
  ghost predicate Gained(u: Tables, t: Tables, gained: set<string>) {
    u.next == t.next + |gained| && forall s :: s in u.fwd <==> s in t.fwd || s in gained
  }

  /** A batch runs out of ids exactly when it brings more new strings than there are ids left. */
  lemma {:induction false} BatchFailsWhenExhausted(t: Tables, ids: seq<string>)
    requires WellFormed(t)
    ensures AssignAll(t, ids).1.Err? <==> t.next + |NewStrings(t, ids)| > U32_LIMIT
    ensures AssignAll(t, ids).1.Ok? ==> Gained(AssignAll(t, ids).0, t, NewStrings(t, ids))
  {
    if ids != [] {
      var n := |ids| - 1;
      BatchFailsWhenExhausted(t, ids[..n]);
      OneMoreString(t, ids);
      var (t1, front) := AssignAll(t, ids[..n]);
      if front.Ok? {
        PrefixIsWellFormed(t, ids[..n]);
        OneMoreGained(t, t1, NewStrings(t, ids[..n]), ids[n]);
      }
    } else {
      assert NewStrings(t, ids) == {};
    }
  }

  lemma OneMoreGained(t: Tables, t1: Tables, before: set<string>, s: string)
    requires Gained(t1, t, before) && t1.next <= U32_LIMIT
    ensures var (u, r) := Assign(t1, s);
      var gained := if s in t.fwd then before else before + {s};
      (r.Err? <==> t.next + |gained| > U32_LIMIT) && (r.Ok? ==> Gained(u, t, gained))
  {
    if s in t1.fwd {
      assert s !in t.fwd ==> before + {s} == before;
    }
  }

  lemma OneMoreString(t: Tables, ids: seq<string>)
    requires ids != []
    ensures var before, now, s := NewStrings(t, ids[..|ids| - 1]), NewStrings(t, ids), ids[|ids| - 1];
      && now == (if s in t.fwd then before else before + {s})
      && |now| == |before| + if s in t.fwd || s in before then 0 else 1
  {
  }

  // ----- the object -----------------------------------------------------------------------------

  class Dict {
    var fwd: map<string, u64>
    var rev: map<u64, string>
    var next: u64

    ghost function State(): Tables
      reads this
    {
      Tables(fwd, rev, next)
    }

    ghost predicate Valid()
      reads this
    {
      WellFormed(State())
    }

    constructor ()
      ensures Valid() && State() == EMPTY
    {
      fwd, rev, next := map[], map[], 0;
    }

    method Lookup(s: string) returns (r: Option<u32>)
      requires Valid()
      ensures r == if s in fwd then Some(fwd[s]) else None
    {
      r := if s in fwd then Some(AsU32(fwd[s])) else None;
    }

    method ReverseLookup(id: u32) returns (r: Option<string>)
      requires Valid()
      ensures r.Some? <==> exists s :: s in fwd && fwd[s] == id
      ensures r.Some? ==> r.value in fwd && fwd[r.value] == id
    {
      r := if id in rev then Some(rev[id]) else None;
    }

    /** Fails exactly when the string is new and 2^32 ids have been given out; then nothing changes. */
    method AssignOrGet(s: string) returns (r: Result<u32>)
      requires Valid()
      modifies this
      ensures Valid() && Extends(State(), old(State()))
      ensures (State(), r) == Assign(old(State()), s)
      ensures r.Err? <==> s !in old(fwd) && old(next) == U32_LIMIT
      ensures r.Ok? ==> s in fwd && fwd[s] == r.value && rev[r.value] == s
    {
      AssignEffect(State(), s);
      if s in fwd {
        return Ok(AsU32(fwd[s]));
      }
      if next >= U32_LIMIT {
        return Err(Configuration);
      }
      var id: int := next;
      fwd := fwd[s := next];
      rev := rev[next := s];
      next := id + 1;
      r := Ok(id);
    }

    /** Frees the string, never the number: the counter stays. */
    method Delete(s: string) returns (r: Option<u32>)
      requires Valid()
      modifies this
      ensures Valid() && State() == Remove(old(State()), s) && next == old(next)
      ensures r == if s in old(fwd) then Some(old(fwd)[s]) else None
      ensures s !in fwd && (r.Some? ==> r.value !in rev)
    {
      RemoveKeepsWellFormed(State(), s);
      if s !in fwd {
        return None;
      }
      var id := fwd[s];
      fwd := fwd - {s};
      rev := rev - {id};
      r := Some(AsU32(id));
    }

    /** The read phase of a batch. */
    method ReadPhase(ids: seq<string>) returns (known: seq<Option<u32>>)
      ensures known == FindAll(State(), ids)
    {
      known := [];
      for i := 0 to |ids|
        invariant known == FindAll(State(), ids[..i])
      {
        known := known + [if ids[i] in fwd then Some(AsU32(fwd[ids[i]])) else None];
        assert ids[..i + 1] == ids[..i] + [ids[i]];
      }
      assert ids[..|ids|] == ids;
    }

    /** The write phase of a batch: one transaction on private copies, committed only when every string has its id. */
    method WritePhase(ids: seq<string>, known: seq<Option<u32>>) returns (r: Result<seq<u32>>)
      requires Valid() && |known| == |ids|
      modifies this
      ensures Valid() && (State(), r) == WriteBatch(old(State()), ids, known)
    {
      ResolveEffect(State(), ids, known);
      var f: map<string, u64>, v: map<u64, string>, n: u64 := fwd, rev, next;
      var result: seq<u32> := [];
      var i := 0;
      while i < |ids|
        invariant 0 <= i <= |ids|
        invariant Resolve(old(State()), ids[..i], known[..i]) == (Tables(f, v, n), Ok(result))
      {
        assert ids[..i + 1][..i] == ids[..i] && known[..i + 1][..i] == known[..i];
        if known[i].Some? {
          result := result + [known[i].value];
        } else if ids[i] in f {
          result := result + [AsU32(f[ids[i]])];
        } else {
          if n >= U32_LIMIT {
            FailureStays(old(State()), ids, known, i + 1);
            return Err(Configuration);
          }
          var id: int := n;
          f := f[ids[i] := n];
          v := v[n := ids[i]];
          n := id + 1;
          result := result + [id];
        }
        i := i + 1;
      }
      assert ids[..|ids|] == ids && known[..|known|] == known;
      fwd, rev, next := f, v, n;
      r := Ok(result);
    }

    /** A batch that succeeds gives the results and the tables of single assignments in order, repeated strings
        included; one that fails, because the single assignments would run out of ids, changes nothing. */
    method BatchAssignOrGet(ids: seq<string>) returns (r: Result<seq<u32>>)
      requires Valid()
      modifies this
      ensures Valid() && r == AssignAll(old(State()), ids).1
      ensures State() == if r.Ok? then AssignAll(old(State()), ids).0 else old(State())
    {
      var known := ReadPhase(ids);
      BatchIsSequence(State(), ids, known);
      if forall i | 0 <= i < |known| :: known[i].Some? {
        AllKnown(State(), ids, known);
        return Ok(Values(known));
      }
      r := WritePhase(ids, known);
    }
  }

  /** Once a prefix of a batch has failed, the whole batch has failed the same way. */
  lemma {:induction false} FailureStays(t: Tables, ids: seq<string>, known: seq<Option<u32>>, n: nat)
    requires |known| == |ids| && n <= |ids| && Resolve(t, ids[..n], known[..n]).1.Err?
    ensures Resolve(t, ids, known).1 == Resolve(t, ids[..n], known[..n]).1
    decreases |ids|
  {
    var m := |ids| - 1;
    if n == |ids| {
      assert ids[..n] == ids && known[..n] == known;
    } else {
      assert ids[..m][..n] == ids[..n] && known[..m][..n] == known[..n];
      FailureStays(t, ids[..m], known[..m], n);
    }
  }
}
