/** Folding data and delta parts: the ordered fold the store computes, and the
    order-free statement of which bits survive it. */
module Merge {
  import opened Types
  import opened Sorting

  /** One part as the fold sees it. */
  datatype Step = Step(id: u64, isDelta: bool, bits: set<u32>)

  /** A bit survives when some data part holds it and no later delta does. */
  ghost predicate Survives(steps: set<Step>, x: u32) {
    exists s :: s in steps && !s.isDelta && x in s.bits && NotErasedAfter(steps, s.id, x)
  }

  ghost predicate NotErasedAfter(steps: set<Step>, id: u64, x: u32) {
    forall t :: t in steps && t.isDelta && id < t.id ==> x !in t.bits
  }

  function AllBits(steps: set<Step>): set<u32> {
    set s, x | s in steps && x in s.bits :: x
  }

  ghost function Visible(steps: set<Step>): set<u32> {
    set x | x in AllBits(steps) && Survives(steps, x)
  }

  /** A newest data part adds its bits. */
  lemma NewestDataAdds(steps: set<Step>, s: Step)
    requires !s.isDelta && forall t :: t in steps ==> t.id < s.id
    ensures Visible(steps + {s}) == Visible(steps) + s.bits
  {
  }

  /** A newest delta erases its bits. */
  lemma NewestDeltaErases(steps: set<Step>, s: Step)
    requires s.isDelta && forall t :: t in steps ==> t.id < s.id
    ensures Visible(steps + {s}) == Visible(steps) - s.bits
  {
  }

  ghost predicate DistinctIds(s: seq<Step>) {
    forall i, j :: 0 <= i < j < |s| ==> s[i].id != s[j].id
  }

  ghost function StepSet(s: seq<Step>): set<Step> { set x | x in s }

  ghost predicate StrictlyAscending(s: seq<Step>) { forall i, j :: 0 <= i < j < |s| ==> s[i].id < s[j].id }

  lemma FoldStep(ordered: seq<Step>, i: nat)
    requires StrictlyAscending(ordered) && i < |ordered|
    ensures var s, sofar := ordered[i], Visible(StepSet(ordered[..i]));
      Visible(StepSet(ordered[..i + 1])) == if s.isDelta then sofar - s.bits else sofar + s.bits
  {
    var s := ordered[i];
    assert ordered[..i + 1] == ordered[..i] + [s];
    assert StepSet(ordered[..i + 1]) == StepSet(ordered[..i]) + {s};
    if s.isDelta {
      NewestDeltaErases(StepSet(ordered[..i]), s);
    } else {
      NewestDataAdds(StepSet(ordered[..i]), s);
    }
  }

  /** Folds parts in ascending id order: data parts are united in, deltas are subtracted. */
  method MergeParts(parts: seq<Step>) returns (merged: set<u32>)
    requires DistinctIds(parts)
    ensures merged == Visible(StepSet(parts))
  {
    var ordered := SortBy(parts, (s: Step) => s.id);
    SameMembers(parts, ordered);
    SortedDistinct(parts, ordered);
    merged := {};
    for i := 0 to |ordered|
      invariant merged == Visible(StepSet(ordered[..i]))
    {
      FoldStep(ordered, i);
      if ordered[i].isDelta {
        merged := merged - ordered[i].bits;
      } else {
        merged := merged + ordered[i].bits;
      }
    }
    assert ordered[..|ordered|] == ordered;
    assert StepSet(ordered) == StepSet(parts);
  }

  lemma SortedDistinct(parts: seq<Step>, ordered: seq<Step>)
    requires DistinctIds(parts) && multiset(ordered) == multiset(parts)
    requires SortedBy(ordered, (s: Step) => s.id)
    ensures StrictlyAscending(ordered)
  {
    SameMembers(parts, ordered);
    forall i, j | 0 <= i < j < |ordered|
      ensures ordered[i].id < ordered[j].id
    {
      var key := (s: Step) => s.id;
      assert key(ordered[i]) <= key(ordered[j]);
      if ordered[i].id == ordered[j].id {
        assert ordered[i] in parts && ordered[j] in parts;
        var p :| 0 <= p < |parts| && parts[p] == ordered[i];
        var q :| 0 <= q < |parts| && parts[q] == ordered[j];
        assert p == q;
        Repeated(ordered, i, j);
        Unrepeated(parts, p);
        assert false;
      }
    }
  }

  lemma Repeated<T>(s: seq<T>, i: nat, j: nat)
    requires i < j < |s| && s[i] == s[j]
    ensures multiset(s)[s[i]] >= 2
  {
    assert s == s[..j] + [s[j]] + s[j + 1..];
    assert s[i] == s[..j][i];
  }

  lemma Unrepeated(s: seq<Step>, i: nat)
    requires DistinctIds(s) && i < |s|
    ensures multiset(s)[s[i]] == 1
  {
    var x := s[i];
    assert s == s[..i] + [x] + s[i + 1..];
    assert x !in s[..i] && x !in s[i + 1..];
  }

  /** A key with several data parts, or any delta, is worth compacting. */
  predicate IsEligible(dataParts: nat, deltaParts: nat) { dataParts > 1 || deltaParts > 0 }
}
