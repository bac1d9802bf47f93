/** Set expressions over stored sets, with the short cuts the store takes. */
module Query {
  import opened Types
  import opened WriteBuffer
  import opened Durability
  import opened Store

  datatype SetExpr =
    | Ref(event: string, period: Period)
    | And(a: SetExpr, b: SetExpr)
    | Or(a: SetExpr, b: SetExpr)
    | Diff(a: SetExpr, b: SetExpr)

  /** The plain set meaning, with no short cut; every reference reads what `Get` reads. */
  ghost function Meaning(store: InoxSet, e: SetExpr): set<u32>
    reads store.mem, store.disk
  {
    match e
    case Ref(event, period) => Shown(store.disk.state, store.mem.bitmaps, store.mem.deltas, Key(event, period))
    case And(a, b) => Meaning(store, a) * Meaning(store, b)
    case Or(a, b) => Meaning(store, a) + Meaning(store, b)
    case Diff(a, b) => Meaning(store, a) - Meaning(store, b)
  }

  /** Whether the expression holds of one id: a reference does when a read of its key returns the id. */
  ghost predicate HoldsOf(store: InoxSet, e: SetExpr, id: u32)
    reads store.mem, store.disk
  {
    match e
    case Ref(event, period) => Row(event, period, id) in store.Live()
    case And(a, b) => HoldsOf(store, a, id) && HoldsOf(store, b, id)
    case Or(a, b) => HoldsOf(store, a, id) || HoldsOf(store, b, id)
    case Diff(a, b) => HoldsOf(store, a, id) && !HoldsOf(store, b, id)
  }

  lemma {:induction false} MeaningById(store: InoxSet, e: SetExpr, id: u32)
    ensures id in Meaning(store, e) <==> HoldsOf(store, e, id)
  {
    if !e.Ref? {
      MeaningById(store, e.a, id);
      MeaningById(store, e.b, id);
    }
  }

  /** The set has exactly the ids the expression holds of. */
  ghost predicate IsAnswer(store: InoxSet, e: SetExpr, s: set<u32>)
    reads store.mem, store.disk
  {
    forall id: u32 :: id in s <==> HoldsOf(store, e, id)
  }

  /** There is one such set, and the plain meaning is it. */
  lemma OneAnswer(store: InoxSet, e: SetExpr)
    ensures forall s :: IsAnswer(store, e, s) <==> s == Meaning(store, e)
  {
    forall id: u32
      ensures id in Meaning(store, e) <==> HoldsOf(store, e, id)
    {
      MeaningById(store, e, id);
    }
  }

  /** Conjunction and difference part the left operand between them; conjunction and union count both operands. */
  lemma OperandLaws(store: InoxSet, a: SetExpr, b: SetExpr)
    ensures var both, either, rest := Meaning(store, And(a, b)), Meaning(store, Or(a, b)), Meaning(store, Diff(a, b));
      var left, right := Meaning(store, a), Meaning(store, b);
      && rest <= left && rest !! right && both + rest == left && both !! rest && both <= right
      && left <= either && right <= either && |either| + |both| == |left| + |right|
  {
    hide InoxSet.Valid, Shown;
    BothAndEither(Meaning(store, a), Meaning(store, b));
  }

  lemma BothAndEither(a: set<u32>, b: set<u32>)
    ensures a * b + (a - b) == a && |a + b| + |a * b| == |a| + |b|
  {
    assert a + b == a + (b - a) && b == a * b + (b - a);
  }

  /** A cached set overlaid with the buffer, or a full read when the key is not cached. */
  method GetShared(store: InoxSet, event: string, period: Period) returns (r: Result<set<u32>>)
    requires store.Valid()
    ensures r == if store.closed then Err(Closed) else Ok(Meaning(store, Ref(event, period)))
  {
    if store.closed {
      return Err(Closed);
    }
    var k := Key(event, period);
    if k in store.cache {
      var bits := store.cache[k];
      assert bits == Committed(store.disk.state, k);
      if k in store.mem.bitmaps {
        bits := bits + store.mem.bitmaps[k];
      }
      assert bits == Committed(store.disk.state, k) + Lookup(store.mem.bitmaps, k);
      if k in store.mem.deltas {
        bits := bits - store.mem.deltas[k];
      }
      assert bits == Meaning(store, Ref(event, period));
      return Ok(bits);
    }
    r := store.Get(event, period);
  }

  /** An empty left side settles a conjunction and a difference without reading the right side. */
  method Query(store: InoxSet, e: SetExpr) returns (r: Result<set<u32>>)
    requires store.Valid()
    ensures r == if store.closed then Err(Closed) else Ok(Meaning(store, e))
    ensures r.Ok? ==> IsAnswer(store, e, r.value)
    decreases e
  {
    hide IsAnswer;
    OneAnswer(store, e);
    match e
    case Ref(event, period) =>
      r := store.Get(event, period);
    case And(a, b) =>
      var left := Query(store, a);
      if left.Err? {
        return left;
      }
      if left.value == {} {
        assert {} * Meaning(store, b) == {};
        return left;
      }
      var right := Query(store, b);
      r := Ok(left.value * right.value);
    case Or(a, b) =>
      var left := Query(store, a);
      if left.Err? {
        return left;
      }
      var right := Query(store, b);
      r := Ok(left.value + right.value);
    case Diff(a, b) =>
      var left := Query(store, a);
      if left.Err? {
        return left;
      }
      if left.value == {} {
        assert {} - Meaning(store, b) == {};
        return left;
      }
      var right := Query(store, b);
      r := Ok(left.value - right.value);
  }

  /** The size of the plain meaning, also where two references are counted without building their result. */
  method QueryCardinality(store: InoxSet, e: SetExpr) returns (r: Result<nat>)
    requires store.Valid()
    ensures r == if store.closed then Err(Closed) else Ok(|Meaning(store, e)|)
    ensures r.Ok? ==> forall s :: IsAnswer(store, e, s) ==> r.value == |s|
  {
    hide IsAnswer, InoxSet.Valid, Shown, IntersectionLen, UnionLen;
    OneAnswer(store, e);
    if (e.And? || e.Or?) && e.a.Ref? && e.b.Ref? {
      var left := GetShared(store, e.a.event, e.a.period);
      if left.Err? {
        return Err(left.error);
      }
      var right := GetShared(store, e.b.event, e.b.period);
      PairCounts(left.value, right.value);
      return Ok(if e.And? then IntersectionLen(left.value, right.value) else UnionLen(left.value, right.value));
    }
    var bits := Query(store, e);
    r := if bits.Err? then Err(bits.error) else Ok(|bits.value|);
  }

  function IntersectionLen(a: set<u32>, b: set<u32>): nat { |a * b| }

  /** The union is counted without being built. */
  function UnionLen(a: set<u32>, b: set<u32>): (n: nat)
    ensures n == |a + b|
  {
    |a| + |b| - IntersectionLen(a, b)
  }

  lemma PairCounts(a: set<u32>, b: set<u32>)
    ensures IntersectionLen(a, b) == |a * b| && UnionLen(a, b) == |a + b|
  {
  }
}
