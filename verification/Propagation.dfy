/** Propagation of writes and removals from a period to its coarser ancestors. */
module Propagation {
  import opened Types
  import opened WriteBuffer

  /** The ancestors of `p` that take part in the event's rollup. */
  function RollupAncestors(config: EventConfig, p: Period): set<Period> {
    if config.rollup == Auto then set q | q in p.Ancestors() && q.Granularity() in config.chain else {}
  }

  function KeysOf(event: string, ps: set<Period>): set<Key> { set p | p in ps :: Key(event, p) }

  /** The keys of the rollup ancestors among the first `n` ancestors of `p`. */
  function PrefixKeys(config: EventConfig, p: Period, n: nat): set<Key>
    requires n <= |p.Ancestors()|
  {
    set q | q in p.Ancestors()[..n] && q.Granularity() in config.chain :: Key(config.name, q)
  }

  lemma PrefixKeysStep(config: EventConfig, p: Period, n: nat)
    requires n < |p.Ancestors()|
    ensures PrefixKeys(config, p, 0) == {}
    ensures var q := p.Ancestors()[n];
      PrefixKeys(config, p, n + 1) ==
      PrefixKeys(config, p, n) + if q.Granularity() in config.chain then {Key(config.name, q)} else {}
  {
    assert p.Ancestors()[..n + 1] == p.Ancestors()[..n] + [p.Ancestors()[n]];
  }

  lemma AllPrefixKeys(config: EventConfig, p: Period)
    requires config.rollup == Auto
    ensures PrefixKeys(config, p, |p.Ancestors()|) == KeysOf(config.name, RollupAncestors(config, p))
  {
    assert p.Ancestors()[..|p.Ancestors()|] == p.Ancestors();
  }

  method ApplyRollup(mem: MemPart, config: EventConfig, p: Period, bits: set<u32>)
    modifies mem`bitmaps, mem`sizeBytes
    ensures mem.bitmaps == OrAll(old(mem.bitmaps), KeysOf(config.name, RollupAncestors(config, p)), bits)
    ensures Grown(old(mem.sizeBytes), mem.sizeBytes, old(mem.bitmaps), mem.bitmaps, mem.sizeOf)
  {
    NoKeys(mem.bitmaps, bits);
    Unmoved(mem.sizeBytes);
    if config.rollup != Auto {
      assert KeysOf(config.name, RollupAncestors(config, p)) == {};
      return;
    }
    var ancestors := p.Ancestors();
    for i := 0 to |ancestors|
      invariant mem.bitmaps == OrAll(old(mem.bitmaps), PrefixKeys(config, p, i), bits)
      invariant Grown(old(mem.sizeBytes), mem.sizeBytes, old(mem.bitmaps), mem.bitmaps, mem.sizeOf)
    {
      var q := ancestors[i];
      PrefixKeysStep(config, p, i);
      if q.Granularity() in config.chain {
        OrAllTwice(old(mem.bitmaps), PrefixKeys(config, p, i), {Key(config.name, q)}, bits);
        ghost var size, before := mem.sizeBytes, mem.bitmaps;
        mem.OrBitmap(Key(config.name, q), bits);
        GrownTwice(old(mem.sizeBytes), size, mem.sizeBytes, old(mem.bitmaps), before, mem.bitmaps, mem.sizeOf);
      }
    }
    AllPrefixKeys(config, p);
  }

  method ApplyRollupDelta(mem: MemPart, config: EventConfig, p: Period, bits: set<u32>)
    modifies mem`deltas, mem`sizeBytes
    ensures mem.deltas == OrAll(old(mem.deltas), KeysOf(config.name, RollupAncestors(config, p)), bits)
    ensures Grown(old(mem.sizeBytes), mem.sizeBytes, old(mem.deltas), mem.deltas, mem.sizeOf)
  {
    NoKeys(mem.deltas, bits);
    Unmoved(mem.sizeBytes);
    if config.rollup != Auto {
      assert KeysOf(config.name, RollupAncestors(config, p)) == {};
      return;
    }
    var ancestors := p.Ancestors();
    for i := 0 to |ancestors|
      invariant mem.deltas == OrAll(old(mem.deltas), PrefixKeys(config, p, i), bits)
      invariant Grown(old(mem.sizeBytes), mem.sizeBytes, old(mem.deltas), mem.deltas, mem.sizeOf)
    {
      var q := ancestors[i];
      PrefixKeysStep(config, p, i);
      if q.Granularity() in config.chain {
        OrAllTwice(old(mem.deltas), PrefixKeys(config, p, i), {Key(config.name, q)}, bits);
        ghost var size, before := mem.sizeBytes, mem.deltas;
        mem.OrDelta(Key(config.name, q), bits);
        GrownTwice(old(mem.sizeBytes), size, mem.sizeBytes, old(mem.deltas), before, mem.deltas, mem.sizeOf);
      }
    }
    AllPrefixKeys(config, p);
  }

  method ClearRollupDelta(mem: MemPart, config: EventConfig, p: Period, bits: set<u32>)
    modifies mem`deltas, mem`sizeBytes
    ensures mem.deltas == ClearAll(old(mem.deltas), KeysOf(config.name, RollupAncestors(config, p)), bits)
    ensures Grown(old(mem.sizeBytes), mem.sizeBytes, old(mem.deltas), mem.deltas, mem.sizeOf)
  {
    NoKeys(mem.deltas, bits);
    Unmoved(mem.sizeBytes);
    if config.rollup != Auto {
      assert KeysOf(config.name, RollupAncestors(config, p)) == {};
      return;
    }
    var ancestors := p.Ancestors();
    for i := 0 to |ancestors|
      invariant mem.deltas == ClearAll(old(mem.deltas), PrefixKeys(config, p, i), bits)
      invariant Grown(old(mem.sizeBytes), mem.sizeBytes, old(mem.deltas), mem.deltas, mem.sizeOf)
    {
      var q := ancestors[i];
      PrefixKeysStep(config, p, i);
      if q.Granularity() in config.chain {
        ClearAllTwice(old(mem.deltas), PrefixKeys(config, p, i), {Key(config.name, q)}, bits);
        ghost var size, before := mem.sizeBytes, mem.deltas;
        mem.ClearDeltaBits(Key(config.name, q), bits);
        GrownTwice(old(mem.sizeBytes), size, mem.sizeBytes, old(mem.deltas), before, mem.deltas, mem.sizeOf);
      }
    }
    AllPrefixKeys(config, p);
  }

  /** The keys a write at `p` reaches: its own and those of its rollup ancestors. */
  function Reach(config: EventConfig, p: Period): set<Key> {
    {Key(config.name, p)} + KeysOf(config.name, RollupAncestors(config, p))
  }

  /** A single put: additions at the period and its ancestors, pending removals cancelled there. */
  method PutAt(mem: MemPart, config: EventConfig, p: Period, bits: set<u32>)
    modifies mem
    ensures mem.State() == PutBuffer(old(mem.State()), Reach(config, p), bits, mem.sizeOf)
  {
    var own := Key(config.name, p);
    ghost var ancestors := KeysOf(config.name, RollupAncestors(config, p));
    ghost var b := mem.State();
    mem.OrBitmap(own, bits);
    ghost var b1 := mem.State();
    ApplyRollup(mem, config, p, bits);
    ghost var b2 := mem.State();
    GrownTwice(b.size, b1.size, b2.size, b.bitmaps, b1.bitmaps, b2.bitmaps, mem.sizeOf);
    OrAllTwice(b.bitmaps, {own}, ancestors, bits);
    mem.ClearDeltaBits(own, bits);
    ghost var b3 := mem.State();
    ClearRollupDelta(mem, config, p, bits);
    GrownTwice(b2.size, b3.size, mem.sizeBytes, b.deltas, b3.deltas, mem.deltas, mem.sizeOf);
    ClearAllTwice(b.deltas, {own}, ancestors, bits);
    RefilledInHalves(b, b2.size, mem.State(), Growth(mem.bitmaps, b.bitmaps, mem.sizeOf({}), mem.sizeOf), mem.sizeOf);
  }

  /** A single removal: pending removals at the period and its ancestors. */
  method RemoveAt(mem: MemPart, config: EventConfig, p: Period, bits: set<u32>)
    modifies mem
    ensures mem.State() == RemoveBuffer(old(mem.State()), Reach(config, p), bits, mem.sizeOf)
  {
    var own := Key(config.name, p);
    ghost var b := mem.State();
    mem.OrDelta(own, bits);
    ghost var b1 := mem.State();
    ApplyRollupDelta(mem, config, p, bits);
    GrownTwice(b.size, b1.size, mem.sizeBytes, b.deltas, b1.deltas, mem.deltas, mem.sizeOf);
    OrAllTwice(b.deltas, {own}, KeysOf(config.name, RollupAncestors(config, p)), bits);
    Unmoved(b.size);
    RefilledInHalves(b, b.size, mem.State(), 0, mem.sizeOf);
  }

  /** Every rollup ancestor of any of the given periods. */
  ghost function AllAncestors(config: EventConfig, ps: seq<Period>): set<Period> {
    set p, q | p in ps && q in RollupAncestors(config, p) :: q
  }

  lemma AllAncestorsStep(config: EventConfig, ps: seq<Period>, n: nat)
    requires n < |ps|
    ensures AllAncestors(config, ps[..n + 1]) == AllAncestors(config, ps[..n]) + RollupAncestors(config, ps[n])
  {
  }

  /** Collects each distinct rollup ancestor of the given periods once. */
  method DistinctRollupAncestors(config: EventConfig, ps: seq<Period>) returns (distinct: set<Period>)
    ensures distinct == AllAncestors(config, ps)
  {
    distinct := {};
    if config.rollup != Auto {
      return;
    }
    for i := 0 to |ps|
      invariant distinct == AllAncestors(config, ps[..i])
    {
      var ancestors := ps[i].Ancestors();
      for j := 0 to |ancestors|
        invariant forall q :: q in distinct <==>
          q in AllAncestors(config, ps[..i]) || (q in ancestors[..j] && q.Granularity() in config.chain)
      {
        if ancestors[j].Granularity() in config.chain {
          distinct := distinct + {ancestors[j]};
        }
      }
      assert ancestors[..|ancestors|] == ancestors;
      AllAncestorsStep(config, ps, i);
    }
    assert ps[..|ps|] == ps;
  }

  // ----- range writes -------------------------------------------------------------------

  /** The keys a range write over `ps` reaches. */
  ghost function RangeReach(config: EventConfig, ps: seq<Period>): set<Key> {
    set p, k | p in ps && k in Reach(config, p) :: k
  }

  function BucketKeys(event: string, ps: seq<Period>): set<Key> { set p | p in ps :: Key(event, p) }

  lemma BucketKeysStep(event: string, ps: seq<Period>, n: nat)
    requires n < |ps|
    ensures BucketKeys(event, ps[..n + 1]) == BucketKeys(event, ps[..n]) + {Key(event, ps[n])}
  {
    assert ps[..n + 1] == ps[..n] + [ps[n]];
  }

  /** Buckets and distinct ancestors together are exactly what the buckets reach one by one. */
  lemma RangeReachSplits(config: EventConfig, ps: seq<Period>)
    ensures RangeReach(config, ps) == BucketKeys(config.name, ps) + KeysOf(config.name, AllAncestors(config, ps))
  {
    forall k
      ensures k in RangeReach(config, ps) <==>
        k in BucketKeys(config.name, ps) + KeysOf(config.name, AllAncestors(config, ps))
    {
      if k in KeysOf(config.name, AllAncestors(config, ps)) {
        var p :| p in ps && k.period in RollupAncestors(config, p);
        assert k in Reach(config, p);
      }
      if k in BucketKeys(config.name, ps) {
        assert k in Reach(config, k.period);
      }
    }
  }

  /** United into every bucket, sharing one allocation among the vacant ones. */
  method OrBuckets(mem: MemPart, event: string, ps: seq<Period>, bits: set<u32>)
    modifies mem`bitmaps, mem`sizeBytes
    ensures mem.bitmaps == OrAll(old(mem.bitmaps), BucketKeys(event, ps), bits)
    ensures Moved(old(mem.sizeBytes), mem.sizeBytes, Growth(mem.bitmaps, old(mem.bitmaps), 0, mem.sizeOf))
  {
    NoKeys(mem.bitmaps, bits);
    Unmoved(mem.sizeBytes);
    for i := 0 to |ps|
      invariant mem.bitmaps == OrAll(old(mem.bitmaps), BucketKeys(event, ps[..i]), bits)
      invariant Moved(old(mem.sizeBytes), mem.sizeBytes, Growth(mem.bitmaps, old(mem.bitmaps), 0, mem.sizeOf))
    {
      ghost var size, before := mem.sizeBytes, mem.bitmaps;
      BucketKeysStep(event, ps, i);
      OrAllTwice(old(mem.bitmaps), BucketKeys(event, ps[..i]), {Key(event, ps[i])}, bits);
      mem.OrBitmapShared(Key(event, ps[i]), bits);
      GrowthTwice(old(mem.sizeBytes), size, mem.sizeBytes, old(mem.bitmaps), before, mem.bitmaps, 0, mem.sizeOf);
    }
    assert ps[..|ps|] == ps;
  }

  /** United once into every distinct ancestor. */
  method OrAncestors(mem: MemPart, event: string, ancestors: set<Period>, bits: set<u32>)
    modifies mem`bitmaps, mem`sizeBytes
    ensures mem.bitmaps == OrAll(old(mem.bitmaps), KeysOf(event, ancestors), bits)
    ensures Grown(old(mem.sizeBytes), mem.sizeBytes, old(mem.bitmaps), mem.bitmaps, mem.sizeOf)
  {
    NoKeys(mem.bitmaps, bits);
    Unmoved(mem.sizeBytes);
    assert KeysOf(event, {}) == {};
    var todo := ancestors;
    while todo != {}
      invariant todo <= ancestors
      invariant mem.bitmaps == OrAll(old(mem.bitmaps), KeysOf(event, ancestors - todo), bits)
      invariant Grown(old(mem.sizeBytes), mem.sizeBytes, old(mem.bitmaps), mem.bitmaps, mem.sizeOf)
      decreases todo
    {
      var q :| q in todo;
      ghost var size, before := mem.sizeBytes, mem.bitmaps;
      OneMoreAncestor(event, ancestors, todo, q);
      OrAllTwice(old(mem.bitmaps), KeysOf(event, ancestors - todo), {Key(event, q)}, bits);
      mem.OrBitmap(Key(event, q), bits);
      GrownTwice(old(mem.sizeBytes), size, mem.sizeBytes, old(mem.bitmaps), before, mem.bitmaps, mem.sizeOf);
      todo := todo - {q};
    }
    assert ancestors - todo == ancestors;
  }

  lemma OneMoreAncestor(event: string, ancestors: set<Period>, todo: set<Period>, q: Period)
    requires q in todo && todo <= ancestors
    ensures KeysOf(event, ancestors - (todo - {q})) == KeysOf(event, ancestors - todo) + {Key(event, q)}
  {
    assert ancestors - (todo - {q}) == ancestors - todo + {q};
  }

  /** Pending removals of `bits` cancelled in every bucket, then in every distinct ancestor. */
  method ClearEverywhere(mem: MemPart, event: string, ps: seq<Period>, ancestors: set<Period>, bits: set<u32>)
    modifies mem`deltas, mem`sizeBytes
    ensures mem.deltas == ClearAll(old(mem.deltas), BucketKeys(event, ps) + KeysOf(event, ancestors), bits)
    ensures Grown(old(mem.sizeBytes), mem.sizeBytes, old(mem.deltas), mem.deltas, mem.sizeOf)
  {
    NoKeys(mem.deltas, bits);
    Unmoved(mem.sizeBytes);
    for i := 0 to |ps|
      invariant mem.deltas == ClearAll(old(mem.deltas), BucketKeys(event, ps[..i]), bits)
      invariant Grown(old(mem.sizeBytes), mem.sizeBytes, old(mem.deltas), mem.deltas, mem.sizeOf)
    {
      ghost var size, before := mem.sizeBytes, mem.deltas;
      BucketKeysStep(event, ps, i);
      ClearAllTwice(old(mem.deltas), BucketKeys(event, ps[..i]), {Key(event, ps[i])}, bits);
      mem.ClearDeltaBits(Key(event, ps[i]), bits);
      GrownTwice(old(mem.sizeBytes), size, mem.sizeBytes, old(mem.deltas), before, mem.deltas, mem.sizeOf);
    }
    assert ps[..|ps|] == ps;
    assert BucketKeys(event, ps) + KeysOf(event, {}) == BucketKeys(event, ps);
    var todo := ancestors;
    while todo != {}
      invariant todo <= ancestors
      invariant mem.deltas == ClearAll(old(mem.deltas), BucketKeys(event, ps) + KeysOf(event, ancestors - todo), bits)
      invariant Grown(old(mem.sizeBytes), mem.sizeBytes, old(mem.deltas), mem.deltas, mem.sizeOf)
      decreases todo
    {
      var q :| q in todo;
      ghost var size, before := mem.sizeBytes, mem.deltas;
      ghost var sofar := BucketKeys(event, ps) + KeysOf(event, ancestors - todo);
      OneMoreAncestor(event, ancestors, todo, q);
      assert BucketKeys(event, ps) + KeysOf(event, ancestors - (todo - {q})) == sofar + {Key(event, q)};
      ClearAllTwice(old(mem.deltas), sofar, {Key(event, q)}, bits);
      mem.ClearDeltaBits(Key(event, q), bits);
      GrownTwice(old(mem.sizeBytes), size, mem.sizeBytes, old(mem.deltas), before, mem.deltas, mem.sizeOf);
      todo := todo - {q};
    }
    assert ancestors - todo == ancestors;
  }

  /** Pending removals of `bits` in every bucket, then in every distinct ancestor. */
  method RemoveEverywhere(mem: MemPart, event: string, ps: seq<Period>, ancestors: set<Period>, bits: set<u32>)
    modifies mem`deltas, mem`sizeBytes
    ensures mem.deltas == OrAll(old(mem.deltas), BucketKeys(event, ps) + KeysOf(event, ancestors), bits)
    ensures Grown(old(mem.sizeBytes), mem.sizeBytes, old(mem.deltas), mem.deltas, mem.sizeOf)
  {
    NoKeys(mem.deltas, bits);
    Unmoved(mem.sizeBytes);
    for i := 0 to |ps|
      invariant mem.deltas == OrAll(old(mem.deltas), BucketKeys(event, ps[..i]), bits)
      invariant Grown(old(mem.sizeBytes), mem.sizeBytes, old(mem.deltas), mem.deltas, mem.sizeOf)
    {
      ghost var size, before := mem.sizeBytes, mem.deltas;
      BucketKeysStep(event, ps, i);
      OrAllTwice(old(mem.deltas), BucketKeys(event, ps[..i]), {Key(event, ps[i])}, bits);
      mem.OrDelta(Key(event, ps[i]), bits);
      GrownTwice(old(mem.sizeBytes), size, mem.sizeBytes, old(mem.deltas), before, mem.deltas, mem.sizeOf);
    }
    assert ps[..|ps|] == ps;
    assert BucketKeys(event, ps) + KeysOf(event, {}) == BucketKeys(event, ps);
    var todo := ancestors;
    while todo != {}
      invariant todo <= ancestors
      invariant mem.deltas == OrAll(old(mem.deltas), BucketKeys(event, ps) + KeysOf(event, ancestors - todo), bits)
      invariant Grown(old(mem.sizeBytes), mem.sizeBytes, old(mem.deltas), mem.deltas, mem.sizeOf)
      decreases todo
    {
      var q :| q in todo;
      ghost var size, before := mem.sizeBytes, mem.deltas;
      ghost var sofar := BucketKeys(event, ps) + KeysOf(event, ancestors - todo);
      OneMoreAncestor(event, ancestors, todo, q);
      assert BucketKeys(event, ps) + KeysOf(event, ancestors - (todo - {q})) == sofar + {Key(event, q)};
      OrAllTwice(old(mem.deltas), sofar, {Key(event, q)}, bits);
      mem.OrDelta(Key(event, q), bits);
      GrownTwice(old(mem.sizeBytes), size, mem.sizeBytes, old(mem.deltas), before, mem.deltas, mem.sizeOf);
      todo := todo - {q};
    }
    assert ancestors - todo == ancestors;
  }

  method PutRangeOver(mem: MemPart, event: string, ps: seq<Period>, ancestors: set<Period>, bits: set<u32>)
    modifies mem
    ensures mem.State() ==
            PutSharedBuffer(old(mem.State()), BucketKeys(event, ps), KeysOf(event, ancestors), bits, mem.sizeOf)
  {
    ghost var b := mem.State();
    OrBuckets(mem, event, ps, bits);
    ghost var b1 := mem.State();
    OrAncestors(mem, event, ancestors, bits);
    ghost var b2 := mem.State();
    OrAllTwice(b.bitmaps, BucketKeys(event, ps), KeysOf(event, ancestors), bits);
    ghost var bucketed := Growth(b1.bitmaps, b.bitmaps, 0, mem.sizeOf);
    ghost var propagated := Growth(b2.bitmaps, b1.bitmaps, mem.sizeOf({}), mem.sizeOf);
    MovedTwice(b.size, b1.size, b2.size, bucketed, propagated);
    ClearEverywhere(mem, event, ps, ancestors, bits);
    RefilledInHalves(b, b2.size, mem.State(), bucketed + propagated, mem.sizeOf);
  }

  /** A range put touches each bucket and each distinct ancestor once. */
  method PutRangeAt(mem: MemPart, config: EventConfig, ps: seq<Period>, bits: set<u32>)
    modifies mem
    ensures mem.State() == PutRangeBuffer(old(mem.State()), config, ps, bits, mem.sizeOf)
  {
    var ancestors := DistinctRollupAncestors(config, ps);
    PutRangeOver(mem, config.name, ps, ancestors, bits);
  }

  /** The buffer after a range put. */
  ghost function PutRangeBuffer(b: Buffer, config: EventConfig, ps: seq<Period>, bits: set<u32>, sizeOf: Sizes)
    : Buffer
  {
    PutSharedBuffer(b, BucketKeys(config.name, ps), KeysOf(config.name, AllAncestors(config, ps)), bits, sizeOf)
  }

  method RemoveRangeAt(mem: MemPart, config: EventConfig, ps: seq<Period>, bits: set<u32>)
    modifies mem
    ensures mem.State() == RemoveBuffer(old(mem.State()), RangeReach(config, ps), bits, mem.sizeOf)
  {
    var ancestors := DistinctRollupAncestors(config, ps);
    RangeReachSplits(config, ps);
    RemoveEverywhere(mem, config.name, ps, ancestors, bits);
    Unmoved(old(mem.sizeBytes));
    RefilledInHalves(old(mem.State()), old(mem.sizeBytes), mem.State(), 0, mem.sizeOf);
  }

  // ----- how far a write reaches --------------------------------------------------------

  /** A period and its ancestors are four at most. */
  const MAX_REACH := 4

  /** The rollup chain of a period, itself included and whatever the configuration. */
  function Chain(p: Period): set<Period> {
    match p
    case Static => {p}
    case Hour(y, m, d, _) => {p, Day(y, m, d), Month(y, m), Year(y)}
    case Day(y, m, _) => {p, Month(y, m), Year(y)}
    case Month(y, _) => {p, Year(y)}
    case Year(_) => {p}
  }

  lemma {:induction false} AncestorsInChain(p: Period)
    ensures forall q :: q in p.Ancestors() ==> q in Chain(p)
    decreases p.Height()
  {
    if p.Parent().Some? {
      AncestorsInChain(p.Parent().value);
    }
  }

  lemma ReachIsSmall(config: EventConfig, p: Period)
    ensures |Reach(config, p)| <= 4
  {
    AncestorsInChain(p);
    var chain := Chain(p);
    KeysOfFew(config.name, chain);
    assert Reach(config, p) <= KeysOf(config.name, chain);
    Fewer(Reach(config, p), KeysOf(config.name, chain));
  }

  lemma {:induction false} KeysOfFew(event: string, ps: set<Period>)
    ensures |KeysOf(event, ps)| == |ps|
    decreases ps
  {
    if ps == {} {
      assert KeysOf(event, ps) == {};
    } else {
      var p :| p in ps;
      KeysOfFew(event, ps - {p});
      assert KeysOf(event, ps) == KeysOf(event, ps - {p}) + {Key(event, p)};
    }
  }

  lemma RangeReachGrows(config: EventConfig, ps: seq<Period>, n: nat)
    requires n < |ps|
    ensures RangeReach(config, ps[..n + 1]) == RangeReach(config, ps[..n]) + Reach(config, ps[n])
  {
  }

  lemma NoReach(config: EventConfig, ps: seq<Period>)
    ensures RangeReach(config, ps[..0]) == {}
  {
  }

  lemma SmallUnion(whole: set<Key>, before: set<Key>, here: set<Key>, n: int)
    requires whole == before + here && |before| <= 4 * n && |here| <= 4
    ensures |whole| <= 4 * (n + 1)
  {
  }

  lemma {:induction false} RangeReachIsSmall(config: EventConfig, ps: seq<Period>, n: nat)
    requires n <= |ps|
    ensures |RangeReach(config, ps[..n])| <= 4 * n
  {
    if n == 0 {
      NoReach(config, ps);
    } else {
      RangeReachIsSmall(config, ps, n - 1);
      ReachIsSmall(config, ps[n - 1]);
      RangeReachGrows(config, ps, n - 1);
      SmallUnion(RangeReach(config, ps[..n]), RangeReach(config, ps[..n - 1]), Reach(config, ps[n - 1]), n - 1);
    }
  }
}
