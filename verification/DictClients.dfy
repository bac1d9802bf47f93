/** Clients that share one dictionary: every transaction is atomic, and other clients may
    act between the read phase and the write phase of a call. */
module DictClients {
  import opened Types
  import opened Dictionary

  type Client = nat

  /** A call between its two phases. */
  datatype Pending = One(s: string) | Many(ids: seq<string>, known: seq<Option<u32>>)

  datatype Answer = Silent | Failed | Given(ids: seq<string>, values: seq<u32>)

  /** `owner` remembers for every id ever assigned which string it was assigned to. */
  datatype State = State(t: Tables, pending: map<Client, Pending>, ghost owner: map<u64, string>)

  datatype Action =
    | ReadOne(c: Client, s: string)
    | WriteOne(c: Client)
    | ReadMany(c: Client, ids: seq<string>)
    | WriteMany(c: Client)
    | Delete(s: string)

  ghost const START := State(EMPTY, map[], map[])

  ghost predicate Enabled(s: State, a: Action) {
    match a
    case ReadOne(c, _) => c !in s.pending
    case ReadMany(c, _) => c !in s.pending
    case WriteOne(c) => c in s.pending && s.pending[c].One?
    case WriteMany(c) => c in s.pending && s.pending[c].Many? && |s.pending[c].known| == |s.pending[c].ids|
    case Delete(_) => true
  }

  /** A client that is not in the middle of a call may start any call; one that is may end it; anyone may delete. */
  lemma CallsCanBeMade(s: State, c: Client, x: string, ids: seq<string>)
    ensures c !in s.pending ==> Enabled(s, ReadOne(c, x)) && Enabled(s, ReadMany(c, ids))
    ensures c in s.pending && s.pending[c].One? ==> Enabled(s, WriteOne(c))
    ensures c in s.pending && s.pending[c].Many? && |s.pending[c].known| == |s.pending[c].ids| ==>
      Enabled(s, WriteMany(c))
    ensures Enabled(s, Delete(x))
  {
  }

  ghost function Commit(s: State, c: Client, t: Tables): State {
    State(t, s.pending - {c}, s.owner + t.rev)
  }

  ghost function Apply(s: State, a: Action): (State, Answer)
    requires Enabled(s, a)
  {
    match a
    case ReadOne(c, x) =>
      if Find(s.t, x).Some? then (s, Given([x], [Find(s.t, x).value]))
      else (s.(pending := s.pending[c := One(x)]), Silent)
    case WriteOne(c) =>
      var x := s.pending[c].s;
      var (t, r) := Assign(s.t, x);
      (Commit(s, c, t), if r.Ok? then Given([x], [r.value]) else Failed)
    case ReadMany(c, ids) =>
      var known := FindAll(s.t, ids);
      if forall i :: 0 <= i < |known| ==> known[i].Some? then (s, Given(ids, Values(known)))
      else (s.(pending := s.pending[c := Many(ids, known)]), Silent)
    case WriteMany(c) =>
      var p := s.pending[c];
      var (t, r) := WriteBatch(s.t, p.ids, p.known);
      (Commit(s, c, t), if r.Ok? then Given(p.ids, r.value) else Failed)
    case Delete(x) => (s.(t := Remove(s.t, x)), Silent)
  }

  // ----- the invariant -------------------------------------------------------------------------

  /** Every id assigned so far is below the counter, has its one owner, and is live only for that owner. */
  ghost predicate Sound(s: State) {
    && WellFormed(s.t)
    && (forall i :: i in s.owner <==> 0 <= i < s.t.next)
    && (forall i :: i in s.t.rev ==> s.owner[i] == s.t.rev[i])
    && forall c :: c in s.pending ==> KnownIsOwned(s.pending[c], s.owner)
  }

  ghost predicate KnownIsOwned(p: Pending, owner: map<u64, string>) {
    p.Many? ==>
      && |p.known| == |p.ids|
      && forall i :: 0 <= i < |p.ids| && p.known[i].Some? ==> Owns(owner, p.known[i].value, p.ids[i])
  }

  ghost predicate Owns(owner: map<u64, string>, id: u32, s: string) { id in owner && owner[id] == s }

  /** Every id of an answer was assigned to the string it answers. */
  ghost predicate Truthful(a: Answer, owner: map<u64, string>) {
    a.Given? ==> |a.values| == |a.ids| && forall i :: 0 <= i < |a.ids| ==> Owns(owner, a.values[i], a.ids[i])
  }

  /** Owners are added, never changed; an id that appears is one that was never assigned before. */
  ghost predicate Grows(before: State, after: State) {
    && before.t.next <= after.t.next
    && (forall i :: i in before.owner ==> i in after.owner && after.owner[i] == before.owner[i])
    && (forall i :: i in after.t.rev && i !in before.t.rev ==> i !in before.owner)
  }

  lemma CommitIsSound(s: State, c: Client, t: Tables)
    requires Sound(s) && WellFormed(t) && Extends(t, s.t)
    requires forall i :: s.t.next <= i < t.next ==> i in t.rev
    requires forall i :: i in s.t.rev ==> i in t.rev && t.rev[i] == s.t.rev[i]
    ensures Sound(Commit(s, c, t)) && Grows(s, Commit(s, c, t))
  {
    var u := Commit(s, c, t);
    forall d | d in u.pending
      ensures KnownIsOwned(u.pending[d], u.owner)
    {
      assert KnownIsOwned(s.pending[d], s.owner);
    }
  }

  lemma {:induction false} ResolveFills(t: Tables, ids: seq<string>, known: seq<Option<u32>>)
    requires WellFormed(t) && |known| == |ids|
    ensures var u := Resolve(t, ids, known).0;
      && (forall i :: t.next <= i < u.next ==> i in u.rev)
      && forall i :: i in t.rev ==> i in u.rev && u.rev[i] == t.rev[i]
  {
    if ids != [] {
      ResolveFills(t, ids[..|ids| - 1], known[..|ids| - 1]);
      ResolveEffect(t, ids[..|ids| - 1], known[..|ids| - 1]);
    }
  }

  /** Every step keeps the invariant, gives truthful answers, and never hands an old id out again. */
  lemma StepIsSound(s: State, a: Action)
    requires Sound(s) && Enabled(s, a)
    ensures var (u, answer) := Apply(s, a);
      Sound(u) && Grows(s, u) && Truthful(answer, u.owner)
  {
    match a
    case ReadOne(c, x) =>
    case WriteOne(c) =>
      AssignEffect(s.t, s.pending[c].s);
      CommitIsSound(s, c, Assign(s.t, s.pending[c].s).0);
    case ReadMany(c, ids) => ReadManyIsSound(s, c, ids);
    case WriteMany(c) => WriteManyIsSound(s, c);
    case Delete(x) => RemoveKeepsWellFormed(s.t, x);
  }

  lemma ReadManyIsSound(s: State, c: Client, ids: seq<string>)
    requires Sound(s) && c !in s.pending
    ensures var (u, answer) := Apply(s, ReadMany(c, ids));
      Sound(u) && Grows(s, u) && Truthful(answer, u.owner)
  {
    var known := FindAll(s.t, ids);
    forall i | 0 <= i < |ids| && known[i].Some?
      ensures Owns(s.owner, known[i].value, ids[i])
    {
      assert s.t.fwd[ids[i]] in s.t.rev;
    }
  }

  lemma WriteManyIsSound(s: State, c: Client)
    requires Sound(s) && Enabled(s, WriteMany(c))
    ensures var (u, answer) := Apply(s, WriteMany(c));
      Sound(u) && Grows(s, u) && Truthful(answer, u.owner)
  {
    var p := s.pending[c];
    assert KnownIsOwned(p, s.owner);
    ResolveEffect(s.t, p.ids, p.known);
    ResolveFills(s.t, p.ids, p.known);
    var (t, r) := WriteBatch(s.t, p.ids, p.known);
    CommitIsSound(s, c, t);
    var u := Commit(s, c, t);
    if r.Ok? {
      forall i | 0 <= i < |p.ids|
        ensures Owns(u.owner, r.value[i], p.ids[i])
      {
        assert Answered(t, p.ids[i], p.known[i], r.value[i]);
        if p.known[i].Some? {
          assert Owns(s.owner, r.value[i], p.ids[i]);
        } else {
          assert t.fwd[p.ids[i]] in t.rev;
        }
      }
    }
  }

  // ----- whole runs -----------------------------------------------------------------------------

  /** The state and the answers after a sequence of actions, each of them enabled in its turn. */
  ghost predicate Legal(run: seq<Action>)
    decreases |run|, 0
  {
    run == [] || (Legal(run[..|run| - 1]) && Enabled(After(run[..|run| - 1]), run[|run| - 1]))
  }

  ghost function After(run: seq<Action>): State
    requires Legal(run)
    decreases |run|, 1
  {
    if run == [] then START else Apply(After(run[..|run| - 1]), run[|run| - 1]).0
  }

  ghost function AnswerOf(run: seq<Action>, k: nat): Answer
    requires k < |run| && Legal(run[..k + 1])
  {
    assert run[..k + 1][..k] == run[..k];
    Apply(After(run[..k]), run[k]).1
  }

  lemma {:induction false} PrefixIsLegal(run: seq<Action>, k: nat)
    requires Legal(run) && k <= |run|
    ensures Legal(run[..k])
  {
    if k < |run| {
      PrefixIsLegal(run[..|run| - 1], k);
      assert run[..|run| - 1][..k] == run[..k];
    } else {
      assert run[..k] == run;
    }
  }

  lemma {:induction false} RunIsSound(run: seq<Action>)
    requires Legal(run)
    ensures Sound(After(run))
  {
    if run != [] {
      RunIsSound(run[..|run| - 1]);
      StepIsSound(After(run[..|run| - 1]), run[|run| - 1]);
    }
  }

  /** An answer given during a run is still truthful at its end. */
  lemma {:induction false} AnswersStayTruthful(run: seq<Action>, k: nat)
    requires Legal(run) && k < |run|
    ensures Legal(run[..k + 1]) && Truthful(AnswerOf(run, k), After(run).owner)
    decreases |run|
  {
    PrefixIsLegal(run, k + 1);
    var front := run[..|run| - 1];
    RunIsSound(front);
    StepIsSound(After(front), run[|run| - 1]);
    if k == |run| - 1 {
      assert run[..k + 1] == run && run[..k] == front;
    } else {
      AnswersStayTruthful(front, k);
      assert front[..k + 1] == run[..k + 1] && front[..k] == run[..k];
    }
  }

  /** In every run, however the clients interleave and whatever is deleted, no id answers two strings. */
  lemma IdsAreNeverReused(run: seq<Action>, j: nat, k: nat, m: nat, n: nat)
    requires Legal(run) && j < |run| && k < |run|
    requires Legal(run[..j + 1]) && AnswerOf(run, j).Given? && m < |AnswerOf(run, j).ids|
    requires Legal(run[..k + 1]) && AnswerOf(run, k).Given? && n < |AnswerOf(run, k).ids|
    ensures var a, b := AnswerOf(run, j), AnswerOf(run, k);
      m < |a.values| && n < |b.values| && (a.values[m] == b.values[n] ==> a.ids[m] == b.ids[n])
  {
    AnswersStayTruthful(run, j);
    AnswersStayTruthful(run, k);
    var owner, a, b := After(run).owner, AnswerOf(run, j), AnswerOf(run, k);
    assert Owns(owner, a.values[m], a.ids[m]) && Owns(owner, b.values[n], b.ids[n]);
  }

  // ----- runs without deletion ---------------------------------------------------------------------

  ghost predicate Keeps(run: seq<Action>) { forall k :: 0 <= k < |run| ==> !run[k].Delete? }

  /** Every answer agrees with the forward table. */
  ghost predicate Current(a: Answer, t: Tables) {
    a.Given? ==> |a.values| == |a.ids| && forall i :: 0 <= i < |a.ids| ==> Maps(t, a.ids[i], a.values[i])
  }

  ghost predicate Maps(t: Tables, s: string, id: u32) { s in t.fwd && t.fwd[s] == id }

  ghost predicate KnownIsCurrent(p: Pending, t: Tables) {
    p.Many? ==>
      && |p.known| == |p.ids|
      && forall i :: 0 <= i < |p.ids| && p.known[i].Some? ==> Maps(t, p.ids[i], p.known[i].value)
  }

  ghost predicate AllCurrent(s: State) { forall c :: c in s.pending ==> KnownIsCurrent(s.pending[c], s.t) }

  lemma KeepingStep(s: State, a: Action)
    requires Sound(s) && AllCurrent(s) && Enabled(s, a) && !a.Delete?
    ensures var (u, answer) := Apply(s, a);
      AllCurrent(u) && Extends(u.t, s.t) && Current(answer, u.t)
  {
    var (u, answer) := Apply(s, a);
    match a
    case ReadOne(c, x) =>
    case WriteOne(c) => AssignEffect(s.t, s.pending[c].s);
    case ReadMany(c, ids) =>
    case WriteMany(c) =>
      var p := s.pending[c];
      assert KnownIsCurrent(p, s.t);
      ResolveEffect(s.t, p.ids, p.known);
      if answer.Given? {
        forall i | 0 <= i < |p.ids|
          ensures Maps(u.t, p.ids[i], answer.values[i])
        {
          assert Answered(u.t, p.ids[i], p.known[i], answer.values[i]);
        }
      }
  }

  lemma {:induction false} KeptAnswersStayCurrent(run: seq<Action>, k: nat)
    requires Legal(run) && Keeps(run) && k <= |run|
    ensures AllCurrent(After(run))
    ensures k < |run| ==> Legal(run[..k + 1]) && Current(AnswerOf(run, k), After(run).t)
    decreases |run|
  {
    if run != [] {
      var front := run[..|run| - 1];
      PrefixIsLegal(run, if k < |run| then k + 1 else k);
      RunIsSound(front);
      KeptAnswersStayCurrent(front, if k < |front| then k else |front|);
      KeepingStep(After(front), run[|run| - 1]);
      if k == |run| - 1 {
        assert run[..k + 1] == run && run[..k] == front;
      } else if k < |run| {
        assert front[..k + 1] == run[..k + 1] && front[..k] == run[..k];
      }
    }
  }

  /** As long as nothing is deleted, racing clients agree: the same string always gets the same id. */
  lemma RacingClientsAgree(run: seq<Action>, j: nat, k: nat, m: nat, n: nat)
    requires Legal(run) && Keeps(run) && j < |run| && k < |run|
    requires Legal(run[..j + 1]) && AnswerOf(run, j).Given? && m < |AnswerOf(run, j).ids|
    requires Legal(run[..k + 1]) && AnswerOf(run, k).Given? && n < |AnswerOf(run, k).ids|
    ensures var a, b := AnswerOf(run, j), AnswerOf(run, k);
      m < |a.values| && n < |b.values| && (a.ids[m] == b.ids[n] <==> a.values[m] == b.values[n])
  {
    IdsAreNeverReused(run, j, k, m, n);
    KeptAnswersStayCurrent(run, j);
    KeptAnswersStayCurrent(run, k);
    var t, a, b := After(run).t, AnswerOf(run, j), AnswerOf(run, k);
    assert Maps(t, a.ids[m], a.values[m]) && Maps(t, b.ids[n], b.values[n]);
  }
}
