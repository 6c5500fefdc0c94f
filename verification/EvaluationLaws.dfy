/**
 * When a request is admitted, what its effects may touch, and why a witness
 * that still holds makes a prepared verdict current.
 */
module EvaluationLaws {
  import opened Bytes
  import opened Intents
  import opened Fold
  import opened FoldLaws
  import opened FoldReports
  import opened Ancestry
  import opened Evaluation

  // ---- Policy, stated without an order ----

  /** The ref is created, or its old object is an ancestor of its new one. */
  ghost predicate FastForwards(c: Case, name: RefName)
    requires name in c.effects.refs && name in c.olds
  {
    && c.effects.refs[name].Set?
    && (c.olds[name].Some? ==> IsAncestor(c.view, c.effects.refs[name].oid, c.olds[name].value))
  }

  ghost predicate IsLawfulRef(c: Case, name: RefName)
    requires name in c.effects.refs && name in c.olds
  {
    && ScopeOf(name).Some?
    && ScopeOf(name).value in c.capabilities.scopes
    && (|| FastForwards(c, name)
        || (&& (c.effects.refs[name] == Delete || (name in c.forced && c.capabilities.mayForce))
            && ScopeOf(name).value !in c.policy.protected))
  }

  /** A merge event travels with the ref it merges into. */
  predicate IsMergeAtomic(e: NetEffects) {
    forall s, i :: s in e.forge && 0 <= i < |e.forge[s]| && e.forge[s][i].PullRequestMerged? ==>
      e.forge[s][i].target in e.refs && e.refs[e.forge[s][i].target].Set?
  }

  predicate KeepsHolds(c: Case) {
    forall r :: r in c.effects.retention && r.hold == LegalHold ==>
      c.effects.retention[r] == Add && c.capabilities.mayHold
  }

  ghost predicate IsLawful(c: Case)
    requires c.olds.Keys == c.effects.refs.Keys
  {
    && (forall n :: n in c.effects.refs ==> IsLawfulRef(c, n))
    && (c.effects.forge != map[] ==> c.capabilities.mayPublishForge)
    && IsMergeAtomic(c.effects)
    && KeepsHolds(c)
  }

  ghost predicate IsClear<K>(problems: map<K, Option<Code>>) {
    forall k :: k in problems ==> problems[k] == None
  }

  lemma RefsLawfulIff(c: Case)
    requires c.olds.Keys == c.effects.refs.Keys
    ensures IsClear(RefProblems(c)) <==> forall n :: n in c.effects.refs ==> IsLawfulRef(c, n)
  {
    forall n | n in c.effects.refs ensures RefProblems(c)[n] == None <==> IsLawfulRef(c, n) {}
  }

  lemma MergesAtomicIff(e: NetEffects)
    ensures IsClear(MergeProblems(e)) <==> IsMergeAtomic(e)
  {
    var problems := MergeProblems(e);
    if IsClear(problems) {
      forall s, i | s in e.forge && 0 <= i < |e.forge[s]| && e.forge[s][i].PullRequestMerged?
        ensures e.forge[s][i].target in e.refs && e.refs[e.forge[s][i].target].Set?
      {
        assert problems[s] == None;
        assert EventProblem(e.refs, e.forge[s][i]) == None;
      }
    }
    if IsMergeAtomic(e) {
      forall s | s in problems ensures problems[s] == None
      {
        forall i | 0 <= i < |e.forge[s]| ensures EventProblem(e.refs, e.forge[s][i]) == None {}
      }
    }
  }

  lemma HoldsKeptIff(c: Case)
    ensures IsClear(RootProblems(c)) <==> KeepsHolds(c)
  {
    forall r | r in c.effects.retention
      ensures RootProblems(c)[r] == None <==>
              (r.hold == LegalHold ==> c.effects.retention[r] == Add && c.capabilities.mayHold)
    {
    }
  }

  /** Policy passes exactly the lawful effects, whatever order it looks at them in. */
  lemma JudgeIffLawful(c: Case)
    requires c.olds.Keys == c.effects.refs.Keys
    ensures Judge(c) == None <==> IsLawful(c)
  {
    KeysAreOrdered();
    RefsLawfulIff(c);
    MergesAtomicIff(c.effects);
    HoldsKeptIff(c);
  }

  /**
   * A request commits exactly when it passes the screen, no aborting statement
   * mismatches, and the difference its intents make is lawful.
   */
  lemma CommitsIff(p: Policy, ev: Evidence, b: Basis, req: Request)
    ensures var xs := AddressedIntents(req);
      Evaluate(p, ev, b, req).verdict.Commit? <==>
        && Screen(p, ev, req) == None
        && Process(b, xs).Running?
        && IsLawful(CaseOf(p, ev, b, req, Diff(b, Process(b, xs).scratch)))
  {
    var xs := AddressedIntents(req);
    if Process(b, xs).Running? {
      JudgeIffLawful(CaseOf(p, ev, b, req, Diff(b, Process(b, xs).scratch)));
    }
  }

  // ---- Effects name only objects the request brought or promised ----

  /** New ref values and new roots come from the intents. */
  ghost predicate IsSourced(b: Basis, s: Basis, objects: set<Oid>) {
    && (forall n :: n in s.refs ==> s.refs[n] in objects || Get(b.refs, n) == Some(s.refs[n]))
    && (forall r :: r in s.retention ==> r.oid in objects || r in b.retention)
  }

  lemma ApplyIsSourced(b: Basis, s: Scratch, i: Intent, objects: set<Oid>)
    requires IsSourced(b, s.at, objects)
    requires NamedObject(i).Some? ==> NamedObject(i).value in objects
    ensures IsSourced(b, Apply(s, i).0.at, objects)
  {
  }

  lemma {:induction false} ProcessIsSourced(b: Basis, xs: seq<Placed>, objects: set<Oid>)
    requires Process(b, xs).Running?
    requires forall i :: 0 <= i < |xs| && NamedObject(xs[i].intent).Some? ==> NamedObject(xs[i].intent).value in objects
    ensures IsSourced(b, Process(b, xs).scratch.at, objects)
  {
    if xs != [] {
      var n := |xs| - 1;
      ProcessIsSourced(b, xs[..n], objects);
      ApplyIsSourced(b, Process(b, xs[..n]).scratch, xs[n].intent, objects);
    }
  }

  lemma DiffIsSourced(b: Basis, s: Scratch, objects: set<Oid>)
    requires IsSourced(b, s.at, objects)
    ensures IsWithin(Diff(b, s), objects)
  {
  }

  /** Every object a committed effect makes reachable is in the closure, and all of it is available. */
  lemma CommitIsCovered(p: Policy, ev: Evidence, b: Basis, req: Request)
    requires Evaluate(p, ev, b, req).verdict.Commit?
    ensures var c := Evaluate(p, ev, b, req);
      && (forall o :: o in c.closure ==> o in View(ev) && o.format == ev.format)
      && IsWithin(c.verdict.effects, c.closure)
  {
    var xs := AddressedIntents(req);
    ProcessIsSourced(b, xs, IntentObjects(xs));
    DiffIsSourced(b, Process(b, xs).scratch, IntentObjects(xs));
  }

  // ---- Evaluation reads only the cells its intents name ----

  /** An affected ref is the target of an intent. */
  lemma EffectIsNamed(b: Basis, xs: seq<Placed>, t: Target) returns (i: nat)
    requires Process(b, xs).Running? && Affects(Folding(b, xs).outcome.effects, t)
    ensures i < |xs| && t == TargetOf(xs[i].intent)
  {
    i := EffectIsClaimed(b, xs, t);
    SurvivesIff(b, xs, i, t);
    ProcessIsFaithful(b, xs);
  }

  lemma SameOlds(b1: Basis, b2: Basis, xs: seq<Placed>, e: NetEffects)
    requires Agree(b1, b2, xs)
    requires Process(b1, xs).Running? && e == Folding(b1, xs).outcome.effects
    ensures (map n | n in e.refs :: Get(b1.refs, n)) == (map n | n in e.refs :: Get(b2.refs, n))
  {
    forall n | n in e.refs ensures Get(b1.refs, n) == Get(b2.refs, n)
    {
      assert Affects(e, RefTarget(n));
      var i := EffectIsNamed(b1, xs, RefTarget(n));
      assert BasisCell(b1, TargetOf(xs[i].intent)) == BasisCell(b2, TargetOf(xs[i].intent));
    }
  }

  /** Two bases that agree on the named cells give one conclusion: verdict, map and closure. */
  lemma EvaluateIsLocal(p: Policy, ev: Evidence, b1: Basis, b2: Basis, req: Request)
    requires Agree(b1, b2, AddressedIntents(req))
    ensures Evaluate(p, ev, b1, req) == Evaluate(p, ev, b2, req)
  {
    var xs := AddressedIntents(req);
    FoldIsLocal(b1, b2, xs);
    if Process(b1, xs).Running? {
      var e := Folding(b1, xs).outcome.effects;
      SameOlds(b1, b2, xs, e);
      assert CaseOf(p, ev, b1, req, e) == CaseOf(p, ev, b2, req, e);
    }
  }

  // ---- Witnesses ----

  datatype Granularity = Coarse | Refined

  datatype Witness = Witness(
    granularity: Granularity,
    generation: nat,
    refs: map<RefName, Option<Oid>>,
    positions: map<Label, Position>,
    present: set<RetentionRoot>,
    absent: set<RetentionRoot>,
    outbox: map<Label, Option<Digest>>,
    epoch: nat)

  /** The ref a forge event reads without asking to move it. */
  function Subject(i: Intent): Option<RefName> {
    if !i.Forge? then None
    else if i.event.WorkflowCheckObserved? then Some(i.event.source)
    else if i.event.MergeQueueChanged? || i.event.PullRequestMerged? then Some(i.event.target)
    else None
  }

  function Targets(xs: seq<Placed>): set<Target> {
    (set i | 0 <= i < |xs| :: TargetOf(xs[i].intent))
    + (set i | 0 <= i < |xs| && Subject(xs[i].intent).Some? :: RefTarget(Subject(xs[i].intent).value))
  }

  function BuildWitness(g: Granularity, generation: nat, epoch: nat, b: Basis, xs: seq<Placed>): Witness {
    var ts := Targets(xs);
    var names := set t | t in ts && t.RefTarget? :: t.name;
    var streams := set t | t in ts && t.StreamTarget? :: t.stream;
    var roots := set t | t in ts && t.RootTarget? :: t.root;
    var keys := set t | t in ts && t.OutboxTarget? :: t.key;
    Witness(g, generation,
            map n | n in names :: Get(b.refs, n),
            map s | s in streams :: PositionOf(b, s),
            set r | r in roots && r in b.retention,
            set r | r in roots && r !in b.retention,
            map k | k in keys :: Get(b.outbox, k),
            epoch)
  }

  predicate ReadsHold(w: Witness, b: Basis) {
    && (forall n :: n in w.refs ==> Get(b.refs, n) == w.refs[n])
    && (forall s :: s in w.positions ==> PositionOf(b, s) == w.positions[s])
    && w.present <= b.retention
    && w.absent !! b.retention
    && (forall k :: k in w.outbox ==> Get(b.outbox, k) == w.outbox[k])
  }

  predicate IsReusable(w: Witness, b: Basis, generation: nat, epoch: nat) {
    && w.epoch == epoch
    && (w.granularity == Coarse ==> w.generation == generation)
    && ReadsHold(w, b)
  }

  lemma WitnessCell(g: Granularity, generation: nat, epoch: nat, b: Basis, b': Basis, xs: seq<Placed>, t: Target)
    requires t in Targets(xs) && ReadsHold(BuildWitness(g, generation, epoch, b, xs), b')
    ensures BasisCell(b, t) == BasisCell(b', t)
  {
    var w := BuildWitness(g, generation, epoch, b, xs);
    match t {
      case RefTarget(n) => assert n in w.refs;
      case StreamTarget(s) => assert s in w.positions;
      case RootTarget(r) => assert r in w.present || r in w.absent;
      case OutboxTarget(k) => assert k in w.outbox;
    }
  }

  lemma CellsWitness(g: Granularity, generation: nat, epoch: nat, b: Basis, b': Basis, xs: seq<Placed>)
    requires forall t :: t in Targets(xs) ==> BasisCell(b, t) == BasisCell(b', t)
    ensures ReadsHold(BuildWitness(g, generation, epoch, b, xs), b')
  {
    var w := BuildWitness(g, generation, epoch, b, xs);
    forall n | n in w.refs ensures Get(b'.refs, n) == w.refs[n] { assert RefTarget(n) in Targets(xs); }
    forall s | s in w.positions ensures PositionOf(b', s) == w.positions[s] { assert StreamTarget(s) in Targets(xs); }
    forall r | r in w.present ensures r in b'.retention { assert RootTarget(r) in Targets(xs); }
    forall r | r in w.absent ensures r !in b'.retention { assert RootTarget(r) in Targets(xs); }
    forall k | k in w.outbox ensures Get(b'.outbox, k) == w.outbox[k] { assert OutboxTarget(k) in Targets(xs); }
  }

  /** A refined witness holds exactly when every cell the request named or observed is unchanged. */
  lemma ReadsHoldIff(g: Granularity, generation: nat, epoch: nat, b: Basis, b': Basis, xs: seq<Placed>)
    ensures ReadsHold(BuildWitness(g, generation, epoch, b, xs), b') <==>
            forall t :: t in Targets(xs) ==> BasisCell(b, t) == BasisCell(b', t)
  {
    if ReadsHold(BuildWitness(g, generation, epoch, b, xs), b') {
      forall t | t in Targets(xs) ensures BasisCell(b, t) == BasisCell(b', t)
      {
        WitnessCell(g, generation, epoch, b, b', xs, t);
      }
    } else if forall t :: t in Targets(xs) ==> BasisCell(b, t) == BasisCell(b', t) {
      CellsWitness(g, generation, epoch, b, b', xs);
    }
  }

  /** A reusable witness means preparing again under the same evidence would conclude the same. */
  lemma WitnessIsSound(w: Witness, p: Policy, ev: Evidence, b: Basis, b': Basis, req: Request)
    requires w == BuildWitness(w.granularity, w.generation, w.epoch, b, AddressedIntents(req))
    requires ReadsHold(w, b')
    ensures Evaluate(p, ev, b', req) == Evaluate(p, ev, b, req)
  {
    var xs := AddressedIntents(req);
    forall i | 0 <= i < |xs|
      ensures BasisCell(b, TargetOf(xs[i].intent)) == BasisCell(b', TargetOf(xs[i].intent))
    {
      WitnessCell(w.granularity, w.generation, w.epoch, b, b', xs, TargetOf(xs[i].intent));
    }
    EvaluateIsLocal(p, ev, b, b', req);
  }
}
