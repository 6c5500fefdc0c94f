/**
 * Staging several capsules for one head swap publishes what staging and
 * swapping them one at a time would (README.md:583-594,
 * crates/fgit-reference/src/transition.rs:903-1130).
 */
module MachineGroups {
  import opened Bytes
  import opened Intents
  import opened Fold
  import opened Ancestry
  import opened Evaluation
  import opened EvaluationLaws
  import opened Machine
  import opened MachineOrder
  import opened MachineRuns
  import opened MachineEscape
  import opened Sorting

  /** Stage, then swap the head that was read; a listing with nothing decidable swaps nothing. */
  function Round(s: Repo, input: StageInput): Repo {
    var r := Stage(s, input);
    if r.Broken? || r.value.1.batch == None then s
    else
      var t := r.value.0;
      var w := CompareAndSwap(t, t.head.id, t.head.body.generation, input.batch);
      if w.Ok? then w.value.0 else t
  }

  /** The round of capsule `i` alone, under a label of its own. */
  function Single(input: StageInput, plan: seq<Label>, i: nat): StageInput
    requires i < |input.capsules| == |plan|
  {
    input.(batch := plan[i], candidate := plan[i], capsules := [input.capsules[i]])
  }

  /** The first `n` capsules, each in a round of its own. */
  function Rounds(s: Repo, input: StageInput, plan: seq<Label>, n: nat): Repo
    requires n <= |input.capsules| == |plan|
  {
    if n == 0 then s else Round(Rounds(s, input, plan, n - 1), Single(input, plan, n - 1))
  }

  /** Everything but the names of heads and batches. */
  ghost predicate Agree(a: Repo, b: Repo) {
    && a.repository == b.repository && a.format == b.format
    && a.head.body.point == b.head.body.point && a.head.body.policy == b.head.body.policy
    && a.decisions == b.decisions && a.commits == b.commits
    && a.seals == b.seals && a.keys == b.keys && a.capsules == b.capsules
    && a.quarantine == b.quarantine && a.objects == b.objects
  }

  // ---- A state that stands where a draft stands ----

  /** The draft continues its head: what it decided, in sequence, and nothing else. */
  ghost predicate IsContinuation(s: Repo, d: Draft) {
    && d.seen == TxsOf(d.decisions)
    && d.point.roots.outcomes.Keys == OutcomesOf(s).Keys + d.seen
    && (d.decisions == [] ==> d.commits == [] && d.point == s.head.body.point)
    && (d.commits == [] ==> d.point.lastSequence == s.head.body.point.lastSequence)
    && (d.commits != [] ==> d.commits[0].sequence == s.head.body.point.lastSequence + 1)
  }

  function TxsOf(ds: seq<Decision>): set<Label> {
    set i | 0 <= i < |ds| :: ds[i].tx
  }

  /** `t` is `s` with the draft's decisions published. */
  ghost predicate Mirrors(s: Repo, d: Draft, t: Repo) {
    && t.repository == s.repository && t.format == s.format
    && t.head.body.point == d.point && t.head.body.policy == s.head.body.policy
    && t.decisions == s.decisions + d.decisions && t.commits == s.commits + d.commits
    && t.seals == s.seals && t.keys == s.keys && t.capsules == DropCapsules(s.capsules, d.seen)
    && t.quarantine == s.quarantine - d.seen && t.objects == PromoteAll(s, s.objects, d.commits)
  }

  lemma MirrorsStart(s: Repo)
    ensures var d := Draft(s.head.body.point, [], [], {}, []); IsContinuation(s, d) && Mirrors(s, d, s)
  {
    var d := Draft(s.head.body.point, [], [], {}, []);
    assert DropCapsules(s.capsules, {}) == s.capsules;
    assert s.quarantine - {} == s.quarantine;
    assert s.decisions + [] == s.decisions && s.commits + [] == s.commits;
  }

  lemma MirrorsAgree(s: Repo, d: Draft, a: Repo, b: Repo)
    requires Mirrors(s, d, a) && Mirrors(s, d, b)
    ensures Agree(a, b)
  {
  }

  // ---- One decision, added to a draft ----

  /** What one capsule adds to a draft. */
  datatype Addition = Addition(decision: Decision, commits: seq<Record>, point: Point)

  function With(d: Draft, a: Addition): Draft {
    d.(point := a.point, decisions := d.decisions + [a.decision], commits := d.commits + a.commits,
       seen := d.seen + {a.decision.tx})
  }

  predicate IsDecisive(p: Point, v: DecisionVerdict) {
    v.Refuses? || (v.Commits? && ApplyEffects(p.roots.basis, v.effects).Some?)
  }

  /** The addition a decisive verdict makes at a point. */
  function AdditionOf(p: Point, c: Capsule, n: Names, v: DecisionVerdict): Addition
    requires IsDecisive(p, v)
  {
    if v.Refuses? then
      var outcome := Refused(v.code, n.refusal);
      Addition(Decision(c.tx, p.lastDecision + 1, outcome), [], Decided(p, c.tx, outcome))
    else
      var after := ApplyEffects(p.roots.basis, v.effects).value;
      Addition(Decision(c.tx, p.lastDecision + 1, Committed(n.commit)), [RecordOf(p, c, n.commit, v.effects, after)],
               Point(p.lastDecision + 1, Some(n.commit), p.lastSequence + 1,
                     Roots(after, p.roots.outcomes[c.tx := Committed(n.commit)])))
  }

  function VerdictOn(s: Repo, d: Draft, c: Capsule): DecisionVerdict {
    DecideAgainst(s, c, d.point.roots.basis, s.head.body.generation)
  }

  /** No limit stops a decision at this point. */
  predicate HasRoom(p: Point, v: DecisionVerdict) {
    p.lastDecision + 1 < LAST && (v.Commits? ==> p.lastSequence + 1 < LAST)
  }

  /** Admission succeeds by deferring, or by adding what the verdict says. */
  lemma AdmitIff(s: Repo, names: map<Label, Names>, d: Draft, c: Capsule)
    requires c.tx !in OutcomesOf(s) && c.tx in names
    ensures var r, v := Admit(s, names, d, c), VerdictOn(s, d, c);
      if v.RequiresRepreparation? then r.Ok? && IsSameDraft(d, r.value)
      else if IsDecisive(d.point, v) && c.tx !in d.seen && HasRoom(d.point, v) then
        r == Ok(With(d, AdditionOf(d.point, c, names[c.tx], v)))
      else r.Broken?
  {
    assert d.commits + [] == d.commits;
  }

  lemma WithContinues(s: Repo, d: Draft, c: Capsule, n: Names, v: DecisionVerdict)
    requires IsContinuation(s, d) && IsDecisive(d.point, v)
    ensures IsContinuation(s, With(d, AdditionOf(d.point, c, n, v)))
  {
    var a := AdditionOf(d.point, c, n, v);
    var ds := d.decisions + [a.decision];
    assert TxsOf(ds) == TxsOf(d.decisions) + {c.tx} by {
      assert ds[|d.decisions|].tx == c.tx;
      assert forall i :: 0 <= i < |d.decisions| ==> ds[i] == d.decisions[i];
    }
    assert d.commits != [] ==> (d.commits + a.commits)[0] == d.commits[0];
  }

  lemma {:induction false} AdmitContinues(s: Repo, names: map<Label, Names>, cs: seq<Capsule>)
    requires AdmitAll(s, names, Draft(s.head.body.point, [], [], {}, []), cs).Ok?
    ensures IsContinuation(s, AdmitAll(s, names, Draft(s.head.body.point, [], [], {}, []), cs).value)
  {
    var start := Draft(s.head.body.point, [], [], {}, []);
    if cs == [] {
      MirrorsStart(s);
    } else {
      var n := |cs| - 1;
      AdmitContinues(s, names, cs[..n]);
      var d := AdmitAll(s, names, start, cs[..n]).value;
      AdmitIff(s, names, d, cs[n]);
      if !VerdictOn(s, d, cs[n]).RequiresRepreparation? {
        WithContinues(s, d, cs[n], names[cs[n].tx], VerdictOn(s, d, cs[n]));
      }
    }
  }

  // ---- A staged draft, published ----

  lemma SwapWins(s: Repo, input: StageInput, cs: seq<Capsule>, d: Draft, t: Repo)
    requires IsContinuation(s, d) && d.decisions != [] && input.durable
    requires s.head.body.point.lastDecision < LAST && s.head.body.point.lastSequence < LAST
    requires Enter(s, input, cs, d) == Ok(t)
    ensures CompareAndSwap(t, s.head.id, s.head.body.generation, input.batch) ==
            Ok((Publish(t, input.batch), Won(input.candidate)))
  {
  }

  lemma PublishMirrors(s: Repo, input: StageInput, cs: seq<Capsule>, d: Draft, t: Repo)
    requires IsContinuation(s, d) && Enter(s, input, cs, d) == Ok(t)
    ensures Mirrors(s, d, Publish(t, input.batch))
    ensures Publish(t, input.batch).ledger == t.ledger
  {
    assert Terminated(BatchOf(s, input, cs, d)) == TxsOf(d.decisions);
    SamePromotion(s, t, s.objects, d.commits);
  }

  /** A round leaves the state that stands where its draft stands. */
  lemma RoundMirrors(s: Repo, input: StageInput, cs: seq<Capsule>)
    requires Stage(s, input).Ok? && input.durable && Stage(s, input) == StageSorted(s, input, cs)
    ensures var r := AdmitAll(s, input.names, Draft(s.head.body.point, [], [], {}, []), cs);
      r.Ok? && IsContinuation(s, r.value) && Mirrors(s, r.value, Round(s, input))
  {
    var d := AdmitAll(s, input.names, Draft(s.head.body.point, [], [], {}, []), cs).value;
    AdmitContinues(s, input.names, cs);
    if d.decisions == [] {
      MirrorsStart(s);
      assert d.seen == {};
    } else {
      var t := Enter(s, input, cs, d).value;
      SwapWins(s, input, cs, d, t);
      PublishMirrors(s, input, cs, d, t);
    }
  }

  // ---- One more round ----

  /** Staged next, the capsule meets the verdict it would meet in the batch. */
  lemma SameVerdict(s: Repo, d: Draft, t: Repo, c: Capsule)
    requires IsContinuation(s, d) && Mirrors(s, d, t) && c.tx !in d.seen && c.tx !in OutcomesOf(s)
    requires c.verdict.Refuse? || c.observed.granularity == Refined
    ensures DecideAgainst(t, c, t.head.body.point.roots.basis, t.head.body.generation) == VerdictOn(s, d, c)
  {
  }

  /**
   * A coarse capsule that commits in the batch after another decision does not
   * commit in a round of its own: the generation it observed is gone.
   */
  lemma CoarseIsLeftBehind(s: Repo, d: Draft, t: Repo, c: Capsule)
    requires IsContinuation(s, d) && Mirrors(s, d, t) && c.tx !in d.seen
    requires c.observed.granularity == Coarse && VerdictOn(s, d, c).Commits?
    requires t.head.body.generation != s.head.body.generation
    ensures !DecideAgainst(t, c, t.head.body.point.roots.basis, t.head.body.generation).Commits?
  {
  }

  lemma {:induction false} PromoteJoins(s: Repo, objects: Parents, a: seq<Record>, b: seq<Record>)
    ensures PromoteAll(s, objects, a + b) == PromoteAll(s, PromoteAll(s, objects, a), b)
    decreases |a|
  {
    if a == [] {
      assert a + b == b;
    } else {
      assert (a + b)[0] == a[0] && (a + b)[1..] == a[1..] + b;
      PromoteJoins(s, Promote(objects, QuarantineOf(s, a[0].tx), a[0].closure), a[1..], b);
    }
  }

  lemma DropTwice(cs: map<Label, Capsule>, a: set<Label>, b: set<Label>)
    ensures DropCapsules(DropCapsules(cs, a), b) == DropCapsules(cs, a + b)
  {
  }

  lemma JoinObjects(s: Repo, d: Draft, t: Repo, rs: seq<Record>)
    requires t.quarantine == s.quarantine - d.seen && t.objects == PromoteAll(s, s.objects, d.commits)
    requires forall i :: 0 <= i < |rs| ==> rs[i].tx !in d.seen
    ensures PromoteAll(t, t.objects, rs) == PromoteAll(s, s.objects, d.commits + rs)
  {
    PromoteJoins(s, s.objects, d.commits, rs);
    SamePromotion(t, s, t.objects, rs);
  }

  lemma JoinLists<T>(a: seq<T>, b: seq<T>, c: seq<T>)
    ensures a + b + c == a + (b + c)
  {
  }

  lemma DropAgain(q: map<Label, Quarantine>, a: set<Label>, b: set<Label>)
    ensures q - a - b == q - (a + b)
  {
  }

  lemma MirrorsJoin(s: Repo, d: Draft, t: Repo, e: Draft, u: Repo, f: Draft)
    requires Mirrors(s, d, t) && Mirrors(t, e, u)
    requires forall i :: 0 <= i < |e.commits| ==> e.commits[i].tx !in d.seen
    requires f.point == e.point && f.decisions == d.decisions + e.decisions && f.commits == d.commits + e.commits
    requires f.seen == d.seen + e.seen
    ensures Mirrors(s, f, u)
  {
    DropTwice(s.capsules, d.seen, e.seen);
    DropAgain(s.quarantine, d.seen, e.seen);
    JoinObjects(s, d, t, e.commits);
    JoinLists(s.decisions, d.decisions, e.decisions);
    JoinLists(s.commits, d.commits, e.commits);
  }

  // ---- Identities ----

  function IdsOf(rs: seq<Record>): set<Label> {
    set i | 0 <= i < |rs| :: rs[i].id
  }

  lemma {:induction false} IntroducedAreFresh(known: set<Label>, rs: seq<Record>)
    requires IntroduceCommits(known, rs).Ok?
    ensures IntroduceCommits(known, rs).value == known + IdsOf(rs)
    ensures forall i :: 0 <= i < |rs| ==> rs[i].id !in known + IdsOf(rs[..i])
    decreases |rs|
  {
    if rs != [] {
      IntroducedAreFresh(known + {rs[0].id}, rs[1..]);
      assert IdsOf(rs) == {rs[0].id} + IdsOf(rs[1..]) by {
        forall id | id in IdsOf(rs) ensures id in {rs[0].id} + IdsOf(rs[1..])
        {
          var i :| 0 <= i < |rs| && rs[i].id == id;
          if i > 0 { assert rs[1..][i - 1].id == id; }
        }
        forall id | id in IdsOf(rs[1..]) ensures id in IdsOf(rs)
        {
          var i :| 0 <= i < |rs[1..]| && rs[1..][i].id == id;
          assert rs[i + 1].id == id;
        }
      }
      forall i | 0 <= i < |rs| ensures rs[i].id !in known + IdsOf(rs[..i])
      {
        if i > 0 {
          assert rs[1..][i - 1] == rs[i];
          forall id | id in IdsOf(rs[..i]) ensures id != rs[i].id
          {
            var k :| 0 <= k < i && rs[..i][k].id == id;
            if k > 0 {
              assert rs[1..][..i - 1][k - 1] == rs[k];
              assert id in IdsOf(rs[1..][..i - 1]);
            }
          }
        }
      }
    }
  }

  lemma IdsJoin(a: seq<Record>, b: seq<Record>)
    ensures IdsOf(a + b) == IdsOf(a) + IdsOf(b)
  {
    var all := a + b;
    forall id | id in IdsOf(a) ensures id in IdsOf(all)
    {
      var i :| 0 <= i < |a| && a[i].id == id;
      assert all[i].id == id;
    }
    forall id | id in IdsOf(b) ensures id in IdsOf(all)
    {
      var i :| 0 <= i < |b| && b[i].id == id;
      assert all[|a| + i].id == id;
    }
  }

  // ---- A round of one capsule ----

  function Empty(s: Repo): Draft {
    Draft(s.head.body.point, [], [], {}, [])
  }

  lemma SingleStage(t: Repo, input: StageInput, id: Label)
    requires input.capsules == [id] && id in t.capsules
    requires t.head.body.point.lastDecision < LAST && t.head.body.point.lastSequence < LAST
    ensures Stage(t, input) == StageSorted(t, input, [t.capsules[id]])
    ensures AdmitAll(t, input.names, Empty(t), [t.capsules[id]]) == Admit(t, input.names, Empty(t), t.capsules[id])
  {
    StageOne(t, input, id);
    AdmitsOne(t, input.names, Empty(t), t.capsules[id]);
  }

  lemma SingleDefers(t: Repo, input: StageInput, id: Label)
    requires input.capsules == [id] && id in t.capsules
    requires t.head.body.point.lastDecision < LAST && t.head.body.point.lastSequence < LAST
    requires t.capsules[id].tx !in OutcomesOf(t) && t.capsules[id].tx in input.names
    requires VerdictOn(t, Empty(t), t.capsules[id]).RequiresRepreparation?
    ensures Round(t, input) == t
  {
    SingleStage(t, input, id);
    AdmitIff(t, input.names, Empty(t), t.capsules[id]);
  }

  /** Nothing in the way of a batch with these commits. */
  predicate CanEnter(t: Repo, input: StageInput, rs: seq<Record>) {
    && t.head.body.generation < LAST
    && input.batch !in t.ledger.batches && input.candidate !in t.ledger.heads
    && |rs| <= 1 && forall i :: 0 <= i < |rs| ==> rs[i].id !in t.ledger.commits
  }

  /** What entering and publishing does to the names in use. */
  ghost predicate UsesNames(t: Repo, input: StageInput, rs: seq<Record>, u: Repo) {
    && u.ledger.commits == t.ledger.commits + IdsOf(rs)
    && u.ledger.batches == t.ledger.batches + {input.batch}
    && u.ledger.heads == t.ledger.heads + {input.candidate}
    && u.head.body.generation == t.head.body.generation + 1
  }

  lemma Enters(t: Repo, input: StageInput, cs: seq<Capsule>, d: Draft)
    requires CanEnter(t, input, d.commits)
    ensures Enter(t, input, cs, d).Ok?
    ensures UsesNames(t, input, d.commits, Publish(Enter(t, input, cs, d).value, input.batch))
  {
    if d.commits == [] {
      assert IdsOf(d.commits) == {};
    } else {
      IntroducesOne(t.ledger.commits, d.commits);
      assert IdsOf(d.commits) == {d.commits[0].id};
    }
  }

  /** A staged draft that enters is published by its round. */
  lemma EnteredRound(t: Repo, input: StageInput, cs: seq<Capsule>, e: Draft)
    requires IsContinuation(t, e) && e.decisions != [] && input.durable && CanEnter(t, input, e.commits)
    requires t.head.body.point.lastDecision < LAST && t.head.body.point.lastSequence < LAST
    requires Stage(t, input) == StageSorted(t, input, cs) && AdmitAll(t, input.names, Empty(t), cs) == Ok(e)
    ensures Mirrors(t, e, Round(t, input)) && UsesNames(t, input, e.commits, Round(t, input))
  {
    Enters(t, input, cs, e);
    SwapWins(t, input, cs, e, Enter(t, input, cs, e).value);
    PublishMirrors(t, input, cs, e, Enter(t, input, cs, e).value);
  }

  lemma SingleDecides(t: Repo, input: StageInput, id: Label, v: DecisionVerdict)
    requires input.capsules == [id] && id in t.capsules && input.durable
    requires t.head.body.point.lastDecision < LAST && t.head.body.point.lastSequence < LAST
    requires t.capsules[id].tx !in OutcomesOf(t) && t.capsules[id].tx in input.names
    requires v == VerdictOn(t, Empty(t), t.capsules[id]) && IsDecisive(t.head.body.point, v) && HasRoom(t.head.body.point, v)
    requires CanEnter(t, input, AdditionOf(t.head.body.point, t.capsules[id], input.names[t.capsules[id].tx], v).commits)
    ensures var a := AdditionOf(t.head.body.point, t.capsules[id], input.names[t.capsules[id].tx], v);
      Mirrors(t, With(Empty(t), a), Round(t, input)) && UsesNames(t, input, a.commits, Round(t, input))
  {
    var c := t.capsules[id];
    var a := AdditionOf(t.head.body.point, c, input.names[c.tx], v);
    SingleStage(t, input, id);
    AdmitIff(t, input.names, Empty(t), c);
    MirrorsStart(t);
    WithContinues(t, Empty(t), c, input.names[c.tx], v);
    assert With(Empty(t), a).commits == a.commits;
    EnteredRound(t, input, [c], With(Empty(t), a));
  }

  // ---- All rounds ----

  ghost predicate IsPlan(s: Repo, plan: seq<Label>) {
    && (forall i :: 0 <= i < |plan| ==> plan[i] !in s.ledger.batches && plan[i] !in s.ledger.heads)
    && forall i, j :: 0 <= i < j < |plan| ==> plan[i] != plan[j]
  }

  /** After some rounds: where the draft stands, and which names are used up. */
  ghost predicate IsAt(s: Repo, plan: seq<Label>, i: nat, d: Draft, t: Repo)
    requires i <= |plan|
  {
    && IsContinuation(s, d) && Mirrors(s, d, t)
    && d.point.lastDecision < LAST && d.point.lastSequence < LAST
    && t.ledger.commits == s.ledger.commits + IdsOf(d.commits)
    && (forall x :: x in t.ledger.batches ==> x in s.ledger.batches || x in plan[..i])
    && (forall x :: x in t.ledger.heads ==> x in s.ledger.heads || x in plan[..i])
    && t.head.body.generation <= s.head.body.generation + i
  }

  lemma StaysAt(s: Repo, plan: seq<Label>, i: nat, d: Draft, e: Draft, t: Repo)
    requires i < |plan| && IsAt(s, plan, i, d, t) && IsSameDraft(d, e)
    ensures IsAt(s, plan, i + 1, e, t)
  {
    assert forall x :: x in plan[..i] ==> x in plan[..i + 1];
  }

  lemma NamesMoveOn(s: Repo, plan: seq<Label>, i: nat, d: Draft, t: Repo, rs: seq<Record>, u: Repo, input: StageInput)
    requires i < |plan| && IsAt(s, plan, i, d, t) && input.batch == plan[i] == input.candidate
    requires UsesNames(t, input, rs, u)
    ensures u.ledger.commits == s.ledger.commits + IdsOf(d.commits + rs)
    ensures forall x :: x in u.ledger.batches ==> x in s.ledger.batches || x in plan[..i + 1]
    ensures forall x :: x in u.ledger.heads ==> x in s.ledger.heads || x in plan[..i + 1]
    ensures u.head.body.generation <= s.head.body.generation + i + 1
  {
    IdsJoin(d.commits, rs);
    assert plan[..i + 1] == plan[..i] + [plan[i]];
  }

  lemma MirrorsOn(s: Repo, d: Draft, t: Repo, a: Addition, u: Repo)
    requires Mirrors(s, d, t) && Mirrors(t, With(Empty(t), a), u) && a.decision.tx !in d.seen
    requires forall k :: 0 <= k < |a.commits| ==> a.commits[k].tx == a.decision.tx
    ensures Mirrors(s, With(d, a), u)
  {
    var e := With(Empty(t), a);
    assert e.decisions == [a.decision] && e.commits == a.commits && e.seen == {a.decision.tx};
    MirrorsJoin(s, d, t, e, u, With(d, a));
  }

  lemma MovesOn(s: Repo, plan: seq<Label>, i: nat, d: Draft, t: Repo, a: Addition, u: Repo, input: StageInput)
    requires i < |plan| && IsAt(s, plan, i, d, t) && input.batch == plan[i] == input.candidate
    requires Mirrors(t, With(Empty(t), a), u) && UsesNames(t, input, a.commits, u)
    requires IsContinuation(s, With(d, a)) && a.decision.tx !in d.seen
    requires forall k :: 0 <= k < |a.commits| ==> a.commits[k].tx == a.decision.tx
    requires a.point.lastDecision < LAST && a.point.lastSequence < LAST
    ensures IsAt(s, plan, i + 1, With(d, a), u)
  {
    NamesMoveOn(s, plan, i, d, t, a.commits, u, input);
    MirrorsOn(s, d, t, a, u);
  }

  /** The draft after the first `i` capsules. */
  ghost predicate IsDraftAt(s: Repo, names: map<Label, Names>, cs: seq<Capsule>, i: nat, d: Draft)
    requires i <= |cs|
  {
    AdmitAll(s, names, Empty(s), cs[..i]) == Ok(d)
  }

  lemma DraftSteps(s: Repo, names: map<Label, Names>, cs: seq<Capsule>, i: nat, e: Draft) returns (d: Draft)
    requires i < |cs| && IsDraftAt(s, names, cs, i + 1, e)
    ensures IsDraftAt(s, names, cs, i, d) && Admit(s, names, d, cs[i]) == Ok(e)
  {
    assert cs[..i + 1] == cs[..i] + [cs[i]];
    AdmitSnoc(s, names, Empty(s), cs[..i], cs[i]);
    d := AdmitAll(s, names, Empty(s), cs[..i]).value;
  }

  lemma {:induction false} DraftGrows(s: Repo, names: map<Label, Names>, cs: seq<Capsule>, i: nat, d: Draft, n: nat, e: Draft)
    requires i <= n <= |cs| && IsDraftAt(s, names, cs, i, d) && IsDraftAt(s, names, cs, n, e)
    ensures d.commits <= e.commits
    decreases n - i
  {
    if i < n {
      var m := n - 1;
      var f := DraftSteps(s, names, cs, m, e);
      AdmitIff(s, names, f, cs[m]);
      DraftGrows(s, names, cs, i, d, m, f);
    }
  }

  lemma {:induction false} SeenAreListed(s: Repo, names: map<Label, Names>, cs: seq<Capsule>, i: nat, d: Draft, tx: Label)
    requires i <= |cs| && IsDraftAt(s, names, cs, i, d) && tx in d.seen
    ensures exists k :: 0 <= k < i && cs[k].tx == tx
  {
    if i > 0 {
      var m := i - 1;
      var f := DraftSteps(s, names, cs, m, d);
      AdmitIff(s, names, f, cs[m]);
      if tx in f.seen { SeenAreListed(s, names, cs, m, f, tx); }
    }
  }

  /** No two capsules are for one transaction, and none rests on the generation of its head. */
  ghost predicate AreSeparate(cs: seq<Capsule>) {
    && (forall i, j :: 0 <= i < j < |cs| ==> cs[i].tx != cs[j].tx)
    && forall i :: 0 <= i < |cs| ==> cs[i].verdict.Refuse? || cs[i].observed.granularity == Refined
  }

  /** Capsule `i` in a round of its own takes the rounds to where the draft goes next. */
  lemma NextRound(s: Repo, input: StageInput, plan: seq<Label>, cs: seq<Capsule>, i: nat, d: Draft, e: Draft, t: Repo)
    requires i < |plan| == |cs| == |input.capsules| && IsPlan(s, plan) && AreSeparate(cs) && input.durable
    requires input.capsules[i] in s.capsules && s.capsules[input.capsules[i]] == cs[i]
    requires IsDraftAt(s, input.names, cs, i, d) && Admit(s, input.names, d, cs[i]) == Ok(e)
    requires IsAt(s, plan, i, d, t) && s.head.body.generation + |plan| <= LAST
    requires |d.commits| < |e.commits| ==> e.commits[|d.commits|].id !in s.ledger.commits + IdsOf(d.commits)
    ensures IsAt(s, plan, i + 1, e, Round(t, Single(input, plan, i)))
  {
    var c, id, single := cs[i], input.capsules[i], Single(input, plan, i);
    if c.tx in d.seen { SeenAreListed(s, input.names, cs, i, d, c.tx); }
    AdmitIff(s, input.names, d, c);
    SameVerdict(s, d, t, c);
    var v := VerdictOn(s, d, c);
    assert id in t.capsules && t.capsules[id] == c;
    if v.RequiresRepreparation? {
      SingleDefers(t, single, id);
      StaysAt(s, plan, i, d, e, t);
    } else {
      var a := AdditionOf(d.point, c, input.names[c.tx], v);
      assert a.commits != [] ==> (d.commits + a.commits)[|d.commits|] == a.commits[0];
      RoundDecides(s, single, plan, i, d, t, id, v);
    }
  }

  lemma RoundDecides(s: Repo, single: StageInput, plan: seq<Label>, i: nat, d: Draft, t: Repo, id: Label, v: DecisionVerdict)
    requires i < |plan| && IsPlan(s, plan) && IsAt(s, plan, i, d, t) && s.head.body.generation + |plan| <= LAST
    requires single.capsules == [id] && single.batch == plan[i] == single.candidate && single.durable && id in t.capsules
    requires t.capsules[id].tx !in d.point.roots.outcomes && t.capsules[id].tx !in d.seen && t.capsules[id].tx in single.names
    requires v == VerdictOn(t, Empty(t), t.capsules[id]) && IsDecisive(d.point, v) && HasRoom(d.point, v)
    requires var a := AdditionOf(d.point, t.capsules[id], single.names[t.capsules[id].tx], v);
      a.commits != [] ==> a.commits[0].id !in s.ledger.commits + IdsOf(d.commits)
    ensures var a := AdditionOf(d.point, t.capsules[id], single.names[t.capsules[id].tx], v);
      IsAt(s, plan, i + 1, With(d, a), Round(t, single))
  {
    var c := t.capsules[id];
    var a := AdditionOf(d.point, c, single.names[c.tx], v);
    LabelIsFresh(s, plan, i, d, t);
    SingleDecides(t, single, id, v);
    WithContinues(s, d, c, single.names[c.tx], v);
    MovesOn(s, plan, i, d, t, a, Round(t, single), single);
  }

  lemma LabelIsFresh(s: Repo, plan: seq<Label>, i: nat, d: Draft, t: Repo)
    requires i < |plan| && IsPlan(s, plan) && IsAt(s, plan, i, d, t)
    ensures plan[i] !in t.ledger.batches && plan[i] !in t.ledger.heads
  {
    var x, used := plan[i], plan[..i];
    assert x !in used;
    assert x in t.ledger.batches ==> x in s.ledger.batches || x in used;
    assert x in t.ledger.heads ==> x in s.ledger.heads || x in used;
  }

  /** Everything the rounds need of the batch and of the plan. */
  ghost predicate IsGroup(s: Repo, input: StageInput, plan: seq<Label>, cs: seq<Capsule>, d: Draft) {
    && |plan| == |cs| == |input.capsules| && AreKnown(s, input.capsules) && cs == Selected(s, input.capsules)
    && AreSeparate(cs) && input.durable && IsPlan(s, plan)
    && s.head.body.point.lastDecision < LAST && s.head.body.point.lastSequence < LAST
    && s.head.body.generation + |plan| <= LAST
    && IsDraftAt(s, input.names, cs, |cs|, d) && IntroduceCommits(s.ledger.commits, d.commits).Ok?
  }

  lemma {:induction false} RoundsReach(s: Repo, input: StageInput, plan: seq<Label>, cs: seq<Capsule>, final: Draft, i: nat, d: Draft)
    requires IsGroup(s, input, plan, cs, final) && i <= |cs| && IsDraftAt(s, input.names, cs, i, d)
    ensures IsAt(s, plan, i, d, Rounds(s, input, plan, i))
  {
    if i == 0 {
      MirrorsStart(s);
      assert cs[..0] == [] && IdsOf([]) == {};
    } else {
      var m := i - 1;
      var f := DraftSteps(s, input.names, cs, m, d);
      RoundsReach(s, input, plan, cs, final, m, f);
      DraftGrows(s, input.names, cs, i, d, |cs|, final);
      DraftGrows(s, input.names, cs, m, f, i, d);
      NextIsFresh(s, f, d, final);
      NextRound(s, input, plan, cs, m, f, d, Rounds(s, input, plan, m));
    }
  }

  lemma NextIsFresh(s: Repo, d: Draft, e: Draft, final: Draft)
    requires d.commits <= e.commits <= final.commits && IntroduceCommits(s.ledger.commits, final.commits).Ok?
    ensures |d.commits| < |e.commits| ==> e.commits[|d.commits|].id !in s.ledger.commits + IdsOf(d.commits)
  {
    IntroducedAreFresh(s.ledger.commits, final.commits);
    var k := |d.commits|;
    assert final.commits[..k] == d.commits;
    if k < |e.commits| { assert e.commits[k] == final.commits[k]; }
  }

  lemma AscendingIsSorted(cs: seq<Capsule>)
    requires IsAscending(TxLess, cs)
    ensures SortByTx(cs) == cs
  {
    SortAscends(TxLess, cs);
    SortKeeps(TxLess, cs);
    AscendingUnique(TxLess, SortByTx(cs), cs);
  }

  lemma StagedIsGroup(s: Repo, input: StageInput, plan: seq<Label>, cs: seq<Capsule>)
    requires Stage(s, input).Ok? && AreKnown(s, input.capsules) && cs == Selected(s, input.capsules) && SortByTx(cs) == cs
    requires AreSeparate(cs) && input.durable && IsPlan(s, plan) && |plan| == |cs|
    requires s.head.body.generation + |plan| <= LAST
    ensures var r := AdmitAll(s, input.names, Empty(s), cs);
      r.Ok? && IsGroup(s, input, plan, cs, r.value) && Mirrors(s, r.value, Round(s, input))
  {
    RoundMirrors(s, input, cs);
    assert cs[..|cs|] == cs;
    var d := AdmitAll(s, input.names, Empty(s), cs).value;
    if d.decisions == [] { assert IntroduceCommits(s.ledger.commits, d.commits) == Ok(s.ledger.commits); }
  }

  /**
   * One batch is many rounds. Staging a listing and swapping the head once
   * leaves the refs, streams, roots, outcomes, decisions, records, objects and
   * open capsules that staging and swapping each capsule in turn leaves.
   */
  lemma OneBatchIsManyRounds(s: Repo, input: StageInput, plan: seq<Label>)
    requires AreKnown(s, input.capsules) && IsAscending(TxLess, Selected(s, input.capsules))
    requires AreSeparate(Selected(s, input.capsules)) && input.durable
    requires IsPlan(s, plan) && |plan| == |input.capsules| && s.head.body.generation + |plan| <= LAST
    requires Stage(s, input).Ok?
    ensures Agree(Round(s, input), Rounds(s, input, plan, |plan|))
  {
    var cs := Selected(s, input.capsules);
    AscendingIsSorted(cs);
    StagedIsGroup(s, input, plan, cs);
    var d := AdmitAll(s, input.names, Empty(s), cs).value;
    RoundsReach(s, input, plan, cs, d, |cs|, d);
    MirrorsAgree(s, d, Round(s, input), Rounds(s, input, plan, |plan|));
  }
}
