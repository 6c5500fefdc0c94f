/**
 * Whether published roots ever name an object still outside the store
 * (crates/fgit-reference/src/state.rs:928-940, transition.rs:1386-1402).
 *
 * They can: quarantine entries may be replaced between staging and the swap.
 * They cannot when no upload replaces a verified entry by an unverified one.
 */
module MachineQuarantine {
  import opened Bytes
  import opened Intents
  import opened Fold
  import opened Ancestry
  import opened Evaluation
  import opened Machine
  import opened MachineHistory
  import opened MachineInvariant
  import opened MachineStaging
  import opened MachineTheorems
  import opened Sorting

  /** Every object the roots name is in `objects`. */
  ghost predicate IsProtected(objects: set<Oid>, b: Basis) {
    && (forall n :: n in b.refs ==> b.refs[n] in objects)
    && (forall r :: r in b.retention ==> r.oid in objects)
  }

  /** The objects a transaction may rely on: admitted, or verified in its quarantine. */
  function Held(s: Repo, tx: Label): set<Oid> {
    View(EvidenceOf(s, tx)).Keys
  }

  // ---- Exactly when one publication protects its roots ----

  function Promoted(s: Repo, r: Record): set<Oid> {
    set o | o in r.closure && IsVerified(QuarantineOf(s, r.tx), o)
  }

  lemma {:induction false} PromotedKeys(s: Repo, objects: Parents, rs: seq<Record>, o: Oid)
    ensures o in PromoteAll(s, objects, rs) <==> o in objects || exists i :: 0 <= i < |rs| && o in Promoted(s, rs[i])
    decreases |rs|
  {
    if rs != [] {
      var first := Promote(objects, QuarantineOf(s, rs[0].tx), rs[0].closure);
      PromotedKeys(s, first, rs[1..], o);
      assert o in first <==> o in objects || o in Promoted(s, rs[0]);
      if i :| 0 <= i < |rs| && o in Promoted(s, rs[i]) {
        assert i > 0 ==> rs[1..][i - 1] == rs[i];
      }
      if i :| 0 <= i < |rs[1..]| && o in Promoted(s, rs[1..][i]) {
        assert rs[i + 1] == rs[1..][i];
      }
    }
  }

  /** What the swap will have admitted, computed before it. */
  ghost predicate WillAdmit(s: Repo, b: Batch, o: Oid) {
    o in s.objects || exists i :: 0 <= i < |b.commits| && o in Promoted(s, b.commits[i])
  }

  /**
   * A publication protects its roots exactly when each object they name is
   * already admitted, or is now verified in the quarantine of a record of the
   * batch that lists it.
   */
  lemma PublishProtectsIff(s: Repo, id: Label)
    requires id in s.staged
    ensures var s', b := Publish(s, id), s.staged[id].candidate.body.point.roots.basis;
      IsProtected(s'.objects.Keys, s'.head.body.point.roots.basis) <==>
        && (forall n :: n in b.refs ==> WillAdmit(s, s.staged[id].batch, b.refs[n]))
        && (forall r :: r in b.retention ==> WillAdmit(s, s.staged[id].batch, r.oid))
  {
    forall o ensures o in Publish(s, id).objects <==> WillAdmit(s, s.staged[id].batch, o)
    {
      PromotedKeys(s, s.objects, s.staged[id].batch.commits, o);
    }
  }

  // ---- Runs whose uploads never spoil a verified entry ----

  ghost predicate KeepsVerified(q: Quarantine, q': Quarantine) {
    forall o :: IsVerified(q, o) ==> IsVerified(q', o)
  }

  /** The upload leaves every verified entry of the transaction's quarantine verified. */
  ghost predicate IsTame(s: Repo, i: Input) {
    i.DoStageObjects? ==> KeepsVerified(QuarantineOf(s, i.tx), FileAll(QuarantineOf(s, i.tx), i.objects))
  }

  ghost predicate IsHeld(s: Repo, tx: Label, e: NetEffects, closure: set<Oid>) {
    IsWithin(e, closure) && closure <= Held(s, tx)
  }

  ghost predicate AreRecordsHeld(s: Repo, rs: seq<Record>) {
    forall i :: 0 <= i < |rs| ==> IsHeld(s, rs[i].tx, rs[i].effects, rs[i].closure)
  }

  ghost predicate AreCapsulesHeld(s: Repo) {
    forall id :: id in s.capsules && s.capsules[id].verdict.Commit? ==>
      IsHeld(s, s.capsules[id].tx, s.capsules[id].verdict.effects, s.capsules[id].closure)
  }

  /** Batches that may still win, those staged on the current head, hold what they will name. */
  ghost predicate AreBatchesHeld(s: Repo) {
    forall id :: id in s.staged && s.staged[id].batch.head == s.head.id ==>
      AreRecordsHeld(s, s.staged[id].batch.commits)
  }

  ghost predicate IsSafe(s: Repo) {
    && IsProtected(s.objects.Keys, s.head.body.point.roots.basis)
    && AreCapsulesHeld(s)
    && AreBatchesHeld(s)
  }

  lemma VerifiedHolds(s: Repo, s': Repo, tx: Label)
    requires s.objects.Keys <= s'.objects.Keys && KeepsVerified(QuarantineOf(s, tx), QuarantineOf(s', tx))
    ensures Held(s, tx) <= Held(s', tx)
  {
    forall o | o in Held(s, tx) ensures o in Held(s', tx)
    {
      if o !in s.objects { assert IsVerified(QuarantineOf(s, tx), o); }
    }
  }

  // ---- Staging ----

  lemma AdmitHeld(s: Repo, names: map<Label, Names>, d: Draft, c: Capsule)
    requires AreRecordsHeld(s, d.commits) && Admit(s, names, d, c).Ok?
    requires c.verdict.Commit? ==> IsHeld(s, c.tx, c.verdict.effects, c.closure)
    ensures AreRecordsHeld(s, Admit(s, names, d, c).value.commits)
  {
    var d' := Admit(s, names, d, c).value;
    if d'.commits != d.commits {
      assert d'.commits[..|d.commits|] == d.commits;
      var r := d'.commits[|d.commits|];
      assert IsHeld(s, r.tx, r.effects, r.closure);
    }
  }

  lemma {:induction false} AdmitAllHeld(s: Repo, names: map<Label, Names>, d: Draft, cs: seq<Capsule>)
    requires AreRecordsHeld(s, d.commits) && AdmitAll(s, names, d, cs).Ok?
    requires forall i :: 0 <= i < |cs| && cs[i].verdict.Commit? ==>
      IsHeld(s, cs[i].tx, cs[i].verdict.effects, cs[i].closure)
    ensures AreRecordsHeld(s, AdmitAll(s, names, d, cs).value.commits)
  {
    if cs != [] {
      AdmitAllHeld(s, names, d, cs[..|cs| - 1]);
      AdmitHeld(s, names, AdmitAll(s, names, d, cs[..|cs| - 1]).value, cs[|cs| - 1]);
    }
  }

  lemma SelectedHeld(s: Repo, ids: seq<Label>, i: nat)
    requires AreCapsulesHeld(s)
    requires forall k :: 0 <= k < |ids| ==> ids[k] in s.capsules
    requires i < |ids|
    ensures var c := SortByTx(Selected(s, ids));
      |c| == |ids| && (c[i].verdict.Commit? ==> IsHeld(s, c[i].tx, c[i].verdict.effects, c[i].closure))
  {
    var picked, sorted := Selected(s, ids), SortByTx(Selected(s, ids));
    SortKeeps(TxLess, picked);
    assert sorted[i] in multiset(picked);
    var k :| 0 <= k < |picked| && picked[k] == sorted[i];
    var id := ids[k];
    assert id in s.capsules;
  }

  lemma StageSafe(s: Repo, input: StageInput)
    requires IsSafe(s) && Stage(s, input).Ok?
    ensures IsSafe(Stage(s, input).value.0)
  {
    var cs := SortByTx(Selected(s, input.capsules));
    StageSortedIs(s, input, cs);
    SortKeeps(TxLess, Selected(s, input.capsules));
    forall i | 0 <= i < |cs| && cs[i].verdict.Commit?
      ensures IsHeld(s, cs[i].tx, cs[i].verdict.effects, cs[i].closure)
    {
      SelectedHeld(s, input.capsules, i);
    }
    AdmitAllHeld(s, input.names, MachineStaging.Start(s), cs);
    var s', d := Stage(s, input).value.0, AdmitAll(s, input.names, MachineStaging.Start(s), cs).value;
    if s' != s {
      EnteredSafe(s, input, cs, d, IntroduceCommits(s.ledger.commits, d.commits).value);
    }
  }

  lemma EnteredSafe(s: Repo, input: StageInput, cs: seq<Capsule>, d: Draft, commits: set<Label>)
    requires IsSafe(s) && AreRecordsHeld(s, d.commits)
    ensures IsSafe(Entered(s, input, cs, d, commits))
  {
    var s' := Entered(s, input, cs, d, commits);
    assert forall tx :: Held(s', tx) == Held(s, tx);
    forall id | id in s'.staged && s'.staged[id].batch.head == s'.head.id
      ensures AreRecordsHeld(s', s'.staged[id].batch.commits)
    {
      assert id != input.batch ==> AreRecordsHeld(s, s.staged[id].batch.commits);
    }
  }

  // ---- Publication ----

  lemma EffectsProtect(objects: set<Oid>, b: Basis, e: NetEffects)
    requires IsProtected(objects, b) && IsWithin(e, objects) && ApplyEffects(b, e).Some?
    ensures IsProtected(objects, ApplyEffects(b, e).value)
  {
  }

  lemma {:induction false} ReplayProtects(f: Meaning, objects: set<Oid>, b: Basis, cs: seq<Record>)
    requires forall b, e :: f(b, e) == ApplyEffects(b, e)
    requires IsProtected(objects, b) && Replay(f, b, cs).Some?
    requires forall i :: 0 <= i < |cs| ==> IsWithin(cs[i].effects, objects)
    ensures IsProtected(objects, Replay(f, b, cs).value)
  {
    if cs != [] {
      var n := |cs| - 1;
      ReplayProtects(f, objects, b, cs[..n]);
      var q := Replay(f, b, cs[..n]).value;
      assert f(q, cs[n].effects) == ApplyEffects(q, cs[n].effects);
      EffectsProtect(objects, q, cs[n].effects);
    }
  }

  lemma ClosureIsAdmitted(s: Repo, rs: seq<Record>, i: nat)
    requires i < |rs| && rs[i].closure <= Held(s, rs[i].tx)
    ensures rs[i].closure <= PromoteAll(s, s.objects, rs).Keys
  {
    forall o | o in rs[i].closure ensures o in PromoteAll(s, s.objects, rs)
    {
      PromotedKeys(s, s.objects, rs, o);
      if o !in s.objects { assert o in Promoted(s, rs[i]); }
    }
  }

  lemma PublishProtects(l: Laws, s: Repo, id: Label)
    requires Inv(l, s) && IsActual(l) && IsSafe(s) && id in s.staged
    requires s.staged[id].candidate.body.predecessor == Some(s.head.id)
    ensures IsProtected(Publish(s, id).objects.Keys, Publish(s, id).head.body.point.roots.basis)
  {
    var st := s.staged[id];
    var cs, objects := st.batch.commits, PromoteAll(s, s.objects, st.batch.commits).Keys;
    assert IsContinuation(l, s.chain, st);
    assert AreRecordsHeld(s, cs);
    PlayReplays(l.apply, s.head.body.point, st.batch.decisions, cs);
    forall o | o in s.objects ensures o in objects { PromotedKeys(s, s.objects, cs, o); }
    forall i | 0 <= i < |cs| ensures IsWithin(cs[i].effects, objects)
    {
      assert IsHeld(s, cs[i].tx, cs[i].effects, cs[i].closure);
      ClosureIsAdmitted(s, cs, i);
    }
    ReplayProtects(l.apply, objects, s.head.body.point.roots.basis, cs);
  }

  /** A capsule whose transaction was not decided keeps its quarantine. */
  lemma PublishHolds(s: Repo, id: Label, tx: Label)
    requires id in s.staged && tx !in Terminated(s.staged[id].batch)
    ensures Held(s, tx) <= Held(Publish(s, id), tx)
  {
    var s' := Publish(s, id);
    forall o | o in s.objects ensures o in s'.objects { PromotedKeys(s, s.objects, s.staged[id].batch.commits, o); }
    assert QuarantineOf(s', tx) == QuarantineOf(s, tx);
    VerifiedHolds(s, s', tx);
  }

  /** No batch can have been staged on a head that was not published yet. */
  lemma NoneStagedOn(l: Laws, s: Repo, head: Label, id: Label)
    requires AreStaged(l, s.chain, s.staged, s.ledger.heads) && head !in s.chain && id in s.staged
    ensures s.staged[id].batch.head != head
  {
    assert IsContinuation(l, s.chain, s.staged[id]);
  }

  lemma PublishSafe(l: Laws, s: Repo, id: Label)
    requires Inv(l, s) && IsActual(l) && IsSafe(s) && id in s.staged
    requires s.staged[id].candidate.body.predecessor == Some(s.head.id)
    ensures IsSafe(Publish(s, id))
  {
    var s' := Publish(s, id);
    PublishProtects(l, s, id);
    forall k | k in s'.capsules && s'.capsules[k].verdict.Commit?
      ensures IsHeld(s', s'.capsules[k].tx, s'.capsules[k].verdict.effects, s'.capsules[k].closure)
    {
      PublishHolds(s, id, s.capsules[k].tx);
    }
    forall k | k in s'.staged ensures s'.staged[k].batch.head != s'.head.id
    {
      NoneStagedOn(l, s, s'.head.id, k);
    }
  }

  // ---- The other changes ----

  /** With the head, the staged batches and fewer capsules, holding at least as much keeps a state safe. */
  lemma HoldingSafe(s: Repo, s': Repo)
    requires IsSafe(s) && s'.head == s.head && s'.staged == s.staged && s'.objects == s.objects
    requires forall id :: id in s'.capsules ==> id in s.capsules && s'.capsules[id] == s.capsules[id]
    requires forall tx :: Held(s, tx) <= Held(s', tx)
    ensures IsSafe(s')
  {
    forall id | id in s'.staged && s'.staged[id].batch.head == s'.head.id
      ensures AreRecordsHeld(s', s'.staged[id].batch.commits)
    {
      var rs := s.staged[id].batch.commits;
      assert AreRecordsHeld(s, rs);
      forall i | 0 <= i < |rs| ensures IsHeld(s', rs[i].tx, rs[i].effects, rs[i].closure)
      {
        assert IsHeld(s, rs[i].tx, rs[i].effects, rs[i].closure);
      }
    }
  }

  lemma FilesSafe(s: Repo, tx: Label, objects: seq<Upload>)
    requires IsSafe(s) && StageObjects(s, tx, objects).Ok?
    requires KeepsVerified(QuarantineOf(s, tx), FileAll(QuarantineOf(s, tx), objects))
    ensures IsSafe(StageObjects(s, tx, objects).value)
  {
    var s' := StageObjects(s, tx, objects).value;
    forall t ensures Held(s, t) <= Held(s', t)
    {
      assert t != tx ==> QuarantineOf(s', t) == QuarantineOf(s, t);
      VerifiedHolds(s, s', t);
    }
    HoldingSafe(s, s');
  }

  lemma PreparesSafe(s: Repo, c: Capsule)
    requires IsSafe(s) && c.tx in s.seals && IsBacked(s, c)
    ensures IsSafe(Prepared(s, c))
  {
    var s' := Prepared(s, c);
    assert forall tx :: Held(s', tx) == Held(s, tx);
    forall id | id in s'.staged && s'.staged[id].batch.head == s'.head.id
      ensures AreRecordsHeld(s', s'.staged[id].batch.commits)
    {
      assert AreRecordsHeld(s, s.staged[id].batch.commits);
    }
  }

  lemma ConfigureSafe(l: Laws, s: Repo, candidate: Label, policy: Policy)
    requires Inv(l, s) && IsSafe(s) && candidate !in s.ledger.heads
    ensures IsSafe(Reconfigured(s, candidate, policy))
  {
    var s' := Reconfigured(s, candidate, policy);
    assert forall tx :: Held(s', tx) == Held(s, tx);
    forall k | k in s'.staged ensures s'.staged[k].batch.head != candidate
    {
      NoneStagedOn(l, s, candidate, k);
    }
  }

  lemma SealSafe(s: Repo, id: Label, f: Fields, ledger: Ledger)
    requires IsSafe(s)
    ensures IsSafe(Sealed(s, id, f, ledger))
  {
    var s' := Sealed(s, id, f, ledger);
    forall tx ensures Held(s, tx) <= Held(s', tx) { assert EvidenceOf(s', tx) == EvidenceOf(s, tx); }
    HoldingSafe(s, s');
  }

  lemma CancelSafe(s: Repo, tx: Label, phase: Phase)
    requires IsSafe(s)
    ensures IsSafe(Cancel(s, tx, phase))
  {
    var s' := Cancel(s, tx, phase);
    forall t ensures Held(s, t) <= Held(s', t) { assert EvidenceOf(s', t) == EvidenceOf(s, t); }
    HoldingSafe(s, s');
  }

  lemma ChangeSafe(l: Laws, s: Repo, c: Change, s': Repo)
    requires Inv(l, s) && IsActual(l) && IsSafe(s) && IsChange(s, c, s')
    requires c.Files? ==> KeepsVerified(QuarantineOf(s, c.tx), FileAll(QuarantineOf(s, c.tx), c.objects))
    ensures IsSafe(s')
  {
    if c.Files? {
      FilesSafe(s, c.tx, c.objects);
    } else if c.Prepares? {
      PreparesSafe(s, c.capsule);
    } else if c.Stages? {
      StageSafe(s, c.input);
    } else if c.Publishes? {
      PublishSafe(l, s, c.batch);
    } else if c.Configures? {
      ConfigureSafe(l, s, c.candidate, c.policy);
    } else if c.Seals? {
      SealSafe(s, c.id, c.fields, c.ledger);
    } else if c.Cancels? {
      CancelSafe(s, c.tx, c.phase);
    }
  }

  /** Every upload of the run is tame where it happens. */
  ghost predicate IsTameRun(s: Repo, inputs: seq<Input>) {
    inputs == [] || (IsTameRun(s, inputs[..|inputs| - 1])
                     && IsTame(Run(s, inputs[..|inputs| - 1]), inputs[|inputs| - 1]))
  }

  lemma {:induction false} TameRunIsSafe(repository: Label, format: Format, head: Label, policy: Policy,
                                         inputs: seq<Input>)
    requires IsTameRun(Genesis(repository, format, head, policy), inputs)
    ensures IsSafe(Run(Genesis(repository, format, head, policy), inputs))
  {
    var s0 := Genesis(repository, format, head, policy);
    if inputs != [] {
      var n := |inputs| - 1;
      var s := Run(s0, inputs[..n]);
      TameRunIsSafe(repository, format, head, policy, inputs[..n]);
      RunInv(repository, format, head, policy, inputs[..n]);
      ActualLaws(Attempts(s0, inputs[..n]));
      var c := TransitionChange(s, inputs[n]);
      ChangeSafe(Actual(Attempts(s0, inputs[..n])), s, c, Transition(s, inputs[n]));
    }
  }

  /** In a tame run, published refs and retention roots only ever name admitted objects. */
  lemma TameRunNeverEscapes(repository: Label, format: Format, head: Label, policy: Policy, inputs: seq<Input>)
    requires IsTameRun(Genesis(repository, format, head, policy), inputs)
    ensures var s := Run(Genesis(repository, format, head, policy), inputs);
      IsProtected(s.objects.Keys, s.head.body.point.roots.basis)
  {
    TameRunIsSafe(repository, format, head, policy, inputs);
  }
}
