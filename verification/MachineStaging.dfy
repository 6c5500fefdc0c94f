/** Staging and the head compare-and-swap keep the invariant. */
module MachineStaging {
  import opened Bytes
  import opened Intents
  import opened Fold
  import opened Evaluation
  import opened EvaluationLaws
  import opened Machine
  import opened MachineHistory
  import opened MachineInvariant
  import opened Sorting

  /** The record a capsule's commit leaves. */
  predicate Records(r: Record, c: Capsule) {
    && c.verdict == Commit(r.effects)
    && r.tx == c.tx
    && r.digest == c.digest
    && r.closure == c.closure
    && r.epoch == c.observed.epoch
  }

  /** A vouched capsule whose reads still hold justifies its record wherever they hold. */
  ghost predicate IsTransferable(l: Laws) {
    forall body, f, c, b, r {:trigger l.vouch(body, f, c), l.just(b, r)} ::
      l.vouch(body, f, c) && ReadsHold(c.observed, b) && Records(r, c) ==> l.just(b, r)
  }

  ghost predicate IsActual(l: Laws) {
    forall b, e {:trigger l.apply(b, e)} :: l.apply(b, e) == ApplyEffects(b, e)
  }

  // ---- The draft ----

  ghost predicate IsDraft(l: Laws, base: Point, sealed: set<Label>, d: Draft) {
    && Play(l.apply, base, d.decisions, d.commits) == Some(d.point)
    && IsSerial(l, base.roots.basis, d.commits)
    && (forall tx :: tx in d.point.roots.outcomes ==> tx in base.roots.outcomes || tx in d.seen)
    && (forall tx :: tx in d.point.roots.outcomes ==> tx in sealed)
  }

  lemma RefusalDraft(l: Laws, base: Point, sealed: set<Label>, d: Draft, tx: Label,
                     outcome: Terminal)
    requires IsDraft(l, base, sealed, d) && outcome.Refused?
    requires tx !in base.roots.outcomes && tx !in d.seen && tx in sealed
    ensures IsDraft(l, base, sealed, WithRefusal(d, tx, outcome))
  {
    var d' := WithRefusal(d, tx, outcome);
    assert d'.decisions[..|d'.decisions| - 1] == d.decisions;
  }

  lemma CommitDraft(l: Laws, base: Point, sealed: set<Label>, d: Draft, c: Capsule, id: Label,
                    effects: NetEffects, after: Basis)
    requires IsDraft(l, base, sealed, d)
    requires c.tx !in base.roots.outcomes && c.tx !in d.seen && c.tx in sealed
    requires l.apply(d.point.roots.basis, effects) == Some(after)
    requires l.just(d.point.roots.basis, RecordOf(d.point, c, id, effects, after))
    ensures IsDraft(l, base, sealed, WithCommit(d, c, id, effects, after))
  {
    var d' := WithCommit(d, c, id, effects, after);
    assert d'.decisions[..|d'.decisions| - 1] == d.decisions;
    assert d'.commits[..|d'.commits| - 1] == d.commits;
    PlayReplays(l.apply, base, d.decisions, d.commits);
    SerialSnoc(l, base.roots.basis, d.commits, RecordOf(d.point, c, id, effects, after));
  }

  lemma AdmitDraft(l: Laws, s: Repo, names: map<Label, Names>, d: Draft, c: Capsule)
    requires IsTransferable(l) && IsActual(l)
    requires IsDraft(l, s.head.body.point, s.seals.Keys, d)
    requires c.tx in s.seals && c.basisHead in s.chain
    requires l.vouch(s.chain[c.basisHead], s.seals[c.tx].fields, c)
    requires Admit(s, names, d, c).Ok?
    ensures IsDraft(l, s.head.body.point, s.seals.Keys, Admit(s, names, d, c).value)
  {
    var base, sealed := s.head.body.point, s.seals.Keys;
    var v := DecideAgainst(s, c, d.point.roots.basis, s.head.body.generation);
    if v.Refuses? {
      RefusalDraft(l, base, sealed, d, c.tx, Refused(v.code, names[c.tx].refusal));
    } else if v.Commits? {
      var b, effects, id := d.point.roots.basis, v.effects, names[c.tx].commit;
      assert l.apply(b, effects) == ApplyEffects(b, effects);
      var after := l.apply(b, effects).value;
      var r := RecordOf(d.point, c, id, effects, after);
      assert Records(r, c) && ReadsHold(c.observed, b);
      assert l.just(b, r);
      CommitDraft(l, base, sealed, d, c, id, effects, after);
    }
  }

  ghost predicate AllVouched(l: Laws, s: Repo, cs: seq<Capsule>) {
    forall i :: 0 <= i < |cs| ==>
      && cs[i].tx in s.seals
      && cs[i].basisHead in s.chain
      && l.vouch(s.chain[cs[i].basisHead], s.seals[cs[i].tx].fields, cs[i])
  }

  lemma {:induction false} AdmitAllDraft(l: Laws, s: Repo, names: map<Label, Names>, d: Draft, cs: seq<Capsule>)
    requires IsTransferable(l) && IsActual(l) && AllVouched(l, s, cs)
    requires IsDraft(l, s.head.body.point, s.seals.Keys, d)
    requires AdmitAll(s, names, d, cs).Ok?
    ensures IsDraft(l, s.head.body.point, s.seals.Keys, AdmitAll(s, names, d, cs).value)
  {
    if cs != [] {
      var n := |cs| - 1;
      AdmitAllDraft(l, s, names, d, cs[..n]);
      AdmitDraft(l, s, names, AdmitAll(s, names, d, cs[..n]).value, cs[n]);
    }
  }

  // ---- Sorting ----

  lemma SortedIsVouched(l: Laws, s: Repo, cs: seq<Capsule>)
    requires AllVouched(l, s, cs)
    ensures AllVouched(l, s, SortByTx(cs))
  {
    SortKeeps(TxLess, cs);
    var sorted := SortByTx(cs);
    forall i | 0 <= i < |sorted|
      ensures && sorted[i].tx in s.seals
              && sorted[i].basisHead in s.chain
              && l.vouch(s.chain[sorted[i].basisHead], s.seals[sorted[i].tx].fields, sorted[i])
    {
      assert sorted[i] in multiset(cs);
      assert sorted[i] in cs;
      var j :| 0 <= j < |cs| && cs[j] == sorted[i];
    }
  }

  // ---- Stage ----

  lemma StagedGrow(l: Laws, chain: Chain, staged: map<Label, StagedBatch>, heads: set<Label>, id: Label,
                   st: StagedBatch)
    requires AreStaged(l, chain, staged, heads) && st.candidate.id !in heads && IsContinuation(l, chain, st)
    ensures AreStaged(l, chain, staged[id := st], heads + {st.candidate.id})
  {
  }

  lemma EnterInv(l: Laws, s: Repo, input: StageInput, cs: seq<Capsule>, d: Draft, commits: set<Label>)
    requires Inv(l, s) && input.candidate !in s.ledger.heads
    requires IsDraft(l, s.head.body.point, s.seals.Keys, d)
    ensures Inv(l, Entered(s, input, cs, d, commits))
  {
    var st := StagedBatch(BatchOf(s, input, cs, d), CandidateOf(s, input, d), input.durable);
    assert IsContinuation(l, s.chain, st);
    StagedGrow(l, s.chain, s.staged, s.ledger.heads, input.batch, st);
    KnownStaged(s.seals, OutcomesOf(s), s.staged, input.batch, st);
  }

  lemma KnownStaged(seals: map<Label, Seal>, outcomes: map<Label, Terminal>, staged: map<Label, StagedBatch>,
                    id: Label, st: StagedBatch)
    requires AreKnown(seals, outcomes, staged)
    requires forall tx :: tx in st.candidate.body.point.roots.outcomes ==> tx in seals
    ensures AreKnown(seals, outcomes, staged[id := st])
  {
  }

  lemma FreshDraft(l: Laws, s: Repo)
    requires Inv(l, s)
    ensures IsDraft(l, s.head.body.point, s.seals.Keys, Start(s))
  {
  }

  lemma SelectedIsVouched(l: Laws, s: Repo, ids: seq<Label>)
    requires AreVouched(l, s.chain, s.seals, s.capsules)
    requires forall i :: 0 <= i < |ids| ==> ids[i] in s.capsules
    ensures AllVouched(l, s, Selected(s, ids))
  {
    var picked := Selected(s, ids);
    forall i | 0 <= i < |picked|
      ensures && picked[i].tx in s.seals
              && picked[i].basisHead in s.chain
              && l.vouch(s.chain[picked[i].basisHead], s.seals[picked[i].tx].fields, picked[i])
    {
      var id := ids[i];
      assert id in s.capsules;
    }
  }

  lemma StageInv(l: Laws, s: Repo, input: StageInput)
    requires IsTransferable(l) && IsActual(l) && Inv(l, s) && Stage(s, input).Ok?
    ensures Inv(l, Stage(s, input).value.0)
  {
    var picked := Selected(s, input.capsules);
    SelectedIsVouched(l, s, input.capsules);
    SortedIsVouched(l, s, picked);
    StageSortedInv(l, s, input, SortByTx(picked));
  }

  function Start(s: Repo): Draft {
    Draft(s.head.body.point, [], [], {}, [])
  }

  /** Staging either leaves the state alone or files the draft of all its capsules. */
  lemma StageSortedIs(s: Repo, input: StageInput, cs: seq<Capsule>)
    requires StageSorted(s, input, cs).Ok?
    ensures AdmitAll(s, input.names, Start(s), cs).Ok?
    ensures var s', d := StageSorted(s, input, cs).value.0, AdmitAll(s, input.names, Start(s), cs).value;
      || s' == s
      || (&& input.candidate !in s.ledger.heads
          && s' == Entered(s, input, cs, d, IntroduceCommits(s.ledger.commits, d.commits).value))
  {
  }

  lemma StageSortedInv(l: Laws, s: Repo, input: StageInput, cs: seq<Capsule>)
    requires IsTransferable(l) && IsActual(l) && Inv(l, s) && AllVouched(l, s, cs) && StageSorted(s, input, cs).Ok?
    ensures Inv(l, StageSorted(s, input, cs).value.0)
  {
    StageSortedIs(s, input, cs);
    FreshDraft(l, s);
    AdmitAllDraft(l, s, input.names, Start(s), cs);
    var s', d := StageSorted(s, input, cs).value.0, AdmitAll(s, input.names, Start(s), cs).value;
    if s' != s {
      EnterInv(l, s, input, cs, d, IntroduceCommits(s.ledger.commits, d.commits).value);
    }
  }

  // ---- Compare and swap ----

  lemma PublishInv(l: Laws, s: Repo, id: Label)
    requires Inv(l, s) && id in s.staged
    requires s.staged[id].candidate.body.predecessor == Some(s.head.id)
    ensures Inv(l, Publish(s, id))
  {
    var st := s.staged[id];
    var s' := Publish(s, id);
    assert IsContinuation(l, s.chain, st);
    PastGrows(l, s.head, s.chain, s.decisions, s.commits, st.candidate, st.batch.decisions, st.batch.commits);
    StagedSurvive(l, s.chain, s.staged, s.ledger.heads, st.candidate, s'.staged, s.ledger.heads);
    VouchedGrow(l, s.chain, s'.chain, s.seals, s.seals, s.capsules);
    VouchedDrop(l, s'.chain, s.seals, s.capsules, Terminated(st.batch));
    KnownPublish(s.seals, OutcomesOf(s), s.staged, id);
  }

  lemma VouchedDrop(l: Laws, chain: Chain, seals: map<Label, Seal>, capsules: map<Label, Capsule>, txs: set<Label>)
    requires AreVouched(l, chain, seals, capsules)
    ensures AreVouched(l, chain, seals, DropCapsules(capsules, txs))
  {
  }

  lemma KnownPublish(seals: map<Label, Seal>, outcomes: map<Label, Terminal>, staged: map<Label, StagedBatch>,
                     id: Label)
    requires AreKnown(seals, outcomes, staged) && id in staged
    ensures AreKnown(seals, staged[id].candidate.body.point.roots.outcomes, staged - {id})
  {
  }
}
