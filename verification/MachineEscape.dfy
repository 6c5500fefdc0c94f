/** A run in which a published ref names an object that never left quarantine. */
module MachineEscape {
  import opened Bytes
  import opened Intents
  import opened Fold
  import opened Evaluation
  import opened EvaluationLaws
  import opened EvaluationScopes
  import opened Machine
  import opened MachineQuarantine
  import opened Sorting

  const MAIN: RefName := Ascii("refs/a")

  const NEW := Oid(Sha1, 1)

  const FORGED := Oid(Sha1, 2)

  const WRITER := Capabilities({[97]}, false, false, false)

  const RULES := Policy(1, {}, map[7 := WRITER], 64, {1}, {DerivedGeneration})

  const PUSH := UpdateRef(MAIN, Absent, NEW, false)

  const ASK := Request(1, 0, 0, 7, 1, 5, 9, [Statement([PUSH], TxnAbort)], {}, true, DerivedGeneration)

  const PUSHED := NetEffects(map[MAIN := Set(NEW)], map[], map[], map[])

  lemma MainHasScope()
    ensures IsCanonical(MAIN) && ScopeOf(MAIN) == Some([97])
  {
    PrefixIsRefs();
    assert MAIN == InSpace([97], []);
    ScopeIsNamespace([97], []);
  }

  lemma AskIsOneIntent()
    ensures AddressedIntents(ASK) == [Placed(Address(0, 0), PUSH, TxnAbort)]
  {
    assert ASK.statements[1..] == [];
    assert PlacedFrom(ASK.statements[1..], 1) == [];
    assert AddressedIntents(ASK) == PlacedFrom(ASK.statements, 0);
  }

  lemma AskFolds()
    ensures var b := Basis(map[], map[], {}, map[]);
      && Process(b, AddressedIntents(ASK)).Running?
      && Diff(b, Process(b, AddressedIntents(ASK)).scratch) == PUSHED
  {
    AskIsOneIntent();
    var b, xs := Basis(map[], map[], {}, map[]), AddressedIntents(ASK);
    assert xs[..0] == [];
    assert Process(b, xs) == Fold.Step(Begin(b), xs[0]);
    var s := Process(b, xs).scratch;
    assert s.at.refs == map[MAIN := NEW];
    assert DiffRefs(b.refs, s.at.refs) == PUSHED.refs;
  }

  const CHECKED := Evidence(Sha1, map[], map[NEW := Staged(NEW, [])])

  lemma AskNames(xs: seq<Placed>)
    requires xs == AddressedIntents(ASK)
    ensures |xs| == 1 && NamedRef(xs[0].intent) == Some(MAIN)
    ensures Closure(ASK) == {NEW} && NEW in View(CHECKED)
  {
    AskIsOneIntent();
    assert NamedObject(xs[0].intent) == Some(NEW);
    assert IntentObjects(xs) == {NEW};
    assert IsVerified(CHECKED.quarantine, NEW);
  }

  lemma AskScreens()
    ensures Screen(RULES, CHECKED, ASK) == None
  {
    MainHasScope();
    AskNames(AddressedIntents(ASK));
  }

  lemma CommitsWith(p: Policy, ev: Evidence, b: Basis, req: Request, e: NetEffects)
    requires Evaluate(p, ev, b, req).verdict.Commit?
    requires Process(b, AddressedIntents(req)).Running? && Diff(b, Process(b, AddressedIntents(req)).scratch) == e
    ensures Evaluate(p, ev, b, req).verdict == Commit(e) && Evaluate(p, ev, b, req).closure == Closure(req)
  {
  }

  lemma AskIsAdmitted()
    ensures Evaluate(RULES, CHECKED, ORIGIN.roots.basis, ASK).verdict.Commit?
  {
    AskScreens();
    AskIsOneIntent();
    assert MAIN == InSpace([97], []);
    CreationCommitsIff(RULES, CHECKED, ORIGIN.roots.basis, ASK, [97], [], NEW);
  }

  /** Prepared against an empty repository with its one object verified, the request commits. */
  lemma AskCommits()
    ensures var c := Evaluate(RULES, CHECKED, ORIGIN.roots.basis, ASK);
      c.verdict == Commit(PUSHED) && c.closure == {NEW}
  {
    AskIsAdmitted();
    AskFolds();
    CommitsWith(RULES, CHECKED, ORIGIN.roots.basis, ASK, PUSHED);
    AskNames(AddressedIntents(ASK));
  }

  // ---- The run ----

  const START := Genesis(0, Sha1, 0, RULES)

  const STAGE := StageInput(1, 2, [1], map[1 := Names(1, 1)], true)

  const SCRIPT := [
    DoSeal(1, ASK),
    DoStageObjects(1, [Upload(NEW, NEW, [])]),
    DoPrepare(1, ASK, Refined),
    DoStage(STAGE),
    DoStageObjects(1, [Upload(NEW, FORGED, [])]),
    DoSwap(0, 1, 1)]

  const TIED := InputsOf(FieldsOf(ASK))

  const SEALED := Sealed(START, 1, FieldsOf(ASK), Ledger(map[TIED := 1], map[1 := TIED], {0}, {}, {}, {}, {}))

  const UPLOADED := SEALED.(quarantine := map[1 := map[NEW := Staged(NEW, [])]])

  lemma SealsFirst()
    ensures Transition(START, SCRIPT[0]) == SEALED
  {
  }

  lemma UploadsSecond()
    ensures Transition(SEALED, SCRIPT[1]) == UPLOADED
  {
    assert FileAll(map[], [Upload(NEW, NEW, [])]) == map[NEW := Staged(NEW, [])];
  }

  /** The first request is sealed, and nothing has been staged or published. */
  ghost predicate IsUnpublished(s: Repo) {
    && s.head == START.head
    && s.objects == map[]
    && 1 in s.seals && s.seals[1].fields == FieldsOf(ASK)
    && s.staged == map[]
    && s.ledger.heads == {0}
    && s.ledger.batches == {}
    && s.ledger.commits == {}
  }

  /** Sealed, uploaded and prepared: one committing capsule, nothing published. */
  ghost predicate IsPreparedPush(s: Repo, c: Capsule) {
    && IsUnpublished(s)
    && 1 in s.capsules && s.capsules[1] == c
    && c.tx == 1
    && c.verdict == Commit(PUSHED)
    && c.durability == DerivedGeneration
    && c.observed.epoch == 1
    && IsReusable(c.observed, ORIGIN.roots.basis, 1, 1)
  }

  lemma ReadsStillHold(xs: seq<Placed>)
    ensures IsReusable(BuildWitness(Refined, 1, 1, ORIGIN.roots.basis, xs), ORIGIN.roots.basis, 1, 1)
  {
    ReadsHoldIff(Refined, 1, 1, ORIGIN.roots.basis, ORIGIN.roots.basis, xs);
  }

  lemma CapsuleIsPush(s: Repo, c: Conclusion)
    requires IsUnpublished(s) && s.seals[1].preparations == 0 && c.verdict == Commit(PUSHED)
    ensures IsPreparedPush(Prepared(s, CapsuleOf(s, 1, ASK, Refined, c)), CapsuleOf(s, 1, ASK, Refined, c))
  {
    ReadsStillHold(AddressedIntents(ASK));
  }

  lemma PreparesThird(s: Repo) returns (c: Capsule, s': Repo)
    requires IsUnpublished(s) && s.seals[1].preparations == 0
    requires EvidenceOf(s, 1) == CHECKED && 1 !in s.ledger.capsules
    ensures Prepare(s, 1, ASK, Refined) == Ok(s') && IsPreparedPush(s', c)
    ensures s' == Prepared(s, c)
  {
    AskCommits();
    var e := Evaluate(RULES, CHECKED, ORIGIN.roots.basis, ASK);
    CapsuleIsPush(s, e);
    c := CapsuleOf(s, 1, ASK, Refined, e);
    s' := Prepared(s, c);
  }

  const LANDED := Basis(map[MAIN := NEW], map[], {}, map[])

  lemma PushLands()
    ensures ApplyEffects(ORIGIN.roots.basis, PUSHED) == Some(LANDED)
  {
    var r := ApplyEffects(ORIGIN.roots.basis, PUSHED).value;
    assert r.refs == LANDED.refs;
    assert r.positions == LANDED.positions;
    assert r.retention == LANDED.retention;
    assert r.outbox == LANDED.outbox;
  }

  lemma DecidesPush(s: Repo, c: Capsule)
    requires IsPreparedPush(s, c)
    ensures DecideAgainst(s, c, ORIGIN.roots.basis, 1) == Commits(PUSHED)
  {
  }

  lemma AdmitsPush(s: Repo, c: Capsule, d: Draft)
    requires IsPreparedPush(s, c) && d == Draft(ORIGIN, [], [], {}, [])
    ensures Admit(s, STAGE.names, d, c) == Ok(WithCommit(d, c, 1, PUSHED, LANDED))
  {
    DecidesPush(s, c);
    PushLands();
  }

  lemma AdmitsOne(s: Repo, names: map<Label, Names>, d: Draft, c: Capsule)
    ensures AdmitAll(s, names, d, [c]) == Admit(s, names, d, c)
  {
    assert [c][..0] == [];
    assert AdmitAll(s, names, d, []) == Ok(d);
  }

  const NEXT :=
    Head(2, Body(2, Some(0), Some(1), Point(1, Some(1), 1, Roots(LANDED, map[1 := Committed(1)])), RULES))

  /** The batch the swap will publish: the ref moved to the new object, which the record's closure names. */
  ghost predicate IsStagedPush(s: Repo, st: StagedBatch) {
    && s.head == START.head
    && s.objects == map[]
    && 1 in s.seals
    && s.staged == map[1 := st]
    && st.candidate == NEXT
    && st.batch.first == 1
    && st.batch.decisions == [Decision(1, 1, Committed(1))]
    && |st.batch.commits| == 1
    && st.batch.commits[0].sequence == 1
    && st.batch.commits[0].tx == 1
    && st.batch.durability == DerivedGeneration
  }

  lemma IntroducesOne(known: set<Label>, rs: seq<Record>)
    requires |rs| == 1 && rs[0].id !in known
    ensures IntroduceCommits(known, rs) == Ok(known + {rs[0].id})
  {
    assert rs[1..] == [];
    assert IntroduceCommits(known + {rs[0].id}, rs[1..]) == Ok(known + {rs[0].id});
  }

  lemma EntersPush(s: Repo, c: Capsule, d: Draft)
    requires IsPreparedPush(s, c) && d == WithCommit(Draft(ORIGIN, [], [], {}, []), c, 1, PUSHED, LANDED)
    ensures Enter(s, STAGE, [c], d).Ok?
    ensures var s' := Enter(s, STAGE, [c], d).value;
      && 1 in s'.staged && IsStagedPush(s', s'.staged[1])
      && s'.ledger == s.ledger.(batches := {1}, heads := {0, 2}, commits := {1})
      && s'.capsules == s.capsules && s'.seals == s.seals && s'.quarantine == s.quarantine
  {
    IntroducesOne({}, d.commits);
  }

  lemma StageOne(s: Repo, input: StageInput, id: Label)
    requires input.capsules == [id] && id in s.capsules
    ensures Stage(s, input) == StageSorted(s, input, [s.capsules[id]])
  {
    var c := s.capsules[id];
    assert Selected(s, input.capsules) == [c];
    assert [c][1..] == [];
    assert Sort(TxLess, [c][1..]) == [];
    assert SortByTx([c]) == Insert(TxLess, c, []);
  }

  lemma StagesEntered(s: Repo, input: StageInput, cs: seq<Capsule>, e: Draft)
    requires Stage(s, input) == StageSorted(s, input, cs) && e.decisions != []
    requires s.head.body.point.lastDecision < LAST && s.head.body.point.lastSequence < LAST
    requires AdmitAll(s, input.names, Draft(s.head.body.point, [], [], {}, []), cs) == Ok(e)
    requires Enter(s, input, cs, e).Ok?
    ensures Stage(s, input) == Ok((Enter(s, input, cs, e).value, StageOutcome(Some(input.batch), e.deferred)))
  {
  }

  lemma StagesFourth(s: Repo, c: Capsule) returns (s': Repo)
    requires IsPreparedPush(s, c)
    ensures Stage(s, STAGE).Ok? && s' == Stage(s, STAGE).value.0
    ensures 1 in s'.staged && IsStagedPush(s', s'.staged[1])
    ensures s'.ledger == s.ledger.(batches := {1}, heads := {0, 2}, commits := {1})
    ensures s'.capsules == s.capsules && s'.seals == s.seals && s'.quarantine == s.quarantine
  {
    StageOne(s, STAGE, 1);
    var d := Draft(ORIGIN, [], [], {}, []);
    AdmitsOne(s, STAGE.names, d, c);
    AdmitsPush(s, c, d);
    EntersPush(s, c, WithCommit(d, c, 1, PUSHED, LANDED));
    StagesEntered(s, STAGE, [c], WithCommit(d, c, 1, PUSHED, LANDED));
    s' := Enter(s, STAGE, [c], WithCommit(d, c, 1, PUSHED, LANDED)).value;
  }

  lemma SpoilsFifth(s: Repo, st: StagedBatch) returns (s': Repo)
    requires IsStagedPush(s, st)
    ensures StageObjects(s, 1, [Upload(NEW, FORGED, [])]) == Ok(s')
    ensures IsStagedPush(s', st) && !IsVerified(QuarantineOf(s', 1), NEW)
  {
    var q := QuarantineOf(s, 1);
    assert [Upload(NEW, FORGED, [])][1..] == [];
    assert FileAll(q, [Upload(NEW, FORGED, [])]) == q[NEW := Staged(FORGED, [])];
    s' := StageObjects(s, 1, [Upload(NEW, FORGED, [])]).value;
  }

  lemma SwapsSixth(s: Repo, st: StagedBatch)
    requires IsStagedPush(s, st)
    ensures CompareAndSwap(s, 0, 1, 1) == Ok((Publish(s, 1), Won(st.candidate.id)))
  {
  }

  lemma LosesObject(s: Repo, st: StagedBatch)
    requires s.staged == map[1 := st] && |st.batch.commits| == 1 && st.batch.commits[0].tx == 1
    requires NEW !in s.objects && !IsVerified(QuarantineOf(s, 1), NEW)
    ensures NEW !in Publish(s, 1).objects
  {
    PromotedKeys(s, s.objects, st.batch.commits, NEW);
  }

  ghost predicate HasEscaped(s: Repo) {
    MAIN in s.head.body.point.roots.basis.refs && s.head.body.point.roots.basis.refs[MAIN] !in s.objects
  }

  lemma StageStep(s: Repo, input: StageInput)
    requires Stage(s, input).Ok?
    ensures Transition(s, DoStage(input)) == Stage(s, input).value.0
  {
  }

  lemma UploadStep(s: Repo, tx: Label, objects: seq<Upload>)
    requires StageObjects(s, tx, objects).Ok?
    ensures Transition(s, DoStageObjects(tx, objects)) == StageObjects(s, tx, objects).value
  {
  }

  lemma SwapStep(s: Repo, expected: Label, generation: nat, id: Label)
    requires CompareAndSwap(s, expected, generation, id).Ok?
    ensures Transition(s, DoSwap(expected, generation, id)) == CompareAndSwap(s, expected, generation, id).value.0
  {
  }

  lemma EscapesFrom(s: Repo, c: Capsule) returns (s3: Repo, s4: Repo, s5: Repo, won: CasOutcome)
    requires IsPreparedPush(s, c)
    ensures Stage(s, STAGE).Ok? && Stage(s, STAGE).value.0 == s3
    ensures StageObjects(s3, 1, [Upload(NEW, FORGED, [])]) == Ok(s4)
    ensures CompareAndSwap(s4, 0, 1, 1) == Ok((s5, won))
    ensures HasEscaped(s5)
  {
    s3 := StagesFourth(s, c);
    s4 := SpoilsFifth(s3, s3.staged[1]);
    SwapsSixth(s4, s3.staged[1]);
    LosesObject(s4, s3.staged[1]);
    s5, won := Publish(s4, 1), Won(s3.staged[1].candidate.id);
  }

  lemma PrepareStep(s: Repo, id: Label, req: Request, g: Granularity)
    requires Prepare(s, id, req, g).Ok?
    ensures Transition(s, DoPrepare(id, req, g)) == Prepare(s, id, req, g).value
  {
  }

  lemma {:induction false} RunOfThree(s: Repo, before: seq<Input>, a: Input, b: Input, c: Input)
    ensures Run(s, before + [a, b, c]) == Transition(Transition(Transition(Run(s, before), a), b), c)
  {
    var x, y, z := before + [a], before + [a, b], before + [a, b, c];
    assert z[..|z| - 1] == y && y[..|y| - 1] == x && x[..|x| - 1] == before;
    assert Run(s, x) == Transition(Run(s, before), a);
    assert Run(s, y) == Transition(Run(s, x), b);
    assert Run(s, z) == Transition(Run(s, y), c);
  }

  lemma {:induction false} RunSnoc(s: Repo, inputs: seq<Input>, i: Input)
    ensures Run(s, inputs + [i]) == Transition(Run(s, inputs), i)
  {
    assert (inputs + [i])[..|inputs|] == inputs;
  }

  lemma StartsUploaded()
    ensures Run(START, SCRIPT[..2]) == UPLOADED
  {
    assert SCRIPT[..2] == [] + [SCRIPT[0]] + [SCRIPT[1]];
    RunSnoc(START, [], SCRIPT[0]);
    RunSnoc(START, [] + [SCRIPT[0]], SCRIPT[1]);
    SealsFirst();
    UploadsSecond();
  }

  lemma UploadedIsUnpublished()
    ensures IsUnpublished(UPLOADED) && UPLOADED.seals[1].preparations == 0
    ensures EvidenceOf(UPLOADED, 1) == CHECKED && 1 !in UPLOADED.ledger.capsules
  {
  }

  lemma FirstThree() returns (c: Capsule)
    ensures IsPreparedPush(Run(START, SCRIPT[..3]), c)
  {
    StartsUploaded();
    UploadedIsUnpublished();
    var s;
    c, s := PreparesThird(UPLOADED);
    PrepareStep(UPLOADED, 1, ASK, Refined);
    RunSnoc(START, SCRIPT[..2], DoPrepare(1, ASK, Refined));
    assert SCRIPT[..3] == SCRIPT[..2] + [DoPrepare(1, ASK, Refined)];
  }

  lemma LastThree(s: Repo, c: Capsule)
    requires IsPreparedPush(s, c)
    ensures HasEscaped(Transition(Transition(Transition(s, SCRIPT[3]), SCRIPT[4]), SCRIPT[5]))
  {
    var s3, s4, s5, won := EscapesFrom(s, c);
    StageStep(s, STAGE);
    UploadStep(s3, 1, [Upload(NEW, FORGED, [])]);
    SwapStep(s4, 0, 1, 1);
  }

  lemma {:induction false} RunOfSix(s: Repo, script: seq<Input>)
    requires |script| == 6
    ensures Run(s, script) == Transition(Transition(Transition(Run(s, script[..3]), script[3]), script[4]), script[5])
  {
    assert script == script[..3] + [script[3], script[4], script[5]];
    RunOfThree(s, script[..3], script[3], script[4], script[5]);
  }

  /**
   * Sealed, uploaded, prepared and staged in good order, then re-uploaded under
   * the same declared identity: the swap wins and the ref names an object that
   * is not in the store.
   */
  lemma EscapeHappens()
    ensures HasEscaped(Run(START, SCRIPT))
  {
    var c := FirstThree();
    RunOfSix(START, SCRIPT);
    LastThree(Run(START, SCRIPT[..3]), c);
  }
}
