/**
 * A run after which two capsules of one transaction stage in one order and
 * breach in the other, against the promise of one batch for any permutation
 * (crates/fgit-reference/src/transition.rs:886-892).
 */
module MachineRevival {
  import opened Bytes
  import opened Intents
  import opened Fold
  import opened FoldLaws
  import opened Evaluation
  import opened EvaluationLaws
  import opened Machine
  import opened MachineEscape
  import opened MachineLimits
  import opened MachineOrder
  import opened Sorting

  // ---- A capsule that revives another ----

  /** The reviver first: the revived capsule is a second decision. The other way round it is deferred. */
  lemma RevivalBreaks(s: Repo, names: map<Label, Names>, d: Draft, x: Capsule, y: Capsule)
    requires x.tx == y.tx && x.tx !in OutcomesOf(s) && x.tx in names && x.tx !in d.seen && !IsSpent(s, x.tx)
    requires d.point.lastDecision + 1 < LAST && d.point.lastSequence + 1 < LAST
    requires x.verdict.Commit? && ApplyEffects(d.point.roots.basis, x.verdict.effects).Some?
    requires y.verdict.Commit? && IsRevivedBy(s, d.point.roots.basis, x, y)
    requires ApplyEffects(ApplyEffects(d.point.roots.basis, x.verdict.effects).value, y.verdict.effects).Some?
    ensures AdmitTwo(s, names, d, x, y) == Broken(SecondDecisionInBatch)
    ensures AdmitTwo(s, names, d, y, x).Ok? && IsSameDraft(Landed(names, d, x), AdmitTwo(s, names, d, y, x).value)
  {
    AdmitOpen(s, names, d, x);
    var r := Admit(s, names, d, y);
    AdmitIsSame(s, names, d, r.value, x);
  }

  // ---- Deleting a ref, present or not ----

  const DROP := Request(2, 0, 0, 7, 1, 6, 10, [Statement([DeleteRef(MAIN, Any)], TxnAbort)], {}, true, DerivedGeneration)

  const DROPS := [Placed(Address(0, 0), DeleteRef(MAIN, Any), TxnAbort)]

  lemma DropIsOneIntent()
    ensures AddressedIntents(DROP) == DROPS
  {
    assert DROP.statements[1..] == [];
    assert PlacedFrom(DROP.statements[1..], 1) == [];
    assert AddressedIntents(DROP) == PlacedFrom(DROP.statements, 0);
  }

  /** The basis with one ref gone. */
  function Dropped(b: Basis, name: RefName): Basis {
    b.(refs := b.refs - {name})
  }

  lemma OneDelete(b: Basis, name: RefName, xs: seq<Placed>)
    requires |xs| == 1 && xs[0].intent == DeleteRef(name, Any)
    ensures var p := Process(b, xs);
      p.Running? && p.scratch == Scratch(Dropped(b, name), map[])
  {
    assert xs[..0] == [];
    assert Process(b, xs) == Fold.Step(Begin(b), xs[0]);
    assert name !in b.refs ==> b.refs - {name} == b.refs;
  }

  lemma DroppedRefs(b: map<RefName, Oid>, name: RefName)
    ensures forall n :: n in DiffRefs(b, b - {name}) ==> n == name && DiffRefs(b, b - {name})[n] == Delete
  {
  }

  lemma SameRoots(b: set<RetentionRoot>)
    ensures forall r :: r !in DiffRoots(b, b)
  {
  }

  lemma NoEvents()
    ensures forall s :: s !in DiffEvents(map[])
  {
  }

  /** The effects remove at most the named ref. */
  ghost predicate IsDrop(e: NetEffects, name: RefName) {
    && (forall n :: n in e.refs ==> n == name && e.refs[n] == Delete)
    && e.forge.Keys == {}
    && e.retention.Keys == {}
  }

  lemma DropDiffers(b: Basis, name: RefName)
    ensures IsDrop(Diff(b, Scratch(Dropped(b, name), map[])), name)
  {
    DroppedRefs(b.refs, name);
    SameRoots(b.retention);
    NoEvents();
  }

  lemma DropIsLawful(c: Case, name: RefName)
    requires c.olds.Keys == c.effects.refs.Keys && IsDrop(c.effects, name)
    requires ScopeOf(name).Some? && ScopeOf(name).value in c.capabilities.scopes - c.policy.protected
    ensures IsLawful(c)
  {
  }

  lemma DropNames(xs: seq<Placed>)
    requires xs == DROPS
    ensures IntentObjects(xs) == {} && NamedRef(xs[0].intent) == Some(MAIN)
  {
  }

  lemma DropScreens(ev: Evidence)
    requires ev.quarantine == map[]
    ensures Screen(RULES, ev, DROP) == None
  {
    MainHasScope();
    DropIsOneIntent();
    DropNames(DROPS);
  }

  lemma DropVerdict(ev: Evidence, b: Basis)
    requires ev.quarantine == map[]
    ensures Evaluate(RULES, ev, b, DROP).verdict.Commit?
  {
    DropScreens(ev);
    DropIsOneIntent();
    OneDelete(b, MAIN, DROPS);
    DropDiffers(b, MAIN);
    MainHasScope();
    DropIsLawful(CaseOf(RULES, ev, b, DROP, Diff(b, Scratch(Dropped(b, MAIN), map[]))), MAIN);
    CommitsIff(RULES, ev, b, DROP);
  }

  lemma CommitCarries(p: Policy, ev: Evidence, b: Basis, req: Request)
    requires Evaluate(p, ev, b, req).verdict.Commit?
    ensures var progress := Process(b, AddressedIntents(req));
      progress.Running? && ApplyEffects(b, Evaluate(p, ev, b, req).verdict.effects) == Some(progress.scratch.at)
  {
    FoldCarriesBasis(b, AddressedIntents(req));
  }

  /** The request commits on every basis, and leaves the ref gone. */
  lemma DropCommits(ev: Evidence, b: Basis)
    requires ev.quarantine == map[]
    ensures var v := Evaluate(RULES, ev, b, DROP).verdict;
      v.Commit? && ApplyEffects(b, v.effects) == Some(Dropped(b, MAIN))
  {
    DropVerdict(ev, b);
    CommitCarries(RULES, ev, b, DROP);
    DropIsOneIntent();
    OneDelete(b, MAIN, DROPS);
  }

  // ---- The run ----

  const HISTORY := [
    DoSeal(1, ASK),
    DoStageObjects(1, [Upload(NEW, NEW, [])]),
    DoSeal(2, DROP),
    DoPrepare(1, ASK, Refined),
    DoPrepare(2, DROP, Refined),
    DoStage(STAGE),
    DoSwap(0, 1, 1),
    DoPrepare(3, DROP, Refined)]

  const BOUND := InputsOf(FieldsOf(DROP))

  const PAIR := Sealed(UPLOADED, 2, FieldsOf(DROP),
    UPLOADED.ledger.(txByInputs := UPLOADED.ledger.txByInputs[BOUND := 2],
                     inputsByTx := UPLOADED.ledger.inputsByTx[2 := BOUND]))

  lemma SealsFresh(s: Repo, id: Label, req: Request)
    requires req.repository == s.repository && KeyScope(FieldsOf(req)) !in s.keys && req.tx !in s.seals
    requires req.schema in s.head.body.policy.schemas && id !in s.ledger.seals
    requires req.tx !in s.ledger.inputsByTx && InputsOf(FieldsOf(req)) !in s.ledger.txByInputs
    ensures Transition(s, DoSeal(id, req)) ==
      Sealed(s, id, FieldsOf(req),
             s.ledger.(txByInputs := s.ledger.txByInputs[InputsOf(FieldsOf(req)) := req.tx],
                       inputsByTx := s.ledger.inputsByTx[req.tx := InputsOf(FieldsOf(req))]))
  {
  }

  lemma SealsSecond()
    ensures Transition(UPLOADED, DoSeal(2, DROP)) == PAIR
  {
    SealsFresh(UPLOADED, 2, DROP);
  }

  /** A capsule of the second request, prepared against basis `b`. */
  ghost predicate IsDropCapsule(c: Capsule, b: Basis) {
    && c.tx == 2
    && c.verdict.Commit? && ApplyEffects(b, c.verdict.effects) == Some(Dropped(b, MAIN))
    && c.observed.granularity == Refined && c.observed.epoch == 1
    && (forall b' :: ReadsHold(c.observed, b') <==> Get(b'.refs, MAIN) == Get(b.refs, MAIN))
  }

  lemma DropTargets()
    ensures Targets(DROPS) == {RefTarget(MAIN)}
  {
    assert TargetOf(DROPS[0].intent) == RefTarget(MAIN) && Subject(DROPS[0].intent) == None;
  }

  lemma DropWitness(generation: nat, b: Basis)
    ensures var w := BuildWitness(Refined, generation, 1, b, AddressedIntents(DROP));
      forall b' :: ReadsHold(w, b') <==> Get(b'.refs, MAIN) == Get(b.refs, MAIN)
  {
    DropIsOneIntent();
    DropTargets();
    forall b'
      ensures ReadsHold(BuildWitness(Refined, generation, 1, b, DROPS), b') <==> Get(b'.refs, MAIN) == Get(b.refs, MAIN)
    {
      ReadsHoldIff(Refined, generation, 1, b, b', DROPS);
      assert BasisCell(b, RefTarget(MAIN)) == BasisCell(b', RefTarget(MAIN)) <==> Get(b'.refs, MAIN) == Get(b.refs, MAIN);
    }
  }

  ghost predicate CanPrepareDrop(s: Repo, n: nat) {
    && s.head.body.policy == RULES
    && 2 !in s.quarantine
    && 2 in s.seals && s.seals[2].fields == FieldsOf(DROP) && s.seals[2].preparations == n
  }

  lemma FilesDrop(s: Repo, id: Label, n: nat, e: Conclusion)
    requires CanPrepareDrop(s, n) && n < LAST_COUNT && id !in s.ledger.capsules
    requires var b := s.head.body.point.roots.basis;
      e.verdict.Commit? && ApplyEffects(b, e.verdict.effects) == Some(Dropped(b, MAIN))
    ensures var c := CapsuleOf(s, id, DROP, Refined, e);
      && PrepareWith(s, id, DROP, Refined, e) == Ok(Prepared(s, c))
      && IsDropCapsule(c, s.head.body.point.roots.basis) && c.id == id
  {
    DropWitness(s.head.body.generation, s.head.body.point.roots.basis);
  }

  lemma PreparesDrop(s: Repo, id: Label, n: nat) returns (c: Capsule)
    requires CanPrepareDrop(s, n) && n < LAST_COUNT && id !in s.ledger.capsules
    ensures IsDropCapsule(c, s.head.body.point.roots.basis) && c.id == id
    ensures Transition(s, DoPrepare(id, DROP, Refined)) == Prepared(s, c)
  {
    var ev, b := EvidenceOf(s, 2), s.head.body.point.roots.basis;
    DropCommits(ev, b);
    FilesDrop(s, id, n, Evaluate(RULES, ev, b, DROP));
    c := CapsuleOf(s, id, DROP, Refined, Evaluate(RULES, ev, b, DROP));
    PrepareStep(s, id, DROP, Refined);
  }

  lemma PairIsReady()
    ensures IsUnpublished(PAIR) && PAIR.seals[1].preparations == 0 && EvidenceOf(PAIR, 1) == CHECKED
    ensures CanPrepareDrop(PAIR, 0) && PAIR.ledger.capsules == {}
  {
  }

  /** The push is prepared, and the drop too, against the empty basis. */
  ghost predicate AreBothPrepared(s: Repo, x: Capsule, a: Capsule) {
    && IsPreparedPush(s, x)
    && CanPrepareDrop(s, 1)
    && 2 in s.capsules && s.capsules[2] == a && IsDropCapsule(a, ORIGIN.roots.basis)
    && s.ledger.capsules == {1, 2}
  }

  lemma SecondPrepared(s: Repo, x: Capsule, a: Capsule)
    requires IsPreparedPush(s, x) && CanPrepareDrop(s, 0) && s.ledger.capsules == {1}
    requires IsDropCapsule(a, ORIGIN.roots.basis) && a.id == 2
    ensures AreBothPrepared(Prepared(s, a), x, a)
  {
  }

  lemma PreparesPush(s: Repo) returns (x: Capsule, t: Repo)
    requires IsUnpublished(s) && s.seals[1].preparations == 0 && EvidenceOf(s, 1) == CHECKED
    requires CanPrepareDrop(s, 0) && s.ledger.capsules == {}
    ensures Transition(s, DoPrepare(1, ASK, Refined)) == t
    ensures IsPreparedPush(t, x) && CanPrepareDrop(t, 0) && t.ledger.capsules == {1}
  {
    x, t := PreparesThird(s);
    PrepareStep(s, 1, ASK, Refined);
    PreparedKeeps(s, x, 2);
  }

  lemma PreparesSecond(s: Repo, x: Capsule) returns (a: Capsule)
    requires IsPreparedPush(s, x) && CanPrepareDrop(s, 0) && s.ledger.capsules == {1}
    ensures AreBothPrepared(Transition(s, DoPrepare(2, DROP, Refined)), x, a)
  {
    a := PreparesDrop(s, 2, 0);
    SecondPrepared(s, x, a);
  }

  lemma PreparedKeeps(s: Repo, c: Capsule, tx: Label)
    requires c.tx in s.seals && tx in s.seals && tx != c.tx
    ensures var s' := Prepared(s, c);
      && s'.head == s.head && s'.quarantine == s.quarantine
      && tx in s'.seals && s'.seals[tx] == s.seals[tx]
      && s'.ledger.capsules == s.ledger.capsules + {c.id}
  {
  }

  /** The push is published, and the drop prepared before it is still on file. */
  ghost predicate IsPublished(s: Repo, a: Capsule, n: nat) {
    && s.head == NEXT
    && CanPrepareDrop(s, n)
    && 2 in s.capsules && s.capsules[2] == a && IsDropCapsule(a, ORIGIN.roots.basis)
    && s.ledger.batches == {1} && s.ledger.heads == {0, 2} && s.ledger.commits == {1}
  }

  lemma PublishFrame(s: Repo, st: StagedBatch, tx: Label, id: Label)
    requires 1 in s.staged && s.staged[1] == st && |st.batch.decisions| == 1 && st.batch.decisions[0].tx != tx
    requires id in s.capsules && s.capsules[id].tx == tx
    ensures var t := Publish(s, 1);
      && t.head == st.candidate && t.seals == s.seals && t.ledger == s.ledger
      && (tx !in s.quarantine ==> tx !in t.quarantine)
      && id in t.capsules && t.capsules[id] == s.capsules[id]
  {
    assert Terminated(st.batch) == {st.batch.decisions[0].tx};
  }

  lemma PublishKeeps(s: Repo, st: StagedBatch, a: Capsule)
    requires IsStagedPush(s, st) && CanPrepareDrop(s, 1)
    requires 2 in s.capsules && s.capsules[2] == a && IsDropCapsule(a, ORIGIN.roots.basis)
    requires s.ledger.batches == {1} && s.ledger.heads == {0, 2} && s.ledger.commits == {1}
    ensures IsPublished(Publish(s, 1), a, 1) && Publish(s, 1).ledger == s.ledger
  {
    PublishFrame(s, st, 2, 2);
  }

  /** The push is staged, with the drop's first capsule still on file. */
  ghost predicate IsStagedBeside(s: Repo, a: Capsule) {
    && 1 in s.staged && IsStagedPush(s, s.staged[1])
    && CanPrepareDrop(s, 1)
    && 2 in s.capsules && s.capsules[2] == a && IsDropCapsule(a, ORIGIN.roots.basis)
    && s.ledger.batches == {1} && s.ledger.heads == {0, 2} && s.ledger.commits == {1} && s.ledger.capsules == {1, 2}
  }

  lemma StagesPush(s: Repo, x: Capsule, a: Capsule) returns (t: Repo)
    requires AreBothPrepared(s, x, a)
    ensures Transition(s, DoStage(STAGE)) == t && IsStagedBeside(t, a)
  {
    t := StagesFourth(s, x);
    StageStep(s, STAGE);
  }

  lemma PublishesPush(s: Repo, a: Capsule)
    requires IsStagedBeside(s, a)
    ensures var t := Transition(s, DoSwap(0, 1, 1)); IsPublished(t, a, 1) && t.ledger.capsules == {1, 2}
  {
    SwapsSixth(s, s.staged[1]);
    SwapStep(s, 0, 1, 1);
    PublishKeeps(s, s.staged[1], a);
  }

  /** Two capsules of one transaction on file: `a` saw no ref, `b` saw it. */
  ghost predicate AreOnFile(s: Repo, a: Capsule, b: Capsule) {
    IsPublished(s, a, 2) && 3 in s.capsules && s.capsules[3] == b && IsDropCapsule(b, LANDED)
  }

  lemma PreparesLate(s: Repo, a: Capsule) returns (b: Capsule)
    requires IsPublished(s, a, 1) && s.ledger.capsules == {1, 2}
    ensures AreOnFile(Transition(s, HISTORY[7]), a, b)
  {
    b := PreparesDrop(s, 3, 1);
    LatePrepared(s, a, b);
  }

  lemma LatePrepared(s: Repo, a: Capsule, b: Capsule)
    requires IsPublished(s, a, 1) && s.ledger.capsules == {1, 2}
    requires IsDropCapsule(b, LANDED) && b.id == 3
    ensures AreOnFile(Prepared(s, b), a, b)
  {
  }

  const OPENING := SCRIPT[..2] + [DoSeal(2, DROP)]

  lemma AfterThree()
    ensures Run(START, OPENING) == PAIR
  {
    StartsUploaded();
    SealsSecond();
    RunSnoc(START, SCRIPT[..2], DoSeal(2, DROP));
  }

  lemma AfterFive(s: Repo) returns (x: Capsule, a: Capsule, t: Repo, u: Repo)
    requires s == PAIR
    ensures Transition(s, DoPrepare(1, ASK, Refined)) == t && Transition(t, DoPrepare(2, DROP, Refined)) == u
    ensures AreBothPrepared(u, x, a)
  {
    PairIsReady();
    x, t := PreparesPush(s);
    a := PreparesSecond(t, x);
    u := Transition(t, DoPrepare(2, DROP, Refined));
  }

  lemma AfterSeven(s: Repo, x: Capsule, a: Capsule) returns (t: Repo, u: Repo)
    requires AreBothPrepared(s, x, a)
    ensures Transition(s, DoStage(STAGE)) == t && Transition(t, DoSwap(0, 1, 1)) == u
    ensures IsPublished(u, a, 1) && u.ledger.capsules == {1, 2}
  {
    t := StagesPush(s, x, a);
    PublishesPush(t, a);
    u := Transition(t, DoSwap(0, 1, 1));
  }

  lemma AfterEight(s: Repo, x: Capsule, a: Capsule) returns (t: Repo, u: Repo, v: Repo, b: Capsule)
    requires AreBothPrepared(s, x, a)
    ensures Transition(s, DoStage(STAGE)) == t && Transition(t, DoSwap(0, 1, 1)) == u
    ensures Transition(u, DoPrepare(3, DROP, Refined)) == v && AreOnFile(v, a, b)
  {
    t, u := AfterSeven(s, x, a);
    b := PreparesLate(u, a);
    v := Transition(u, DoPrepare(3, DROP, Refined));
  }

  lemma {:induction false} RunOfTwo(s: Repo, before: seq<Input>, t: Repo, i: Input, u: Repo, j: Input, v: Repo)
    requires Run(s, before) == t && Transition(t, i) == u && Transition(u, j) == v
    ensures Run(s, before + [i, j]) == v
  {
    RunSnoc(s, before, i);
    RunSnoc(s, before + [i], j);
    assert before + [i, j] == before + [i] + [j];
  }

  lemma RunsPrepared() returns (x: Capsule, a: Capsule)
    ensures AreBothPrepared(Run(START, OPENING + [DoPrepare(1, ASK, Refined), DoPrepare(2, DROP, Refined)]), x, a)
  {
    AfterThree();
    var t, u;
    x, a, t, u := AfterFive(PAIR);
    RunOfTwo(START, OPENING, PAIR, DoPrepare(1, ASK, Refined), t, DoPrepare(2, DROP, Refined), u);
  }

  lemma RunsOn(s: Repo, before: seq<Input>, x: Capsule, a: Capsule) returns (b: Capsule)
    requires AreBothPrepared(Run(s, before), x, a)
    ensures AreOnFile(Run(s, before + [DoStage(STAGE), DoSwap(0, 1, 1)] + [DoPrepare(3, DROP, Refined)]), a, b)
  {
    var t, u, v;
    t, u, v, b := AfterEight(Run(s, before), x, a);
    RunOfTwo(s, before, Run(s, before), DoStage(STAGE), t, DoSwap(0, 1, 1), u);
    RunSnoc(s, before + [DoStage(STAGE), DoSwap(0, 1, 1)], DoPrepare(3, DROP, Refined));
  }

  lemma HistorySplits()
    ensures HISTORY == OPENING + [DoPrepare(1, ASK, Refined), DoPrepare(2, DROP, Refined)]
                       + [DoStage(STAGE), DoSwap(0, 1, 1)] + [DoPrepare(3, DROP, Refined)]
  {
  }

  lemma FilesBoth() returns (a: Capsule, b: Capsule)
    ensures AreOnFile(Run(START, HISTORY), a, b)
  {
    var x;
    x, a := RunsPrepared();
    b := RunsOn(START, OPENING + [DoPrepare(1, ASK, Refined), DoPrepare(2, DROP, Refined)], x, a);
    HistorySplits();
  }

  // ---- Both orders ----

  function Listing(capsules: seq<Label>): StageInput {
    StageInput(3, 3, capsules, map[2 := Names(3, 3)], true)
  }

  lemma DroppedIsOrigin()
    ensures Dropped(LANDED, MAIN) == ORIGIN.roots.basis
  {
  }

  lemma LateRevives(s: Repo, a: Capsule, b: Capsule)
    requires AreOnFile(s, a, b)
    ensures ApplyEffects(LANDED, b.verdict.effects) == Some(ORIGIN.roots.basis)
    ensures IsRevivedBy(s, LANDED, b, a)
  {
    DroppedIsOrigin();
    assert Get(LANDED.refs, MAIN) == Some(NEW) && Get(ORIGIN.roots.basis.refs, MAIN) == None;
  }

  lemma StageTwo(s: Repo, input: StageInput, x: Label, y: Label)
    requires input.capsules == [x, y] && x in s.capsules && y in s.capsules && s.capsules[x].tx == s.capsules[y].tx
    requires s.head.body.point.lastDecision < LAST && s.head.body.point.lastSequence < LAST
    ensures var r := AdmitTwo(s, input.names, Draft(s.head.body.point, [], [], {}, []), s.capsules[x], s.capsules[y]);
      && (r.Broken? ==> Stage(s, input) == Broken(r.breach))
      && (r.Ok? && r.value.decisions != [] ==>
            var e := Enter(s, input, [s.capsules[x], s.capsules[y]], r.value);
            if e.Broken? then Stage(s, input) == Broken(e.breach)
            else Stage(s, input) == Ok((e.value, StageOutcome(Some(input.batch), r.value.deferred))))
  {
    var cs := [s.capsules[x], s.capsules[y]];
    assert Selected(s, input.capsules) == cs;
    SortTwo(cs[0], cs[1]);
    var d := Draft(s.head.body.point, [], [], {}, []);
    assert cs == [] + [cs[0]] + [cs[1]];
    AdmitSnoc(s, input.names, d, [], cs[0]);
    AdmitSnoc(s, input.names, d, [] + [cs[0]], cs[1]);
  }

  lemma SortTwo(x: Capsule, y: Capsule)
    requires x.tx == y.tx
    ensures SortByTx([x, y]) == [x, y]
  {
    assert [x, y][1..] == [y] && [y][1..] == [];
    assert Sort(TxLess, [y]) == Insert(TxLess, y, Sort(TxLess, []));
    assert Sort(TxLess, [x, y]) == Insert(TxLess, x, [y]);
  }

  lemma EntersFresh(s: Repo, input: StageInput, cs: seq<Capsule>, e: Draft)
    requires s.head.body.generation < LAST && input.batch !in s.ledger.batches && input.candidate !in s.ledger.heads
    requires |e.commits| == 1 && e.commits[0].id !in s.ledger.commits
    ensures Enter(s, input, cs, e).Ok?
  {
    IntroducesOne(s.ledger.commits, e.commits);
  }

  /**
   * Prepared before and after the ref was published, two capsules of one
   * request to drop it: the older first, the batch is staged and the older
   * deferred; the newer first, it revives the older and staging breaches.
   */
  lemma ListingOrderMatters()
    ensures var s := Run(START, HISTORY);
      && Stage(s, Listing([2, 3])).Ok? && Stage(s, Listing([2, 3])).value.1.batch == Some(3)
      && Stage(s, Listing([3, 2])) == Broken(SecondDecisionInBatch)
  {
    var a, b := FilesBoth();
    BothOrders(Run(START, HISTORY), a, b);
  }

  /** Any state in which capsule `i` revives capsule `j`: the order of the two is the difference. */
  lemma RevivedStage(s: Repo, input: StageInput, i: Label, j: Label)
    requires i in s.capsules && j in s.capsules
    requires var x, y, p := s.capsules[i], s.capsules[j], s.head.body.point;
      && x.tx == y.tx && x.tx !in OutcomesOf(s) && x.tx in input.names && !IsSpent(s, x.tx)
      && p.lastDecision + 1 < LAST && p.lastSequence + 1 < LAST && s.head.body.generation < LAST
      && x.verdict.Commit? && ApplyEffects(p.roots.basis, x.verdict.effects).Some?
      && y.verdict.Commit? && IsRevivedBy(s, p.roots.basis, x, y)
      && ApplyEffects(ApplyEffects(p.roots.basis, x.verdict.effects).value, y.verdict.effects).Some?
      && input.names[x.tx].commit !in s.ledger.commits
    requires input.batch !in s.ledger.batches && input.candidate !in s.ledger.heads
    ensures var older := Stage(s, input.(capsules := [j, i]));
      older.Ok? && older.value.1.batch == Some(input.batch)
    ensures Stage(s, input.(capsules := [i, j])) == Broken(SecondDecisionInBatch)
  {
    var x, y, d := s.capsules[i], s.capsules[j], Draft(s.head.body.point, [], [], {}, []);
    RevivalBreaks(s, input.names, d, x, y);
    StageTwo(s, input.(capsules := [i, j]), i, j);
    StageTwo(s, input.(capsules := [j, i]), j, i);
    EntersFresh(s, input.(capsules := [j, i]), [y, x], AdmitTwo(s, input.names, d, y, x).value);
  }

  lemma BothOrders(s: Repo, a: Capsule, b: Capsule)
    requires AreOnFile(s, a, b)
    ensures Stage(s, Listing([2, 3])).Ok? && Stage(s, Listing([2, 3])).value.1.batch == Some(3)
    ensures Stage(s, Listing([3, 2])) == Broken(SecondDecisionInBatch)
  {
    LateRevives(s, a, b);
    RevivedStage(s, Listing([]), 3, 2);
  }
}
