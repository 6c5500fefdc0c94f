/** What holds of every run of the admission machine from genesis. */
module MachineTheorems {
  import opened Bytes
  import opened Intents
  import opened Fold
  import opened Evaluation
  import opened EvaluationLaws
  import opened Machine
  import opened MachineHistory
  import opened MachineInvariant
  import opened MachineStaging

  // ---- The laws of the actual evaluator ----

  /** A preparation that was accepted: the head it ran against, the objects it saw, and its request. */
  datatype Attempt = Attempt(head: Head, ev: Evidence, req: Request)

  /** Evaluating the attempt's request at `b`, with its policy and evidence, concludes with exactly this record. */
  ghost predicate IsGround(a: Attempt, b: Basis, r: Record) {
    && a.req.tx == r.tx
    && a.req.digest == r.digest
    && a.head.body.policy.epoch == r.epoch
    && Evaluate(a.head.body.policy, a.ev, b, a.req).verdict == Commit(r.effects)
    && Evaluate(a.head.body.policy, a.ev, b, a.req).closure == r.closure
  }

  ghost predicate IsJustified(known: set<Attempt>, b: Basis, r: Record) {
    exists a :: a in known && IsGround(a, b, r)
  }

  ghost predicate IsTestimony(a: Attempt, body: Body, f: Fields, c: Capsule) {
    && a.head.body == body
    && FieldsOf(a.req) == f
    && a.req.tx == c.tx
    && a.req.digest == c.digest
    && c.observed == BuildWitness(c.observed.granularity, body.generation, body.policy.epoch, body.point.roots.basis,
                                  AddressedIntents(a.req))
    && Evaluate(body.policy, a.ev, body.point.roots.basis, a.req) == Conclusion(c.verdict, c.intentMap, c.closure)
  }

  ghost predicate IsVouched(known: set<Attempt>, body: Body, f: Fields, c: Capsule) {
    exists a :: a in known && IsTestimony(a, body, f, c)
  }

  ghost function Actual(known: set<Attempt>): Laws {
    Laws(ApplyEffects,
         (b, r) => IsJustified(known, b, r),
         (body, f, c) => IsVouched(known, body, f, c))
  }

  lemma TestimonyTransfers(known: set<Attempt>, body: Body, f: Fields, c: Capsule, b: Basis, r: Record)
    requires IsVouched(known, body, f, c) && ReadsHold(c.observed, b) && Records(r, c)
    ensures IsJustified(known, b, r)
  {
    var a :| a in known && IsTestimony(a, body, f, c);
    WitnessIsSound(c.observed, body.policy, a.ev, body.point.roots.basis, b, a.req);
    assert IsGround(a, b, r);
  }

  lemma ActualLaws(known: set<Attempt>)
    ensures IsTransferable(Actual(known)) && IsActual(Actual(known))
  {
    var l := Actual(known);
    forall body, f, c, b, r | l.vouch(body, f, c) && ReadsHold(c.observed, b) && Records(r, c) ensures l.just(b, r)
    {
      TestimonyTransfers(known, body, f, c, b, r);
    }
  }

  lemma ActualExtends(known: set<Attempt>, more: set<Attempt>)
    requires known <= more
    ensures Learns(Actual(known), Actual(more))
  {
  }

  // ---- What a run has attempted ----

  /** What one input adds: an accepted preparation, as it found the repository. */
  ghost function AttemptOf(s: Repo, i: Input): set<Attempt> {
    if i.DoPrepare? && Prepare(s, i.id, i.request, i.granularity).Ok?
    then {Attempt(s.head, EvidenceOf(s, i.request.tx), i.request)}
    else {}
  }

  ghost function Attempts(start: Repo, inputs: seq<Input>): set<Attempt> {
    if inputs == [] then {}
    else
      var front := inputs[..|inputs| - 1];
      Attempts(start, front) + AttemptOf(Run(start, front), inputs[|inputs| - 1])
  }

  /** Input `k` of the run is the preparation `a`, accepted in the state the inputs before it reach. */
  ghost predicate IsMade(start: Repo, inputs: seq<Input>, k: nat, a: Attempt) {
    && k < |inputs| && inputs[k].DoPrepare? && inputs[k].request == a.req
    && var s := Run(start, inputs[..k]);
    && a.head == s.head && a.ev == EvidenceOf(s, a.req.tx)
    && a.req.tx in s.seals && s.seals[a.req.tx].fields == FieldsOf(a.req)
  }

  lemma {:induction false} AttemptIsMade(start: Repo, inputs: seq<Input>, a: Attempt) returns (k: nat)
    requires a in Attempts(start, inputs)
    ensures IsMade(start, inputs, k, a)
  {
    var n := |inputs| - 1;
    var front := inputs[..n];
    if a in Attempts(start, front) {
      k := AttemptIsMade(start, front, a);
      assert front[..k] == inputs[..k];
    } else {
      k := n;
    }
  }

  // ---- Every transition keeps the invariant ----

  lemma PreparedIsVouched(s: Repo, id: Label, req: Request, g: Granularity, c: Conclusion)
    requires req.tx in s.seals && s.seals[req.tx].fields == FieldsOf(req)
    requires c == Evaluate(s.head.body.policy, EvidenceOf(s, req.tx), s.head.body.point.roots.basis, req)
    ensures IsVouched({Attempt(s.head, EvidenceOf(s, req.tx), req)}, s.head.body, s.seals[req.tx].fields,
                      CapsuleOf(s, id, req, g, c))
  {
    assert IsTestimony(Attempt(s.head, EvidenceOf(s, req.tx), req), s.head.body, FieldsOf(req),
                       CapsuleOf(s, id, req, g, c));
  }

  /** A transition either leaves the state alone or does one of six things. */
  datatype Change =
    | Same
    | Seals(id: Label, fields: Fields, ledger: Ledger)
    | Files(tx: Label, objects: seq<Upload>)
    | Prepares(capsule: Capsule, attempt: Attempt)
    | Stages(input: StageInput)
    | Publishes(batch: Label)
    | Configures(candidate: Label, policy: Policy)
    | Cancels(tx: Label, phase: Phase)

  /** A committing capsule names only objects admitted or verified when it was prepared. */
  ghost predicate IsBacked(s: Repo, c: Capsule) {
    c.verdict.Commit? ==>
      && IsWithin(c.verdict.effects, c.closure)
      && c.closure <= View(EvidenceOf(s, c.tx)).Keys
  }

  ghost predicate IsChange(s: Repo, c: Change, s': Repo) {
    match c
    case Same => s' == s
    case Seals(id, f, ledger) =>
      && f.tx !in s.seals && f.repository == s.repository
      && (KeyScope(f) in s.keys ==> s.keys[KeyScope(f)] == f.digest)
      && Bind(s.ledger, f.tx, InputsOf(f)) == Ok(ledger)
      && s' == Sealed(s, id, f, ledger)
    case Files(tx, objects) => StageObjects(s, tx, objects) == Ok(s')
    case Prepares(capsule, attempt) =>
      && capsule.tx in s.seals && capsule.basisHead == s.head.id
      && IsVouched({attempt}, s.head.body, s.seals[capsule.tx].fields, capsule)
      && IsBacked(s, capsule)
      && s' == Prepared(s, capsule)
    case Stages(input) => Stage(s, input).Ok? && s' == Stage(s, input).value.0
    case Publishes(id) =>
      id in s.staged && s.staged[id].candidate.body.predecessor == Some(s.head.id) && s' == Publish(s, id)
    case Configures(candidate, policy) =>
      && candidate !in s.ledger.heads && policy.epoch == s.head.body.policy.epoch + 1
      && s' == Reconfigured(s, candidate, policy)
    case Cancels(tx, phase) => s' == Cancel(s, tx, phase)
  }

  lemma SealChange(s: Repo, id: Label, req: Request) returns (c: Change)
    ensures IsChange(s, c, Transition(s, DoSeal(id, req)))
    ensures !c.Files? && !c.Prepares?
  {
    var r, f := SealRequest(s, id, req), FieldsOf(req);
    if r.Ok? && r.value.1.Created? {
      c := Seals(id, f, Bind(s.ledger, f.tx, InputsOf(f)).value);
    } else {
      c := Same;
    }
  }

  lemma PreparedIsBacked(s: Repo, id: Label, req: Request, g: Granularity, c: Conclusion)
    requires req.tx in s.seals
    requires c == Evaluate(s.head.body.policy, EvidenceOf(s, req.tx), s.head.body.point.roots.basis, req)
    ensures IsBacked(s, CapsuleOf(s, id, req, g, c))
  {
    if c.verdict.Commit? {
      CommitIsCovered(s.head.body.policy, EvidenceOf(s, req.tx), s.head.body.point.roots.basis, req);
    }
  }

  lemma PrepareChange(s: Repo, id: Label, req: Request, g: Granularity) returns (c: Change)
    ensures IsChange(s, c, Transition(s, DoPrepare(id, req, g)))
    ensures !c.Files?
    ensures c.Prepares? ==> c.attempt in AttemptOf(s, DoPrepare(id, req, g))
  {
    var e := Evaluate(s.head.body.policy, EvidenceOf(s, req.tx), s.head.body.point.roots.basis, req);
    if PrepareWith(s, id, req, g, e).Ok? {
      PreparedIsVouched(s, id, req, g, e);
      PreparedIsBacked(s, id, req, g, e);
      c := Prepares(CapsuleOf(s, id, req, g, e), Attempt(s.head, EvidenceOf(s, req.tx), req));
    } else {
      c := Same;
    }
  }

  lemma SwapChange(s: Repo, expected: Label, generation: nat, id: Label) returns (c: Change)
    ensures IsChange(s, c, Transition(s, DoSwap(expected, generation, id)))
    ensures !c.Files? && !c.Prepares?
  {
    var r := CompareAndSwap(s, expected, generation, id);
    c := if r.Ok? && r.value.1.Won? then Publishes(id) else Same;
  }

  lemma ConfigureChange(s: Repo, expected: Label, generation: nat, candidate: Label, policy: Policy)
      returns (c: Change)
    ensures IsChange(s, c, Transition(s, DoConfigure(expected, generation, candidate, policy)))
    ensures !c.Files? && !c.Prepares?
  {
    var r := PublishConfiguration(s, expected, generation, candidate, policy);
    c := if r.Ok? && r.value.1.Pinned? then Configures(candidate, policy) else Same;
  }

  lemma TransitionChange(s: Repo, i: Input) returns (c: Change)
    ensures IsChange(s, c, Transition(s, i))
    ensures c.Files? ==> i == DoStageObjects(c.tx, c.objects)
    ensures c.Prepares? ==> c.attempt in AttemptOf(s, i)
  {
    match i {
      case DoSeal(id, req) => c := SealChange(s, id, req);
      case DoStageObjects(tx, objects) => c := if StageObjects(s, tx, objects).Ok? then Files(tx, objects) else Same;
      case DoPrepare(id, req, g) => c := PrepareChange(s, id, req, g);
      case DoStage(input) => c := if Stage(s, input).Ok? then Stages(input) else Same;
      case DoSwap(expected, generation, batch) => c := SwapChange(s, expected, generation, batch);
      case DoConfigure(expected, generation, candidate, policy) =>
        c := ConfigureChange(s, expected, generation, candidate, policy);
      case DoCancel(tx, phase) => c := Cancels(tx, phase);
    }
  }

  lemma ChangeInv(l: Laws, s: Repo, c: Change, s': Repo)
    requires IsTransferable(l) && IsActual(l) && Inv(l, s) && IsChange(s, c, s')
    requires c.Prepares? ==> l.vouch(s.head.body, s.seals[c.capsule.tx].fields, c.capsule)
    ensures Inv(l, s')
  {
    match c {
      case Same =>
      case Seals(id, f, ledger) => SealInv(l, s, id, f, ledger);
      case Files(tx, objects) => StageObjectsInv(l, s, tx, objects);
      case Prepares(capsule, attempt) => PrepareInv(l, s, capsule);
      case Stages(input) => StageInv(l, s, input);
      case Publishes(id) => PublishInv(l, s, id);
      case Configures(candidate, policy) => ConfigureInv(l, s, candidate, policy);
      case Cancels(tx, phase) => CancelInv(l, s, tx, phase);
    }
  }

  lemma VouchedAmong(known: set<Attempt>, a: Attempt, body: Body, f: Fields, c: Capsule)
    requires IsVouched({a}, body, f, c) && a in known
    ensures IsVouched(known, body, f, c)
  {
  }

  lemma ChangeFormat(s: Repo, c: Change, s': Repo)
    requires IsChange(s, c, s')
    ensures s'.format == s.format
  {
    if c.Stages? { StageKeepsRest(s, c.input); }
  }

  /** Staging changes only the staged batches and the ledger. */
  lemma StageKeepsRest(s: Repo, input: StageInput)
    requires Stage(s, input).Ok?
    ensures var s' := Stage(s, input).value.0;
      s' == s.(staged := s'.staged, ledger := s'.ledger)
  {
    StageSortedIs(s, input, SortByTx(Selected(s, input.capsules)));
  }

  /** A state some run from genesis reaches. */
  ghost predicate IsReachable(s: Repo) {
    exists repository, head, policy, inputs :: s == Run(Genesis(repository, s.format, head, policy), inputs)
  }

  lemma {:induction false} RunInv(repository: Label, format: Format, head: Label, policy: Policy, inputs: seq<Input>)
    ensures var start := Genesis(repository, format, head, policy); var s := Run(start, inputs);
      s.format == format && Inv(Actual(Attempts(start, inputs)), s)
  {
    var start := Genesis(repository, format, head, policy);
    var known := Attempts(start, inputs);
    if inputs == [] {
      GenesisInv(Actual(known), repository, format, head, policy);
    } else {
      var n := |inputs| - 1;
      RunInv(repository, format, head, policy, inputs[..n]);
      var s := Run(start, inputs[..n]);
      ActualExtends(Attempts(start, inputs[..n]), known);
      InvLearns(Actual(Attempts(start, inputs[..n])), Actual(known), s);
      StepInv(known, s, inputs[n]);
    }
  }

  lemma StepInv(known: set<Attempt>, s: Repo, i: Input)
    requires Inv(Actual(known), s) && AttemptOf(s, i) <= known
    ensures Transition(s, i).format == s.format && Inv(Actual(known), Transition(s, i))
  {
    ActualLaws(known);
    var c := TransitionChange(s, i);
    ChangeFormat(s, c, Transition(s, i));
    if c.Prepares? { VouchedAmong(known, c.attempt, s.head.body, s.seals[c.capsule.tx].fields, c.capsule); }
    ChangeInv(Actual(known), s, c, Transition(s, i));
  }

  /** The invariant holds of every state a run reaches. */
  lemma ReachableInv(s: Repo) returns (known: set<Attempt>)
    requires IsReachable(s)
    ensures Inv(Actual(known), s)
  {
    var repository, head, policy, inputs :| s == Run(Genesis(repository, s.format, head, policy), inputs);
    RunInv(repository, s.format, head, policy, inputs);
    known := Attempts(Genesis(repository, s.format, head, policy), inputs);
  }

  /**
   * Published history is complete: replaying every decision and record from the
   * empty repository, checking sequence numbers, parents and resulting roots,
   * gives exactly the current head.
   */
  lemma HistoryReplays(s: Repo)
    requires IsReachable(s)
    ensures Play(ApplyEffects, ORIGIN, s.decisions, s.commits) == Some(s.head.body.point)
  {
    var known := ReachableInv(s);
    PastBasis(Actual(known), s.head, s.chain, s.decisions, s.commits);
  }

  /** Decisions are numbered from 1 without gaps, one per transaction, and the outcome index is exactly them. */
  lemma DecisionsAreIndexed(s: Repo)
    requires IsReachable(s)
    ensures forall i :: 0 <= i < |s.decisions| ==> s.decisions[i].sequence == i + 1
    ensures forall i, j :: 0 <= i < j < |s.decisions| ==> s.decisions[i].tx != s.decisions[j].tx
    ensures forall i :: 0 <= i < |s.decisions| ==>
      s.decisions[i].tx in OutcomesOf(s) && OutcomesOf(s)[s.decisions[i].tx] == s.decisions[i].outcome
    ensures forall tx :: tx in OutcomesOf(s) ==> exists i :: 0 <= i < |s.decisions| && s.decisions[i].tx == tx
  {
    HistoryReplays(s);
    PlayDecides(ApplyEffects, ORIGIN, s.decisions, s.commits);
    IndexMeaning(map[], s.decisions);
    forall tx | tx in OutcomesOf(s) ensures exists i :: 0 <= i < |s.decisions| && s.decisions[i].tx == tx
    {
      IndexIsDecided(map[], s.decisions, tx);
    }
  }

  /** Commit records are numbered from 1 without gaps and linked parent to child up to the head's latest. */
  lemma CommitsAreLinked(s: Repo)
    requires IsReachable(s)
    ensures IsLinked(1, None, s.commits)
    ensures s.head.body.point.lastCommit == LinkBefore(None, s.commits, |s.commits|)
  {
    HistoryReplays(s);
    PlayLinks(ApplyEffects, ORIGIN, s.decisions, s.commits);
  }
}
