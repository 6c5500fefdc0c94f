/**
 * The canonical admission machine: seal, quarantine, prepare, stage, head
 * compare-and-swap, configuration and cancellation, each a function between
 * state values (crates/fgit-reference/src/transition.rs, decision.rs,
 * state.rs, machine.rs).
 */
module Machine {
  import opened Bytes
  import opened Intents
  import opened Fold
  import opened Ancestry
  import opened Evaluation
  import opened EvaluationLaws
  import opened Sorting

  /** The last value of every `u64` sequence. */
  const LAST := 0xffff_ffff_ffff_ffff

  const REPREPARATION_BUDGET := 4

  const LAST_COUNT := 0xffff_ffff

  datatype Breach =
    | SecondDecisionInBatch
    | SecondTerminalDecision
    | SequenceExhausted
    | HeadPredecessorMismatch
    | PolicyEpochNotSuccessor
    | HeadGenerationNotSuccessor
    | DecisionSequenceDiscontinuity
    | RepositorySequenceDiscontinuity
    | IdentityReused
    | TxIdDerivationInconsistent
    | TxIdInputsInconsistent
    | UnknownSeal
    | UnknownCapsule
    | UnstagedBatch
    | RepositoryMismatch

  datatype Result<+T> = Ok(value: T) | Broken(breach: Breach)

  datatype Terminal = Committed(commit: Label) | Refused(code: Code, record: Label)

  datatype Roots = Roots(basis: Basis, outcomes: map<Label, Terminal>)

  datatype Decision = Decision(tx: Label, sequence: nat, outcome: Terminal)

  /** A repository commit record. */
  datatype Record = Record(
    id: Label,
    sequence: nat,
    parent: Option<Label>,
    tx: Label,
    digest: Digest,
    effects: NetEffects,
    refs: map<RefName, Oid>,
    positions: map<Label, Position>,
    closure: set<Oid>,
    epoch: nat)

  /** Where a head stands in the decision and commit sequences; 0 means none yet. */
  datatype Point = Point(lastDecision: nat, lastCommit: Option<Label>, lastSequence: nat, roots: Roots)

  datatype Body = Body(
    generation: nat,
    predecessor: Option<Label>,
    tail: Option<Label>,
    point: Point,
    policy: Policy)

  datatype Head = Head(id: Label, body: Body)

  datatype Batch = Batch(
    id: Label,
    head: Label,
    generation: nat,
    first: nat,
    decisions: seq<Decision>,
    commits: seq<Record>,
    resulting: Roots,
    epoch: nat,
    durability: Durability)

  datatype StagedBatch = StagedBatch(batch: Batch, candidate: Head, durable: bool)

  datatype Capsule = Capsule(
    id: Label,
    tx: Label,
    seal: Label,
    basisHead: Label,
    digest: Digest,
    intentMap: seq<Mapping>,
    closure: set<Oid>,
    observed: Witness,
    verdict: Verdict,
    durability: Durability)

  datatype Fields = Fields(
    tx: Label, tenant: Label, repository: Label, principal: Label, key: Label, digest: Digest, schema: Label)

  datatype Inputs = Inputs(tenant: Label, repository: Label, principal: Label, key: Label, digest: Digest)

  datatype Scope = Scope(tenant: Label, repository: Label, principal: Label, key: Label)

  datatype Seal = Seal(id: Label, fields: Fields, preparations: nat)

  function FieldsOf(r: Request): Fields {
    Fields(r.tx, r.tenant, r.repository, r.principal, r.key, r.digest, r.schema)
  }

  function InputsOf(f: Fields): Inputs {
    Inputs(f.tenant, f.repository, f.principal, f.key, f.digest)
  }

  function KeyScope(f: Fields): Scope {
    Scope(f.tenant, f.repository, f.principal, f.key)
  }

  /** Every identity ever introduced. */
  datatype Ledger = Ledger(
    txByInputs: map<Inputs, Label>,
    inputsByTx: map<Label, Inputs>,
    heads: set<Label>,
    batches: set<Label>,
    commits: set<Label>,
    capsules: set<Label>,
    seals: set<Label>)

  datatype Repo = Repo(
    repository: Label,
    format: Format,
    head: Head,
    chain: map<Label, Body>,
    batches: map<Label, Batch>,
    staged: map<Label, StagedBatch>,
    decisions: seq<Decision>,
    commits: seq<Record>,
    seals: map<Label, Seal>,
    keys: map<Scope, Digest>,
    capsules: map<Label, Capsule>,
    quarantine: map<Label, Quarantine>,
    objects: Parents,
    ledger: Ledger)

  const ORIGIN := Point(0, None, 0, Roots(Basis(map[], map[], {}, map[]), map[]))

  function Genesis(repository: Label, format: Format, head: Label, policy: Policy): Repo {
    var body := Body(1, None, None, ORIGIN, policy);
    Repo(repository, format, Head(head, body), map[head := body], map[], map[], [], [], map[], map[], map[], map[],
         map[], Ledger(map[], map[], {head}, {}, {}, {}, {}))
  }

  function OutcomesOf(s: Repo): map<Label, Terminal> {
    s.head.body.point.roots.outcomes
  }

  // ---- Seal ----

  datatype SealOutcome = Created(seal: Label) | ExistingRetry(seal: Label) | Rejected(why: Rejection)

  datatype Rejection = IdempotencyKeyReuse | UnsupportedSchema

  /** The derivation law: one identity per input tuple, and one tuple per identity. */
  function Bind(l: Ledger, tx: Label, inputs: Inputs): Result<Ledger> {
    if inputs in l.txByInputs && l.txByInputs[inputs] != tx then Broken(TxIdDerivationInconsistent)
    else if tx in l.inputsByTx && l.inputsByTx[tx] != inputs then Broken(TxIdInputsInconsistent)
    else Ok(l.(txByInputs := l.txByInputs[inputs := tx], inputsByTx := l.inputsByTx[tx := inputs]))
  }

  /** A new seal and its key binding. */
  function Sealed(s: Repo, id: Label, f: Fields, ledger: Ledger): Repo {
    s.(ledger := ledger.(seals := s.ledger.seals + {id}),
       seals := s.seals[f.tx := Seal(id, f, 0)],
       keys := s.keys[KeyScope(f) := f.digest])
  }

  function SealRequest(s: Repo, id: Label, req: Request): Result<(Repo, SealOutcome)> {
    var f := FieldsOf(req);
    var scope := KeyScope(f);
    if req.repository != s.repository then Broken(RepositoryMismatch)
    else if scope in s.keys && s.keys[scope] != req.digest then Ok((s, Rejected(IdempotencyKeyReuse)))
    else if req.schema !in s.head.body.policy.schemas then Ok((s, Rejected(UnsupportedSchema)))
    else if req.tx in s.seals then
      if s.seals[req.tx].fields == f then Ok((s, ExistingRetry(s.seals[req.tx].id)))
      else Ok((s, Rejected(IdempotencyKeyReuse)))
    else
      var bound := Bind(s.ledger, req.tx, InputsOf(f));
      if bound.Broken? then Broken(bound.breach)
      else if id in s.ledger.seals then Broken(IdentityReused)
      else Ok((Sealed(s, id, f, bound.value), Created(id)))
  }

  // ---- Quarantine ----

  datatype Upload = Upload(declared: Oid, recomputed: Oid, parents: seq<Oid>)

  /** Filing objects in order; a later object under the same declared identity replaces an earlier one. */
  function FileAll(q: Quarantine, objects: seq<Upload>): Quarantine
    decreases |objects|
  {
    if objects == [] then q
    else FileAll(q[objects[0].declared := Staged(objects[0].recomputed, objects[0].parents)], objects[1..])
  }

  function QuarantineOf(s: Repo, tx: Label): Quarantine {
    if tx in s.quarantine then s.quarantine[tx] else map[]
  }

  function StageObjects(s: Repo, tx: Label, objects: seq<Upload>): Result<Repo> {
    if tx !in s.seals then Broken(UnknownSeal)
    else Ok(s.(quarantine := s.quarantine[tx := FileAll(QuarantineOf(s, tx), objects)]))
  }

  // ---- Prepare ----

  function EvidenceOf(s: Repo, tx: Label): Evidence {
    Evidence(s.format, s.objects, QuarantineOf(s, tx))
  }

  /** The capsule of a request, given what evaluating it against the current head concludes. */
  function CapsuleOf(s: Repo, id: Label, req: Request, g: Granularity, c: Conclusion): Capsule
    requires req.tx in s.seals
  {
    var body := s.head.body;
    var w := BuildWitness(g, body.generation, body.policy.epoch, body.point.roots.basis, AddressedIntents(req));
    Capsule(id, req.tx, s.seals[req.tx].id, s.head.id, req.digest, c.intentMap, c.closure, w, c.verdict,
            req.durability)
  }

  /** The capsule filed and the attempt charged to its seal. */
  function Prepared(s: Repo, c: Capsule): Repo
    requires c.tx in s.seals
  {
    var seal := s.seals[c.tx];
    var count := if seal.preparations == LAST_COUNT then LAST_COUNT else seal.preparations + 1;
    s.(ledger := s.ledger.(capsules := s.ledger.capsules + {c.id}),
       capsules := s.capsules[c.id := c],
       seals := s.seals[c.tx := seal.(preparations := count)])
  }

  function PrepareWith(s: Repo, id: Label, req: Request, g: Granularity, c: Conclusion): Result<Repo> {
    if req.tx !in s.seals then Broken(UnknownSeal)
    else if s.seals[req.tx].fields != FieldsOf(req) then Broken(TxIdInputsInconsistent)
    else if id in s.ledger.capsules then Broken(IdentityReused)
    else Ok(Prepared(s, CapsuleOf(s, id, req, g, c)))
  }

  ghost function Prepare(s: Repo, id: Label, req: Request, g: Granularity): Result<Repo> {
    PrepareWith(s, id, req, g,
      Evaluate(s.head.body.policy, EvidenceOf(s, req.tx), s.head.body.point.roots.basis, req))
  }

  // ---- Decide ----

  datatype Reason = BasisMoved | EpochMoved

  datatype DecisionVerdict =
    | AlreadyTerminal(outcome: Terminal)
    | Commits(effects: NetEffects)
    | Refuses(code: Code)
    | RequiresRepreparation(reason: Reason)

  function DecideAgainst(s: Repo, c: Capsule, basis: Basis, generation: nat): DecisionVerdict {
    if c.tx in OutcomesOf(s) then AlreadyTerminal(OutcomesOf(s)[c.tx])
    else if c.verdict.Refuse? then Refuses(c.verdict.code)
    else
      var epoch := s.head.body.policy.epoch;
      var exhausted := c.tx in s.seals && s.seals[c.tx].preparations >= REPREPARATION_BUDGET;
      if c.observed.epoch != epoch then
        if exhausted then Refuses(PolicyEpochSuperseded) else RequiresRepreparation(EpochMoved)
      else if IsReusable(c.observed, basis, generation, epoch) then Commits(c.verdict.effects)
      else if exhausted then Refuses(BasisCapsuleNotReusable)
      else RequiresRepreparation(BasisMoved)
  }

  // ---- Stage ----

  datatype Names = Names(commit: Label, refusal: Label)

  /** A batch under construction. */
  datatype Draft = Draft(
    point: Point,
    decisions: seq<Decision>,
    commits: seq<Record>,
    seen: set<Label>,
    deferred: seq<(Label, Reason)>)

  function Decided(p: Point, tx: Label, outcome: Terminal): Point {
    p.(lastDecision := p.lastDecision + 1, roots := p.roots.(outcomes := p.roots.outcomes[tx := outcome]))
  }

  function WithRefusal(d: Draft, tx: Label, outcome: Terminal): Draft {
    d.(point := Decided(d.point, tx, outcome),
       decisions := d.decisions + [Decision(tx, d.point.lastDecision + 1, outcome)],
       seen := d.seen + {tx})
  }

  function RecordOf(p: Point, c: Capsule, id: Label, effects: NetEffects, after: Basis): Record {
    Record(id, p.lastSequence + 1, p.lastCommit, c.tx, c.digest, effects, after.refs, after.positions, c.closure,
           c.observed.epoch)
  }

  function WithCommit(d: Draft, c: Capsule, id: Label, effects: NetEffects, after: Basis): Draft {
    d.(point := Point(d.point.lastDecision + 1, Some(id), d.point.lastSequence + 1,
                      Roots(after, d.point.roots.outcomes[c.tx := Committed(id)])),
       decisions := d.decisions + [Decision(c.tx, d.point.lastDecision + 1, Committed(id))],
       commits := d.commits + [RecordOf(d.point, c, id, effects, after)],
       seen := d.seen + {c.tx})
  }

  /** One capsule admitted to the draft: batched, deferred, or a breach. */
  function Admit(s: Repo, names: map<Label, Names>, d: Draft, c: Capsule): Result<Draft> {
    if c.tx in OutcomesOf(s) then Broken(SecondTerminalDecision)
    else if c.tx !in names then Broken(UnknownSeal)
    else
      var v := DecideAgainst(s, c, d.point.roots.basis, s.head.body.generation);
      match v
      case AlreadyTerminal(_) => Broken(SecondTerminalDecision)
      case RequiresRepreparation(reason) => Ok(d.(deferred := d.deferred + [(c.tx, reason)]))
      case Refuses(code) =>
        if c.tx in d.seen then Broken(SecondDecisionInBatch)
        else if d.point.lastDecision + 1 >= LAST then Broken(SequenceExhausted)
        else Ok(WithRefusal(d, c.tx, Refused(code, names[c.tx].refusal)))
      case Commits(effects) =>
        var after := ApplyEffects(d.point.roots.basis, effects);
        if after == None then Broken(SequenceExhausted)
        else if c.tx in d.seen then Broken(SecondDecisionInBatch)
        else if d.point.lastDecision + 1 >= LAST || d.point.lastSequence + 1 >= LAST then Broken(SequenceExhausted)
        else Ok(WithCommit(d, c, names[c.tx].commit, effects, after.value))
  }

  function AdmitAll(s: Repo, names: map<Label, Names>, d: Draft, cs: seq<Capsule>): Result<Draft> {
    if cs == [] then Ok(d)
    else
      var r := AdmitAll(s, names, d, cs[..|cs| - 1]);
      if r.Broken? then r else Admit(s, names, r.value, cs[|cs| - 1])
  }

  predicate TxLess(a: Capsule, b: Capsule) {
    a.tx < b.tx
  }

  /** Stable sort by ascending transaction identity. */
  function SortByTx(cs: seq<Capsule>): seq<Capsule> {
    Sort(TxLess, cs)
  }

  function Strictest(cs: seq<Capsule>): Durability {
    if exists i :: 0 <= i < |cs| && cs[i].durability == CanonicalSource then CanonicalSource else DerivedGeneration
  }

  /** Introduces a batch's commit identities one by one. */
  function IntroduceCommits(known: set<Label>, rs: seq<Record>): Result<set<Label>>
    decreases |rs|
  {
    if rs == [] then Ok(known)
    else if rs[0].id in known then Broken(IdentityReused)
    else IntroduceCommits(known + {rs[0].id}, rs[1..])
  }

  datatype StageInput = StageInput(
    batch: Label, candidate: Label, capsules: seq<Label>, names: map<Label, Names>, durable: bool)

  function Selected(s: Repo, ids: seq<Label>): seq<Capsule>
    requires forall i :: 0 <= i < |ids| ==> ids[i] in s.capsules
  {
    seq(|ids|, i requires 0 <= i < |ids| => s.capsules[ids[i]])
  }

  function BatchOf(s: Repo, input: StageInput, cs: seq<Capsule>, d: Draft): Batch {
    Batch(input.batch, s.head.id, s.head.body.generation, s.head.body.point.lastDecision + 1, d.decisions, d.commits,
          d.point.roots, s.head.body.policy.epoch, Strictest(cs))
  }

  function CandidateOf(s: Repo, input: StageInput, d: Draft): Head {
    Head(input.candidate,
         Body(s.head.body.generation + 1, Some(s.head.id), Some(input.batch), d.point, s.head.body.policy))
  }

  /** A finished draft filed as a staged batch. */
  function Entered(s: Repo, input: StageInput, cs: seq<Capsule>, d: Draft, commits: set<Label>): Repo {
    s.(ledger := s.ledger.(batches := s.ledger.batches + {input.batch},
                           heads := s.ledger.heads + {input.candidate},
                           commits := commits),
       staged := s.staged[input.batch :=
         StagedBatch(BatchOf(s, input, cs, d), CandidateOf(s, input, d), input.durable)])
  }

  function Enter(s: Repo, input: StageInput, cs: seq<Capsule>, d: Draft): Result<Repo> {
    if s.head.body.generation >= LAST then Broken(SequenceExhausted)
    else if input.batch in s.ledger.batches || input.candidate in s.ledger.heads then Broken(IdentityReused)
    else
      var commits := IntroduceCommits(s.ledger.commits, d.commits);
      if commits.Broken? then Broken(commits.breach) else Ok(Entered(s, input, cs, d, commits.value))
  }

  datatype StageOutcome = StageOutcome(batch: Option<Label>, deferred: seq<(Label, Reason)>)

  /** Staging of capsules already in admission order. */
  function StageSorted(s: Repo, input: StageInput, cs: seq<Capsule>): Result<(Repo, StageOutcome)> {
    var p := s.head.body.point;
    if p.lastDecision >= LAST || p.lastSequence >= LAST then Broken(SequenceExhausted)
    else
      var r := AdmitAll(s, input.names, Draft(p, [], [], {}, []), cs);
      if r.Broken? then Broken(r.breach)
      else if r.value.decisions == [] then Ok((s, StageOutcome(None, r.value.deferred)))
      else
        var next := Enter(s, input, cs, r.value);
        if next.Broken? then Broken(next.breach)
        else Ok((next.value, StageOutcome(Some(input.batch), r.value.deferred)))
  }

  function Stage(s: Repo, input: StageInput): Result<(Repo, StageOutcome)> {
    if exists i :: 0 <= i < |input.capsules| && input.capsules[i] !in s.capsules then Broken(UnknownCapsule)
    else StageSorted(s, input, SortByTx(Selected(s, input.capsules)))
  }

  // ---- Head transitions ----

  /** Promotion out of quarantine of the verified part of one closure. */
  function Promote(objects: Parents, q: Quarantine, closure: set<Oid>): Parents {
    objects + map o | o in closure && IsVerified(q, o) :: q[o].parents
  }

  function PromoteAll(s: Repo, objects: Parents, rs: seq<Record>): Parents
    decreases |rs|
  {
    if rs == [] then objects
    else PromoteAll(s, Promote(objects, QuarantineOf(s, rs[0].tx), rs[0].closure), rs[1..])
  }

  function Terminated(b: Batch): set<Label> {
    set i | 0 <= i < |b.decisions| :: b.decisions[i].tx
  }

  function DropCapsules(cs: map<Label, Capsule>, txs: set<Label>): map<Label, Capsule> {
    map id | id in cs && cs[id].tx !in txs :: cs[id]
  }

  datatype CasOutcome = Won(head: Label) | Lost(head: Label, generation: nat) | DurabilityUnsatisfied

  /** The winning replacement itself. */
  function Publish(s: Repo, id: Label): Repo
    requires id in s.staged
  {
    var st := s.staged[id];
    s.(staged := s.staged - {id},
       chain := s.chain[st.candidate.id := st.candidate.body],
       head := st.candidate,
       decisions := s.decisions + st.batch.decisions,
       commits := s.commits + st.batch.commits,
       objects := PromoteAll(s, s.objects, st.batch.commits),
       quarantine := s.quarantine - Terminated(st.batch),
       capsules := DropCapsules(s.capsules, Terminated(st.batch)),
       batches := s.batches[id := st.batch])
  }

  function CompareAndSwap(s: Repo, expected: Label, generation: nat, id: Label): Result<(Repo, CasOutcome)> {
    if id !in s.staged then Broken(UnstagedBatch)
    else
      var st := s.staged[id];
      var p := s.head.body.point;
      if expected != s.head.id || generation != s.head.body.generation then
        Ok((s, Lost(s.head.id, s.head.body.generation)))
      else if st.candidate.body.predecessor != Some(s.head.id) then Broken(HeadPredecessorMismatch)
      else if s.head.body.generation >= LAST then Broken(SequenceExhausted)
      else if st.candidate.body.generation != s.head.body.generation + 1 then Broken(HeadGenerationNotSuccessor)
      else if p.lastDecision >= LAST then Broken(SequenceExhausted)
      else if st.batch.first != p.lastDecision + 1 then Broken(DecisionSequenceDiscontinuity)
      else if st.batch.commits != [] && p.lastSequence >= LAST then Broken(SequenceExhausted)
      else if st.batch.commits != [] && st.batch.commits[0].sequence != p.lastSequence + 1 then
        Broken(RepositorySequenceDiscontinuity)
      else if st.batch.durability == CanonicalSource && !st.durable then Ok((s, DurabilityUnsatisfied))
      else Ok((Publish(s, id), Won(st.candidate.id)))
  }

  datatype ConfigurationOutcome = Pinned(head: Label, epoch: nat) | Outrun(head: Label, generation: nat)

  /** The head moved to a new policy; no decision is published. */
  function Reconfigured(s: Repo, candidate: Label, policy: Policy): Repo {
    var body := s.head.body;
    var next := Body(body.generation + 1, Some(s.head.id), body.tail, body.point, policy);
    s.(ledger := s.ledger.(heads := s.ledger.heads + {candidate}),
       chain := s.chain[candidate := next],
       head := Head(candidate, next))
  }

  function PublishConfiguration(s: Repo, expected: Label, generation: nat, candidate: Label, policy: Policy)
      : Result<(Repo, ConfigurationOutcome)>
  {
    var body := s.head.body;
    if expected != s.head.id || generation != body.generation then Ok((s, Outrun(s.head.id, body.generation)))
    else if body.policy.epoch >= LAST then Broken(SequenceExhausted)
    else if policy.epoch != body.policy.epoch + 1 then Broken(PolicyEpochNotSuccessor)
    else if body.generation >= LAST then Broken(SequenceExhausted)
    else if candidate in s.ledger.heads then Broken(IdentityReused)
    else Ok((Reconfigured(s, candidate, policy), Pinned(candidate, policy.epoch)))
  }

  datatype Phase = BeforeSeal | AfterSealBeforeCas | AfterCas

  function Cancel(s: Repo, tx: Label, phase: Phase): Repo {
    if phase == AfterSealBeforeCas then s.(capsules := DropCapsules(s.capsules, {tx})) else s
  }

  // ---- Steps and runs ----

  datatype Input =
    | DoSeal(id: Label, request: Request)
    | DoStageObjects(tx: Label, objects: seq<Upload>)
    | DoPrepare(id: Label, request: Request, granularity: Granularity)
    | DoStage(input: StageInput)
    | DoSwap(expected: Label, generation: nat, batch: Label)
    | DoConfigure(expected: Label, generation: nat, candidate: Label, policy: Policy)
    | DoCancel(tx: Label, phase: Phase)

  /** The state after an input; a breach leaves it as it was. Deciding alone changes nothing. */
  ghost function Transition(s: Repo, i: Input): Repo {
    match i
    case DoSeal(id, req) =>
      var r := SealRequest(s, id, req);
      if r.Ok? then r.value.0 else s
    case DoStageObjects(tx, objects) =>
      var r := StageObjects(s, tx, objects);
      if r.Ok? then r.value else s
    case DoPrepare(id, req, g) =>
      var r := Prepare(s, id, req, g);
      if r.Ok? then r.value else s
    case DoStage(input) =>
      var r := Stage(s, input);
      if r.Ok? then r.value.0 else s
    case DoSwap(expected, generation, batch) =>
      var r := CompareAndSwap(s, expected, generation, batch);
      if r.Ok? then r.value.0 else s
    case DoConfigure(expected, generation, candidate, policy) =>
      var r := PublishConfiguration(s, expected, generation, candidate, policy);
      if r.Ok? then r.value.0 else s
    case DoCancel(tx, phase) => Cancel(s, tx, phase)
  }

  ghost function Run(s: Repo, inputs: seq<Input>): Repo {
    if inputs == [] then s else Transition(Run(s, inputs[..|inputs| - 1]), inputs[|inputs| - 1])
  }
}
