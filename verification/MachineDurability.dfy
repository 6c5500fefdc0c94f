/**
 * Where published batches come from, and that none of them is visible before
 * the durability it promised (crates/fgit-reference/src/transition.rs:902-1035,
 * 1293-1384, state.rs:505-519).
 */
module MachineDurability {
  import opened Bytes
  import opened Intents
  import opened Evaluation
  import opened Machine
  import opened MachineTheorems
  import opened MachineRuns
  import opened MachineSerial
  import opened MachineGroups
  import opened Sorting

  // ---- Staging records what was asked ----

  /** Staging `input` at `s` left the staged batch `st`. */
  ghost predicate IsStagedBy(s: Repo, input: StageInput, st: StagedBatch) {
    var r := Stage(s, input);
    && r.Ok? && r.value.1.batch == Some(input.batch)
    && input.batch in r.value.0.staged && r.value.0.staged[input.batch] == st
  }

  /** Some listed capsule asks for the canonical source profile. */
  ghost predicate AsksCanonical(s: Repo, ids: seq<Label>) {
    exists i :: 0 <= i < |ids| && ids[i] in s.capsules && s.capsules[ids[i]].durability == CanonicalSource
  }

  lemma StrictestIff(s: Repo, ids: seq<Label>)
    requires forall i :: 0 <= i < |ids| ==> ids[i] in s.capsules
    ensures Strictest(SortByTx(Selected(s, ids))) == CanonicalSource <==> AsksCanonical(s, ids)
  {
    var cs := Selected(s, ids);
    var sorted := SortByTx(cs);
    SortKeeps(TxLess, cs);
    if AsksCanonical(s, ids) {
      var i :| 0 <= i < |ids| && ids[i] in s.capsules && s.capsules[ids[i]].durability == CanonicalSource;
      assert cs[i] in multiset(sorted);
      var j :| 0 <= j < |sorted| && sorted[j] == cs[i];
      assert sorted[j].durability == CanonicalSource;
    }
    if Strictest(sorted) == CanonicalSource {
      var j :| 0 <= j < |sorted| && sorted[j].durability == CanonicalSource;
      assert sorted[j] in multiset(cs);
      var i :| 0 <= i < |cs| && cs[i] == sorted[j];
      assert s.capsules[ids[i]].durability == CanonicalSource;
    }
  }

  /** A staged batch asks for what its strictest capsule asks for, and remembers whether that was met. */
  lemma StagedAsks(s: Repo, input: StageInput, st: StagedBatch)
    requires IsStagedBy(s, input, st)
    ensures st.batch.durability == CanonicalSource <==> AsksCanonical(s, input.capsules)
    ensures st.durable == input.durable
  {
    StrictestIff(s, input.capsules);
  }

  // ---- What the swap of a batch staged on this head answers ----

  /** Nothing but durability stands between the batch and the head. */
  predicate Fits(h: Head, st: StagedBatch) {
    && st.candidate.body.predecessor == Some(h.id)
    && st.candidate.body.generation == h.body.generation + 1 <= LAST
    && h.body.point.lastDecision < LAST && st.batch.first == h.body.point.lastDecision + 1
    && (st.batch.commits != [] ==>
          h.body.point.lastSequence < LAST && st.batch.commits[0].sequence == h.body.point.lastSequence + 1)
  }

  lemma StagedFits(s: Repo, input: StageInput, st: StagedBatch)
    requires IsStagedBy(s, input, st)
    ensures Fits(s.head, st)
  {
    var cs := SortByTx(Selected(s, input.capsules));
    AdmitContinues(s, input.names, cs);
  }

  predicate IsVisible(st: StagedBatch) {
    st.durable || st.batch.durability != CanonicalSource
  }

  /** Published, or held back with nothing changed. */
  function Answer(s: Repo, id: Label): Result<(Repo, CasOutcome)>
    requires id in s.staged
  {
    if IsVisible(s.staged[id]) then Ok((Publish(s, id), Won(s.staged[id].candidate.id))) else Ok((s, DurabilityUnsatisfied))
  }

  /** The swap of a fitting batch publishes it exactly when durability was met or not asked for. */
  lemma FittingSwap(s: Repo, id: Label)
    requires id in s.staged && Fits(s.head, s.staged[id])
    ensures CompareAndSwap(s, s.head.id, s.head.body.generation, id) == Answer(s, id)
  {
  }

  // ---- Origins, over runs ----

  /** Input `k` of the run staged the batch. */
  ghost predicate IsOrigin(start: Repo, inputs: seq<Input>, k: nat, id: Label, st: StagedBatch) {
    && k < |inputs| && inputs[k].DoStage? && inputs[k].input.batch == id
    && IsStagedBy(Run(start, inputs[..k]), inputs[k].input, st)
  }

  lemma OriginStays(start: Repo, inputs: seq<Input>, n: nat, k: nat, id: Label, st: StagedBatch)
    requires n <= |inputs| && IsOrigin(start, inputs[..n], k, id, st)
    ensures IsOrigin(start, inputs, k, id, st)
  {
    assert inputs[..n][..k] == inputs[..k];
  }

  lemma StagedStep(s: Repo, i: Input, id: Label)
    requires id in Transition(s, i).staged
    ensures var st := Transition(s, i).staged[id];
      (id in s.staged && s.staged[id] == st) || (i.DoStage? && i.input.batch == id && IsStagedBy(s, i.input, st))
  {
  }

  lemma {:induction false} StagedOrigin(start: Repo, inputs: seq<Input>, id: Label) returns (k: nat)
    requires start.staged == map[] && id in Run(start, inputs).staged
    ensures IsOrigin(start, inputs, k, id, Run(start, inputs).staged[id])
  {
    var n := |inputs| - 1;
    var s := Run(start, inputs[..n]);
    StagedStep(s, inputs[n], id);
    if id in s.staged && s.staged[id] == Run(start, inputs).staged[id] {
      k := StagedOrigin(start, inputs[..n], id);
      OriginStays(start, inputs, n, k, id, s.staged[id]);
    } else {
      k := n;
    }
  }

  /** Only a swap publishes, and only what is staged and visible. */
  lemma PublishedStep(s: Repo, i: Input, id: Label)
    requires id in Transition(s, i).batches
    ensures || (id in s.batches && s.batches[id] == Transition(s, i).batches[id])
            || (id in s.staged && IsVisible(s.staged[id]) && Transition(s, i) == Publish(s, id))
  {
  }

  /** Input `m` of the run published the staged batch. */
  ghost predicate IsPublishedAt(start: Repo, inputs: seq<Input>, m: nat, id: Label, st: StagedBatch) {
    && m < |inputs| && IsVisible(st)
    && var s := Run(start, inputs[..m]);
    && id in s.staged && s.staged[id] == st && Run(start, inputs[..m + 1]) == Publish(s, id)
  }

  lemma PublishedStays(start: Repo, inputs: seq<Input>, n: nat, m: nat, id: Label, st: StagedBatch)
    requires n <= |inputs| && IsPublishedAt(start, inputs[..n], m, id, st)
    ensures IsPublishedAt(start, inputs, m, id, st)
  {
    assert inputs[..n][..m] == inputs[..m] && inputs[..n][..m + 1] == inputs[..m + 1];
  }

  lemma {:induction false} PublishedOrigin(start: Repo, inputs: seq<Input>, id: Label)
      returns (k: nat, m: nat, st: StagedBatch)
    requires start.staged == map[] && start.batches == map[] && id in Run(start, inputs).batches
    ensures IsOrigin(start, inputs, k, id, st) && IsPublishedAt(start, inputs, m, id, st)
    ensures st.batch == Run(start, inputs).batches[id]
  {
    var n := |inputs| - 1;
    var s := Run(start, inputs[..n]);
    assert inputs[..n + 1] == inputs;
    PublishedStep(s, inputs[n], id);
    if id in s.batches && s.batches[id] == Run(start, inputs).batches[id] {
      k, m, st := PublishedOrigin(start, inputs[..n], id);
      PublishedStays(start, inputs, n, m, id, st);
    } else {
      m, st := n, s.staged[id];
      k := StagedOrigin(start, inputs[..n], id);
    }
    OriginStays(start, inputs, n, k, id, st);
  }

  /**
   * Nothing is visible before it is durable: in every run, each published batch
   * was staged by an input that either declared its durability met or listed no
   * capsule asking for the canonical source profile.
   */
  lemma PublishedIsDurable(repository: Label, format: Format, head: Label, policy: Policy, inputs: seq<Input>, id: Label)
      returns (k: nat)
    requires id in Run(Genesis(repository, format, head, policy), inputs).batches
    ensures k < |inputs| && inputs[k].DoStage? && inputs[k].input.batch == id
    ensures inputs[k].input.durable
      || !AsksCanonical(Run(Genesis(repository, format, head, policy), inputs[..k]), inputs[k].input.capsules)
  {
    var m, st;
    k, m, st := PublishedOrigin(Genesis(repository, format, head, policy), inputs, id);
    StagedAsks(Run(Genesis(repository, format, head, policy), inputs[..k]), inputs[k].input, st);
  }

  lemma SameHead(s: Repo, s': Repo)
    requires Extends(s, s') && IsReachable(s) && IsReachable(s') && s.head.id == s'.head.id
    ensures s.head == s'.head
  {
    var _ := ReachableInv(s);
    var _ := ReachableInv(s');
  }

  /**
   * In every run, swapping at the current head a batch staged on it answers
   * exactly by durability: it wins, or it is held back and nothing changes.
   */
  lemma SwapIsByDurability(repository: Label, format: Format, head: Label, policy: Policy, inputs: seq<Input>, id: Label)
    requires var s := Run(Genesis(repository, format, head, policy), inputs);
      id in s.staged && s.staged[id].candidate.body.predecessor == Some(s.head.id)
    ensures var s := Run(Genesis(repository, format, head, policy), inputs);
      CompareAndSwap(s, s.head.id, s.head.body.generation, id) == Answer(s, id)
  {
    var start := Genesis(repository, format, head, policy);
    var s := Run(start, inputs);
    var k := StagedOrigin(start, inputs, id);
    var at := Run(start, inputs[..k]);
    StagedFits(at, inputs[k].input, s.staged[id]);
    PrefixExtends(repository, format, head, policy, inputs, k);
    RunIsReachable(repository, format, head, policy, inputs[..k]);
    RunIsReachable(repository, format, head, policy, inputs);
    SameHead(at, s);
    FittingSwap(s, id);
  }

  // ---- Batches and the heads that select them ----

  /** The batch describes the step from its head to the one that selects it. */
  predicate Describes(b: Batch, id: Label, next: Body) {
    && next.tail == Some(id) && next.predecessor == Some(b.head) && next.generation == b.generation + 1
    && next.point.roots == b.resulting && next.policy.epoch == b.epoch
    && next.point.lastDecision + 1 == b.first + |b.decisions|
  }

  lemma {:induction false} AdmitNumbers(s: Repo, names: map<Label, Names>, cs: seq<Capsule>)
    requires AdmitAll(s, names, Empty(s), cs).Ok?
    ensures var d := AdmitAll(s, names, Empty(s), cs).value;
      d.point.lastDecision == s.head.body.point.lastDecision + |d.decisions|
  {
    if cs != [] {
      var n := |cs| - 1;
      AdmitNumbers(s, names, cs[..n]);
      AdmitIff(s, names, AdmitAll(s, names, Empty(s), cs[..n]).value, cs[n]);
    }
  }

  lemma StagedDescribes(s: Repo, input: StageInput, st: StagedBatch)
    requires IsStagedBy(s, input, st)
    ensures Describes(st.batch, input.batch, st.candidate.body)
  {
    AdmitNumbers(s, input.names, SortByTx(Selected(s, input.capsules)));
  }

  /** In every run each published batch is selected by a published head, which it describes. */
  lemma BatchIsSelected(repository: Label, format: Format, head: Label, policy: Policy, inputs: seq<Input>, id: Label)
      returns (h: Label)
    requires id in Run(Genesis(repository, format, head, policy), inputs).batches
    ensures var s := Run(Genesis(repository, format, head, policy), inputs);
      h in s.chain && Describes(s.batches[id], id, s.chain[h])
  {
    var start := Genesis(repository, format, head, policy);
    var k, m, st := PublishedOrigin(start, inputs, id);
    StagedDescribes(Run(start, inputs[..k]), inputs[k].input, st);
    h := st.candidate.id;
    PrefixExtends(repository, format, head, policy, inputs, m + 1);
    assert h in Run(start, inputs[..m + 1]).chain;
  }

  // ---- What a capsule asks for is what its request asked for ----

  /** Input `k` of the run prepared the capsule. */
  ghost predicate IsPreparation(inputs: seq<Input>, k: nat, id: Label, c: Capsule) {
    && k < |inputs| && inputs[k].DoPrepare? && inputs[k].id == id
    && var req := inputs[k].request;
    && c.id == id && c.tx == req.tx && c.digest == req.digest && c.durability == req.durability
    && c.observed.granularity == inputs[k].granularity
  }

  lemma CapsuleStep(s: Repo, i: Input, id: Label)
    requires id in Transition(s, i).capsules
    ensures var c := Transition(s, i).capsules[id];
      (id in s.capsules && s.capsules[id] == c) || IsPreparation([i], 0, id, c)
  {
  }

  /** In every run each capsule on file asks for the durability its request asked for. */
  lemma {:induction false} CapsuleAsks(start: Repo, inputs: seq<Input>, id: Label) returns (k: nat)
    requires start.capsules == map[] && id in Run(start, inputs).capsules
    ensures IsPreparation(inputs, k, id, Run(start, inputs).capsules[id])
  {
    var n := |inputs| - 1;
    var s := Run(start, inputs[..n]);
    CapsuleStep(s, inputs[n], id);
    if id in s.capsules && s.capsules[id] == Run(start, inputs).capsules[id] {
      k := CapsuleAsks(start, inputs[..n], id);
    } else {
      k := n;
    }
  }
}
