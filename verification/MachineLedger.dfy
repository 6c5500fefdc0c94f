/**
 * What the identities on file agree about in every run, and what staging does
 * with each capsule it is given (crates/fgit-reference/src/transition.rs:112-296,
 * 902-1088, 1161-1384).
 */
module MachineLedger {
  import opened Bytes
  import opened Intents
  import opened Evaluation
  import opened EvaluationLaws
  import opened Machine
  import opened MachineStaging
  import opened Sorting

  // ---- Transactions, their inputs and their seals ----

  /** One identity per input tuple, and one tuple per identity. */
  ghost predicate AreInverse(l: Ledger) {
    && (forall x :: x in l.txByInputs ==> l.txByInputs[x] in l.inputsByTx && l.inputsByTx[l.txByInputs[x]] == x)
    && (forall tx :: tx in l.inputsByTx ==> l.inputsByTx[tx] in l.txByInputs && l.txByInputs[l.inputsByTx[tx]] == tx)
  }

  /** The derivation law survives every binding that is let through. */
  lemma BindKeepsInverse(l: Ledger, tx: Label, inputs: Inputs)
    requires AreInverse(l) && Bind(l, tx, inputs).Ok?
    ensures AreInverse(Bind(l, tx, inputs).value)
  {
  }

  /** Each seal is bound under its own inputs, and each capsule names the seal of its transaction. */
  ghost predicate AreFiled(seals: map<Label, Seal>, bound: map<Label, Inputs>, ids: set<Label>,
                           capsules: map<Label, Capsule>)
  {
    && (forall tx :: tx in seals <==> tx in bound)
    && (forall tx :: tx in seals ==> seals[tx].fields.tx == tx && InputsOf(seals[tx].fields) == bound[tx])
    && (forall tx :: tx in seals ==> seals[tx].id in ids)
    && (forall a, b :: a in seals && b in seals && a != b ==> seals[a].id != seals[b].id)
    && (forall id :: id in capsules ==> capsules[id].tx in seals && capsules[id].seal == seals[capsules[id].tx].id)
  }

  lemma SealFiles(seals: map<Label, Seal>, bound: map<Label, Inputs>, ids: set<Label>, capsules: map<Label, Capsule>,
                  id: Label, f: Fields)
    requires AreFiled(seals, bound, ids, capsules) && f.tx !in seals && id !in ids
    ensures AreFiled(seals[f.tx := Seal(id, f, 0)], bound[f.tx := InputsOf(f)], ids + {id}, capsules)
  {
  }

  lemma PrepareFiles(seals: map<Label, Seal>, bound: map<Label, Inputs>, ids: set<Label>, capsules: map<Label, Capsule>,
                     c: Capsule, n: nat)
    requires AreFiled(seals, bound, ids, capsules) && c.tx in seals && c.seal == seals[c.tx].id
    ensures AreFiled(seals[c.tx := seals[c.tx].(preparations := n)], bound, ids, capsules[c.id := c])
  {
  }

  lemma DropFiles(seals: map<Label, Seal>, bound: map<Label, Inputs>, ids: set<Label>, capsules: map<Label, Capsule>,
                  txs: set<Label>)
    requires AreFiled(seals, bound, ids, capsules)
    ensures AreFiled(seals, bound, ids, DropCapsules(capsules, txs))
  {
  }

  ghost predicate Agree(s: Repo) {
    AreInverse(s.ledger) && AreFiled(s.seals, s.ledger.inputsByTx, s.ledger.seals, s.capsules)
  }

  /** Both the bindings and the files are as before. */
  ghost predicate SameFiles(s: Repo, s': Repo) {
    && s'.seals == s.seals && s'.capsules == s.capsules && s'.ledger.seals == s.ledger.seals
    && s'.ledger.inputsByTx == s.ledger.inputsByTx && s'.ledger.txByInputs == s.ledger.txByInputs
  }

  lemma SealIs(s: Repo, id: Label, req: Request)
    ensures var s', f := Transition(s, DoSeal(id, req)), FieldsOf(req);
      || s' == s
      || (&& req.tx !in s.seals && id !in s.ledger.seals && Bind(s.ledger, req.tx, InputsOf(f)).Ok?
          && s' == Sealed(s, id, f, Bind(s.ledger, req.tx, InputsOf(f)).value))
  {
  }

  lemma SealAgrees(s: Repo, id: Label, req: Request)
    requires Agree(s)
    ensures Agree(Transition(s, DoSeal(id, req)))
  {
    SealIs(s, id, req);
    var f := FieldsOf(req);
    if Transition(s, DoSeal(id, req)) != s {
      BindKeepsInverse(s.ledger, req.tx, InputsOf(f));
      SealFiles(s.seals, s.ledger.inputsByTx, s.ledger.seals, s.capsules, id, f);
    }
  }

  lemma PrepareIs(s: Repo, id: Label, req: Request, g: Granularity) returns (c: Capsule)
    ensures var s' := Transition(s, DoPrepare(id, req, g));
      s' == s || (c.tx in s.seals && c.seal == s.seals[c.tx].id && s' == Prepared(s, c))
  {
    if req.tx in s.seals {
      c := CapsuleOf(s, id, req, g,
        Evaluate(s.head.body.policy, EvidenceOf(s, req.tx), s.head.body.point.roots.basis, req));
    } else {
      c :| true;
    }
  }

  lemma PrepareAgrees(s: Repo, id: Label, req: Request, g: Granularity)
    requires Agree(s)
    ensures Agree(Transition(s, DoPrepare(id, req, g)))
  {
    var c := PrepareIs(s, id, req, g);
    var s' := Transition(s, DoPrepare(id, req, g));
    if s' != s {
      PrepareFiles(s.seals, s.ledger.inputsByTx, s.ledger.seals, s.capsules, c, s'.seals[c.tx].preparations);
    }
  }

  lemma StageSortedEnters(s: Repo, input: StageInput, cs: seq<Capsule>) returns (d: Draft, commits: set<Label>)
    requires StageSorted(s, input, cs).Ok?
    ensures var s' := StageSorted(s, input, cs).value.0;
      s' == s || (d.decisions != [] && s' == Entered(s, input, cs, d, commits))
  {
    StageSortedIs(s, input, cs);
    d := AdmitAll(s, input.names, Start(s), cs).value;
    var introduced := IntroduceCommits(s.ledger.commits, d.commits);
    commits := if introduced.Ok? then introduced.value else {};
  }

  lemma StageIs(s: Repo, input: StageInput) returns (cs: seq<Capsule>, d: Draft, commits: set<Label>)
    ensures var s' := Transition(s, DoStage(input));
      s' == s || (d.decisions != [] && s' == Entered(s, input, cs, d, commits))
  {
    d, commits, cs := Start(s), {}, [];
    if Stage(s, input).Ok? {
      cs := SortByTx(Selected(s, input.capsules));
      d, commits := StageSortedEnters(s, input, cs);
    }
  }

  lemma EnteredKeeps(s: Repo, input: StageInput, cs: seq<Capsule>, d: Draft, commits: set<Label>)
    ensures SameFiles(s, Entered(s, input, cs, d, commits))
  {
  }

  lemma StageAgrees(s: Repo, input: StageInput)
    requires Agree(s)
    ensures Agree(Transition(s, DoStage(input)))
  {
    var cs, d, commits := StageIs(s, input);
    EnteredKeeps(s, input, cs, d, commits);
  }

  lemma OthersAgree(s: Repo, i: Input)
    requires Agree(s) && (i.DoConfigure? || i.DoStageObjects?)
    ensures Agree(Transition(s, i))
  {
    assert SameFiles(s, Transition(s, i));
  }

  lemma SwapAgrees(s: Repo, expected: Label, generation: nat, id: Label)
    requires Agree(s)
    ensures Agree(Transition(s, DoSwap(expected, generation, id)))
  {
    if id in s.staged {
      DropFiles(s.seals, s.ledger.inputsByTx, s.ledger.seals, s.capsules, Terminated(s.staged[id].batch));
    }
  }

  lemma StepAgrees(s: Repo, i: Input)
    requires Agree(s)
    ensures Agree(Transition(s, i))
  {
    if i.DoSeal? {
      SealAgrees(s, i.id, i.request);
    } else if i.DoPrepare? {
      PrepareAgrees(s, i.id, i.request, i.granularity);
    } else if i.DoStage? {
      StageAgrees(s, i.input);
    } else if i.DoSwap? {
      SwapAgrees(s, i.expected, i.generation, i.batch);
    } else if i.DoCancel? {
      DropFiles(s.seals, s.ledger.inputsByTx, s.ledger.seals, s.capsules, {i.tx});
    } else {
      OthersAgree(s, i);
    }
  }

  /** In every run transactions and their inputs determine each other, and seals, bindings and capsules agree. */
  lemma {:induction false} FilesAgree(repository: Label, format: Format, head: Label, policy: Policy, inputs: seq<Input>)
    ensures Agree(Run(Genesis(repository, format, head, policy), inputs))
  {
    if inputs != [] {
      var n := |inputs| - 1;
      FilesAgree(repository, format, head, policy, inputs[..n]);
      StepAgrees(Run(Genesis(repository, format, head, policy), inputs[..n]), inputs[n]);
    }
  }

  lemma StepIsSealed(s: Repo, i: Input)
    requires s.quarantine.Keys <= s.seals.Keys
    ensures Transition(s, i).quarantine.Keys <= Transition(s, i).seals.Keys
  {
    if i.DoSeal? {
      SealIs(s, i.id, i.request);
    } else if i.DoPrepare? {
      var _ := PrepareIs(s, i.id, i.request, i.granularity);
    } else if i.DoStage? {
      var _, _, _ := StageIs(s, i.input);
    }
  }

  /** In every run only sealed transactions have a quarantine. */
  lemma {:induction false} QuarantineIsSealed(repository: Label, format: Format, head: Label, policy: Policy, inputs: seq<Input>)
    ensures var s := Run(Genesis(repository, format, head, policy), inputs); s.quarantine.Keys <= s.seals.Keys
  {
    if inputs != [] {
      var n := |inputs| - 1;
      QuarantineIsSealed(repository, format, head, policy, inputs[..n]);
      StepIsSealed(Run(Genesis(repository, format, head, policy), inputs[..n]), inputs[n]);
    }
  }

  // ---- The last batch ----

  /** A staged batch is filed under its own name and ends where its candidate begins. */
  ghost predicate AreNamed(staged: map<Label, StagedBatch>) {
    forall id :: id in staged ==>
      && staged[id].candidate.body.tail == Some(id) && staged[id].batch.decisions != []
      && staged[id].candidate.body.point.roots == staged[id].batch.resulting
  }

  /** The head names the batch published last: the published decisions end with its decisions, the roots are its roots. */
  ghost predicate IsLast(h: Head, batches: map<Label, Batch>, ds: seq<Decision>) {
    match h.body.tail
    case None => ds == []
    case Some(id) =>
      && id in batches && batches[id].decisions != [] && batches[id].resulting == h.body.point.roots
      && |batches[id].decisions| <= |ds| && ds[|ds| - |batches[id].decisions|..] == batches[id].decisions
  }

  lemma PublishIsLast(s: Repo, id: Label)
    requires AreNamed(s.staged) && id in s.staged
    ensures var s' := Publish(s, id); AreNamed(s'.staged) && IsLast(s'.head, s'.batches, s'.decisions)
  {
    var ds := s.staged[id].batch.decisions;
    assert (s.decisions + ds)[|s.decisions|..] == ds;
  }

  lemma EnteredNames(staged: map<Label, StagedBatch>, id: Label, st: StagedBatch)
    requires AreNamed(staged) && st.candidate.body.tail == Some(id) && st.batch.decisions != []
    requires st.candidate.body.point.roots == st.batch.resulting
    ensures AreNamed(staged[id := st])
  {
  }

  lemma StageIsLast(s: Repo, input: StageInput)
    requires AreNamed(s.staged) && IsLast(s.head, s.batches, s.decisions)
    ensures var s' := Transition(s, DoStage(input)); AreNamed(s'.staged) && IsLast(s'.head, s'.batches, s'.decisions)
  {
    var cs, d, commits := StageIs(s, input);
    if Transition(s, DoStage(input)) != s {
      EnteredNames(s.staged, input.batch,
        StagedBatch(BatchOf(s, input, cs, d), CandidateOf(s, input, d), input.durable));
    }
  }

  lemma SwapIsLast(s: Repo, expected: Label, generation: nat, id: Label)
    requires AreNamed(s.staged) && IsLast(s.head, s.batches, s.decisions)
    ensures var s' := Transition(s, DoSwap(expected, generation, id));
      AreNamed(s'.staged) && IsLast(s'.head, s'.batches, s'.decisions)
  {
    var s' := Transition(s, DoSwap(expected, generation, id));
    assert s' == s || (id in s.staged && s' == Publish(s, id));
    if s' != s { PublishIsLast(s, id); }
  }

  lemma ConfigureIsLast(s: Repo, candidate: Label, policy: Policy)
    requires IsLast(s.head, s.batches, s.decisions)
    ensures var s' := Reconfigured(s, candidate, policy);
      s'.staged == s.staged && IsLast(s'.head, s'.batches, s'.decisions)
  {
    assert Reconfigured(s, candidate, policy).head.body.tail == s.head.body.tail;
  }

  lemma ConfigureIs(s: Repo, expected: Label, generation: nat, candidate: Label, policy: Policy)
    ensures var s' := Transition(s, DoConfigure(expected, generation, candidate, policy));
      s' == s || s' == Reconfigured(s, candidate, policy)
  {
  }

  ghost predicate SameHistory(s: Repo, s': Repo) {
    s'.staged == s.staged && s'.head == s.head && s'.batches == s.batches && s'.decisions == s.decisions
  }

  lemma RequestsKeepLast(s: Repo, i: Input)
    requires i.DoSeal? || i.DoPrepare?
    ensures SameHistory(s, Transition(s, i))
  {
    if i.DoSeal? {
      SealIs(s, i.id, i.request);
    } else {
      var _ := PrepareIs(s, i.id, i.request, i.granularity);
    }
  }

  lemma OthersKeepLast(s: Repo, i: Input)
    requires i.DoStageObjects? || i.DoCancel?
    ensures SameHistory(s, Transition(s, i))
  {
  }

  lemma StepIsLast(s: Repo, i: Input)
    requires AreNamed(s.staged) && IsLast(s.head, s.batches, s.decisions)
    ensures var s' := Transition(s, i); AreNamed(s'.staged) && IsLast(s'.head, s'.batches, s'.decisions)
  {
    if i.DoStage? {
      StageIsLast(s, i.input);
    } else if i.DoSwap? {
      SwapIsLast(s, i.expected, i.generation, i.batch);
    } else if i.DoConfigure? {
      ConfigureIs(s, i.expected, i.generation, i.candidate, i.policy);
      ConfigureIsLast(s, i.candidate, i.policy);
    } else if i.DoSeal? || i.DoPrepare? {
      RequestsKeepLast(s, i);
    } else {
      OthersKeepLast(s, i);
    }
  }

  /** In every run the head names the last published batch, through any number of configurations. */
  lemma {:induction false} TailIsLast(repository: Label, format: Format, head: Label, policy: Policy, inputs: seq<Input>)
    ensures var s := Run(Genesis(repository, format, head, policy), inputs);
      AreNamed(s.staged) && IsLast(s.head, s.batches, s.decisions)
  {
    if inputs != [] {
      var n := |inputs| - 1;
      TailIsLast(repository, format, head, policy, inputs[..n]);
      StepIsLast(Run(Genesis(repository, format, head, policy), inputs[..n]), inputs[n]);
    }
  }

  /** A swap or a configuration that does not expect exactly the current head and generation learns them and changes nothing. */
  lemma OutdatedIsLost(s: Repo, expected: Label, generation: nat, id: Label, candidate: Label, policy: Policy)
    requires expected != s.head.id || generation != s.head.body.generation
    ensures id in s.staged ==>
      CompareAndSwap(s, expected, generation, id) == Ok((s, Lost(s.head.id, s.head.body.generation)))
    ensures PublishConfiguration(s, expected, generation, candidate, policy) ==
      Ok((s, Outrun(s.head.id, s.head.body.generation)))
  {
  }

  // ---- Every capsule is accounted for ----

  /** The labels of a list, counted. */
  function Labels<T>(of: T -> Label, xs: seq<T>): multiset<Label> {
    if xs == [] then multiset{} else multiset{of(xs[0])} + Labels(of, xs[1..])
  }

  lemma {:induction false} LabelsSnoc<T>(of: T -> Label, xs: seq<T>, x: T)
    ensures Labels(of, xs + [x]) == Labels(of, xs) + multiset{of(x)}
  {
    if xs == [] {
      assert [] + [x] == [x] && [x][1..] == [];
    } else {
      assert (xs + [x])[0] == xs[0] && (xs + [x])[1..] == xs[1..] + [x];
      LabelsSnoc(of, xs[1..], x);
    }
  }

  lemma LabelsLast<T>(of: T -> Label, xs: seq<T>)
    requires xs != []
    ensures Labels(of, xs) == Labels(of, xs[..|xs| - 1]) + multiset{of(xs[|xs| - 1])}
  {
    assert xs == xs[..|xs| - 1] + [xs[|xs| - 1]];
    LabelsSnoc(of, xs[..|xs| - 1], xs[|xs| - 1]);
  }

  lemma {:induction false} InsertLabels<T>(of: T -> Label, less: (T, T) -> bool, x: T, xs: seq<T>)
    ensures Labels(of, Insert(less, x, xs)) == Labels(of, xs) + multiset{of(x)}
  {
    if xs != [] && less(xs[0], x) {
      InsertLabels(of, less, x, xs[1..]);
    } else {
      assert ([x] + xs)[1..] == xs;
    }
  }

  lemma {:induction false} SortLabels<T>(of: T -> Label, less: (T, T) -> bool, xs: seq<T>)
    ensures Labels(of, Sort(less, xs)) == Labels(of, xs)
  {
    if xs != [] {
      SortLabels(of, less, xs[1..]);
      InsertLabels(of, less, xs[0], Sort(less, xs[1..]));
    }
  }

  function CapsuleTx(c: Capsule): Label { c.tx }

  function DecisionTx(d: Decision): Label { d.tx }

  function DeferredTx(p: (Label, Reason)): Label { p.0 }

  /** One more decision, or one more deferral with its reason, of this capsule's transaction. */
  ghost predicate Accounts(d: Draft, d': Draft, c: Capsule, epoch: nat) {
    || (d'.deferred == d.deferred && d'.decisions != [] && d'.decisions[|d'.decisions| - 1].tx == c.tx
        && d'.decisions == d.decisions + [d'.decisions[|d'.decisions| - 1]])
    || (d'.decisions == d.decisions
        && d'.deferred == d.deferred + [(c.tx, if c.observed.epoch != epoch then EpochMoved else BasisMoved)])
  }

  lemma AdmitAccounts(s: Repo, names: map<Label, Names>, d: Draft, c: Capsule)
    requires Admit(s, names, d, c).Ok?
    ensures Accounts(d, Admit(s, names, d, c).value, c, s.head.body.policy.epoch)
  {
  }

  /** Decided and deferred, counted together. */
  function Accounted(d: Draft): multiset<Label> {
    Labels(DecisionTx, d.decisions) + Labels(DeferredTx, d.deferred)
  }

  lemma AccountsOne(d: Draft, d': Draft, c: Capsule, epoch: nat)
    requires Accounts(d, d', c, epoch)
    ensures Accounted(d') == Accounted(d) + multiset{c.tx}
  {
    if d'.deferred == d.deferred {
      LabelsSnoc(DecisionTx, d.decisions, d'.decisions[|d'.decisions| - 1]);
    } else {
      LabelsSnoc(DeferredTx, d.deferred, d'.deferred[|d.deferred|]);
    }
  }

  lemma AdmitSnoc(s: Repo, names: map<Label, Names>, cs: seq<Capsule>)
    requires cs != [] && AdmitAll(s, names, Start(s), cs).Ok?
    ensures var front := AdmitAll(s, names, Start(s), cs[..|cs| - 1]);
      front.Ok? && Accounted(AdmitAll(s, names, Start(s), cs).value) == Accounted(front.value) + multiset{cs[|cs| - 1].tx}
  {
    var d, c := AdmitAll(s, names, Start(s), cs[..|cs| - 1]).value, cs[|cs| - 1];
    AdmitAccounts(s, names, d, c);
    AccountsOne(d, Admit(s, names, d, c).value, c, s.head.body.policy.epoch);
  }

  lemma {:induction false} AdmitAllAccounts(s: Repo, names: map<Label, Names>, cs: seq<Capsule>)
    requires AdmitAll(s, names, Start(s), cs).Ok?
    ensures Accounted(AdmitAll(s, names, Start(s), cs).value) == Labels(CapsuleTx, cs)
  {
    if cs != [] {
      var n := |cs| - 1;
      AdmitAllAccounts(s, names, cs[..n]);
      AdmitSnoc(s, names, cs);
      LabelsLast(CapsuleTx, cs);
    }
  }

  /** What a stage decided. */
  ghost function DecidedBy(s': Repo, o: StageOutcome): seq<Decision>
    requires o.batch.Some? ==> o.batch.value in s'.staged
  {
    if o.batch.Some? then s'.staged[o.batch.value].batch.decisions else []
  }

  lemma StageSortedAccounts(s: Repo, input: StageInput, cs: seq<Capsule>)
    requires StageSorted(s, input, cs).Ok?
    ensures var (s', o) := StageSorted(s, input, cs).value;
      var d := AdmitAll(s, input.names, Start(s), cs);
      && d.Ok? && o.deferred == d.value.deferred && (o.batch.Some? ==> o.batch.value in s'.staged)
      && DecidedBy(s', o) == d.value.decisions
  {
  }

  /**
   * Staging loses no capsule and invents none: the transactions it decides and
   * the ones it sends back are, counted, those of the listed capsules.
   */
  lemma StageAccountsForAll(s: Repo, input: StageInput)
    requires Stage(s, input).Ok?
    ensures var (s', o) := Stage(s, input).value;
      && (o.batch.Some? ==> o.batch.value in s'.staged)
      && Labels(DecisionTx, DecidedBy(s', o)) + Labels(DeferredTx, o.deferred)
         == Labels(CapsuleTx, Selected(s, input.capsules))
  {
    var picked := Selected(s, input.capsules);
    SortLabels(CapsuleTx, TxLess, picked);
    StageSortedAccounts(s, input, SortByTx(picked));
    AdmitAllAccounts(s, input.names, SortByTx(picked));
  }
}
