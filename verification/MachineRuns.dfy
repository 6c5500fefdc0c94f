/** What later states owe to earlier ones, and what a sealed key means for good. */
module MachineRuns {
  import opened Bytes
  import opened Intents
  import opened Fold
  import opened Ancestry
  import opened Machine
  import opened MachineHistory
  import opened MachineInvariant
  import opened MachineTheorems

  // ---- History only grows ----

  ghost predicate KeepsHeads(chain: Chain, chain': Chain) {
    forall id :: id in chain ==> id in chain' && chain'[id] == chain[id]
  }

  ghost predicate KeepsOutcomes(a: map<Label, Terminal>, b: map<Label, Terminal>) {
    forall tx :: tx in a ==> tx in b && b[tx] == a[tx]
  }

  /** Nothing published, decided or sealed is ever taken back. */
  ghost predicate Extends(s: Repo, s': Repo) {
    && s.decisions <= s'.decisions
    && s.commits <= s'.commits
    && KeepsHeads(s.chain, s'.chain)
    && KeepsOutcomes(OutcomesOf(s), OutcomesOf(s'))
    && KeepsFields(s.seals, s'.seals)
  }

  lemma PublishExtends(l: Laws, s: Repo, id: Label)
    requires Inv(l, s) && id in s.staged && s.staged[id].candidate.body.predecessor == Some(s.head.id)
    ensures Extends(s, Publish(s, id))
  {
    var st := s.staged[id];
    assert IsContinuation(l, s.chain, st);
    PlayDecides(l.apply, s.head.body.point, st.batch.decisions, st.batch.commits);
    IndexMeaning(OutcomesOf(s), st.batch.decisions);
  }

  /** Changes that leave the published past alone. */
  lemma QuietExtends(s: Repo, c: Change, s': Repo)
    requires IsChange(s, c, s') && !c.Publishes? && !c.Configures? && !c.Stages?
    ensures s'.decisions == s.decisions && s'.commits == s.commits && s'.chain == s.chain && s'.head == s.head
    ensures KeepsFields(s.seals, s'.seals)
  {
  }

  lemma ChangeExtends(l: Laws, s: Repo, c: Change, s': Repo)
    requires Inv(l, s) && IsChange(s, c, s')
    ensures Extends(s, s')
  {
    if c.Stages? {
      StageKeepsRest(s, c.input);
    } else if c.Publishes? {
      PublishExtends(l, s, c.batch);
    } else if c.Configures? {
      assert s'.decisions == s.decisions && s'.commits == s.commits;
    } else {
      QuietExtends(s, c, s');
    }
  }

  lemma ExtendsTransitive(a: Repo, b: Repo, c: Repo)
    requires Extends(a, b) && Extends(b, c)
    ensures Extends(a, c)
  {
  }

  lemma {:induction false} RunJoins(s: Repo, xs: seq<Input>, ys: seq<Input>)
    ensures Run(Run(s, xs), ys) == Run(s, xs + ys)
    decreases |ys|
  {
    if ys == [] {
      assert xs + ys == xs;
    } else {
      var n := |ys| - 1;
      assert (xs + ys)[..|xs + ys| - 1] == xs + ys[..n];
      RunJoins(s, xs, ys[..n]);
    }
  }

  lemma StaysReachable(s: Repo, inputs: seq<Input>)
    requires IsReachable(s)
    ensures IsReachable(Run(s, inputs))
  {
    var repository, head, policy, before :| s == Run(Genesis(repository, s.format, head, policy), before);
    RunJoins(Genesis(repository, s.format, head, policy), before, inputs);
    RunInv(repository, s.format, head, policy, before + inputs);
  }

  /** However a run goes on, published history stays a prefix and every terminal outcome stands. */
  lemma {:induction false} RunExtends(s: Repo, inputs: seq<Input>)
    requires IsReachable(s)
    ensures Extends(s, Run(s, inputs))
  {
    if inputs != [] {
      var n := |inputs| - 1;
      var mid := Run(s, inputs[..n]);
      RunExtends(s, inputs[..n]);
      StaysReachable(s, inputs[..n]);
      var known := ReachableInv(mid);
      var c := TransitionChange(mid, inputs[n]);
      ChangeExtends(Actual(known), mid, c, Run(s, inputs));
      ExtendsTransitive(s, mid, Run(s, inputs));
    }
  }

  // ---- The head chain ----

  /** The head `n` predecessors back. */
  function Back(chain: Chain, id: Label, n: nat): Option<Label>
    decreases n
  {
    if n == 0 then Some(id)
    else if id in chain && chain[id].predecessor.Some? then Back(chain, chain[id].predecessor.value, n - 1)
    else None
  }

  lemma {:induction false} ChainReaches(head: Head, chain: Chain, from: Label, id: Label)
    requires IsChain(head, chain) && from in chain && id in chain && chain[id].generation <= chain[from].generation
    ensures Back(chain, from, chain[from].generation - chain[id].generation) == Some(id)
    decreases chain[from].generation
  {
    if chain[from].generation > chain[id].generation {
      ChainReaches(head, chain, chain[from].predecessor.value, id);
    }
  }

  /** `id` is a predecessor of the head, as many heads back as its generation is behind. */
  ghost predicate IsOnLine(head: Head, chain: Chain, id: Label)
    requires id in chain
  {
    && 1 <= chain[id].generation <= head.body.generation
    && Back(chain, head.id, head.body.generation - chain[id].generation) == Some(id)
    && (chain[id].predecessor == None <==> chain[id].generation == 1)
  }

  lemma ChainIsLine(head: Head, chain: Chain, id: Label)
    requires IsChain(head, chain) && id in chain
    ensures IsOnLine(head, chain, id)
  {
    ChainReaches(head, chain, head.id, id);
  }

  /** Every head ever published lies on the current head's line, back to the only one without predecessor. */
  lemma HeadsAreOneLine(s: Repo, id: Label)
    requires IsReachable(s) && id in s.chain
    ensures IsOnLine(s.head, s.chain, id)
  {
    var known := ReachableInv(s);
    ChainIsLine(s.head, s.chain, id);
  }

  /** Each published head holds exactly the state its own share of the log replays to. */
  lemma HeadsAreSnapshots(s: Repo, id: Label)
    requires IsReachable(s) && id in s.chain
    ensures var p := s.chain[id].point;
      && p.lastDecision <= |s.decisions|
      && p.lastSequence <= |s.commits|
      && Play(ApplyEffects, ORIGIN, s.decisions[..p.lastDecision], s.commits[..p.lastSequence]) == Some(p)
  {
    var known := ReachableInv(s);
    var l, p := Actual(known), s.chain[id].point;
    assert IsShare(l.apply, p, s.decisions, s.commits);
  }

  // ---- Idempotency ----

  lemma BoundKey(s: Repo, tx: Label, id: Label, req: Request)
    requires AreSealed(s.repository, s.seals, s.keys) && AreBound(s.seals, s.ledger.txByInputs)
    requires tx in s.seals && KeyScope(FieldsOf(req)) == KeyScope(s.seals[tx].fields)
    ensures SealRequest(s, id, req).Ok? ==> SealRequest(s, id, req).value.0 == s
  {
    assert InputsOf(s.seals[tx].fields) in s.ledger.txByInputs;
  }

  /** In a bound scope no request ever seals anything again: each is a retry, a rejection or a breach. */
  lemma BoundKeySealsNothing(s: Repo, tx: Label, id: Label, req: Request)
    requires IsReachable(s) && tx in s.seals && KeyScope(FieldsOf(req)) == KeyScope(s.seals[tx].fields)
    ensures SealRequest(s, id, req).Ok? ==> SealRequest(s, id, req).value.0 == s
  {
    var known := ReachableInv(s);
    BoundKey(s, tx, id, req);
  }

  /** A key reused with another digest is rejected and changes nothing, for the rest of time. */
  lemma KeyReuseIsRejected(s: Repo, tx: Label, later: seq<Input>, id: Label, req: Request)
    requires IsReachable(s) && tx in s.seals && KeyScope(FieldsOf(req)) == KeyScope(s.seals[tx].fields)
    requires req.digest != s.seals[tx].fields.digest
    ensures var s' := Run(s, later);
      s'.repository == req.repository && SealRequest(s', id, req) == Ok((s', Rejected(IdempotencyKeyReuse)))
  {
    var s' := Run(s, later);
    RunExtends(s, later);
    StaysReachable(s, later);
    var known := ReachableInv(s');
    assert s'.seals[tx].fields == s.seals[tx].fields;
  }

  /**
   * An exact retry is recognised as the same transaction exactly while the
   * current policy still supports its schema; otherwise it is turned away.
   */
  lemma RetryIffSchemaSupported(s: Repo, later: seq<Input>, id: Label, req: Request)
    requires IsReachable(s) && req.tx in s.seals && FieldsOf(req) == s.seals[req.tx].fields
    ensures var s' := Run(s, later);
      && req.tx in s'.seals
      && (SealRequest(s', id, req) == Ok((s', ExistingRetry(s'.seals[req.tx].id))) <==>
            req.schema in s'.head.body.policy.schemas)
      && (req.schema !in s'.head.body.policy.schemas ==>
            SealRequest(s', id, req) == Ok((s', Rejected(UnsupportedSchema))))
  {
    var s' := Run(s, later);
    RunExtends(s, later);
    StaysReachable(s, later);
    var known := ReachableInv(s');
    assert s'.seals[req.tx].fields == FieldsOf(req);
  }

  /** A key scope belongs to one transaction. */
  lemma KeyIsOneTransaction(s: Repo, a: Label, b: Label)
    requires IsReachable(s) && a in s.seals && b in s.seals
    requires KeyScope(s.seals[a].fields) == KeyScope(s.seals[b].fields)
    ensures a == b
  {
    var known := ReachableInv(s);
    assert InputsOf(s.seals[a].fields) == InputsOf(s.seals[b].fields);
  }

  /** The key scope a decision was sealed under. */
  ghost predicate IsUnder(s: Repo, i: nat, key: Scope) {
    i < |s.decisions| && s.decisions[i].tx in s.seals && KeyScope(s.seals[s.decisions[i].tx].fields) == key
  }

  /**
   * Each key has at most one terminal outcome, for good: every decision is under
   * a sealed key, no two are under one, and none is ever taken back or changed.
   */
  lemma KeyHasOneOutcome(s: Repo, later: seq<Input>, i: nat, j: nat, key: Scope)
    requires IsReachable(s) && IsUnder(Run(s, later), i, key) && IsUnder(Run(s, later), j, key)
    ensures i == j
    ensures i < |s.decisions| ==> s.decisions[i] == Run(s, later).decisions[i] && IsUnder(s, i, key)
  {
    var s' := Run(s, later);
    StaysReachable(s, later);
    RunExtends(s, later);
    KeyIsOneTransaction(s', s'.decisions[i].tx, s'.decisions[j].tx);
    DecisionsAreIndexed(s');
    DecidedIsSealed(s, i);
  }

  lemma DecidedIsSealed(s: Repo, i: nat)
    requires IsReachable(s)
    ensures i < |s.decisions| ==> s.decisions[i].tx in s.seals
  {
    var known := ReachableInv(s);
    DecisionsAreIndexed(s);
  }

  // ---- Cancellation ----

  /**
   * Cancelling proves nothing about the outcome: whatever the phase, no head,
   * seal, staged batch or decision changes, and a swap ends as it would have.
   */
  lemma CancelProvesNothing(s: Repo, tx: Label, phase: Phase, expected: Label, generation: nat, id: Label)
    ensures var s' := Cancel(s, tx, phase);
      s' == s.(capsules := s'.capsules) &&
      match CompareAndSwap(s, expected, generation, id)
      case Broken(breach) => CompareAndSwap(s', expected, generation, id) == Broken(breach)
      case Ok((after, outcome)) =>
        && CompareAndSwap(s', expected, generation, id).Ok?
        && CompareAndSwap(s', expected, generation, id).value.1 == outcome
        && var after' := CompareAndSwap(s', expected, generation, id).value.0;
        && after' == after.(capsules := after'.capsules)
  {
    if id in s.staged { SamePromotion(s, Cancel(s, tx, phase), s.objects, s.staged[id].batch.commits); }
  }

  /** Cancelling between seal and swap drops every capsule of the transaction and no other; at other times it drops none. */
  lemma CancelDropsCapsules(s: Repo, tx: Label, phase: Phase, id: Label)
    ensures var s' := Cancel(s, tx, phase);
      && (id in s'.capsules <==> id in s.capsules && !(phase == AfterSealBeforeCas && s.capsules[id].tx == tx))
      && (id in s'.capsules ==> s'.capsules[id] == s.capsules[id])
  {
  }

  lemma {:induction false} SamePromotion(s: Repo, s': Repo, objects: Parents, rs: seq<Record>)
    requires forall i :: 0 <= i < |rs| ==> QuarantineOf(s', rs[i].tx) == QuarantineOf(s, rs[i].tx)
    ensures PromoteAll(s', objects, rs) == PromoteAll(s, objects, rs)
    decreases |rs|
  {
    if rs != [] {
      SamePromotion(s, s', Promote(objects, QuarantineOf(s, rs[0].tx), rs[0].closure), rs[1..]);
    }
  }
}
