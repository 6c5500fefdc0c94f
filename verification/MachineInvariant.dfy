/**
 * The machine's invariant, stated for any meaning of effects and any notion of
 * a justified record, and the lemmas that carry it across each transition.
 */
module MachineInvariant {
  import opened Bytes
  import opened Intents
  import opened Fold
  import opened Evaluation
  import opened Machine
  import opened MachineHistory

  /** What the invariant needs to know of evaluation. */
  datatype Laws = Laws(
    apply: Meaning,
    just: (Basis, Record) -> bool,
    vouch: (Body, Fields, Capsule) -> bool)

  /** The later laws still justify and vouch for what the earlier ones did. */
  ghost predicate Learns(l: Laws, l': Laws) {
    && l'.apply == l.apply
    && (forall b, r {:trigger l'.just(b, r)} {:trigger l.just(b, r)} :: l.just(b, r) ==> l'.just(b, r))
    && (forall body, f, c {:trigger l'.vouch(body, f, c)} {:trigger l.vouch(body, f, c)} ::
          l.vouch(body, f, c) ==> l'.vouch(body, f, c))
  }

  // ---- Serial commits ----

  /** Each record is justified at the state the records before it produce. */
  ghost predicate IsSerial(l: Laws, b: Basis, cs: seq<Record>) {
    forall i :: 0 <= i < |cs| ==>
      Replay(l.apply, b, cs[..i]).Some? && l.just(Replay(l.apply, b, cs[..i]).value, cs[i])
  }

  lemma SerialSnoc(l: Laws, b: Basis, cs: seq<Record>, r: Record)
    requires IsSerial(l, b, cs) && Replay(l.apply, b, cs).Some?
    requires l.just(Replay(l.apply, b, cs).value, r)
    ensures IsSerial(l, b, cs + [r])
  {
    var all := cs + [r];
    forall i | 0 <= i < |all|
      ensures Replay(l.apply, b, all[..i]).Some? && l.just(Replay(l.apply, b, all[..i]).value, all[i])
    {
      assert all[..i] == if i < |cs| then cs[..i] else cs;
    }
  }

  lemma SerialLearns(l: Laws, l': Laws, b: Basis, cs: seq<Record>)
    requires Learns(l, l') && IsSerial(l, b, cs)
    ensures IsSerial(l', b, cs)
  {
    forall i | 0 <= i < |cs|
      ensures Replay(l'.apply, b, cs[..i]).Some? && l'.just(Replay(l'.apply, b, cs[..i]).value, cs[i])
    {
      assert l.just(Replay(l.apply, b, cs[..i]).value, cs[i]);
    }
  }

  lemma SerialJoins(l: Laws, b: Basis, c1: seq<Record>, c2: seq<Record>)
    requires IsSerial(l, b, c1) && Replay(l.apply, b, c1).Some?
    requires IsSerial(l, Replay(l.apply, b, c1).value, c2)
    ensures IsSerial(l, b, c1 + c2)
  {
    var all := c1 + c2;
    forall i | 0 <= i < |all|
      ensures Replay(l.apply, b, all[..i]).Some? && l.just(Replay(l.apply, b, all[..i]).value, all[i])
    {
      if i < |c1| {
        assert all[..i] == c1[..i];
      } else {
        var j := i - |c1|;
        assert all[..i] == c1 + c2[..j];
        ReplayJoins(l.apply, b, c1, c2[..j]);
        assert l.just(Replay(l.apply, Replay(l.apply, b, c1).value, c2[..j]).value, c2[j]);
      }
    }
  }

  // ---- The head chain ----

  type Chain = map<Label, Body>

  /** Exactly one head per generation, each naming the one before it, back to generation 1. */
  ghost predicate IsChain(head: Head, chain: Chain) {
    && head.id in chain
    && chain[head.id] == head.body
    && (forall id :: id in chain ==> 1 <= chain[id].generation <= head.body.generation)
    && (forall id :: id in chain ==> (chain[id].predecessor == None <==> chain[id].generation == 1))
    && (forall id {:trigger chain[id].predecessor.value} :: id in chain && chain[id].predecessor.Some? ==>
          var p := chain[id].predecessor.value;
          p in chain && chain[p].generation + 1 == chain[id].generation)
    && (forall a, b :: a in chain && b in chain && chain[a].generation == chain[b].generation ==> a == b)
  }

  /** A policy epoch names one policy, and no head is ahead of the current epoch. */
  ghost predicate IsPinned(head: Head, chain: Chain) {
    && (forall id :: id in chain ==> chain[id].policy.epoch <= head.body.policy.epoch)
    && (forall a, b :: a in chain && b in chain && chain[a].policy.epoch == chain[b].policy.epoch ==>
          chain[a].policy == chain[b].policy)
  }

  /** Every head is where replaying its share of the log leads, and the current head has all of it. */
  ghost predicate IsLog(f: Meaning, head: Head, chain: Chain, ds: seq<Decision>, cs: seq<Record>) {
    && head.body.point.lastDecision == |ds|
    && head.body.point.lastSequence == |cs|
    && forall id :: id in chain ==> IsShare(f, chain[id].point, ds, cs)
  }

  ghost predicate IsShare(f: Meaning, p: Point, ds: seq<Decision>, cs: seq<Record>) {
    && p.lastDecision <= |ds|
    && p.lastSequence <= |cs|
    && Play(f, ORIGIN, ds[..p.lastDecision], cs[..p.lastSequence]) == Some(p)
  }

  lemma ChainGrows(head: Head, chain: Chain, next: Head)
    requires IsChain(head, chain) && next.id !in chain
    requires next.body.predecessor == Some(head.id) && next.body.generation == head.body.generation + 1
    ensures IsChain(next, chain[next.id := next.body])
  {
  }

  lemma PinnedGrows(head: Head, chain: Chain, next: Head)
    requires IsPinned(head, chain) && IsChain(head, chain) && next.id !in chain
    requires next.body.policy == head.body.policy || next.body.policy.epoch > head.body.policy.epoch
    ensures IsPinned(next, chain[next.id := next.body])
  {
  }

  lemma ShareGrows(f: Meaning, p: Point, ds: seq<Decision>, cs: seq<Record>, ds': seq<Decision>, cs': seq<Record>)
    requires IsShare(f, p, ds, cs)
    ensures IsShare(f, p, ds + ds', cs + cs')
  {
    assert (ds + ds')[..p.lastDecision] == ds[..p.lastDecision];
    assert (cs + cs')[..p.lastSequence] == cs[..p.lastSequence];
  }

  lemma ShareMoves(f: Meaning, p: Point, ds: seq<Decision>, cs: seq<Record>, q: Point, ds': seq<Decision>,
                   cs': seq<Record>)
    requires IsShare(f, p, ds, cs) && p.lastDecision == |ds| && p.lastSequence == |cs|
    requires Play(f, p, ds', cs') == Some(q)
    ensures IsShare(f, q, ds + ds', cs + cs') && q.lastDecision == |ds + ds'| && q.lastSequence == |cs + cs'|
  {
    assert ds[..p.lastDecision] == ds && cs[..p.lastSequence] == cs;
    PlayJoins(f, ORIGIN, ds, cs, ds', cs');
    PlayCounts(f, p, ds', cs');
    assert (ds + ds')[..|ds + ds'|] == ds + ds' && (cs + cs')[..|cs + cs'|] == cs + cs';
  }

  lemma LogGrows(f: Meaning, head: Head, chain: Chain, ds: seq<Decision>, cs: seq<Record>, next: Head,
                 ds': seq<Decision>, cs': seq<Record>)
    requires IsLog(f, head, chain, ds, cs) && head.id in chain && chain[head.id] == head.body && next.id !in chain
    requires Play(f, head.body.point, ds', cs') == Some(next.body.point)
    ensures IsLog(f, next, chain[next.id := next.body], ds + ds', cs + cs')
  {
    assert IsShare(f, chain[head.id].point, ds, cs);
    ShareMoves(f, head.body.point, ds, cs, next.body.point, ds', cs');
    forall id | id in chain ensures IsShare(f, chain[id].point, ds + ds', cs + cs')
    {
      ShareGrows(f, chain[id].point, ds, cs, ds', cs');
    }
  }

  /** The published past: heads, policies, log and serial records together. */
  ghost predicate IsPast(l: Laws, head: Head, chain: Chain, ds: seq<Decision>, cs: seq<Record>) {
    && IsChain(head, chain)
    && IsPinned(head, chain)
    && IsLog(l.apply, head, chain, ds, cs)
    && IsSerial(l, ORIGIN.roots.basis, cs)
  }

  lemma PastBasis(l: Laws, head: Head, chain: Chain, ds: seq<Decision>, cs: seq<Record>)
    requires IsPast(l, head, chain, ds, cs)
    ensures Play(l.apply, ORIGIN, ds, cs) == Some(head.body.point)
    ensures Replay(l.apply, ORIGIN.roots.basis, cs) == Some(head.body.point.roots.basis)
  {
    assert IsShare(l.apply, chain[head.id].point, ds, cs);
    assert ds[..|ds|] == ds && cs[..|cs|] == cs;
    PlayReplays(l.apply, ORIGIN, ds, cs);
  }

  /** A new head that continues the current one, with justified records, extends the past. */
  lemma PastGrows(l: Laws, head: Head, chain: Chain, ds: seq<Decision>, cs: seq<Record>, next: Head,
                  ds': seq<Decision>, cs': seq<Record>)
    requires IsPast(l, head, chain, ds, cs) && next.id !in chain
    requires next.body.predecessor == Some(head.id) && next.body.generation == head.body.generation + 1
    requires next.body.policy == head.body.policy || next.body.policy.epoch > head.body.policy.epoch
    requires Play(l.apply, head.body.point, ds', cs') == Some(next.body.point)
    requires IsSerial(l, head.body.point.roots.basis, cs')
    ensures IsPast(l, next, chain[next.id := next.body], ds + ds', cs + cs')
  {
    ChainGrows(head, chain, next);
    PinnedGrows(head, chain, next);
    LogGrows(l.apply, head, chain, ds, cs, next, ds', cs');
    PastBasis(l, head, chain, ds, cs);
    SerialJoins(l, ORIGIN.roots.basis, cs, cs');
  }

  // ---- Staged batches ----

  /** A staged batch continues the head it names. */
  ghost predicate IsContinuation(l: Laws, chain: Chain, st: StagedBatch) {
    && st.batch.head in chain
    && var from := chain[st.batch.head];
    && st.candidate.body.predecessor == Some(st.batch.head)
    && st.candidate.body.generation == from.generation + 1
    && st.candidate.body.policy == from.policy
    && Play(l.apply, from.point, st.batch.decisions, st.batch.commits) == Some(st.candidate.body.point)
    && IsSerial(l, from.point.roots.basis, st.batch.commits)
  }

  ghost predicate AreStaged(l: Laws, chain: Chain, staged: map<Label, StagedBatch>, heads: set<Label>) {
    && chain.Keys <= heads
    && (forall id :: id in staged ==> IsContinuation(l, chain, staged[id]))
    && (forall id :: id in staged ==> staged[id].candidate.id in heads && staged[id].candidate.id !in chain)
    && (forall a, b :: a in staged && b in staged && staged[a].candidate.id == staged[b].candidate.id ==> a == b)
  }

  lemma ContinuationGrows(l: Laws, chain: Chain, next: Head, st: StagedBatch)
    requires next.id !in chain && IsContinuation(l, chain, st)
    ensures IsContinuation(l, chain[next.id := next.body], st)
  {
  }

  /** The chain may grow by a head that no remaining staged batch proposes. */
  lemma StagedSurvive(l: Laws, chain: Chain, staged: map<Label, StagedBatch>, heads: set<Label>, next: Head,
                      rest: map<Label, StagedBatch>, heads': set<Label>)
    requires AreStaged(l, chain, staged, heads) && next.id !in chain
    requires forall id :: id in rest ==> id in staged && rest[id] == staged[id] && rest[id].candidate.id != next.id
    requires heads <= heads' && next.id in heads'
    ensures AreStaged(l, chain[next.id := next.body], rest, heads')
  {
    forall id | id in rest ensures IsContinuation(l, chain[next.id := next.body], rest[id])
    {
      assert IsContinuation(l, chain, staged[id]);
      ContinuationGrows(l, chain, next, rest[id]);
    }
  }

  // ---- Seals, capsules and decided transactions ----

  ghost predicate AreSealed(repository: Label, seals: map<Label, Seal>, keys: map<Scope, Digest>) {
    forall tx :: tx in seals ==>
      && seals[tx].fields.tx == tx
      && seals[tx].fields.repository == repository
      && KeyScope(seals[tx].fields) in keys
      && keys[KeyScope(seals[tx].fields)] == seals[tx].fields.digest
  }

  /** The derivation inputs of a seal are bound to its own transaction. */
  ghost predicate AreBound(seals: map<Label, Seal>, bound: map<Inputs, Label>) {
    forall tx :: tx in seals ==>
      InputsOf(seals[tx].fields) in bound && bound[InputsOf(seals[tx].fields)] == tx
  }

  ghost predicate AreVouched(l: Laws, chain: Chain, seals: map<Label, Seal>, capsules: map<Label, Capsule>) {
    forall id :: id in capsules ==>
      && capsules[id].tx in seals
      && capsules[id].basisHead in chain
      && l.vouch(chain[capsules[id].basisHead], seals[capsules[id].tx].fields, capsules[id])
  }

  ghost predicate AreKnown(seals: map<Label, Seal>, outcomes: map<Label, Terminal>, staged: map<Label, StagedBatch>) {
    && (forall tx :: tx in outcomes ==> tx in seals)
    && (forall id, tx :: id in staged && tx in staged[id].candidate.body.point.roots.outcomes ==> tx in seals)
  }

  lemma SealedGrows(repository: Label, seals: map<Label, Seal>, keys: map<Scope, Digest>, f: Fields, id: Label)
    requires AreSealed(repository, seals, keys) && f.repository == repository
    requires KeyScope(f) in keys ==> keys[KeyScope(f)] == f.digest
    ensures AreSealed(repository, seals[f.tx := Seal(id, f, 0)], keys[KeyScope(f) := f.digest])
  {
  }

  ghost predicate KeepsFields(seals: map<Label, Seal>, seals': map<Label, Seal>) {
    forall tx :: tx in seals ==> tx in seals' && seals'[tx].fields == seals[tx].fields
  }

  lemma VouchedGrow(l: Laws, chain: Chain, chain': Chain, seals: map<Label, Seal>, seals': map<Label, Seal>,
                    capsules: map<Label, Capsule>)
    requires AreVouched(l, chain, seals, capsules) && KeepsFields(seals, seals')
    requires forall id :: id in chain ==> id in chain' && chain'[id] == chain[id]
    ensures AreVouched(l, chain', seals', capsules)
  {
  }

  lemma KnownGrow(seals: map<Label, Seal>, seals': map<Label, Seal>, outcomes: map<Label, Terminal>,
                  staged: map<Label, StagedBatch>)
    requires AreKnown(seals, outcomes, staged) && KeepsFields(seals, seals')
    ensures AreKnown(seals', outcomes, staged)
  {
  }

  /** What every reachable state satisfies. */
  ghost predicate Inv(l: Laws, s: Repo) {
    && IsPast(l, s.head, s.chain, s.decisions, s.commits)
    && AreStaged(l, s.chain, s.staged, s.ledger.heads)
    && AreSealed(s.repository, s.seals, s.keys)
    && AreBound(s.seals, s.ledger.txByInputs)
    && AreVouched(l, s.chain, s.seals, s.capsules)
    && AreKnown(s.seals, OutcomesOf(s), s.staged)
  }

  lemma ContinuationLearns(l: Laws, l': Laws, chain: Chain, st: StagedBatch)
    requires Learns(l, l') && IsContinuation(l, chain, st)
    ensures IsContinuation(l', chain, st)
  {
    SerialLearns(l, l', chain[st.batch.head].point.roots.basis, st.batch.commits);
  }

  /** Knowing more keeps the invariant. */
  lemma InvLearns(l: Laws, l': Laws, s: Repo)
    requires Learns(l, l') && Inv(l, s)
    ensures Inv(l', s)
  {
    SerialLearns(l, l', ORIGIN.roots.basis, s.commits);
    forall id | id in s.staged ensures IsContinuation(l', s.chain, s.staged[id])
    {
      ContinuationLearns(l, l', s.chain, s.staged[id]);
    }
  }

  lemma GenesisInv(l: Laws, repository: Label, format: Format, head: Label, policy: Policy)
    ensures Inv(l, Genesis(repository, format, head, policy))
  {
    var s := Genesis(repository, format, head, policy);
    assert s.decisions[..0] == [] && s.commits[..0] == [];
    assert IsShare(l.apply, ORIGIN, [], []);
  }

  // ---- Seal, quarantine, prepare, cancel ----

  lemma SealInv(l: Laws, s: Repo, id: Label, f: Fields, ledger: Ledger)
    requires Inv(l, s) && f.tx !in s.seals && f.repository == s.repository
    requires KeyScope(f) in s.keys ==> s.keys[KeyScope(f)] == f.digest
    requires Bind(s.ledger, f.tx, InputsOf(f)) == Ok(ledger)
    ensures Inv(l, Sealed(s, id, f, ledger))
  {
    var s' := Sealed(s, id, f, ledger);
    SealedGrows(s.repository, s.seals, s.keys, f, id);
    VouchedGrow(l, s.chain, s.chain, s.seals, s'.seals, s.capsules);
    KnownGrow(s.seals, s'.seals, OutcomesOf(s), s.staged);
  }

  lemma StageObjectsInv(l: Laws, s: Repo, tx: Label, objects: seq<Upload>)
    requires Inv(l, s) && StageObjects(s, tx, objects).Ok?
    ensures Inv(l, StageObjects(s, tx, objects).value)
  {
  }

  lemma PrepareInv(l: Laws, s: Repo, c: Capsule)
    requires Inv(l, s) && c.tx in s.seals && c.basisHead == s.head.id
    requires l.vouch(s.head.body, s.seals[c.tx].fields, c)
    ensures Inv(l, Prepared(s, c))
  {
    var s' := Prepared(s, c);
    VouchedGrow(l, s.chain, s.chain, s.seals, s'.seals, s.capsules);
    KnownGrow(s.seals, s'.seals, OutcomesOf(s), s.staged);
  }

  lemma CancelInv(l: Laws, s: Repo, tx: Label, phase: Phase)
    requires Inv(l, s)
    ensures Inv(l, Cancel(s, tx, phase))
  {
  }

  lemma ConfigureInv(l: Laws, s: Repo, candidate: Label, policy: Policy)
    requires Inv(l, s)
    requires candidate !in s.ledger.heads && policy.epoch == s.head.body.policy.epoch + 1
    ensures Inv(l, Reconfigured(s, candidate, policy))
  {
    var s' := Reconfigured(s, candidate, policy);
    assert candidate !in s.chain;
    PastGrows(l, s.head, s.chain, s.decisions, s.commits, s'.head, [], []);
    assert s.decisions + [] == s.decisions && s.commits + [] == s.commits;
    StagedSurvive(l, s.chain, s.staged, s.ledger.heads, s'.head, s.staged, s'.ledger.heads);
    VouchedGrow(l, s.chain, s'.chain, s.seals, s.seals, s.capsules);
  }
}
