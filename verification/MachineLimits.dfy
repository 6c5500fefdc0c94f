/**
 * Where the machine turns away work the design seems to leave room for: a
 * fourth preparation, and the exact retry of a request whose schema was dropped
 * (crates/fgit-reference/src/transition.rs:112-175, 684-692, 768-817).
 */
module MachineLimits {
  import opened Intents
  import opened Fold
  import opened Evaluation
  import opened EvaluationLaws
  import opened Machine
  import opened MachineEscape

  // ---- The re-preparation budget ----

  /** The capsule would commit, but the head has moved away from what it read. */
  predicate IsStale(s: Repo, c: Capsule, b: Basis, generation: nat) {
    c.verdict.Commit? && !IsReusable(c.observed, b, generation, s.head.body.policy.epoch)
  }

  function PreparationsOf(s: Repo, tx: Label): nat {
    if tx in s.seals then s.seals[tx].preparations else 0
  }

  /**
   * A stale capsule of an undecided transaction is sent back exactly while
   * fewer than four preparations were made, and refused for good from the
   * fourth on.
   */
  lemma StaleIsSentBackIff(s: Repo, c: Capsule, b: Basis, generation: nat)
    requires c.tx !in OutcomesOf(s) && IsStale(s, c, b, generation)
    ensures var v := DecideAgainst(s, c, b, generation);
      && (v.RequiresRepreparation? <==> PreparationsOf(s, c.tx) < 4)
      && (v.Refuses? <==> PreparationsOf(s, c.tx) >= 4)
  {
  }

  /** Request `req`, sealed on head `h` and prepared there `n` times by the capsules 1 to `n`, each of them committing. */
  ghost predicate IsPreparedTimes(s: Repo, h: Head, req: Request, n: nat) {
    && s.head == h
    && req.tx in s.seals && s.seals[req.tx].fields == FieldsOf(req) && s.seals[req.tx].preparations == n
    && (forall id :: id in s.ledger.capsules ==> 1 <= id <= n)
    && forall id: int :: 1 <= id <= n ==> id in s.capsules && IsCommit(s.capsules[id], h, req.tx)
  }

  predicate IsCommit(c: Capsule, h: Head, tx: Label) {
    c.tx == tx && c.verdict.Commit? && c.observed.epoch == h.body.policy.epoch
  }

  lemma FilesAnother(s: Repo, h: Head, req: Request, n: nat, c: Conclusion)
    requires IsPreparedTimes(s, h, req, n) && n < LAST_COUNT && c.verdict.Commit?
    ensures PrepareWith(s, n + 1, req, Refined, c).Ok?
    ensures IsPreparedTimes(PrepareWith(s, n + 1, req, Refined, c).value, h, req, n + 1)
  {
    assert IsCommit(CapsuleOf(s, n + 1, req, Refined, c), h, req.tx);
  }

  ghost predicate IsAskedTimes(s: Repo, n: nat) {
    IsPreparedTimes(s, START.head, ASK, n) && EvidenceOf(s, 1) == CHECKED && s.ledger.heads == {0}
  }

  lemma PreparesAnother(s: Repo, n: nat)
    requires IsAskedTimes(s, n) && n < LAST_COUNT
    ensures IsAskedTimes(Transition(s, DoPrepare(n + 1, ASK, Refined)), n + 1)
  {
    AskCommits();
    FilesAnother(s, START.head, ASK, n, Evaluate(RULES, CHECKED, ORIGIN.roots.basis, ASK));
    PrepareStep(s, n + 1, ASK, Refined);
  }

  /** Prepare `n` times. */
  function Attempts(req: Request, n: nat): seq<Input> {
    seq(n, i => DoPrepare(i + 1, req, Refined))
  }

  lemma AttemptsSplit(before: seq<Input>, req: Request, n: nat)
    ensures before + Attempts(req, n) ==
      if n == 0 then before else before + Attempts(req, n - 1) + [DoPrepare(n, req, Refined)]
  {
  }

  lemma UploadedIsUnprepared()
    ensures IsAskedTimes(UPLOADED, 0)
  {
  }

  lemma {:induction false} AttemptsAreMade(s: Repo, before: seq<Input>, n: nat)
    requires n <= LAST_COUNT && IsAskedTimes(Run(s, before), 0)
    ensures IsAskedTimes(Run(s, before + Attempts(ASK, n)), n)
  {
    AttemptsSplit(before, ASK, n);
    if n != 0 {
      AttemptsAreMade(s, before, n - 1);
      AnotherIsMade(s, before + Attempts(ASK, n - 1), n - 1);
    }
  }

  lemma AnotherIsMade(s: Repo, first: seq<Input>, m: nat)
    requires m < LAST_COUNT && IsAskedTimes(Run(s, first), m)
    ensures IsAskedTimes(Run(s, first + [DoPrepare(m + 1, ASK, Refined)]), m + 1)
  {
    PreparesAnother(Run(s, first), m);
    RunSnoc(s, first, DoPrepare(m + 1, ASK, Refined));
  }

  const RENEWED := RULES.(epoch := 2)

  lemma Renews(s: Repo, h: Head, req: Request, n: nat, candidate: Label, policy: Policy)
    requires IsPreparedTimes(s, h, req, n) && 1 <= n && req.tx !in OutcomesOf(s)
    requires policy.epoch == h.body.policy.epoch + 1 < LAST && h.body.generation < LAST && candidate !in s.ledger.heads
    ensures var t := Transition(s, DoConfigure(h.id, h.body.generation, candidate, policy));
      && n in t.capsules && t.capsules[n].tx !in OutcomesOf(t)
      && DecideAgainst(t, t.capsules[n], t.head.body.point.roots.basis, t.head.body.generation) ==
           if n < 4 then RequiresRepreparation(EpochMoved) else Refuses(PolicyEpochSuperseded)
  {
    assert IsCommit(s.capsules[n], h, req.tx);
  }

  /**
   * A request prepared `n` times against one head, none superseded until a new
   * policy epoch is published, then looked at once more: up to three
   * preparations leave it a retry; the fourth costs it the transaction.
   */
  lemma FourthPreparationIsRefused(n: nat)
    requires 1 <= n <= LAST_COUNT
    ensures var s := Run(START, SCRIPT[..2] + Attempts(ASK, n) + [DoConfigure(0, 1, 1, RENEWED)]);
      && n in s.capsules && s.capsules[n].tx !in OutcomesOf(s)
      && DecideAgainst(s, s.capsules[n], s.head.body.point.roots.basis, s.head.body.generation) ==
           if n < 4 then RequiresRepreparation(EpochMoved) else Refuses(PolicyEpochSuperseded)
  {
    StartsUploaded();
    UploadedIsUnprepared();
    AttemptsAreMade(START, SCRIPT[..2], n);
    var inputs := SCRIPT[..2] + Attempts(ASK, n);
    Renews(Run(START, inputs), START.head, ASK, n, 1, RENEWED);
    RunSnoc(START, inputs, DoConfigure(0, 1, 1, RENEWED));
  }

  // ---- Exact retries ----

  const CLOSED := RULES.(epoch := 2, schemas := {})

  lemma ClosesSchema(s: Repo)
    requires s == SEALED
    ensures Transition(s, DoConfigure(0, 1, 1, CLOSED)) == Reconfigured(s, 1, CLOSED)
  {
    assert PublishConfiguration(s, 0, 1, 1, CLOSED) == Ok((Reconfigured(s, 1, CLOSED), Pinned(1, 2)));
  }

  /** A sealed request, retried exactly after its schema was dropped, is turned away. */
  lemma RetryIsTurnedAway()
    ensures var s := Run(START, [DoSeal(1, ASK), DoConfigure(0, 1, 1, CLOSED)]);
      && 1 in s.seals && s.seals[1].fields == FieldsOf(ASK)
      && SealRequest(s, 2, ASK) == Ok((s, Rejected(UnsupportedSchema)))
  {
    var xs := [DoSeal(1, ASK), DoConfigure(0, 1, 1, CLOSED)];
    assert xs == [] + [xs[0]] + [xs[1]];
    RunSnoc(START, [], xs[0]);
    RunSnoc(START, [] + [xs[0]], xs[1]);
    SealsFirst();
    ClosesSchema(SEALED);
  }
}
