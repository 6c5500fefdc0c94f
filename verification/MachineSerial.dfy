/** Serial and lawful commits: what each published record rests on, in every run. */
module MachineSerial {
  import opened Bytes
  import opened Intents
  import opened Fold
  import opened Evaluation
  import opened EvaluationLaws
  import opened Machine
  import opened MachineHistory
  import opened MachineTheorems
  import opened MachineRuns

  lemma RunIsReachable(repository: Label, format: Format, head: Label, policy: Policy, inputs: seq<Input>)
    ensures var s := Run(Genesis(repository, format, head, policy), inputs); s.format == format && IsReachable(s)
  {
    RunInv(repository, format, head, policy, inputs);
  }

  lemma RestExtends(start: Repo, inputs: seq<Input>, k: nat)
    requires k <= |inputs| && IsReachable(Run(start, inputs[..k]))
    ensures Extends(Run(start, inputs[..k]), Run(start, inputs))
  {
    RunJoins(start, inputs[..k], inputs[k..]);
    assert inputs[..k] + inputs[k..] == inputs;
    RunExtends(Run(start, inputs[..k]), inputs[k..]);
  }

  lemma PrefixExtends(repository: Label, format: Format, head: Label, policy: Policy, inputs: seq<Input>, k: nat)
    requires k <= |inputs|
    ensures var start := Genesis(repository, format, head, policy);
      Run(start, inputs[..k]).format == format && Extends(Run(start, inputs[..k]), Run(start, inputs))
  {
    RunIsReachable(repository, format, head, policy, inputs[..k]);
    RestExtends(Genesis(repository, format, head, policy), inputs, k);
  }

  /**
   * The ground of a record in a run: input `k` prepared the request that was sealed
   * under the record's transaction, and evaluating that request at `b`, with the
   * policy and the objects that preparation found, concludes with exactly this record.
   */
  ghost predicate IsGroundedBy(start: Repo, inputs: seq<Input>, k: nat, b: Basis, r: Record) {
    && k < |inputs| && inputs[k].DoPrepare?
    && var at, s, req := Run(start, inputs[..k]), Run(start, inputs), inputs[k].request;
    && r.tx in s.seals && FieldsOf(req) == s.seals[r.tx].fields && req.tx == r.tx && req.digest == r.digest
    && at.head.id in s.chain && s.chain[at.head.id] == at.head.body && at.head.body.policy.epoch == r.epoch
    && var c := Evaluate(at.head.body.policy, EvidenceOf(at, r.tx), b, req);
    && c.verdict == Commit(r.effects) && c.closure == r.closure
  }

  /**
   * Commits are serial: each record is what evaluating its own sealed request
   * concludes at the state the earlier records produce, with the objects its
   * preparation saw and under the one policy of its epoch.
   */
  lemma CommitsAreSerial(repository: Label, format: Format, head: Label, policy: Policy, inputs: seq<Input>, i: nat)
      returns (k: nat, b: Basis)
    requires i < |Run(Genesis(repository, format, head, policy), inputs).commits|
    ensures var start := Genesis(repository, format, head, policy); var s := Run(start, inputs);
      && Replay(ApplyEffects, ORIGIN.roots.basis, s.commits[..i]) == Some(b)
      && IsGroundedBy(start, inputs, k, b, s.commits[i])
      && forall id :: id in s.chain && s.chain[id].policy.epoch == s.commits[i].epoch ==>
           s.chain[id].policy == Run(start, inputs[..k]).head.body.policy
  {
    var start := Genesis(repository, format, head, policy);
    var s, known := Run(start, inputs), Attempts(start, inputs);
    RunInv(repository, format, head, policy, inputs);
    b := Replay(ApplyEffects, ORIGIN.roots.basis, s.commits[..i]).value;
    assert Actual(known).just(b, s.commits[i]);
    var a :| a in known && IsGround(a, b, s.commits[i]);
    k := AttemptIsMade(start, inputs, a);
    PrefixExtends(repository, format, head, policy, inputs, k);
    RunInv(repository, format, head, policy, inputs[..k]);
    assert Run(start, inputs[..k]).head.id in Run(start, inputs[..k]).chain;
  }

  lemma GroundIsLawful(p: Policy, ev: Evidence, b: Basis, req: Request)
    requires Evaluate(p, ev, b, req).verdict.Commit?
    ensures IsLawful(CaseOf(p, ev, b, req, Evaluate(p, ev, b, req).verdict.effects))
    ensures Screen(p, ev, req) == None
  {
    CommitsIff(p, ev, b, req);
  }

  /**
   * Every record was lawful where it took effect: for the capabilities, protection,
   * force permissions and ancestry that its own preparation saw, and the refs that
   * stood just before it.
   */
  lemma CommitsAreLawful(repository: Label, format: Format, head: Label, policy: Policy, inputs: seq<Input>, i: nat)
      returns (k: nat, b: Basis)
    requires i < |Run(Genesis(repository, format, head, policy), inputs).commits|
    ensures var start := Genesis(repository, format, head, policy); var s := Run(start, inputs);
      && Replay(ApplyEffects, ORIGIN.roots.basis, s.commits[..i]) == Some(b)
      && IsGroundedBy(start, inputs, k, b, s.commits[i])
      && var at, req := Run(start, inputs[..k]), inputs[k].request;
      && Screen(at.head.body.policy, EvidenceOf(at, req.tx), req) == None
      && IsLawful(CaseOf(at.head.body.policy, EvidenceOf(at, req.tx), b, req, s.commits[i].effects))
  {
    k, b := CommitsAreSerial(repository, format, head, policy, inputs, i);
    var at := Run(Genesis(repository, format, head, policy), inputs[..k]);
    GroundIsLawful(at.head.body.policy, EvidenceOf(at, inputs[k].request.tx), b, inputs[k].request);
  }
}
