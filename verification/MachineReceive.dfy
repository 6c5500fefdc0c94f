/**
 * An atomic receive in the admission machine: one request, one decision, and
 * every named ref moved or none (README.md:583-594,
 * crates/fgit-admission/src/lib.rs:3510-3550).
 */
module MachineReceive {
  import opened Bytes
  import opened Intents
  import opened Fold
  import opened Ancestry
  import opened Evaluation
  import opened EvaluationLaws
  import opened Machine
  import opened MachineHistory
  import opened MachineTheorems
  import opened MachineSerial
  import opened Receive

  /** The commands as one statement of one request; everything else about it is given. */
  function AtomicRequest(cs: seq<Command>, r: Request): Request {
    r.(statements := [Statement(seq(|cs|, i requires 0 <= i < |cs| => Lower(cs[i])), TxnAbort)], atomic := true)
  }

  lemma AtomicIsPlaced(cs: seq<Command>, r: Request)
    ensures AddressedIntents(AtomicRequest(cs, r)) == Place(cs)
  {
    var ss := AtomicRequest(cs, r).statements;
    assert ss[1..] == [];
    assert PlacedFrom(ss[1..], 1) == [];
    assert PlacedFrom(ss, 0) ==
      seq(|ss[0].intents|, i requires 0 <= i < |ss[0].intents| => Placed(Address(0, i), ss[0].intents[i], ss[0].policy));
  }

  /** Committed decisions and records go together, transaction by transaction. */
  ghost predicate ArePaired(ds: seq<Decision>, rs: seq<Record>) {
    && (forall j :: 0 <= j < |rs| ==> IsCommitted(ds, rs[j].tx))
    && forall i :: 0 <= i < |ds| && ds[i].outcome.Committed? ==> HasRecord(rs, ds[i].tx)
  }

  ghost predicate IsCommitted(ds: seq<Decision>, tx: Label) {
    exists i :: 0 <= i < |ds| && ds[i].tx == tx && ds[i].outcome.Committed?
  }

  ghost predicate HasRecord(rs: seq<Record>, tx: Label) {
    exists j :: 0 <= j < |rs| && rs[j].tx == tx
  }

  lemma PairedRefusal(ds: seq<Decision>, rs: seq<Record>, d: Decision)
    requires ArePaired(ds, rs) && d.outcome.Refused?
    ensures ArePaired(ds + [d], rs)
  {
    forall j | 0 <= j < |rs| ensures IsCommitted(ds + [d], rs[j].tx)
    {
      var i :| 0 <= i < |ds| && ds[i].tx == rs[j].tx && ds[i].outcome.Committed?;
      assert (ds + [d])[i] == ds[i];
    }
  }

  lemma PairedCommit(ds: seq<Decision>, rs: seq<Record>, d: Decision, r: Record)
    requires ArePaired(ds, rs) && d.outcome.Committed? && d.tx == r.tx
    ensures ArePaired(ds + [d], rs + [r])
  {
    var ds', rs' := ds + [d], rs + [r];
    assert ds'[|ds|] == d && rs'[|rs|] == r;
    forall j | 0 <= j < |rs'| ensures IsCommitted(ds', rs'[j].tx)
    {
      if j < |rs| {
        assert rs'[j] == rs[j];
        var i :| 0 <= i < |ds| && ds[i].tx == rs[j].tx && ds[i].outcome.Committed?;
        assert ds'[i] == ds[i];
      }
    }
    forall i | 0 <= i < |ds'| && ds'[i].outcome.Committed? ensures HasRecord(rs', ds'[i].tx)
    {
      if i < |ds| {
        assert ds'[i] == ds[i];
        var j :| 0 <= j < |rs| && rs[j].tx == ds[i].tx;
        assert rs'[j] == rs[j];
      }
    }
  }

  lemma {:induction false} PlayPairs(f: Meaning, p: Point, ds: seq<Decision>, rs: seq<Record>)
    requires Play(f, p, ds, rs).Some?
    ensures ArePaired(ds, rs)
    decreases |ds|
  {
    if ds != [] {
      var n := |ds| - 1;
      assert ds[..n] + [ds[n]] == ds;
      if ds[n].outcome.Refused? {
        PlayPairs(f, p, ds[..n], rs);
        PairedRefusal(ds[..n], rs, ds[n]);
      } else {
        var m := |rs| - 1;
        assert rs[..m] + [rs[m]] == rs;
        PlayPairs(f, p, ds[..n], rs[..m]);
        PairedCommit(ds[..n], rs[..m], ds[n], rs[m]);
      }
    }
  }

  /** Nothing but `req` itself is prepared under its transaction. */
  ghost predicate IsPreparedAs(inputs: seq<Input>, req: Request) {
    forall k :: 0 <= k < |inputs| && inputs[k].DoPrepare? && inputs[k].request.tx == req.tx ==> inputs[k].request == req
  }

  lemma CommitMoves(p: Policy, ev: Evidence, b: Basis, req: Request, cs: seq<Command>)
    requires AreDistinct(cs) && AddressedIntents(req) == Place(cs)
    requires Evaluate(p, ev, b, req).verdict.Commit?
    ensures AreMet(b.refs, cs)
    ensures ApplyEffects(b, Evaluate(p, ev, b, req).verdict.effects) == Some(b.(refs := Moved(b.refs, cs)))
  {
    AtomicAllOrNone(b, cs);
  }

  /** In such a run the ground of a record of the transaction is `req` itself. */
  lemma GroundMoves(start: Repo, inputs: seq<Input>, k: nat, b: Basis, r: Record, req: Request, cs: seq<Command>)
    requires IsGroundedBy(start, inputs, k, b, r) && IsPreparedAs(inputs, req) && r.tx == req.tx
    requires AreDistinct(cs) && AddressedIntents(req) == Place(cs)
    ensures AreMet(b.refs, cs) && ApplyEffects(b, r.effects) == Some(b.(refs := Moved(b.refs, cs)))
  {
    var at := Run(start, inputs[..k]);
    assert inputs[k].request == req;
    CommitMoves(at.head.body.policy, EvidenceOf(at, r.tx), b, req, cs);
  }

  /** A record of the receive moves every named ref from its old value to its new one, and nothing else. */
  lemma ReceiveMoves(repository: Label, format: Format, head: Label, policy: Policy, inputs: seq<Input>,
                     cs: seq<Command>, req: Request, j: nat)
    requires AreDistinct(cs) && AddressedIntents(req) == Place(cs) && IsPreparedAs(inputs, req)
    requires var s := Run(Genesis(repository, format, head, policy), inputs);
      j < |s.commits| && s.commits[j].tx == req.tx
    ensures Lands(Run(Genesis(repository, format, head, policy), inputs).commits, j, cs)
  {
    var start := Genesis(repository, format, head, policy);
    var rs := Run(start, inputs).commits;
    var k, b := CommitsAreSerial(repository, format, head, policy, inputs, j);
    GroundMoves(start, inputs, k, b, rs[j], req, cs);
    LandsNext(rs, j, cs, b);
  }

  /** Record `j` found every named ref at its old value and left every one at its new value, and moved nothing else. */
  ghost predicate Lands(rs: seq<Record>, j: nat, cs: seq<Command>)
    requires j < |rs|
  {
    var before := Replay(ApplyEffects, ORIGIN.roots.basis, rs[..j]);
    && before.Some? && AreMet(before.value.refs, cs)
    && Replay(ApplyEffects, ORIGIN.roots.basis, rs[..j + 1]) ==
         Some(before.value.(refs := Moved(before.value.refs, cs)))
  }

  lemma LandsNext(rs: seq<Record>, j: nat, cs: seq<Command>, b: Basis)
    requires j < |rs| && Replay(ApplyEffects, ORIGIN.roots.basis, rs[..j]) == Some(b) && AreMet(b.refs, cs)
    requires ApplyEffects(b, rs[j].effects) == Some(b.(refs := Moved(b.refs, cs)))
    ensures Lands(rs, j, cs)
  {
    assert rs[..j + 1][..j] == rs[..j];
  }

  /** Exactly one decision for the transaction, and a record exactly when it is a commit. */
  ghost predicate IsDecidedOnce(s: Repo, tx: Label, i: nat) {
    && i < |s.decisions| && s.decisions[i].tx == tx
    && (forall k :: 0 <= k < |s.decisions| && s.decisions[k].tx == tx ==> k == i)
    && (s.decisions[i].outcome.Committed? <==> HasRecord(s.commits, tx))
  }

  lemma DecidesOnce(s: Repo, tx: Label) returns (i: nat)
    requires IsReachable(s) && tx in OutcomesOf(s)
    ensures IsDecidedOnce(s, tx, i)
  {
    DecisionsAreIndexed(s);
    HistoryReplays(s);
    PlayPairs(ApplyEffects, ORIGIN, s.decisions, s.commits);
    i :| 0 <= i < |s.decisions| && s.decisions[i].tx == tx;
    if HasRecord(s.commits, tx) {
      var j :| 0 <= j < |s.commits| && s.commits[j].tx == tx;
      assert IsCommitted(s.decisions, s.commits[j].tx);
    }
  }

  /**
   * One decision, all or none: once an atomic receive is decided there is
   * exactly one decision for it; if it is a commit, every record of it found
   * each named ref at its old value and left each at its new one; if it is a
   * refusal there is no record at all.
   */
  lemma AtomicReceive(repository: Label, format: Format, head: Label, policy: Policy, inputs: seq<Input>,
                      listed: seq<Command>, r: Request) returns (i: nat)
    requires Build(listed).Some? && IsPreparedAs(inputs, AtomicRequest(Build(listed).value, r))
    requires r.tx in OutcomesOf(Run(Genesis(repository, format, head, policy), inputs))
    ensures var cs, s := Build(listed).value, Run(Genesis(repository, format, head, policy), inputs);
      && AreDistinct(cs) && multiset(cs) == multiset(listed)
      && IsDecidedOnce(s, r.tx, i)
      && forall j :: 0 <= j < |s.commits| && s.commits[j].tx == r.tx ==> Lands(s.commits, j, cs)
  {
    var cs, s := Build(listed).value, Run(Genesis(repository, format, head, policy), inputs);
    BuiltIsDistinct(listed);
    AtomicIsPlaced(cs, r);
    RunIsReachable(repository, format, head, policy, inputs);
    i := DecidesOnce(s, r.tx);
    forall j | 0 <= j < |s.commits| && s.commits[j].tx == r.tx ensures Lands(s.commits, j, cs)
    {
      ReceiveMoves(repository, format, head, policy, inputs, cs, AtomicRequest(cs, r), j);
    }
  }

  /** A receive never forces: where it moves an existing ref, the old object is an ancestor of the new one. */
  lemma ReceiveFastForwards(p: Policy, ev: Evidence, b: Basis, cs: seq<Command>, r: Request, name: RefName)
    requires var v := Evaluate(p, ev, b, AtomicRequest(cs, r)).verdict;
      v.Commit? && name in v.effects.refs && v.effects.refs[name].Set? && name in b.refs
    ensures IsAncestor(View(ev), Evaluate(p, ev, b, AtomicRequest(cs, r)).verdict.effects.refs[name].oid, b.refs[name])
  {
    var req := AtomicRequest(cs, r);
    AtomicIsPlaced(cs, r);
    CommitsIff(p, ev, b, req);
    var c := CaseOf(p, ev, b, req, Diff(b, Process(b, Place(cs)).scratch));
    assert IsLawfulRef(c, name);
    assert name !in ForcedRefs(Place(cs));
  }
}
