/**
 * Every report explains its effects, and depends only on the cells its intents
 * name (crates/fgit-txn/src/lib.rs:329-394, sparse.rs:54-101; witnesses in
 * crates/fgit-reference/src/capsule.rs:65-126).
 */
module FoldReports {
  import opened Bytes
  import opened Intents
  import opened Fold
  import opened FoldLaws

  // ---- Totality and explanation ----

  ghost predicate ExplainsAbort(xs: seq<Placed>, r: Report) {
    && r.outcome.AbortedAt?
    && (exists i :: 0 <= i < |xs| && xs[i].address == r.outcome.where)
    && forall i :: 0 <= i < |r.mappings| ==> r.mappings[i].disposition == Aborted
  }

  ghost predicate Claims(r: Report, i: nat, t: Target) {
    i < |r.mappings| && r.mappings[i].disposition == Surviving(t)
  }

  ghost predicate ExplainsEffects(r: Report) {
    && r.outcome.Folded?
    && (forall i, t :: Claims(r, i, t) ==> Affects(r.outcome.effects, t))
    && (forall i, j, t :: Claims(r, i, t) && Claims(r, j, t) && !t.StreamTarget? ==> i == j)
    && (forall t :: Affects(r.outcome.effects, t) ==> exists i :: Claims(r, i, t))
  }

  /** The report check of the production evaluator. */
  ghost predicate Validates(xs: seq<Placed>, r: Report) {
    && |r.mappings| == |xs|
    && (forall i :: 0 <= i < |xs| ==> r.mappings[i].address == xs[i].address)
    && (ExplainsAbort(xs, r) || ExplainsEffects(r))
  }

  /** A target differs between basis and scratch exactly when the diff affects it. */
  lemma DiffIsChange(b: Basis, s: Scratch, t: Target)
    requires IsAdvanced(b, s) && IsStillBound(b, s)
    ensures Affects(Diff(b, s), t) <==> CellAt(s, t) != BasisCell(b, t)
  {
    if t.OutboxTarget? {
      assert t.key in b.outbox ==> t.key in s.at.outbox;
    } else if t.StreamTarget? {
      assert t.stream !in s.events ==> Get(s.at.positions, t.stream) == Get(b.positions, t.stream);
    }
  }

  lemma {:induction false} AbortIsPlaced(b: Basis, xs: seq<Placed>) returns (i: nat)
    requires Process(b, xs).Stopped?
    ensures i < |xs| && Process(b, xs[..i]).Running?
    ensures xs[i].policy == TxnAbort && xs[i].address == Process(b, xs).where
    ensures Apply(Process(b, xs[..i]).scratch, xs[i].intent).1 == Mismatch(Process(b, xs).code)
  {
    var front := xs[..|xs| - 1];
    if Process(b, front).Stopped? {
      i := AbortIsPlaced(b, front);
      assert xs[..i] == front[..i];
    } else {
      i := |xs| - 1;
    }
  }

  lemma ResolveKeeps(e: NetEffects, writers: map<Target, nat>, i: nat, d: Disposition)
    ensures var r := Resolve(e, writers, i, d);
      r.Surviving? <==>
        && d.Surviving?
        && Affects(e, d.target)
        && (d.target.StreamTarget? || Get(writers, d.target) == Some(i))
    ensures Resolve(e, writers, i, d).Surviving? ==> Resolve(e, writers, i, d) == d
  {
  }

  // ---- The report, cell by cell ----

  /** The cell of `t` once the intents that name it have moved it, one after the other. */
  function CellAfter(b: Basis, xs: seq<Placed>, t: Target): Cell {
    if xs == [] then BasisCell(b, t)
    else
      var before, last := CellAfter(b, xs[..|xs| - 1], t), xs[|xs| - 1].intent;
      if TargetOf(last) == t then Move(before, last).0 else before
  }

  /** Intent `i` finds its cell as the earlier ones left it, and leaves it different. */
  predicate Changes(b: Basis, xs: seq<Placed>, i: nat)
    requires i < |xs|
  {
    var t := TargetOf(xs[i].intent);
    CellAfter(b, xs[..i + 1], t) != CellAfter(b, xs[..i], t)
  }

  /** No later intent changes that cell again. */
  predicate IsLastChange(b: Basis, xs: seq<Placed>, i: nat)
    requires i < |xs|
  {
    forall j :: i < j < |xs| && TargetOf(xs[j].intent) == TargetOf(xs[i].intent) ==> !Changes(b, xs, j)
  }

  /** In the end the cell differs from the basis. */
  predicate IsNetChange(b: Basis, xs: seq<Placed>, t: Target) {
    CellAfter(b, xs, t) != BasisCell(b, t)
  }

  lemma MoveChanges(c: Cell, i: Intent)
    ensures Move(c, i).1 == Changed <==> Move(c, i).0 != c
  {
  }

  lemma {:induction false} ProcessCells(b: Basis, xs: seq<Placed>, t: Target)
    requires Process(b, xs).Running?
    ensures CellAt(Process(b, xs).scratch, t) == CellAfter(b, xs, t)
  {
    if xs != [] {
      var front, x := xs[..|xs| - 1], xs[|xs| - 1];
      ProcessCells(b, front, t);
      ApplyIsLocal(Process(b, front).scratch, x.intent);
    }
  }

  /** What an intent is put down as when it is reached. */
  function Provisional(b: Basis, xs: seq<Placed>, i: nat): Disposition
    requires i < |xs|
  {
    var x := xs[i];
    match Move(CellAfter(b, xs[..i], TargetOf(x.intent)), x.intent).1
    case Changed => Surviving(TargetOf(x.intent))
    case Swallowed(reason) => Absorbed(reason)
    case Mismatch(code) =>
      match x.policy
      case NoOp => Absorbed(PreconditionMismatchNoOp)
      case StatementError => Failed(code)
      case TxnAbort => Aborted
  }

  lemma {:induction false} MappingIsProvisional(b: Basis, xs: seq<Placed>, i: nat)
    requires i < |xs| && Process(b, xs).Running?
    ensures Process(b, xs).mappings[i].disposition == Provisional(b, xs, i)
  {
    var n := |xs| - 1;
    var front := xs[..n];
    if i < n {
      MappingIsProvisional(b, front, i);
      assert front[..i] == xs[..i] && front[i] == xs[i];
    } else {
      ProcessCells(b, front, TargetOf(xs[n].intent));
      ApplyIsLocal(Process(b, front).scratch, xs[n].intent);
    }
  }

  lemma ChangesIff(b: Basis, xs: seq<Placed>, i: nat)
    requires i < |xs|
    ensures Changes(b, xs, i) <==> Provisional(b, xs, i).Surviving?
    ensures Provisional(b, xs, i).Surviving? ==> Provisional(b, xs, i) == Surviving(TargetOf(xs[i].intent))
  {
    assert xs[..i + 1][..i] == xs[..i];
    MoveChanges(CellAfter(b, xs[..i], TargetOf(xs[i].intent)), xs[i].intent);
  }

  lemma WriterIsLast(b: Basis, xs: seq<Placed>, i: nat)
    requires i < |xs| && Process(b, xs).Running? && Changes(b, xs, i)
    ensures Get(Process(b, xs).writers, TargetOf(xs[i].intent)) == Some(i) <==> IsLastChange(b, xs, i)
  {
    var p, t := Process(b, xs), TargetOf(xs[i].intent);
    ProcessIsFaithful(b, xs);
    forall j | 0 <= j < |xs| ensures Changes(b, xs, j) <==> p.mappings[j].disposition.Surviving?
    {
      MappingIsProvisional(b, xs, j);
      ChangesIff(b, xs, j);
    }
    assert t in p.writers && i <= p.writers[t];
    assert Changes(b, xs, p.writers[t]) && TargetOf(xs[p.writers[t]].intent) == t;
  }

  lemma AffectsIff(b: Basis, xs: seq<Placed>, t: Target)
    requires Process(b, xs).Running?
    ensures Affects(Folding(b, xs).outcome.effects, t) <==> IsNetChange(b, xs, t)
  {
    ProcessIsFaithful(b, xs);
    DiffIsChange(b, Process(b, xs).scratch, t);
    ProcessCells(b, xs, t);
  }

  /** A stream that was appended to stays different. */
  lemma StreamIsNetChange(b: Basis, xs: seq<Placed>, i: nat)
    requires i < |xs| && Process(b, xs).Running? && Changes(b, xs, i) && TargetOf(xs[i].intent).StreamTarget?
    ensures IsNetChange(b, xs, TargetOf(xs[i].intent))
  {
    var p, t := Process(b, xs), TargetOf(xs[i].intent);
    ProcessIsFaithful(b, xs);
    MappingIsProvisional(b, xs, i);
    ChangesIff(b, xs, i);
    assert t in p.writers;
    ProcessCells(b, xs, t);
  }

  /**
   * What the report must say of intent `i`: events stay; any other change
   * survives when it is the last of its cell and the cell ends up different, is
   * overwritten when a later one replaced it, and otherwise came to nothing.
   */
  function Verdict(b: Basis, xs: seq<Placed>, i: nat): Disposition
    requires i < |xs|
  {
    var t := TargetOf(xs[i].intent);
    if !Changes(b, xs, i) then Provisional(b, xs, i)
    else if t.StreamTarget? then Surviving(t)
    else if IsNetChange(b, xs, t) then
      if IsLastChange(b, xs, i) then Surviving(t) else Absorbed(OverwrittenBySucceedingIntent)
    else
      if IsLastChange(b, xs, i) then Absorbed(IdentityEffect) else Absorbed(InverseCancelled)
  }

  /** The writer table and the retirement pass give exactly the verdicts of the cells. */
  lemma ReportIsVerdicts(b: Basis, xs: seq<Placed>, i: nat)
    requires i < |xs| && Process(b, xs).Running?
    ensures |Folding(b, xs).mappings| == |xs| && Folding(b, xs).mappings[i].disposition == Verdict(b, xs, i)
  {
    var t := TargetOf(xs[i].intent);
    MappingIsProvisional(b, xs, i);
    ChangesIff(b, xs, i);
    AffectsIff(b, xs, t);
    if Changes(b, xs, i) {
      WriterIsLast(b, xs, i);
      if t.StreamTarget? { StreamIsNetChange(b, xs, i); }
    }
  }

  /**
   * An intent survives on a target exactly when it changed that target's cell at
   * its place, the cell ends up different from the basis, and, unless the target
   * is a stream, no later intent changes it.
   */
  lemma SurvivesIff(b: Basis, xs: seq<Placed>, i: nat, t: Target)
    requires Process(b, xs).Running?
    ensures Claims(Folding(b, xs), i, t) <==>
      && i < |xs| && t == TargetOf(xs[i].intent)
      && Changes(b, xs, i) && IsNetChange(b, xs, t)
      && (t.StreamTarget? || IsLastChange(b, xs, i))
  {
    if i < |xs| {
      ReportIsVerdicts(b, xs, i);
      ChangesIff(b, xs, i);
      if Changes(b, xs, i) && TargetOf(xs[i].intent).StreamTarget? { StreamIsNetChange(b, xs, i); }
    }
  }

  lemma EffectIsClaimed(b: Basis, xs: seq<Placed>, t: Target) returns (i: nat)
    requires Process(b, xs).Running? && Affects(Folding(b, xs).outcome.effects, t)
    ensures Claims(Folding(b, xs), i, t)
  {
    var p := Process(b, xs);
    ProcessIsFaithful(b, xs);
    DiffIsChange(b, p.scratch, t);
    i := p.writers[t];
    ResolveKeeps(Folding(b, xs).outcome.effects, p.writers, i, p.mappings[i].disposition);
  }

  lemma SurvivorsExplain(b: Basis, xs: seq<Placed>)
    requires Process(b, xs).Running?
    ensures ExplainsEffects(Folding(b, xs))
  {
    var r := Folding(b, xs);
    forall i, t | Claims(r, i, t) ensures Affects(r.outcome.effects, t)
    {
      SurvivesIff(b, xs, i, t);
      AffectsIff(b, xs, t);
    }
    forall i, j, t | Claims(r, i, t) && Claims(r, j, t) && !t.StreamTarget? ensures i == j
    {
      SurvivesIff(b, xs, i, t);
      SurvivesIff(b, xs, j, t);
    }
    forall t | Affects(r.outcome.effects, t) ensures exists i :: Claims(r, i, t)
    {
      var i := EffectIsClaimed(b, xs, t);
    }
  }

  /** Every fold passes the production evaluator's report check. */
  lemma FoldValidates(b: Basis, xs: seq<Placed>)
    ensures Validates(xs, Folding(b, xs))
  {
    if Process(b, xs).Stopped? {
      var i := AbortIsPlaced(b, xs);
    } else {
      ProcessIsFaithful(b, xs);
      SurvivorsExplain(b, xs);
    }
  }

  /** The events of the intents that a report says survive on stream `s`, in source order. */
  function SurvivingEvents(xs: seq<Placed>, mappings: seq<Mapping>, s: Label): seq<Event>
    requires |xs| == |mappings|
  {
    if xs == [] then []
    else
      var n := |xs| - 1;
      SurvivingEvents(xs[..n], mappings[..n], s)
      + (if mappings[n].disposition == Surviving(StreamTarget(s)) && xs[n].intent.Forge?
         then [xs[n].intent.event] else [])
  }

  lemma ApplyEvents(s: Scratch, i: Intent, k: Label)
    ensures var (s', a) := Apply(s, i);
      EventsOf(s'.events, k) ==
        EventsOf(s.events, k) + if a == Changed && i.Forge? && i.stream == k then [i.event] else []
  {
  }

  lemma {:induction false} ProcessKeepsEvents(b: Basis, xs: seq<Placed>, s: Label)
    requires Process(b, xs).Running?
    ensures EventsOf(Process(b, xs).scratch.events, s) == SurvivingEvents(xs, Process(b, xs).mappings, s)
  {
    if xs != [] {
      var n := |xs| - 1;
      ProcessKeepsEvents(b, xs[..n], s);
      var p := Process(b, xs[..n]);
      assert Process(b, xs).mappings[..n] == p.mappings;
      ApplyEvents(p.scratch, xs[n].intent, s);
    }
  }

  lemma {:induction false} SameSurvivors(xs: seq<Placed>, m1: seq<Mapping>, m2: seq<Mapping>, s: Label)
    requires |xs| == |m1| == |m2|
    requires forall i :: 0 <= i < |xs| ==>
      (m1[i].disposition == Surviving(StreamTarget(s)) <==> m2[i].disposition == Surviving(StreamTarget(s)))
    ensures SurvivingEvents(xs, m1, s) == SurvivingEvents(xs, m2, s)
  {
    if xs != [] {
      SameSurvivors(xs[..|xs| - 1], m1[..|xs| - 1], m2[..|xs| - 1], s);
    }
  }

  /** No event is lost, invented or reordered between the surviving intents and the effects. */
  lemma EventsAreConserved(b: Basis, xs: seq<Placed>, s: Label)
    requires Process(b, xs).Running?
    ensures var r := Folding(b, xs);
      EventsOf(r.outcome.effects.forge, s) == SurvivingEvents(xs, r.mappings, s)
  {
    var p, r := Process(b, xs), Folding(b, xs);
    ProcessIsFaithful(b, xs);
    ProcessKeepsEvents(b, xs, s);
    forall i | 0 <= i < |xs|
      ensures p.mappings[i].disposition == Surviving(StreamTarget(s)) <==>
              r.mappings[i].disposition == Surviving(StreamTarget(s))
    {
      SurvivesIff(b, xs, i, StreamTarget(s));
      assert Claims(r, i, StreamTarget(s)) <==> r.mappings[i].disposition == Surviving(StreamTarget(s));
    }
    SameSurvivors(xs, p.mappings, r.mappings, s);
  }

  // ---- A fold reads only the cells its intents name ----

  ghost predicate Agree(b1: Basis, b2: Basis, xs: seq<Placed>) {
    forall i :: 0 <= i < |xs| ==> BasisCell(b1, TargetOf(xs[i].intent)) == BasisCell(b2, TargetOf(xs[i].intent))
  }

  ghost predicate AreTwins(xs: seq<Placed>, p1: Progress, p2: Progress) {
    if p1.Stopped? then p2 == p1
    else
      && p2.Running?
      && p1.mappings == p2.mappings
      && p1.writers == p2.writers
      && forall i :: 0 <= i < |xs| ==>
           CellAt(p1.scratch, TargetOf(xs[i].intent)) == CellAt(p2.scratch, TargetOf(xs[i].intent))
  }

  lemma StepTwins(xs: seq<Placed>, p1: Progress, p2: Progress, n: nat)
    requires n < |xs| && p1.Running? && AreTwins(xs, p1, p2)
    ensures AreTwins(xs, Step(p1, xs[n]), Step(p2, xs[n]))
  {
    var i := xs[n].intent;
    ApplyIsLocal(p1.scratch, i);
    ApplyIsLocal(p2.scratch, i);
    var s1, s2 := Apply(p1.scratch, i).0, Apply(p2.scratch, i).0;
    forall k | 0 <= k < |xs|
      ensures CellAt(s1, TargetOf(xs[k].intent)) == CellAt(s2, TargetOf(xs[k].intent))
    {
      var t := TargetOf(xs[k].intent);
      if t != TargetOf(i) {
        assert CellAt(s1, t) == CellAt(p1.scratch, t);
        assert CellAt(s2, t) == CellAt(p2.scratch, t);
      }
    }
  }

  function Continue(p: Progress, x: Placed): Progress {
    if p.Stopped? then p else Step(p, x)
  }

  lemma ProcessTo(b: Basis, xs: seq<Placed>, i: nat)
    requires i < |xs|
    ensures Process(b, xs[..i + 1]) == Continue(Process(b, xs[..i]), xs[i])
  {
    assert xs[..i + 1][..i] == xs[..i];
  }

  lemma ContinueTwins(xs: seq<Placed>, p1: Progress, p2: Progress, i: nat)
    requires i < |xs| && AreTwins(xs, p1, p2)
    ensures AreTwins(xs, Continue(p1, xs[i]), Continue(p2, xs[i]))
  {
    if p1.Running? { StepTwins(xs, p1, p2, i); }
  }

  lemma {:induction false} ProcessTwins(b1: Basis, b2: Basis, xs: seq<Placed>, n: nat)
    requires n <= |xs| && Agree(b1, b2, xs)
    ensures AreTwins(xs, Process(b1, xs[..n]), Process(b2, xs[..n]))
  {
    if n > 0 {
      var i := n - 1;
      ProcessTwins(b1, b2, xs, i);
      ContinueTwins(xs, Process(b1, xs[..i]), Process(b2, xs[..i]), i);
      ProcessTo(b1, xs, i);
      ProcessTo(b2, xs, i);
    }
  }

  ghost predicate SameChange(b1: Basis, s1: Scratch, b2: Basis, s2: Scratch, t: Target) {
    || (BasisCell(b1, t) == CellAt(s1, t) && BasisCell(b2, t) == CellAt(s2, t))
    || (BasisCell(b1, t) == BasisCell(b2, t) && CellAt(s1, t) == CellAt(s2, t))
  }

  ghost predicate SameStep<T>(b1: T, s1: T, b2: T, s2: T) {
    (b1 == s1 && b2 == s2) || (b1 == b2 && s1 == s2)
  }

  lemma SameRefs(b1: map<RefName, Oid>, s1: map<RefName, Oid>, b2: map<RefName, Oid>, s2: map<RefName, Oid>)
    requires forall n :: SameStep(Get(b1, n), Get(s1, n), Get(b2, n), Get(s2, n))
    ensures DiffRefs(b1, s1) == DiffRefs(b2, s2)
  {
    forall n ensures Get(DiffRefs(b1, s1), n) == Get(DiffRefs(b2, s2), n)
    {
      assert SameStep(Get(b1, n), Get(s1, n), Get(b2, n), Get(s2, n));
    }
    SameMap(DiffRefs(b1, s1), DiffRefs(b2, s2));
  }

  lemma SameOutbox(b1: map<Label, Digest>, s1: map<Label, Digest>, b2: map<Label, Digest>, s2: map<Label, Digest>)
    requires forall k :: SameStep(Get(b1, k), Get(s1, k), Get(b2, k), Get(s2, k))
    ensures DiffOutbox(b1, s1) == DiffOutbox(b2, s2)
  {
    forall k ensures Get(DiffOutbox(b1, s1), k) == Get(DiffOutbox(b2, s2), k)
    {
      assert SameStep(Get(b1, k), Get(s1, k), Get(b2, k), Get(s2, k));
    }
    SameMap(DiffOutbox(b1, s1), DiffOutbox(b2, s2));
  }

  lemma SameRoots(b1: set<RetentionRoot>, s1: set<RetentionRoot>, b2: set<RetentionRoot>, s2: set<RetentionRoot>)
    requires forall r :: SameStep(r in b1, r in s1, r in b2, r in s2)
    ensures DiffRoots(b1, s1) == DiffRoots(b2, s2)
  {
    forall r ensures Get(DiffRoots(b1, s1), r) == Get(DiffRoots(b2, s2), r)
    {
      assert SameStep(r in b1, r in s1, r in b2, r in s2);
    }
    SameMap(DiffRoots(b1, s1), DiffRoots(b2, s2));
  }

  lemma SameEvents(e1: map<Label, seq<Event>>, e2: map<Label, seq<Event>>)
    requires forall k :: EventsOf(e1, k) == EventsOf(e2, k)
    ensures DiffEvents(e1) == DiffEvents(e2)
  {
    forall k ensures Get(DiffEvents(e1), k) == Get(DiffEvents(e2), k)
    {
      assert EventsOf(e1, k) == EventsOf(e2, k);
    }
    SameMap(DiffEvents(e1), DiffEvents(e2));
  }

  lemma DiffByCells(b1: Basis, s1: Scratch, b2: Basis, s2: Scratch)
    requires forall t :: SameChange(b1, s1, b2, s2, t)
    ensures Diff(b1, s1) == Diff(b2, s2)
  {
    forall n ensures SameStep(Get(b1.refs, n), Get(s1.at.refs, n), Get(b2.refs, n), Get(s2.at.refs, n))
    {
      assert SameChange(b1, s1, b2, s2, RefTarget(n));
    }
    forall k ensures SameStep(Get(b1.outbox, k), Get(s1.at.outbox, k), Get(b2.outbox, k), Get(s2.at.outbox, k))
    {
      assert SameChange(b1, s1, b2, s2, OutboxTarget(k));
    }
    forall r ensures SameStep(r in b1.retention, r in s1.at.retention, r in b2.retention, r in s2.at.retention)
    {
      assert SameChange(b1, s1, b2, s2, RootTarget(r));
    }
    forall k ensures EventsOf(s1.events, k) == EventsOf(s2.events, k)
    {
      assert SameChange(b1, s1, b2, s2, StreamTarget(k));
    }
    SameRefs(b1.refs, s1.at.refs, b2.refs, s2.at.refs);
    SameOutbox(b1.outbox, s1.at.outbox, b2.outbox, s2.at.outbox);
    SameRoots(b1.retention, s1.at.retention, b2.retention, s2.at.retention);
    SameEvents(s1.events, s2.events);
  }

  lemma SameMap<K(!new), V>(a: map<K, V>, b: map<K, V>)
    requires forall k :: Get(a, k) == Get(b, k)
    ensures a == b
  {
    forall k ensures k in a <==> k in b { assert Get(a, k) == Get(b, k); }
    forall k | k in a ensures a[k] == b[k] { assert Get(a, k) == Get(b, k); }
  }

  /** Two bases that agree on the named cells give the same report, effects and all. */
  lemma FoldIsLocal(b1: Basis, b2: Basis, xs: seq<Placed>)
    requires Agree(b1, b2, xs)
    ensures Folding(b1, xs) == Folding(b2, xs)
  {
    assert xs[..|xs|] == xs;
    ProcessTwins(b1, b2, xs, |xs|);
    var p1, p2 := Process(b1, xs), Process(b2, xs);
    if p1.Running? {
      ProcessIsFaithful(b1, xs);
      ProcessIsFaithful(b2, xs);
      forall t ensures SameChange(b1, p1.scratch, b2, p2.scratch, t)
      {
        if t in p1.writers { assert t == TargetOf(xs[p1.writers[t]].intent); }
      }
      DiffByCells(b1, p1.scratch, b2, p2.scratch);
    }
  }

  // ---- The sparse basis of the production evaluator ----

  /** `s` holds nothing that `b` does not. */
  ghost predicate IsPart(s: Basis, b: Basis) {
    && (forall n :: n in s.refs ==> n in b.refs && s.refs[n] == b.refs[n])
    && (forall k :: k in s.positions ==> k in b.positions && s.positions[k] == b.positions[k])
    && s.retention <= b.retention
    && (forall k :: k in s.outbox ==> k in b.outbox && s.outbox[k] == b.outbox[k])
  }

  /** `s` with the cell that one intent names copied from `b`. */
  function Copied(s: Basis, b: Basis, i: Intent): Basis {
    match TargetOf(i)
    case RefTarget(name) => if name in b.refs then s.(refs := s.refs[name := b.refs[name]]) else s
    case StreamTarget(stream) =>
      if stream in b.positions then s.(positions := s.positions[stream := b.positions[stream]]) else s
    case RootTarget(root) => if root in b.retention then s.(retention := s.retention + {root}) else s
    case OutboxTarget(key) => if key in b.outbox then s.(outbox := s.outbox[key := b.outbox[key]]) else s
  }

  lemma CopiedIsPart(s: Basis, b: Basis, i: Intent)
    requires IsPart(s, b)
    ensures IsPart(Copied(s, b, i), b)
  {
  }

  lemma CopiedCell(s: Basis, b: Basis, i: Intent, t: Target)
    requires IsPart(s, b) && (BasisCell(s, t) == BasisCell(b, t) || t == TargetOf(i))
    ensures BasisCell(Copied(s, b, i), t) == BasisCell(b, t)
  {
  }

  lemma CopiedAgrees(s: Basis, b: Basis, i: Intent)
    requires IsPart(s, b)
    ensures BasisCell(Copied(s, b, i), TargetOf(i)) == BasisCell(b, TargetOf(i))
    ensures forall t :: BasisCell(s, t) == BasisCell(b, t) ==> BasisCell(Copied(s, b, i), t) == BasisCell(b, t)
  {
    CopiedCell(s, b, i, TargetOf(i));
    forall t | BasisCell(s, t) == BasisCell(b, t) ensures BasisCell(Copied(s, b, i), t) == BasisCell(b, t)
    {
      CopiedCell(s, b, i, t);
    }
  }

  /** The part of the basis the intents name, gathered intent by intent. */
  method SelectBasis(b: Basis, xs: seq<Placed>) returns (s: Basis)
    ensures Agree(b, s, xs) && IsPart(s, b)
  {
    s := Basis(map[], map[], {}, map[]);
    for i := 0 to |xs|
      invariant IsPart(s, b) && Agree(b, s, xs[..i])
    {
      CopiedIsPart(s, b, xs[i].intent);
      CopiedAgrees(s, b, xs[i].intent);
      s := Copied(s, b, xs[i].intent);
    }
    assert xs[..|xs|] == xs;
  }

  /** Folding over the selected part is folding over the whole basis. */
  method FoldSparsely(b: Basis, xs: seq<Placed>) returns (r: Report)
    ensures r == Folding(b, xs)
  {
    var s := SelectBasis(b, xs);
    FoldIsLocal(b, s, xs);
    r := FoldIntents(s, xs);
  }
}
