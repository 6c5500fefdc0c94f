/**
 * When staging depends on the order its capsules are listed in, and why it
 * never exhausts a stream.
 */
module MachineOrder {
  import opened Intents
  import opened Fold
  import opened FoldLaws
  import opened Evaluation
  import opened EvaluationLaws
  import opened Machine
  import opened MachineInvariant
  import opened MachineTheorems
  import opened Sorting

  // ---- What two capsules of one transaction do to a draft ----

  /** The same batch so far; deferrals are reported, not published. */
  ghost predicate IsSameDraft(a: Draft, b: Draft) {
    a.(deferred := b.deferred) == b
  }

  /** Both break, or both leave the same batch. */
  ghost predicate IsSame(a: Result<Draft>, b: Result<Draft>) {
    if a.Ok? then b.Ok? && IsSameDraft(a.value, b.value) else b.Broken?
  }

  function Then(s: Repo, names: map<Label, Names>, r: Result<Draft>, c: Capsule): Result<Draft> {
    if r.Broken? then r else Admit(s, names, r.value, c)
  }

  function AdmitTwo(s: Repo, names: map<Label, Names>, d: Draft, x: Capsule, y: Capsule): Result<Draft> {
    Then(s, names, Admit(s, names, d, x), y)
  }

  predicate IsSpent(s: Repo, tx: Label) {
    tx in s.seals && s.seals[tx].preparations >= REPREPARATION_BUDGET
  }

  /** Nothing staged on this head can make the capsule decidable. */
  predicate IsDead(s: Repo, c: Capsule) {
    || c.observed.epoch != s.head.body.policy.epoch
    || (c.observed.granularity == Coarse && c.observed.generation != s.head.body.generation)
  }

  predicate IsAlike(x: Capsule, y: Capsule) {
    x.verdict == y.verdict && x.observed == y.observed && x.digest == y.digest && x.closure == y.closure
  }

  /** The order of these two cannot matter, whatever is staged before them. */
  predicate IsSettled(s: Repo, x: Capsule, y: Capsule) {
    || x.verdict.Refuse? || y.verdict.Refuse?
    || IsSpent(s, x.tx)
    || IsDead(s, x) || IsDead(s, y)
    || IsAlike(x, y)
  }

  lemma AdmitIsSame(s: Repo, names: map<Label, Names>, a: Draft, b: Draft, c: Capsule)
    requires IsSameDraft(a, b)
    ensures IsSame(Admit(s, names, a, c), Admit(s, names, b, c))
  {
  }

  lemma ThenIsSame(s: Repo, names: map<Label, Names>, a: Result<Draft>, b: Result<Draft>, c: Capsule)
    requires IsSame(a, b)
    ensures IsSame(Then(s, names, a, c), Then(s, names, b, c))
  {
    if a.Ok? { AdmitIsSame(s, names, a.value, b.value, c); }
  }

  lemma DeadDefers(s: Repo, names: map<Label, Names>, d: Draft, c: Capsule)
    requires IsDead(s, c) && c.verdict.Commit? && !IsSpent(s, c.tx)
    ensures var r := Admit(s, names, d, c);
      if c.tx in OutcomesOf(s) || c.tx !in names then r.Broken? else r.Ok? && IsSameDraft(d, r.value)
  {
  }

  lemma SpentDecides(s: Repo, names: map<Label, Names>, d: Draft, c: Capsule)
    requires c.verdict.Refuse? || IsSpent(s, c.tx)
    ensures var r := Admit(s, names, d, c);
      (c.tx in d.seen ==> r.Broken?) && (r.Ok? ==> c.tx in r.value.seen)
  {
  }

  lemma RefusedFirst(s: Repo, names: map<Label, Names>, d: Draft, x: Capsule, y: Capsule)
    requires x.tx == y.tx && x.verdict.Refuse? && y.verdict.Commit?
    ensures IsSame(AdmitTwo(s, names, d, x, y), AdmitTwo(s, names, d, y, x))
  {
  }

  lemma SettledSwap(s: Repo, names: map<Label, Names>, d: Draft, x: Capsule, y: Capsule)
    requires x.tx == y.tx && IsSettled(s, x, y)
    ensures IsSame(AdmitTwo(s, names, d, x, y), AdmitTwo(s, names, d, y, x))
  {
    if IsSpent(s, x.tx) || (x.verdict.Refuse? && y.verdict.Refuse?) {
      SpentDecides(s, names, d, x);
      SpentDecides(s, names, d, y);
      if Admit(s, names, d, x).Ok? { SpentDecides(s, names, Admit(s, names, d, x).value, y); }
      if Admit(s, names, d, y).Ok? { SpentDecides(s, names, Admit(s, names, d, y).value, x); }
    } else if x.verdict.Refuse? {
      RefusedFirst(s, names, d, x, y);
    } else if y.verdict.Refuse? {
      RefusedFirst(s, names, d, y, x);
    } else if IsDead(s, x) {
      DeadSwap(s, names, d, x, y);
    } else if IsDead(s, y) {
      DeadSwap(s, names, d, y, x);
    } else {
      AlikeSwap(s, names, d, x, y);
    }
  }

  lemma DeadSwap(s: Repo, names: map<Label, Names>, d: Draft, x: Capsule, y: Capsule)
    requires x.tx == y.tx && IsDead(s, x) && x.verdict.Commit? && !IsSpent(s, x.tx)
    ensures IsSame(AdmitTwo(s, names, d, x, y), AdmitTwo(s, names, d, y, x))
  {
    DeadDefers(s, names, d, x);
    var r, q := Admit(s, names, d, x), Admit(s, names, d, y);
    if r.Ok? { AdmitIsSame(s, names, d, r.value, y); }
    if q.Ok? { DeadDefers(s, names, q.value, x); }
  }

  lemma AlikeSwap(s: Repo, names: map<Label, Names>, d: Draft, x: Capsule, y: Capsule)
    requires x.tx == y.tx && IsAlike(x, y)
    ensures AdmitTwo(s, names, d, x, y) == AdmitTwo(s, names, d, y, x)
  {
    assert forall e :: Admit(s, names, e, x) == Admit(s, names, e, y);
  }

  // ---- Whole listings ----

  ghost predicate AreSettled(s: Repo, cs: seq<Capsule>) {
    forall x, y :: x in cs && y in cs && x.tx == y.tx ==> IsSettled(s, x, y)
  }

  lemma AdmitSnoc(s: Repo, names: map<Label, Names>, d: Draft, cs: seq<Capsule>, c: Capsule)
    ensures AdmitAll(s, names, d, cs + [c]) == Then(s, names, AdmitAll(s, names, d, cs), c)
  {
    assert (cs + [c])[..|cs|] == cs;
  }

  lemma SwapLastTwo(s: Repo, names: map<Label, Names>, d: Draft, cs: seq<Capsule>, x: Capsule, y: Capsule)
    requires x.tx == y.tx && IsSettled(s, x, y)
    ensures IsSame(AdmitAll(s, names, d, cs + [x] + [y]), AdmitAll(s, names, d, cs + [y] + [x]))
  {
    AdmitSnoc(s, names, d, cs, x);
    AdmitSnoc(s, names, d, cs, y);
    AdmitSnoc(s, names, d, cs + [x], y);
    AdmitSnoc(s, names, d, cs + [y], x);
    var r := AdmitAll(s, names, d, cs);
    if r.Ok? { SettledSwap(s, names, r.value, x, y); }
  }

  lemma SnocIsSame(s: Repo, names: map<Label, Names>, d: Draft, p: seq<Capsule>, q: seq<Capsule>, c: Capsule)
    requires IsSame(AdmitAll(s, names, d, p), AdmitAll(s, names, d, q))
    ensures IsSame(AdmitAll(s, names, d, p + [c]), AdmitAll(s, names, d, q + [c]))
  {
    AdmitSnoc(s, names, d, p, c);
    AdmitSnoc(s, names, d, q, c);
    ThenIsSame(s, names, AdmitAll(s, names, d, p), AdmitAll(s, names, d, q), c);
  }

  /** A capsule may be moved behind the others of its transaction. */
  lemma {:induction false} MoveLast(s: Repo, names: map<Label, Names>, d: Draft, cs: seq<Capsule>, c: Capsule,
                                    rest: seq<Capsule>)
    requires forall y :: y in rest ==> y.tx == c.tx && IsSettled(s, c, y)
    ensures IsSame(AdmitAll(s, names, d, cs + [c] + rest), AdmitAll(s, names, d, cs + rest + [c]))
    decreases |rest|
  {
    if rest == [] {
      assert cs + [c] + rest == cs + rest + [c];
    } else {
      var n := |rest| - 1;
      var front, y := rest[..n], rest[n];
      assert rest == front + [y];
      MoveLast(s, names, d, cs, c, front);
      SnocIsSame(s, names, d, cs + [c] + front, cs + front + [c], y);
      SwapLastTwo(s, names, d, cs + front, c, y);
      assert cs + [c] + rest == cs + [c] + front + [y];
      assert cs + rest + [c] == cs + front + [y] + [c];
    }
  }

  lemma TailIsOneTransaction(p: seq<Capsule>, q: seq<Capsule>, j: nat)
    requires IsOrdered(TxLess, p) && IsOrdered(TxLess, q) && multiset(p) == multiset(q)
    requires p != [] && j < |q| && q[j] == p[|p| - 1]
    ensures forall y :: y in q[j + 1..] ==> y in p && y.tx == q[j].tx
  {
    forall y | y in q[j + 1..] ensures y in p && y.tx == q[j].tx
    {
      assert y in multiset(q);
      var k :| j < k < |q| && q[k] == y;
      assert y in multiset(p);
      var i :| 0 <= i < |p| && p[i] == y;
      assert !TxLess(q[k], q[j]);
      if i < |p| - 1 { assert !TxLess(p[|p| - 1], p[i]); }
    }
  }

  /** Two orderings of the same settled capsules. */
  ghost predicate AreOrderings(s: Repo, p: seq<Capsule>, q: seq<Capsule>) {
    IsOrdered(TxLess, p) && IsOrdered(TxLess, q) && multiset(p) == multiset(q) && AreSettled(s, p)
  }

  lemma ShorterOrderings(s: Repo, p: seq<Capsule>, q: seq<Capsule>) returns (j: nat)
    requires AreOrderings(s, p, q) && p != []
    ensures j < |q| && q[j] == p[|p| - 1] && AreOrderings(s, p[..|p| - 1], Without(q, j))
  {
    j := TakeOut(p, q);
    WithoutIsOrdered(TxLess, q, j);
    FrontIsSettled(s, p, |p| - 1);
  }

  lemma {:induction false} AdmitIsOrderFree(s: Repo, names: map<Label, Names>, d: Draft, p: seq<Capsule>,
                                            q: seq<Capsule>)
    requires AreOrderings(s, p, q)
    ensures IsSame(AdmitAll(s, names, d, p), AdmitAll(s, names, d, q))
    decreases |p|
  {
    if p == [] {
      assert |multiset(p)| == 0 && |multiset(q)| == |q|;
    } else {
      var n := |p| - 1;
      var j := ShorterOrderings(s, p, q);
      AdmitIsOrderFree(s, names, d, p[..n], Without(q, j));
      LastMoves(s, names, d, p, q, j);
      SnocIsSame(s, names, d, p[..n], Without(q, j), p[n]);
      assert p == p[..n] + [p[n]];
    }
  }

  lemma FrontIsSettled(s: Repo, p: seq<Capsule>, n: nat)
    requires n <= |p| && AreSettled(s, p) && IsOrdered(TxLess, p)
    ensures AreSettled(s, p[..n]) && IsOrdered(TxLess, p[..n])
  {
  }

  lemma LastMoves(s: Repo, names: map<Label, Names>, d: Draft, p: seq<Capsule>, q: seq<Capsule>, j: nat)
    requires AreOrderings(s, p, q) && p != [] && j < |q| && q[j] == p[|p| - 1]
    ensures IsSame(AdmitAll(s, names, d, q), AdmitAll(s, names, d, Without(q, j) + [q[j]]))
  {
    TailIsOneTransaction(p, q, j);
    MoveLast(s, names, d, q[..j], q[j], q[j + 1..]);
    assert q == q[..j] + [q[j]] + q[j + 1..];
  }

  predicate AreKnown(s: Repo, ids: seq<Label>) {
    forall i :: 0 <= i < |ids| ==> ids[i] in s.capsules
  }

  lemma KnownSame(s: Repo, a: seq<Label>, b: seq<Label>)
    requires multiset(a) == multiset(b) && AreKnown(s, a)
    ensures AreKnown(s, b)
  {
    forall i | 0 <= i < |b| ensures b[i] in s.capsules
    {
      assert b[i] in multiset(a);
    }
  }

  lemma {:induction false} SelectedSame(s: Repo, a: seq<Label>, b: seq<Label>)
    requires AreKnown(s, a) && AreKnown(s, b) && multiset(a) == multiset(b)
    ensures multiset(Selected(s, a)) == multiset(Selected(s, b))
  {
    assert |multiset(a)| == |a| && |multiset(b)| == |b|;
    if a == [] {
      assert Selected(s, a) == Selected(s, b);
    } else {
      var n := |a| - 1;
      var j := TakeOut(a, b);
      SelectedSame(s, a[..n], Without(b, j));
      assert Selected(s, a[..n]) == Without(Selected(s, a), n);
      assert Selected(s, Without(b, j)) == Without(Selected(s, b), j);
      WithoutKeeps(Selected(s, a), n);
      WithoutKeeps(Selected(s, b), j);
    }
  }

  lemma StrictestSame(p: seq<Capsule>, q: seq<Capsule>)
    requires multiset(p) == multiset(q)
    ensures Strictest(p) == Strictest(q)
  {
    forall c | c in p ensures c in q { assert c in multiset(q); }
    forall c | c in q ensures c in p { assert c in multiset(p); }
    assert (exists i :: 0 <= i < |p| && p[i].durability == CanonicalSource)
      <==> exists c :: c in p && c.durability == CanonicalSource;
    assert (exists i :: 0 <= i < |q| && q[i].durability == CanonicalSource)
      <==> exists c :: c in q && c.durability == CanonicalSource;
  }

  lemma EnterSame(s: Repo, a: StageInput, b: StageInput, p: seq<Capsule>, q: seq<Capsule>, d: Draft, e: Draft)
    requires a.(capsules := b.capsules) == b && multiset(p) == multiset(q) && IsSameDraft(d, e)
    ensures Enter(s, a, p, d) == Enter(s, b, q, e)
  {
    StrictestSame(p, q);
  }

  /** The state staging leaves. */
  function Staging(s: Repo, r: Result<(Repo, StageOutcome)>): Repo {
    if r.Ok? then r.value.0 else s
  }

  lemma SortedSame(s: Repo, a: StageInput, b: StageInput, p: seq<Capsule>, q: seq<Capsule>)
    requires a.(capsules := b.capsules) == b && multiset(p) == multiset(q)
    requires IsSame(AdmitAll(s, a.names, Draft(s.head.body.point, [], [], {}, []), p),
                    AdmitAll(s, b.names, Draft(s.head.body.point, [], [], {}, []), q))
    ensures Staging(s, StageSorted(s, a, p)) == Staging(s, StageSorted(s, b, q))
  {
    var d := Draft(s.head.body.point, [], [], {}, []);
    var x, y := AdmitAll(s, a.names, d, p), AdmitAll(s, b.names, d, q);
    if x.Ok? { EnterSame(s, a, b, p, q, x.value, y.value); }
  }

  /** The capsules a listing names, when all are known. */
  function Listed(s: Repo, ids: seq<Label>): seq<Capsule> {
    if AreKnown(s, ids) then Selected(s, ids) else []
  }

  lemma SelectionSame(s: Repo, a: StageInput, b: StageInput, x: seq<Capsule>, y: seq<Capsule>)
    requires a.(capsules := b.capsules) == b && multiset(x) == multiset(y) && AreSettled(s, x)
    ensures Staging(s, StageSorted(s, a, SortByTx(x))) == Staging(s, StageSorted(s, b, SortByTx(y)))
  {
    var p, q := SortByTx(x), SortByTx(y);
    SortOrders(TxLess, x);
    SortOrders(TxLess, y);
    SortKeeps(TxLess, x);
    SortKeeps(TxLess, y);
    forall c | c in p ensures c in x { assert c in multiset(p); }
    AdmitIsOrderFree(s, a.names, Draft(s.head.body.point, [], [], {}, []), p, q);
    SortedSame(s, a, b, p, q);
  }

  /**
   * Any two listings of the same capsules stage the same batch, when the order
   * of those of one transaction cannot matter; in particular when no
   * transaction has two.
   */
  lemma StageIsOrderFree(s: Repo, a: StageInput, b: StageInput)
    requires a.(capsules := b.capsules) == b && multiset(a.capsules) == multiset(b.capsules)
    requires AreSettled(s, Listed(s, a.capsules))
    ensures Transition(s, DoStage(a)) == Transition(s, DoStage(b))
  {
    if AreKnown(s, a.capsules) {
      KnownSame(s, a.capsules, b.capsules);
      SelectedSame(s, a.capsules, b.capsules);
      SelectionSame(s, a, b, Selected(s, a.capsules), Selected(s, b.capsules));
    } else if AreKnown(s, b.capsules) {
      KnownSame(s, b.capsules, a.capsules);
    }
  }

  // ---- Exactly when the order of two matters ----

  predicate IsFresh(s: Repo, c: Capsule, b: Basis) {
    IsReusable(c.observed, b, s.head.body.generation, s.head.body.policy.epoch)
  }

  /** The second capsule is stale where the first is not, and fresh once the first has been applied. */
  predicate IsRevivedBy(s: Repo, b: Basis, x: Capsule, y: Capsule)
    requires x.verdict.Commit? && ApplyEffects(b, x.verdict.effects).Some?
  {
    IsFresh(s, x, b) && !IsFresh(s, y, b) && IsFresh(s, y, ApplyEffects(b, x.verdict.effects).value)
  }

  /** Both are fresh, and either breaks the batch after the other or they publish the same record. */
  predicate AreRivals(s: Repo, b: Basis, x: Capsule, y: Capsule)
    requires x.verdict.Commit? && ApplyEffects(b, x.verdict.effects).Some?
    requires y.verdict.Commit? && ApplyEffects(b, y.verdict.effects).Some?
  {
    IsFresh(s, x, b) && IsFresh(s, y, b) &&
    var second, first := IsFresh(s, y, ApplyEffects(b, x.verdict.effects).value),
                         IsFresh(s, x, ApplyEffects(b, y.verdict.effects).value);
    if second || first then second != first
    else x.verdict != y.verdict || x.digest != y.digest || x.closure != y.closure
  }

  /** The draft after a fresh capsule's commit. */
  function Landed(names: map<Label, Names>, d: Draft, c: Capsule): Draft
    requires c.tx in names && c.verdict.Commit?
    requires ApplyEffects(d.point.roots.basis, c.verdict.effects).Some?
  {
    WithCommit(d, c, names[c.tx].commit, c.verdict.effects, ApplyEffects(d.point.roots.basis, c.verdict.effects).value)
  }

  lemma AdmitOpen(s: Repo, names: map<Label, Names>, d: Draft, c: Capsule)
    requires c.tx !in OutcomesOf(s) && c.tx in names && c.tx !in d.seen && !IsSpent(s, c.tx)
    requires d.point.lastDecision + 1 < LAST && d.point.lastSequence + 1 < LAST
    requires c.verdict.Commit? && ApplyEffects(d.point.roots.basis, c.verdict.effects).Some?
    ensures var r := Admit(s, names, d, c);
      if IsFresh(s, c, d.point.roots.basis) then r == Ok(Landed(names, d, c)) else r.Ok? && IsSameDraft(d, r.value)
  {
  }

  lemma SecondAdmit(s: Repo, names: map<Label, Names>, d: Draft, c: Capsule)
    requires c.tx !in OutcomesOf(s) && c.tx in names && c.tx in d.seen && !IsSpent(s, c.tx) && c.verdict.Commit?
    ensures var r := Admit(s, names, d, c);
      if IsFresh(s, c, d.point.roots.basis) then r.Broken? else r.Ok? && IsSameDraft(d, r.value)
  {
  }

  lemma SecondOpen(s: Repo, names: map<Label, Names>, d: Draft, x: Capsule, y: Capsule)
    requires x.tx == y.tx && x.tx !in OutcomesOf(s) && x.tx in names && x.tx !in d.seen && !IsSpent(s, x.tx)
    requires d.point.lastDecision + 1 < LAST && d.point.lastSequence + 1 < LAST
    requires x.verdict.Commit? && ApplyEffects(d.point.roots.basis, x.verdict.effects).Some?
    requires y.verdict.Commit? && ApplyEffects(d.point.roots.basis, y.verdict.effects).Some?
    ensures var b, r := d.point.roots.basis, AdmitTwo(s, names, d, x, y);
      if !IsFresh(s, x, b) then
        r.Ok? && IsSameDraft(if IsFresh(s, y, b) then Landed(names, d, y) else d, r.value)
      else if IsFresh(s, y, ApplyEffects(b, x.verdict.effects).value) then r.Broken?
      else r.Ok? && IsSameDraft(Landed(names, d, x), r.value)
  {
    AdmitOpen(s, names, d, x);
    if IsFresh(s, x, d.point.roots.basis) {
      SecondAdmit(s, names, Landed(names, d, x), y);
    } else {
      var e := Admit(s, names, d, x).value;
      AdmitIsSame(s, names, d, e, y);
      AdmitOpen(s, names, d, y);
    }
  }

  lemma SameCommit(s: Repo, names: map<Label, Names>, d: Draft, x: Capsule, y: Capsule)
    requires x.tx == y.tx && x.tx in names && x.observed.epoch == y.observed.epoch
    requires x.verdict.Commit? && ApplyEffects(d.point.roots.basis, x.verdict.effects).Some?
    requires y.verdict.Commit? && ApplyEffects(d.point.roots.basis, y.verdict.effects).Some?
    ensures Landed(names, d, x) == Landed(names, d, y)
      <==> x.verdict == y.verdict && x.digest == y.digest && x.closure == y.closure
  {
    var n := |d.commits|;
    assert Landed(names, d, x).commits[n].effects == x.verdict.effects;
    assert Landed(names, d, y).commits[n].effects == y.verdict.effects;
    assert Landed(names, d, x).commits[n].digest == x.digest && Landed(names, d, y).commits[n].digest == y.digest;
    assert Landed(names, d, x).commits[n].closure == x.closure && Landed(names, d, y).commits[n].closure == y.closure;
  }

  /**
   * The order of two committing capsules of one open transaction matters
   * exactly when one revives the other or they are fresh rivals.
   */
  lemma PairMattersIff(s: Repo, names: map<Label, Names>, d: Draft, x: Capsule, y: Capsule)
    requires x.tx == y.tx && x.tx !in OutcomesOf(s) && x.tx in names && x.tx !in d.seen && !IsSpent(s, x.tx)
    requires d.point.lastDecision + 1 < LAST && d.point.lastSequence + 1 < LAST
    requires x.verdict.Commit? && ApplyEffects(d.point.roots.basis, x.verdict.effects).Some?
    requires y.verdict.Commit? && ApplyEffects(d.point.roots.basis, y.verdict.effects).Some?
    ensures var b := d.point.roots.basis;
      !IsSame(AdmitTwo(s, names, d, x, y), AdmitTwo(s, names, d, y, x))
      <==> IsRevivedBy(s, b, x, y) || IsRevivedBy(s, b, y, x) || AreRivals(s, b, x, y)
  {
    AdmitOpen(s, names, d, x);
    AdmitOpen(s, names, d, y);
    SecondOpen(s, names, d, x, y);
    SecondOpen(s, names, d, y, x);
    if IsFresh(s, x, d.point.roots.basis) && IsFresh(s, y, d.point.roots.basis) {
      SameCommit(s, names, d, x, y);
    }
  }

  lemma EffectsApply(p: Policy, ev: Evidence, b: Basis, req: Request)
    requires Evaluate(p, ev, b, req).verdict.Commit?
    ensures ApplyEffects(b, Evaluate(p, ev, b, req).verdict.effects).Some?
  {
    CommitsIff(p, ev, b, req);
    FoldCarriesBasis(b, AddressedIntents(req));
  }

  lemma VouchedApplies(known: set<Attempt>, body: Body, f: Fields, c: Capsule, b: Basis)
    requires IsVouched(known, body, f, c) && c.verdict.Commit? && ReadsHold(c.observed, b)
    ensures ApplyEffects(b, c.verdict.effects).Some?
  {
    var a :| a in known && IsTestimony(a, body, f, c);
    WitnessIsSound(c.observed, body.policy, a.ev, body.point.roots.basis, b, a.req);
    EffectsApply(body.policy, a.ev, b, a.req);
  }

  lemma CapsuleIsVouched(s: Repo, id: Label) returns (known: set<Attempt>)
    requires IsReachable(s) && id in s.capsules
    ensures s.capsules[id].tx in s.seals && s.capsules[id].basisHead in s.chain
    ensures IsVouched(known, s.chain[s.capsules[id].basisHead], s.seals[s.capsules[id].tx].fields, s.capsules[id])
  {
    known := ReachableInv(s);
    assert AreVouched(Actual(known), s.chain, s.seals, s.capsules);
  }

  lemma DecideReads(s: Repo, c: Capsule, b: Basis, generation: nat)
    requires DecideAgainst(s, c, b, generation).Commits?
    ensures c.verdict.Commit? && ReadsHold(c.observed, b)
  {
  }

  /** A decidable commit always applies: the stream-exhaustion breach of staging cannot occur. */
  lemma CommitNeverExhausts(s: Repo, id: Label, b: Basis)
    requires IsReachable(s) && id in s.capsules
    requires DecideAgainst(s, s.capsules[id], b, s.head.body.generation).Commits?
    ensures ApplyEffects(b, s.capsules[id].verdict.effects).Some?
  {
    var c := s.capsules[id];
    var known := CapsuleIsVouched(s, id);
    DecideReads(s, c, b, s.head.body.generation);
    VouchedApplies(known, s.chain[c.basisHead], s.seals[c.tx].fields, c, b);
  }
}
