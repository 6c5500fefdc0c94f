/**
 * Atomic receives: one canonical request of all commands
 * (crates/fgit-authority/src/request.rs:338-375, crates/fgit-admission/src/lib.rs:3510-3602, 3750-3800).
 */
module Receive {
  import opened Bytes
  import opened Order
  import opened Intents
  import opened Fold
  import opened FoldLaws
  import opened Sorting

  /** One ref command; an absent object is the zero identity. */
  datatype Command = Command(name: RefName, before: Option<Oid>, after: Option<Oid>)

  function ExpectedOf(c: Command): Expected {
    if c.before == None then Absent else Exact(c.before.value)
  }

  function Lower(c: Command): Intent {
    if c.after == None then DeleteRef(c.name, ExpectedOf(c)) else UpdateRef(c.name, ExpectedOf(c), c.after.value, false)
  }

  /** The commands of one atomic request: a single statement that aborts on any mismatch. */
  function Place(cs: seq<Command>): seq<Placed> {
    seq(|cs|, i requires 0 <= i < |cs| => Placed(Address(0, i), Lower(cs[i]), TxnAbort))
  }

  // ---- Canonical order ----

  predicate NameLess(a: Command, b: Command) {
    LexLess(a.name, b.name)
  }

  function SortByName(cs: seq<Command>): seq<Command> {
    Sort(NameLess, cs)
  }

  predicate HasRepeat(cs: seq<Command>) {
    exists i :: 0 <= i < |cs| - 1 && cs[i].name == cs[i + 1].name
  }

  /** The canonical command list: sorted by name, refused when a name repeats. */
  function Build(cs: seq<Command>): Option<seq<Command>> {
    var sorted := SortByName(cs);
    if HasRepeat(sorted) then None else Some(sorted)
  }

  ghost predicate AreDistinct(cs: seq<Command>) {
    forall i, j :: 0 <= i < j < |cs| ==> cs[i].name != cs[j].name
  }

  lemma NamesAreOrdered(cs: seq<Command>)
    requires AreDistinct(cs)
    ensures IsStrict(NameLess) && AreApart(NameLess, cs)
  {
    LexIsTotalOrder();
  }

  lemma DistinctBuilds(cs: seq<Command>)
    requires AreDistinct(cs)
    ensures Build(cs) == Some(SortByName(cs))
  {
    NamesAreOrdered(cs);
    SortAscends(NameLess, cs);
    var sorted := SortByName(cs);
    forall i | 0 <= i < |sorted| - 1 ensures sorted[i].name != sorted[i + 1].name
    {
      assert NameLess(sorted[i], sorted[i + 1]);
      LexTotal(sorted[i].name, sorted[i].name);
    }
  }

  lemma NoRepeatIsDistinct(cs: seq<Command>)
    requires IsOrdered(NameLess, cs) && !HasRepeat(cs)
    ensures AreDistinct(cs)
  {
    forall i, j | 0 <= i < j < |cs| ensures cs[i].name != cs[j].name
    {
      assert !NameLess(cs[i + 1], cs[i]);
      LexTotal(cs[i].name, cs[i + 1].name);
      if i + 1 < j { assert !NameLess(cs[j], cs[i + 1]); }
      LexTotal(cs[i].name, cs[j].name);
    }
  }

  lemma NamesAreWeak()
    ensures IsStrict(NameLess) && IsWeak(NameLess)
  {
    LexIsTotalOrder();
    forall a: Command, b: Command, c: Command | !NameLess(a, b) && !NameLess(b, c) ensures !NameLess(a, c)
    {
      LexTotal(a.name, b.name);
      LexTotal(b.name, c.name);
    }
  }

  lemma BuiltIsDistinct(cs: seq<Command>)
    requires Build(cs).Some?
    ensures AreDistinct(Build(cs).value) && multiset(Build(cs).value) == multiset(cs)
  {
    NamesAreWeak();
    SortOrders(NameLess, cs);
    NoRepeatIsDistinct(SortByName(cs));
    SortKeeps(NameLess, cs);
  }

  lemma {:induction false} DistinctIsAnyOrder(a: seq<Command>, b: seq<Command>)
    requires multiset(a) == multiset(b) && AreDistinct(a)
    ensures AreDistinct(b)
  {
    assert |multiset(a)| == |a| && |multiset(b)| == |b|;
    if a != [] {
      var n := |a| - 1;
      var j := TakeOut(a, b);
      DistinctIsAnyOrder(a[..n], Without(b, j));
      forall k | 0 <= k < |b| && k != j ensures b[k].name != b[j].name
      {
        var i := if k < j then k else k - 1;
        assert Without(b, j)[i] == b[k];
        assert b[k] in multiset(a[..n]);
      }
      forall x, y | 0 <= x < y < |b| ensures b[x].name != b[y].name
      {
        if x != j && y != j {
          assert Without(b, j)[if x < j then x else x - 1] == b[x];
          assert Without(b, j)[if y < j then y else y - 1] == b[y];
        }
      }
    }
  }

  /** A request is built exactly when no name repeats. */
  lemma BuildsIff(cs: seq<Command>)
    ensures Build(cs).Some? <==> AreDistinct(cs)
  {
    if AreDistinct(cs) {
      DistinctBuilds(cs);
    } else if Build(cs).Some? {
      BuiltIsDistinct(cs);
      DistinctIsAnyOrder(Build(cs).value, cs);
    }
  }

  /**
   * The order a caller lists commands in cannot reach the request: any two
   * listings of the same commands build the same one, or both none.
   */
  lemma BuildIsOrderFree(a: seq<Command>, b: seq<Command>)
    requires multiset(a) == multiset(b)
    ensures Build(a) == Build(b)
  {
    BuildsIff(a);
    BuildsIff(b);
    if AreDistinct(a) {
      DistinctIsAnyOrder(a, b);
      DistinctBuilds(a);
      DistinctBuilds(b);
      NamesAreOrdered(a);
      NamesAreOrdered(b);
      SortIsOrderFree(NameLess, a, b);
    } else if AreDistinct(b) {
      DistinctIsAnyOrder(b, a);
    }
  }

  // ---- All or none ----

  /** The refs after all commands. */
  function Moved(refs: map<RefName, Oid>, cs: seq<Command>): map<RefName, Oid> {
    if cs == [] then refs
    else
      var c, before := cs[|cs| - 1], Moved(refs, cs[..|cs| - 1]);
      if c.after == None then before - {c.name} else before[c.name := c.after.value]
  }

  ghost predicate IsMet(refs: map<RefName, Oid>, c: Command) {
    Get(refs, c.name) == c.before
  }

  lemma {:induction false} MovedElsewhere(refs: map<RefName, Oid>, cs: seq<Command>, n: RefName)
    requires forall i :: 0 <= i < |cs| ==> cs[i].name != n
    ensures Get(Moved(refs, cs), n) == Get(refs, n)
  {
    if cs != [] { MovedElsewhere(refs, cs[..|cs| - 1], n); }
  }

  /** Every named ref ends at its own new value. */
  lemma {:induction false} MovedTo(refs: map<RefName, Oid>, cs: seq<Command>, i: nat)
    requires AreDistinct(cs) && i < |cs|
    ensures Get(Moved(refs, cs), cs[i].name) == cs[i].after
  {
    var n := |cs| - 1;
    if i < n {
      MovedTo(refs, cs[..n], i);
      assert cs[i].name != cs[n].name;
    }
  }

  /** One command on a scratch whose ref still holds what the basis held. */
  lemma ApplyCommand(s: Scratch, c: Command)
    ensures var (s', a) := Apply(s, Lower(c));
      if IsMet(s.at.refs, c)
      then !a.Mismatch? && s' == s.(at := s.at.(refs := Moved(s.at.refs, [c])))
      else a == Mismatch(ExpectedOldRefMismatch)
  {
    assert [c][..0] == [];
    var refs := s.at.refs;
    assert Moved(refs, []) == refs;
    if IsMet(refs, c) && c.after == None && c.name !in refs { assert refs - {c.name} == refs; }
    if IsMet(refs, c) && c.after.Some? && Get(refs, c.name) == c.after { assert refs[c.name := c.after.value] == refs; }
  }

  lemma MovedSnoc(refs: map<RefName, Oid>, cs: seq<Command>, c: Command)
    ensures Moved(refs, cs + [c]) == Moved(Moved(refs, cs), [c])
  {
    assert (cs + [c])[..|cs|] == cs && [c][..0] == [];
  }

  ghost predicate AreMet(refs: map<RefName, Oid>, cs: seq<Command>) {
    forall i :: 0 <= i < |cs| ==> IsMet(refs, cs[i])
  }

  /** The fold of the first commands: stopped by the first unmet one, otherwise all of them applied. */
  ghost predicate IsFolded(b: Basis, cs: seq<Command>, p: Progress) {
    if AreMet(b.refs, cs) then p.Running? && p.scratch == Scratch(b.(refs := Moved(b.refs, cs)), map[])
    else p.Stopped? && p.code == ExpectedOldRefMismatch
  }

  lemma FoldStep(b: Basis, cs: seq<Command>, c: Command, p: Progress, x: Placed)
    requires AreDistinct(cs + [c]) && p.Running? && IsFolded(b, cs, p) && x.intent == Lower(c) && x.policy == TxnAbort
    ensures IsFolded(b, cs + [c], Fold.Step(p, x))
  {
    forall i | 0 <= i < |cs| ensures cs[i].name != c.name
    {
      assert (cs + [c])[i] == cs[i] && (cs + [c])[|cs|] == c;
    }
    MovedElsewhere(b.refs, cs, c.name);
    ApplyCommand(p.scratch, c);
    MovedSnoc(b.refs, cs, c);
    assert AreMet(b.refs, cs + [c]) <==> IsMet(b.refs, c) by {
      if IsMet(b.refs, c) {
        forall i | 0 <= i < |cs + [c]| ensures IsMet(b.refs, (cs + [c])[i]) {}
      } else {
        assert (cs + [c])[|cs|] == c;
      }
    }
  }

  lemma {:induction false} AtomicFold(b: Basis, cs: seq<Command>)
    requires AreDistinct(cs)
    ensures IsFolded(b, cs, Process(b, Place(cs)))
  {
    if cs != [] {
      var n := |cs| - 1;
      var front := cs[..n];
      AtomicFold(b, front);
      assert Place(cs)[..n] == Place(front);
      assert front + [cs[n]] == cs;
      if AreMet(b.refs, front) {
        FoldStep(b, front, cs[n], Process(b, Place(front)), Place(cs)[n]);
      } else {
        var i :| 0 <= i < n && !IsMet(b.refs, front[i]);
        assert !IsMet(b.refs, cs[i]);
      }
    }
  }

  /**
   * All or none: an atomic receive folds exactly when every command's old value
   * holds, and then its effects move every named ref to its new value and touch
   * nothing else; otherwise it aborts and has no effect.
   */
  lemma AtomicAllOrNone(b: Basis, cs: seq<Command>)
    requires AreDistinct(cs)
    ensures var r := Folding(b, Place(cs));
      if AreMet(b.refs, cs)
      then r.outcome.Folded? && ApplyEffects(b, r.outcome.effects) == Some(b.(refs := Moved(b.refs, cs)))
      else r.outcome.AbortedAt? && r.outcome.code == ExpectedOldRefMismatch
  {
    AtomicFold(b, cs);
    if AreMet(b.refs, cs) { FoldCarriesBasis(b, Place(cs)); }
  }
}
