/**
 * Ancestry over a parent view
 * (crates/fgit-reference/src/transition.rs:587-613, state.rs:904-926).
 */
module Ancestry {
  import opened Intents

  type Parents = map<Oid, seq<Oid>>

  predicate IsParent(view: Parents, child: Oid, parent: Oid) {
    child in view && parent in view[child]
  }

  ghost predicate IsLine(view: Parents, p: seq<Oid>) {
    |p| > 0 && forall i :: 0 <= i < |p| - 1 ==> IsParent(view, p[i], p[i + 1])
  }

  /** `candidate` is `tip` or lies at the end of a line of parents from it. */
  ghost predicate IsAncestor(view: Parents, tip: Oid, candidate: Oid) {
    exists p :: IsLine(view, p) && p[0] == tip && p[|p| - 1] == candidate
  }

  lemma Extend(view: Parents, tip: Oid, at: Oid, parent: Oid)
    requires IsAncestor(view, tip, at) && IsParent(view, at, parent)
    ensures IsAncestor(view, tip, parent)
  {
    var p :| IsLine(view, p) && p[0] == tip && p[|p| - 1] == at;
    var q := p + [parent];
    assert IsLine(view, q) && q[0] == tip && q[|q| - 1] == parent;
  }

  /** A set closed under parents that misses the candidate has no line leading to it. */
  lemma {:induction false} ClosedMisses(view: Parents, visited: set<Oid>, p: seq<Oid>, candidate: Oid)
    requires IsLine(view, p) && p[0] in visited && candidate !in visited
    requires forall c, a :: c in visited && IsParent(view, c, a) ==> a in visited
    ensures p[|p| - 1] != candidate
  {
    if |p| > 1 {
      assert IsParent(view, p[0], p[1]);
      ClosedMisses(view, visited, p[1..], candidate);
    }
  }

  function Claimed(view: Parents): set<Oid> {
    view.Keys + set c, i | c in view && 0 <= i < |view[c]| :: view[c][i]
  }

  /** What may wait on the stack: known ancestors other than the candidate. */
  ghost predicate IsWaiting(view: Parents, tip: Oid, candidate: Oid, frontier: seq<Oid>) {
    forall o :: o in frontier ==> o in Claimed(view) + {tip} && o != candidate && IsAncestor(view, tip, o)
  }

  /** Parents of visited objects are visited or waiting. */
  ghost predicate IsCovered(view: Parents, visited: set<Oid>, frontier: seq<Oid>) {
    forall c, a :: c in visited && IsParent(view, c, a) ==> a in visited || a in frontier
  }

  lemma StillCovered(view: Parents, visited: set<Oid>, before: seq<Oid>, current: Oid, after: seq<Oid>)
    requires IsCovered(view, visited, before)
    requires forall o :: o in before ==> o in after || o == current
    requires forall a :: IsParent(view, current, a) ==> a in after
    ensures IsCovered(view, visited + {current}, after)
  {
  }

  lemma Popped(s: seq<Oid>)
    requires s != []
    ensures forall o :: o in s <==> o in s[..|s| - 1] || o == s[|s| - 1]
  {
    assert s == s[..|s| - 1] + [s[|s| - 1]];
  }

  method PushParents(view: Parents, tip: Oid, candidate: Oid, current: Oid, rest: seq<Oid>)
      returns (found: bool, frontier: seq<Oid>)
    requires current in view && IsAncestor(view, tip, current) && IsWaiting(view, tip, candidate, rest)
    ensures found ==> IsAncestor(view, tip, candidate)
    ensures !found ==> IsWaiting(view, tip, candidate, frontier) && rest <= frontier
    ensures !found ==> forall a :: IsParent(view, current, a) ==> a in frontier
  {
    frontier := rest;
    var parents := view[current];
    for i := 0 to |parents|
      invariant IsWaiting(view, tip, candidate, frontier) && rest <= frontier
      invariant forall k :: 0 <= k < i ==> parents[k] in frontier
    {
      assert IsParent(view, current, parents[i]);
      Extend(view, tip, current, parents[i]);
      if parents[i] == candidate { return true, frontier; }
      frontier := frontier + [parents[i]];
    }
    found := false;
  }

  /** The stack walk visits each object once and so ends even on a cyclic parent claim. */
  method ReachableIn(view: Parents, tip: Oid, candidate: Oid) returns (r: bool)
    ensures r <==> IsAncestor(view, tip, candidate)
  {
    assert IsAncestor(view, tip, tip) by { assert IsLine(view, [tip]) && [tip][|[tip]| - 1] == tip; }
    if tip == candidate { return true; }
    var visited: set<Oid> := {};
    var frontier := [tip];
    while frontier != []
      invariant visited <= Claimed(view) + {tip} && candidate !in visited
      invariant IsWaiting(view, tip, candidate, frontier) && IsCovered(view, visited, frontier)
      invariant tip in visited || tip in frontier
      decreases Claimed(view) + {tip} - visited, |frontier|
    {
      ghost var before := frontier;
      Popped(frontier);
      var current := frontier[|frontier| - 1];
      frontier := frontier[..|frontier| - 1];
      if current in visited { continue; }
      if current !in view {
        StillCovered(view, visited, before, current, frontier);
      } else {
        ghost var rest := frontier;
        var found;
        found, frontier := PushParents(view, tip, candidate, current, frontier);
        if found { return true; }
        assert forall o :: o in rest ==> o in frontier;
        StillCovered(view, visited, before, current, frontier);
      }
      visited := visited + {current};
    }
    forall p | IsLine(view, p) && p[0] == tip ensures p[|p| - 1] != candidate
    {
      ClosedMisses(view, visited, p, candidate);
    }
    r := false;
  }
}
