/**
 What an exploration means, independently of the order in which it settled
 anything: membership and depth are properties of the lines of history.
 */
module ShallowBall {
  import opened ShallowGraph
  import opened ShallowDepth
  import opened ShallowExplore

  ghost predicate IsVisited(g: Graph, wants: seq<Oid>, rule: Rule, x: Oid) {
    exists p: seq<Oid> :: IsLine(g, wants, p) && Last(p) == x && IsAllowed(g, rule, p)
  }

  /** No line of history reaches `x` at less than `d`. */
  ghost predicate IsAtLeast(g: Graph, wants: seq<Oid>, x: Oid, d: nat) {
    forall p: seq<Oid> :: IsLine(g, wants, p) && Last(p) == x ==> d <= Depth(g, p)
  }

  /** Where history is cut: at the exact depth, or at the client's own boundaries. */
  ghost predicate IsRim(g: Graph, wants: seq<Oid>, rule: Rule, x: Oid) {
    && IsCommit(g, x) && IsVisited(g, wants, rule, x)
    && match rule.depth
       case None => x in rule.known
       case Some(maximum) => maximum != INFINITE_DEPTH && IsAtLeast(g, wants, x, maximum)
  }

  lemma NotBoundary(g: Graph, wants: seq<Oid>, rule: Rule, e: Explored, x: Oid)
    requires IsExploration(g, wants, rule, e) && x in e.depths
    requires IsCommit(g, x) ==>
               match rule.depth
               case None => x !in rule.known
               case Some(maximum) => maximum == INFINITE_DEPTH || e.depths[x] < maximum
    ensures x in e.depths.Keys - e.boundaries
  {
  }

  /** Every allowed line ends at an explored object, at a depth at least the recorded one. */
  lemma {:induction false} LineIsCovered(g: Graph, wants: seq<Oid>, rule: Rule, e: Explored, p: seq<Oid>)
    requires IsExploration(g, wants, rule, e) && IsLine(g, wants, p) && IsAllowed(g, rule, p)
    ensures Last(p) in e.depths && e.depths[Last(p)] <= Depth(g, p)
    decreases |p|
  {
    if |p| > 1 {
      var q := p[..|p| - 1];
      var x, y := p[|p| - 2], p[|p| - 1];
      LinePrefix(g, wants, p, |p| - 1);
      assert Depth(g, p) == Depth(g, q) + StepCost(g, x);
      LineIsCovered(g, wants, rule, e, q);
      NotBoundary(g, wants, rule, e, x);
      assert Precedes(g, p[|p| - 2], p[|p| - 1]);
      assert x in e.depths.Keys - e.boundaries - {};
      assert IsRelaxed(g, Front(e.depths, {}), x, y);
    }
  }

  lemma ExploredIsVisited(g: Graph, wants: seq<Oid>, rule: Rule, e: Explored, x: Oid)
    requires IsExploration(g, wants, rule, e) && x in e.depths && IsProper(rule)
    ensures IsVisited(g, wants, rule, x)
    ensures exists p: seq<Oid> :: IsLine(g, wants, p) && IsAllowed(g, rule, p) && Last(p) == x && Depth(g, p) == e.depths[x]
  {
    LineTo(g, wants, rule, Front(e.depths, {}), e.depths.Keys, e.commits, e.boundaries, x);
    var p: seq<Oid> :| IsFollowed(g, wants, rule, p) && Last(p) == x && Depth(g, p) == e.depths[x];
    assert IsLine(g, wants, p) && IsAllowed(g, rule, p);
  }

  /** What is explored has nothing to refuse: every followed line ends at an object, and at no bad tag. */
  lemma ExploredIsFit(g: Graph, wants: seq<Oid>, rule: Rule, e: Explored, p: seq<Oid>)
    requires IsExploration(g, wants, rule, e) && IsProper(rule) && IsFollowed(g, wants, rule, p)
    ensures Last(p) in g && !IsBadTag(g, Last(p))
  {
    LineIsCovered(g, wants, rule, e, p);
  }

  /** Exploration is exact: visited objects, visited commits and the rim. */
  lemma ExplorationMeaning(g: Graph, wants: seq<Oid>, rule: Rule, e: Explored)
    requires IsExploration(g, wants, rule, e) && IsProper(rule)
    ensures forall x :: x in e.depths <==> IsVisited(g, wants, rule, x)
    ensures forall x :: x in e.boundaries <==> IsRim(g, wants, rule, x)
    ensures rule.depth.Some? ==> forall x :: x in e.depths ==> IsAtLeast(g, wants, x, e.depths[x])
  {
    forall x ensures x in e.depths <==> IsVisited(g, wants, rule, x) {
      if x in e.depths {
        ExploredIsVisited(g, wants, rule, e, x);
      }
      if IsVisited(g, wants, rule, x) {
        var p: seq<Oid> :| IsLine(g, wants, p) && Last(p) == x && IsAllowed(g, rule, p);
        LineIsCovered(g, wants, rule, e, p);
      }
    }
    if rule.depth.Some? {
      forall x | x in e.depths ensures IsAtLeast(g, wants, x, e.depths[x]) {
        RecordedIsShortest(g, wants, rule, e, x);
      }
    }
    forall x ensures x in e.boundaries <==> IsRim(g, wants, rule, x) {
      RimIsExact(g, wants, rule, e, x);
    }
  }

  lemma RecordedIsShortest(g: Graph, wants: seq<Oid>, rule: Rule, e: Explored, x: Oid)
    requires IsExploration(g, wants, rule, e) && IsProper(rule) && rule.depth.Some? && x in e.depths
    ensures IsAtLeast(g, wants, x, e.depths[x])
  {
    forall p: seq<Oid> | IsLine(g, wants, p) && Last(p) == x
      ensures e.depths[x] <= Depth(g, p)
    {
      ExploredIsVisited(g, wants, rule, e, x);
      if IsAllowed(g, rule, p) {
        LineIsCovered(g, wants, rule, e, p);
      }
    }
  }

  lemma RimIsExact(g: Graph, wants: seq<Oid>, rule: Rule, e: Explored, x: Oid)
    requires IsExploration(g, wants, rule, e) && IsProper(rule)
    ensures x in e.boundaries <==> IsRim(g, wants, rule, x)
  {
    if x in e.boundaries {
      ExploredIsVisited(g, wants, rule, e, x);
      if rule.depth.Some? {
        RecordedIsShortest(g, wants, rule, e, x);
      }
    }
    if IsRim(g, wants, rule, x) {
      var p: seq<Oid> :| IsLine(g, wants, p) && Last(p) == x && IsAllowed(g, rule, p);
      LineIsCovered(g, wants, rule, e, p);
      ExploredIsVisited(g, wants, rule, e, x);
    }
  }
}
