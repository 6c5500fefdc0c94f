/** Exact meaning of the selected history: the depth ball and the cutoff set. */
module ShallowTheorems {
  import opened Bytes
  import opened ShallowGraph
  import opened ShallowDepth
  import opened ShallowBall
  import opened ShallowRelative
  import opened ShallowCutoffs
  import opened ShallowHistory
  import opened ShallowSelect

  /** Git's kinds of edges; links to other repositories were removed from the graph. */
  ghost predicate IsWellKinded(g: Graph) {
    forall x, e :: x in g && e in g[x].edges ==>
      && e.target in g && g[e.target].kind == e.kind
      && match g[x].kind
         case Commit => e.kind == Tree || e.kind == Commit
         case Tree => e.kind == Tree || e.kind == Blob
         case Tag => |g[x].edges| == 1
         case Blob => false
  }

  predicate IsHistorical(g: Graph, x: Oid) {
    x in g && (g[x].kind == Commit || g[x].kind == Tag)
  }

  /** Only tags and commits lead to a commit, and they do so along history. */
  lemma LinkIsHistorical(g: Graph, clip: set<Oid>, x: Oid, y: Oid)
    requires IsWellKinded(g) && Linked(g, clip, x, y) && IsHistorical(g, y)
    ensures IsHistorical(g, x) && Precedes(g, x, y) && (IsCommit(g, x) ==> x !in clip)
  {
    var e :| Follows(g, clip, x, e) && e.target == y;
    assert e == Edge(y, e.kind);
  }

  lemma PrecedesIsLinked(g: Graph, clip: set<Oid>, x: Oid, y: Oid)
    requires Precedes(g, x, y) && (IsCommit(g, x) ==> x !in clip)
    ensures Linked(g, clip, x, y)
  {
    if IsCommit(g, x) {
      assert Follows(g, clip, x, Edge(y, Commit));
    } else {
      assert Follows(g, clip, x, g[x].edges[0]);
    }
  }

  lemma LinkedReaches(g: Graph, roots: set<Oid>, clip: set<Oid>, x: Oid, y: Oid)
    requires Reaches(g, roots, clip, x) && Linked(g, clip, x, y)
    ensures Reaches(g, roots, clip, y)
  {
    var e :| Follows(g, clip, x, e) && e.target == y;
    StepReaches(g, roots, clip, x, e);
  }

  /** Starting also from objects already reached changes nothing. */
  lemma {:induction false} ReachedRootsAddNothing(g: Graph, from: set<Oid>, roots: set<Oid>, clip: set<Oid>, p: seq<Oid>)
    requires forall r :: r in roots ==> Reaches(g, from, clip, r)
    requires IsWalk(g, roots, clip, p)
    ensures Reaches(g, from, clip, Last(p))
    decreases |p|
  {
    if |p| > 1 {
      ReachedRootsAddNothing(g, from, roots, clip, p[..|p| - 1]);
      assert Linked(g, clip, p[|p| - 2], p[|p| - 1]);
      LinkedReaches(g, from, clip, p[|p| - 2], p[|p| - 1]);
    }
  }

  // ----- depth -----

  ghost predicate IsRimSet(g: Graph, wants: seq<Oid>, rule: Rule, boundaries: set<Oid>) {
    forall x :: x in boundaries <==> IsRim(g, wants, rule, x)
  }

  lemma ExtendVisited(g: Graph, wants: seq<Oid>, rule: Rule, p: seq<Oid>, y: Oid)
    requires rule.depth.Some? && IsLine(g, wants, p) && Precedes(g, Last(p), y)
    requires rule.depth.value == INFINITE_DEPTH || Depth(g, p) + StepCost(g, Last(p)) <= rule.depth.value
    ensures IsVisited(g, wants, rule, y)
  {
    LineExtend(g, wants, p, y);
    DepthExtend(g, p, y);
    assert IsAllowed(g, rule, p + [y]);
  }

  /** From a visited object that is not on the rim, history goes on. */
  lemma StepVisited(g: Graph, wants: seq<Oid>, rule: Rule, x: Oid, y: Oid)
    requires rule.depth.Some? && IsVisited(g, wants, rule, x) && Precedes(g, x, y)
    requires !IsRim(g, wants, rule, x)
    ensures IsVisited(g, wants, rule, y)
  {
    if IsCommit(g, x) && rule.depth.value != INFINITE_DEPTH {
      var p: seq<Oid> :| IsLine(g, wants, p) && Last(p) == x && Depth(g, p) < rule.depth.value;
      ExtendVisited(g, wants, rule, p, y);
    } else {
      var p: seq<Oid> :| IsLine(g, wants, p) && Last(p) == x && IsAllowed(g, rule, p);
      ExtendVisited(g, wants, rule, p, y);
    }
  }

  lemma {:induction false} WalkIsVisited(g: Graph, wants: seq<Oid>, rule: Rule, boundaries: set<Oid>, p: seq<Oid>)
    requires IsWellKinded(g) && rule.depth.Some? && IsProper(rule) && IsRimSet(g, wants, rule, boundaries)
    requires IsWalk(g, Elements(wants), boundaries, p) && IsHistorical(g, Last(p))
    ensures IsVisited(g, wants, rule, Last(p))
    decreases |p|
  {
    if |p| == 1 {
      assert IsLine(g, wants, p) && IsAllowed(g, rule, p);
    } else {
      var x, y := p[|p| - 2], p[|p| - 1];
      assert Linked(g, boundaries, p[|p| - 2], p[|p| - 1]);
      LinkIsHistorical(g, boundaries, x, y);
      WalkIsVisited(g, wants, rule, boundaries, p[..|p| - 1]);
      StepVisited(g, wants, rule, x, y);
    }
  }

  lemma {:induction false} LineIsWalked(g: Graph, wants: seq<Oid>, rule: Rule, boundaries: set<Oid>, p: seq<Oid>)
    requires rule.depth.Some? && IsRimSet(g, wants, rule, boundaries)
    requires IsLine(g, wants, p) && IsAllowed(g, rule, p)
    ensures Reaches(g, Elements(wants), boundaries, Last(p))
    decreases |p|
  {
    if |p| == 1 {
      RootReaches(g, Elements(wants), boundaries, p[0]);
    } else {
      var q, x, y := p[..|p| - 1], p[|p| - 2], p[|p| - 1];
      LinePrefix(g, wants, p, |p| - 1);
      DepthMonotone(g, p, |p| - 1);
      LineIsWalked(g, wants, rule, boundaries, q);
      assert Precedes(g, p[|p| - 2], p[|p| - 1]);
      assert Depth(g, p) == Depth(g, q) + StepCost(g, x);
      assert Last(q) == x;
      PrecedesIsLinked(g, boundaries, x, y);
      LinkedReaches(g, Elements(wants), boundaries, x, y);
    }
  }

  /**
   Depth clipping is the ball: the commits the clipped walk selects are exactly
   those within the requested depth of a wanted tip.
   */
  lemma ClippedWalkIsBall(g: Graph, wants: seq<Oid>, rule: Rule, boundaries: set<Oid>, c: Oid)
    requires IsWellKinded(g) && rule.depth.Some? && IsProper(rule) && IsRimSet(g, wants, rule, boundaries)
    requires IsHistorical(g, c)
    ensures Reaches(g, Elements(wants), boundaries, c) <==> IsVisited(g, wants, rule, c)
  {
    if Reaches(g, Elements(wants), boundaries, c) {
      var p: seq<Oid> :| IsWalk(g, Elements(wants), boundaries, p) && Last(p) == c;
      WalkIsVisited(g, wants, rule, boundaries, p);
    }
    if IsVisited(g, wants, rule, c) {
      var p: seq<Oid> :| IsLine(g, wants, p) && Last(p) == c && IsAllowed(g, rule, p);
      LineIsWalked(g, wants, rule, boundaries, p);
    }
  }

  /**
   Unless infinite depth is requested, the parents of removed boundaries never
   enlarge a depth selection.
   */
  lemma RemovedParentsAddNothing(g: Graph, req: Request, h: History, roots: set<Oid>, x: Oid)
    requires IsHistory(g, req, h) && !WantsCutoffs(req) && AreDesiredRoots(g, req, h, roots)
    requires req.deepen.Some? && req.deepen != Some(INFINITE_DEPTH)
    ensures Reaches(g, roots, h.boundaries, x) <==> Reaches(g, Elements(req.wants), h.boundaries, x)
  {
    var depth :| IsEffectiveDepth(g, req, h.known, depth) && IsDepthHistory(g, req, depth, h);
    var rule := Rule(depth, h.known);
    var commits :| IsVisitedCommits(g, req.wants, rule, commits) && IsUpdate(h.known, h.boundaries, commits, h.update);
    forall r | r in roots ensures Reaches(g, Elements(req.wants), h.boundaries, r) {
      if r in req.wants {
        RootReaches(g, Elements(req.wants), h.boundaries, r);
      } else {
        assert IsDesiredRoot(g, req, h, r);
        var b :| b in h.update.unshallow && IsParent(g, b, r);
        assert b in Elements(h.update.unshallow);
        StepVisited(g, req.wants, rule, b, r);
        var p: seq<Oid> :| IsLine(g, req.wants, p) && Last(p) == r && IsAllowed(g, rule, p);
        LineIsWalked(g, req.wants, rule, h.boundaries, p);
      }
    }
    if Reaches(g, roots, h.boundaries, x) {
      var p: seq<Oid> :| IsWalk(g, roots, h.boundaries, p) && Last(p) == x;
      ReachedRootsAddNothing(g, Elements(req.wants), roots, h.boundaries, p);
    }
    if Reaches(g, Elements(req.wants), h.boundaries, x) {
      var p: seq<Oid> :| IsWalk(g, Elements(req.wants), h.boundaries, p) && Last(p) == x;
      assert IsDesiredRoot(g, req, h, p[0]);
      assert IsWalk(g, roots, h.boundaries, p);
    }
  }

  // ----- cutoffs -----

  ghost predicate RootsAreIncluded(g: Graph, req: Request, c: Cut) {
    forall r :: IsRootOf(g, req.wants, r) ==> r in c.included
  }

  /** Every wanted commit passes the cutoff's own gate: not in an excluded ancestry, and recent enough. */
  predicate AreRootsAdmitted(g: Graph, req: Request, c: Cut) {
    forall r :: r in c.roots ==> Admits(g, Gate(c.excluded, req.since), r)
  }

  lemma AdmittedIsIncluded(g: Graph, req: Request, c: Cut)
    requires IsCut(g, req, c)
    ensures AreRootsAdmitted(g, req, c) <==> RootsAreIncluded(g, req, c)
  {
    forall r | r in c.roots ensures Admits(g, Gate(c.excluded, req.since), r) <==> r in c.included {
      if Admits(g, Gate(c.excluded, req.since), r) { RootIncluded(g, c.roots, Gate(c.excluded, req.since), r); }
      if r in c.included { IncludedAdmits(g, c.roots, Gate(c.excluded, req.since), r); }
    }
  }

  /** From an included commit that is not a boundary, every parent is included. */
  lemma {:induction false} CutWalkIsIncluded(g: Graph, req: Request, h: History, c: Cut, roots: set<Oid>, p: seq<Oid>)
    requires IsWellKinded(g) && IsCut(g, req, c) && IsCutHistory(g, c, h) && AreDesiredRoots(g, req, h, roots)
    requires RootsAreIncluded(g, req, c)
    requires IsWalk(g, roots, h.boundaries, p) && IsHistorical(g, Last(p))
    ensures if IsCommit(g, Last(p)) then Last(p) in c.included
            else forall r :: IsCommit(g, r) && PeelsTo(g, Last(p), r) ==> r in c.included
    decreases |p|
  {
    var y := Last(p);
    if |p| == 1 {
      assert IsDesiredRoot(g, req, h, y);
      if y in req.wants {
        if IsCommit(g, y) {
          assert IsTagChain(g, [y]);
          assert IsRootOf(g, req.wants, y);
        }
      } else {
        var b :| b in h.update.unshallow && IsParent(g, b, y);
        assert b in Elements(h.update.unshallow) && Edge(y, Commit) in g[b].edges;
        assert !HasOutsideParent(g, c.included, b);
      }
    } else {
      var x := p[|p| - 2];
      assert Linked(g, h.boundaries, p[|p| - 2], p[|p| - 1]);
      LinkIsHistorical(g, h.boundaries, x, y);
      CutWalkIsIncluded(g, req, h, c, roots, p[..|p| - 1]);
      if IsCommit(g, x) {
        assert IsParent(g, x, y) && !HasOutsideParent(g, c.included, x);
        assert Edge(y, Commit) in g[x].edges;
      } else {
        TagPeels(g, x, y);
      }
    }
  }

  lemma TagPeels(g: Graph, x: Oid, y: Oid)
    requires IsTagLink(g, x, y) && y in g
    ensures forall r :: PeelsTo(g, y, r) ==> PeelsTo(g, x, r)
    ensures IsCommit(g, y) ==> PeelsTo(g, x, y)
  {
    forall r | PeelsTo(g, y, r) ensures PeelsTo(g, x, r) {
      var p: seq<Oid> :| IsTagChain(g, p) && p[0] == y && Last(p) == r;
      var q := [x] + p;
      forall i | 0 < i < |q| ensures IsTagLink(g, q[i - 1], q[i]) {
        if i > 1 {
          assert IsTagLink(g, p[i - 1 - 1], p[i - 1]);
        }
      }
      assert IsTagChain(g, q) && q[0] == x && Last(q) == r;
    }
    if IsCommit(g, y) {
      assert IsTagChain(g, [y]);
    }
  }

  /** A wanted root is always selected, whether or not the cutoff admits it. */
  lemma {:induction false} ChainReaches(g: Graph, roots: set<Oid>, clip: set<Oid>, p: seq<Oid>)
    requires IsTrail(g, p) && p[0] in roots
    ensures Reaches(g, roots, clip, Last(p))
    decreases |p|
  {
    if |p| == 1 {
      RootReaches(g, roots, clip, p[0]);
    } else {
      ChainReaches(g, roots, clip, p[..|p| - 1]);
      assert IsTagLink(g, p[|p| - 2], p[|p| - 1]);
      PrecedesIsLinked(g, clip, p[|p| - 2], p[|p| - 1]);
      LinkedReaches(g, roots, clip, p[|p| - 2], p[|p| - 1]);
    }
  }

  /**
   A cutoff selection stays inside the included commits if and only if every
   wanted commit passes the cutoff's gate.
   */
  lemma CutoffIsRespectedExactly(g: Graph, req: Request, h: History, c: Cut, roots: set<Oid>)
    requires IsWellKinded(g) && IsCut(g, req, c) && IsCutHistory(g, c, h) && AreDesiredRoots(g, req, h, roots)
    ensures (forall x :: IsCommit(g, x) && Reaches(g, roots, h.boundaries, x) ==> x in c.included)
            <==> AreRootsAdmitted(g, req, c)
  {
    AdmittedIsIncluded(g, req, c);
    if RootsAreIncluded(g, req, c) {
      forall x | IsCommit(g, x) && Reaches(g, roots, h.boundaries, x) ensures x in c.included {
        var p: seq<Oid> :| IsWalk(g, roots, h.boundaries, p) && Last(p) == x;
        CutWalkIsIncluded(g, req, h, c, roots, p);
      }
    } else {
      var r :| IsRootOf(g, req.wants, r) && r !in c.included;
      var w :| w in req.wants && PeelsTo(g, w, r);
      var p: seq<Oid> :| IsTagChain(g, p) && p[0] == w && Last(p) == r;
      assert IsDesiredRoot(g, req, h, w);
      ChainReaches(g, roots, h.boundaries, p);
    }
  }

  lemma CommitPeels(g: Graph, ids: seq<Oid>, x: Oid)
    requires IsCommit(g, x)
    ensures PeelsTo(g, x, x)
    ensures x in ids ==> IsRootOf(g, ids, x)
  {
    assert IsTagChain(g, [x]) && [x][0] == x && Last([x]) == x;
  }

  lemma CommitRoots(g: Graph, ids: seq<Oid>, r: Oid)
    requires forall x :: x in ids ==> IsCommit(g, x)
    ensures IsRootOf(g, ids, r) <==> r in ids
  {
    if r in ids {
      CommitPeels(g, ids, r);
    }
    if IsRootOf(g, ids, r) {
      var x :| x in ids && PeelsTo(g, x, r);
      CommitPeels(g, ids, x);
      PeelUnique(g, x, r, x);
    }
  }

  lemma NoRootsNothing(g: Graph, gate: Gate, x: Oid)
    ensures !IsIncluded(g, {}, gate, x)
  {
  }

  /** When every admitted commit is a root, those are all that is included. */
  lemma AdmittedRoots(g: Graph, roots: set<Oid>, gate: Gate, x: Oid)
    requires forall y :: Admits(g, gate, y) ==> y in roots
    ensures IsIncluded(g, roots, gate, x) <==> Admits(g, gate, x)
  {
    if IsIncluded(g, roots, gate, x) {
      IncludedAdmits(g, roots, gate, x);
    }
    if Admits(g, gate, x) {
      RootIncluded(g, roots, gate, x);
    }
  }

  /** Two unrelated tips, one older than the requested cutoff. */
  const TIPS: Graph := map[1 := Item(Commit, [], Some(10)), 2 := Item(Commit, [], Some(30))]

  const BOTH_SINCE_20 := Request([1, 2], [], [], None, false, Some(20), [])

  lemma TipsCut() returns (c: Cut)
    ensures c == Cut({}, {}, {1, 2}, {2}) && IsCut(TIPS, BOTH_SINCE_20, c)
  {
    c := Cut({}, {}, {1, 2}, {2});
    forall r ensures IsRootOf(TIPS, BOTH_SINCE_20.wants, r) <==> r in c.roots {
      CommitRoots(TIPS, BOTH_SINCE_20.wants, r);
    }
    forall x ensures x in c.included <==> IsIncluded(TIPS, c.roots, Gate(c.excluded, BOTH_SINCE_20.since), x) {
      AdmittedRoots(TIPS, c.roots, Gate(c.excluded, BOTH_SINCE_20.since), x);
    }
    forall x ensures !IsIncluded(TIPS, c.excludedRoots, Gate({}, None), x) {
      NoRootsNothing(TIPS, Gate({}, None), x);
    }
  }

  /** An input on which it is not: an old wanted tip beside a recent one is selected. */
  lemma OldWantEscapesCutoff() returns (h: History, roots: set<Oid>)
    ensures IsHistory(TIPS, BOTH_SINCE_20, h) && AreDesiredRoots(TIPS, BOTH_SINCE_20, h, roots)
    ensures TIPS[1].time == Some(10) && Reaches(TIPS, roots, h.boundaries, 1)
  {
    h := History({}, {}, Update([], []));
    roots := {1, 2};
    var c := TipsCut();
    assert IsCutHistory(TIPS, c, h);
    RootReaches(TIPS, roots, h.boundaries, 1);
  }
}
