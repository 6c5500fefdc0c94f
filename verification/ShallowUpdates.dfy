/**
 What the update of a depth request removes and announces, boundary by boundary
 (crates/fgit-node/src/upload_visibility/shallow.rs:199-235).
 */
module ShallowUpdates {
  import opened Bytes
  import opened ShallowGraph
  import opened ShallowDepth
  import opened ShallowBall
  import opened ShallowRelative
  import opened ShallowCutoffs
  import opened ShallowHistory
  import opened ShallowSelect

  /** Wanted history reaches `x` above depth `d`. */
  ghost predicate IsAbove(g: Graph, wants: seq<Oid>, x: Oid, d: nat) {
    exists p: seq<Oid> :: IsLine(g, wants, p) && Last(p) == x && (d == INFINITE_DEPTH || Depth(g, p) < d)
  }

  /** Wanted history reaches `x` at depth `d`, and nowhere above it. */
  ghost predicate IsOnEdge(g: Graph, wants: seq<Oid>, x: Oid, d: nat) {
    !IsAbove(g, wants, x, d) && exists p: seq<Oid> :: IsLine(g, wants, p) && Last(p) == x && Depth(g, p) == d
  }

  /** The rule of a depth sorts commits into above, edge and beyond. */
  lemma VisitedIff(g: Graph, wants: seq<Oid>, rule: Rule, x: Oid)
    requires rule.depth.Some? && rule.depth.value >= 1 && IsCommit(g, x)
    ensures IsRim(g, wants, rule, x) <==> IsOnEdge(g, wants, x, rule.depth.value)
    ensures IsVisited(g, wants, rule, x) && !IsRim(g, wants, rule, x) <==> IsAbove(g, wants, x, rule.depth.value)
  {
    var d := rule.depth.value;
    if IsAbove(g, wants, x, d) {
      var p: seq<Oid> :| IsLine(g, wants, p) && Last(p) == x && (d == INFINITE_DEPTH || Depth(g, p) < d);
      assert IsAllowed(g, rule, p);
    } else if IsVisited(g, wants, rule, x) {
      var p: seq<Oid> :| IsLine(g, wants, p) && Last(p) == x && IsAllowed(g, rule, p);
      assert Depth(g, p) == d;
    } else {
      forall p: seq<Oid> | IsLine(g, wants, p) && Last(p) == x ensures Depth(g, p) != d {
        assert !IsAllowed(g, rule, p);
      }
    }
  }

  /**
   For a finite request, a client boundary is removed exactly when wanted history
   reaches it above the effective depth, and a commit is announced exactly when
   history reaches it at that depth, not above, and it is not a boundary already.
   */
  lemma FiniteUpdate(g: Graph, req: Request, h: History) returns (d: nat)
    requires IsHistory(g, req, h) && !WantsCutoffs(req) && req.deepen.Some? && req.deepen != Some(INFINITE_DEPTH)
    ensures d >= 1 && (!req.relative ==> d == req.deepen.value)
    ensures req.relative ==> exists k: nat :: IsNearest(g, req.wants, KnownShallows(g, req), k) && d == req.deepen.value + k
    ensures forall x :: x in h.update.unshallow <==> x in KnownShallows(g, req) && IsAbove(g, req.wants, x, d)
    ensures forall x :: x in h.update.shallow <==>
      x !in KnownShallows(g, req) && IsCommit(g, x) && IsOnEdge(g, req.wants, x, d)
  {
    var depth :| IsEffectiveDepth(g, req, h.known, depth) && IsDepthHistory(g, req, depth, h);
    d := depth.value;
    var rule := Rule(depth, h.known);
    var commits: set<Oid> :| IsVisitedCommits(g, req.wants, rule, commits) && IsUpdate(h.known, h.boundaries, commits, h.update);
    forall x
      ensures x in h.update.unshallow <==> x in h.known && IsAbove(g, req.wants, x, d)
      ensures x in h.update.shallow <==> x !in h.known && IsCommit(g, x) && IsOnEdge(g, req.wants, x, d)
    {
      assert x in h.update.unshallow <==> x in Elements(h.update.unshallow);
      assert x in h.update.shallow <==> x in Elements(h.update.shallow);
      assert x in h.boundaries <==> IsRim(g, req.wants, rule, x);
      if IsCommit(g, x) { VisitedIff(g, req.wants, rule, x); }
    }
  }

  /** At infinite depth every visible boundary of the client is removed, wherever it is, and none is announced. */
  lemma InfiniteUpdate(g: Graph, req: Request, h: History)
    requires IsHistory(g, req, h) && req.deepen == Some(INFINITE_DEPTH) && !WantsCutoffs(req)
    ensures Elements(h.update.unshallow) == KnownShallows(g, req) && forall x :: x !in h.update.shallow
    ensures forall x :: x in req.shallows && x in g ==> x !in ApplyUpdate(Elements(req.shallows), h.update)
  {
    var depth :| IsEffectiveDepth(g, req, h.known, depth) && IsDepthHistory(g, req, depth, h);
    var rule := Rule(depth, h.known);
    forall x ensures x !in h.boundaries { assert !IsRim(g, req.wants, rule, x); }
    assert forall x :: x in h.update.shallow <==> x in Elements(h.update.shallow);
  }

  /** ... and the client then holds history without any cut: its store is closed over the visible graph. */
  lemma InfiniteIsUncut(g: Graph, req: Request, h: History, ids: seq<Oid>, store: set<Oid>)
    requires IsHistory(g, req, h) && IsSelection(g, req, h, ids)
    requires req.deepen == Some(INFINITE_DEPTH) && !WantsCutoffs(req)
    requires IsWhole(g, store, Elements(req.shallows))
    requires forall y :: y in req.haves && y in g ==> y in store
    ensures IsWhole(g, store + Elements(ids), {})
    ensures forall w :: w in req.wants ==> w in store + Elements(ids)
  {
    NoHoles(g, req, h, ids, store);
    InfiniteUpdate(g, req, h);
    var after, shallow := store + Elements(ids), ApplyUpdate(Elements(req.shallows), h.update);
    forall x, e | x in after && Follows(g, {}, x, e) ensures e.target in after {
      assert x !in shallow;
      assert Follows(g, shallow, x, e);
    }
  }

  // ----- cutoffs -----

  /** Parents in turn from one commit to another. */
  ghost predicate IsDescent(g: Graph, p: seq<Oid>) {
    |p| >= 1 && (forall i :: 0 <= i < |p| ==> IsCommit(g, p[i])) && forall i :: 0 < i < |p| ==> IsParent(g, p[i - 1], p[i])
  }

  ghost predicate IsExcluded(g: Graph, req: Request, x: Oid) {
    exists p: seq<Oid> :: IsDescent(g, p) && IsRootOf(g, req.exclude, p[0]) && Last(p) == x
  }

  /** Recent enough, and not in the history of anything excluded. */
  ghost predicate IsInside(g: Graph, req: Request, x: Oid) {
    && IsCommit(g, x) && !IsExcluded(g, req, x)
    && (req.since.Some? ==> g[x].time.Some? && g[x].time.value >= req.since.value)
  }

  /** A wanted commit leads to `x` along parents without ever leaving the cutoff. */
  ghost predicate IsWithin(g: Graph, req: Request, x: Oid) {
    exists p: seq<Oid> ::
      && IsDescent(g, p) && IsRootOf(g, req.wants, p[0]) && Last(p) == x
      && forall i :: 0 <= i < |p| ==> IsInside(g, req, p[i])
  }

  lemma ExcludedIff(g: Graph, req: Request, c: Cut, x: Oid)
    requires IsCut(g, req, c)
    ensures x in c.excluded <==> IsExcluded(g, req, x)
  {
    if x in c.excluded {
      var p: seq<Oid> :| IsAdmittedLine(g, c.excludedRoots, Gate({}, None), p) && Last(p) == x;
      assert forall i :: 0 <= i < |p| ==> Admits(g, Gate({}, None), p[i]);
      assert IsDescent(g, p);
    }
    if IsExcluded(g, req, x) {
      var p: seq<Oid> :| IsDescent(g, p) && IsRootOf(g, req.exclude, p[0]) && Last(p) == x;
      assert IsAdmittedLine(g, c.excludedRoots, Gate({}, None), p);
    }
  }

  lemma IncludedIff(g: Graph, req: Request, c: Cut, x: Oid)
    requires IsCut(g, req, c)
    ensures x in c.included <==> IsWithin(g, req, x)
  {
    var gate := Gate(c.excluded, req.since);
    forall y ensures Admits(g, gate, y) <==> IsInside(g, req, y) { ExcludedIff(g, req, c, y); }
    if x in c.included {
      var p: seq<Oid> :| IsAdmittedLine(g, c.roots, gate, p) && Last(p) == x;
      assert forall i :: 0 <= i < |p| ==> Admits(g, gate, p[i]);
      assert IsDescent(g, p);
    }
    if IsWithin(g, req, x) {
      var p: seq<Oid> :| && IsDescent(g, p) && IsRootOf(g, req.wants, p[0]) && Last(p) == x
                         && forall i :: 0 <= i < |p| ==> IsInside(g, req, p[i]);
      assert IsAdmittedLine(g, c.roots, gate, p);
    }
  }

  /** A commit inside with a parent that is not. */
  ghost predicate IsCutAt(g: Graph, req: Request, x: Oid) {
    IsWithin(g, req, x) && exists y :: IsParent(g, x, y) && !IsWithin(g, req, y)
  }

  /**
   For a cutoff, a commit is announced exactly when it is within and some parent
   is not, and a client boundary is removed exactly when it is within and all its parents are.
   */
  lemma CutoffUpdate(g: Graph, req: Request, h: History)
    requires IsHistory(g, req, h) && WantsCutoffs(req)
    ensures forall x :: x in h.update.shallow <==> x !in KnownShallows(g, req) && IsCutAt(g, req, x)
    ensures forall x :: x in h.update.unshallow <==>
      x in KnownShallows(g, req) && IsWithin(g, req, x) && !IsCutAt(g, req, x)
  {
    var c :| IsCut(g, req, c) && IsCutHistory(g, c, h);
    forall x ensures x in c.included <==> IsWithin(g, req, x) { IncludedIff(g, req, c, x); }
    forall x
      ensures x in h.update.shallow <==> x !in h.known && IsCutAt(g, req, x)
      ensures x in h.update.unshallow <==> x in h.known && IsWithin(g, req, x) && !IsCutAt(g, req, x)
    {
      assert x in h.update.unshallow <==> x in Elements(h.update.unshallow);
      assert x in h.update.shallow <==> x in Elements(h.update.shallow);
      assert x in h.boundaries <==> x in c.included && HasOutsideParent(g, c.included, x);
      if HasOutsideParent(g, c.included, x) {
        var y :| IsParent(g, x, y) && y !in c.included;
        assert !IsWithin(g, req, y);
      }
    }
  }

  // ----- nothing is sent twice -----

  lemma WalkUnclips(g: Graph, roots: set<Oid>, clip: set<Oid>, less: set<Oid>, x: Oid)
    requires less <= clip && Reaches(g, roots, clip, x)
    ensures Reaches(g, roots, less, x)
  {
    var p: seq<Oid> :| IsWalk(g, roots, clip, p) && Last(p) == x;
    forall i | 0 < i < |p| ensures Linked(g, less, p[i - 1], p[i]) {
      assert Linked(g, clip, p[i - 1], p[i]);
      var e :| Follows(g, clip, p[i - 1], e) && e.target == p[i];
      assert Follows(g, less, p[i - 1], e);
    }
    assert IsWalk(g, roots, less, p);
  }

  /** A client that holds no more than its haves lead to, above its own boundaries, is sent nothing it holds. */
  lemma SelectionIsNew(g: Graph, req: Request, h: History, ids: seq<Oid>, store: set<Oid>)
    requires IsHistory(g, req, h) && IsSelection(g, req, h, ids)
    requires forall x :: x in store ==> Reaches(g, Elements(req.haves) * g.Keys, Elements(req.shallows), x)
    ensures forall x :: x in ids ==> x !in store
  {
    assert HaveRoots(g, req) == Elements(req.haves) * g.Keys;
    forall x | x in ids && x in store ensures false {
      WalkUnclips(g, HaveRoots(g, req), Elements(req.shallows), h.known, x);
    }
  }
}
