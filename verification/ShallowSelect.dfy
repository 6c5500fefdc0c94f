/**
 The transfer selection, and the promise it keeps: a shallow client that
 applies the update and stores the selected objects is never left with a hole.
 */
module ShallowSelect {
  import opened Bytes
  import opened ShallowGraph
  import opened ShallowWork
  import opened ShallowWalk
  import opened ShallowDepth
  import opened ShallowBall
  import opened ShallowRelative
  import opened ShallowCutoffs
  import opened ShallowHistory

  /** Wants, and the parents a removed boundary promises. */
  ghost predicate IsDesiredRoot(g: Graph, req: Request, h: History, x: Oid) {
    x in req.wants || exists b :: b in h.update.unshallow && IsParent(g, b, x)
  }

  ghost predicate AreDesiredRoots(g: Graph, req: Request, h: History, roots: set<Oid>) {
    forall x :: x in roots <==> IsDesiredRoot(g, req, h, x)
  }

  function HaveRoots(g: Graph, req: Request): set<Oid> {
    Roots(g, req.haves, true)
  }

  /** Desired history stops at the new boundary, known history at the client's own. */
  ghost predicate IsSelection(g: Graph, req: Request, h: History, ids: seq<Oid>) {
    && IsAscending(ids)
    && exists roots :: AreDesiredRoots(g, req, h, roots)
         && forall x :: x in ids <==>
              Reaches(g, roots, h.boundaries, x) && !Reaches(g, HaveRoots(g, req), h.known, x)
  }

  method DesiredRoots(g: Graph, req: Request, h: History, work: Work) returns (r: Result<set<Oid>>)
    requires forall x :: x in h.update.unshallow ==> IsCommit(g, x)
    modifies work
    ensures r.Ok? ==> AreDesiredRoots(g, req, h, r.value)
    ensures r.Err? ==> FromLedger(r.error) && work.refused
  {
    var roots: set<Oid> := {};
    for k := 0 to |req.wants|
      invariant forall x :: x in roots <==> x in req.wants[..k]
    {
      assert req.wants[..k + 1] == req.wants[..k] + [req.wants[k]];
      var added :- work.Insert(roots, req.wants[k]);
      roots := added.0;
    }
    assert req.wants[..|req.wants|] == req.wants;
    var removed := h.update.unshallow;
    for k := 0 to |removed|
      invariant forall x :: x in roots <==> x in req.wants || exists b :: b in removed[..k] && IsParent(g, b, x)
    {
      assert removed[..k + 1] == removed[..k] + [removed[k]];
      :- work.Tick();
      assert IsCommit(g, removed[k]);
      roots :- AddRoots(g, removed[k], roots, work);
      assert removed[k] in removed[..k + 1];
      assert forall b :: b in removed[..k] ==> b in removed[..k + 1];
    }
    assert removed[..|removed|] == removed;
    return Ok(roots);
  }

  method AddRoots(g: Graph, id: Oid, roots0: set<Oid>, work: Work) returns (r: Result<set<Oid>>)
    requires IsCommit(g, id)
    modifies work
    ensures r.Ok? ==> forall x :: x in r.value <==> x in roots0 || IsParent(g, id, x)
    ensures r.Err? ==> FromLedger(r.error) && work.refused
  {
    var edges := g[id].edges;
    var roots := roots0;
    for k := 0 to |edges|
      invariant forall x :: x in roots <==> x in roots0 || Edge(x, Commit) in edges[..k]
    {
      assert edges[..k + 1] == edges[..k] + [edges[k]];
      :- work.Tick();
      if edges[k].kind == Commit {
        assert edges[k] == Edge(edges[k].target, Commit);
        var added :- work.Insert(roots, edges[k].target);
        roots := added.0;
      }
    }
    assert edges[..|edges|] == edges;
    return Ok(roots);
  }

  /** The roots in order, each charged. */
  method Reserve(roots: set<Oid>, work: Work) returns (r: Result<seq<Oid>>)
    modifies work
    ensures r.Ok? ==> IsAscending(r.value) && Elements(r.value) == roots
    ensures r.Err? ==> FromLedger(r.error) && work.refused
  {
    var all := Listed(roots);
    for k := 0 to |all| {
      :- work.Tick();
    }
    return Ok(all);
  }

  /** An object the selection or the client's history needs is missing from the graph. */
  ghost predicate HasHole(g: Graph, req: Request) {
    exists h, roots, x :: IsHistory(g, req, h) && AreDesiredRoots(g, req, h, roots) && x !in g
      && (Reaches(g, roots, h.boundaries, x) || Reaches(g, HaveRoots(g, req), h.known, x))
  }

  method Select(g: Graph, req: Request, work: Work) returns (r: Result<(History, seq<Oid>)>)
    modifies work
    ensures r.Ok? ==> IsHistory(g, req, r.value.0) && IsSelection(g, req, r.value.0, r.value.1)
    ensures r.Err? ==> IsJustifiedRefusal(g, req, r.error) || (r.error == ClosureIncomplete && HasHole(g, req))
    ensures r.Err? && FromLedger(r.error) ==> work.refused || IsBeyondDepth(g, req)
  {
    var h :- ComputeHistory(g, req, work);
    HistoryIsCoherent(g, req, h);
    assert forall x :: x in h.update.unshallow ==> x in Elements(h.update.unshallow);
    var roots :- DesiredRoots(g, req, h, work);
    var rootList :- Reserve(roots, work);
    assert Roots(g, rootList, false) == Elements(rootList);
    var desired :- Walk(g, rootList, h.boundaries, false, work);
    var known :- Walk(g, req.haves, h.known, true, work);
    var ids :- Pick(desired, desired, known, work);
    :- work.Tick();
    assert forall x :: x in ids <==> x in Elements(ids);
    return Ok((h, ids));
  }

  /** How the boundaries and the update fit together, in every mode. */
  predicate IsCoherent(h: History) {
    && h.boundaries <= h.known + Elements(h.update.shallow)
    && Elements(h.update.shallow) <= h.boundaries
    && Elements(h.update.unshallow) <= h.known - h.boundaries
  }

  lemma HistoryIsCoherent(g: Graph, req: Request, h: History)
    requires IsHistory(g, req, h)
    ensures IsCoherent(h)
  {
    if WantsCutoffs(req) {
      var c :| IsCut(g, req, c) && IsCutHistory(g, c, h);
    } else {
      var depth :| IsEffectiveDepth(g, req, h.known, depth) && IsDepthHistory(g, req, depth, h);
      if req.deepen == None {
        forall x | x in h.boundaries ensures x in h.known {
          assert IsRim(g, req.wants, Rule(depth, h.known), x);
        }
      }
    }
  }

  // ----- the client -----

  /** A client store is whole when only its shallow commits may miss parents. */
  ghost predicate IsWhole(g: Graph, store: set<Oid>, shallow: set<Oid>) {
    forall x, e :: x in store && Follows(g, shallow, x, e) ==> e.target in store
  }

  function ApplyUpdate(shallow: set<Oid>, u: Update): set<Oid> {
    shallow + Elements(u.shallow) - Elements(u.unshallow)
  }

  /** What the server subtracts is really there. */
  lemma KnownIsHeld(g: Graph, req: Request, h: History, store: set<Oid>, x: Oid)
    requires h.known == KnownShallows(g, req)
    requires IsWhole(g, store, Elements(req.shallows))
    requires forall y :: y in req.haves && y in g ==> y in store
    requires Reaches(g, HaveRoots(g, req), h.known, x)
    ensures x in store
  {
    forall y, e | y in store && Follows(g, h.known, y, e) ensures e.target in store {
      assert Follows(g, Elements(req.shallows), y, e);
    }
    assert IsClosedUnder(g, h.known, store);
    forall y | y in HaveRoots(g, req) ensures y in store {
      assert y in req.haves && y in g;
    }
    var p: seq<Oid> :| IsWalk(g, HaveRoots(g, req), h.known, p) && Last(p) == x;
    ClosedContains(g, h.known, store, HaveRoots(g, req), p);
  }

  /**
   No holes. Whatever the request's mode, a client whose store was whole up to
   its own boundaries is whole up to its new ones after the fetch, and holds
   every object it asked for.
   */
  lemma NoHoles(g: Graph, req: Request, h: History, ids: seq<Oid>, store: set<Oid>)
    requires IsHistory(g, req, h) && IsSelection(g, req, h, ids)
    requires IsWhole(g, store, Elements(req.shallows))
    requires forall y :: y in req.haves && y in g ==> y in store
    ensures IsWhole(g, store + Elements(ids), ApplyUpdate(Elements(req.shallows), h.update))
    ensures forall w :: w in req.wants ==> w in store + Elements(ids)
  {
    var roots :| AreDesiredRoots(g, req, h, roots)
                 && forall x :: x in ids <==> Reaches(g, roots, h.boundaries, x) && !Reaches(g, HaveRoots(g, req), h.known, x);
    var after := store + Elements(ids);
    var shallow := ApplyUpdate(Elements(req.shallows), h.update);
    HistoryIsCoherent(g, req, h);
    forall x | Reaches(g, roots, h.boundaries, x) ensures x in after {
      if x !in ids {
        KnownIsHeld(g, req, h, store, x);
      }
    }
    forall w | w in req.wants ensures w in after {
      RootReaches(g, roots, h.boundaries, w);
    }
    forall x, e | x in after && Follows(g, shallow, x, e) ensures e.target in after {
      FollowedIsHeld(g, req, h, roots, store, ids, x, e);
    }
  }

  lemma FollowedIsHeld(g: Graph, req: Request, h: History, roots: set<Oid>, store: set<Oid>, ids: seq<Oid>, x: Oid, e: Edge)
    requires IsCoherent(h) && h.known == KnownShallows(g, req) && AreDesiredRoots(g, req, h, roots)
    requires IsWhole(g, store, Elements(req.shallows))
    requires forall y :: Reaches(g, roots, h.boundaries, y) ==> y in store + Elements(ids)
    requires forall y :: y in ids ==> Reaches(g, roots, h.boundaries, y)
    requires x in store + Elements(ids) && Follows(g, ApplyUpdate(Elements(req.shallows), h.update), x, e)
    ensures e.target in store + Elements(ids)
  {
    if x in ids {
      assert Follows(g, h.boundaries, x, e);
      StepReaches(g, roots, h.boundaries, x, e);
    } else if Follows(g, Elements(req.shallows), x, e) {
    } else {
      assert x in h.update.unshallow && e == Edge(e.target, Commit) && IsParent(g, x, e.target);
      assert IsDesiredRoot(g, req, h, e.target);
      RootReaches(g, roots, h.boundaries, e.target);
    }
  }

  /** ... so everything reachable from the wants above the new boundaries is held. */
  lemma ReachableIsHeld(g: Graph, req: Request, h: History, ids: seq<Oid>, store: set<Oid>, x: Oid)
    requires IsHistory(g, req, h) && IsSelection(g, req, h, ids)
    requires IsWhole(g, store, Elements(req.shallows))
    requires forall y :: y in req.haves && y in g ==> y in store
    requires Reaches(g, Elements(req.wants), ApplyUpdate(Elements(req.shallows), h.update), x)
    ensures x in store + Elements(ids)
  {
    var shallow, after := ApplyUpdate(Elements(req.shallows), h.update), store + Elements(ids);
    NoHoles(g, req, h, ids, store);
    var p: seq<Oid> :| IsWalk(g, Elements(req.wants), shallow, p) && Last(p) == x;
    assert IsClosedUnder(g, shallow, after);
    forall w | w in Elements(req.wants) ensures w in after {
      assert w in req.wants;
    }
    ClosedContains(g, shallow, after, Elements(req.wants), p);
  }
}
