/** Old boundaries, new boundaries and the shallow/unshallow update of one request. */
module ShallowHistory {
  import opened Bytes
  import opened ShallowGraph
  import opened ShallowWork
  import opened ShallowDepth
  import opened ShallowExplore
  import opened ShallowBall
  import opened ShallowRelative
  import opened ShallowCutoffs

  predicate WantsCutoffs(req: Request) {
    req.since.Some? || req.exclude != []
  }

  /** The client's boundaries that are in the visible graph. */
  function KnownShallows(g: Graph, req: Request): set<Oid> {
    set x | x in req.shallows && x in g
  }

  /** New boundaries are announced unless already known; removed ones only if the rule removes them. */
  predicate IsUpdate(known: set<Oid>, boundaries: set<Oid>, removable: set<Oid>, u: Update) {
    && IsAscending(u.shallow) && Elements(u.shallow) == boundaries - known
    && IsAscending(u.unshallow) && Elements(u.unshallow) == known * removable - boundaries
  }

  ghost predicate IsVisitedCommits(g: Graph, wants: seq<Oid>, rule: Rule, commits: set<Oid>) {
    forall x :: x in commits <==> IsCommit(g, x) && IsVisited(g, wants, rule, x)
  }

  ghost predicate IsDepthHistory(g: Graph, req: Request, depth: Option<nat>, h: History) {
    var rule := Rule(depth, h.known);
    && (forall x :: x in h.boundaries <==> IsRim(g, req.wants, rule, x))
    && if req.deepen == None then h.update == Update([], [])
       else exists commits: set<Oid> ::
              && IsVisitedCommits(g, req.wants, rule, commits)
              && IsUpdate(h.known, h.boundaries,
                          if req.deepen == Some(INFINITE_DEPTH) then h.known else commits, h.update)
  }

  /** `r` is a commit some listed identity peels to. */
  ghost predicate IsRootOf(g: Graph, ids: seq<Oid>, r: Oid) {
    IsCommit(g, r) && exists x :: x in ids && PeelsTo(g, x, r)
  }

  ghost predicate HasOutsideParent(g: Graph, included: set<Oid>, x: Oid) {
    exists y :: IsParent(g, x, y) && y !in included
  }

  /** The sets a cutoff history is made of. */
  datatype Cut = Cut(excludedRoots: set<Oid>, excluded: set<Oid>, roots: set<Oid>, included: set<Oid>)

  ghost predicate IsCut(g: Graph, req: Request, c: Cut) {
    && (forall r :: r in c.excludedRoots <==> IsRootOf(g, req.exclude, r))
    && (forall x :: x in c.excluded <==> IsIncluded(g, c.excludedRoots, Gate({}, None), x))
    && (forall r :: r in c.roots <==> IsRootOf(g, req.wants, r))
    && (forall x :: x in c.included <==> IsIncluded(g, c.roots, Gate(c.excluded, req.since), x))
    && c.included != {}
  }

  ghost predicate IsCutoffHistory(g: Graph, req: Request, h: History) {
    && req.deepen == None && !req.relative && (req.since.Some? ==> req.since.value > 0)
    && exists c :: IsCut(g, req, c) && IsCutHistory(g, c, h)
  }

  ghost predicate IsCutHistory(g: Graph, c: Cut, h: History) {
    && (forall x :: x in h.boundaries <==> x in c.included && HasOutsideParent(g, c.included, x))
    && IsUpdate(h.known, h.boundaries, c.included, h.update)
  }

  /** What a served request is answered with. */
  ghost predicate IsHistory(g: Graph, req: Request, h: History) {
    && h.known == KnownShallows(g, req) && (forall x :: x in h.known ==> IsCommit(g, x))
    && (forall x :: x in req.wants ==> x in g)
    && req.deepen != Some(0)
    && if WantsCutoffs(req) then IsCutoffHistory(g, req, h)
       else exists depth :: IsEffectiveDepth(g, req, h.known, depth) && IsDepthHistory(g, req, depth, h)
  }

  predicate IsMalformedRelative(req: Request) {
    req.relative && !(req.deepen.Some? && 1 <= req.deepen.value <= INFINITE_DEPTH && !WantsCutoffs(req))
  }

  /** A request is refused only by the ledger or for one of these defects. */
  ghost predicate IsJustifiedRefusal(g: Graph, req: Request, e: Refusal) {
    || (e.WantOutsideClosure? && e.id in req.wants && e.id !in g)
    || (e == EvidenceInvalid && exists x :: x in req.shallows && x in g && g[x].kind != Commit)
    || (e == UnsupportedFetch && req.deepen == Some(0))
    || if WantsCutoffs(req) then FromLedger(e) || IsBadCutoff(g, req, e)
       else IsBadHistory(g, req, KnownShallows(g, req), e) || (e == UnsupportedFetch && IsMalformedRelative(req))
  }

  /**
   * The rules a request without cutoffs explores under: up to the client's
   * boundaries to find the nearest of them, and to the depth it comes to.
   */
  ghost predicate IsRuleOf(g: Graph, req: Request, known: set<Oid>, rule: Rule) {
    || (req.relative && rule == Rule(None, known))
    || (rule.known == known && IsEffectiveDepth(g, req, known, rule.depth))
  }

  ghost predicate IsBadHistory(g: Graph, req: Request, known: set<Oid>, e: Refusal) {
    FromLedger(e) || exists rule :: IsRuleOf(g, req, known, rule) && IsJustified(g, req.wants, rule, e)
  }

  /** A depth the request cannot count to. */
  ghost predicate IsPastCounting(g: Graph, req: Request, known: set<Oid>) {
    IsOverlong(g, req, known) || exists rule :: IsRuleOf(g, req, known, rule) && IsTooDeep(g, req.wants, rule)
  }

  // ----- computing it -----

  /** Lists the members of `s` that are in `keep` and not in `drop`, in order. */
  method Pick(s: set<Oid>, keep: set<Oid>, drop: set<Oid>, work: Work) returns (r: Result<seq<Oid>>)
    modifies work
    ensures r.Ok? ==> IsAscending(r.value) && Elements(r.value) == s * keep - drop
    ensures r.Err? ==> FromLedger(r.error) && work.refused
  {
    var all := Listed(s);
    var picked: seq<Oid> := [];
    for k := 0 to |all|
      invariant IsAscending(picked)
      invariant Elements(picked) == Elements(all[..k]) * keep - drop
      invariant forall x :: x in picked ==> x in all[..k]
    {
      :- work.Tick();
      assert all[..k + 1] == all[..k] + [all[k]];
      assert forall x :: x in all[..k] ==> x < all[k];
      if all[k] in keep && all[k] !in drop {
        assert forall i :: 0 <= i < |picked| ==> picked[i] in picked;
        assert Elements(picked + [all[k]]) == Elements(picked) + {all[k]};
        picked := picked + [all[k]];
      }
    }
    assert all[..|all|] == all;
    return Ok(picked);
  }

  method MakeUpdate(known: set<Oid>, boundaries: set<Oid>, removable: set<Oid>, work: Work) returns (r: Result<Update>)
    modifies work
    ensures r.Ok? ==> IsUpdate(known, boundaries, removable, r.value)
    ensures r.Err? ==> FromLedger(r.error) && work.refused
  {
    var shallow :- Pick(boundaries, boundaries, known, work);
    var unshallow :- Pick(known, removable, boundaries, work);
    return Ok(Update(shallow, unshallow));
  }

  method OldBoundaries(g: Graph, req: Request, work: Work) returns (r: Result<set<Oid>>)
    modifies work
    ensures r.Ok? ==> r.value == KnownShallows(g, req) && forall x :: x in r.value ==> IsCommit(g, x)
    ensures r.Err? ==> (FromLedger(r.error) && work.refused)
                       || (r.error == EvidenceInvalid && exists x :: x in req.shallows && x in g && g[x].kind != Commit)
  {
    var known: set<Oid> := {};
    for k := 0 to |req.shallows|
      invariant known == (set x | x in req.shallows[..k] && x in g)
      invariant forall x :: x in known ==> IsCommit(g, x)
    {
      :- work.Tick();
      var id := req.shallows[k];
      assert req.shallows[..k + 1] == req.shallows[..k] + [id];
      if id in g {
        if g[id].kind != Commit {
          return Err(EvidenceInvalid);
        }
        var added :- work.Insert(known, id);
        known := added.0;
      }
    }
    assert req.shallows[..|req.shallows|] == req.shallows;
    return Ok(known);
  }

  /** Some identity does not peel, or names no commit where one is needed. */
  ghost predicate IsBadRoots(g: Graph, ids: seq<Oid>, commitsOnly: bool, e: Refusal) {
    exists id :: id in ids &&
      (IsUnpeelable(g, id, e)
       || (commitsOnly && e == EvidenceInvalid && forall c :: PeelsTo(g, id, c) ==> !IsCommit(g, c)))
  }

  method PeelAll(g: Graph, ids: seq<Oid>, commitsOnly: bool, work: Work) returns (r: Result<set<Oid>>)
    modifies work
    ensures r.Ok? ==> forall x :: x in r.value <==> IsRootOf(g, ids, x)
    ensures r.Err? ==> (FromLedger(r.error) && work.refused) || IsBadRoots(g, ids, commitsOnly, r.error)
  {
    var roots: set<Oid> := {};
    for k := 0 to |ids|
      invariant forall x :: x in roots <==> IsRootOf(g, ids[..k], x)
    {
      :- work.Tick();
      assert ids[..k + 1] == ids[..k] + [ids[k]];
      var root :- CommitRoot(g, ids[k], work);
      if root == None {
        if commitsOnly {
          assert ids[k] in ids;
          return Err(EvidenceInvalid);
        }
        RootsExtendNone(g, ids[..k], ids[k]);
      } else {
        RootsExtend(g, ids[..k], ids[k], root.value);
        var added :- work.Insert(roots, root.value);
        roots := added.0;
      }
    }
    assert ids[..|ids|] == ids;
    return Ok(roots);
  }

  lemma RootsExtend(g: Graph, ids: seq<Oid>, id: Oid, root: Oid)
    requires PeelsTo(g, id, root) && IsCommit(g, root)
    ensures forall x :: IsRootOf(g, ids + [id], x) <==> IsRootOf(g, ids, x) || x == root
  {
    forall x ensures IsRootOf(g, ids + [id], x) <==> IsRootOf(g, ids, x) || x == root {
      if IsRootOf(g, ids, x) {
        var y :| y in ids && PeelsTo(g, y, x);
        assert y in ids + [id];
      }
      if IsRootOf(g, ids + [id], x) {
        var y :| y in ids + [id] && PeelsTo(g, y, x);
        if y == id {
          PeelUnique(g, id, x, root);
        }
      }
      assert id in ids + [id];
    }
  }

  lemma RootsExtendNone(g: Graph, ids: seq<Oid>, id: Oid)
    requires forall c :: PeelsTo(g, id, c) ==> !IsCommit(g, c)
    ensures forall x :: IsRootOf(g, ids + [id], x) <==> IsRootOf(g, ids, x)
  {
    forall x ensures IsRootOf(g, ids + [id], x) <==> IsRootOf(g, ids, x) {
      if IsRootOf(g, ids, x) {
        var y :| y in ids && PeelsTo(g, y, x);
        assert y in ids + [id];
      }
    }
  }

  /** The admitted commits one of whose parents was cut away. */
  method CutBoundaries(g: Graph, included: set<Oid>, work: Work) returns (r: Result<set<Oid>>)
    requires forall x :: x in included ==> IsCommit(g, x)
    modifies work
    ensures r.Ok? ==> forall x :: x in r.value <==> x in included && HasOutsideParent(g, included, x)
    ensures r.Err? ==> FromLedger(r.error) && work.refused
  {
    var all := Listed(included);
    var boundaries: set<Oid> := {};
    for k := 0 to |all|
      invariant forall x :: x in boundaries <==> x in all[..k] && HasOutsideParent(g, included, x)
    {
      :- work.Tick();
      assert all[..k + 1] == all[..k] + [all[k]] && all[k] in Elements(all);
      var cut :- IsCutOff(g, included, all[k], work);
      if cut {
        var added :- work.Insert(boundaries, all[k]);
        boundaries := added.0;
      }
    }
    assert all[..|all|] == all;
    assert forall x :: x in all <==> x in Elements(all);
    return Ok(boundaries);
  }

  method IsCutOff(g: Graph, included: set<Oid>, id: Oid, work: Work) returns (r: Result<bool>)
    requires IsCommit(g, id)
    modifies work
    ensures r.Ok? ==> (r.value <==> HasOutsideParent(g, included, id))
    ensures r.Err? ==> FromLedger(r.error) && work.refused
  {
    var edges := g[id].edges;
    for k := 0 to |edges|
      invariant forall j :: 0 <= j < k && edges[j].kind == Commit ==> edges[j].target in included
    {
      :- work.Tick();
      if edges[k].kind == Commit && edges[k].target !in included {
        assert edges[k] == Edge(edges[k].target, Commit);
        assert IsParent(g, id, edges[k].target);
        return Ok(true);
      }
    }
    return Ok(false);
  }

  ghost predicate AreRootsOf(g: Graph, ids: seq<Oid>, roots: set<Oid>) {
    forall r :: r in roots <==> IsRootOf(g, ids, r)
  }

  ghost predicate AreAncestors(g: Graph, roots: set<Oid>, ancestors: set<Oid>) {
    forall x :: x in ancestors <==> IsIncluded(g, roots, OPEN, x)
  }

  /** The exclusions' ancestry cannot be gathered. */
  ghost predicate IsBadExclusion(g: Graph, req: Request, e: Refusal) {
    exists roots :: AreRootsOf(g, req.exclude, roots) && IsBlocked(g, roots, OPEN, e)
  }

  /** The wants' admitted history cannot be gathered, or is empty. */
  ghost predicate IsBadInclusion(g: Graph, req: Request, e: Refusal) {
    exists cut, excluded, roots :: IsBadWithin(g, req, cut, excluded, roots, e)
  }

  ghost predicate IsBadWithin(g: Graph, req: Request, cut: set<Oid>, excluded: set<Oid>, roots: set<Oid>, e: Refusal) {
    && AreRootsOf(g, req.exclude, cut) && AreAncestors(g, cut, excluded) && AreRootsOf(g, req.wants, roots)
    && (IsBlocked(g, roots, Gate(excluded, req.since), e)
        || (e == UnsupportedFetch && forall x :: !IsIncluded(g, roots, Gate(excluded, req.since), x)))
  }

  /** Why a request with cutoffs is refused, other than by the ledger. */
  ghost predicate IsBadCutoff(g: Graph, req: Request, e: Refusal) {
    || (e == UnsupportedFetch && (req.deepen.Some? || req.relative || (req.since.Some? && req.since.value <= 0)))
    || IsBadRoots(g, req.exclude, true, e)
    || IsBadRoots(g, req.wants, false, e)
    || IsBadExclusion(g, req, e)
    || IsBadInclusion(g, req, e)
  }

  method CutoffHistory(g: Graph, req: Request, known: set<Oid>, work: Work) returns (r: Result<History>)
    modifies work
    ensures r.Ok? ==> r.value.known == known && IsCutoffHistory(g, req, r.value)
    ensures r.Err? ==> (FromLedger(r.error) && work.refused) || IsBadCutoff(g, req, r.error)
  {
    var exclusions := |req.exclude|;
    :- work.Tick();
    :- work.Count(exclusions);
    if req.deepen.Some? || req.relative {
      return Err(UnsupportedFetch);
    }
    if req.since.Some? && req.since.value <= 0 {
      return Err(UnsupportedFetch);
    }
    var excludedRoots :- PeelAll(g, req.exclude, true, work);
    assert AreRootsOf(g, req.exclude, excludedRoots);
    var excluded :- GatherAncestry(g, excludedRoots, work);
    var roots :- PeelAll(g, req.wants, false, work);
    assert AreRootsOf(g, req.exclude, excludedRoots) && AreAncestors(g, excludedRoots, excluded);
    assert AreRootsOf(g, req.wants, roots);
    assert forall e :: IsBlocked(g, roots, Gate(excluded, req.since), e) ==>
             IsBadWithin(g, req, excludedRoots, excluded, roots, e);
    var included :- Gather(g, roots, Gate(excluded, req.since), work);
    if included == {} {
      assert IsBadWithin(g, req, excludedRoots, excluded, roots, UnsupportedFetch);
      return Err(UnsupportedFetch);
    }
    ghost var c := Cut(excludedRoots, excluded, roots, included);
    forall x | x in included ensures IsCommit(g, x) {
      IncludedAdmits(g, roots, Gate(excluded, req.since), x);
    }
    var boundaries :- CutBoundaries(g, included, work);
    var update :- MakeUpdate(known, boundaries, included, work);
    :- work.Tick();
    assert IsCut(g, req, c);
    assert IsCutHistory(g, c, History(known, boundaries, update));
    return Ok(History(known, boundaries, update));
  }

  lemma IncludedAdmits(g: Graph, roots: set<Oid>, gate: Gate, x: Oid)
    requires IsIncluded(g, roots, gate, x)
    ensures Admits(g, gate, x)
  {
    var p: seq<Oid> :| IsAdmittedLine(g, roots, gate, p) && Last(p) == x;
    assert Admits(g, gate, p[|p| - 1]);
  }

  method DepthHistory(g: Graph, req: Request, known: set<Oid>, work: Work) returns (r: Result<History>)
    requires req.deepen != Some(0) && forall x :: x in known ==> IsCommit(g, x)
    modifies work
    ensures r.Ok? ==> && r.value.known == known
                      && exists depth :: IsEffectiveDepth(g, req, known, depth) && IsDepthHistory(g, req, depth, r.value)
    ensures r.Err? ==> IsBadHistory(g, req, known, r.error) || (r.error == UnsupportedFetch && IsMalformedRelative(req))
    ensures r.Err? && FromLedger(r.error) ==> work.refused || IsPastCounting(g, req, known)
  {
    assert req.relative ==> IsRuleOf(g, req, known, Rule(None, known));
    var depth :- EffectiveDepth(g, req, known, work);
    var rule := Rule(depth, known);
    assert IsRuleOf(g, req, known, rule);
    var explored :- Explore(g, req.wants, rule, work);
    assert IsProper(rule);
    ExplorationMeaning(g, req.wants, rule, explored);
    var update := Update([], []);
    if req.deepen.Some? {
      update :- MakeUpdate(known, explored.boundaries,
                           if req.deepen == Some(INFINITE_DEPTH) then known else explored.commits, work);
      assert IsVisitedCommits(g, req.wants, rule, explored.commits);
    }
    :- work.Tick();
    return Ok(History(known, explored.boundaries, update));
  }

  /** Depths a request without cutoffs cannot count to. */
  ghost predicate IsBeyondDepth(g: Graph, req: Request) {
    !WantsCutoffs(req) && IsPastCounting(g, req, KnownShallows(g, req))
  }

  method ComputeHistory(g: Graph, req: Request, work: Work) returns (r: Result<History>)
    modifies work
    ensures r.Ok? ==> IsHistory(g, req, r.value)
    ensures r.Err? ==> IsJustifiedRefusal(g, req, r.error)
    ensures r.Err? && FromLedger(r.error) ==> work.refused || IsBeyondDepth(g, req)
  {
    var wants, haves, shallows := |req.wants|, |req.haves|, |req.shallows|;
    :- work.Tick();
    :- work.Count(wants);
    :- work.Count(haves);
    :- work.Count(shallows);
    if req.deepen == Some(0) {
      return Err(UnsupportedFetch);
    }
    for k := 0 to |req.wants|
      invariant forall j :: 0 <= j < k ==> req.wants[j] in g
    {
      :- work.Tick();
      if req.wants[k] !in g {
        return Err(WantOutsideClosure(req.wants[k]));
      }
    }
    var known :- OldBoundaries(g, req, work);
    if WantsCutoffs(req) {
      var cut := CutoffHistory(g, req, known, work);
      return cut;
    }
    var h := DepthHistory(g, req, known, work);
    return h;
  }
}
