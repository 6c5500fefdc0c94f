/**
 The clipped object traversal: every boundary commit is a root of history but
 keeps its whole tree.
 */
module ShallowWalk {
  import opened ShallowGraph
  import opened ShallowWork

  function Roots(g: Graph, roots: seq<Oid>, ignoreUnknown: bool): set<Oid> {
    set x | x in roots && (ignoreUnknown ==> x in g)
  }

  /** Every identity a traversal of `g` can meet. */
  ghost function Universe(g: Graph, roots: set<Oid>): set<Oid> {
    roots + (set x, e | x in g && e in g[x].edges :: e.target)
  }

  /** The loop's claim about what is seen and what is pending. */
  ghost predicate Explored(g: Graph, roots: set<Oid>, clip: set<Oid>, seen: set<Oid>, pending: set<Oid>) {
    && roots <= seen + pending
    && (forall x :: x in seen + pending ==> Reaches(g, roots, clip, x))
    && (forall x, e :: x in seen && Follows(g, clip, x, e) ==> e.target in seen + pending)
    && seen <= Universe(g, roots) && pending <= Universe(g, roots)
    && seen <= g.Keys
  }

  lemma ExploredIsExact(g: Graph, roots: set<Oid>, clip: set<Oid>, seen: set<Oid>)
    requires Explored(g, roots, clip, seen, {})
    ensures forall x :: x in seen <==> Reaches(g, roots, clip, x)
  {
    assert IsClosedUnder(g, clip, seen);
    forall x | Reaches(g, roots, clip, x)
      ensures x in seen
    {
      var p: seq<Oid> :| IsWalk(g, roots, clip, p) && Last(p) == x;
      ClosedContains(g, clip, seen, roots, p);
    }
  }

  /** Adds the children of `id` that are not yet seen. */
  method Expand(g: Graph, ghost roots: set<Oid>, clip: set<Oid>, id: Oid, seen: set<Oid>,
                pending: set<Oid>, work: Work) returns (r: Result<set<Oid>>)
    requires id in g && id in seen && Reaches(g, roots, clip, id)
    modifies work
    ensures r.Err? ==> FromLedger(r.error) && work.refused
    ensures r.Ok? ==> pending <= r.value
    ensures r.Ok? ==> forall x :: x in r.value - pending ==>
                        Reaches(g, roots, clip, x) && x in Universe(g, roots)
    ensures r.Ok? ==> forall e :: Follows(g, clip, id, e) ==> e.target in seen + r.value
  {
    var item := g[id];
    var next := pending;
    var k := 0;
    while k < |item.edges|
      invariant 0 <= k <= |item.edges|
      invariant pending <= next
      invariant forall x :: x in next - pending ==>
                  Reaches(g, roots, clip, x) && x in Universe(g, roots)
      invariant forall j :: 0 <= j < k && Follows(g, clip, id, item.edges[j]) ==>
                  item.edges[j].target in seen + next
    {
      :- work.Tick();
      var e := item.edges[k];
      if !(item.kind == Commit && e.kind == Commit && id in clip) && e.target !in seen {
        assert Follows(g, clip, id, e);
        StepReaches(g, roots, clip, id, e);
        var added :- work.Insert(next, e.target);
        next := added.0;
      }
      k := k + 1;
    }
    return Ok(next);
  }

  /** The roots to start from, as the pending set. */
  method Seed(g: Graph, rootList: seq<Oid>, ignoreUnknown: bool, work: Work) returns (r: Result<set<Oid>>)
    modifies work
    ensures r.Ok? ==> r.value == Roots(g, rootList, ignoreUnknown)
    ensures r.Err? ==> FromLedger(r.error) && work.refused
  {
    var pending: set<Oid> := {};
    for k := 0 to |rootList|
      invariant pending == Roots(g, rootList[..k], ignoreUnknown)
    {
      :- work.Tick();
      assert rootList[..k + 1] == rootList[..k] + [rootList[k]];
      if ignoreUnknown && rootList[k] !in g {
        continue;
      }
      var added :- work.Insert(pending, rootList[k]);
      pending := added.0;
    }
    assert rootList[..|rootList|] == rootList;
    return Ok(pending);
  }

  lemma SeedExplored(g: Graph, roots: set<Oid>, clip: set<Oid>)
    ensures Explored(g, roots, clip, {}, roots)
  {
    forall x | x in roots ensures Reaches(g, roots, clip, x) {
      RootReaches(g, roots, clip, x);
    }
  }

  /** One visit: `id` moves from pending to seen and its children become pending. */
  lemma VisitExplored(g: Graph, roots: set<Oid>, clip: set<Oid>, seen: set<Oid>, pending: set<Oid>,
                      id: Oid, next: set<Oid>)
    requires Explored(g, roots, clip, seen, pending) && id in pending && id in g
    requires pending - {id} <= next
    requires forall x :: x in next - (pending - {id}) ==>
               Reaches(g, roots, clip, x) && x in Universe(g, roots)
    requires forall e :: Follows(g, clip, id, e) ==> e.target in seen + {id} + next
    ensures Explored(g, roots, clip, seen + {id}, next)
  {
    forall x | x in next ensures x in Universe(g, roots) {
      assert x in pending || x in next - (pending - {id});
    }
  }

  method Walk(g: Graph, rootList: seq<Oid>, clip: set<Oid>, ignoreUnknown: bool, work: Work)
    returns (r: Result<set<Oid>>)
    modifies work
    ensures r.Ok? ==> forall x :: x in r.value <==> Reaches(g, Roots(g, rootList, ignoreUnknown), clip, x)
    ensures r.Err? ==>
              || (FromLedger(r.error) && work.refused)
              || (r.error == ClosureIncomplete
                  && exists x :: Reaches(g, Roots(g, rootList, ignoreUnknown), clip, x) && x !in g)
  {
    ghost var roots := Roots(g, rootList, ignoreUnknown);
    var seen: set<Oid> := {};
    var pending :- Seed(g, rootList, ignoreUnknown, work);
    SeedExplored(g, roots, clip);
    while pending != {}
      invariant Explored(g, roots, clip, seen, pending)
      decreases Universe(g, roots) - seen, pending
    {
      ghost var before := pending;
      var id := First(pending);
      pending := pending - {id};
      :- work.Tick();
      assert Reaches(g, roots, clip, id) && id in Universe(g, roots);
      var added :- work.Insert(seen, id);
      if !added.1 {
        assert added.0 == seen;
        continue;
      }
      var item :- Lookup(g, id);
      pending :- Expand(g, roots, clip, id, added.0, pending, work);
      VisitExplored(g, roots, clip, seen, before, id, pending);
      seen := added.0;
    }
    ExploredIsExact(g, roots, clip, seen);
    return Ok(seen);
  }
}
