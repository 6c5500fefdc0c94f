/**
 Time and ref cutoffs. Membership is decided first (excluded ancestry, then
 admitted commits from the wants); a boundary is an admitted commit with some
 parent that is not.
 */
module ShallowCutoffs {
  import opened Bytes
  import opened ShallowGraph
  import opened ShallowWork

  // ----- peeling tags -----

  predicate IsTagLink(g: Graph, x: Oid, y: Oid) {
    x in g && g[x].kind == Tag && |g[x].edges| == 1 && g[x].edges[0].target == y
  }

  /** Objects linked by single-target tags. */
  ghost predicate IsTrail(g: Graph, p: seq<Oid>) {
    |p| >= 1 && forall i :: 0 < i < |p| ==> IsTagLink(g, p[i - 1], p[i])
  }

  /** A trail ending at the first object that is not a tag. */
  ghost predicate IsTagChain(g: Graph, p: seq<Oid>) {
    IsTrail(g, p) && Last(p) in g && g[Last(p)].kind != Tag
  }

  ghost predicate PeelsTo(g: Graph, id: Oid, end: Oid) {
    exists p: seq<Oid> :: IsTagChain(g, p) && p[0] == id && Last(p) == end
  }

  lemma {:induction false} TagChainUnique(g: Graph, p: seq<Oid>, q: seq<Oid>)
    requires IsTagChain(g, p) && IsTagChain(g, q) && p[0] == q[0]
    ensures Last(p) == Last(q)
    decreases |p|
  {
    assert |p| > 1 ==> IsTagLink(g, p[0], p[1]);
    assert |q| > 1 ==> IsTagLink(g, q[0], q[1]);
    if |p| > 1 {
      forall i | 0 < i < |p| - 1 ensures IsTagLink(g, p[1..][i - 1], p[1..][i]) {
        assert IsTagLink(g, p[i + 1 - 1], p[i + 1]);
      }
      forall i | 0 < i < |q| - 1 ensures IsTagLink(g, q[1..][i - 1], q[1..][i]) {
        assert IsTagLink(g, q[i + 1 - 1], q[i + 1]);
      }
      TagChainUnique(g, p[1..], q[1..]);
    }
  }

  lemma PeelUnique(g: Graph, id: Oid, a: Oid, b: Oid)
    requires PeelsTo(g, id, a) && PeelsTo(g, id, b)
    ensures a == b
  {
    var p: seq<Oid> :| IsTagChain(g, p) && p[0] == id && Last(p) == a;
    var q: seq<Oid> :| IsTagChain(g, q) && q[0] == id && Last(q) == b;
    TagChainUnique(g, p, q);
  }

  /** Tags from `id` on lead to an object that is not there. */
  ghost predicate LeadsOut(g: Graph, id: Oid) {
    exists p: seq<Oid> :: IsTrail(g, p) && p[0] == id && Last(p) !in g
  }

  /** Why an identity does not peel: a missing object, or tags that never end at anything else. */
  ghost predicate IsUnpeelable(g: Graph, id: Oid, e: Refusal) {
    || (e == ClosureIncomplete && LeadsOut(g, id))
    || (e == EvidenceInvalid && forall c :: !PeelsTo(g, id, c))
  }

  /** Tags that only lead to each other. */
  ghost predicate IsTagLoop(g: Graph, s: set<Oid>) {
    forall x :: x in s ==> x in g && g[x].kind == Tag && (|g[x].edges| == 1 ==> g[x].edges[0].target in s)
  }

  lemma {:induction false} LoopHolds(g: Graph, s: set<Oid>, p: seq<Oid>)
    requires IsTagLoop(g, s) && IsTrail(g, p) && p[0] in s
    ensures Last(p) in s
  {
    if |p| > 1 {
      var q := p[..|p| - 1];
      assert IsTrail(g, q);
      LoopHolds(g, s, q);
      assert IsTagLink(g, p[|p| - 2], p[|p| - 1]);
    }
  }

  lemma LoopNeverPeels(g: Graph, s: set<Oid>, id: Oid)
    requires IsTagLoop(g, s) && id in s
    ensures forall c :: !PeelsTo(g, id, c)
  {
    forall c ensures !PeelsTo(g, id, c) {
      if PeelsTo(g, id, c) {
        var p: seq<Oid> :| IsTagChain(g, p) && p[0] == id && Last(p) == c;
        LoopHolds(g, s, p);
      }
    }
  }

  /** Where peeling stands: a trail leads to `id`, and every object before it is a tag. */
  ghost predicate IsPeeling(g: Graph, start: Oid, visited: set<Oid>, id: Oid) {
    && visited <= g.Keys && start in visited + {id}
    && (exists p: seq<Oid> :: IsTrail(g, p) && p[0] == start && Last(p) == id)
    && forall x :: x in visited ==> g[x].kind == Tag && |g[x].edges| == 1 && g[x].edges[0].target in visited + {id}
  }

  lemma PeelStep(g: Graph, start: Oid, visited: set<Oid>, id: Oid, next: Oid)
    requires IsPeeling(g, start, visited, id) && IsTagLink(g, id, next)
    ensures IsPeeling(g, start, visited + {id}, next)
  {
    var p: seq<Oid> :| IsTrail(g, p) && p[0] == start && Last(p) == id;
    var q := p + [next];
    assert IsTrail(g, q) && q[0] == start && Last(q) == next;
  }

  lemma PeelEnds(g: Graph, start: Oid, visited: set<Oid>, id: Oid)
    requires IsPeeling(g, start, visited, id)
    ensures id !in g ==> LeadsOut(g, start)
    ensures id in g && g[id].kind != Tag ==> PeelsTo(g, start, id)
  {
    var p: seq<Oid> :| IsTrail(g, p) && p[0] == start && Last(p) == id;
    assert id in g && g[id].kind != Tag ==> IsTagChain(g, p);
  }

  /** A tag met again, or a tag that is not one-to-one, means that nothing is ever peeled to. */
  lemma PeelNeverEnds(g: Graph, start: Oid, visited: set<Oid>, id: Oid)
    requires IsPeeling(g, start, visited, id) && id in g && g[id].kind == Tag
    requires id in visited || |g[id].edges| != 1
    ensures forall c :: !PeelsTo(g, start, c)
  {
    LoopNeverPeels(g, visited + {id}, start);
  }

  lemma PeelsElsewhere(g: Graph, start: Oid, id: Oid)
    requires PeelsTo(g, start, id) && !IsCommit(g, id)
    ensures forall c :: PeelsTo(g, start, c) ==> !IsCommit(g, c)
  {
    forall c | PeelsTo(g, start, c) ensures !IsCommit(g, c) {
      PeelUnique(g, start, c, id);
    }
  }

  /** The commit a want or exclusion names, `None` for a tree or blob. */
  method CommitRoot(g: Graph, start: Oid, work: Work) returns (r: Result<Option<Oid>>)
    modifies work
    ensures r.Ok? && r.value.Some? ==> PeelsTo(g, start, r.value.value) && IsCommit(g, r.value.value)
    ensures r.Ok? && r.value.None? ==> forall c :: PeelsTo(g, start, c) ==> !IsCommit(g, c)
    ensures r.Err? ==> (FromLedger(r.error) && work.refused) || IsUnpeelable(g, start, r.error)
  {
    var id := start;
    var visited: set<Oid> := {};
    assert IsTrail(g, [start]) && Last([start]) == start;
    while true
      invariant IsPeeling(g, start, visited, id)
      decreases g.Keys - visited
    {
      var added :- work.Insert(visited, id);
      if !added.1 {
        PeelNeverEnds(g, start, visited, id);
        return Err(EvidenceInvalid);
      }
      PeelEnds(g, start, visited, id);
      var item :- Lookup(g, id);
      if item.kind == Commit {
        return Ok(Some(id));
      }
      if item.kind != Tag {
        PeelsElsewhere(g, start, id);
        return Ok(None);
      }
      if |item.edges| != 1 {
        PeelNeverEnds(g, start, visited, id);
        return Err(EvidenceInvalid);
      }
      PeelStep(g, start, visited, id, item.edges[0].target);
      visited := added.0;
      id := item.edges[0].target;
    }
  }

  // ----- gathering admitted ancestry -----

  /** Which commits a traversal may enter. */
  datatype Gate = Gate(excluded: set<Oid>, since: Option<int>)

  predicate Admits(g: Graph, gate: Gate, x: Oid) {
    && IsCommit(g, x) && x !in gate.excluded
    && (gate.since.Some? ==> g[x].time.Some? && g[x].time.value >= gate.since.value)
  }

  predicate IsParent(g: Graph, x: Oid, y: Oid) {
    IsCommit(g, x) && Edge(y, Commit) in g[x].edges
  }

  /** A line of admitted commits from a root. */
  ghost predicate IsAdmittedLine(g: Graph, roots: set<Oid>, gate: Gate, p: seq<Oid>) {
    && |p| >= 1 && p[0] in roots
    && (forall i :: 0 <= i < |p| ==> Admits(g, gate, p[i]))
    && (forall i :: 0 < i < |p| ==> IsParent(g, p[i - 1], p[i]))
  }

  ghost predicate IsIncluded(g: Graph, roots: set<Oid>, gate: Gate, x: Oid) {
    exists p: seq<Oid> :: IsAdmittedLine(g, roots, gate, p) && Last(p) == x
  }

  lemma RootIncluded(g: Graph, roots: set<Oid>, gate: Gate, x: Oid)
    requires x in roots && Admits(g, gate, x)
    ensures IsIncluded(g, roots, gate, x)
  {
    assert IsAdmittedLine(g, roots, gate, [x]) && Last([x]) == x;
  }

  lemma ParentIncluded(g: Graph, roots: set<Oid>, gate: Gate, x: Oid, y: Oid)
    requires IsIncluded(g, roots, gate, x) && IsParent(g, x, y) && Admits(g, gate, y)
    ensures IsIncluded(g, roots, gate, y)
  {
    var p: seq<Oid> :| IsAdmittedLine(g, roots, gate, p) && Last(p) == x;
    assert IsAdmittedLine(g, roots, gate, p + [y]) && Last(p + [y]) == y;
  }

  /** Reached, though perhaps not admitted: a root, or a parent of an included commit. */
  ghost predicate IsMet(g: Graph, roots: set<Oid>, gate: Gate, x: Oid) {
    x in roots || exists w :: IsIncluded(g, roots, gate, w) && IsParent(g, w, x)
  }

  lemma MetIncluded(g: Graph, roots: set<Oid>, gate: Gate, x: Oid)
    requires IsMet(g, roots, gate, x) && Admits(g, gate, x)
    ensures IsIncluded(g, roots, gate, x)
  {
    if x in roots {
      RootIncluded(g, roots, gate, x);
    } else {
      var w :| IsIncluded(g, roots, gate, w) && IsParent(g, w, x);
      ParentIncluded(g, roots, gate, w, x);
    }
  }

  ghost predicate Gathered(g: Graph, roots: set<Oid>, gate: Gate, visited: set<Oid>, included: set<Oid>, pending: set<Oid>) {
    && roots <= visited + pending
    && included == (set x | x in visited && Admits(g, gate, x))
    && (forall x {:trigger IsMet(g, roots, gate, x)} :: x in visited + pending ==> IsMet(g, roots, gate, x))
    && (forall x, y {:trigger IsParent(g, x, y)} :: x in included && IsParent(g, x, y) ==> y in visited + pending)
  }

  lemma {:induction false} GatheredCovers(g: Graph, roots: set<Oid>, gate: Gate, visited: set<Oid>, included: set<Oid>, p: seq<Oid>)
    requires Gathered(g, roots, gate, visited, included, {}) && IsAdmittedLine(g, roots, gate, p)
    ensures Last(p) in included
    decreases |p|
  {
    if |p| > 1 {
      var q := p[..|p| - 1];
      assert IsAdmittedLine(g, roots, gate, q);
      GatheredCovers(g, roots, gate, visited, included, q);
      assert IsParent(g, p[|p| - 2], p[|p| - 1]);
    }
  }

  lemma GatheredIsExact(g: Graph, roots: set<Oid>, gate: Gate, visited: set<Oid>, included: set<Oid>)
    requires Gathered(g, roots, gate, visited, included, {})
    ensures forall x :: x in included <==> IsIncluded(g, roots, gate, x)
  {
    forall x ensures x in included <==> IsIncluded(g, roots, gate, x) {
      if x in included {
        assert IsMet(g, roots, gate, x);
        MetIncluded(g, roots, gate, x);
      }
      if IsIncluded(g, roots, gate, x) {
        var p: seq<Oid> :| IsAdmittedLine(g, roots, gate, p) && Last(p) == x;
        GatheredCovers(g, roots, gate, visited, included, p);
      }
    }
  }

  method AddParents(g: Graph, ghost roots: set<Oid>, ghost gate: Gate, id: Oid, visited: set<Oid>, pending: set<Oid>, work: Work)
    returns (r: Result<set<Oid>>)
    requires IsCommit(g, id) && IsIncluded(g, roots, gate, id)
    modifies work
    ensures r.Ok? ==> pending <= r.value
    ensures r.Ok? ==> forall x :: x in r.value - pending ==> IsMet(g, roots, gate, x)
    ensures r.Ok? ==> forall y :: IsParent(g, id, y) ==> y in visited + r.value
    ensures r.Err? ==> FromLedger(r.error) && work.refused
  {
    var edges := g[id].edges;
    var next := pending;
    for k := 0 to |edges|
      invariant pending <= next
      invariant forall x :: x in next - pending ==> IsMet(g, roots, gate, x)
      invariant forall j :: 0 <= j < k && edges[j].kind == Commit ==> edges[j].target in visited + next
    {
      :- work.Tick();
      if edges[k].kind == Commit && edges[k].target !in visited {
        assert edges[k] == Edge(edges[k].target, Commit);
        assert IsParent(g, id, edges[k].target);
        var added :- work.Insert(next, edges[k].target);
        next := added.0;
      }
    }
    return Ok(next);
  }

  lemma GatherSkip(g: Graph, roots: set<Oid>, gate: Gate, visited: set<Oid>, included: set<Oid>, pending: set<Oid>, id: Oid)
    requires Gathered(g, roots, gate, visited, included, pending) && id in pending && !Admits(g, gate, id)
    ensures Gathered(g, roots, gate, visited + {id}, included, pending - {id})
  {
  }

  lemma GatherEnter(g: Graph, roots: set<Oid>, gate: Gate, visited: set<Oid>, included: set<Oid>, pending: set<Oid>, id: Oid, next: set<Oid>)
    requires Gathered(g, roots, gate, visited, included, pending) && id in pending && Admits(g, gate, id)
    requires pending - {id} <= next
    requires forall x :: x in next - (pending - {id}) ==> IsMet(g, roots, gate, x)
    requires forall y :: IsParent(g, id, y) ==> y in visited + {id} + next
    ensures Gathered(g, roots, gate, visited + {id}, included + {id}, next)
  {
    forall x | x in visited + {id} + next ensures IsMet(g, roots, gate, x) {
      assert x in visited + pending || x in next - (pending - {id});
    }
  }

  /** What stops a traversal for good: it meets something missing, not a commit, or without the date it needs. */
  predicate IsObstacle(g: Graph, gate: Gate, x: Oid, e: Refusal) {
    x !in gate.excluded &&
    if x !in g then e == ClosureIncomplete
    else if g[x].kind != Commit then e == EvidenceInvalid
    else e == HeaderInvalid && gate.since.Some? && g[x].time == None
  }

  ghost predicate IsBlocked(g: Graph, roots: set<Oid>, gate: Gate, e: Refusal) {
    exists x :: IsMet(g, roots, gate, x) && IsObstacle(g, gate, x, e)
  }

  /** Every commit passes. */
  const OPEN := Gate({}, None)

  /** The whole ancestry of the roots; what was gathered also says what was visited. */
  method GatherAncestry(g: Graph, roots: set<Oid>, work: Work) returns (r: Result<set<Oid>>)
    modifies work
    ensures r.Ok? ==> forall x :: x in r.value <==> IsIncluded(g, roots, OPEN, x)
    ensures r.Err? ==> (FromLedger(r.error) && work.refused) || IsBlocked(g, roots, OPEN, r.error)
  {
    var pending := roots;
    var gathered: set<Oid> := {};
    while pending != {}
      invariant Gathered(g, roots, OPEN, gathered, gathered, pending)
      invariant gathered <= g.Keys
      decreases g.Keys - gathered, pending
    {
      var id := First(pending);
      assert IsMet(g, roots, OPEN, id);
      var added :- work.Insert(gathered, id);
      if !added.1 {
        assert gathered + (pending - {id}) == gathered + pending;
        pending := pending - {id};
        continue;
      }
      if id !in g {
        assert IsObstacle(g, OPEN, id, ClosureIncomplete);
        return Err(ClosureIncomplete);
      }
      if g[id].kind != Commit {
        assert IsObstacle(g, OPEN, id, EvidenceInvalid);
        return Err(EvidenceInvalid);
      }
      MetIncluded(g, roots, OPEN, id);
      var next :- AddParents(g, roots, OPEN, id, added.0, pending - {id}, work);
      GatherEnter(g, roots, OPEN, gathered, gathered, pending, id, next);
      pending, gathered := next, added.0;
    }
    GatheredIsExact(g, roots, OPEN, gathered, gathered);
    return Ok(gathered);
  }

  /** The admitted commits reachable from the roots through admitted commits. */
  method Gather(g: Graph, roots: set<Oid>, gate: Gate, work: Work) returns (r: Result<set<Oid>>)
    modifies work
    ensures r.Ok? ==> forall x :: x in r.value <==> IsIncluded(g, roots, gate, x)
    ensures r.Err? ==> (FromLedger(r.error) && work.refused) || IsBlocked(g, roots, gate, r.error)
  {
    var pending := roots;
    var visited: set<Oid> := {};
    var included: set<Oid> := {};
    while pending != {}
      invariant Gathered(g, roots, gate, visited, included, pending)
      invariant visited <= g.Keys + gate.excluded
      decreases g.Keys + gate.excluded - visited, pending
    {
      var id := First(pending);
      var added :- work.Insert(visited, id);
      if !added.1 {
        assert visited + (pending - {id}) == visited + pending;
        pending := pending - {id};
        continue;
      }
      if id in gate.excluded {
        GatherSkip(g, roots, gate, visited, included, pending, id);
        pending, visited := pending - {id}, added.0;
        continue;
      }
      assert IsMet(g, roots, gate, id);
      if id !in g {
        assert IsObstacle(g, gate, id, ClosureIncomplete);
        return Err(ClosureIncomplete);
      }
      var item := g[id];
      if item.kind != Commit {
        assert IsObstacle(g, gate, id, EvidenceInvalid);
        return Err(EvidenceInvalid);
      }
      if gate.since.Some? {
        if item.time == None {
          assert IsObstacle(g, gate, id, HeaderInvalid);
          return Err(HeaderInvalid);
        }
        if item.time.value < gate.since.value {
          GatherSkip(g, roots, gate, visited, included, pending, id);
          pending, visited := pending - {id}, added.0;
          continue;
        }
      }
      MetIncluded(g, roots, gate, id);
      var entered :- work.Insert(included, id);
      var next :- AddParents(g, roots, gate, id, added.0, pending - {id}, work);
      GatherEnter(g, roots, gate, visited, included, pending, id, next);
      pending, visited, included := next, added.0, entered.0;
    }
    GatheredIsExact(g, roots, gate, visited, included);
    return Ok(included);
  }
}
