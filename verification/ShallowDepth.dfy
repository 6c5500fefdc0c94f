/**
 Shortest-depth exploration of wanted history. Entries are settled in
 ascending (depth, identity) order; tags cost nothing and each parent edge
 costs one, so a settled depth is final and a boundary is decided once.
 */
module ShallowDepth {
  import opened Bytes
  import opened ShallowGraph
  import opened ShallowWork

  /** Where history stops: at a depth, or at the client's own boundaries. */
  datatype Rule = Rule(depth: Option<nat>, known: set<Oid>)

  predicate StopsAt(rule: Rule, id: Oid, depth: nat) {
    match rule.depth
    case None => id in rule.known
    case Some(maximum) => maximum != INFINITE_DEPTH && depth >= maximum
  }

  datatype Front = Front(depths: map<Oid, nat>, pending: set<(nat, Oid)>)

  /** Keep the smaller depth; a smaller one replaces the pending entry. */
  function Enqueued(f: Front, id: Oid, depth: nat): Front {
    if id in f.depths && f.depths[id] <= depth then f
    else Front(f.depths[id := depth],
               (if id in f.depths then f.pending - {(f.depths[id], id)} else f.pending) + {(depth, id)})
  }

  method Enqueue(f: Front, id: Oid, depth: nat, work: Work) returns (r: Result<Front>)
    modifies work
    ensures r.Ok? ==> r.value == Enqueued(f, id, depth)
    ensures r.Err? ==> FromLedger(r.error) && work.refused
  {
    var reached := id in f.depths && f.depths[id] <= depth;
    :- work.Tick();
    if reached {
      return Ok(f);
    }
    :- work.Count(|f.depths| + if id in f.depths then 0 else 1);
    var pending := if id in f.depths then f.pending - {(f.depths[id], id)} else f.pending;
    var added :- work.Insert(pending, (depth, id));
    return Ok(Front(f.depths[id := depth], added.0));
  }

  // ----- the exploration invariant -----

  /** A line of history to `x` of depth `d` whose inner objects are all expanded. */
  ghost predicate IsLineTo(g: Graph, wants: seq<Oid>, open: set<Oid>, x: Oid, d: nat, p: seq<Oid>) {
    && IsLine(g, wants, p) && Last(p) == x && Depth(g, p) == d
    && forall i :: 0 <= i < |p| - 1 ==> p[i] in open
  }

  ghost predicate HasLine(g: Graph, wants: seq<Oid>, open: set<Oid>, x: Oid, d: nat) {
    exists p: seq<Oid> :: IsLineTo(g, wants, open, x, d, p)
  }

  /** Pending entries are current, and everything not pending is settled. */
  predicate Tracked(f: Front, settled: set<Oid>) {
    && (forall e :: e in f.pending ==> e.1 in f.depths && f.depths[e.1] == e.0 && e.1 !in settled)
    && (forall x :: x in f.depths ==> x in settled || (f.depths[x], x) in f.pending)
    && settled <= f.depths.Keys
  }

  ghost predicate Sound(g: Graph, wants: seq<Oid>, f: Front, open: set<Oid>) {
    forall x {:trigger HasLine(g, wants, open, x, f.depths[x])} ::
      x in f.depths ==> HasLine(g, wants, open, x, f.depths[x])
  }

  predicate IsRelaxed(g: Graph, f: Front, x: Oid, y: Oid)
    requires x in f.depths
  {
    y in f.depths && f.depths[y] <= f.depths[x] + StepCost(g, x)
  }

  ghost predicate Relaxed(g: Graph, f: Front, open: set<Oid>)
    requires open <= f.depths.Keys
  {
    forall x, y {:trigger IsRelaxed(g, f, x, y)} ::
      x in open && Precedes(g, x, y) ==> IsRelaxed(g, f, x, y)
  }

  /** Settled depths are at most `d` and pending ones at least `d`. */
  predicate Level(f: Front, settled: set<Oid>, d: nat)
    requires settled <= f.depths.Keys
  {
    && (forall s :: s in settled ==> f.depths[s] <= d)
    && (forall e :: e in f.pending ==> d <= e.0)
  }

  /** `open` is what may be walked through; `busy` is the part still being expanded. */
  ghost predicate Core(g: Graph, wants: seq<Oid>, f: Front, settled: set<Oid>, open: set<Oid>, busy: set<Oid>) {
    && Tracked(f, settled)
    && open <= settled <= g.Keys
    && Sound(g, wants, f, open)
    && Relaxed(g, f, open - busy)
  }

  ghost predicate Started(wants: seq<Oid>, f: Front) {
    forall w :: w in wants ==> w in f.depths && f.depths[w] <= 1
  }

  /** Enqueueing never raises a depth. */
  ghost predicate Lowers(f: Front, next: Front) {
    && f.depths.Keys <= next.depths.Keys
    && forall x :: x in f.depths ==> next.depths[x] <= f.depths[x]
  }

  lemma EnqueueTracked(f: Front, settled: set<Oid>, y: Oid, d: nat)
    requires Tracked(f, settled) && y in settled ==> f.depths[y] <= d
    requires Tracked(f, settled)
    ensures Tracked(Enqueued(f, y, d), settled)
    ensures Lowers(f, Enqueued(f, y, d))
    ensures forall s :: s in settled ==> Enqueued(f, y, d).depths[s] == f.depths[s]
    ensures y in Enqueued(f, y, d).depths && Enqueued(f, y, d).depths[y] <= d
  {
  }

  lemma EnqueueRelaxed(g: Graph, f: Front, settled: set<Oid>, open: set<Oid>, y: Oid, d: nat)
    requires Tracked(f, settled) && open <= settled && Relaxed(g, f, open)
    requires y in settled ==> f.depths[y] <= d
    ensures open <= Enqueued(f, y, d).depths.Keys && Relaxed(g, Enqueued(f, y, d), open)
  {
    EnqueueTracked(f, settled, y, d);
    var n := Enqueued(f, y, d);
    forall x, z | x in open && Precedes(g, x, z)
      ensures IsRelaxed(g, n, x, z)
    {
      assert IsRelaxed(g, f, x, z);
    }
  }

  lemma EnqueueSound(g: Graph, wants: seq<Oid>, f: Front, open: set<Oid>, x: Oid, y: Oid, d: nat)
    requires Sound(g, wants, f, open) && x in open && x in f.depths && Precedes(g, x, y)
    requires d == f.depths[x] + StepCost(g, x)
    ensures Sound(g, wants, Enqueued(f, y, d), open)
  {
    assert HasLine(g, wants, open, x, f.depths[x]);
    var p: seq<Oid> :| IsLineTo(g, wants, open, x, f.depths[x], p);
    LineExtend(g, wants, p, y);
    DepthExtend(g, p, y);
    assert IsLineTo(g, wants, open, y, d, p + [y]);
  }

  /** `x` is being expanded: `f` came from `f0` by lowering unsettled depths only. */
  ghost predicate Expanding(g: Graph, wants: seq<Oid>, f0: Front, f: Front, settled: set<Oid>, open: set<Oid>, x: Oid) {
    && x in open && Core(g, wants, f, settled, open, {x})
    && Lowers(f0, f) && settled <= f0.depths.Keys
    && (forall s :: s in settled ==> f.depths[s] == f0.depths[s])
    && Level(f, settled, f0.depths[x])
  }

  lemma EnqueueCore(g: Graph, wants: seq<Oid>, f: Front, settled: set<Oid>, open: set<Oid>, x: Oid, y: Oid, d: nat)
    requires Core(g, wants, f, settled, open, {x}) && x in open && Precedes(g, x, y)
    requires d == f.depths[x] + StepCost(g, x) && (y in settled ==> f.depths[y] <= d)
    ensures Core(g, wants, Enqueued(f, y, d), settled, open, {x})
  {
    EnqueueTracked(f, settled, y, d);
    EnqueueRelaxed(g, f, settled, open - {x}, y, d);
    EnqueueSound(g, wants, f, open, x, y, d);
  }

  /** Reaching `y` from an expanded `x` keeps the exploration sound. */
  lemma EnqueueStep(g: Graph, wants: seq<Oid>, f0: Front, f: Front, settled: set<Oid>, open: set<Oid>, x: Oid, y: Oid)
    requires Expanding(g, wants, f0, f, settled, open, x) && Precedes(g, x, y)
    ensures var n := Enqueued(f, y, f0.depths[x] + StepCost(g, x));
            && Expanding(g, wants, f0, n, settled, open, x)
            && Lowers(f, n) && IsRelaxed(g, n, x, y)
  {
    var d := f0.depths[x] + StepCost(g, x);
    EnqueueTracked(f, settled, y, d);
    EnqueueCore(g, wants, f, settled, open, x, y, d);
  }

  lemma StillRelaxed(g: Graph, f: Front, n: Front, x: Oid, y: Oid)
    requires x in f.depths && IsRelaxed(g, f, x, y) && Lowers(f, n) && n.depths[x] == f.depths[x]
    ensures IsRelaxed(g, n, x, y)
  {
  }

  lemma EnqueueWant(g: Graph, wants: seq<Oid>, f: Front, w: Oid)
    requires Core(g, wants, f, {}, {}, {}) && Level(f, {}, 1) && w in wants
    ensures var n := Enqueued(f, w, 1);
            Core(g, wants, n, {}, {}, {}) && Level(n, {}, 1) && Lowers(f, n) && w in n.depths && n.depths[w] <= 1
  {
    EnqueueTracked(f, {}, w, 1);
    assert IsLineTo(g, wants, {}, w, 1, [w]);
  }

  /** Starts every want at depth one. */
  method Seed(g: Graph, wants: seq<Oid>, work: Work) returns (r: Result<Front>)
    modifies work
    ensures r.Ok? ==> Core(g, wants, r.value, {}, {}, {}) && Level(r.value, {}, 1) && Started(wants, r.value)
    ensures r.Err? ==> FromLedger(r.error) && work.refused
  {
    var f := Front(map[], {});
    for k := 0 to |wants|
      invariant Core(g, wants, f, {}, {}, {}) && Level(f, {}, 1) && Started(wants[..k], f)
    {
      EnqueueWant(g, wants, f, wants[k]);
      assert wants[..k + 1] == wants[..k] + [wants[k]];
      f :- Enqueue(f, wants[k], 1, work);
    }
    assert wants[..|wants|] == wants;
    return Ok(f);
  }

  // ----- settling one entry -----

  lemma SettleTracked(f: Front, settled: set<Oid>, id: Oid)
    requires Tracked(f, settled) && id in f.depths && (f.depths[id], id) in f.pending
    ensures Tracked(f.(pending := f.pending - {(f.depths[id], id)}), settled + {id})
  {
  }

  /** A boundary is settled without being expanded. */
  lemma SettleStopped(g: Graph, wants: seq<Oid>, f: Front, settled: set<Oid>, open: set<Oid>, id: Oid)
    requires Core(g, wants, f, settled, open, {}) && id in g
    requires id in f.depths && (f.depths[id], id) in f.pending
    ensures Core(g, wants, f.(pending := f.pending - {(f.depths[id], id)}), settled + {id}, open, {})
  {
    SettleTracked(f, settled, id);
    var n := f.(pending := f.pending - {(f.depths[id], id)});
    forall x, y | x in open - {} && Precedes(g, x, y) ensures IsRelaxed(g, n, x, y) {
      assert IsRelaxed(g, f, x, y);
    }
  }

  lemma WiderLine(g: Graph, wants: seq<Oid>, open: set<Oid>, wider: set<Oid>, x: Oid, d: nat)
    requires HasLine(g, wants, open, x, d) && open <= wider
    ensures HasLine(g, wants, wider, x, d)
  {
    var p: seq<Oid> :| IsLineTo(g, wants, open, x, d, p);
    assert IsLineTo(g, wants, wider, x, d, p);
  }

  /** An ordinary object is settled and then expanded. */
  lemma SettleOpen(g: Graph, wants: seq<Oid>, f: Front, settled: set<Oid>, open: set<Oid>, id: Oid)
    requires Core(g, wants, f, settled, open, {}) && id in g
    requires id in f.depths && (f.depths[id], id) in f.pending
    ensures Core(g, wants, f.(pending := f.pending - {(f.depths[id], id)}), settled + {id}, open + {id}, {id})
  {
    SettleTracked(f, settled, id);
    var n := f.(pending := f.pending - {(f.depths[id], id)});
    assert id !in settled;
    forall x | x in n.depths ensures HasLine(g, wants, open + {id}, x, n.depths[x]) {
      WiderLine(g, wants, open, open + {id}, x, f.depths[x]);
    }
    assert open + {id} - {id} == open;
    forall x, y | x in open && Precedes(g, x, y) ensures IsRelaxed(g, n, x, y) {
      assert x in open - {};
      assert IsRelaxed(g, f, x, y);
    }
  }

  /** A line the rule lets history follow to its end. */
  predicate IsAllowed(g: Graph, rule: Rule, p: seq<Oid>)
    requires |p| >= 1
  {
    match rule.depth
    case None => forall i :: 0 <= i < |p| - 1 ==> !(p[i] in rule.known && IsCommit(g, p[i]))
    case Some(maximum) => maximum == INFINITE_DEPTH || Depth(g, p) <= maximum
  }

  predicate IsProper(rule: Rule) {
    rule.depth.Some? ==> rule.depth.value >= 1
  }

  /** A line an exploration under the rule may come to. */
  ghost predicate IsFollowed(g: Graph, wants: seq<Oid>, rule: Rule, p: seq<Oid>) {
    IsLine(g, wants, p) && (IsProper(rule) ==> IsAllowed(g, rule, p))
  }

  /** A tag that does not name exactly one target. */
  predicate IsBadTag(g: Graph, id: Oid) {
    id in g && g[id].kind == Tag && |g[id].edges| != 1
  }

  /** Why an exploration may be refused other than by the ledger: a line it follows ends badly. */
  ghost predicate IsJustified(g: Graph, wants: seq<Oid>, rule: Rule, e: Refusal) {
    || FromLedger(e)
    || (e == ClosureIncomplete && exists p: seq<Oid> :: IsFollowed(g, wants, rule, p) && Last(p) !in g)
    || (e == EvidenceInvalid && exists p: seq<Oid> :: IsFollowed(g, wants, rule, p) && IsBadTag(g, Last(p)))
  }

  /** A line so long that the depth past its end does not fit 32 bits. */
  ghost predicate IsTooDeep(g: Graph, wants: seq<Oid>, rule: Rule) {
    exists p: seq<Oid> :: IsFollowed(g, wants, rule, p) && Depth(g, p) >= U32_MAX
  }

  /** Expands one settled object: a tag to its target, a commit to its parents. */
  method Expand(g: Graph, ghost wants: seq<Oid>, f0: Front, ghost settled: set<Oid>, ghost open: set<Oid>,
                id: Oid, depth: nat, work: Work) returns (r: Result<Front>)
    requires Expanding(g, wants, f0, f0, settled, open, id) && f0.depths[id] == depth
    modifies work
    ensures r.Ok? ==> && Expanding(g, wants, f0, r.value, settled, open, id)
                      && Core(g, wants, r.value, settled, open, {}) && !IsBadTag(g, id)
    ensures r.Err? ==> (FromLedger(r.error) && (work.refused || depth >= U32_MAX))
                       || (r.error == EvidenceInvalid && IsBadTag(g, id))
  {
    var item := g[id];
    var f := f0;
    if item.kind == Tag {
      if |item.edges| != 1 {
        return Err(EvidenceInvalid);
      }
      EnqueueStep(g, wants, f0, f, settled, open, id, item.edges[0].target);
      f :- Enqueue(f, item.edges[0].target, depth, work);
    } else if item.kind == Commit {
      if depth >= U32_MAX {
        return Err(BudgetExceeded);
      }
      f :- Parents(g, wants, f, settled, open, id, depth, work);
    }
    RelaxedAll(g, f, open, id);
    return Ok(f);
  }

  lemma RelaxedAll(g: Graph, f: Front, open: set<Oid>, id: Oid)
    requires open <= f.depths.Keys && id in open && Relaxed(g, f, open - {id})
    requires forall y :: Precedes(g, id, y) ==> IsRelaxed(g, f, id, y)
    ensures Relaxed(g, f, open - {})
  {
    forall x, y | x in open && Precedes(g, x, y) ensures IsRelaxed(g, f, x, y) {
      if x != id {
        assert x in open - {id};
      }
    }
  }

  /** The first `k` edges' parents are relaxed. */
  ghost predicate AreRelaxed(g: Graph, f: Front, x: Oid, edges: seq<Edge>, k: nat) {
    k <= |edges| && x in f.depths &&
    forall j :: 0 <= j < k && edges[j].kind == Commit ==> IsRelaxed(g, f, x, edges[j].target)
  }

  lemma ParentStep(g: Graph, wants: seq<Oid>, f0: Front, f: Front, settled: set<Oid>, open: set<Oid>, x: Oid, k: nat)
    requires Expanding(g, wants, f0, f, settled, open, x) && g[x].kind == Commit
    requires k < |g[x].edges| && g[x].edges[k].kind == Commit && AreRelaxed(g, f, x, g[x].edges, k)
    ensures var n := Enqueued(f, g[x].edges[k].target, f0.depths[x] + 1);
      Expanding(g, wants, f0, n, settled, open, x) && AreRelaxed(g, n, x, g[x].edges, k + 1)
  {
    var edges := g[x].edges;
    assert edges[k] == Edge(edges[k].target, Commit);
    EnqueueStep(g, wants, f0, f, settled, open, x, edges[k].target);
    var n := Enqueued(f, edges[k].target, f0.depths[x] + 1);
    forall j | 0 <= j < k && edges[j].kind == Commit ensures IsRelaxed(g, n, x, edges[j].target) {
      StillRelaxed(g, f, n, x, edges[j].target);
    }
  }

  method Parents(g: Graph, ghost wants: seq<Oid>, f0: Front, ghost settled: set<Oid>, ghost open: set<Oid>,
                 id: Oid, depth: nat, work: Work) returns (r: Result<Front>)
    requires Expanding(g, wants, f0, f0, settled, open, id) && f0.depths[id] == depth && g[id].kind == Commit
    modifies work
    ensures r.Ok? ==> && Expanding(g, wants, f0, r.value, settled, open, id)
                      && forall y :: Precedes(g, id, y) ==> IsRelaxed(g, r.value, id, y)
    ensures r.Err? ==> FromLedger(r.error) && work.refused
  {
    var edges := g[id].edges;
    var f := f0;
    for k := 0 to |edges|
      invariant Expanding(g, wants, f0, f, settled, open, id)
      invariant AreRelaxed(g, f, id, edges, k)
    {
      :- work.Tick();
      if edges[k].kind == Commit {
        ParentStep(g, wants, f0, f, settled, open, id, k);
        f :- Enqueue(f, edges[k].target, depth + 1, work);
      }
    }
    forall y | Precedes(g, id, y) ensures IsRelaxed(g, f, id, y) {
      var j :| 0 <= j < |edges| && edges[j] == Edge(y, Commit);
    }
    return Ok(f);
  }
}
