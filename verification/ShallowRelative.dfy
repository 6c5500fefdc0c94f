/** Relative deepening: the requested increment is added to the depth of the nearest client boundary. */
module ShallowRelative {
  import opened Bytes
  import opened ShallowGraph
  import opened ShallowWork
  import opened ShallowDepth
  import opened ShallowExplore
  import opened ShallowBall

  /** `k` is the least depth of a client boundary in wanted history, or 0 when there is none. */
  ghost predicate IsNearest(g: Graph, wants: seq<Oid>, known: set<Oid>, k: nat) {
    && (k > 0 ==> exists p: seq<Oid> :: IsLine(g, wants, p) && Last(p) in known && Depth(g, p) == k)
    && forall p: seq<Oid> :: IsLine(g, wants, p) && Last(p) in known ==> 0 < k <= Depth(g, p)
  }

  const NO_STOP := Rule(Some(INFINITE_DEPTH), {})

  /** A line either stays among settled objects or costs at least the first pending depth. */
  lemma {:induction false} LineMeetsFront(g: Graph, wants: seq<Oid>, f: Front, settled: set<Oid>, least: nat, p: seq<Oid>)
    requires Core(g, wants, f, settled, settled, {}) && Started(wants, f)
    requires forall e :: e in f.pending ==> least <= e.0
    requires IsLine(g, wants, p)
    ensures (Last(p) in settled && f.depths[Last(p)] <= Depth(g, p))
            || (least <= Depth(g, p) && f.pending != {})
    decreases |p|
  {
    if |p| > 1 {
      var q, x, y := p[..|p| - 1], p[|p| - 2], p[|p| - 1];
      LinePrefix(g, wants, p, |p| - 1);
      LineMeetsFront(g, wants, f, settled, least, q);
      assert Depth(g, p) == Depth(g, q) + StepCost(g, x);
      if x in settled {
        assert Precedes(g, p[|p| - 2], p[|p| - 1]) && x in settled - {};
        assert IsRelaxed(g, f, x, y);
        assert y in settled || (f.depths[y], y) in f.pending;
      }
    } else {
      var w := p[0];
      assert w in wants;
      assert w in settled || (f.depths[w], w) in f.pending;
    }
  }

  lemma FoundIsNearest(g: Graph, wants: seq<Oid>, known: set<Oid>, f: Front, settled: set<Oid>, m: (nat, Oid))
    requires Core(g, wants, f, settled, settled, {}) && Started(wants, f)
    requires m in f.pending && forall e :: e in f.pending ==> Precedence(m, e)
    requires m.1 in known && known !! settled
    ensures IsNearest(g, wants, known, m.0)
  {
    forall p: seq<Oid> | IsLine(g, wants, p) && Last(p) in known ensures 0 < m.0 <= Depth(g, p) {
      LineMeetsFront(g, wants, f, settled, m.0, p);
      assert HasLine(g, wants, settled, m.1, f.depths[m.1]);
    }
    assert HasLine(g, wants, settled, m.1, f.depths[m.1]);
    var p: seq<Oid> :| IsLineTo(g, wants, settled, m.1, f.depths[m.1], p);
  }

  lemma NoneIsNearest(g: Graph, wants: seq<Oid>, known: set<Oid>, f: Front, settled: set<Oid>)
    requires Core(g, wants, f, settled, settled, {}) && Started(wants, f)
    requires f.pending == {} && known !! settled
    ensures IsNearest(g, wants, known, 0)
  {
    forall p: seq<Oid> | IsLine(g, wants, p) ensures Last(p) !in known {
      LineMeetsFront(g, wants, f, settled, 0, p);
    }
  }

  /** Until a client boundary is met, whatever is discovered lies on a line that passes through none. */
  lemma LineShortOf(g: Graph, wants: seq<Oid>, known: set<Oid>, f: Front, settled: set<Oid>, commits: set<Oid>, id: Oid)
    requires LoopInv(g, wants, NO_STOP, f, settled, commits, {}) && known !! settled && id in f.depths
    ensures exists p: seq<Oid> :: IsFollowed(g, wants, Rule(None, known), p) && Last(p) == id
    ensures f.depths[id] >= U32_MAX ==> IsTooDeep(g, wants, Rule(None, known))
  {
    assert settled - {} == settled;
    assert HasLine(g, wants, settled, id, f.depths[id]);
    var p: seq<Oid> :| IsLineTo(g, wants, settled, id, f.depths[id], p);
    assert IsFollowed(g, wants, Rule(None, known), p);
  }

  method Nearest(g: Graph, wants: seq<Oid>, known: set<Oid>, work: Work) returns (r: Result<nat>)
    requires forall x :: x in known ==> IsCommit(g, x)
    modifies work
    ensures r.Ok? ==> IsNearest(g, wants, known, r.value)
    ensures r.Err? ==> IsJustified(g, wants, Rule(None, known), r.error)
    ensures r.Err? && FromLedger(r.error) ==> work.refused || IsTooDeep(g, wants, Rule(None, known))
  {
    if known == {} {
      :- work.Tick();
      return Ok(0);
    }
    var f :- Seed(g, wants, work);
    ghost var settled, commits: set<Oid> := {}, {};
    assert settled - {} == {};
    while f.pending != {}
      invariant LoopInv(g, wants, NO_STOP, f, settled, commits, {}) && known !! settled
      decreases g.Keys - settled
    {
      var entry := FirstPair(f.pending);
      var depth, id := entry.0, entry.1;
      assert settled - {} == settled;
      :- work.Tick();
      LineShortOf(g, wants, known, f, settled, commits, id);
      var item :- Lookup(g, id);
      if item.kind == Commit && id in known {
        FoundIsNearest(g, wants, known, f, settled, entry);
        :- work.Tick();
        return Ok(depth);
      }
      OpenStep(g, wants, NO_STOP, f, settled, commits, {}, entry);
      assert settled + {id} - {} == settled + {id};
      var after :- Expand(g, wants, f.(pending := f.pending - {entry}), settled + {id}, settled + {id}, id, depth, work);
      ExpandedStep(g, wants, NO_STOP, f, settled, commits, {}, entry, after);
      commits := if IsCommit(g, id) then commits + {id} else commits;
      f, settled := after, settled + {id};
    }
    assert settled - {} == settled;
    NoneIsNearest(g, wants, known, f, settled);
    :- work.Tick();
    return Ok(0);
  }

  /** The depth a request asks for, once relative requests are resolved. */
  ghost predicate IsEffectiveDepth(g: Graph, req: Request, known: set<Oid>, depth: Option<nat>) {
    if !req.relative then depth == req.deepen
    else
      && req.deepen.Some? && 1 <= req.deepen.value <= INFINITE_DEPTH
      && req.since == None && req.exclude == []
      && (if req.deepen.value == INFINITE_DEPTH then depth == Some(INFINITE_DEPTH)
          else exists k: nat :: IsNearest(g, req.wants, known, k)
                                && req.deepen.value + k <= INFINITE_DEPTH
                                && depth == Some(req.deepen.value + k))
  }

  /** A relative request that reaches past the largest depth. */
  ghost predicate IsOverlong(g: Graph, req: Request, known: set<Oid>) {
    req.relative && req.deepen.Some? && exists k: nat :: IsNearest(g, req.wants, known, k) && req.deepen.value + k > INFINITE_DEPTH
  }

  method EffectiveDepth(g: Graph, req: Request, known: set<Oid>, work: Work) returns (r: Result<Option<nat>>)
    requires forall x :: x in known ==> IsCommit(g, x)
    modifies work
    ensures r.Ok? ==> IsEffectiveDepth(g, req, known, r.value)
    ensures r.Err? ==> IsJustified(g, req.wants, Rule(None, known), r.error)
                       || (r.error == UnsupportedFetch && req.relative
                           && !(req.deepen.Some? && 1 <= req.deepen.value <= INFINITE_DEPTH
                                && req.since == None && req.exclude == []))
    ensures r.Err? && FromLedger(r.error) ==>
      work.refused || IsTooDeep(g, req.wants, Rule(None, known)) || IsOverlong(g, req, known)
    ensures r.Err? ==> req.relative
  {
    if !req.relative {
      return Ok(req.deepen);
    }
    if req.deepen == None || req.deepen.value < 1 || req.deepen.value > INFINITE_DEPTH {
      return Err(UnsupportedFetch);
    }
    if req.since.Some? || req.exclude != [] {
      return Err(UnsupportedFetch);
    }
    var increment: nat := req.deepen.value;
    if increment == INFINITE_DEPTH {
      return Ok(Some(INFINITE_DEPTH));
    }
    var offset :- Nearest(g, req.wants, known, work);
    if increment + offset > INFINITE_DEPTH {
      return Err(BudgetExceeded);
    }
    return Ok(Some(increment + offset));
  }

  /** A relative deepening always crosses a nearest boundary: it is visited and not on the new rim. */
  lemma RelativeCrossesNearest(g: Graph, req: Request, known: set<Oid>, depth: Option<nat>, p: seq<Oid>)
    requires req.relative && IsEffectiveDepth(g, req, known, depth)
    requires IsLine(g, req.wants, p) && Last(p) in known && IsCommit(g, Last(p))
    requires req.deepen.value < INFINITE_DEPTH && IsNearest(g, req.wants, known, Depth(g, p))
    ensures IsVisited(g, req.wants, Rule(depth, known), Last(p))
    ensures !IsRim(g, req.wants, Rule(depth, known), Last(p))
  {
    var k: nat :| IsNearest(g, req.wants, known, k) && depth == Some(req.deepen.value + k);
    var q: seq<Oid> :| IsLine(g, req.wants, q) && Last(q) in known && Depth(g, q) == k;
    assert k == Depth(g, p);
    assert IsAllowed(g, Rule(depth, known), p);
  }
}
