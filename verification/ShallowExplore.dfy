/**
 The exploration loop, and what its result means: depths are shortest depths,
 the explored set is exactly the ball, and boundaries are exactly its rim.
 */
module ShallowExplore {
  import opened ShallowGraph
  import opened ShallowWork
  import opened ShallowDepth

  datatype Explored = Explored(depths: map<Oid, nat>, commits: set<Oid>, boundaries: set<Oid>)

  /** Commits and boundaries among the settled objects. */
  predicate Decided(g: Graph, rule: Rule, depths: map<Oid, nat>, settled: set<Oid>, commits: set<Oid>, boundaries: set<Oid>) {
    && settled <= depths.Keys
    && commits == (set s | s in settled && IsCommit(g, s))
    && boundaries == (set s | s in settled && IsCommit(g, s) && StopsAt(rule, s, depths[s]))
    && forall s :: s in settled ==> !IsBadTag(g, s)
  }

  predicate Ordered(f: Front, settled: set<Oid>)
    requires settled <= f.depths.Keys
  {
    forall s, e :: s in settled && e in f.pending ==> f.depths[s] <= e.0
  }

  /** A finished exploration: everything discovered is settled. */
  ghost predicate IsExploration(g: Graph, wants: seq<Oid>, rule: Rule, e: Explored) {
    var f := Front(e.depths, {});
    var settled := e.depths.Keys;
    && Decided(g, rule, e.depths, settled, e.commits, e.boundaries)
    && Core(g, wants, f, settled, settled - e.boundaries, {})
    && Started(wants, f)
  }

  ghost predicate LoopInv(g: Graph, wants: seq<Oid>, rule: Rule, f: Front, settled: set<Oid>, commits: set<Oid>, boundaries: set<Oid>) {
    && Decided(g, rule, f.depths, settled, commits, boundaries)
    && Core(g, wants, f, settled, settled - boundaries, {})
    && Ordered(f, settled) && Started(wants, f)
  }

  /** Taking the first entry puts every other on its side of that depth. */
  lemma PopLevel(f: Front, settled: set<Oid>, m: (nat, Oid))
    requires Tracked(f, settled) && Ordered(f, settled)
    requires m in f.pending && forall x :: x in f.pending ==> Precedence(m, x)
    ensures m.1 in f.depths && f.depths[m.1] == m.0
    ensures Level(f.(pending := f.pending - {m}), settled + {m.1}, m.0)
  {
  }

  lemma StopStep(g: Graph, wants: seq<Oid>, rule: Rule, f: Front, settled: set<Oid>, commits: set<Oid>, boundaries: set<Oid>, m: (nat, Oid))
    requires LoopInv(g, wants, rule, f, settled, commits, boundaries)
    requires m in f.pending && (forall x :: x in f.pending ==> Precedence(m, x))
    requires IsCommit(g, m.1) && StopsAt(rule, m.1, m.0)
    ensures LoopInv(g, wants, rule, f.(pending := f.pending - {m}), settled + {m.1}, commits + {m.1}, boundaries + {m.1})
  {
    var open := settled - boundaries;
    PopLevel(f, settled, m);
    SettleStopped(g, wants, f, settled, open, m.1);
    assert settled + {m.1} - (boundaries + {m.1}) == open;
  }

  /** The state in which a popped, unstopped object is expanded. */
  lemma OpenStep(g: Graph, wants: seq<Oid>, rule: Rule, f: Front, settled: set<Oid>, commits: set<Oid>, boundaries: set<Oid>, m: (nat, Oid))
    requires LoopInv(g, wants, rule, f, settled, commits, boundaries)
    requires m in f.pending && (forall x :: x in f.pending ==> Precedence(m, x)) && m.1 in g
    ensures var n := f.(pending := f.pending - {m});
            && Expanding(g, wants, n, n, settled + {m.1}, settled + {m.1} - boundaries, m.1)
            && n.depths[m.1] == m.0 && m.1 !in settled
  {
    var open := settled - boundaries;
    PopLevel(f, settled, m);
    SettleOpen(g, wants, f, settled, open, m.1);
    assert m.1 !in settled && settled + {m.1} - boundaries == open + {m.1};
  }

  lemma ExpandedStep(g: Graph, wants: seq<Oid>, rule: Rule, f: Front, settled: set<Oid>, commits: set<Oid>, boundaries: set<Oid>,
                     m: (nat, Oid), after: Front)
    requires LoopInv(g, wants, rule, f, settled, commits, boundaries)
    requires m in f.pending && m.1 in g && m.1 !in settled
    requires (IsCommit(g, m.1) ==> !StopsAt(rule, m.1, m.0)) && !IsBadTag(g, m.1)
    requires Expanding(g, wants, f.(pending := f.pending - {m}), after, settled + {m.1}, settled + {m.1} - boundaries, m.1)
    requires Core(g, wants, after, settled + {m.1}, settled + {m.1} - boundaries, {})
    ensures LoopInv(g, wants, rule, after, settled + {m.1},
                    if IsCommit(g, m.1) then commits + {m.1} else commits, boundaries)
  {
    assert f.depths[m.1] == m.0;
    assert after.depths[m.1] == m.0;
    assert forall s :: s in settled ==> s in settled + {m.1} && after.depths[s] == f.depths[s];
  }

  // ----- depths met on the way -----

  /** On open lines recorded depths stay within a finite maximum, also through chains of tags, which are free. */
  lemma {:induction false} OpenIsBounded(g: Graph, wants: seq<Oid>, rule: Rule, f: Front, settled: set<Oid>, commits: set<Oid>,
                                         boundaries: set<Oid>, p: seq<Oid>)
    requires Decided(g, rule, f.depths, settled, commits, boundaries)
    requires Core(g, wants, f, settled, settled - boundaries, {}) && Started(wants, f)
    requires IsProper(rule) && rule.depth.Some? && rule.depth.value != INFINITE_DEPTH
    requires IsLine(g, wants, p) && forall i :: 0 <= i < |p| - 1 ==> p[i] in settled - boundaries
    ensures Last(p) in f.depths && f.depths[Last(p)] <= rule.depth.value
    decreases |p|
  {
    if |p| > 1 {
      var q, y := p[..|p| - 1], p[|p| - 2];
      LinePrefix(g, wants, p, |p| - 1);
      OpenIsBounded(g, wants, rule, f, settled, commits, boundaries, q);
      assert Precedes(g, p[|p| - 2], p[|p| - 1]) && y in settled - boundaries - {};
      assert IsRelaxed(g, f, y, p[|p| - 1]);
      if IsCommit(g, y) { assert !StopsAt(rule, y, f.depths[y]); }
    } else {
      assert p[0] in wants;
    }
  }

  /** Whatever is discovered lies on a line the rule lets history follow, at the recorded depth. */
  lemma LineTo(g: Graph, wants: seq<Oid>, rule: Rule, f: Front, settled: set<Oid>, commits: set<Oid>, boundaries: set<Oid>,
               id: Oid)
    requires Decided(g, rule, f.depths, settled, commits, boundaries)
    requires Core(g, wants, f, settled, settled - boundaries, {}) && Started(wants, f) && id in f.depths
    ensures exists p: seq<Oid> :: IsFollowed(g, wants, rule, p) && Last(p) == id && Depth(g, p) == f.depths[id]
    ensures f.depths[id] >= U32_MAX ==> IsTooDeep(g, wants, rule)
  {
    var open := settled - boundaries;
    assert HasLine(g, wants, open, id, f.depths[id]);
    var p: seq<Oid> :| IsLineTo(g, wants, open, id, f.depths[id], p);
    if IsProper(rule) {
      match rule.depth
      case None =>
        forall i | 0 <= i < |p| - 1 ensures !(p[i] in rule.known && IsCommit(g, p[i])) {
          assert p[i] in open;
        }
      case Some(maximum) =>
        if maximum != INFINITE_DEPTH { OpenIsBounded(g, wants, rule, f, settled, commits, boundaries, p); }
    }
    assert IsFollowed(g, wants, rule, p);
  }

  method Explore(g: Graph, wants: seq<Oid>, rule: Rule, work: Work) returns (r: Result<Explored>)
    modifies work
    ensures r.Ok? ==> IsExploration(g, wants, rule, r.value)
    ensures r.Err? ==> IsJustified(g, wants, rule, r.error)
    ensures r.Err? && FromLedger(r.error) ==> work.refused || IsTooDeep(g, wants, rule)
  {
    var f :- Seed(g, wants, work);
    var commits: set<Oid> := {};
    var boundaries: set<Oid> := {};
    ghost var settled: set<Oid> := {};
    assert settled - boundaries == {};
    while f.pending != {}
      invariant LoopInv(g, wants, rule, f, settled, commits, boundaries)
      decreases g.Keys - settled
    {
      var entry := FirstPair(f.pending);
      var depth, id := entry.0, entry.1;
      :- work.Tick();
      // Pending entries are always current, so the staleness test cannot fire.
      assert f.depths[id] == depth && id !in settled;
      LineTo(g, wants, rule, f, settled, commits, boundaries, id);
      var item :- Lookup(g, id);
      if item.kind == Commit {
        var added :- work.Insert(commits, id);
        if StopsAt(rule, id, depth) {
          StopStep(g, wants, rule, f, settled, commits, boundaries, entry);
          var marked :- work.Insert(boundaries, id);
          f := f.(pending := f.pending - {entry});
          commits, boundaries, settled := added.0, marked.0, settled + {id};
          continue;
        }
        OpenStep(g, wants, rule, f, settled, commits, boundaries, entry);
        var after :- Expand(g, wants, f.(pending := f.pending - {entry}), settled + {id},
                            settled + {id} - boundaries, id, depth, work);
        ExpandedStep(g, wants, rule, f, settled, commits, boundaries, entry, after);
        commits := added.0;
        f, settled := after, settled + {id};
      } else {
        OpenStep(g, wants, rule, f, settled, commits, boundaries, entry);
        var after :- Expand(g, wants, f.(pending := f.pending - {entry}), settled + {id},
                            settled + {id} - boundaries, id, depth, work);
        ExpandedStep(g, wants, rule, f, settled, commits, boundaries, entry, after);
        f, settled := after, settled + {id};
      }
    }
    forall x | x in f.depths ensures x in settled {
      assert (f.depths[x], x) !in f.pending;
    }
    assert f.depths.Keys == settled && f == Front(f.depths, {});
    return Ok(Explored(f.depths, commits, boundaries));
  }
}
