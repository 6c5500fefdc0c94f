/** The answer depends on what a request names, not on the order or repetition in which it names it. */
module ShallowOrder {
  import opened Bytes
  import opened ShallowGraph
  import opened ShallowDepth
  import opened ShallowBall
  import opened ShallowRelative
  import opened ShallowCutoffs
  import opened ShallowHistory
  import opened ShallowSelect

  predicate NamesTheSame(a: Request, b: Request) {
    && Elements(a.wants) == Elements(b.wants) && Elements(a.haves) == Elements(b.haves)
    && Elements(a.shallows) == Elements(b.shallows) && Elements(a.exclude) == Elements(b.exclude)
    && a.deepen == b.deepen && a.relative == b.relative && a.since == b.since
  }

  lemma SameMembers(a: seq<Oid>, b: seq<Oid>)
    requires Elements(a) == Elements(b)
    ensures forall x :: x in a <==> x in b
    ensures a == [] <==> b == []
  {
    forall x ensures x in a <==> x in b {
      assert x in Elements(a) <==> x in Elements(b);
    }
    assert a != [] ==> a[0] in a;
    assert b != [] ==> b[0] in b;
  }

  lemma SameLine(g: Graph, a: seq<Oid>, b: seq<Oid>, p: seq<Oid>)
    requires Elements(a) == Elements(b) && IsLine(g, a, p)
    ensures IsLine(g, b, p)
  {
    SameMembers(a, b);
    var w := p[0];
    assert w in a && w in b;
  }

  lemma SameVisited(g: Graph, a: seq<Oid>, b: seq<Oid>, rule: Rule, x: Oid)
    requires Elements(a) == Elements(b) && IsVisited(g, a, rule, x)
    ensures IsVisited(g, b, rule, x)
  {
    var p: seq<Oid> :| IsLine(g, a, p) && Last(p) == x && IsAllowed(g, rule, p);
    SameLine(g, a, b, p);
  }

  lemma SameRim(g: Graph, a: seq<Oid>, b: seq<Oid>, rule: Rule, x: Oid)
    requires Elements(a) == Elements(b) && IsRim(g, a, rule, x)
    ensures IsRim(g, b, rule, x)
  {
    SameVisited(g, a, b, rule, x);
    forall p: seq<Oid> | IsLine(g, b, p) ensures IsLine(g, a, p) {
      SameLine(g, b, a, p);
    }
  }

  lemma SameNearest(g: Graph, a: seq<Oid>, b: seq<Oid>, known: set<Oid>, j: nat, k: nat)
    requires Elements(a) == Elements(b) && IsNearest(g, a, known, j) && IsNearest(g, b, known, k)
    ensures j == k
  {
    forall p: seq<Oid> ensures IsLine(g, a, p) <==> IsLine(g, b, p) {
      if IsLine(g, a, p) { SameLine(g, a, b, p); }
      if IsLine(g, b, p) { SameLine(g, b, a, p); }
    }
  }

  lemma SameEffectiveDepth(g: Graph, a: Request, b: Request, known: set<Oid>, d: Option<nat>, e: Option<nat>)
    requires NamesTheSame(a, b) && IsEffectiveDepth(g, a, known, d) && IsEffectiveDepth(g, b, known, e)
    ensures d == e
  {
    if a.relative && a.deepen.value != INFINITE_DEPTH {
      var j: nat :| IsNearest(g, a.wants, known, j) && d == Some(a.deepen.value + j);
      var k: nat :| IsNearest(g, b.wants, known, k) && e == Some(b.deepen.value + k);
      SameNearest(g, a.wants, b.wants, known, j, k);
    }
  }

  lemma SameUpdate(known: set<Oid>, boundaries: set<Oid>, removable: set<Oid>, u: Update, v: Update)
    requires IsUpdate(known, boundaries, removable, u) && IsUpdate(known, boundaries, removable, v)
    ensures u == v
  {
    AscendingUnique(u.shallow, v.shallow);
    AscendingUnique(u.unshallow, v.unshallow);
  }

  lemma SameDepthHistory(g: Graph, a: Request, b: Request, depth: Option<nat>, h: History, k: History)
    requires NamesTheSame(a, b) && h.known == k.known
    requires IsDepthHistory(g, a, depth, h) && IsDepthHistory(g, b, depth, k)
    ensures h == k
  {
    var rule := Rule(depth, h.known);
    forall x ensures x in h.boundaries <==> x in k.boundaries {
      if x in h.boundaries { SameRim(g, a.wants, b.wants, rule, x); }
      if x in k.boundaries { SameRim(g, b.wants, a.wants, rule, x); }
    }
    assert h.boundaries == k.boundaries;
    if a.deepen != None {
      var infinite := a.deepen == Some(INFINITE_DEPTH);
      var c :| IsVisitedCommits(g, a.wants, rule, c) && IsUpdate(h.known, h.boundaries, if infinite then h.known else c, h.update);
      var d :| IsVisitedCommits(g, b.wants, rule, d) && IsUpdate(k.known, k.boundaries, if infinite then k.known else d, k.update);
      forall x ensures x in c <==> x in d {
        if x in c { SameVisited(g, a.wants, b.wants, rule, x); }
        if x in d { SameVisited(g, b.wants, a.wants, rule, x); }
      }
      assert c == d;
      SameUpdate(h.known, h.boundaries, if infinite then h.known else c, h.update, k.update);
    }
  }

  lemma SameRoots(g: Graph, a: seq<Oid>, b: seq<Oid>, r: Oid)
    requires Elements(a) == Elements(b)
    ensures IsRootOf(g, a, r) <==> IsRootOf(g, b, r)
  {
    SameMembers(a, b);
  }

  lemma SameCut(g: Graph, a: Request, b: Request, c: Cut, d: Cut)
    requires NamesTheSame(a, b) && IsCut(g, a, c) && IsCut(g, b, d)
    ensures c == d
  {
    forall r ensures r in c.excludedRoots <==> r in d.excludedRoots { SameRoots(g, a.exclude, b.exclude, r); }
    assert c.excludedRoots == d.excludedRoots;
    forall x ensures x in c.excluded <==> x in d.excluded {
      assert x in c.excluded <==> IsIncluded(g, c.excludedRoots, Gate({}, None), x);
    }
    assert c.excluded == d.excluded;
    forall r ensures r in c.roots <==> r in d.roots { SameRoots(g, a.wants, b.wants, r); }
    assert c.roots == d.roots;
    forall x ensures x in c.included <==> x in d.included {
      assert x in c.included <==> IsIncluded(g, c.roots, Gate(c.excluded, a.since), x);
    }
    assert c.included == d.included;
  }

  /** Two requests that name the same things get the same history ... */
  lemma HistoryIsOrderFree(g: Graph, a: Request, b: Request, h: History, k: History)
    requires NamesTheSame(a, b) && IsHistory(g, a, h) && IsHistory(g, b, k)
    ensures h == k
  {
    SameMembers(a.shallows, b.shallows);
    SameMembers(a.exclude, b.exclude);
    forall x ensures x in h.known <==> x in k.known {
      assert x in h.known <==> x in a.shallows && x in g;
      assert x in k.known <==> x in b.shallows && x in g;
    }
    assert h.known == k.known;
    if WantsCutoffs(a) {
      var c :| IsCut(g, a, c) && IsCutHistory(g, c, h);
      var d :| IsCut(g, b, d) && IsCutHistory(g, d, k);
      SameCut(g, a, b, c, d);
      forall x ensures x in h.boundaries <==> x in k.boundaries {
        assert x in h.boundaries <==> x in c.included && HasOutsideParent(g, c.included, x);
      }
      assert h.boundaries == k.boundaries;
      SameUpdate(h.known, h.boundaries, c.included, h.update, k.update);
    } else {
      var d :| IsEffectiveDepth(g, a, h.known, d) && IsDepthHistory(g, a, d, h);
      var e :| IsEffectiveDepth(g, b, k.known, e) && IsDepthHistory(g, b, e, k);
      SameEffectiveDepth(g, a, b, h.known, d, e);
      SameDepthHistory(g, a, b, d, h, k);
    }
  }

  /** ... and the same selection, in the same order. */
  lemma SelectionIsOrderFree(g: Graph, a: Request, b: Request, h: History, x: seq<Oid>, y: seq<Oid>)
    requires NamesTheSame(a, b) && IsSelection(g, a, h, x) && IsSelection(g, b, h, y)
    ensures x == y
  {
    SameMembers(a.wants, b.wants);
    SameMembers(a.haves, b.haves);
    var r :| AreDesiredRoots(g, a, h, r)
             && forall i :: i in x <==> Reaches(g, r, h.boundaries, i) && !Reaches(g, HaveRoots(g, a), h.known, i);
    var s :| AreDesiredRoots(g, b, h, s)
             && forall i :: i in y <==> Reaches(g, s, h.boundaries, i) && !Reaches(g, HaveRoots(g, b), h.known, i);
    forall i ensures i in r <==> i in s {
      assert IsDesiredRoot(g, a, h, i) <==> IsDesiredRoot(g, b, h, i);
    }
    assert r == s;
    forall i ensures i in HaveRoots(g, a) <==> i in HaveRoots(g, b) {
      assert i in HaveRoots(g, a) <==> i in a.haves && i in g;
      assert i in HaveRoots(g, b) <==> i in b.haves && i in g;
    }
    assert HaveRoots(g, a) == HaveRoots(g, b);
    forall i ensures i in Elements(x) <==> i in Elements(y) {
      assert i in Elements(x) <==> i in x;
      assert i in Elements(y) <==> i in y;
    }
    assert Elements(x) == Elements(y);
    AscendingUnique(x, y);
  }
}
