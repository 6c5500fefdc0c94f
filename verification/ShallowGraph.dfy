/**
 The verified disclosure graph, fetch requests and the two kinds of traversal
 that shallow serving performs on it, described by paths.
 */
module ShallowGraph {
  import opened Bytes

  /** Object identities, ordered as the ordered maps and sets of the server order them. */
  type Oid = int

  datatype Kind = Commit | Tree | Blob | Tag

  datatype Edge = Edge(target: Oid, kind: Kind)

  datatype Item = Item(kind: Kind, edges: seq<Edge>, time: Option<int>)

  type Graph = map<Oid, Item>

  const INFINITE_DEPTH: nat := 2_147_483_647
  const U32_MAX: nat := 0xFFFF_FFFF

  type u32 = n: nat | n <= 0xFFFF_FFFF

  datatype Request = Request(
    wants: seq<Oid>,
    haves: seq<Oid>,
    shallows: seq<Oid>,
    deepen: Option<u32>,
    relative: bool,
    since: Option<int>,
    exclude: seq<Oid>)

  datatype Update = Update(shallow: seq<Oid>, unshallow: seq<Oid>)

  datatype History = History(known: set<Oid>, boundaries: set<Oid>, update: Update)

  function Elements<T>(s: seq<T>): set<T> {
    set x | x in s
  }

  /** How an ordered set lists its elements. */
  predicate IsAscending(s: seq<Oid>) {
    forall i, j :: 0 <= i < j < |s| ==> s[i] < s[j]
  }

  /** An ordered listing is determined by its elements. */
  lemma {:induction false} AscendingUnique(a: seq<Oid>, b: seq<Oid>)
    requires IsAscending(a) && IsAscending(b) && Elements(a) == Elements(b)
    ensures a == b
    decreases |a|
  {
    if a == [] {
      assert forall i :: 0 <= i < |b| ==> b[i] in Elements(b);
    } else {
      assert a[0] in Elements(b) && b != [];
      assert b[0] in Elements(a);
      assert a[0] == b[0];
      forall x ensures x in Elements(a[1..]) <==> x in Elements(b[1..]) {
        assert x in Elements(a) <==> x in Elements(b);
        assert x in a <==> x == a[0] || x in a[1..];
        assert x in b <==> x == b[0] || x in b[1..];
        assert a[0] !in a[1..] && b[0] !in b[1..];
      }
      AscendingUnique(a[1..], b[1..]);
      assert a == [a[0]] + a[1..] && b == [b[0]] + b[1..];
    }
  }

  // ----- object traversal, clipped at a set of boundary commits -----

  predicate IsParentEdge(g: Graph, x: Oid, e: Edge)
    requires x in g
  {
    g[x].kind == Commit && e.kind == Commit
  }

  /** `walk` follows `e` out of `x` unless it is a parent edge of a boundary. */
  predicate Follows(g: Graph, clip: set<Oid>, x: Oid, e: Edge) {
    x in g && e in g[x].edges && !(IsParentEdge(g, x, e) && x in clip)
  }

  ghost predicate Linked(g: Graph, clip: set<Oid>, x: Oid, y: Oid) {
    exists e :: Follows(g, clip, x, e) && e.target == y
  }

  ghost predicate IsWalk(g: Graph, roots: set<Oid>, clip: set<Oid>, p: seq<Oid>) {
    && |p| >= 1 && p[0] in roots
    && forall i :: 0 < i < |p| ==> Linked(g, clip, p[i - 1], p[i])
  }

  function Last<T>(p: seq<T>): T
    requires |p| >= 1
  {
    p[|p| - 1]
  }

  ghost predicate Reaches(g: Graph, roots: set<Oid>, clip: set<Oid>, x: Oid) {
    exists p: seq<Oid> :: IsWalk(g, roots, clip, p) && Last(p) == x
  }

  lemma RootReaches(g: Graph, roots: set<Oid>, clip: set<Oid>, x: Oid)
    requires x in roots
    ensures Reaches(g, roots, clip, x)
  {
    assert IsWalk(g, roots, clip, [x]) && Last([x]) == x;
  }

  lemma StepReaches(g: Graph, roots: set<Oid>, clip: set<Oid>, x: Oid, e: Edge)
    requires Reaches(g, roots, clip, x) && Follows(g, clip, x, e)
    ensures Reaches(g, roots, clip, e.target)
  {
    var p :| IsWalk(g, roots, clip, p) && Last(p) == x;
    var q := p + [e.target];
    assert Linked(g, clip, x, e.target);
    assert forall i :: 0 < i < |q| ==> Linked(g, clip, q[i - 1], q[i]);
    assert IsWalk(g, roots, clip, q) && Last(q) == e.target;
  }

  ghost predicate IsClosedUnder(g: Graph, clip: set<Oid>, s: set<Oid>) {
    forall x, e :: x in s && Follows(g, clip, x, e) ==> e.target in s
  }

  /** A closed set that holds the roots holds everything reachable. */
  lemma {:induction false} ClosedContains(g: Graph, clip: set<Oid>, s: set<Oid>, roots: set<Oid>, p: seq<Oid>)
    requires IsClosedUnder(g, clip, s) && roots <= s && IsWalk(g, roots, clip, p)
    ensures Last(p) in s
    decreases |p|
  {
    if |p| > 1 {
      var q := p[..|p| - 1];
      assert IsWalk(g, roots, clip, q);
      ClosedContains(g, clip, s, roots, q);
      assert Linked(g, clip, p[|p| - 2], p[|p| - 1]);
    }
  }

  // ----- history traversal: tags are free, each parent edge costs one -----

  /** The history successors of one object. */
  predicate Precedes(g: Graph, x: Oid, y: Oid) {
    && x in g
    && (|| (g[x].kind == Tag && |g[x].edges| == 1 && g[x].edges[0].target == y)
        || (g[x].kind == Commit && Edge(y, Commit) in g[x].edges))
  }

  function StepCost(g: Graph, x: Oid): nat {
    if x in g && g[x].kind == Commit then 1 else 0
  }

  predicate IsLine(g: Graph, wants: seq<Oid>, p: seq<Oid>) {
    && |p| >= 1 && p[0] in wants
    && forall i :: 0 < i < |p| ==> Precedes(g, p[i - 1], p[i])
  }

  /** Depth of the end of a line of history; a wanted tip has depth one. */
  function Depth(g: Graph, p: seq<Oid>): (d: nat)
    requires |p| >= 1
    ensures d >= 1
  {
    if |p| == 1 then 1 else Depth(g, p[..|p| - 1]) + StepCost(g, p[|p| - 2])
  }

  lemma DepthExtend(g: Graph, p: seq<Oid>, y: Oid)
    requires |p| >= 1
    ensures Depth(g, p + [y]) == Depth(g, p) + StepCost(g, Last(p))
  {
    assert (p + [y])[..|p|] == p;
  }

  lemma LineExtend(g: Graph, wants: seq<Oid>, p: seq<Oid>, y: Oid)
    requires IsLine(g, wants, p) && Precedes(g, Last(p), y)
    ensures IsLine(g, wants, p + [y]) && Last(p + [y]) == y
  {
  }

  lemma LinePrefix(g: Graph, wants: seq<Oid>, p: seq<Oid>, n: nat)
    requires IsLine(g, wants, p) && 1 <= n <= |p|
    ensures IsLine(g, wants, p[..n])
  {
  }

  lemma {:induction false} DepthMonotone(g: Graph, p: seq<Oid>, n: nat)
    requires 1 <= n <= |p|
    ensures Depth(g, p[..n]) <= Depth(g, p)
    decreases |p|
  {
    if n == |p| {
      assert p[..n] == p;
    } else {
      var q := p[..|p| - 1];
      DepthMonotone(g, q, n);
      assert q[..n] == p[..n];
    }
  }

  predicate IsCommit(g: Graph, x: Oid) {
    x in g && g[x].kind == Commit
  }
}
