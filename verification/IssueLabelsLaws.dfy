/** What label intents promise over whole runs. */
module IssueLabelsLaws {
  import opened Bytes
  import opened IssueLabels

  // ---- The bound, and versions ----

  ghost predicate IsBounded(s: Service) {
    s.issue.Some? ==> |s.issue.value.labels| <= MOST && s.issue.value.version >= 1
  }

  lemma {:induction false} RunIsBounded(rs: seq<Request>)
    ensures IsBounded(Run(EMPTY, rs))
  {
    if rs != [] { RunIsBounded(rs[..|rs| - 1]); }
  }

  /** A step moves the version by exactly one when it newly commits, and otherwise leaves the issue alone. */
  lemma VersionCountsCommits(s: Service, r: Request)
    ensures var (s', reply) := Serve(s, r);
      if r.key !in s.ledger && reply.Replied? && reply.outcome.Committed?
      then VersionOf(s'.issue) == VersionOf(s.issue) + 1 && reply.outcome.version == VersionOf(s'.issue)
      else s'.issue == s.issue
  {
  }

  // ---- Terminal outcomes ----

  ghost predicate Keeps(s: Service, s': Service) {
    forall k :: k in s.ledger ==> k in s'.ledger && s'.ledger[k] == s.ledger[k]
  }

  lemma {:induction false} RunKeeps(s: Service, rs: seq<Request>)
    ensures Keeps(s, Run(s, rs))
  {
    if rs != [] { RunKeeps(s, rs[..|rs| - 1]); }
  }

  /**
   * Whatever happens later, a decided request answers the same and publishes
   * nothing: an old addition never adds again, and a refusal stays a refusal
   * even once there is room.
   */
  lemma {:induction false} DecidedStaysDecided(s: Service, r: Request, later: seq<Request>)
    requires r.key in s.ledger && s.ledger[r.key].request == r && IsShaped(r)
    ensures var s' := Run(s, later);
      Serve(s', r) == (s', Replied(s.ledger[r.key].outcome))
  {
    RunKeeps(s, later);
  }

  /** A key bound to one request rejects every other, for good. */
  lemma {:induction false} KeyIsBound(s: Service, r: Request, other: Request, later: seq<Request>)
    requires r.key in s.ledger && s.ledger[r.key].request == r && other.key == r.key && other != r && IsShaped(other)
    ensures var s' := Run(s, later); Serve(s', other) == (s', KeyReused)
  {
    RunKeeps(s, later);
  }

  // ---- Additions ----

  /** Additions under fresh keys: the labels of each. */
  function Adds(first: int, sets: seq<set<bytes>>): seq<Request> {
    seq(|sets|, i requires 0 <= i < |sets| => Request(first + i, None, Add(sets[i])))
  }

  function Union(sets: seq<set<bytes>>): set<bytes> {
    if sets == [] then {} else Union(sets[..|sets| - 1]) + sets[|sets| - 1]
  }

  ghost predicate AreAdditions(sets: seq<set<bytes>>) {
    forall i :: 0 <= i < |sets| ==> sets[i] != {} && |sets[i]| <= MOST
  }

  ghost predicate AreFree(s: Service, first: int) {
    forall k :: k >= first ==> k !in s.ledger
  }

  lemma SubsetSize<T>(a: set<T>, b: set<T>)
    requires a <= b
    ensures |a| <= |b|
  {
    var rest := b - a;
    assert b == a + rest;
  }

  lemma {:induction false} UnionHolds(sets: seq<set<bytes>>, i: nat)
    requires i <= |sets|
    ensures Union(sets[..i]) <= Union(sets)
  {
    if i < |sets| {
      var n := |sets| - 1;
      UnionHolds(sets[..n], i);
      assert sets[..n][..i] == sets[..i];
    } else {
      assert sets[..i] == sets;
    }
  }

  ghost predicate IsCommitted(s: Service, k: int) {
    k in s.ledger && s.ledger[k].outcome.Committed?
  }

  ghost predicate AllCommit(s: Service, first: int, n: nat) {
    forall k :: first <= k < first + n ==> IsCommitted(s, k)
  }

  /** The service after additions that all fit. */
  ghost predicate IsAfter(s: Service, first: int, sets: seq<set<bytes>>, s': Service)
    requires s.issue.Some?
  {
    && s'.issue == Some(s.issue.value.(version := s.issue.value.version + |sets|,
                                      labels := s.issue.value.labels + Union(sets)))
    && AreFree(s', first + |sets|)
    && AllCommit(s', first, |sets|)
  }

  lemma AddFits(s: Service, r: Request)
    requires s.issue.Some? && r.key !in s.ledger && r.expected == None && r.action.Add? && IsValid(r.action)
    requires |s.issue.value.labels + r.action.labels| <= MOST
    ensures Serve(s, r).0.issue == Some(s.issue.value.(version := s.issue.value.version + 1,
                                                       labels := s.issue.value.labels + r.action.labels))
    ensures Serve(s, r).0.ledger == s.ledger[r.key := Entry(r, Committed(s.issue.value.version + 1))]
  {
  }

  lemma RunSnoc(s: Service, rs: seq<Request>, r: Request)
    ensures Run(s, rs + [r]) == Serve(Run(s, rs), r).0
  {
    assert (rs + [r])[..|rs|] == rs;
  }

  lemma AddsAppend(first: int, front: seq<set<bytes>>, last: set<bytes>)
    ensures Adds(first, front + [last]) == Adds(first, front) + [AddOf(first, front, last)]
  {
  }

  lemma AddsSnoc(s: Service, first: int, front: seq<set<bytes>>, last: set<bytes>)
    ensures Run(s, Adds(first, front + [last])) == Serve(Run(s, Adds(first, front)), AddOf(first, front, last)).0
  {
    AddsAppend(first, front, last);
    RunSnoc(s, Adds(first, front), AddOf(first, front, last));
  }

  /** The addition that follows those of `front`. */
  function AddOf(first: int, front: seq<set<bytes>>, last: set<bytes>): Request {
    Request(first + |front|, None, Add(last))
  }

  lemma UnionSnoc(labels: set<bytes>, front: seq<set<bytes>>, last: set<bytes>)
    ensures labels + Union(front + [last]) == labels + Union(front) + last
    ensures |labels + Union(front)| <= |labels + Union(front + [last])|
  {
    assert (front + [last])[..|front|] == front;
    SubsetSize(labels + Union(front), labels + Union(front + [last]));
  }

  lemma FittingStep(s: Service, first: int, front: seq<set<bytes>>, last: set<bytes>, mid: Service)
    requires s.issue.Some? && last != {} && |last| <= MOST && IsAfter(s, first, front, mid)
    requires |s.issue.value.labels + Union(front + [last])| <= MOST
    ensures IsAfter(s, first, front + [last], Serve(mid, AddOf(first, front, last)).0)
  {
    UnionSnoc(s.issue.value.labels, front, last);
    AddFits(mid, AddOf(first, front, last));
    forall k | first <= k < first + |front + [last]| ensures IsCommitted(Serve(mid, AddOf(first, front, last)).0, k)
    {
      if k < first + |front| { assert IsCommitted(mid, k); }
    }
  }

  /** When the whole union fits, every addition commits, once each, whatever the order. */
  lemma {:induction false} FittingAdditionsCommit(s: Service, first: int, sets: seq<set<bytes>>)
    requires s.issue.Some? && AreFree(s, first) && AreAdditions(sets)
    requires |s.issue.value.labels + Union(sets)| <= MOST
    ensures IsAfter(s, first, sets, Run(s, Adds(first, sets)))
  {
    if sets == [] {
      assert s.issue.value.labels + Union(sets) == s.issue.value.labels;
    } else {
      var n := |sets| - 1;
      var front, last := sets[..n], sets[n];
      assert front + [last] == sets;
      UnionSnoc(s.issue.value.labels, front, last);
      FittingAdditionsCommit(s, first, front);
      AddsSnoc(s, first, front, last);
      FittingStep(s, first, front, last, Run(s, Adds(first, front)));
    }
  }

  /** Additions all commit exactly when their union with the current labels fits the bound. */
  lemma AdditionsCommitIff(s: Service, first: int, sets: seq<set<bytes>>)
    requires s.issue.Some? && |s.issue.value.labels| <= MOST && AreFree(s, first) && AreAdditions(sets)
    ensures AllCommit(Run(s, Adds(first, sets)), first, |sets|) <==> |s.issue.value.labels + Union(sets)| <= MOST
  {
    if |s.issue.value.labels + Union(sets)| <= MOST {
      FittingAdditionsCommit(s, first, sets);
    } else {
      OverflowRefuses(s, first, sets);
    }
  }

  lemma StillUncommitted(s: Service, r: Request, k: int)
    requires !IsCommitted(s, k) && k != r.key
    ensures !IsCommitted(Serve(s, r).0, k)
  {
  }

  lemma OverflowUncommitted(s: Service, r: Request)
    requires s.issue.Some? && r.key !in s.ledger && r.expected == None && r.action.Add?
    requires |s.issue.value.labels + r.action.labels| > MOST
    ensures !IsCommitted(Serve(s, r).0, r.key)
  {
  }

  lemma OverflowStep(s: Service, first: int, front: seq<set<bytes>>, last: set<bytes>, mid: Service)
    requires s.issue.Some? && |s.issue.value.labels + Union(front + [last])| > MOST
    requires !AllCommit(mid, first, |front|) || IsAfter(s, first, front, mid)
    ensures !AllCommit(Serve(mid, AddOf(first, front, last)).0, first, |front| + 1)
  {
    var r := AddOf(first, front, last);
    if AllCommit(mid, first, |front|) {
      UnionSnoc(s.issue.value.labels, front, last);
      OverflowUncommitted(mid, r);
    } else {
      var k :| first <= k < first + |front| && !IsCommitted(mid, k);
      StillUncommitted(mid, r, k);
    }
  }

  lemma {:induction false} OverflowRefuses(s: Service, first: int, sets: seq<set<bytes>>)
    requires s.issue.Some? && |s.issue.value.labels| <= MOST && AreFree(s, first) && AreAdditions(sets)
    requires |s.issue.value.labels + Union(sets)| > MOST
    ensures !AllCommit(Run(s, Adds(first, sets)), first, |sets|)
  {
    assert s.issue.value.labels + {} == s.issue.value.labels;
    if sets != [] {
      var n := |sets| - 1;
      var front, last := sets[..n], sets[n];
      assert front + [last] == sets;
      if |s.issue.value.labels + Union(front)| > MOST {
        OverflowRefuses(s, first, front);
      } else {
        FittingAdditionsCommit(s, first, front);
      }
      AddsSnoc(s, first, front, last);
      OverflowStep(s, first, front, last, Run(s, Adds(first, front)));
    }
  }

  lemma {:induction false} UnionElements(sets: seq<set<bytes>>, x: bytes)
    ensures x in Union(sets) <==> exists i :: 0 <= i < |sets| && x in sets[i]
  {
    if sets != [] {
      var n := |sets| - 1;
      UnionElements(sets[..n], x);
      if i :| 0 <= i < n && x in sets[..n][i] { assert x in sets[i]; }
      if i :| 0 <= i < |sets| && x in sets[i] { assert i < n ==> sets[..n][i] == sets[i]; }
    }
  }

  lemma SameUnion(a: seq<set<bytes>>, b: seq<set<bytes>>)
    requires multiset(a) == multiset(b)
    ensures Union(a) == Union(b)
  {
    forall x ensures x in Union(a) <==> x in Union(b)
    {
      UnionElements(a, x);
      UnionElements(b, x);
      if i :| 0 <= i < |a| && x in a[i] {
        assert a[i] in multiset(b);
        var j :| 0 <= j < |b| && b[j] == a[i];
      }
      if i :| 0 <= i < |b| && x in b[i] {
        assert b[i] in multiset(a);
        var j :| 0 <= j < |a| && a[j] == b[i];
      }
    }
  }

  lemma PermutedAdditions(a: seq<set<bytes>>, b: seq<set<bytes>>)
    requires multiset(a) == multiset(b) && AreAdditions(a)
    ensures AreAdditions(b) && |a| == |b|
  {
    assert |multiset(a)| == |a| && |multiset(b)| == |b|;
    forall i | 0 <= i < |b| ensures b[i] != {} && |b[i]| <= MOST
    {
      assert b[i] in multiset(a);
      var j :| 0 <= j < |a| && a[j] == b[i];
    }
  }

  /** Additions that all commit in one order all commit in any, and end at the same labels and version. */
  lemma AdditionsCommute(s: Service, first: int, a: seq<set<bytes>>, b: seq<set<bytes>>)
    requires s.issue.Some? && |s.issue.value.labels| <= MOST && AreFree(s, first) && AreAdditions(a)
    requires multiset(a) == multiset(b) && AllCommit(Run(s, Adds(first, a)), first, |a|)
    ensures AllCommit(Run(s, Adds(first, b)), first, |b|)
    ensures Run(s, Adds(first, b)).issue == Run(s, Adds(first, a)).issue
  {
    SameUnion(a, b);
    PermutedAdditions(a, b);
    AdditionsCommitIff(s, first, a);
    FittingAdditionsCommit(s, first, a);
    FittingAdditionsCommit(s, first, b);
    SameAfter(s, first, a, b, Run(s, Adds(first, a)), Run(s, Adds(first, b)));
  }

  lemma SameAfter(s: Service, first: int, a: seq<set<bytes>>, b: seq<set<bytes>>, s1: Service, s2: Service)
    requires s.issue.Some? && IsAfter(s, first, a, s1) && IsAfter(s, first, b, s2)
    requires Union(a) == Union(b) && |a| == |b|
    ensures s1.issue == s2.issue && AllCommit(s2, first, |b|)
  {
  }

  /** Labels already there commit even at the bound, with a version of their own. */
  lemma OverlapCommits(s: Service, r: Request)
    requires s.issue.Some? && |s.issue.value.labels| <= MOST && r.key !in s.ledger && IsShaped(r)
    requires r.action.Add? && IsValid(r.action) && r.action.labels <= s.issue.value.labels
    ensures Serve(s, r).0.issue == Some(s.issue.value.(version := s.issue.value.version + 1))
  {
    assert s.issue.value.labels + r.action.labels == s.issue.value.labels;
    AddFits(s, r);
  }
}
