/**
 * Issue streams and additive label intents
 * (crates/fgit-forge/src/event/issue.rs:280-296, 436-561, issue/labels.rs:8-37;
 * the keyed service as scripts/e2e/issue_labels_smoke.py:166-262 pins it).
 */
module IssueLabels {
  import opened Bytes
  import opened Order

  const MOST := 32

  type Text = bytes

  ghost predicate IsAscending(ls: seq<Text>) {
    forall i, j :: 0 <= i < j < |ls| ==> LexLess(ls[i], ls[j])
  }

  function Elements(ls: seq<Text>): set<Text> {
    set i | 0 <= i < |ls| :: ls[i]
  }

  // ---- Sorted label lists ----

  lemma Below(x: Text, y: Text)
    requires LexLess(x, y)
    ensures x != y && !LexLess(y, x)
  {
    LexTotal(x, y);
  }

  lemma {:induction false} SizeOf(ls: seq<Text>)
    requires IsAscending(ls)
    ensures |Elements(ls)| == |ls|
  {
    if ls != [] {
      var n := |ls| - 1;
      SizeOf(ls[..n]);
      forall i | 0 <= i < n ensures ls[i] != ls[n] { Below(ls[i], ls[n]); }
      assert ls[n] !in Elements(ls[..n]);
      assert Elements(ls) == Elements(ls[..n]) + {ls[n]};
    }
  }

  /** Sorted lists with the same labels are the same list. */
  lemma {:induction false} AscendingUnique(a: seq<Text>, b: seq<Text>)
    requires IsAscending(a) && IsAscending(b) && Elements(a) == Elements(b)
    ensures a == b
  {
    SizeOf(a);
    SizeOf(b);
    if a != [] {
      var n := |a| - 1;
      SameLast(a, b);
      forall i | 0 <= i < n ensures a[i] != a[n] && b[i] != b[n]
      {
        Below(a[i], a[n]);
        Below(b[i], b[n]);
      }
      assert Elements(a[..n]) == Elements(a) - {a[n]} && Elements(b[..n]) == Elements(b) - {b[n]};
      AscendingUnique(a[..n], b[..n]);
      assert a == a[..n] + [a[n]] && b == b[..n] + [b[n]];
    }
  }

  lemma SameLast(a: seq<Text>, b: seq<Text>)
    requires IsAscending(a) && IsAscending(b) && Elements(a) == Elements(b) && |a| == |b| > 0
    ensures a[|a| - 1] == b[|b| - 1]
  {
    var x, y := a[|a| - 1], b[|b| - 1];
    assert x in Elements(b) && y in Elements(a);
    LexTotal(x, y);
    var i :| 0 <= i < |a| && a[i] == y;
    var j :| 0 <= j < |b| && b[j] == x;
    if i < |a| - 1 { Below(y, x); }
  }

  /** Where a label is, or where it belongs. */
  method BinarySearch(ls: seq<Text>, x: Text) returns (found: bool, at: nat)
    requires IsAscending(ls)
    ensures found ==> at < |ls| && ls[at] == x
    ensures !found ==> at <= |ls|
    ensures !found ==> (forall i :: 0 <= i < at ==> LexLess(ls[i], x)) && forall i :: at <= i < |ls| ==> LexLess(x, ls[i])
  {
    var low, high := 0, |ls|;
    while low < high
      invariant low <= high <= |ls|
      invariant forall i :: 0 <= i < low ==> LexLess(ls[i], x)
      invariant forall i :: high <= i < |ls| ==> LexLess(x, ls[i])
    {
      var mid := (low + high) / 2;
      if ls[mid] == x { return true, mid; }
      LexTotal(ls[mid], x);
      if LexLess(ls[mid], x) {
        forall i | 0 <= i < mid ensures LexLess(ls[i], x) { LexTransitive(ls[i], ls[mid], x); }
        low := mid + 1;
      } else {
        forall i | mid < i < |ls| ensures LexLess(x, ls[i]) { LexTransitive(x, ls[mid], ls[i]); }
        high := mid;
      }
    }
    return false, low;
  }

  lemma InsertAscends(ls: seq<Text>, x: Text, at: nat)
    requires IsAscending(ls) && at <= |ls|
    requires (forall i :: 0 <= i < at ==> LexLess(ls[i], x)) && forall i :: at <= i < |ls| ==> LexLess(x, ls[i])
    ensures IsAscending(ls[..at] + [x] + ls[at..])
    ensures Elements(ls[..at] + [x] + ls[at..]) == Elements(ls) + {x}
  {
    var all := ls[..at] + [x] + ls[at..];
    assert forall i :: 0 <= i < at ==> all[i] == ls[i];
    assert forall i :: at < i < |all| ==> all[i] == ls[i - 1];
    assert all[at] == x;
    forall y ensures y in Elements(all) <==> y in Elements(ls) + {x}
    {
      if y in Elements(ls) {
        var k :| 0 <= k < |ls| && ls[k] == y;
        assert if k < at then all[k] == y else all[k + 1] == y;
      }
    }
  }

  lemma Missing(ls: seq<Text>, x: Text, at: nat)
    requires at <= |ls|
    requires (forall i :: 0 <= i < at ==> LexLess(ls[i], x)) && forall i :: at <= i < |ls| ==> LexLess(x, ls[i])
    ensures x !in Elements(ls)
  {
    LexTotal(x, x);
  }

  lemma OneMore(labels: seq<Text>, i: nat)
    requires IsAscending(labels) && i < |labels|
    ensures Elements(labels[..i + 1]) == Elements(labels[..i]) + {labels[i]}
    ensures labels[i] !in Elements(labels[..i])
  {
    forall k | 0 <= k < i ensures labels[k] != labels[i] { Below(labels[k], labels[i]); }
  }

  lemma CountStep(before: set<Text>, x: Text, have: set<Text>)
    requires x !in before
    ensures |before + {x} - have| == |before - have| + if x in have then 0 else 1
  {
    if x in have {
      assert before + {x} - have == before - have;
    } else {
      assert before + {x} - have == (before - have) + {x};
    }
  }

  /** The labels not there yet, counted before any is added. */
  method CountMissing(ls: seq<Text>, labels: seq<Text>) returns (n: nat)
    requires IsAscending(ls) && IsAscending(labels)
    ensures n == |Elements(labels) - Elements(ls)|
  {
    n := 0;
    ghost var seen: set<Text> := {};
    for i := 0 to |labels|
      invariant seen == Elements(labels[..i]) && n == |seen - Elements(ls)|
    {
      var found := Has(ls, labels[i]);
      OneMore(labels, i);
      CountStep(seen, labels[i], Elements(ls));
      seen := seen + {labels[i]};
      if !found { n := n + 1; }
    }
    assert labels[..|labels|] == labels;
  }

  method Has(ls: seq<Text>, x: Text) returns (found: bool)
    requires IsAscending(ls)
    ensures found <==> x in Elements(ls)
  {
    var at;
    found, at := BinarySearch(ls, x);
    if !found { Missing(ls, x, at); }
  }

  /** One label put in its place, unless it is there. */
  method InsertOne(ls: seq<Text>, x: Text) returns (r: seq<Text>)
    requires IsAscending(ls)
    ensures IsAscending(r) && Elements(r) == Elements(ls) + {x}
  {
    var found, at := BinarySearch(ls, x);
    if found {
      assert x in Elements(ls);
      r := ls;
    } else {
      InsertAscends(ls, x, at);
      r := ls[..at] + [x] + ls[at..];
    }
  }

  lemma UnionSize(a: set<Text>, b: set<Text>)
    ensures |a + b| == |a| + |b - a|
  {
    assert a + b == a + (b - a);
  }

  method InsertAll(previous: seq<Text>, labels: seq<Text>) returns (next: seq<Text>)
    requires IsAscending(previous) && IsAscending(labels)
    ensures IsAscending(next) && Elements(next) == Elements(previous) + Elements(labels)
  {
    next := previous;
    ghost var seen: set<Text>, start := {}, Elements(previous);
    for i := 0 to |labels|
      invariant seen == Elements(labels[..i]) && IsAscending(next) && Elements(next) == start + seen
    {
      OneMore(labels, i);
      next := InsertOne(next, labels[i]);
      seen := seen + {labels[i]};
    }
    assert labels[..|labels|] == labels;
  }

  /** Labels added to a sorted list, refused when the union would pass the bound. */
  method AddLabels(previous: seq<Text>, labels: seq<Text>) returns (r: Option<seq<Text>>)
    requires IsAscending(previous) && IsAscending(labels)
    ensures r == None <==> |Elements(previous) + Elements(labels)| > MOST
    ensures r.Some? ==> IsAscending(r.value) && Elements(r.value) == Elements(previous) + Elements(labels)
  {
    var added := CountMissing(previous, labels);
    SizeOf(previous);
    UnionSize(Elements(previous), Elements(labels));
    if |previous| + added > MOST { return None; }
    var next := InsertAll(previous, labels);
    r := Some(next);
  }

  // ---- Issues ----

  datatype Code = EvidenceInvalid | EvidenceStale | Denied | ResourceBudgetExceeded

  datatype Action =
    | Open(title: Text, body: Text, labels: set<Text>)
    | Edit(newTitle: Option<Text>, newBody: Option<Text>, newLabels: Option<set<Text>>)
    | Close
    | Reopen
    | Comment(text: Text)
    | Lock
    | Unlock
    | Add(labels: set<Text>)

  /** A label list is its set: lists are sorted and free of repeats. */
  datatype Issue = Issue(
    version: nat, title: Text, body: Text, labels: set<Text>, open: bool, locked: bool, comments: nat)

  datatype Outcome = Committed(version: nat) | Refused(code: Code)

  predicate IsValid(a: Action) {
    match a
    case Open(_, _, labels) => |labels| <= MOST
    case Edit(title, body, labels) =>
      (title.Some? || body.Some? || labels.Some?) && (labels.Some? ==> |labels.value| <= MOST)
    case Add(labels) => labels != {} && |labels| <= MOST
    case _ => true
  }

  function OrKept<T>(change: Option<T>, kept: T): T {
    if change.Some? then change.value else kept
  }

  datatype Applied = Done(issue: Issue) | Not(code: Code)

  /** One event on its exact predecessor. */
  function Apply(previous: Option<Issue>, a: Action): Applied {
    if !IsValid(a) then Not(EvidenceInvalid)
    else if previous == None then
      if a.Open? then Done(Issue(1, a.title, a.body, a.labels, true, false, 0)) else Not(EvidenceStale)
    else
      var i := previous.value;
      var next := i.(version := i.version + 1);
      match a
      case Open(_, _, _) => Not(Denied)
      case Edit(title, body, labels) =>
        Done(next.(title := OrKept(title, i.title), body := OrKept(body, i.body), labels := OrKept(labels, i.labels)))
      case Close => if i.open then Done(next.(open := false)) else Not(Denied)
      case Reopen => if i.open then Not(Denied) else Done(next.(open := true))
      case Lock => if i.locked then Not(Denied) else Done(next.(locked := true))
      case Unlock => if i.locked then Done(next.(locked := false)) else Not(Denied)
      case Comment(_) => if i.locked then Not(Denied) else Done(next.(comments := i.comments + 1))
      case Add(labels) =>
        if |i.labels + labels| > MOST then Not(ResourceBudgetExceeded) else Done(next.(labels := i.labels + labels))
  }

  // ---- The keyed service ----

  /** An additive intent names no version; every other command names the one it expects. */
  datatype Request = Request(key: int, expected: Option<nat>, action: Action)

  datatype Entry = Entry(request: Request, outcome: Outcome)

  datatype Service = Service(issue: Option<Issue>, ledger: map<int, Entry>)

  datatype Reply = Replied(outcome: Outcome) | KeyReused | Malformed

  function VersionOf(issue: Option<Issue>): nat {
    if issue == None then 0 else issue.value.version
  }

  /** What is checked before a request is sealed; only opening names version 0. */
  predicate IsShaped(r: Request) {
    && IsValid(r.action)
    && (r.action.Add? <==> r.expected == None)
    && (r.expected.Some? ==> (r.action.Open? <==> r.expected.value == 0))
  }

  /** One request: a known key answers from the ledger, a new one is decided once, at the current issue. */
  function Serve(s: Service, r: Request): (Service, Reply) {
    if !IsShaped(r) then (s, Malformed)
    else if r.key in s.ledger then
      if s.ledger[r.key].request == r then (s, Replied(s.ledger[r.key].outcome)) else (s, KeyReused)
    else
      var applied := if r.expected.Some? && r.expected.value != VersionOf(s.issue) then Not(EvidenceStale)
                     else Apply(s.issue, r.action);
      var outcome := if applied.Done? then Committed(applied.issue.version) else Refused(applied.code);
      (Service(if applied.Done? then Some(applied.issue) else s.issue, s.ledger[r.key := Entry(r, outcome)]),
       Replied(outcome))
  }

  function Run(s: Service, rs: seq<Request>): Service {
    if rs == [] then s else Serve(Run(s, rs[..|rs| - 1]), rs[|rs| - 1]).0
  }

  const EMPTY := Service(None, map[])
}
