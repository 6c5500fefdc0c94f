/**
 * Versions of an issue: every one is made by one request, which saw the one
 * before it (crates/fgit-forge/src/event/issue.rs:284-296,
 * scripts/e2e/issue_labels_smoke.py:175-259).
 */
module IssueVersions {
  import opened Bytes
  import opened IssueLabels

  // ---- What one event changes ----

  /** An edit replaces exactly the fields it names. */
  lemma EditReplaces(i: Issue, a: Action)
    requires a.Edit? && IsValid(a)
    ensures var r := Apply(Some(i), a);
      && r.Done? && r.issue.version == i.version + 1
      && (if a.newTitle.Some? then Some(r.issue.title) == a.newTitle else r.issue.title == i.title)
      && (if a.newBody.Some? then Some(r.issue.body) == a.newBody else r.issue.body == i.body)
      && (if a.newLabels.Some? then Some(r.issue.labels) == a.newLabels else r.issue.labels == i.labels)
      && r.issue.open == i.open && r.issue.locked == i.locked && r.issue.comments == i.comments
  {
  }

  /** Lifecycle events alternate, and a locked issue takes no comments; nothing else of the issue moves. */
  lemma LifecycleIff(i: Issue, a: Action)
    requires a.Close? || a.Reopen? || a.Lock? || a.Unlock? || a.Comment?
    ensures var r := Apply(Some(i), a);
      && (a.Close? || a.Reopen? ==> (r.Done? <==> i.open != a.Reopen?))
      && (a.Lock? || a.Unlock? ==> (r.Done? <==> i.locked != a.Lock?))
      && (a.Comment? ==> (r.Done? <==> !i.locked))
      && (if r.Done? then
            && r.issue.open == (if a.Close? || a.Reopen? then a.Reopen? else i.open)
            && r.issue.locked == (if a.Lock? || a.Unlock? then a.Lock? else i.locked)
            && r.issue.comments == i.comments + (if a.Comment? then 1 else 0)
            && r.issue.title == i.title && r.issue.body == i.body && r.issue.labels == i.labels
          else r.code == Denied)
  {
  }

  // ---- Versions ----

  /** A committed request stands for one version, right after the one it expected. */
  ghost predicate IsEntryAt(s: Service, k: int, v: nat) {
    && k in s.ledger && s.ledger[k].outcome == Committed(v) && 1 <= v <= VersionOf(s.issue)
    && (s.ledger[k].request.expected.Some? ==> s.ledger[k].request.expected.value + 1 == v)
  }

  ghost predicate IsMade(s: Service, v: nat) {
    exists k :: IsEntryAt(s, k, v)
  }

  ghost predicate AreVersions(s: Service) {
    && (forall k :: k in s.ledger && s.ledger[k].outcome.Committed? ==> IsEntryAt(s, k, s.ledger[k].outcome.version))
    && (forall j, k :: j in s.ledger && k in s.ledger && j != k && s.ledger[j].outcome.Committed? ==>
          s.ledger[j].outcome != s.ledger[k].outcome)
    && forall v :: 1 <= v <= VersionOf(s.issue) ==> IsMade(s, v)
  }

  lemma ServeCounts(s: Service, r: Request)
    ensures var s' := Serve(s, r).0;
      || (s' == s)
      || (&& r.key !in s.ledger && r.key in s'.ledger && s'.ledger == s.ledger[r.key := s'.ledger[r.key]]
          && s'.ledger[r.key].request == r
          && if s'.ledger[r.key].outcome.Committed?
             then && s'.ledger[r.key].outcome.version == VersionOf(s'.issue) == VersionOf(s.issue) + 1
                  && (r.expected.Some? ==> r.expected.value == VersionOf(s.issue))
             else s'.issue == s.issue)
  {
  }

  lemma EntryStays(s: Service, s': Service, k: int, v: nat)
    requires IsEntryAt(s, k, v) && k in s'.ledger && s'.ledger[k] == s.ledger[k] && VersionOf(s.issue) <= VersionOf(s'.issue)
    ensures IsEntryAt(s', k, v)
  {
  }

  lemma ServeKeepsVersions(s: Service, r: Request)
    requires AreVersions(s)
    ensures AreVersions(Serve(s, r).0)
  {
    var s' := Serve(s, r).0;
    ServeCounts(s, r);
    if s' != s {
      var entry := s'.ledger[r.key];
      forall k | k in s'.ledger && s'.ledger[k].outcome.Committed? ensures IsEntryAt(s', k, s'.ledger[k].outcome.version)
      {
        if k != r.key { EntryStays(s, s', k, s.ledger[k].outcome.version); }
      }
      forall v | 1 <= v <= VersionOf(s'.issue) ensures IsMade(s', v)
      {
        if v <= VersionOf(s.issue) {
          assert IsMade(s, v);
          var k :| IsEntryAt(s, k, v);
          EntryStays(s, s', k, v);
        } else {
          assert IsEntryAt(s', r.key, v);
        }
      }
    }
  }

  /**
   * In every run each version of the issue was made by exactly one request, and
   * a request that names the version it expects made the very next one: of two
   * that expect the same version at most one commits, and no update is lost.
   */
  lemma {:induction false} RunHasVersions(rs: seq<Request>)
    ensures AreVersions(Run(EMPTY, rs))
  {
    if rs != [] {
      var n := |rs| - 1;
      RunHasVersions(rs[..n]);
      ServeKeepsVersions(Run(EMPTY, rs[..n]), rs[n]);
    }
  }

  /** A new request that expects another version than the current one is refused as stale and changes nothing. */
  lemma StaleIsRefused(s: Service, r: Request)
    requires IsShaped(r) && r.key !in s.ledger && r.expected.Some? && r.expected.value != VersionOf(s.issue)
    ensures Serve(s, r).1 == Replied(Refused(EvidenceStale)) && Serve(s, r).0.issue == s.issue
  {
  }

  /** A new request that expects the current version is decided by its action alone. */
  lemma CurrentIsApplied(s: Service, r: Request)
    requires IsShaped(r) && r.key !in s.ledger && (r.expected.Some? ==> r.expected.value == VersionOf(s.issue))
    ensures match Apply(s.issue, r.action)
            case Done(next) => Serve(s, r).0.issue == Some(next) && Serve(s, r).1 == Replied(Committed(next.version))
            case Not(code) => Serve(s, r).0.issue == s.issue && Serve(s, r).1 == Replied(Refused(code))
  {
  }
}
