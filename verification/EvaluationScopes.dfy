/**
 * What admission means name by name and check by check: scopes read off the
 * bytes of a ref name, the checks before the fold, and what each refusal says
 * (crates/fgit-reference/src/refs.rs:30-48, transition.rs:307-516).
 */
module EvaluationScopes {
  import opened Bytes
  import opened Intents
  import opened Fold
  import opened Ancestry
  import opened Order
  import opened Evaluation
  import opened EvaluationLaws

  const SLASH: byte := 47

  const REFS: bytes := [114, 101, 102, 115]

  /** The name of a ref in namespace `space`, with anything after it. */
  function InSpace(space: bytes, rest: bytes): RefName {
    REFS + [SLASH] + space + rest
  }

  // ---- Scopes ----

  lemma PrefixIsRefs()
    ensures Ascii("refs/") == REFS + [SLASH] && CharByte('/') == SLASH
  {
  }

  lemma SplitOnce(a: bytes, rest: bytes)
    requires SLASH !in a
    ensures Split(a + [SLASH] + rest, SLASH) == [a] + Split(rest, SLASH)
  {
    FindAfter(a, SLASH, rest);
    var s := a + [SLASH] + rest;
    assert s[..|a|] == a && s[|a| + 1..] == rest;
  }

  lemma SplitNever(a: bytes)
    requires SLASH !in a
    ensures Split(a, SLASH) == [a]
  {
  }

  lemma SplitFirst(space: bytes, rest: bytes)
    requires SLASH !in space && (rest == [] || rest[0] == SLASH)
    ensures Split(space + rest, SLASH)[0] == space
  {
    if rest == [] {
      assert space + rest == space;
      SplitNever(space);
    } else {
      assert space + rest == space + [SLASH] + rest[1..];
      SplitOnce(space, rest[1..]);
    }
  }

  /** The scope of a name under `refs/` is its next component, whatever follows. */
  lemma ScopeIsNamespace(space: bytes, rest: bytes)
    requires SLASH !in space && (rest == [] || rest[0] == SLASH)
    ensures ScopeOf(InSpace(space, rest)) == Some(space)
  {
    PrefixIsRefs();
    assert InSpace(space, rest) == REFS + [SLASH] + (space + rest);
    SplitOnce(REFS, space + rest);
    SplitFirst(space, rest);
  }

  /** A name outside `refs/` has no scope. */
  lemma OutsideHasNoScope(name: RefName)
    requires !(REFS + [SLASH] <= name)
    ensures ScopeOf(name) == None && !IsCanonical(name)
  {
    PrefixIsRefs();
  }

  /**
   * A change of a ref in namespace `space` is lawful exactly when the principal
   * may write there and it creates or fast-forwards, or deletes or rewinds with
   * permission where the namespace is not protected.
   */
  lemma LawfulByName(c: Case, space: bytes, rest: bytes)
    requires SLASH !in space && (rest == [] || rest[0] == SLASH)
    requires InSpace(space, rest) in c.effects.refs && InSpace(space, rest) in c.olds
    ensures var name := InSpace(space, rest);
      IsLawfulRef(c, name) <==>
        && space in c.capabilities.scopes
        && (|| FastForwards(c, name)
            || (space !in c.policy.protected
                && (c.effects.refs[name] == Delete || (name in c.forced && c.capabilities.mayForce))))
  {
    ScopeIsNamespace(space, rest);
  }

  // ---- One ref, one intent ----

  /** The effects change the named ref as told and nothing else. */
  ghost predicate IsOnly(e: NetEffects, name: RefName, change: RefEffect) {
    && e.refs.Keys == {name} && e.refs[name] == change
    && e.forge.Keys == {} && e.retention.Keys == {}
  }

  lemma OnlyIsLawfulIff(c: Case, name: RefName, change: RefEffect)
    requires c.olds.Keys == c.effects.refs.Keys && IsOnly(c.effects, name, change)
    ensures IsLawful(c) <==> IsLawfulRef(c, name)
  {
  }

  lemma OneRefDiffers(b: map<RefName, Oid>, s: map<RefName, Oid>, name: RefName)
    requires Get(b, name) != Get(s, name) && forall n :: n != name ==> Get(b, n) == Get(s, n)
    ensures DiffRefs(b, s).Keys == {name}
    ensures DiffRefs(b, s)[name] == if name in s then Set(s[name]) else Delete
  {
    assert Get(b, name) != Get(s, name);
    assert name in DiffRefs(b, s);
  }

  lemma SameRootsDiffer(b: set<RetentionRoot>)
    ensures DiffRoots(b, b).Keys == {}
  {
  }

  lemma NoEventsDiffer()
    ensures DiffEvents(map[]).Keys == {}
  {
  }

  lemma OneChange(b: Basis, s: Scratch, name: RefName, change: RefEffect)
    requires s.at == b.(refs := s.at.refs) && s.events == map[]
    requires Get(b.refs, name) != Get(s.at.refs, name) && forall n :: n != name ==> Get(b.refs, n) == Get(s.at.refs, n)
    requires change == if name in s.at.refs then Set(s.at.refs[name]) else Delete
    ensures IsOnly(Diff(b, s), name, change)
  {
    OneRefDiffers(b.refs, s.at.refs, name);
    SameRootsDiffer(b.retention);
    NoEventsDiffer();
  }

  lemma OneIntent(b: Basis, xs: seq<Placed>)
    requires |xs| == 1
    ensures Process(b, xs) == Fold.Step(Begin(b), xs[0])
  {
    assert xs[..0] == [];
  }

  /** The request is one intent and nothing else, and passes the checks before the fold. */
  ghost predicate IsJust(p: Policy, ev: Evidence, req: Request, i: Intent) {
    var xs := AddressedIntents(req);
    |xs| == 1 && xs[0].intent == i && Screen(p, ev, req) == None
  }

  lemma JustCommitsIff(p: Policy, ev: Evidence, b: Basis, req: Request, i: Intent, name: RefName, change: RefEffect)
    requires IsJust(p, ev, req, i)
    requires var r := Process(b, AddressedIntents(req));
      r.Running? && IsOnly(Diff(b, r.scratch), name, change)
    ensures var c := CaseOf(p, ev, b, req, Diff(b, Process(b, AddressedIntents(req)).scratch));
      Evaluate(p, ev, b, req).verdict.Commit? <==> IsLawfulRef(c, name)
  {
    CommitsIff(p, ev, b, req);
    OnlyIsLawfulIff(CaseOf(p, ev, b, req, Diff(b, Process(b, AddressedIntents(req)).scratch)), name, change);
  }

  lemma CreationFolds(b: Basis, xs: seq<Placed>, name: RefName, oid: Oid)
    requires |xs| == 1 && xs[0].intent == UpdateRef(name, Absent, oid, false) && name !in b.refs
    ensures Process(b, xs).Running? && IsOnly(Diff(b, Process(b, xs).scratch), name, Set(oid))
  {
    OneIntent(b, xs);
    OneChange(b, Process(b, xs).scratch, name, Set(oid));
  }

  /** Creating a ref is admitted exactly when its namespace is among the principal's scopes. */
  lemma CreationCommitsIff(p: Policy, ev: Evidence, b: Basis, req: Request, space: bytes, rest: bytes, oid: Oid)
    requires SLASH !in space && (rest == [] || rest[0] == SLASH) && InSpace(space, rest) !in b.refs
    requires IsJust(p, ev, req, UpdateRef(InSpace(space, rest), Absent, oid, false))
    ensures Evaluate(p, ev, b, req).verdict.Commit? <==> space in CapabilitiesOf(p, req.principal).scopes
  {
    var name, xs := InSpace(space, rest), AddressedIntents(req);
    CreationFolds(b, xs, name, oid);
    var c := CaseOf(p, ev, b, req, Diff(b, Process(b, xs).scratch));
    JustCommitsIff(p, ev, b, req, xs[0].intent, name, Set(oid));
    LawfulByName(c, space, rest);
    assert FastForwards(c, name);
  }

  lemma DeletionFolds(b: Basis, xs: seq<Placed>, name: RefName)
    requires |xs| == 1 && xs[0].intent == DeleteRef(name, Any) && name in b.refs
    ensures Process(b, xs).Running? && IsOnly(Diff(b, Process(b, xs).scratch), name, Delete)
  {
    OneIntent(b, xs);
    OneChange(b, Process(b, xs).scratch, name, Delete);
  }

  /** Deleting a ref is admitted exactly when its namespace is a scope of the principal and not protected. */
  lemma DeletionCommitsIff(p: Policy, ev: Evidence, b: Basis, req: Request, space: bytes, rest: bytes)
    requires SLASH !in space && (rest == [] || rest[0] == SLASH) && InSpace(space, rest) in b.refs
    requires IsJust(p, ev, req, DeleteRef(InSpace(space, rest), Any))
    ensures Evaluate(p, ev, b, req).verdict.Commit? <==>
      space in CapabilitiesOf(p, req.principal).scopes && space !in p.protected
  {
    var name, xs := InSpace(space, rest), AddressedIntents(req);
    DeletionFolds(b, xs, name);
    JustCommitsIff(p, ev, b, req, xs[0].intent, name, Delete);
    LawfulByName(CaseOf(p, ev, b, req, Diff(b, Process(b, xs).scratch)), space, rest);
  }

  lemma UpdateFolds(b: Basis, xs: seq<Placed>, name: RefName, oid: Oid, force: bool)
    requires name in b.refs && b.refs[name] != oid
    requires |xs| == 1 && xs[0].intent == UpdateRef(name, Exact(b.refs[name]), oid, force)
    ensures Process(b, xs).Running? && IsOnly(Diff(b, Process(b, xs).scratch), name, Set(oid))
  {
    OneIntent(b, xs);
    OneChange(b, Process(b, xs).scratch, name, Set(oid));
  }

  lemma ForcedIff(xs: seq<Placed>, name: RefName, expected: Expected, oid: Oid, force: bool)
    requires |xs| == 1 && xs[0].intent == UpdateRef(name, expected, oid, force)
    ensures name in ForcedRefs(xs) <==> force
  {
  }

  /**
   * Moving a ref is admitted exactly when its namespace is a scope of the
   * principal and the new object descends from the old one, or the move is forced,
   * the principal may force, and the namespace is not protected.
   */
  lemma UpdateCommitsIff(p: Policy, ev: Evidence, b: Basis, req: Request, space: bytes, rest: bytes, oid: Oid, force: bool)
    requires SLASH !in space && (rest == [] || rest[0] == SLASH)
    requires InSpace(space, rest) in b.refs && b.refs[InSpace(space, rest)] != oid
    requires IsJust(p, ev, req, UpdateRef(InSpace(space, rest), Exact(b.refs[InSpace(space, rest)]), oid, force))
    ensures var mine := CapabilitiesOf(p, req.principal);
      Evaluate(p, ev, b, req).verdict.Commit? <==>
        && space in mine.scopes
        && (|| IsAncestor(View(ev), oid, b.refs[InSpace(space, rest)])
            || (force && mine.mayForce && space !in p.protected))
  {
    var name, xs := InSpace(space, rest), AddressedIntents(req);
    UpdateFolds(b, xs, name, oid, force);
    JustCommitsIff(p, ev, b, req, xs[0].intent, name, Set(oid));
    LawfulByName(CaseOf(p, ev, b, req, Diff(b, Process(b, xs).scratch)), space, rest);
    ForcedIff(xs, name, Exact(b.refs[name]), oid, force);
  }

  // ---- The checks before the fold ----

  /** The intent mentions the ref: as its own, or in an event about a pull request, a queue or a check. */
  predicate Mentions(i: Intent, n: RefName) {
    || (i.UpdateRef? && i.name == n)
    || (i.DeleteRef? && i.name == n)
    || (i.Forge? && i.event.PullRequestOpened? && i.event.target == n)
    || (i.Forge? && i.event.PullRequestMerged? && i.event.target == n)
    || (i.Forge? && i.event.PullRequestUpdated? && i.event.target == n)
    || (i.Forge? && i.event.PullRequestReviewed? && i.event.target == n)
    || (i.Forge? && i.event.MergeQueueChanged? && i.event.target == n)
    || (i.Forge? && i.event.WorkflowCheckObserved? && i.event.source == n)
  }

  lemma MentionsIff(i: Intent, n: RefName)
    ensures Mentions(i, n) <==> NamedRef(i) == Some(n)
  {
  }

  /** Everything the code checks before it folds, as one condition. */
  ghost predicate IsAdmissible(p: Policy, ev: Evidence, req: Request) {
    var xs := AddressedIntents(req);
    && req.schema in p.schemas && |xs| <= p.maxIntents && req.durability in p.durabilities
    && (forall i, n :: 0 <= i < |xs| && Mentions(xs[i].intent, n) ==> REFS + [SLASH] <= n)
    && (forall o :: o in ev.quarantine ==> ev.quarantine[o].recomputed == o)
    && (forall o :: o in Closure(req) ==> o.format == ev.format && (o in ev.objects || o in ev.quarantine))
  }

  lemma ViewIff(ev: Evidence, o: Oid)
    requires forall q :: q in ev.quarantine ==> ev.quarantine[q].recomputed == q
    ensures o in View(ev) <==> o in ev.objects || o in ev.quarantine
  {
  }

  lemma ScreenPassesIff(p: Policy, ev: Evidence, req: Request)
    ensures Screen(p, ev, req) == None <==> IsAdmissible(p, ev, req)
  {
    if forall o :: o in ev.quarantine ==> ev.quarantine[o].recomputed == o {
      forall o ensures o in View(ev) <==> o in ev.objects || o in ev.quarantine { ViewIff(ev, o); }
    }
    NamesAreCanonical(p, ev, req);
  }

  /** The same checks, numbered in the order the code makes them. */
  ghost predicate Passes(k: nat, p: Policy, ev: Evidence, req: Request) {
    var xs := AddressedIntents(req);
    if k == 0 then req.schema in p.schemas
    else if k == 1 then |xs| <= p.maxIntents
    else if k == 2 then req.durability in p.durabilities
    else if k == 3 then forall i, n :: 0 <= i < |xs| && Mentions(xs[i].intent, n) ==> REFS + [SLASH] <= n
    else if k == 4 then forall o :: o in Closure(req) ==> o.format == ev.format
    else if k == 5 then forall o :: o in ev.quarantine ==> ev.quarantine[o].recomputed == o
    else forall o :: o in Closure(req) ==> o in ev.objects || o in ev.quarantine
  }

  const CODES: seq<Code> := [
    SchemaUnsupported, ResourceBudgetExceeded, DurabilityProfileUnavailable, RefNameInvalid,
    HashAlgorithmDomainMismatch, NativeObjectIdMismatch, ObjectClosureIncomplete]

  lemma NamesAreCanonical(p: Policy, ev: Evidence, req: Request)
    ensures var xs := AddressedIntents(req);
      Passes(3, p, ev, req) <==>
        forall i :: 0 <= i < |xs| && NamedRef(xs[i].intent).Some? ==> IsCanonical(NamedRef(xs[i].intent).value)
  {
    PrefixIsRefs();
    var xs := AddressedIntents(req);
    if Passes(3, p, ev, req) {
      forall i | 0 <= i < |xs| && NamedRef(xs[i].intent).Some? ensures IsCanonical(NamedRef(xs[i].intent).value)
      {
        MentionsIff(xs[i].intent, NamedRef(xs[i].intent).value);
      }
    }
  }

  /** A request that fails some checks is refused with the code of the first of them. */
  lemma FirstFailureIsTold(p: Policy, ev: Evidence, req: Request, k: nat)
    requires k < 7 && !Passes(k, p, ev, req) && forall j :: 0 <= j < k ==> Passes(j, p, ev, req)
    ensures Screen(p, ev, req) == Some(CODES[k])
  {
    NamesAreCanonical(p, ev, req);
    if k > 0 { assert Passes(0, p, ev, req); }
    if k > 1 { assert Passes(1, p, ev, req); }
    if k > 2 { assert Passes(2, p, ev, req); }
    if k > 3 { assert Passes(3, p, ev, req); }
    if k > 4 { assert Passes(4, p, ev, req); }
    if k > 5 {
      assert Passes(5, p, ev, req);
      forall o ensures o in View(ev) <==> o in ev.objects || o in ev.quarantine { ViewIff(ev, o); }
    }
  }

  /** A commit means every admission check held. */
  lemma CommitIsAdmissible(p: Policy, ev: Evidence, b: Basis, req: Request)
    requires Evaluate(p, ev, b, req).verdict.Commit?
    ensures IsAdmissible(p, ev, req)
  {
    CommitsIff(p, ev, b, req);
    ScreenPassesIff(p, ev, req);
  }

  lemma {:induction false} RunningAddresses(b: Basis, xs: seq<Placed>)
    ensures var p := Process(b, xs);
      p.Running? ==> forall i :: 0 <= i < |xs| ==> p.mappings[i].address == xs[i].address
  {
    if xs != [] { RunningAddresses(b, xs[..|xs| - 1]); }
  }

  /** Once the checks pass there is one line per intent, whatever the verdict; an abort aborts every line. */
  lemma ConclusionIsReported(p: Policy, ev: Evidence, b: Basis, req: Request)
    requires IsAdmissible(p, ev, req)
    ensures var c, xs := Evaluate(p, ev, b, req), AddressedIntents(req);
      && |c.intentMap| == |xs| && (forall i :: 0 <= i < |xs| ==> c.intentMap[i].address == xs[i].address)
      && (Process(b, xs).Stopped? ==>
            c.verdict == Refuse(Process(b, xs).code) && forall i :: 0 <= i < |xs| ==> c.intentMap[i].disposition == Aborted)
      && (c.verdict.Refuse? ==> c.closure == {})
  {
    ScreenPassesIff(p, ev, req);
    RunningAddresses(b, AddressedIntents(req));
  }

  // ---- What a refusal says ----

  /** The change takes the ref off the line of its old value. */
  ghost predicate Rewinds(c: Case, name: RefName)
    requires name in c.effects.refs && name in c.olds
  {
    && c.effects.refs[name].Set? && c.olds[name].Some?
    && !IsAncestor(c.view, c.effects.refs[name].oid, c.olds[name].value)
  }

  /** Each refusal of a ref change says exactly what is wrong with it. */
  lemma RefProblemSays(c: Case, name: RefName)
    requires name in c.effects.refs && name in c.olds
    ensures var r, scope := RefProblem(c, name), ScopeOf(name);
      && (r == Some(RefNameInvalid) <==> scope == None)
      && (r == Some(CapabilityScopeViolation) <==> scope.Some? && scope.value !in c.capabilities.scopes)
      && (scope.Some? && scope.value in c.capabilities.scopes ==>
            && (r == Some(NonFastForwardRefused) <==> Rewinds(c, name) && name !in c.forced)
            && (r == Some(ForceNotPermitted) <==> Rewinds(c, name) && name in c.forced && !c.capabilities.mayForce)
            && (r == Some(ProtectedRefTransitionDenied) <==>
                  && scope.value in c.policy.protected
                  && (c.effects.refs[name] == Delete
                      || (Rewinds(c, name) && name in c.forced && c.capabilities.mayForce))))
  {
  }

  lemma StrangerHasNoRefs(c: Case)
    requires c.olds.Keys == c.effects.refs.Keys && IsLawful(c) && c.capabilities.scopes == {}
    ensures c.effects.refs.Keys == {}
  {
    if n :| n in c.effects.refs {
      assert false;
    }
  }

  /** A principal the policy does not know changes no ref, publishes no event and places no hold. */
  lemma StrangerChangesLittle(p: Policy, ev: Evidence, b: Basis, req: Request)
    requires req.principal !in p.principals && Evaluate(p, ev, b, req).verdict.Commit?
    ensures var e := Evaluate(p, ev, b, req).verdict.effects;
      e.refs.Keys == {} && e.forge.Keys == {} && forall r :: r in e.retention ==> r.hold != LegalHold
  {
    CommitsIff(p, ev, b, req);
    var c := CaseOf(p, ev, b, req, Diff(b, Process(b, AddressedIntents(req)).scratch));
    StrangerHasNoRefs(c);
  }

  ghost predicate RefsAreLawful(c: Case)
    requires c.olds.Keys == c.effects.refs.Keys
  {
    forall n :: n in c.effects.refs ==> IsLawfulRef(c, n)
  }

  lemma RefsClearIff(c: Case)
    requires c.olds.Keys == c.effects.refs.Keys
    ensures RefsAreLawful(c) <==> forall n :: n in c.effects.refs ==> RefProblem(c, n) == None
  {
    forall n | n in c.effects.refs ensures RefProblem(c, n) == None <==> IsLawfulRef(c, n) {}
  }

  /** An unlawful ref is told first, and of several the one whose name comes first. */
  lemma JudgeTellsRef(c: Case) returns (n: RefName)
    requires c.olds.Keys == c.effects.refs.Keys && !RefsAreLawful(c)
    ensures n in c.effects.refs && Judge(c) == RefProblem(c, n) != None
    ensures forall m :: m in c.effects.refs && RefProblem(c, m) != None && m != n ==> LexLess(n, m)
  {
    RefsClearIff(c);
    KeysAreOrdered();
    var problems := RefProblems(c);
    var first := FirstProblem(problems, LexLess);
    var m :| m in c.effects.refs && RefProblem(c, m) != None;
    assert problems[m] != None;
    n :| n in problems && problems[n] == first
         && forall j :: j in problems && problems[j] != None && j != n ==> LexLess(n, j);
    forall j | j in c.effects.refs && RefProblem(c, j) != None && j != n ensures LexLess(n, j) { assert j in problems; }
  }

  lemma RefsAreClear(c: Case)
    requires c.olds.Keys == c.effects.refs.Keys && RefsAreLawful(c)
    ensures IsTotalOrder(LexLess) && FirstProblem(RefProblems(c), LexLess) == None
  {
    RefsClearIff(c);
    KeysAreOrdered();
  }

  lemma {:induction false} StreamProblemIsMerge(refs: map<RefName, RefEffect>, events: seq<Event>)
    ensures StreamProblem(refs, events) in {None, Some(ForgeTransitionInvalid), Some(ConflictingSemanticEffects)}
  {
    if events != [] { StreamProblemIsMerge(refs, events[1..]); }
  }

  /** Then the right to publish events, then merges; holds come last. */
  lemma JudgeTellsRest(c: Case)
    requires c.olds.Keys == c.effects.refs.Keys && RefsAreLawful(c)
    ensures var mayPublish := c.effects.forge == map[] || c.capabilities.mayPublishForge;
      && (!mayPublish ==> Judge(c) == Some(CapabilityScopeViolation))
      && (mayPublish && !IsMergeAtomic(c.effects) ==>
            Judge(c) in {Some(ForgeTransitionInvalid), Some(ConflictingSemanticEffects)})
  {
    RefsAreClear(c);
    KeysAreOrdered();
    MergesAtomicIff(c.effects);
    var problems := MergeProblems(c.effects);
    forall s | s in problems
      ensures problems[s] in {None, Some(ForgeTransitionInvalid), Some(ConflictingSemanticEffects)}
    {
      StreamProblemIsMerge(c.effects.refs, c.effects.forge[s]);
    }
    var merge := FirstProblem(problems, LabelLess);
  }
}
