/**
 * Admission of one request against a basis: schema, budget, namespace, object
 * availability, the fold, and policy over the net effects
 * (crates/fgit-reference/src/transition.rs:307-562).
 */
module Evaluation {
  import opened Bytes
  import opened Order
  import opened Intents
  import opened Fold
  import opened Ancestry

  datatype Capabilities = Capabilities(scopes: set<bytes>, mayForce: bool, mayPublishForge: bool, mayHold: bool)

  datatype Policy = Policy(
    epoch: nat,
    protected: set<bytes>,
    principals: map<Label, Capabilities>,
    maxIntents: nat,
    schemas: set<Label>,
    durabilities: set<Durability>)

  function CapabilitiesOf(p: Policy, principal: Label): Capabilities {
    if principal in p.principals then p.principals[principal] else Capabilities({}, false, false, false)
  }

  /** A quarantined object, filed under the identity it declares. */
  datatype Staged = Staged(recomputed: Oid, parents: seq<Oid>)

  type Quarantine = map<Oid, Staged>

  predicate IsVerified(q: Quarantine, o: Oid) {
    o in q && q[o].recomputed == o
  }

  /** The objects preparation may reason about: the admitted ones and this transaction's verified ones. */
  datatype Evidence = Evidence(format: Format, objects: Parents, quarantine: Quarantine)

  function View(ev: Evidence): Parents {
    ev.objects + map o | o in ev.quarantine && IsVerified(ev.quarantine, o) :: ev.quarantine[o].parents
  }

  /** Every object the effects make reachable is in `closure`. */
  predicate IsWithin(e: NetEffects, closure: set<Oid>) {
    && (forall n :: n in e.refs && e.refs[n].Set? ==> e.refs[n].oid in closure)
    && (forall r :: r in e.retention && e.retention[r] == Add ==> r.oid in closure)
  }

  predicate IsCanonical(name: RefName) {
    Ascii("refs/") <= name
  }

  function ScopeOf(name: RefName): Option<bytes> {
    var parts := Split(name, CharByte('/'));
    if IsCanonical(name) && |parts| > 1 then Some(parts[1]) else None
  }

  /** The ref an intent names, when it names one. */
  function NamedRef(i: Intent): Option<RefName> {
    match i
    case UpdateRef(name, _, _, _) => Some(name)
    case DeleteRef(name, _) => Some(name)
    case Forge(_, _, event) =>
      if event.WorkflowCheckObserved? then Some(event.source)
      else if event.PullRequestOpened? || event.PullRequestMerged? || event.PullRequestUpdated?
              || event.PullRequestReviewed? || event.MergeQueueChanged? then Some(event.target)
      else None
    case _ => None
  }

  /** The object an intent names, when it names one. */
  function NamedObject(i: Intent): Option<Oid> {
    match i
    case UpdateRef(_, _, oid, _) => Some(oid)
    case AddRoot(root) => Some(root.oid)
    case _ => None
  }

  function IntentObjects(xs: seq<Placed>): set<Oid> {
    set i | 0 <= i < |xs| && NamedObject(xs[i].intent).Some? :: NamedObject(xs[i].intent).value
  }

  function ForcedRefs(xs: seq<Placed>): set<RefName> {
    set i | 0 <= i < |xs| && xs[i].intent.UpdateRef? && xs[i].intent.force :: xs[i].intent.name
  }

  function Closure(req: Request): set<Oid> {
    req.promised + IntentObjects(AddressedIntents(req))
  }

  // ---- Checks before the fold ----

  /** The first admission check that fails, in the order the code makes them. */
  ghost function Screen(p: Policy, ev: Evidence, req: Request): Option<Code> {
    var xs := AddressedIntents(req);
    if req.schema !in p.schemas then Some(SchemaUnsupported)
    else if |xs| > p.maxIntents then Some(ResourceBudgetExceeded)
    else if req.durability !in p.durabilities then Some(DurabilityProfileUnavailable)
    else if exists i :: 0 <= i < |xs| && NamedRef(xs[i].intent).Some? && !IsCanonical(NamedRef(xs[i].intent).value) then
      Some(RefNameInvalid)
    else if exists o :: o in Closure(req) && o.format != ev.format then Some(HashAlgorithmDomainMismatch)
    else if exists o :: o in ev.quarantine && !IsVerified(ev.quarantine, o) then Some(NativeObjectIdMismatch)
    else if exists o :: o in Closure(req) && o !in View(ev) then Some(ObjectClosureIncomplete)
    else None
  }

  // ---- Policy over the net effects ----

  /** Everything policy looks at. */
  datatype Case = Case(
    policy: Policy,
    capabilities: Capabilities,
    forced: set<RefName>,
    olds: map<RefName, Option<Oid>>,
    effects: NetEffects,
    view: Parents)

  ghost function RefProblem(c: Case, name: RefName): Option<Code>
    requires name in c.effects.refs && name in c.olds
  {
    var scope := ScopeOf(name);
    if scope == None then Some(RefNameInvalid)
    else if scope.value !in c.capabilities.scopes then Some(CapabilityScopeViolation)
    else
      var rewinds := c.effects.refs[name].Set? && c.olds[name].Some?
                     && !IsAncestor(c.view, c.effects.refs[name].oid, c.olds[name].value);
      if c.effects.refs[name].Set? && !rewinds then None
      else if rewinds && name !in c.forced then Some(NonFastForwardRefused)
      else if rewinds && !c.capabilities.mayForce then Some(ForceNotPermitted)
      else if scope.value in c.policy.protected then Some(ProtectedRefTransitionDenied)
      else None
  }

  function EventProblem(refs: map<RefName, RefEffect>, e: Event): Option<Code> {
    if !e.PullRequestMerged? then None
    else if e.target !in refs then Some(ForgeTransitionInvalid)
    else if refs[e.target] == Delete then Some(ConflictingSemanticEffects)
    else None
  }

  /** The first problem among a stream's events, in append order. */
  function StreamProblem(refs: map<RefName, RefEffect>, events: seq<Event>): (r: Option<Code>)
    ensures r == None <==> forall i :: 0 <= i < |events| ==> EventProblem(refs, events[i]) == None
  {
    if events == [] then None
    else if EventProblem(refs, events[0]) != None then EventProblem(refs, events[0])
    else StreamProblem(refs, events[1..])
  }

  function RootProblem(c: Capabilities, root: RetentionRoot, e: RetentionEffect): Option<Code> {
    if root.hold != LegalHold then None
    else if e == Remove then Some(RetentionHoldViolation)
    else if !c.mayHold then Some(CapabilityScopeViolation)
    else None
  }

  function ClassRank(c: RetentionClass): int {
    match c case ReferencedByRef => 0 case LegalHold => 1 case GraceTombstone => 2
  }

  predicate OidLess(a: Oid, b: Oid) {
    if a.format != b.format then a.format.Sha1? else a.digest < b.digest
  }

  predicate RootLess(a: RetentionRoot, b: RetentionRoot) {
    if a.oid != b.oid then OidLess(a.oid, b.oid) else ClassRank(a.hold) < ClassRank(b.hold)
  }

  predicate LabelLess(a: Label, b: Label) {
    a < b
  }

  lemma KeysAreOrdered()
    ensures IsTotalOrder(LabelLess) && IsTotalOrder(RootLess) && IsTotalOrder(LexLess)
  {
    LexIsTotalOrder();
    forall a: RetentionRoot, b: RetentionRoot, c: RetentionRoot | RootLess(a, b) && RootLess(b, c)
      ensures RootLess(a, c)
    {
    }
  }

  /** The problem at the first key that has one, in key order. */
  ghost function FirstProblem<K(!new)>(problems: map<K, Option<Code>>, less: (K, K) -> bool): (r: Option<Code>)
    requires IsTotalOrder(less)
    ensures r == None <==> forall k :: k in problems ==> problems[k] == None
    ensures r != None ==> exists k :: k in problems && problems[k] == r
                                    && forall j :: j in problems && problems[j] != None && j != k ==> less(k, j)
  {
    var bad := set k | k in problems && problems[k] != None;
    if bad == {} then
      assert forall k :: k in problems ==> problems[k] == None by {
        forall k | k in problems ensures problems[k] == None { assert k !in bad; }
      }
      None
    else
      var k := Least(bad, less);
      assert k in bad;
      problems[k]
  }

  ghost function Least<K(!new)>(s: set<K>, less: (K, K) -> bool): (k: K)
    requires IsTotalOrder(less) && s != {}
    ensures IsLeast(s, less, k)
  {
    assert exists k :: IsLeast(s, less, k) by { var k := LeastExists(s, less); }
    var k :| IsLeast(s, less, k);
    k
  }

  ghost function RefProblems(c: Case): map<RefName, Option<Code>>
    requires c.olds.Keys == c.effects.refs.Keys
  {
    map n | n in c.effects.refs :: RefProblem(c, n)
  }

  function MergeProblems(e: NetEffects): map<Label, Option<Code>> {
    map s | s in e.forge :: StreamProblem(e.refs, e.forge[s])
  }

  function RootProblems(c: Case): map<RetentionRoot, Option<Code>> {
    map r | r in c.effects.retention :: RootProblem(c.capabilities, r, c.effects.retention[r])
  }

  ghost function Judge(c: Case): Option<Code>
    requires c.olds.Keys == c.effects.refs.Keys
  {
    KeysAreOrdered();
    var ref := FirstProblem(RefProblems(c), LexLess);
    if ref != None then ref
    else if c.effects.forge != map[] && !c.capabilities.mayPublishForge then Some(CapabilityScopeViolation)
    else
      var merge := FirstProblem(MergeProblems(c.effects), LabelLess);
      if merge != None then merge else FirstProblem(RootProblems(c), RootLess)
  }

  // ---- Evaluation ----

  datatype Verdict = Commit(effects: NetEffects) | Refuse(code: Code)

  datatype Conclusion = Conclusion(verdict: Verdict, intentMap: seq<Mapping>, closure: set<Oid>)

  function CaseOf(p: Policy, ev: Evidence, b: Basis, req: Request, e: NetEffects): Case {
    Case(p, CapabilitiesOf(p, req.principal), ForcedRefs(AddressedIntents(req)),
         map n | n in e.refs :: Get(b.refs, n), e, View(ev))
  }

  ghost function Evaluate(p: Policy, ev: Evidence, b: Basis, req: Request): Conclusion {
    var screened := Screen(p, ev, req);
    if screened != None then Conclusion(Refuse(screened.value), [], {})
    else
      var report := Folding(b, AddressedIntents(req));
      if report.outcome.AbortedAt? then Conclusion(Refuse(report.outcome.code), report.mappings, {})
      else
        var e := report.outcome.effects;
        var judged := Judge(CaseOf(p, ev, b, req, e));
        if judged != None then Conclusion(Refuse(judged.value), report.mappings, {})
        else Conclusion(Commit(e), report.mappings, Closure(req))
  }
}
