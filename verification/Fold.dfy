/**
 * The reference folder: ordered intents become target-disjoint net effects
 * (crates/fgit-reference/src/effect.rs:272-511).
 */
module Fold {
  import opened Bytes
  import opened Intents

  datatype Code =
    | ExpectedOldRefMismatch
    | ForgeTransitionInvalid
    | ResourceBudgetExceeded
    | EffectIdempotencyKeyReuse
    | SchemaUnsupported
    | DurabilityProfileUnavailable
    | RefNameInvalid
    | HashAlgorithmDomainMismatch
    | NativeObjectIdMismatch
    | ObjectClosureIncomplete
    | CapabilityScopeViolation
    | NonFastForwardRefused
    | ForceNotPermitted
    | ProtectedRefTransitionDenied
    | ConflictingSemanticEffects
    | RetentionHoldViolation
    | PolicyEpochSuperseded
    | BasisCapsuleNotReusable

  datatype RefEffect = Set(oid: Oid) | Delete

  datatype RetentionEffect = Add | Remove

  datatype Reason =
    | IdentityEffect
    | OverwrittenBySucceedingIntent
    | InverseCancelled
    | PreconditionMismatchNoOp
    | DuplicateIdenticalDelivery

  datatype Disposition =
    | Surviving(target: Target)
    | Absorbed(reason: Reason)
    | Failed(code: Code)
    | Aborted

  datatype Mapping = Mapping(address: Address, disposition: Disposition)

  /** What a fold reads: refs, stream positions, retention roots and bound deliveries. */
  datatype Basis = Basis(
    refs: map<RefName, Oid>,
    positions: map<Label, Position>,
    retention: set<RetentionRoot>,
    outbox: map<Label, Digest>)

  /** The folder's working copy: the basis as rewritten so far and the events appended so far. */
  datatype Scratch = Scratch(at: Basis, events: map<Label, seq<Event>>)

  datatype NetEffects = NetEffects(
    refs: map<RefName, RefEffect>,
    forge: map<Label, seq<Event>>,
    retention: map<RetentionRoot, RetentionEffect>,
    outbox: map<Label, Digest>)

  function Get<K, V>(m: map<K, V>, k: K): Option<V> {
    if k in m then Some(m[k]) else None
  }

  function PositionOf(b: Basis, stream: Label): Position {
    if stream in b.positions then b.positions[stream] else 0
  }

  function EventsOf(events: map<Label, seq<Event>>, stream: Label): seq<Event> {
    if stream in events then events[stream] else []
  }

  datatype Applied = Changed | Swallowed(reason: Reason) | Mismatch(code: Code)

  /** One intent on the scratch state, with read-your-own-writes. */
  function Apply(s: Scratch, i: Intent): (Scratch, Applied) {
    match i
    case UpdateRef(name, expected, oid, _) =>
      if !IsSatisfied(expected, Get(s.at.refs, name)) then (s, Mismatch(ExpectedOldRefMismatch))
      else if Get(s.at.refs, name) == Some(oid) then (s, Swallowed(IdentityEffect))
      else (s.(at := s.at.(refs := s.at.refs[name := oid])), Changed)
    case DeleteRef(name, expected) =>
      if !IsSatisfied(expected, Get(s.at.refs, name)) then (s, Mismatch(ExpectedOldRefMismatch))
      else if name in s.at.refs then (s.(at := s.at.(refs := s.at.refs - {name})), Changed)
      else (s, Swallowed(IdentityEffect))
    case Forge(stream, position, event) =>
      if PositionOf(s.at, stream) != position then (s, Mismatch(ForgeTransitionInvalid))
      else if position == LAST_POSITION then (s, Mismatch(ResourceBudgetExceeded))
      else
        (Scratch(s.at.(positions := s.at.positions[stream := position + 1]),
                 s.events[stream := EventsOf(s.events, stream) + [event]]), Changed)
    case AddRoot(root) =>
      if root in s.at.retention then (s, Swallowed(IdentityEffect))
      else (s.(at := s.at.(retention := s.at.retention + {root})), Changed)
    case RemoveRoot(root) =>
      if root in s.at.retention then (s.(at := s.at.(retention := s.at.retention - {root})), Changed)
      else (s, Swallowed(IdentityEffect))
    case Outbox(key, parameters) =>
      if key !in s.at.outbox then (s.(at := s.at.(outbox := s.at.outbox[key := parameters])), Changed)
      else if s.at.outbox[key] == parameters then (s, Swallowed(DuplicateIdenticalDelivery))
      else (s, Mismatch(EffectIdempotencyKeyReuse))
  }

  /** The fold so far: running, with each target's last writer, or stopped by an abort. */
  datatype Progress =
    | Running(scratch: Scratch, mappings: seq<Mapping>, writers: map<Target, nat>)
    | Stopped(code: Code, where: Address)

  function Begin(b: Basis): Progress {
    Running(Scratch(b, map[]), [], map[])
  }

  function Step(p: Progress, x: Placed): Progress
    requires p.Running?
  {
    var (s, applied) := Apply(p.scratch, x.intent);
    match applied
    case Changed =>
      Running(s, p.mappings + [Mapping(x.address, Surviving(TargetOf(x.intent)))],
              p.writers[TargetOf(x.intent) := |p.mappings|])
    case Swallowed(reason) =>
      Running(s, p.mappings + [Mapping(x.address, Absorbed(reason))], p.writers)
    case Mismatch(code) =>
      match x.policy
      case NoOp => Running(s, p.mappings + [Mapping(x.address, Absorbed(PreconditionMismatchNoOp))], p.writers)
      case StatementError => Running(s, p.mappings + [Mapping(x.address, Failed(code))], p.writers)
      case TxnAbort => Stopped(code, x.address)
  }

  /** Evaluation of intents in source order; an abort ends it. */
  function Process(b: Basis, xs: seq<Placed>): (p: Progress)
    ensures p.Running? ==> |p.mappings| == |xs|
  {
    if xs == [] then Begin(b)
    else
      var p := Process(b, xs[..|xs| - 1]);
      if p.Stopped? then p else Step(p, xs[|xs| - 1])
  }

  function DiffRefs(b: map<RefName, Oid>, s: map<RefName, Oid>): map<RefName, RefEffect> {
    map name | name in b.Keys + s.Keys && Get(b, name) != Get(s, name) ::
      if name in s then Set(s[name]) else Delete
  }

  function DiffRoots(b: set<RetentionRoot>, s: set<RetentionRoot>): map<RetentionRoot, RetentionEffect> {
    map root | root in b + s && !(root in b && root in s) :: if root in s then Add else Remove
  }

  function DiffOutbox(b: map<Label, Digest>, s: map<Label, Digest>): map<Label, Digest> {
    map key | key in s && Get(b, key) != Some(s[key]) :: s[key]
  }

  function DiffEvents(events: map<Label, seq<Event>>): map<Label, seq<Event>> {
    map stream | stream in events && events[stream] != [] :: events[stream]
  }

  /** The basis against the final scratch state, target by target. */
  function Diff(b: Basis, s: Scratch): NetEffects {
    NetEffects(
      DiffRefs(b.refs, s.at.refs),
      DiffEvents(s.events),
      DiffRoots(b.retention, s.at.retention),
      DiffOutbox(b.outbox, s.at.outbox))
  }

  /** The targets that end up different. */
  predicate Affects(e: NetEffects, t: Target) {
    match t
    case RefTarget(name) => name in e.refs
    case StreamTarget(stream) => stream in e.forge
    case RootTarget(root) => root in e.retention
    case OutboxTarget(key) => key in e.outbox
  }

  function ApplyRefs(b: map<RefName, Oid>, e: map<RefName, RefEffect>): map<RefName, Oid> {
    map n | n in b.Keys + e.Keys && !(n in e && e[n] == Delete) :: if n in e then e[n].oid else b[n]
  }

  function ApplyRoots(b: set<RetentionRoot>, e: map<RetentionRoot, RetentionEffect>): set<RetentionRoot> {
    b - (set r | r in e && e[r] == Remove) + (set r | r in e && e[r] == Add)
  }

  predicate Exhausts(b: Basis, e: map<Label, seq<Event>>) {
    exists s :: s in e && PositionOf(b, s) + |e[s]| > LAST_POSITION
  }

  function Advance(b: Basis, e: map<Label, seq<Event>>): map<Label, Position>
    requires !Exhausts(b, e)
  {
    map s | s in b.positions.Keys + e.Keys :: if s in e then PositionOf(b, s) + |e[s]| else b.positions[s]
  }

  /** Net effects applied to a basis; nothing when a stream would pass its last position. */
  function ApplyEffects(b: Basis, e: NetEffects): Option<Basis> {
    if Exhausts(b, e.forge) then None
    else
      Some(Basis(ApplyRefs(b.refs, e.refs), Advance(b, e.forge),
                 ApplyRoots(b.retention, e.retention), b.outbox + e.outbox))
  }

  /** The final disposition of mapping `i`, from whether its target changed and who wrote it last. */
  function Resolve(e: NetEffects, writers: map<Target, nat>, i: nat, d: Disposition): Disposition {
    if !d.Surviving? then d
    else if d.target.StreamTarget? then
      if Affects(e, d.target) then d else Absorbed(IdentityEffect)
    else
      var changed, last := Affects(e, d.target), Get(writers, d.target) == Some(i);
      if changed then
        if last then d else Absorbed(OverwrittenBySucceedingIntent)
      else
        if last then Absorbed(IdentityEffect) else Absorbed(InverseCancelled)
  }

  datatype Outcome = Folded(effects: NetEffects) | AbortedAt(code: Code, where: Address)

  datatype Report = Report(outcome: Outcome, mappings: seq<Mapping>)

  /** The report of a fold as a function of its basis and request. */
  function Folding(b: Basis, xs: seq<Placed>): Report {
    var p := Process(b, xs);
    if p.Stopped? then
      Report(AbortedAt(p.code, p.where), seq(|xs|, i requires 0 <= i < |xs| => Mapping(xs[i].address, Aborted)))
    else
      var e := Diff(b, p.scratch);
      Report(Folded(e), seq(|xs|, i requires 0 <= i < |xs| =>
        p.mappings[i].(disposition := Resolve(e, p.writers, i, p.mappings[i].disposition))))
  }

  lemma {:induction false} StoppedStays(b: Basis, xs: seq<Placed>, i: nat)
    requires i <= |xs| && Process(b, xs[..i]).Stopped?
    ensures Process(b, xs) == Process(b, xs[..i])
    decreases |xs| - i
  {
    if i == |xs| {
      assert xs[..i] == xs;
    } else {
      assert xs[..i + 1][..i] == xs[..i];
      StoppedStays(b, xs, i + 1);
    }
  }

  /** Rewrites each provisional survivor in place, as the diff and the last writers decide. */
  method RetireAbsorbed(e: NetEffects, writers: map<Target, nat>, mappings: array<Mapping>)
    modifies mappings
    ensures forall i :: 0 <= i < mappings.Length ==>
      mappings[i] == old(mappings[i]).(disposition := Resolve(e, writers, i, old(mappings[i]).disposition))
  {
    for i := 0 to mappings.Length
      invariant forall j :: 0 <= j < i ==>
        mappings[j] == old(mappings[j]).(disposition := Resolve(e, writers, j, old(mappings[j]).disposition))
      invariant forall j :: i <= j < mappings.Length ==> mappings[j] == old(mappings[j])
    {
      var d := mappings[i].disposition;
      if !d.Surviving? { continue; }
      var changed := Affects(e, d.target);
      if d.target.StreamTarget? {
        if !changed { mappings[i] := mappings[i].(disposition := Absorbed(IdentityEffect)); }
        continue;
      }
      var last := Get(writers, d.target) == Some(i);
      if changed && last { continue; }
      var reason :=
        if changed then OverwrittenBySucceedingIntent
        else if last then IdentityEffect
        else InverseCancelled;
      mappings[i] := mappings[i].(disposition := Absorbed(reason));
    }
  }

  /** The fold loop: one pass over the intents, then the diff, then the retirement pass. */
  method FoldIntents(b: Basis, xs: seq<Placed>) returns (r: Report)
    ensures r == Folding(b, xs)
  {
    var scratch, mappings := Scratch(b, map[]), [];
    var writers: map<Target, nat> := map[];
    for i := 0 to |xs|
      invariant Process(b, xs[..i]) == Running(scratch, mappings, writers)
    {
      assert xs[..i + 1][..i] == xs[..i];
      var x := xs[i];
      var (next, applied) := Apply(scratch, x.intent);
      match applied {
        case Changed =>
          writers := writers[TargetOf(x.intent) := |mappings|];
          mappings := mappings + [Mapping(x.address, Surviving(TargetOf(x.intent)))];
        case Swallowed(reason) =>
          mappings := mappings + [Mapping(x.address, Absorbed(reason))];
        case Mismatch(code) =>
          match x.policy {
            case NoOp => mappings := mappings + [Mapping(x.address, Absorbed(PreconditionMismatchNoOp))];
            case StatementError => mappings := mappings + [Mapping(x.address, Failed(code))];
            case TxnAbort =>
              StoppedStays(b, xs, i + 1);
              var aborted := seq(|xs|, k requires 0 <= k < |xs| => Mapping(xs[k].address, Aborted));
              return Report(AbortedAt(code, x.address), aborted);
          }
      }
      scratch := next;
    }
    assert xs[..|xs|] == xs;
    var e := Diff(b, scratch);
    var table := new Mapping[|xs|](k requires 0 <= k < |mappings| => mappings[k]);
    RetireAbsorbed(e, writers, table);
    r := Report(Folded(e), table[..]);
    assert r.mappings == Folding(b, xs).mappings;
  }
}
