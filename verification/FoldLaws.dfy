/**
 * What the fold promises: each intent moves one cell, the effects carry the
 * basis to the final state and nothing else, every intent is accounted for,
 * and the whole report depends only on the cells its intents name.
 */
module FoldLaws {
  import opened Bytes
  import opened Intents
  import opened Fold

  /** The value of one target: what the basis holds there and what was appended there. */
  datatype Cell =
    | RefCell(value: Option<Oid>)
    | StreamCell(position: Position, events: seq<Event>)
    | RootCell(present: bool)
    | OutboxCell(bound: Option<Digest>)

  function CellAt(s: Scratch, t: Target): Cell {
    match t
    case RefTarget(name) => RefCell(Get(s.at.refs, name))
    case StreamTarget(stream) => StreamCell(PositionOf(s.at, stream), EventsOf(s.events, stream))
    case RootTarget(root) => RootCell(root in s.at.retention)
    case OutboxTarget(key) => OutboxCell(Get(s.at.outbox, key))
  }

  function BasisCell(b: Basis, t: Target): Cell {
    CellAt(Scratch(b, map[]), t)
  }

  /** An intent as a transition of the single cell it names. */
  function Move(c: Cell, i: Intent): (Cell, Applied) {
    match (c, i)
    case (RefCell(v), UpdateRef(_, expected, oid, _)) =>
      if !IsSatisfied(expected, v) then (c, Mismatch(ExpectedOldRefMismatch))
      else if v == Some(oid) then (c, Swallowed(IdentityEffect))
      else (RefCell(Some(oid)), Changed)
    case (RefCell(v), DeleteRef(_, expected)) =>
      if !IsSatisfied(expected, v) then (c, Mismatch(ExpectedOldRefMismatch))
      else if v == None then (c, Swallowed(IdentityEffect))
      else (RefCell(None), Changed)
    case (StreamCell(p, events), Forge(_, position, event)) =>
      if p != position then (c, Mismatch(ForgeTransitionInvalid))
      else if p == LAST_POSITION then (c, Mismatch(ResourceBudgetExceeded))
      else (StreamCell(p + 1, events + [event]), Changed)
    case (RootCell(present), AddRoot(_)) =>
      if present then (c, Swallowed(IdentityEffect)) else (RootCell(true), Changed)
    case (RootCell(present), RemoveRoot(_)) =>
      if present then (RootCell(false), Changed) else (c, Swallowed(IdentityEffect))
    case (OutboxCell(bound), Outbox(_, parameters)) =>
      if bound == None then (OutboxCell(Some(parameters)), Changed)
      else if bound == Some(parameters) then (c, Swallowed(DuplicateIdenticalDelivery))
      else (c, Mismatch(EffectIdempotencyKeyReuse))
    case _ => (c, Mismatch(ExpectedOldRefMismatch))
  }

  /** Applying an intent to the maps is exactly moving its own cell. */
  lemma ApplyIsLocal(s: Scratch, i: Intent)
    ensures var (s', a) := Apply(s, i);
      && (CellAt(s', TargetOf(i)), a) == Move(CellAt(s, TargetOf(i)), i)
      && forall t :: t != TargetOf(i) ==> CellAt(s', t) == CellAt(s, t)
  {
  }

  // ---- Shape of a running fold ----

  /** Cells nobody wrote still hold the basis. */
  ghost predicate IsUntouched(b: Basis, s: Scratch, writers: map<Target, nat>) {
    forall t :: t !in writers ==> CellAt(s, t) == BasisCell(b, t)
  }

  /** Each provisional survivor names its own target, and the writers are the last of them. */
  ghost predicate IsAccounted(xs: seq<Placed>, mappings: seq<Mapping>, writers: map<Target, nat>) {
    && |mappings| == |xs|
    && (forall t :: t in writers ==> writers[t] < |xs| && mappings[writers[t]].disposition == Surviving(t))
    && (forall i :: 0 <= i < |xs| ==> mappings[i].address == xs[i].address && mappings[i].disposition != Aborted)
    && (forall i :: 0 <= i < |xs| && mappings[i].disposition.Surviving? ==>
          var t := TargetOf(xs[i].intent);
          mappings[i].disposition == Surviving(t) && t in writers && i <= writers[t])
  }

  /** Streams advance by exactly the events appended to them. */
  ghost predicate IsAdvanced(b: Basis, s: Scratch) {
    && (forall k :: k in s.events ==>
          && s.events[k] != []
          && k in s.at.positions
          && s.at.positions[k] == PositionOf(b, k) + |s.events[k]|)
    && (forall k :: k !in s.events ==> Get(s.at.positions, k) == Get(b.positions, k))
  }

  /** A written stream has events. */
  ghost predicate IsLogged(s: Scratch, writers: map<Target, nat>) {
    forall k :: StreamTarget(k) in writers ==> k in s.events
  }

  /** A bound delivery key is never rebound. */
  ghost predicate IsStillBound(b: Basis, s: Scratch) {
    forall k :: k in b.outbox ==> k in s.at.outbox && s.at.outbox[k] == b.outbox[k]
  }

  /** What a running fold knows about its basis after the intents `xs`. */
  ghost predicate IsFaithful(b: Basis, xs: seq<Placed>, p: Progress) {
    && p.Running?
    && IsUntouched(b, p.scratch, p.writers)
    && IsAccounted(xs, p.mappings, p.writers)
    && IsAdvanced(b, p.scratch)
    && IsLogged(p.scratch, p.writers)
    && IsStillBound(b, p.scratch)
  }

  lemma ApplyKeepsLogs(b: Basis, s: Scratch, i: Intent)
    requires IsAdvanced(b, s) && IsStillBound(b, s)
    ensures IsAdvanced(b, Apply(s, i).0) && IsStillBound(b, Apply(s, i).0)
  {
  }

  lemma ApplyKeepsLogged(s: Scratch, i: Intent, writers: map<Target, nat>, n: nat)
    requires IsLogged(s, writers)
    ensures var (s', a) := Apply(s, i);
      IsLogged(s', if a == Changed then writers[TargetOf(i) := n] else writers)
  {
  }

  lemma MoveWithoutChange(c: Cell, i: Intent)
    requires Move(c, i).1 != Changed
    ensures Move(c, i).0 == c
  {
  }

  lemma ApplyKeepsUntouched(b: Basis, s: Scratch, i: Intent, writers: map<Target, nat>, n: nat)
    requires IsUntouched(b, s, writers)
    ensures var (s', a) := Apply(s, i);
      IsUntouched(b, s', if a == Changed then writers[TargetOf(i) := n] else writers)
  {
    ApplyIsLocal(s, i);
    var (s', a) := Apply(s, i);
    if a != Changed { MoveWithoutChange(CellAt(s, TargetOf(i)), i); }
    var after := if a == Changed then writers[TargetOf(i) := n] else writers;
    forall t | t !in after ensures CellAt(s', t) == BasisCell(b, t)
    {
      assert t !in writers;
      assert CellAt(s, t) == BasisCell(b, t);
    }
  }

  lemma AccountSurvivor(xs: seq<Placed>, mappings: seq<Mapping>, writers: map<Target, nat>, x: Placed)
    requires IsAccounted(xs, mappings, writers)
    ensures IsAccounted(xs + [x], mappings + [Mapping(x.address, Surviving(TargetOf(x.intent)))],
                        writers[TargetOf(x.intent) := |mappings|])
  {
  }

  lemma AccountOther(xs: seq<Placed>, mappings: seq<Mapping>, writers: map<Target, nat>, x: Placed, d: Disposition)
    requires IsAccounted(xs, mappings, writers) && !d.Surviving? && d != Aborted
    ensures IsAccounted(xs + [x], mappings + [Mapping(x.address, d)], writers)
  {
  }

  lemma StepIsFaithful(b: Basis, xs: seq<Placed>, p: Progress, x: Placed)
    requires IsFaithful(b, xs, p) && Step(p, x).Running?
    ensures IsFaithful(b, xs + [x], Step(p, x))
  {
    ApplyKeepsLogs(b, p.scratch, x.intent);
    ApplyKeepsLogged(p.scratch, x.intent, p.writers, |p.mappings|);
    ApplyKeepsUntouched(b, p.scratch, x.intent, p.writers, |p.mappings|);
    var (s, a) := Apply(p.scratch, x.intent);
    if a == Changed {
      AccountSurvivor(xs, p.mappings, p.writers, x);
    } else {
      AccountOther(xs, p.mappings, p.writers, x, Step(p, x).mappings[|xs|].disposition);
    }
  }

  lemma {:induction false} ProcessIsFaithful(b: Basis, xs: seq<Placed>)
    requires Process(b, xs).Running?
    ensures IsFaithful(b, xs, Process(b, xs))
  {
    if xs != [] {
      var front := xs[..|xs| - 1];
      ProcessIsFaithful(b, front);
      StepIsFaithful(b, front, Process(b, front), xs[|xs| - 1]);
      assert front + [xs[|xs| - 1]] == xs;
    }
  }

  // ---- The effects carry the basis to the final state ----

  lemma RefsCarry(b: map<RefName, Oid>, s: map<RefName, Oid>)
    ensures ApplyRefs(b, DiffRefs(b, s)) == s
  {
  }

  lemma RootsCarry(b: set<RetentionRoot>, s: set<RetentionRoot>)
    ensures ApplyRoots(b, DiffRoots(b, s)) == s
  {
  }

  lemma OutboxCarries(b: map<Label, Digest>, s: map<Label, Digest>)
    requires forall k :: k in b ==> k in s && s[k] == b[k]
    ensures b + DiffOutbox(b, s) == s
  {
    var r := b + DiffOutbox(b, s);
    forall k ensures k in r <==> k in s
    {
      if k in s && k !in b { assert k in DiffOutbox(b, s); }
    }
    forall k | k in s ensures r[k] == s[k]
    {
      if k in b { assert s[k] == b[k]; }
    }
    assert r.Keys == s.Keys;
  }

  lemma StreamsCarry(b: Basis, s: Scratch)
    requires IsAdvanced(b, s)
    ensures !Exhausts(b, DiffEvents(s.events)) && Advance(b, DiffEvents(s.events)) == s.at.positions
  {
    var e := DiffEvents(s.events);
    forall k ensures k in e <==> k in s.events { assert k in s.events ==> s.events[k] != []; }
    forall k ensures k in b.positions.Keys + e.Keys <==> k in s.at.positions
    {
      if k !in s.events { assert Get(s.at.positions, k) == Get(b.positions, k); }
    }
    forall k | k in s.at.positions && k !in e ensures s.at.positions[k] == b.positions[k]
    {
      assert Get(s.at.positions, k) == Get(b.positions, k);
    }
  }

  /**
   * Folding is sound: unless it aborts, applying its effects to the basis never
   * exhausts a stream and yields exactly the state the intents reached in order.
   */
  lemma FoldCarriesBasis(b: Basis, xs: seq<Placed>)
    requires Process(b, xs).Running?
    ensures var p, r := Process(b, xs), Folding(b, xs);
      r.outcome.Folded? && ApplyEffects(b, r.outcome.effects) == Some(p.scratch.at)
  {
    var p := Process(b, xs);
    ProcessIsFaithful(b, xs);
    RefsCarry(b.refs, p.scratch.at.refs);
    RootsCarry(b.retention, p.scratch.at.retention);
    OutboxCarries(b.outbox, p.scratch.at.outbox);
    StreamsCarry(b, p.scratch);
  }

  /** A ref intent mismatches exactly when it expects absence of a ref that is there, or another value than it has. */
  lemma RefMismatchIff(s: Scratch, i: Intent)
    requires i.UpdateRef? || i.DeleteRef?
    ensures Apply(s, i).1.Mismatch? <==>
      || (i.expected.Absent? && i.name in s.at.refs)
      || (i.expected.Exact? && !(i.name in s.at.refs && s.at.refs[i.name] == i.expected.oid))
  {
  }
}
