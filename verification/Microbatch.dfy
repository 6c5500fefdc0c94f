/**
 * Non-atomic receives: many commands, published in groups of at most 64 by one
 * head swap each, while others publish too
 * (crates/fgit-admission/src/microbatch.rs:40-43, 163-310, 548-736).
 */
module Microbatch {
  import opened Bytes
  import opened Intents
  import opened Fold
  import opened Receive
  import opened BatchCodec

  const MAX_DECISIONS := 64

  type Refs = map<RefName, Oid>

  datatype Decision = Accepted | Declined(code: Code)

  /** Hidden refs, protection and materialisation: what may refuse a command besides its fold. */
  type Guard = (Refs, Command) -> Option<Code>

  /** One command decided at the refs it meets. */
  function Decide(guard: Guard, refs: Refs, c: Command): Decision {
    if guard(refs, c).Some? then Declined(guard(refs, c).value)
    else
      var p := Process(Basis(refs, map[], {}, map[]), Place([c]));
      if p.Stopped? then Declined(p.code) else Accepted
  }

  /** Unless guarded, a command is accepted exactly when its old value holds. */
  lemma DecideIff(guard: Guard, refs: Refs, c: Command)
    ensures Decide(guard, refs, c).Accepted? <==> guard(refs, c) == None && IsMet(refs, c)
  {
    AtomicFold(Basis(refs, map[], {}, map[]), [c]);
    assert AreMet(refs, [c]) <==> IsMet(refs, c) by {
      assert [c][0] == c;
    }
  }

  // ---- The shared history ----

  datatype Session = Session(guard: Guard, commands: seq<Command>, start: Refs)

  /** A command of the session decided, by whoever published it, or someone else's publication. */
  datatype Entry = Decided(index: nat, decision: Decision) | Foreign(refs: Refs)

  type Log = seq<Entry>

  function After(m: Session, refs: Refs, e: Entry): Refs {
    match e
    case Foreign(r) => r
    case Decided(i, d) => if d.Accepted? && i < |m.commands| then Moved(refs, [m.commands[i]]) else refs
  }

  /** The refs at the head. */
  function RefsAt(m: Session, log: Log): Refs {
    if log == [] then m.start else After(m, RefsAt(m, log[..|log| - 1]), log[|log| - 1])
  }

  /** The terminal decision of a command, when it has one. */
  function Lookup(log: Log, i: nat): Option<Decision> {
    if log == [] then None
    else
      var before, e := Lookup(log[..|log| - 1], i), log[|log| - 1];
      if before.Some? then before else if e.Decided? && e.index == i then Some(e.decision) else None
  }

  /** Command `i` published on its own: decided at the head as it stands. */
  function Judged(m: Session, log: Log, i: nat): Entry
    requires i < |m.commands|
  {
    Decided(i, Decide(m.guard, RefsAt(m, log), m.commands[i]))
  }

  /**
   * Every decision is the one its command would have got alone, read and
   * published at that very place, and no command is decided twice.
   */
  ghost predicate IsSerial(m: Session, log: Log) {
    forall k :: 0 <= k < |log| && log[k].Decided? ==>
      && log[k].index < |m.commands|
      && Lookup(log[..k], log[k].index) == None
      && log[k] == Judged(m, log[..k], log[k].index)
  }

  lemma LogSnoc(m: Session, log: Log, e: Entry, i: nat)
    ensures RefsAt(m, log + [e]) == After(m, RefsAt(m, log), e)
    ensures Lookup(log + [e], i) ==
      if Lookup(log, i).Some? then Lookup(log, i) else if e.Decided? && e.index == i then Some(e.decision) else None
  {
    assert (log + [e])[..|log|] == log;
  }

  /**
   * In a serial history a command is accepted exactly when nothing guards
   * against it and its old value holds just then; it then moves its ref to its
   * new value, and otherwise moves nothing.
   */
  lemma SerialMeaning(m: Session, log: Log, k: nat)
    requires IsSerial(m, log) && k < |log| && log[k].Decided?
    ensures log[k].index < |m.commands|
    ensures var c, before, after := m.commands[log[k].index], RefsAt(m, log[..k]), RefsAt(m, log[..k + 1]);
      if m.guard(before, c) == None && IsMet(before, c)
      then log[k].decision.Accepted? && Get(after, c.name) == c.after
           && forall n :: n != c.name ==> Get(after, n) == Get(before, n)
      else log[k].decision.Declined? && after == before
  {
    var c, before := m.commands[log[k].index], RefsAt(m, log[..k]);
    assert log[..k + 1] == log[..k] + [log[k]];
    LogSnoc(m, log[..k], log[k], 0);
    DecideIff(m.guard, before, c);
    MovedTo(before, [c], 0);
    forall n | n != c.name ensures Get(Moved(before, [c]), n) == Get(before, n)
    {
      MovedElsewhere(before, [c], n);
    }
  }

  lemma SerialSnoc(m: Session, log: Log, e: Entry)
    requires IsSerial(m, log)
    requires e.Decided? ==> e.index < |m.commands| && Lookup(log, e.index) == None && e == Judged(m, log, e.index)
    ensures IsSerial(m, log + [e])
  {
    var all := log + [e];
    assert all[..|log|] == log;
    forall k | 0 <= k < |log| ensures all[..k] == log[..k] && all[k] == log[k] {}
  }

  lemma {:induction false} LookupStays(log: Log, more: Log, i: nat)
    requires Lookup(log, i).Some?
    ensures Lookup(log + more, i) == Lookup(log, i)
  {
    if more == [] {
      assert log + more == log;
    } else {
      var n := |more| - 1;
      LookupStays(log, more[..n], i);
      assert (log + more)[..|log + more| - 1] == log + more[..n];
    }
  }

  // ---- The others ----

  /** Others publish refs of their own, or carry on this session after finding it half done. */
  datatype Action = Write(refs: Refs) | Resume(index: nat)

  function Perform(m: Session, log: Log, a: Action): Log {
    match a
    case Write(refs) => log + [Foreign(refs)]
    case Resume(i) => if i < |m.commands| && Lookup(log, i) == None then log + [Judged(m, log, i)] else log
  }

  function PerformAll(m: Session, log: Log, actions: seq<Action>): Log {
    if actions == [] then log
    else Perform(m, PerformAll(m, log, actions[..|actions| - 1]), actions[|actions| - 1])
  }

  lemma {:induction false} PerformIsSerial(m: Session, log: Log, actions: seq<Action>)
    requires IsSerial(m, log)
    ensures IsSerial(m, PerformAll(m, log, actions)) && log <= PerformAll(m, log, actions)
  {
    if actions != [] {
      var n := |actions| - 1;
      PerformIsSerial(m, log, actions[..n]);
      var before := PerformAll(m, log, actions[..n]);
      var after := Perform(m, before, actions[n]);
      if after != before { SerialSnoc(m, before, after[|before|]); }
    }
  }

  // ---- The session's own tables ----

  /** Everything remembered is what the history says. */
  ghost predicate AreTrue(log: Log, known: seq<Option<Decision>>) {
    forall i :: 0 <= i < |known| && known[i].Some? ==> known[i] == Lookup(log, i)
  }

  lemma StaysTrue(log: Log, log': Log, known: seq<Option<Decision>>)
    requires AreTrue(log, known) && log <= log'
    ensures AreTrue(log', known)
  {
    forall i | 0 <= i < |known| && known[i].Some? ensures known[i] == Lookup(log', i)
    {
      LookupStays(log, log'[|log|..], i);
      assert log' == log + log'[|log|..];
    }
  }

  /** The longest run of remembered decisions from the first command on. */
  ghost predicate IsResolved(known: seq<Option<Decision>>, completed: seq<Decision>) {
    && |completed| <= |known|
    && (forall i :: 0 <= i < |completed| ==> known[i] == Some(completed[i]))
    && (|completed| < |known| ==> known[|completed|] == None)
  }

  /** Remembers one decision and extends the resolved prefix over whatever is now contiguous. */
  method Remember(known: array<Option<Decision>>, before: seq<Decision>, index: nat, d: Decision)
      returns (completed: seq<Decision>)
    requires index < known.Length && known[index] == None && IsResolved(known[..], before)
    modifies known
    ensures known[..] == old(known[..])[index := Some(d)]
    ensures IsResolved(known[..], completed)
  {
    known[index] := Some(d);
    completed := before;
    while |completed| < known.Length && known[|completed|].Some?
      invariant |completed| <= known.Length && forall i :: 0 <= i < |completed| ==> known[i] == Some(completed[i])
      decreases known.Length - |completed|
    {
      completed := completed + [known[|completed|].value];
    }
  }

  /** Looks the unresolved commands of one group up in the history. */
  method Learn(log: Log, known: array<Option<Decision>>, before: seq<Decision>, from: nat, until: nat)
      returns (completed: seq<Decision>)
    requires from <= until <= known.Length && IsResolved(known[..], before) && AreTrue(log, known[..])
    modifies known
    ensures IsResolved(known[..], completed) && AreTrue(log, known[..])
    ensures forall i :: 0 <= i < known.Length && old(known[i]).Some? ==> known[i] == old(known[i])
    ensures forall i :: from <= i < until ==> known[i] == Lookup(log, i)
    ensures forall i :: 0 <= i < known.Length && !(from <= i < until) ==> known[i] == old(known[i])
  {
    completed := before;
    for i := from to until
      invariant IsResolved(known[..], completed) && AreTrue(log, known[..])
      invariant forall j :: 0 <= j < known.Length && old(known[j]).Some? ==> known[j] == old(known[j])
      invariant forall j :: from <= j < i ==> known[j] == Lookup(log, j)
      invariant forall j :: 0 <= j < known.Length && !(from <= j < i) ==> known[j] == old(known[j])
    {
      if known[i] == None {
        var d := Lookup(log, i);
        if d.Some? {
          completed := Remember(known, completed, i, d.value);
        }
      } else {
        assert known[..][i] == Lookup(log, i);
      }
    }
  }

  // ---- One group ----

  /** The first `n` commands published one at a time by a session that has the repository to itself. */
  function OneByOne(m: Session, n: nat): Log
    requires n <= |m.commands|
  {
    if n == 0 then [] else OneByOne(m, n - 1) + [Judged(m, OneByOne(m, n - 1), n - 1)]
  }

  lemma {:induction false} LaterIsUndecided(m: Session, n: nat, i: nat)
    requires n <= |m.commands| && n <= i
    ensures Lookup(OneByOne(m, n), i) == None
  {
    if n > 0 {
      var before := OneByOne(m, n - 1);
      LaterIsUndecided(m, n - 1, i);
      LogSnoc(m, before, Judged(m, before, n - 1), i);
    }
  }

  lemma JudgedNext(m: Session, log: Log, i: nat)
    requires i < |m.commands| && Lookup(log, i) == None && IsSerial(m, log)
    ensures var e := Judged(m, log, i);
      && IsSerial(m, log + [e])
      && RefsAt(m, log + [e]) == After(m, RefsAt(m, log), e)
      && Lookup(log + [e], i) == Some(e.decision)
      && forall j :: j != i ==> Lookup(log + [e], j) == Lookup(log, j)
  {
    var e := Judged(m, log, i);
    SerialSnoc(m, log, e);
    forall j ensures Lookup(log + [e], j) == if j == i then Some(e.decision) else Lookup(log, j)
    {
      LogSnoc(m, log, e, j);
    }
    LogSnoc(m, log, e, i);
  }

  /** The history with commands `from` to `i` of a group evaluated on top of `base`. */
  ghost predicate IsEvaluated(m: Session, base: Log, log: Log, from: nat, i: nat, until: nat)
    requires from <= i <= until <= |m.commands|
  {
    && IsSerial(m, log)
    && (forall j :: from <= j < i ==> Lookup(log, j).Some?)
    && (forall j :: i <= j < until ==> Lookup(log, j) == Lookup(base, j))
    && (base == OneByOne(m, from) ==> log == OneByOne(m, i))
  }

  lemma EvaluatesNext(m: Session, base: Log, log: Log, from: nat, i: nat, until: nat)
    requires from <= i < until <= |m.commands| && IsEvaluated(m, base, log, from, i, until)
    ensures Lookup(base, i) == None ==> IsEvaluated(m, base, log + [Judged(m, log, i)], from, i + 1, until)
    ensures Lookup(base, i).Some? ==> IsEvaluated(m, base, log, from, i + 1, until)
  {
    if base == OneByOne(m, from) { LaterIsUndecided(m, from, i); }
    if Lookup(base, i) == None { JudgedNext(m, log, i); }
  }

  lemma WorkingNext(m: Session, log: Log, i: nat, working: Refs, d: Decision)
    requires i < |m.commands| && working == RefsAt(m, log) && d == Decide(m.guard, working, m.commands[i])
    ensures Judged(m, log, i) == Decided(i, d)
    ensures RefsAt(m, log + [Decided(i, d)]) == if d.Accepted? then Moved(working, [m.commands[i]]) else working
  {
    LogSnoc(m, log, Decided(i, d), i);
  }

  lemma AppendsOne(base: Log, log: Log, e: Entry)
    requires base <= log
    ensures base <= log + [e] && (log + [e])[|base|..] == log[|base|..] + [e]
  {
  }

  /**
   * The unresolved commands of one group in wire order, each seeing the
   * accepted ones before it; returns the history as it would then be.
   */
  method Evaluate(m: Session, base: Log, known: seq<Option<Decision>>, from: nat, until: nat)
      returns (log: Log, batch: Log)
    requires from <= until <= |known| == |m.commands| && IsSerial(m, base)
    requires forall i :: from <= i < until ==> known[i] == Lookup(base, i)
    ensures IsEvaluated(m, base, log, from, until, until)
    ensures base <= log && batch == log[|base|..] && |batch| <= until - from
  {
    var working := RefsAt(m, base);
    log, batch := base, [];
    for i := from to until
      invariant base <= log && batch == log[|base|..] && |batch| <= i - from
      invariant working == RefsAt(m, log) && IsEvaluated(m, base, log, from, i, until)
    {
      EvaluatesNext(m, base, log, from, i, until);
      if known[i] == None {
        var d := Decide(m.guard, working, m.commands[i]);
        WorkingNext(m, log, i, working, d);
        AppendsOne(base, log, Decided(i, d));
        log, batch := log + [Decided(i, d)], batch + [Decided(i, d)];
        if d.Accepted? { working := Moved(working, [m.commands[i]]); }
      }
    }
  }

  /** The canonical body of a batch: one decision each, at most one record each. */
  predicate IsBodyOf(b: BatchBody, batch: Log) {
    |b.records| <= |b.decisions| == |batch|
  }

  ghost predicate IsQuiet(world: nat -> seq<Action>) {
    forall n :: world(n) == []
  }

  /** In each of `count` attempts from `first` on, others acted between the read and the swap. */
  ghost predicate IsInterfered(world: nat -> seq<Action>, first: nat, count: nat) {
    forall k :: first <= k < first + count ==> world(2 * k + 1) != []
  }

  /** The state of a session between groups. */
  ghost predicate IsKept(m: Session, log: Log, known: seq<Option<Decision>>, completed: seq<Decision>) {
    |known| == |m.commands| && IsSerial(m, log) && AreTrue(log, known) && IsResolved(known, completed)
  }

  predicate IsDone(known: seq<Option<Decision>>, from: nat, until: nat)
    requires from <= until <= |known|
  {
    forall i :: from <= i < until ==> known[i].Some?
  }

  /** The head after others have acted between the read and the swap: taken if it has not moved. */
  method Swap(m: Session, base: Log, planned: Log, actions: seq<Action>) returns (log: Log)
    requires IsSerial(m, base) && IsSerial(m, planned) && base <= planned
    ensures IsSerial(m, log) && base <= log
    ensures actions == [] ==> log == planned
  {
    log := PerformAll(m, base, actions);
    PerformIsSerial(m, base, actions);
    if log == base { log := planned; }
  }

  /** Seals a batch: whether its canonical bytes are within the bound, which those of a group always are. */
  method Seal(seal: Log -> BatchBody, batch: Log) returns (fits: bool)
    requires IsBodyOf(seal(batch), batch) && |batch| <= MAX_DECISIONS
    ensures fits
  {
    var frame := Encoded(seal(batch));
    fits := frame.Some? && |frame.value| <= MAX_BATCH_BYTES;
    GroupFits(seal(batch));
  }

  /** Reads the head and looks up what is already decided. */
  method ReadHead(m: Session, actions: seq<Action>, before: Log, known: array<Option<Decision>>,
                  resolved: seq<Decision>, from: nat, until: nat) returns (base: Log, completed: seq<Decision>)
    requires from <= until <= known.Length && IsKept(m, before, known[..], resolved)
    modifies known
    ensures IsKept(m, base, known[..], completed)
    ensures forall i :: 0 <= i < known.Length && old(known[i]).Some? ==> known[i].Some?
    ensures forall i :: from <= i < until ==> known[i] == Lookup(base, i)
    ensures actions == [] ==> base == before
  {
    base := PerformAll(m, before, actions);
    PerformIsSerial(m, before, actions);
    StaysTrue(before, base, known[..]);
    completed := Learn(base, known, resolved, from, until);
  }

  /** Evaluates what is open and swaps the head; a lost swap still teaches what others have decided. */
  method Publish(m: Session, actions: seq<Action>, seal: Log -> BatchBody, base: Log, known: array<Option<Decision>>,
                 resolved: seq<Decision>, from: nat, until: nat) returns (log: Log, completed: seq<Decision>)
    requires forall es :: IsBodyOf(seal(es), es)
    requires from <= until <= known.Length && until - from <= MAX_DECISIONS && IsKept(m, base, known[..], resolved)
    requires forall i :: from <= i < until ==> known[i] == Lookup(base, i)
    modifies known
    ensures IsKept(m, log, known[..], completed)
    ensures forall i :: 0 <= i < known.Length && old(known[i]).Some? ==> known[i].Some?
    ensures actions == [] ==> IsDone(known[..], from, until)
    ensures actions == [] && base == OneByOne(m, from) ==> log == OneByOne(m, until)
  {
    var planned, batch := Evaluate(m, base, known[..], from, until);
    var _ := Seal(seal, batch);
    log := Swap(m, base, planned, actions);
    StaysTrue(base, log, known[..]);
    completed := Learn(log, known, resolved, from, until);
  }

  /** One attempt at a group; nothing is published when everything in it turns out to be decided. */
  method Attempt(m: Session, world: nat -> seq<Action>, moment: nat, seal: Log -> BatchBody, before: Log,
                 known: array<Option<Decision>>, resolved: seq<Decision>, from: nat, until: nat)
      returns (log: Log, completed: seq<Decision>)
    requires forall es :: IsBodyOf(seal(es), es)
    requires from < until <= known.Length && until - from <= MAX_DECISIONS && IsKept(m, before, known[..], resolved)
    modifies known
    ensures IsKept(m, log, known[..], completed)
    ensures forall i :: 0 <= i < known.Length && old(known[i]).Some? ==> known[i].Some?
    ensures world(2 * moment + 1) == [] ==> IsDone(known[..], from, until)
    ensures IsQuiet(world) && before == OneByOne(m, from) ==> log == OneByOne(m, until)
  {
    log, completed := ReadHead(m, world(2 * moment), before, known, resolved, from, until);
    if IsDone(known[..], from, until) {
      assert log != OneByOne(m, from) by {
        assert known[..][from].Some?;
        LaterIsUndecided(m, from, from);
      }
    } else {
      log, completed := Publish(m, world(2 * moment + 1), seal, log, known, completed, from, until);
    }
  }

  // ---- The whole session ----

  /** One group: up to `replans` attempts, until everything in it is decided. */
  method AdmitGroup(m: Session, world: nat -> seq<Action>, replans: nat, seal: Log -> BatchBody, before: Log,
                    known: array<Option<Decision>>, resolved: seq<Decision>, from: nat, until: nat, first: nat)
      returns (ok: bool, log: Log, completed: seq<Decision>, moment: nat)
    requires forall es :: IsBodyOf(seal(es), es)
    requires from < until <= known.Length && until - from <= MAX_DECISIONS && IsKept(m, before, known[..], resolved)
    modifies known
    ensures IsKept(m, log, known[..], completed)
    ensures forall i :: 0 <= i < known.Length && old(known[i]).Some? ==> known[i].Some?
    ensures ok <==> IsDone(known[..], from, until)
    ensures !ok ==> IsInterfered(world, first, replans)
    ensures ok && IsQuiet(world) && before == OneByOne(m, from) && !IsDone(old(known[..]), from, until) ==>
      log == OneByOne(m, until)
  {
    log, completed, moment, ok := before, resolved, first, IsDone(known[..], from, until);
    while !ok && moment < first + replans
      invariant first <= moment <= first + replans
      invariant IsKept(m, log, known[..], completed)
      invariant forall i :: 0 <= i < known.Length && old(known[i]).Some? ==> known[i].Some?
      invariant ok <==> IsDone(known[..], from, until)
      invariant !ok ==> forall k :: first <= k < moment ==> world(2 * k + 1) != []
      invariant IsQuiet(world) && before == OneByOne(m, from) && !IsDone(old(known[..]), from, until) ==>
        log == if ok then OneByOne(m, until) else before
      decreases first + replans - moment, !ok
    {
      log, completed := Attempt(m, world, moment, seal, log, known, completed, from, until);
      ok, moment := IsDone(known[..], from, until), moment + 1;
    }
  }

  /** A session alone has nothing remembered of the commands still to come. */
  lemma NextIsOpen(m: Session, log: Log, known: seq<Option<Decision>>, completed: seq<Decision>, from: nat)
    requires IsKept(m, log, known, completed) && from < |known|
    ensures log == OneByOne(m, from) ==> known[from] == None
  {
    LaterIsUndecided(m, from, from);
  }

  lemma KeptMeaning(m: Session, log: Log, known: seq<Option<Decision>>, completed: seq<Decision>)
    requires IsKept(m, log, known, completed)
    ensures |completed| <= |m.commands| && forall i :: 0 <= i < |completed| ==> Lookup(log, i) == Some(completed[i])
    ensures |completed| == |m.commands| <==> IsDone(known, 0, |known|)
  {
  }

  lemma InterferedIsNotQuiet(world: nat -> seq<Action>, first: nat, count: nat)
    requires IsInterfered(world, first, count)
    ensures IsQuiet(world) ==> count == 0
  {
    assert count > 0 ==> world(2 * first + 1) != [];
  }

  /**
   * The session. Its history is serial whatever others do; it resolves the
   * commands in wire order and fails only if others got in between read and
   * swap in as many attempts as it may make; left alone, it publishes exactly
   * the decisions that publishing one command at a time would.
   */
  method AdmitNonAtomic(m: Session, world: nat -> seq<Action>, replans: nat, seal: Log -> BatchBody)
      returns (ok: bool, log: Log, completed: seq<Decision>)
    requires forall es :: IsBodyOf(seal(es), es)
    ensures IsSerial(m, log)
    ensures |completed| <= |m.commands| && forall i :: 0 <= i < |completed| ==> Lookup(log, i) == Some(completed[i])
    ensures ok <==> |completed| == |m.commands|
    ensures !ok ==> exists first :: IsInterfered(world, first, replans)
    ensures IsQuiet(world) && replans > 0 ==> ok && log == OneByOne(m, |m.commands|)
  {
    var n := |m.commands|;
    var known := new Option<Decision>[n](_ => None);
    var moment, from := 0, 0;
    log, completed, ok := [], [], true;
    while from < n
      invariant from <= n && ok && IsKept(m, log, known[..], completed)
      invariant IsDone(known[..], 0, from)
      invariant IsQuiet(world) ==> log == OneByOne(m, from)
    {
      var until := if from + MAX_DECISIONS < n then from + MAX_DECISIONS else n;
      ghost var first := moment;
      NextIsOpen(m, log, known[..], completed, from);
      ok, log, completed, moment := AdmitGroup(m, world, replans, seal, log, known, completed, from, until, moment);
      if !ok {
        KeptMeaning(m, log, known[..], completed);
        InterferedIsNotQuiet(world, first, replans);
        return;
      }
      from := until;
    }
    KeptMeaning(m, log, known[..], completed);
  }
}
