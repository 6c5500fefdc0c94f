/**
 * The protocol v2 command machine, for `ls-refs`
 * (crates/fgit-wire/src/lib.rs:2547-2833, 2963-3083; "ls-refs" in gitprotocol-v2(5)).
 * A refusal leaves the machine as it was; which error it reports is not modelled.
 */
module LsRefs {
  import opened Bytes
  import opened Order

  datatype Packet = Data(line: bytes) | Flush | Delimiter | ResponseEnd

  datatype Capability = Capability(name: bytes, value: Option<bytes>)

  datatype Format = Sha1 | Sha256

  datatype Oid = Oid(format: Format, hex: bytes)

  datatype Reference = Reference(oid: Oid, name: bytes)

  /** The repository view a response is made from; `isRefName` is the strict ref grammar. */
  datatype Repository = Repository(
    format: Format,
    refs: seq<Reference>,
    symrefs: map<bytes, bytes>,
    peeled: map<Oid, Oid>,
    unborn: Option<bytes>,
    isRefName: bytes -> bool)

  datatype Limits = Limits(
    packet: nat, outbound: nat, prefixes: nat, capabilities: nat, capability: nat, refName: nat, refs: nat)

  /** What the session was opened with. */
  datatype Session = Session(offered: set<bytes>, limits: Limits, stateless: bool)

  datatype Options = Options(symrefs: bool, peel: bool, unborn: bool)

  datatype State = AwaitCommand | AwaitCapabilities | AwaitArguments | InFetch | Ended

  datatype Machine = Machine(state: State, capabilities: seq<Capability>, prefixes: seq<bytes>, options: Options)

  const PLAIN := Options(false, false, false)

  const FRESH := Machine(AwaitCommand, [], [], PLAIN)

  // ---- Lines ----

  /** A request line without its line end; control bytes refuse it. */
  function RequestLine(line: bytes): Option<bytes> {
    var text := if line != [] && line[|line| - 1] == 10 then line[..|line| - 1] else line;
    if 10 in text || 13 in text || 0 in text then None else Some(text)
  }

  predicate IsToken(name: bytes) {
    name != [] && forall i :: 0 <= i < |name| ==> 0x21 <= name[i] <= 0x7e && name[i] != 61
  }

  function ParseCapability(l: Limits, token: bytes): Option<Capability> {
    if token == [] || |token| > l.capability then None
    else
      var k := Find(token, 61);
      if !IsToken(token[..k]) then None
      else if k == |token| then Some(Capability(token, None))
      else if exists i :: k < i < |token| && !(0x20 <= token[i] <= 0x7e) then None
      else Some(Capability(token[..k], Some(token[k + 1..])))
  }

  /** An object-format capability must name the repository's own format. */
  predicate IsFormatFine(c: Capability, f: Format) {
    c.name == Ascii("object-format") ==> c.value == Some(if f == Sha1 then Ascii("sha1") else Ascii("sha256"))
  }

  function Strip(line: bytes, prefix: bytes): Option<bytes> {
    if prefix <= line then Some(line[|prefix|..]) else None
  }

  // ---- The response ----

  /** No prefix means everything; otherwise any prefix will do. */
  predicate Matches(prefixes: seq<bytes>, name: bytes) {
    prefixes == [] || exists i :: 0 <= i < |prefixes| && prefixes[i] <= name
  }

  predicate IsRefName(repo: Repository, l: Limits, name: bytes) {
    |name| <= l.refName && repo.isRefName(name)
  }

  const PEELED: bytes := Ascii("^{}")

  function WithoutPeel(name: bytes): bytes {
    if |name| >= 3 && name[|name| - 3..] == PEELED then name[..|name| - 3] else name
  }

  /** The advertised refs are well-formed, of one format, and in strictly rising order. */
  predicate AreAdvertisable(repo: Repository, l: Limits) {
    && |repo.refs| <= l.refs
    && (forall i :: 0 <= i < |repo.refs| ==>
          && repo.refs[i].oid.format == repo.format
          && |repo.refs[i].name| <= l.refName
          && repo.isRefName(WithoutPeel(repo.refs[i].name)))
    && (forall i :: 0 < i < |repo.refs| ==> LexLess(repo.refs[i - 1].name, repo.refs[i].name))
  }

  /** One ref's line, refused when its target or peeled object is not fit to print. */
  function RefLine(repo: Repository, l: Limits, o: Options, r: Reference): Option<bytes> {
    var target := if o.symrefs && r.name in repo.symrefs then Some(repo.symrefs[r.name]) else None;
    var peeled := if o.peel && r.oid in repo.peeled then Some(repo.peeled[r.oid]) else None;
    if target.Some? && !IsRefName(repo, l, target.value) then None
    else if peeled.Some? && peeled.value.format != repo.format then None
    else
      Some(r.oid.hex + [32] + r.name
           + (if target.Some? then Ascii(" symref-target:") + target.value else [])
           + (if peeled.Some? then Ascii(" peeled:") + peeled.value.hex else [])
           + [10])
  }

  /** The unborn HEAD, when it was asked for and is wanted. */
  function UnbornLine(repo: Repository, l: Limits, m: Machine): Option<seq<bytes>> {
    if !m.options.unborn || !Matches(m.prefixes, Ascii("HEAD")) || repo.unborn == None then Some([])
    else if !IsRefName(repo, l, repo.unborn.value) then None
    else Some([Ascii("unborn HEAD symref-target:") + repo.unborn.value + [10]])
  }

  /** The lines of the first `n` refs that match. */
  function RefLines(repo: Repository, l: Limits, m: Machine, n: nat): Option<seq<bytes>>
    requires n <= |repo.refs|
  {
    if n == 0 then Some([])
    else
      var before := RefLines(repo, l, m, n - 1);
      if before == None || !Matches(m.prefixes, repo.refs[n - 1].name) then before
      else
        var line := RefLine(repo, l, m.options, repo.refs[n - 1]);
        if line == None then None else Some(before.value + [line.value])
  }

  function Cost(lines: seq<bytes>): nat {
    if lines == [] then 0 else Cost(lines[..|lines| - 1]) + |lines[|lines| - 1]| + 4
  }

  predicate FitsPackets(l: Limits, lines: seq<bytes>) {
    forall i :: 0 <= i < |lines| ==> |lines[i]| + 4 <= l.packet
  }

  function DataOf(lines: seq<bytes>): seq<Packet> {
    seq(|lines|, i requires 0 <= i < |lines| => Data(lines[i]))
  }

  /** The lines a request asks for, refused when any is unfit or does not fit. */
  function Answer(repo: Repository, l: Limits, m: Machine): Option<seq<bytes>> {
    var first := UnbornLine(repo, l, m);
    var rest := RefLines(repo, l, m, |repo.refs|);
    if !AreAdvertisable(repo, l) || first == None || rest == None then None
    else
      var lines := first.value + rest.value;
      if FitsPackets(l, lines) && Cost(lines) + 4 <= l.outbound then Some(lines) else None
  }

  function Response(repo: Repository, l: Limits, m: Machine): Option<seq<Packet>> {
    var lines := Answer(repo, l, m);
    if lines == None then None else Some(DataOf(lines.value) + [Flush])
  }

  // ---- Packets ----

  datatype Outcome = Refused | Moved(next: Machine, output: seq<Packet>)

  function AcceptCommand(s: Session, m: Machine, p: Packet): Outcome {
    if p == Flush && !s.stateless then Moved(m.(state := Ended), [])
    else if !p.Data? || RequestLine(p.line) == None then Refused
    else
      var line := RequestLine(p.line).value;
      if line == Ascii("command=ls-refs") && Ascii("ls-refs") in s.offered then Moved(m.(state := AwaitCapabilities), [])
      else if line == Ascii("command=fetch") && Ascii("fetch") in s.offered then Moved(m.(state := InFetch), [])
      else Refused
  }

  function AcceptCapability(s: Session, repo: Repository, m: Machine, p: Packet): Outcome {
    if p == Delimiter then Moved(m.(state := AwaitArguments), [])
    else if !p.Data? || RequestLine(p.line) == None then Refused
    else
      var c := ParseCapability(s.limits, RequestLine(p.line).value);
      if c == None || c.value.name !in s.offered || !IsFormatFine(c.value, repo.format) then Refused
      else if |m.capabilities| == s.limits.capabilities then Refused
      else if exists i :: 0 <= i < |m.capabilities| && m.capabilities[i].name == c.value.name then Refused
      else Moved(m.(capabilities := m.capabilities + [c.value]), [])
  }

  function AcceptLine(l: Limits, m: Machine, line: bytes): Outcome {
    if line == Ascii("symrefs") then Moved(m.(options := m.options.(symrefs := true)), [])
    else if line == Ascii("peel") then Moved(m.(options := m.options.(peel := true)), [])
    else if line == Ascii("unborn") then Moved(m.(options := m.options.(unborn := true)), [])
    else
      var prefix := Strip(line, Ascii("ref-prefix "));
      if prefix == None || prefix.value == [] || |prefix.value| > l.refName then Refused
      else if |m.prefixes| == l.prefixes then Refused
      else Moved(m.(prefixes := m.prefixes + [prefix.value]), [])
  }

  function AcceptArgument(s: Session, repo: Repository, m: Machine, p: Packet): Outcome {
    match p
    case Data(line) =>
      var text := RequestLine(line);
      if text == None then Refused else AcceptLine(s.limits, m, text.value)
    case Flush =>
      var response := Response(repo, s.limits, m);
      if response == None then Refused
      else Moved(m.(state := AwaitCommand, capabilities := [], prefixes := [], options := PLAIN), response.value)
    case _ => Refused
  }

  /** One packet. What follows a fetch command is not modelled: it accepts nothing here. */
  function PushPacket(s: Session, repo: Repository, m: Machine, p: Packet): Outcome {
    match m.state
    case AwaitCommand => AcceptCommand(s, m, p)
    case AwaitCapabilities => AcceptCapability(s, repo, m, p)
    case AwaitArguments => AcceptArgument(s, repo, m, p)
    case _ => Refused
  }

  /** What an outcome lets out: nothing at all when it refuses. */
  function Emitted(o: Outcome): Option<seq<Packet>> {
    if o.Refused? then None else Some(o.output)
  }

  /** The machine after an outcome: as it was when it refuses. */
  function Held(o: Outcome, m: Machine): Machine {
    if o.Refused? then m else o.next
  }

  /** The machine as the code holds it, each handler updating its own fields in place. */
  class UploadPack {
    const session: Session
    var state: State
    var capabilities: seq<Capability>
    var prefixes: seq<bytes>
    var options: Options

    ghost function View(): Machine
      reads this
    {
      Machine(state, capabilities, prefixes, options)
    }

    constructor (session: Session)
      ensures this.session == session && View() == FRESH
    {
      this.session := session;
      state, capabilities, prefixes, options := AwaitCommand, [], [], PLAIN;
    }

    /** Answers the request and resets everything that belonged to it. */
    method FinishLsRefs(repo: Repository) returns (r: Option<seq<Packet>>)
      modifies this
      ensures r == Response(repo, session.limits, old(View()))
      ensures View() == if r == None then old(View()) else FRESH
    {
      var lines := BuildLines(repo, session.limits, Machine(state, capabilities, prefixes, options));
      if lines == None { return None; }
      state, capabilities, prefixes, options := AwaitCommand, [], [], PLAIN;
      r := Some(DataOf(lines.value) + [Flush]);
    }

    method AcceptCommandLine(p: Packet) returns (ok: bool)
      modifies this
      ensures ok <==> AcceptCommand(session, old(View()), p).Moved?
      ensures View() == if ok then AcceptCommand(session, old(View()), p).next else old(View())
    {
      if p == Flush && !session.stateless {
        state := Ended;
        return true;
      }
      if !p.Data? { return false; }
      var line := RequestLine(p.line);
      if line == None { return false; }
      if line.value == Ascii("command=ls-refs") && Ascii("ls-refs") in session.offered {
        state := AwaitCapabilities;
        return true;
      }
      if line.value == Ascii("command=fetch") && Ascii("fetch") in session.offered {
        state := InFetch;
        return true;
      }
      ok := false;
    }

    method AcceptCapabilityLine(repo: Repository, p: Packet) returns (ok: bool)
      modifies this
      ensures ok <==> AcceptCapability(session, repo, old(View()), p).Moved?
      ensures View() == if ok then AcceptCapability(session, repo, old(View()), p).next else old(View())
    {
      if p == Delimiter {
        state := AwaitArguments;
        return true;
      }
      if !p.Data? { return false; }
      var line := RequestLine(p.line);
      if line == None { return false; }
      var c := ParseCapability(session.limits, line.value);
      if c == None || c.value.name !in session.offered || !IsFormatFine(c.value, repo.format) { return false; }
      if |capabilities| == session.limits.capabilities { return false; }
      for i := 0 to |capabilities|
        invariant View() == old(View())
        invariant forall j :: 0 <= j < i ==> capabilities[j].name != c.value.name
      {
        if capabilities[i].name == c.value.name { return false; }
      }
      capabilities := capabilities + [c.value];
      ok := true;
    }

    method AcceptArgumentLine(line: bytes) returns (ok: bool)
      modifies this
      ensures ok <==> AcceptLine(session.limits, old(View()), line).Moved?
      ensures View() == if ok then AcceptLine(session.limits, old(View()), line).next else old(View())
    {
      if line == Ascii("symrefs") {
        options := options.(symrefs := true);
        return true;
      }
      if line == Ascii("peel") {
        options := options.(peel := true);
        return true;
      }
      if line == Ascii("unborn") {
        options := options.(unborn := true);
        return true;
      }
      var prefix := Strip(line, Ascii("ref-prefix "));
      if prefix == None || prefix.value == [] || |prefix.value| > session.limits.refName { return false; }
      if |prefixes| == session.limits.prefixes { return false; }
      prefixes := prefixes + [prefix.value];
      ok := true;
    }

    method AcceptArgumentPacket(repo: Repository, p: Packet) returns (output: Option<seq<Packet>>)
      modifies this
      ensures output == Emitted(AcceptArgument(session, repo, old(View()), p))
      ensures View() == Held(AcceptArgument(session, repo, old(View()), p), old(View()))
    {
      match p {
        case Data(line) =>
          var text := RequestLine(line);
          if text == None { return None; }
          var ok := AcceptArgumentLine(text.value);
          output := if ok then Some([]) else None;
        case Flush =>
          output := FinishLsRefs(repo);
        case _ =>
          output := None;
      }
    }

    /** Feeds one packet to the handler of the state the machine is in. */
    method Push(repo: Repository, p: Packet) returns (output: Option<seq<Packet>>)
      modifies this
      ensures output == Emitted(PushPacket(session, repo, old(View()), p))
      ensures View() == Held(PushPacket(session, repo, old(View()), p), old(View()))
    {
      match state {
        case AwaitCommand =>
          var ok := AcceptCommandLine(p);
          output := if ok then Some([]) else None;
        case AwaitCapabilities =>
          var ok := AcceptCapabilityLine(repo, p);
          output := if ok then Some([]) else None;
        case AwaitArguments =>
          output := AcceptArgumentPacket(repo, p);
        case _ =>
          output := None;
      }
    }
  }

  /** The output so far with what it costs, within both budgets. */
  ghost predicate IsBudgeted(l: Limits, output: seq<bytes>, used: nat) {
    used == Cost(output) <= l.outbound && FitsPackets(l, output)
  }

  /** Adds one line to the output within the packet and byte budgets. */
  method AddLine(l: Limits, output: seq<bytes>, used: nat, line: bytes) returns (ok: bool, cost: nat)
    requires IsBudgeted(l, output, used)
    ensures ok ==> IsBudgeted(l, output + [line], cost)
    ensures !ok ==> !FitsPackets(l, output + [line]) || Cost(output + [line]) > l.outbound
  {
    CostSnoc(output, line);
    cost := used + |line| + 4;
    ok := |line| + 4 <= l.packet && |line| + 4 <= l.outbound - used;
    assert (output + [line])[|output|] == line;
  }

  /** Adds the `i`-th ref when it matches. */
  method AddRef(repo: Repository, l: Limits, m: Machine, output: seq<bytes>, used: nat, i: nat, ghost first: seq<bytes>)
      returns (ok: bool, next: seq<bytes>, cost: nat)
    requires i < |repo.refs| && IsBuilt(repo, l, m, first, i, output) && IsBudgeted(l, output, used)
    ensures ok ==> IsBuilt(repo, l, m, first, i + 1, next) && IsBudgeted(l, next, cost)
    ensures !ok ==> Answer(repo, l, m) == None
  {
    next, cost := output, used;
    if !Matches(m.prefixes, repo.refs[i].name) { return true, next, cost; }
    var line := RefLine(repo, l, m.options, repo.refs[i]);
    if line == None {
      NoneStays(repo, l, m, i + 1, |repo.refs|);
      return false, next, cost;
    }
    next := output + [line.value];
    assert IsBuilt(repo, l, m, first, i + 1, next);
    ok, cost := AddLine(l, output, used, line.value);
    if !ok { UnfitRefuses(repo, l, m, next, i + 1); }
  }

  /** The unborn line, within budget. */
  method StartLines(repo: Repository, l: Limits, m: Machine) returns (ok: bool, output: seq<bytes>, used: nat)
    ensures ok ==> IsBuilt(repo, l, m, output, 0, output) && IsBudgeted(l, output, used)
    ensures !ok ==> Answer(repo, l, m) == None
  {
    output, used := [], 0;
    var first := UnbornLine(repo, l, m);
    if first == None { return false, output, used; }
    assert IsBudgeted(l, [], 0);
    if first.value == [] { return true, output, used; }
    output := first.value;
    assert [] + [output[0]] == output;
    ok, used := AddLine(l, [], 0, output[0]);
    if !ok { UnfitRefuses(repo, l, m, output, 0); }
  }

  /** Builds the answer ref by ref, stopping at the first line that is unfit or does not fit. */
  method BuildLines(repo: Repository, l: Limits, m: Machine) returns (r: Option<seq<bytes>>)
    ensures r == Answer(repo, l, m)
  {
    if !AreAdvertisable(repo, l) { return None; }
    var ok: bool, output: seq<bytes>, used: nat := StartLines(repo, l, m);
    if !ok { return None; }
    ghost var first := output;
    for i := 0 to |repo.refs|
      invariant IsBuilt(repo, l, m, first, i, output) && IsBudgeted(l, output, used)
    {
      ok, output, used := AddRef(repo, l, m, output, used, i, first);
      if !ok { return None; }
    }
    r := if used + 4 <= l.outbound then Some(output) else None;
  }

  lemma CostSnoc(lines: seq<bytes>, line: bytes)
    ensures Cost(lines + [line]) == Cost(lines) + |line| + 4
  {
    assert (lines + [line])[..|lines|] == lines;
  }

  /** After `i` refs the output is the unborn line, if any, and the matching lines so far. */
  ghost predicate IsBuilt(repo: Repository, l: Limits, m: Machine, first: seq<bytes>, i: nat, output: seq<bytes>)
    requires i <= |repo.refs|
  {
    var lines := RefLines(repo, l, m, i);
    UnbornLine(repo, l, m) == Some(first) && lines.Some? && output == first + lines.value
  }

  lemma {:induction false} NoneStays(repo: Repository, l: Limits, m: Machine, i: nat, n: nat)
    requires i <= n <= |repo.refs| && RefLines(repo, l, m, i) == None
    ensures RefLines(repo, l, m, n) == None
  {
    if i < n { NoneStays(repo, l, m, i, n - 1); }
  }

  lemma {:induction false} LinesGrow(repo: Repository, l: Limits, m: Machine, i: nat, n: nat)
    requires i <= n <= |repo.refs| && RefLines(repo, l, m, n).Some?
    ensures RefLines(repo, l, m, i).Some? && RefLines(repo, l, m, i).value <= RefLines(repo, l, m, n).value
  {
    if i < n { LinesGrow(repo, l, m, i, n - 1); }
  }

  lemma {:induction false} CostGrows(a: seq<bytes>, b: seq<bytes>)
    requires a <= b
    ensures Cost(a) <= Cost(b)
    decreases |b|
  {
    if |a| == |b| {
      assert a == b;
    } else {
      CostGrows(a, b[..|b| - 1]);
    }
  }

  /** Output already too long, in one packet or in all, refuses the whole response. */
  lemma UnfitRefuses(repo: Repository, l: Limits, m: Machine, output: seq<bytes>, i: nat)
    requires i <= |repo.refs| && UnbornLine(repo, l, m).Some?
    requires IsBuilt(repo, l, m, UnbornLine(repo, l, m).value, i, output)
    requires !FitsPackets(l, output) || Cost(output) > l.outbound
    ensures Answer(repo, l, m) == None
  {
    var rest := RefLines(repo, l, m, |repo.refs|);
    if rest.Some? {
      LinesGrow(repo, l, m, i, |repo.refs|);
      var all := UnbornLine(repo, l, m).value + rest.value;
      assert output <= all;
      CostGrows(output, all);
      if !FitsPackets(l, output) {
        var k :| 0 <= k < |output| && |output[k]| + 4 > l.packet;
        assert all[k] == output[k];
      }
    }
  }
}
