/**
 What a push looks like on the wire, and that the relay's parser holds exactly
 such pushes (scripts/e2e/continuous_git_proxy.py:47-93).
 */
module PrefixPushes {
  import opened Bytes
  import opened Prefix
  import opened PrefixProperties
  import R = Report
  import L = PackLaws
  import P = Zip

  // ----- words -----

  predicate IsWord(s: bytes) {
    s != [] && forall i :: 0 <= i < |s| ==> !IsSpace(s[i])
  }

  lemma {:induction false} WordEnds(w: bytes, rest: bytes)
    requires (forall i :: 0 <= i < |w| ==> !IsSpace(w[i])) && (rest == [] || IsSpace(rest[0]))
    ensures WordEnd(w + rest) == |w|
  {
    var s := w + rest;
    if w == [] {
      assert s == rest;
    } else {
      assert s[0] == w[0] && s[1..] == w[1..] + rest;
      WordEnds(w[1..], rest);
    }
  }

  /** Words joined by single spaces are read back as those words. */
  lemma {:induction false} WordsJoin(words: seq<bytes>)
    requires |words| >= 1 && forall i :: 0 <= i < |words| ==> IsWord(words[i])
    ensures Words(Join(words, 32)) == words
  {
    var w := words[0];
    if |words| == 1 {
      WordEnds(w, []);
      assert w + [] == w && w[|w|..] == [];
      assert words == [w] + [];
    } else {
      var tail := Join(words[1..], 32);
      var s := Join(words, 32);
      assert s == w + ([32] + tail);
      WordEnds(w, [32] + tail);
      assert s[..|w|] == w && s[|w|..] == [32] + tail && ([32] + tail)[1..] == tail;
      WordsJoin(words[1..]);
      assert Words([32] + tail) == Words(tail);
      assert words == [w] + words[1..];
    }
  }

  // ----- command payloads -----

  /** One ref command: old value, new value and ref. */
  datatype Command = Command(before: bytes, after: bytes, ref: bytes)

  predicate IsField(s: bytes) {
    32 !in s && 0 !in s && 10 !in s
  }

  predicate AreFields(c: Command) {
    IsField(c.before) && IsField(c.after) && IsField(c.ref)
  }

  predicate IsBranch(ref: bytes) {
    Ascii("refs/heads/") <= ref && forall b :: b in ref ==> b < 128
  }

  predicate IsPushed(c: Command) {
    AreFields(c) && IsBranch(c.ref)
  }

  function Text(c: Command): bytes {
    Join([c.before, c.after, c.ref], 32)
  }

  lemma TextIs(c: Command)
    ensures Text(c) == c.before + [32] + (c.after + [32] + c.ref)
  {
    var parts := [c.before, c.after, c.ref];
    assert parts[1..] == [c.after, c.ref] && [c.after, c.ref][1..] == [c.ref];
    assert Join([c.after, c.ref], 32) == c.after + [32] + Join([c.ref], 32);
  }

  lemma TextIsPlain(c: Command)
    requires AreFields(c)
    ensures 0 !in Text(c) && 10 !in Text(c)
  {
    TextIs(c);
  }

  lemma StripsNothing(t: bytes)
    requires 10 !in t
    ensures StripNewlines(t) == t && StripNewlines(t + [10]) == t
  {
    assert (t + [10])[..|t|] == t;
    assert t != [] ==> t[|t| - 1] in t;
  }

  lemma TextIsLine(c: Command)
    requires AreFields(c)
    ensures 0 !in Text(c) && StripNewlines(Text(c)) == Text(c)
    ensures Split(Text(c), 32) == [c.before, c.after, c.ref]
  {
    TextIsPlain(c);
    StripsNothing(Text(c));
    SplitJoin([c.before, c.after, c.ref], 32);
  }

  lemma {:induction false} FindNone(s: bytes, b: byte)
    requires b !in s
    ensures Find(s, b) == |s|
  {
    if s != [] { FindNone(s[1..], b); }
  }

  /** The payload of a command, with its capabilities after the NUL. */
  function WithCapabilities(c: Command, capabilities: seq<bytes>): bytes
    requires capabilities != []
  {
    Text(c) + [0] + Join(capabilities, 32)
  }

  predicate AreWords(capabilities: seq<bytes>) {
    capabilities != [] && forall i :: 0 <= i < |capabilities| ==> IsWord(capabilities[i])
  }

  predicate AsksAtomic(capabilities: seq<bytes>) {
    && Ascii("atomic") in capabilities
    && (Ascii("report-status") in capabilities || Ascii("report-status-v2") in capabilities)
  }

  predicate AreNegotiated(capabilities: seq<bytes>) {
    AreWords(capabilities) && AsksAtomic(capabilities)
  }

  /** The first command is taken exactly when it names a branch and asks for an atomic push with a report. */
  lemma FirstIsCommand(c: Command, capabilities: seq<bytes>)
    requires AreFields(c) && AreWords(capabilities)
    ensures IsCommandPayload(WithCapabilities(c, capabilities), true) <==> IsBranch(c.ref) && AsksAtomic(capabilities)
    ensures CommandRef(WithCapabilities(c, capabilities)) == c.ref
  {
    TextIsLine(c);
    var t, caps := Text(c), Join(capabilities, 32);
    var payload := t + [0] + caps;
    FindAfter(t, 0, caps);
    assert payload[..|t|] == t && payload[|t| + 1..] == caps;
    WordsJoin(capabilities);
  }

  /** A later one exactly when it names a branch. */
  lemma SecondIsCommand(c: Command)
    requires AreFields(c)
    ensures (IsCommandPayload(Text(c), false) <==> IsBranch(c.ref)) && CommandRef(Text(c)) == c.ref
  {
    TextIsLine(c);
    FindNone(Text(c), 0);
    assert Text(c)[..|Text(c)|] == Text(c);
  }

  // ----- the push -----

  /** A pkt-line. */
  function Packet(payload: bytes): bytes
    requires |payload| + 4 <= MAX_PACKET
  {
    R.Length4(|payload| + 4) + payload
  }

  lemma PacketIsPacket(payload: bytes)
    requires |payload| + 4 <= MAX_PACKET
    ensures IsPacket(Packet(payload)) && Packet(payload)[4..] == payload
  {
    R.LengthReads(|payload| + 4);
    assert Packet(payload)[..4] == R.Length4(|payload| + 4);
  }

  function PackStart(version: nat, objects: nat): bytes
    requires version < 0x1_0000_0000 && objects < 0x1_0000_0000
  {
    Ascii("PACK") + P.Big4(version) + P.Big4(objects)
  }

  /** A PACK header is taken exactly when its version is 2 or 3 and it announces an object. */
  lemma PackStarts(version: nat, objects: nat)
    requires version < 0x1_0000_0000 && objects < 0x1_0000_0000
    ensures IsPackHeader(PackStart(version, objects)) <==> (version == 2 || version == 3) && objects > 0
    ensures BigEndian4(PackStart(version, objects)[8..12]) == objects
  {
    L.CountRoundTrip(version);
    L.CountRoundTrip(objects);
    var h := PackStart(version, objects);
    assert |Ascii("PACK")| == 4;
    assert h[..4] == Ascii("PACK") && h[4..8] == P.Big4(version) && h[8..12] == P.Big4(objects);
  }

  /** An atomic push of two refs, up to and including its PACK header. */
  datatype Push = Push(
    service: bytes, first: Command, second: Command, capabilities: seq<bytes>, version: nat, objects: nat)

  predicate IsPush(p: Push) {
    && IsPushed(p.first) && IsPushed(p.second) && AreNegotiated(p.capabilities)
    && (p.version == 2 || p.version == 3) && 0 < p.objects < 0x1_0000_0000
    && |p.service| + 22 <= MAX_PACKET
    && |WithCapabilities(p.first, p.capabilities)| + 4 <= MAX_PACKET && |Text(p.second)| + 4 <= MAX_PACKET
  }

  const SERVICE: bytes := Ascii("git-receive-pack /")

  function SectionsOf(raw: bool, p: Push): Released
    requires IsPush(p)
  {
    assert |SERVICE + p.service| + 4 <= MAX_PACKET by { assert |SERVICE| == 18; }
    Released(if raw then Packet(SERVICE + p.service) else [],
             Packet(WithCapabilities(p.first, p.capabilities)), Packet(Text(p.second)), FLUSH,
             PackStart(p.version, p.objects))
  }

  lemma PushIsComplete(raw: bool, p: Push)
    requires IsPush(p)
    ensures IsCompletePrefix(raw, SectionsOf(raw, p))
  {
    assert |SERVICE| == 18;
    if raw {
      PacketIsPacket(SERVICE + p.service);
      assert IsGreetingPayload(SERVICE + p.service);
    }
    PacketIsPacket(WithCapabilities(p.first, p.capabilities));
    PacketIsPacket(Text(p.second));
    FirstIsCommand(p.first, p.capabilities);
    SecondIsCommand(p.second);
    PackStarts(p.version, p.objects);
  }

  /**
   Every atomic push of two branches is held: its prefix is released byte for
   byte, what follows is kept back, and the two refs it pushes are recorded.
   */
  lemma PushIsHeld(raw: bool, p: Push, rest: bytes) returns (q: Parser)
    requires IsPush(p)
    ensures var sent := Wire(SectionsOf(raw, p));
      Feed(Start(raw), sent + rest) == Fed(q, sent) && q.phase == Held && q.pending == rest
    ensures q.commands == [p.first.ref, p.second.ref] && q.packObjects == p.objects
  {
    PackStarts(p.version, p.objects);
    PushIsComplete(raw, p);
    q := CompleteIsHeld(raw, SectionsOf(raw, p), rest);
    PacketIsPacket(WithCapabilities(p.first, p.capabilities));
    PacketIsPacket(Text(p.second));
    FirstIsCommand(p.first, p.capabilities);
    SecondIsCommand(p.second);
  }

  lemma ThreeFields(text: bytes) returns (c: Command)
    requires |Split(text, 32)| == 3
    ensures text == Text(c) && c.ref == Split(text, 32)[2]
  {
    var fields := Split(text, 32);
    JoinSplit(text, 32);
    c := Command(fields[0], fields[1], fields[2]);
    assert fields == [c.before, c.after, c.ref];
  }

  /** Conversely a payload taken for a command is three space-separated fields, the last a branch, before any NUL. */
  lemma CommandIsSpelled(payload: bytes, first: bool) returns (c: Command)
    requires IsCommandPayload(payload, first)
    ensures StripNewlines(payload[..Find(payload, 0)]) == Text(c)
    ensures CommandRef(payload) == c.ref && Ascii("refs/heads/") <= c.ref
  {
    c := ThreeFields(StripNewlines(payload[..Find(payload, 0)]));
  }
}
