/**
 * Receive reports: pkt-lines ended by a flush
 * (scripts/e2e/existing_target_receive_smoke.py:81-111; "pkt-line Format" in gitprotocol-common(5)).
 */
module Report {
  import opened Bytes

  const MEBIBYTE := 1024 * 1024

  const LARGEST := 65520

  function Length4(n: nat): bytes
    requires n < 65536
  {
    [HexChar(n / 4096), HexChar(n / 256 % 16), HexChar(n / 16 % 16), HexChar(n % 16)]
  }

  lemma LengthReads(n: nat)
    requires n < 65536
    ensures IsHex4(Length4(n)) && Hex4(Length4(n)) == n
  {
    HexReads(n / 4096);
    HexReads(n / 256 % 16);
    HexReads(n / 16 % 16);
    HexReads(n % 16);
    DigitsAdd(n);
  }

  lemma DigitsAdd(n: nat)
    ensures n / 4096 * 4096 + n / 256 % 16 * 256 + n / 16 % 16 * 16 + n % 16 == n
  {
    assert n / 256 == n / 16 / 16 && n / 4096 == n / 256 / 16;
  }

  lemma HexReads(d: nat)
    requires d < 16
    ensures IsHex(HexChar(d)) && HexDigit(HexChar(d)) == d
  {
  }

  /** Packets in order, ended by the flush. */
  function Frame(bodies: seq<bytes>): bytes
    requires forall i :: 0 <= i < |bodies| ==> |bodies[i]| + 4 <= LARGEST
  {
    if bodies == [] then Ascii("0000") else Length4(|bodies[0]| + 4) + bodies[0] + Frame(bodies[1..])
  }

  /** What stands at the front of a report. */
  datatype Next = Bad | Flush | Packet(body: bytes, used: nat)

  function ReadPacket(s: bytes): (r: Next)
    ensures r.Packet? ==> 4 < r.used <= |s|
  {
    if |s| < 4 || !IsHex4(s[..4]) then Bad
    else
      var size := Hex4(s[..4]);
      if size == 0 then Flush
      else if !(4 < size <= LARGEST) || size > |s| then Bad
      else Packet(s[4..size], size)
  }

  /** The packets of a report up to its flush, which must end it. */
  function Packets(s: bytes): Option<seq<bytes>>
    decreases |s|
  {
    match ReadPacket(s)
    case Bad => None
    case Flush => if |s| == 4 then Some([]) else None
    case Packet(body, used) => Prefixed([body], Packets(s[used..]))
  }

  function Prefixed(packets: seq<bytes>, rest: Option<seq<bytes>>): Option<seq<bytes>> {
    if rest == None then None else Some(packets + rest.value)
  }

  function ParseReport(data: bytes): Option<seq<bytes>> {
    if |data| > MEBIBYTE then None else Packets(data)
  }

  /** What is left to parse completes the packets so far. */
  ghost predicate IsAt(whole: Option<seq<bytes>>, data: bytes, at: nat, packets: seq<bytes>) {
    at <= |data| && whole == Prefixed(packets, Packets(data[at..]))
  }

  lemma AtStart(data: bytes)
    ensures IsAt(Packets(data), data, 0, [])
  {
    assert data[0..] == data;
    var r := Packets(data);
    if r.Some? { assert [] + r.value == r.value; }
  }

  lemma AtPacket(whole: Option<seq<bytes>>, data: bytes, at: nat, packets: seq<bytes>)
    requires IsAt(whole, data, at, packets) && ReadPacket(data[at..]).Packet?
    ensures var p := ReadPacket(data[at..]); IsAt(whole, data, at + p.used, packets + [p.body])
  {
    var p := ReadPacket(data[at..]);
    assert data[at..][p.used..] == data[at + p.used..];
    var rest := Packets(data[at + p.used..]);
    if rest.Some? { assert packets + ([p.body] + rest.value) == packets + [p.body] + rest.value; }
  }

  lemma AtEnd(whole: Option<seq<bytes>>, data: bytes, at: nat, packets: seq<bytes>)
    requires IsAt(whole, data, at, packets) && !ReadPacket(data[at..]).Packet?
    ensures whole == if ReadPacket(data[at..]).Flush? && at + 4 == |data| then Some(packets) else None
  {
    assert packets + [] == packets;
  }

  /** The parsing loop. */
  method ReadReport(data: bytes) returns (r: Option<seq<bytes>>)
    ensures r == ParseReport(data)
  {
    if |data| > MEBIBYTE { return None; }
    ghost var whole := Packets(data);
    var at: nat, packets: seq<bytes> := 0, [];
    AtStart(data);
    var next := ReadPacket(data[at..]);
    while next.Packet?
      invariant IsAt(whole, data, at, packets) && next == ReadPacket(data[at..])
      decreases |data| - at
    {
      AtPacket(whole, data, at, packets);
      at, packets := at + next.used, packets + [next.body];
      next := ReadPacket(data[at..]);
    }
    AtEnd(whole, data, at, packets);
    r := if next.Flush? && at + 4 == |data| then Some(packets) else None;
  }

  // ---- Framing ----

  ghost predicate AreBounded(bodies: seq<bytes>) {
    forall i :: 0 <= i < |bodies| ==> |bodies[i]| + 4 <= LARGEST
  }

  lemma FlushReads()
    ensures Packets(Ascii("0000")) == Some([])
  {
    var s := Ascii("0000");
    assert s == [48, 48, 48, 48] && s[..4] == s;
  }

  lemma PacketReads(body: bytes, rest: bytes)
    requires |body| + 4 <= LARGEST
    ensures ReadPacket(Length4(|body| + 4) + body + rest) == if body == [] then Bad else Packet(body, |body| + 4)
  {
    var head := Length4(|body| + 4);
    var s := head + body + rest;
    LengthReads(|body| + 4);
    assert s[..4] == head;
    assert s[4..4 + |body|] == body;
  }

  ghost predicate ReadsAs(s: bytes, r: Option<seq<bytes>>) {
    Packets(s) == r
  }

  lemma FrameStep(body: bytes, rest: bytes, r: Option<seq<bytes>>)
    requires |body| + 4 <= LARGEST && ReadsAs(rest, r)
    ensures ReadsAs(Length4(|body| + 4) + body + rest, if body == [] then None else Prefixed([body], r))
  {
    var s := Length4(|body| + 4) + body + rest;
    PacketReads(body, rest);
    assert s[4 + |body|..] == rest;
  }

  function Whole(bodies: seq<bytes>): Option<seq<bytes>> {
    if [] in bodies then None else Some(bodies)
  }

  lemma WholeStep(bodies: seq<bytes>)
    requires bodies != []
    ensures Whole(bodies) == if bodies[0] == [] then None else Prefixed([bodies[0]], Whole(bodies[1..]))
  {
    assert bodies == [bodies[0]] + bodies[1..];
  }

  lemma FrameCons(bodies: seq<bytes>)
    requires AreBounded(bodies) && bodies != [] && ReadsAs(Frame(bodies[1..]), Whole(bodies[1..]))
    ensures ReadsAs(Frame(bodies), Whole(bodies))
  {
    FrameStep(bodies[0], Frame(bodies[1..]), Whole(bodies[1..]));
    WholeStep(bodies);
  }

  /** A framed list reads back exactly when no body is empty: an empty packet refuses the whole report. */
  lemma {:induction false} FrameReadsIff(bodies: seq<bytes>)
    requires AreBounded(bodies)
    ensures ReadsAs(Frame(bodies), Whole(bodies))
  {
    if bodies == [] {
      FlushReads();
    } else {
      FrameReadsIff(bodies[1..]);
      FrameCons(bodies);
    }
  }

  lemma ReportRoundTrip(bodies: seq<bytes>)
    requires AreBounded(bodies) && |Frame(bodies)| <= MEBIBYTE
    ensures ParseReport(Frame(bodies)) == if [] in bodies then None else Some(bodies)
  {
    FrameReadsIff(bodies);
  }

  /** The same length in hex, whatever the letter case. */
  ghost predicate SameLength(a: bytes, b: bytes) {
    |a| == |b| == 4 && IsHex4(a) && IsHex4(b) && Hex4(a) == Hex4(b)
  }

  /** `s` opens with a packet of `body`. */
  ghost predicate IsOpening(s: bytes, body: bytes) {
    var n := |body| + 4;
    n <= LARGEST && |s| >= n && SameLength(s[..4], Length4(n)) && s[4..n] == body
  }

  /** `s` frames `bodies`, up to the case of its length digits. */
  ghost predicate IsFraming(s: bytes, bodies: seq<bytes>)
    requires AreBounded(bodies)
    decreases |bodies|
  {
    if bodies == [] then SameLength(s, Ascii("0000"))
    else
      IsOpening(s, bodies[0]) && IsFraming(s[|bodies[0]| + 4..], bodies[1..])
  }

  /** `s` frames `bodies`, none of them empty or too long. */
  ghost predicate IsReport(s: bytes, bodies: seq<bytes>) {
    AreBounded(bodies) && [] !in bodies && IsFraming(s, bodies)
  }

  lemma PacketOpens(s: bytes)
    requires ReadPacket(s).Packet?
    ensures IsOpening(s, ReadPacket(s).body) && ReadPacket(s).body != [] && ReadPacket(s).used == |ReadPacket(s).body| + 4
  {
    LengthReads(ReadPacket(s).used);
  }

  lemma FramingCons(s: bytes, all: seq<bytes>)
    requires all != [] && IsOpening(s, all[0]) && all[0] != [] && IsReport(s[|all[0]| + 4..], all[1..])
    ensures IsReport(s, all)
  {
    assert all == [all[0]] + all[1..];
  }

  lemma FramingStep(s: bytes, bodies: seq<bytes>)
    requires ReadPacket(s).Packet? && IsReport(s[ReadPacket(s).used..], bodies)
    ensures IsReport(s, [ReadPacket(s).body] + bodies)
  {
    PacketOpens(s);
    var all := [ReadPacket(s).body] + bodies;
    assert all[1..] == bodies;
    FramingCons(s, all);
  }

  lemma FramingEnd(s: bytes)
    requires ReadPacket(s).Flush? && |s| == 4
    ensures IsReport(s, [])
  {
    assert s[..4] == s;
    LengthReads(0);
    assert Ascii("0000") == Length4(0);
  }

  /** Every accepted report is a framing of what it returns, with no empty packet and nothing after the flush. */
  lemma {:induction false} AcceptedIsFraming(s: bytes)
    requires Packets(s).Some?
    ensures IsReport(s, Packets(s).value)
    decreases |s|
  {
    if ReadPacket(s).Flush? {
      FramingEnd(s);
    } else {
      AcceptedIsFraming(s[ReadPacket(s).used..]);
      FramingStep(s, Packets(s[ReadPacket(s).used..]).value);
    }
  }

  /** A report that is read is at most 1 MiB long and frames exactly the packets that are returned. */
  lemma ReadIsBounded(data: bytes)
    requires ParseReport(data).Some?
    ensures |data| <= 1024 * 1024 && IsReport(data, ParseReport(data).value)
  {
    AcceptedIsFraming(data);
  }

  // ---- Verdicts ----

  predicate Starts(s: bytes, prefix: bytes) {
    prefix <= s
  }

  const OK: bytes := Ascii("unpack ok") + [10]

  /** A line that refuses one ref. */
  predicate IsNg(packet: bytes, name: bytes) {
    Starts(packet, Ascii("ng ") + name + [32]) && packet[|packet| - 1] == 10
  }

  /** Whether a report says what is expected of these refs. */
  predicate IsReportOf(data: bytes, references: seq<bytes>, accepted: bool) {
    var ps := ParseReport(data);
    && ps.Some?
    && |ps.value| == |references| + 1
    && Starts(ps.value[0], Ascii("unpack "))
    && (if accepted then
          && ps.value[0] == OK
          && forall i :: 0 <= i < |references| ==> ps.value[i + 1] == Ascii("ok ") + references[i] + [10]
        else
          forall i :: 0 <= i < |references| ==> IsNg(ps.value[i + 1], references[i]))
  }

  lemma OkIsNotNg(name: bytes)
    ensures !Starts(Ascii("ok ") + name + [10], Ascii("ng ") + name + [32])
  {
    assert (Ascii("ok ") + name + [10])[0] == 111 && (Ascii("ng ") + name + [32])[0] == 110;
  }

  /** For any refs at all, no report passes both as accepted and as refused. */
  lemma VerdictsExclude(data: bytes, references: seq<bytes>)
    requires references != []
    ensures !(IsReportOf(data, references, true) && IsReportOf(data, references, false))
  {
    OkIsNotNg(references[0]);
  }

  /** The packets of a full acknowledgement. */
  function Acks(references: seq<bytes>): seq<bytes> {
    [OK] + seq(|references|, i requires 0 <= i < |references| => Ascii("ok ") + references[i] + [10])
  }

  lemma OkIsUnpack()
    ensures Starts(OK, Ascii("unpack ")) && |OK| == 10
  {
    assert OK[..7] == Ascii("unpack ");
  }

  /** A report passes as accepted exactly when its packets are the full acknowledgement. */
  lemma AcceptedIffAcknowledged(data: bytes, references: seq<bytes>)
    ensures IsReportOf(data, references, true) <==> ParseReport(data) == Some(Acks(references))
  {
    OkIsUnpack();
    var acks := Acks(references);
    assert forall i :: 0 <= i < |references| ==> acks[i + 1] == Ascii("ok ") + references[i] + [10];
    if IsReportOf(data, references, true) {
      assert ParseReport(data).value == acks;
    }
  }

  /** A framed acknowledgement passes as accepted, as far as report and packets are bounded. */
  lemma AcknowledgementPasses(references: seq<bytes>)
    requires AreBounded(Acks(references)) && |Frame(Acks(references))| <= MEBIBYTE
    ensures IsReportOf(Frame(Acks(references)), references, true)
  {
    var acks := Acks(references);
    OkIsUnpack();
    forall i | 0 <= i < |acks| ensures acks[i] != []
    {
      if i > 0 { assert acks[i] == Ascii("ok ") + references[i - 1] + [10]; }
    }
    ReportRoundTrip(acks);
    AcceptedIffAcknowledged(Frame(acks), references);
  }

  /** The packets of a full refusal: a status, and for each ref a reason. */
  function Refusals(references: seq<bytes>, status: bytes, reasons: seq<bytes>): seq<bytes>
    requires |reasons| == |references|
  {
    [Ascii("unpack ") + status]
    + seq(|references|, i requires 0 <= i < |references| => Ascii("ng ") + references[i] + [32] + reasons[i] + [10])
  }

  ghost predicate IsRefusal(packets: seq<bytes>, references: seq<bytes>) {
    exists status: bytes, reasons: seq<bytes> :: |reasons| == |references| && packets == Refusals(references, status, reasons)
  }

  lemma ReasonGiven(packet: bytes, name: bytes) returns (reason: bytes)
    requires IsNg(packet, name)
    ensures packet == Ascii("ng ") + name + [32] + reason + [10]
  {
    var front := Ascii("ng ") + name + [32];
    assert packet[|front| - 1] == 32;
    reason := packet[|front|..|packet| - 1];
  }

  lemma {:induction false} ReasonsGiven(packets: seq<bytes>, references: seq<bytes>) returns (reasons: seq<bytes>)
    requires |packets| == |references|
    requires forall i :: 0 <= i < |references| ==> IsNg(packets[i], references[i])
    ensures |reasons| == |references|
    ensures forall i :: 0 <= i < |references| ==> packets[i] == Ascii("ng ") + references[i] + [32] + reasons[i] + [10]
  {
    reasons := [];
    if packets != [] {
      var n := |packets| - 1;
      var before := ReasonsGiven(packets[..n], references[..n]);
      var last := ReasonGiven(packets[n], references[n]);
      reasons := before + [last];
      forall i | 0 <= i < n ensures packets[i] == Ascii("ng ") + references[i] + [32] + reasons[i] + [10] {
        assert packets[..n][i] == packets[i] && references[..n][i] == references[i];
      }
    }
  }

  lemma RefusalIsGiven(packets: seq<bytes>, references: seq<bytes>)
    requires |packets| == |references| + 1 && Starts(packets[0], Ascii("unpack "))
    requires forall i :: 0 <= i < |references| ==> IsNg(packets[i + 1], references[i])
    ensures IsRefusal(packets, references)
  {
    var reasons := ReasonsGiven(packets[1..], references);
    var status := packets[0][|Ascii("unpack ")|..];
    assert packets[0] == Ascii("unpack ") + status;
    assert packets == Refusals(references, status, reasons);
  }

  lemma RefusalIsTaken(references: seq<bytes>, status: bytes, reasons: seq<bytes>, i: nat)
    requires |reasons| == |references| && i < |references|
    ensures IsNg(Refusals(references, status, reasons)[i + 1], references[i])
  {
    var front := Ascii("ng ") + references[i] + [32];
    var p := Refusals(references, status, reasons)[i + 1];
    assert p == front + reasons[i] + [10];
    assert p[..|front|] == front;
  }

  /** A report passes as refused exactly when it gives a status and, ref by ref, a reason. */
  lemma RefusedIffReasoned(data: bytes, references: seq<bytes>)
    ensures IsReportOf(data, references, false) <==>
      ParseReport(data).Some? && IsRefusal(ParseReport(data).value, references)
  {
    var ps := ParseReport(data);
    if IsReportOf(data, references, false) {
      RefusalIsGiven(ps.value, references);
    }
    if ps.Some? && IsRefusal(ps.value, references) {
      var status: bytes, reasons: seq<bytes> :|
        |reasons| == |references| && ps.value == Refusals(references, status, reasons);
      assert ps.value[0][..7] == Ascii("unpack ");
      forall i | 0 <= i < |references| ensures IsNg(ps.value[i + 1], references[i])
      {
        RefusalIsTaken(references, status, reasons, i);
      }
    }
  }

  ghost predicate IsAmbiguous(references: seq<bytes>) {
    exists data :: IsReportOf(data, references, true) && IsReportOf(data, references, false)
  }

  /** A report passes as both exactly when it is about no refs. */
  lemma AmbiguousIff(references: seq<bytes>)
    ensures IsAmbiguous(references) <==> references == []
  {
    if references == [] {
      NoRefsAreAmbiguous();
    } else {
      forall data ensures !(IsReportOf(data, references, true) && IsReportOf(data, references, false))
      {
        VerdictsExclude(data, references);
      }
    }
  }

  /** With no refs, one report does pass as both. */
  lemma NoRefsAreAmbiguous()
    ensures IsReportOf(Frame([OK]), [], true) && IsReportOf(Frame([OK]), [], false)
  {
    OkIsUnpack();
    assert Acks([]) == [OK];
    assert |Frame([OK])| == 4 + |OK| + 4;
    AcknowledgementPasses([]);
  }
}
