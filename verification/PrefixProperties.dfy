/**
 What the prefix parser promises over every input and every fragmentation:
 splitting the input changes nothing, nothing is lost, and a held parser has
 released exactly one well-formed prefix.
 */
module PrefixProperties {
  import opened Bytes
  import opened Prefix

  // ----- fragmentation -----

  ghost predicate IsStable(p: Parser, more: bytes) {
    Advance(WithMore(p, more)) ==
      match Advance(p)
      case Emit(next, out) => Emit(WithMore(next, more), out)
      case m => m
  }

  lemma SplitMore(s: bytes, more: bytes, n: nat)
    requires n <= |s|
    ensures (s + more)[..n] == s[..n] && (s + more)[n..] == s[n..] + more
  {
  }

  lemma PackStable(p: Parser, more: bytes)
    requires p.phase == Pack && |p.pending| >= PACK_HEADER
    ensures IsStable(p, more)
  {
    SplitMore(p.pending, more, PACK_HEADER);
  }

  lemma AcceptStable(p: Parser, more: bytes, size: nat)
    requires (p.phase == Greeting || p.phase == Commands) && 4 <= size <= |p.pending|
    ensures AcceptPacket(WithMore(p, more), size) ==
            match AcceptPacket(p, size)
            case Emit(next, out) => Emit(WithMore(next, more), out)
            case m => m
  {
    SplitMore(p.pending, more, size);
  }

  lemma PacketStable(p: Parser, more: bytes)
    requires (p.phase == Greeting || p.phase == Commands) && |p.pending| >= 4 && Advance(p) != Wait
    ensures IsStable(p, more)
  {
    SplitMore(p.pending, more, 4);
    if IsHex4(p.pending[..4]) && 4 <= Hex4(p.pending[..4]) <= |p.pending| {
      AcceptStable(p, more, Hex4(p.pending[..4]));
    }
  }

  /** A turn that decided keeps its decision when more input follows. */
  lemma AdvanceStable(p: Parser, more: bytes)
    requires Advance(p) != Wait
    ensures IsStable(p, more)
  {
    if p.phase == Pack { PackStable(p, more); } else { PacketStable(p, more); }
  }

  lemma {:induction false} DrainMore(p: Parser, more: bytes)
    ensures Drain(WithMore(p, more)) ==
            match Drain(p)
            case Failed => Failed
            case Fed(q, out) => Prepend(out, Drain(WithMore(q, more)))
    decreases |p.pending|
  {
    match Advance(p)
    case Wait =>
      assert Drain(p) == Fed(p, []);
      PrependNothing(Drain(WithMore(p, more)));
    case Reject =>
      AdvanceStable(p, more);
    case Emit(next, out) =>
      AdvanceStable(p, more);
      DrainMore(next, more);
      if Drain(next).Fed? {
        PrependAssociates(out, Drain(next).out, Drain(WithMore(Drain(next).parser, more)));
      }
  }

  /** Feeding `a + b` at once is feeding `a` and then `b`. */
  lemma FeedSplit(p: Parser, a: bytes, b: bytes)
    ensures Feed(p, a + b) ==
            match Feed(p, a)
            case Failed => Failed
            case Fed(q, out) => Prepend(out, Feed(q, b))
  {
    var first := WithMore(p, a);
    assert WithMore(first, b) == WithMore(p, a + b) by {
      assert (p.pending + a) + b == p.pending + (a + b);
    }
    DrainMore(first, b);
  }

  /** No turn is left to take. */
  predicate Quiescent(p: Parser) {
    Advance(p) == Wait
  }

  lemma {:induction false} DrainQuiesces(p: Parser)
    ensures Drain(p).Fed? ==> Quiescent(Drain(p).parser)
    decreases |p.pending|
  {
    match Advance(p)
    case Emit(next, out) => DrainQuiesces(next);
    case _ =>
  }

  /**
   For every way of cutting the input into blocks, feeding the blocks fails
   exactly when feeding the whole fails, and otherwise ends in the same state
   having released the same bytes.
   */
  lemma {:induction false} FragmentationInvariance(p: Parser, blocks: seq<bytes>)
    requires Quiescent(p)
    ensures FeedAll(p, blocks) == Feed(p, Flatten(blocks))
    decreases |blocks|
  {
    if blocks == [] {
      assert WithMore(p, []) == p;
    } else {
      FeedSplit(p, blocks[0], Flatten(blocks[1..]));
      if Feed(p, blocks[0]).Fed? {
        DrainQuiesces(WithMore(p, blocks[0]));
        FragmentationInvariance(Feed(p, blocks[0]).parser, blocks[1..]);
      }
    }
  }

  /** A held parser retains everything: nothing more is ever released. */
  lemma HeldRetains(p: Parser, data: bytes)
    requires p.phase == Held
    ensures Feed(p, data) == Fed(WithMore(p, data), [])
  {
  }

  // ----- the grammar -----

  predicate IsPacket(s: bytes) {
    && 4 <= |s| <= MAX_PACKET
    && IsHex4(s[..4])
    && Hex4(s[..4]) == |s|
  }

  predicate IsGreeting(s: bytes) {
    IsPacket(s) && RULES.greeting(s[4..])
  }

  predicate IsCommand(s: bytes, first: bool) {
    IsPacket(s) && RULES.command(s[4..], first)
  }

  const FLUSH: bytes := [48, 48, 48, 48]

  /** The sections of a prefix in wire order; empty where not yet released. */
  datatype Released = Released(greeting: bytes, first: bytes, second: bytes, flush: bytes, header: bytes)

  function Wire(r: Released): bytes {
    r.greeting + (r.first + (r.second + (r.flush + r.header)))
  }

  const NOTHING := Released([], [], [], [], [])

  predicate GreetingDone(raw: bool, greeting: bytes) {
    if raw then IsGreeting(greeting) else greeting == []
  }

  /** What a parser in this state has released. */
  predicate Sections(raw: bool, p: Parser, r: Released) {
    && p.prefixBytes == |r.greeting| + |r.first| + |r.second|
    && |p.commands| <= 2
    && (if p.phase == Greeting then raw && |p.commands| == 0 && r.greeting == []
        else GreetingDone(raw, r.greeting))
    && (if |p.commands| >= 1
        then IsCommand(r.first, true) && p.commands[0] == RULES.refOf(r.first[4..])
        else r.first == [])
    && (if |p.commands| == 2
        then IsCommand(r.second, false) && p.commands[1] == RULES.refOf(r.second[4..])
        else r.second == [])
    && (if p.phase == Pack || p.phase == Held
        then |p.commands| == 2 && r.flush == FLUSH
        else r.flush == [])
    && (if p.phase == Held
        then IsPackHeader(r.header) && p.packObjects == BigEndian4(r.header[8..12])
        else r.header == [])
  }

  function Extend(p: Parser, r: Released, out: bytes): Released {
    match p.phase
    case Greeting => r.(greeting := out)
    case Commands =>
      if |p.commands| == 0 then r.(first := out)
      else if |p.commands| == 1 then r.(second := out)
      else r.(flush := out)
    case _ => r.(header := out)
  }

  lemma ExtendWire(p: Parser, r: Released, out: bytes)
    requires r.header == [] && p.phase != Held
    requires p.phase == Greeting || p.phase == Commands ==> r.flush == []
    requires p.phase == Greeting || (p.phase == Commands && |p.commands| <= 1) ==> r.second == []
    requires p.phase == Greeting || (p.phase == Commands && |p.commands| == 0) ==> r.first == []
    requires p.phase == Greeting ==> r.greeting == []
    ensures Wire(Extend(p, r, out)) == Wire(r) + out
  {
    WireThen(r, out);
    var e: bytes := [];
    assert e + out == out && out + e == out && e + e == e;
  }

  lemma PacketSections(raw: bool, p: Parser, r: Released)
    requires Sections(raw, p, r) && (p.phase == Greeting || p.phase == Commands)
    requires Advance(p).Emit? && Hex4(p.pending[..4]) > 0
    ensures Sections(raw, Advance(p).next, Extend(p, r, Advance(p).out))
  {
    var out := Advance(p).out;
    assert out[..4] == p.pending[..4];
    assert out == p.pending[..Hex4(p.pending[..4])] && IsPacket(out);
  }

  lemma AdvanceSections(raw: bool, p: Parser, r: Released)
    requires Sections(raw, p, r)
    requires Advance(p).Emit?
    ensures Sections(raw, Advance(p).next, Extend(p, r, Advance(p).out))
  {
    if p.phase == Greeting || p.phase == Commands {
      if Hex4(p.pending[..4]) > 0 {
        PacketSections(raw, p, r);
      } else {
        assert Advance(p).out == FLUSH;
      }
    }
  }

  lemma AdvanceExtends(raw: bool, p: Parser, r: Released) returns (next: Released)
    requires Sections(raw, p, r)
    requires Advance(p).Emit?
    ensures Sections(raw, Advance(p).next, next) && Wire(next) == Wire(r) + Advance(p).out
  {
    next := Extend(p, r, Advance(p).out);
    AdvanceSections(raw, p, r);
    ExtendWire(p, r, Advance(p).out);
  }

  lemma {:induction false} DrainSections(raw: bool, p: Parser, r: Released)
    returns (after: Released)
    requires Sections(raw, p, r)
    ensures match Drain(p)
            case Failed => true
            case Fed(q, out) => Sections(raw, q, after) && Wire(after) == Wire(r) + out
    decreases |p.pending|
  {
    var m := Advance(p);
    match m
    case Emit(next, first) =>
      var extended := AdvanceExtends(raw, p, r);
      after := DrainSections(raw, next, extended);
      AppendAssociates(Wire(r), first, Drain(next));
    case _ =>
      after := r;
      assert Wire(r) + [] == Wire(r);
  }

  lemma AppendAssociates(a: bytes, b: bytes, o: Outcome)
    ensures o.Fed? ==> (a + b) + o.out == a + Prepend(b, o).out
  {
    if o.Fed? {
      assert (a + b) + o.out == a + (b + o.out);
    }
  }

  /** A complete prefix: greeting when raw, two commands, flush, PACK header. */
  predicate IsCompletePrefix(raw: bool, r: Released) {
    && GreetingDone(raw, r.greeting)
    && IsCommand(r.first, true) && IsCommand(r.second, false)
    && r.flush == FLUSH && IsPackHeader(r.header)
  }

  /** Everything released so far is sections of the grammar, in order. */
  lemma ReleasedSections(raw: bool, data: bytes) returns (r: Released)
    ensures match Feed(Start(raw), data)
            case Failed => true
            case Fed(q, out) => Sections(raw, q, r) && Wire(r) == out
  {
    r := DrainSections(raw, WithMore(Start(raw), data), NOTHING);
    assert Wire(NOTHING) == [];
    AppendAssociates([], [], Feed(Start(raw), data));
    PrependNothing(Feed(Start(raw), data));
  }

  // ----- the limit -----

  /** A whole packet of a valid length is pending, so that this turn takes it. */
  predicate IsPacketTurn(p: Parser) {
    && (p.phase == Greeting || p.phase == Commands)
    && |p.pending| >= 4 && IsHex4(p.pending[..4])
    && 4 <= Hex4(p.pending[..4]) <= MAX_PACKET && Hex4(p.pending[..4]) <= |p.pending|
  }

  /** The turn, the loop and the call of a parser that never compares with `LIMIT`. */
  function AdvanceFreely(p: Parser): (m: Move)
    ensures m.Emit? ==> |m.next.pending| < |p.pending|
  {
    if IsPacketTurn(p) then AcceptContent(p, Hex4(p.pending[..4])) else Advance(p)
  }

  function DrainFreely(p: Parser): Outcome
    decreases |p.pending|
  {
    match AdvanceFreely(p)
    case Wait => Fed(p, [])
    case Reject => Failed
    case Emit(next, out) => Prepend(out, DrainFreely(next))
  }

  function FeedFreely(p: Parser, data: bytes): Outcome {
    DrainFreely(WithMore(p, data))
  }

  /** No more than three packets are ever counted before one more. */
  lemma CountIsBounded(raw: bool, p: Parser, r: Released)
    requires Sections(raw, p, r)
    ensures p.prefixBytes + MAX_PACKET <= 4 * MAX_PACKET < LIMIT
  {
  }

  lemma TurnIsFree(raw: bool, p: Parser, r: Released)
    requires Sections(raw, p, r)
    ensures Advance(p) == AdvanceFreely(p)
  {
    CountIsBounded(raw, p, r);
  }

  lemma {:induction false} DrainIsFree(raw: bool, p: Parser, r: Released)
    requires Sections(raw, p, r)
    ensures Drain(p) == DrainFreely(p)
    decreases |p.pending|
  {
    TurnIsFree(raw, p, r);
    if Advance(p).Emit? {
      var next := AdvanceExtends(raw, p, r);
      DrainIsFree(raw, Advance(p).next, next);
    }
    DrainsAlike(p);
  }

  lemma DrainsAlike(p: Parser)
    requires Advance(p) == AdvanceFreely(p)
    requires Advance(p).Emit? ==> Drain(Advance(p).next) == DrainFreely(Advance(p).next)
    ensures Drain(p) == DrainFreely(p)
  {
  }

  /** On every input, failing ones included, the parser does exactly what it would do without the `LIMIT` requirement. */
  lemma LimitNeverFails(raw: bool, data: bytes)
    ensures Feed(Start(raw), data) == FeedFreely(Start(raw), data)
  {
    DrainIsFree(raw, WithMore(Start(raw), data), NOTHING);
  }

  // ----- completeness -----

  /** A well-formed next packet is released whole. */
  lemma PacketTurn(p: Parser, piece: bytes, rest: bytes) returns (q: Parser)
    requires p.pending == piece + rest
    requires IsPacket(piece) && p.prefixBytes + |piece| <= LIMIT
    requires || (p.phase == Greeting && RULES.greeting(piece[4..]))
             || (p.phase == Commands && |p.commands| < 2
                 && RULES.command(piece[4..], p.commands == []))
    ensures q == p.(phase := Commands, pending := rest, prefixBytes := p.prefixBytes + |piece|,
                    commands := if p.phase == Greeting then p.commands
                                else p.commands + [RULES.refOf(piece[4..])])
    ensures Drain(p) == Prepend(piece, Drain(q))
  {
    assert p.pending[..4] == piece[..4];
    assert p.pending[..|piece|] == piece && p.pending[|piece|..] == rest;
    q := Advance(p).next;
  }

  lemma TailTurns(p: Parser, header: bytes, rest: bytes) returns (q: Parser)
    requires p.phase == Commands && |p.commands| == 2
    requires p.pending == FLUSH + (header + rest) && IsPackHeader(header)
    ensures q == p.(phase := Held, pending := rest, packObjects := BigEndian4(header[8..12]))
    ensures Drain(p) == Fed(q, FLUSH + header)
  {
    assert p.pending[..4] == FLUSH && p.pending[4..] == header + rest;
    var next := p.(phase := Pack, pending := header + rest);
    assert Advance(p) == Emit(next, FLUSH);
    assert next.pending[..PACK_HEADER] == header && next.pending[PACK_HEADER..] == rest;
    q := Advance(next).next;
    assert Drain(q) == Fed(q, []);
    assert header + [] == header;
  }

  lemma CommandTurns(p: Parser, r: Released, rest: bytes) returns (q: Parser)
    requires p.phase == Commands && p.commands == [] && p.prefixBytes <= MAX_PACKET
    requires p.pending == r.first + (r.second + (r.flush + (r.header + rest)))
    requires IsCommand(r.first, true) && IsCommand(r.second, false)
    requires r.flush == FLUSH && IsPackHeader(r.header)
    ensures Drain(p) == Fed(q, r.first + (r.second + (r.flush + r.header)))
    ensures q.phase == Held && q.pending == rest && q.packObjects == BigEndian4(r.header[8..12])
    ensures q.commands == [RULES.refOf(r.first[4..]), RULES.refOf(r.second[4..])]
  {
    var p1 := PacketTurn(p, r.first, r.second + (r.flush + (r.header + rest)));
    var p2 := PacketTurn(p1, r.second, r.flush + (r.header + rest));
    q := TailTurns(p2, r.header, rest);
  }

  lemma WireThen(r: Released, rest: bytes)
    ensures Wire(r) + rest == r.greeting + (r.first + (r.second + (r.flush + (r.header + rest))))
  {
  }

  lemma GreetedTurns(p: Parser, r: Released, rest: bytes) returns (q: Parser)
    requires p == WithMore(Start(true), Wire(r) + rest) && IsCompletePrefix(true, r)
    ensures Drain(p) == Fed(q, Wire(r))
    ensures q.phase == Held && q.pending == rest && q.packObjects == BigEndian4(r.header[8..12])
    ensures q.commands == [RULES.refOf(r.first[4..]), RULES.refOf(r.second[4..])]
  {
    WireThen(r, rest);
    var next := PacketTurn(p, r.greeting, r.first + (r.second + (r.flush + (r.header + rest))));
    q := CommandTurns(next, r, rest);
  }

  lemma PlainTurns(p: Parser, r: Released, rest: bytes) returns (q: Parser)
    requires p == WithMore(Start(false), Wire(r) + rest) && IsCompletePrefix(false, r)
    ensures Drain(p) == Fed(q, Wire(r))
    ensures q.phase == Held && q.pending == rest && q.packObjects == BigEndian4(r.header[8..12])
    ensures q.commands == [RULES.refOf(r.first[4..]), RULES.refOf(r.second[4..])]
  {
    WireThen(r, rest);
    q := CommandTurns(p, r, rest);
    assert Wire(r) == r.first + (r.second + (r.flush + r.header));
  }

  /** Every complete prefix is accepted, and released exactly. */
  lemma CompleteIsHeld(raw: bool, r: Released, rest: bytes) returns (q: Parser)
    requires IsCompletePrefix(raw, r)
    ensures Feed(Start(raw), Wire(r) + rest) == Fed(q, Wire(r))
    ensures q.phase == Held && q.pending == rest && q.packObjects == BigEndian4(r.header[8..12])
    ensures q.commands == [RULES.refOf(r.first[4..]), RULES.refOf(r.second[4..])]
  {
    var p := WithMore(Start(raw), Wire(r) + rest);
    if raw {
      q := GreetedTurns(p, r, rest);
    } else {
      q := PlainTurns(p, r, rest);
    }
  }

  lemma HeldIsComplete(raw: bool, p: Parser, r: Released)
    requires Sections(raw, p, r)
    ensures p.phase == Held <==> IsCompletePrefix(raw, r)
  {
  }

  ghost predicate HasCompletePrefix(raw: bool, data: bytes) {
    exists r :: IsCompletePrefix(raw, r) && Wire(r) <= data
  }

  predicate Holds(raw: bool, data: bytes) {
    match Feed(Start(raw), data)
    case Failed => false
    case Fed(q, _) => q.phase == Held
  }

  lemma HeldHasPrefix(raw: bool, data: bytes)
    requires Holds(raw, data)
    ensures HasCompletePrefix(raw, data)
  {
    var q, out := Feed(Start(raw), data).parser, Feed(Start(raw), data).out;
    var r := ReleasedSections(raw, data);
    HeldIsComplete(raw, q, r);
    assert Start(raw).pending + data == data;
    assert Wire(r) + q.pending == data;
  }

  lemma PrefixIsHeld(raw: bool, r: Released, data: bytes)
    requires IsCompletePrefix(raw, r) && Wire(r) <= data
    ensures Holds(raw, data)
  {
    var rest := data[|Wire(r)|..];
    assert data == Wire(r) + rest;
    var q := CompleteIsHeld(raw, r, rest);
  }

  /**
   The parser holds exactly on the inputs that begin with a complete prefix:
   it accepts nothing else before the barrier and refuses none of them.
   */
  lemma HeldExactly(raw: bool, data: bytes)
    ensures Holds(raw, data) <==> HasCompletePrefix(raw, data)
  {
    if HasCompletePrefix(raw, data) {
      var r :| IsCompletePrefix(raw, r) && Wire(r) <= data;
      PrefixIsHeld(raw, r, data);
    }
    if Holds(raw, data) {
      HeldHasPrefix(raw, data);
    }
  }
}
