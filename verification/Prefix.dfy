/**
 The incremental receive-pack prefix parser of the barrier relay: an optional
 greeting packet, two atomic ref commands, a flush, and a 12-byte PACK header.
 `Advance` is one turn of the parser's loop, `Drain` the loop, `Feed` one call.
 A failed requirement is absorbing.
 */
module Prefix {
  import opened Bytes

  const LIMIT: nat := 4 * 1024 * 1024
  const MAX_PACKET: nat := 65520
  const PACK_HEADER: nat := 12

  datatype Phase = Greeting | Commands | Pack | Held

  datatype Parser = Parser(
    phase: Phase,
    pending: bytes,
    commands: seq<bytes>,
    prefixBytes: nat,
    packObjects: nat)

  datatype Move =
    | Wait
    | Reject
    | Emit(next: Parser, out: bytes)

  datatype Outcome =
    | Failed
    | Fed(parser: Parser, out: bytes)

  /** What one turn of the mutable parser did. */
  datatype Turned = Stop | Raise | Sent(out: bytes)

  function Start(raw: bool): Parser {
    Parser(if raw then Greeting else Commands, [], [], 0, 0)
  }

  predicate IsGreetingPayload(payload: bytes) {
    Ascii("git-receive-pack /") <= payload
  }

  /** The three fields of a command line, before its NUL. */
  function CommandFields(payload: bytes): seq<bytes> {
    Split(StripNewlines(payload[..Find(payload, 0)]), 32)
  }

  function Capabilities(payload: bytes): seq<bytes> {
    var k := Find(payload, 0);
    if k == |payload| then [] else Words(payload[k + 1..])
  }

  predicate IsCommandPayload(payload: bytes, first: bool) {
    var fields := CommandFields(payload);
    && |fields| == 3
    && Ascii("refs/heads/") <= fields[2]
    && (first ==>
          && Ascii("atomic") in Capabilities(payload)
          && (|| Ascii("report-status") in Capabilities(payload)
              || Ascii("report-status-v2") in Capabilities(payload)))
    && (forall b :: b in fields[2] ==> b < 128)
  }

  function CommandRef(payload: bytes): bytes {
    var fields := CommandFields(payload);
    fields[|fields| - 1]
  }

  /** The payload rules, as values the framing does not look into. */
  datatype Rules = Rules(
    greeting: bytes -> bool,
    command: (bytes, bool) -> bool,
    refOf: bytes -> bytes)

  const RULES: Rules := Rules(IsGreetingPayload, IsCommandPayload, CommandRef)

  predicate IsPackHeader(h: bytes) {
    && |h| == PACK_HEADER
    && h[..4] == Ascii("PACK")
    && (BigEndian4(h[4..8]) == 2 || BigEndian4(h[4..8]) == 3)
    && BigEndian4(h[8..12]) > 0
  }

  /** One turn of the parser's loop. */
  function Advance(p: Parser): (m: Move)
    ensures m.Emit? ==> m.out + m.next.pending == p.pending && |m.out| >= 4
    ensures p.phase == Held ==> m == Wait
  {
    if p.phase == Held then Wait
    else if p.phase == Pack then
      if |p.pending| < PACK_HEADER then Wait
      else
        var header := p.pending[..PACK_HEADER];
        if !IsPackHeader(header) then Reject
        else Emit(p.(phase := Held, pending := p.pending[PACK_HEADER..],
                     packObjects := BigEndian4(header[8..12])), header)
    else if |p.pending| < 4 then Wait
    else if !IsHex4(p.pending[..4]) then Reject
    else
      var size := Hex4(p.pending[..4]);
      if !(size == 0 || 4 <= size <= MAX_PACKET) then Reject
      else if size == 0 then
        if p.phase == Commands && |p.commands| == 2
        then Emit(p.(phase := Pack, pending := p.pending[4..]), p.pending[..4])
        else Reject
      else if |p.pending| < size then Wait
      else AcceptPacket(p, size)
  }

  /** A whole packet: counted against the limit, then judged by its content. */
  function AcceptPacket(p: Parser, size: nat): (m: Move)
    requires p.phase == Greeting || p.phase == Commands
    requires 4 <= size <= |p.pending|
    ensures m.Emit? ==> m.out + m.next.pending == p.pending && |m.out| == size
  {
    if p.prefixBytes + size > LIMIT then Reject else AcceptContent(p, size)
  }

  function AcceptContent(p: Parser, size: nat): (m: Move)
    requires p.phase == Greeting || p.phase == Commands
    requires 4 <= size <= |p.pending|
    ensures m.Emit? ==> m.out + m.next.pending == p.pending && |m.out| == size
  {
    var packet := p.pending[..size];
    var rest := p.pending[size..];
    var payload := packet[4..];
    var total := p.prefixBytes + size;
    if p.phase == Greeting then
      if RULES.greeting(payload)
      then Emit(p.(phase := Commands, pending := rest, prefixBytes := total), packet)
      else Reject
    else if !RULES.command(payload, p.commands == []) || |p.commands| >= 2 then Reject
    else Emit(p.(pending := rest, prefixBytes := total,
                 commands := p.commands + [RULES.refOf(payload)]), packet)
  }

  function Prepend(out: bytes, o: Outcome): Outcome {
    match o
    case Failed => Failed
    case Fed(p, more) => Fed(p, out + more)
  }

  function Drain(p: Parser): (o: Outcome)
    ensures o.Fed? ==> o.out + o.parser.pending == p.pending
    decreases |p.pending|
  {
    match Advance(p)
    case Wait => Fed(p, [])
    case Reject => Failed
    case Emit(next, out) => Prepend(out, Drain(next))
  }

  function WithMore(p: Parser, data: bytes): Parser {
    p.(pending := p.pending + data)
  }

  /** One call of the parser with a block of input. */
  function Feed(p: Parser, data: bytes): (o: Outcome)
    ensures o.Fed? ==> o.out + o.parser.pending == p.pending + data
  {
    Drain(WithMore(p, data))
  }

  function FeedAll(p: Parser, blocks: seq<bytes>): (o: Outcome)
    decreases |blocks|
  {
    if blocks == [] then Fed(p, [])
    else match Feed(p, blocks[0])
      case Failed => Failed
      case Fed(q, out) => Prepend(out, FeedAll(q, blocks[1..]))
  }

  lemma PrependAssociates(a: bytes, b: bytes, o: Outcome)
    ensures Prepend(a, Prepend(b, o)) == Prepend(a + b, o)
  {
    if o.Fed? {
      assert a + (b + o.out) == (a + b) + o.out;
    }
  }

  lemma PrependNothing(o: Outcome)
    ensures Prepend([], o) == o
  {
    if o.Fed? {
      assert [] + o.out == o.out;
    }
  }

  /** How one turn moves the loop along, after `result` was already released. */
  lemma DrainTurn(result: bytes, p: Parser)
    ensures Prepend(result, Drain(p)) ==
            match Advance(p)
            case Wait => Fed(p, result)
            case Reject => Failed
            case Emit(next, out) => Prepend(result + out, Drain(next))
  {
    match Advance(p)
    case Emit(next, out) => PrependAssociates(result, out, Drain(next));
    case _ => assert result + [] == result;
  }

  // ----- the object whose fields the relay mutates -----

  class PrefixParser {
    var phase: Phase
    var pending: bytes
    var commands: seq<bytes>
    var prefixBytes: nat
    var packObjects: nat

    function View(): Parser
      reads this
    {
      Parser(phase, pending, commands, prefixBytes, packObjects)
    }

    constructor (raw: bool)
      ensures View() == Start(raw)
    {
      phase := if raw then Greeting else Commands;
      pending, commands, prefixBytes, packObjects := [], [], 0, 0;
    }

    /** One turn of the loop: `Raise` is a failed requirement. */
    method Turn() returns (r: Turned)
      modifies this
      ensures match Advance(old(View()))
              case Wait => r == Stop && View() == old(View())
              case Reject => r == Raise
              case Emit(next, out) => r == Sent(out) && View() == next
    {
      if phase == Held {
        return Stop;
      }
      if phase == Pack {
        if |pending| < PACK_HEADER {
          return Stop;
        }
        var header := pending[..PACK_HEADER];
        if !IsPackHeader(header) {
          return Raise;
        }
        packObjects := BigEndian4(header[8..12]);
        pending := pending[PACK_HEADER..];
        phase := Held;
        return Sent(header);
      }
      if |pending| < 4 {
        return Stop;
      }
      var spelling := pending[..4];
      if !IsHex4(spelling) {
        return Raise;
      }
      var size := Hex4(spelling);
      if !(size == 0 || 4 <= size <= MAX_PACKET) {
        return Raise;
      }
      if size == 0 {
        if !(phase == Commands && |commands| == 2) {
          return Raise;
        }
        pending := pending[4..];
        phase := Pack;
        return Sent(spelling);
      }
      if |pending| < size {
        return Stop;
      }
      r := TakePacket(size);
    }

    method TakePacket(size: nat) returns (r: Turned)
      requires phase == Greeting || phase == Commands
      requires 4 <= size <= |pending|
      modifies this
      ensures match AcceptPacket(old(View()), size)
              case Emit(next, out) => r == Sent(out) && View() == next
              case _ => r == Raise
    {
      var packet := pending[..size];
      pending := pending[size..];
      prefixBytes := prefixBytes + size;
      if prefixBytes > LIMIT {
        return Raise;
      }
      var payload := packet[4..];
      if phase == Greeting {
        if !RULES.greeting(payload) {
          return Raise;
        }
        phase := Commands;
      } else {
        if !RULES.command(payload, commands == []) {
          return Raise;
        }
        commands := commands + [RULES.refOf(payload)];
        if |commands| > 2 {
          return Raise;
        }
      }
      return Sent(packet);
    }

    /** Returns only prefix bytes; `None` is the raised error. */
    method Consume(data: bytes) returns (r: Option<bytes>)
      modifies this
      ensures match Feed(old(View()), data)
              case Failed => r == None
              case Fed(p, out) => r == Some(out) && View() == p
    {
      pending := pending + data;
      var result: bytes := [];
      ghost var answer := Feed(old(View()), data);
      PrependNothing(answer);
      while phase != Held
        invariant answer == Prepend(result, Drain(View()))
        decreases |pending|, phase != Held
      {
        DrainTurn(result, View());
        var turned := Turn();
        match turned
        case Stop => return Some(result);
        case Raise => return None;
        case Sent(out) => result := result + out;
      }
      DrainTurn(result, View());
      return Some(result);
    }
  }
}
