/**
 The barrier relay: a two-way byte pump that forwards a stock push up to and
 including its 12-byte PACK header, marks the barrier, and withholds the rest
 of the client's bytes until released. One `Turn` holds everything the loop
 does not control in one iteration: the release file, which descriptors are
 ready, what each read returns and how much each write takes.
 */
module Relay {
  import opened Bytes
  import opened Prefix

  const CHUNK: nat := 16 * 1024

  /** The relay's variables, and what has crossed each of its four ends. */
  datatype World = World(
    parser: Parser,
    toServer: bytes,
    toClient: bytes,
    marked: bool,
    released: bool,
    inputEof: bool,
    outputEof: bool,
    writeClosed: bool,
    serverBytes: nat,
    clientSent: bytes,
    serverGot: bytes,
    serverSent: bytes,
    clientGot: bytes)

  datatype Turn = Turn(
    releaseSeen: bool,
    serverReadable: bool,
    serverBlock: bytes,
    clientReadable: bool,
    clientBlock: bytes,
    serverWritable: bool,
    serverTook: nat,
    clientWritable: bool,
    clientTook: nat)

  function Initial(raw: bool): World {
    World(Start(raw), [], [], false, false, false, false, false, 0, [], [], [], [])
  }

  /** The loop's exit condition. */
  predicate Finished(w: World) {
    w.outputEof && w.toClient == []
  }

  // ----- one iteration, step by step; `None` is a failed requirement -----

  function Mark(w: World): Option<World> {
    if w.parser.phase == Held && w.toServer == [] && !w.marked then
      if w.serverBytes > 0 then Some(w.(marked := true)) else None
    else Some(w)
  }

  function Release(w: World, t: Turn): World {
    if w.marked && !w.released && t.releaseSeen
    then w.(toServer := w.toServer + w.parser.pending,
            parser := w.parser.(pending := []), released := true)
    else w
  }

  function CloseWrite(w: World): World {
    if w.inputEof && w.toServer == [] && !w.writeClosed then w.(writeClosed := true) else w
  }

  predicate WantsServer(w: World) {
    !w.outputEof && |w.toClient| < CHUNK * 4
  }

  predicate WantsClient(w: World) {
    !w.inputEof && |w.toServer| < CHUNK * 4 && (w.parser.phase != Held || w.released)
  }

  function ReadServer(w: World, t: Turn): World {
    if t.serverBlock == [] then w.(outputEof := true)
    else w.(serverBytes := w.serverBytes + |t.serverBlock|,
            toClient := w.toClient + t.serverBlock,
            serverSent := w.serverSent + t.serverBlock)
  }

  function ReadClient(w: World, t: Turn): Option<World> {
    if t.clientBlock == [] then
      if w.released then Some(w.(inputEof := true)) else None
    else if w.released then
      Some(w.(toServer := w.toServer + t.clientBlock, clientSent := w.clientSent + t.clientBlock))
    else match Feed(w.parser, t.clientBlock)
      case Failed => None
      case Fed(p, out) =>
        Some(w.(parser := p, toServer := w.toServer + out, clientSent := w.clientSent + t.clientBlock))
  }

  /** A short write takes at most what one call offers. */
  function Taken(buffer: bytes, took: nat): (n: nat)
    ensures n <= |buffer| && n <= CHUNK
  {
    var offered := if |buffer| < CHUNK then |buffer| else CHUNK;
    if took < offered then took else offered
  }

  function WriteServer(w: World, t: Turn): World {
    var n := Taken(w.toServer, t.serverTook);
    w.(serverGot := w.serverGot + w.toServer[..n], toServer := w.toServer[n..])
  }

  function WriteClient(w: World, t: Turn): World {
    var n := Taken(w.toClient, t.clientTook);
    w.(clientGot := w.clientGot + w.toClient[..n], toClient := w.toClient[n..])
  }

  /** The part of an iteration before `select`. */
  function Prepare(w: World, t: Turn): Option<World> {
    match Mark(w)
    case None => None
    case Some(m) => Some(CloseWrite(Release(m, t)))
  }

  function Reads(w: World, t: Turn): Option<World> {
    var a := if WantsServer(w) && t.serverReadable then ReadServer(w, t) else w;
    if WantsClient(w) && t.clientReadable then ReadClient(a, t) else Some(a)
  }

  function Writes(w: World, t: Turn, writesServer: bool, writesClient: bool): World {
    var a := if writesServer && t.serverWritable then WriteServer(w, t) else w;
    if writesClient && t.clientWritable then WriteClient(a, t) else a
  }

  /** The part after `select`, with readiness decided on the prepared state. */
  function Exchange(w: World, t: Turn): Option<World> {
    match Reads(w, t)
    case None => None
    case Some(r) => Some(Writes(r, t, w.toServer != [] && !w.writeClosed, w.toClient != []))
  }

  function Iterate(w: World, t: Turn): Option<World> {
    match Prepare(w, t)
    case None => None
    case Some(p) => Exchange(p, t)
  }

  datatype Status =
    | Running(world: World)
    | Returned(world: World)
    | Raised

  /** The whole loop over one schedule of turns. */
  function Run(w: World, turns: seq<Turn>): Status
    decreases |turns|
  {
    if Finished(w) then if w.marked && w.released then Returned(w) else Raised
    else if turns == [] then Running(w)
    else match Iterate(w, turns[0])
      case None => Raised
      case Some(next) => Run(next, turns[1..])
  }

  // ----- what the peers may do -----

  /** Each peer has one fixed stream; a read returns its next bytes, and nothing only at its end. */
  predicate IsNextBlock(stream: bytes, sent: bytes, block: bytes) {
    && |block| <= CHUNK
    && sent + block <= stream
    && (block == [] ==> sent == stream)
  }

  predicate IsLegal(client: bytes, server: bytes, w: World, t: Turn) {
    match Prepare(w, t)
    case None => true
    case Some(p) =>
      && (WantsServer(p) && t.serverReadable ==> IsNextBlock(server, p.serverSent, t.serverBlock))
      && (WantsClient(p) && t.clientReadable ==> IsNextBlock(client, p.clientSent, t.clientBlock))
  }

  predicate IsSchedule(client: bytes, server: bytes, w: World, turns: seq<Turn>)
    decreases |turns|
  {
    turns != [] && !Finished(w) ==>
      && IsLegal(client, server, w, turns[0])
      && match Iterate(w, turns[0])
         case None => true
         case Some(next) => IsSchedule(client, server, next, turns[1..])
  }

  // ----- the loop over mutable buffers and flags -----

  class RelayLoop {
    const parser: PrefixParser
    var toServer: bytes
    var toClient: bytes
    var marked: bool
    var released: bool
    var inputEof: bool
    var outputEof: bool
    var writeClosed: bool
    var serverBytes: nat
    ghost var clientSent: bytes
    ghost var serverGot: bytes
    ghost var serverSent: bytes
    ghost var clientGot: bytes

    ghost function View(): World
      reads this, parser
    {
      World(parser.View(), toServer, toClient, marked, released, inputEof, outputEof, writeClosed,
            serverBytes, clientSent, serverGot, serverSent, clientGot)
    }

    constructor (raw: bool)
      ensures View() == Initial(raw) && fresh(parser)
    {
      parser := new PrefixParser(raw);
      toServer, toClient, serverBytes := [], [], 0;
      marked, released, inputEof, outputEof, writeClosed := false, false, false, false, false;
      clientSent, serverGot, serverSent, clientGot := [], [], [], [];
    }

    method Before(t: Turn) returns (ok: bool)
      modifies this, parser
      ensures match Prepare(old(View()), t)
              case None => !ok
              case Some(w) => ok && View() == w
    {
      if parser.phase == Held && toServer == [] && !marked {
        if serverBytes == 0 {
          return false;
        }
        marked := true;
      }
      ghost var m := View();
      assert Mark(old(View())) == Some(m);
      if marked && !released && t.releaseSeen {
        toServer := toServer + parser.pending;
        parser.pending := [];
        released := true;
      }
      assert View() == Release(m, t);
      if inputEof && toServer == [] && !writeClosed {
        writeClosed := true;
      }
      ok := true;
    }

    method TakeServer(t: Turn)
      modifies this
      ensures View() == ReadServer(old(View()), t)
    {
      if t.serverBlock != [] {
        serverBytes := serverBytes + |t.serverBlock|;
        toClient := toClient + t.serverBlock;
        serverSent := serverSent + t.serverBlock;
      } else {
        outputEof := true;
      }
    }

    method TakeClient(t: Turn) returns (ok: bool)
      modifies this, parser
      ensures match ReadClient(old(View()), t)
              case None => !ok
              case Some(w) => ok && View() == w
    {
      if t.clientBlock == [] {
        inputEof := true;
        return released;
      }
      var forward := t.clientBlock;
      if !released {
        var consumed := parser.Consume(t.clientBlock);
        if consumed == None {
          return false;
        }
        forward := consumed.value;
      }
      toServer := toServer + forward;
      clientSent := clientSent + t.clientBlock;
      return true;
    }

    method GiveServer(t: Turn)
      modifies this
      ensures View() == WriteServer(old(View()), t)
    {
      var written := Taken(toServer, t.serverTook);
      serverGot := serverGot + toServer[..written];
      toServer := toServer[written..];
    }

    method GiveClient(t: Turn)
      modifies this
      ensures View() == WriteClient(old(View()), t)
    {
      var written := Taken(toClient, t.clientTook);
      clientGot := clientGot + toClient[..written];
      toClient := toClient[written..];
    }

    method DoReads(t: Turn) returns (ok: bool)
      modifies this, parser
      ensures match Reads(old(View()), t)
              case None => !ok
              case Some(w) => ok && View() == w
    {
      var readsServer := !outputEof && |toClient| < CHUNK * 4;
      var readsClient := !inputEof && |toServer| < CHUNK * 4 && (parser.phase != Held || released);
      if readsServer && t.serverReadable {
        TakeServer(t);
      }
      if readsClient && t.clientReadable {
        ok := TakeClient(t);
        return;
      }
      ok := true;
    }

    method After(t: Turn) returns (ok: bool)
      modifies this, parser
      ensures match Exchange(old(View()), t)
              case None => !ok
              case Some(w) => ok && View() == w
    {
      var writesClient := toClient != [];
      var writesServer := toServer != [] && !writeClosed;
      ok := DoReads(t);
      if !ok {
        return;
      }
      if writesServer && t.serverWritable {
        GiveServer(t);
      }
      if writesClient && t.clientWritable {
        GiveClient(t);
      }
    }

    /** `None` is a raised error; `Some(done)` says whether the loop returned. */
    method Pump(turns: seq<Turn>) returns (r: Option<bool>)
      modifies this, parser
      ensures match Run(old(View()), turns)
              case Raised => r == None
              case Running(w) => r == Some(false) && View() == w
              case Returned(w) => r == Some(true) && View() == w
    {
      ghost var answer := Run(View(), turns);
      var i := 0;
      while !(outputEof && toClient == [])
        invariant 0 <= i <= |turns|
        invariant answer == Run(View(), turns[i..])
        decreases |turns| - i
      {
        if i == |turns| {
          return Some(false);
        }
        assert turns[i..][0] == turns[i] && turns[i..][1..] == turns[i + 1..];
        var ok := Before(turns[i]);
        if !ok {
          return None;
        }
        ok := After(turns[i]);
        if !ok {
          return None;
        }
        i := i + 1;
      }
      if !(marked && released) {
        return None;
      }
      return Some(true);
    }
  }
}
