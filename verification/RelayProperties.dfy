/**
 Safety of the barrier relay over every schedule: every combination of short
 reads, short writes, readiness and release time.
 */
module RelayProperties {
  import opened Bytes
  import opened Prefix
  import opened PrefixProperties
  import opened Relay

  const PENDING_MAX: nat := 81903
  const TO_SERVER_MAX: nat := 147438
  const TO_CLIENT_MAX: nat := 81919

  /** Bytes from the client: delivered, then buffered, then withheld, in order. */
  predicate ClientOrder(w: World) {
    w.serverGot + w.toServer + w.parser.pending == w.clientSent
  }

  /** What the parser answers to the whole input so far; kept abstract where only its shape matters. */
  type Answer = bytes -> Outcome

  function Then(o: Outcome, block: bytes): Outcome {
    match o
    case Failed => Failed
    case Fed(p, out) => Prepend(out, Feed(p, block))
  }

  ghost predicate Incremental(answer: Answer) {
    forall a: bytes, b: bytes :: answer(a + b) == Then(answer(a), b)
  }

  function Whole(raw: bool): Answer {
    data => Feed(Start(raw), data)
  }

  lemma WholeIsIncremental(raw: bool)
    ensures Incremental(Whole(raw))
  {
    forall a: bytes, b: bytes
      ensures Whole(raw)(a + b) == Then(Whole(raw)(a), b)
    {
      FeedSplit(Start(raw), a, b);
    }
  }

  /** Until the release, what left the parser is exactly the parser's output. */
  predicate BarrierHolds(answer: Answer, w: World) {
    !w.released ==> answer(w.clientSent) == Fed(w.parser, w.serverGot + w.toServer)
  }

  predicate Flags(w: World) {
    && (w.marked ==> w.parser.phase == Held && w.serverBytes > 0)
    && (w.released ==> w.marked && w.parser.pending == [])
    && (w.marked && !w.released ==> w.toServer == [])
    && (w.inputEof ==> w.released)
    && (w.writeClosed ==> w.inputEof && w.toServer == [])
  }

  predicate ServerOrder(w: World) {
    && w.serverSent == w.clientGot + w.toClient
    && w.serverBytes == |w.serverSent|
  }

  predicate Ends(client: bytes, server: bytes, w: World) {
    && w.clientSent <= client && w.serverSent <= server
    && (w.inputEof ==> w.clientSent == client)
    && (w.outputEof ==> w.serverSent == server)
  }

  predicate Bounds(w: World) {
    && |w.toClient| <= TO_CLIENT_MAX
    && |w.toServer| <= TO_SERVER_MAX
    && |w.parser.pending| <= PENDING_MAX
    && (w.parser.phase != Held ==> |w.parser.pending| < MAX_PACKET)
  }

  predicate Inv(answer: Answer, client: bytes, server: bytes, w: World) {
    && ClientOrder(w) && BarrierHolds(answer, w) && Flags(w) && ServerOrder(w)
    && Ends(client, server, w) && Bounds(w)
  }

  lemma InitialInv(raw: bool, client: bytes, server: bytes)
    ensures Inv(Whole(raw), client, server, Initial(raw))
  {
    assert WithMore(Start(raw), []) == Start(raw);
  }

  /** A parser with nothing left to do holds less than one packet. */
  lemma QuiescentPending(p: Parser)
    requires Quiescent(p) && p.phase != Held
    ensures |p.pending| < MAX_PACKET
  {
  }

  lemma PrepareInv(answer: Answer, client: bytes, server: bytes, w: World, t: Turn)
    requires Inv(answer, client, server, w)
    ensures Prepare(w, t).Some? ==> Inv(answer, client, server, Prepare(w, t).value)
  {
    if Mark(w).Some? {
      var m := Mark(w).value;
      assert Inv(answer, client, server, m);
      var r := Release(m, t);
      if r != m {
        assert r.serverGot + r.toServer + r.parser.pending == m.serverGot + m.toServer + m.parser.pending;
      }
      assert Inv(answer, client, server, r);
    }
  }

  lemma ReadServerInv(answer: Answer, client: bytes, server: bytes, w: World, t: Turn)
    requires Inv(answer, client, server, w) && WantsServer(w)
    requires IsNextBlock(server, w.serverSent, t.serverBlock)
    ensures Inv(answer, client, server, ReadServer(w, t))
  {
    assert (w.clientGot + w.toClient) + t.serverBlock == w.clientGot + (w.toClient + t.serverBlock);
  }

  /** One answered block, in terms of the parser it left and the bytes it released. */
  lemma AnsweredInv(answer: Answer, client: bytes, server: bytes, w: World,
                    block: bytes, p: Parser, out: bytes)
    requires Inv(answer, client, server, w) && WantsClient(w) && !w.released
    requires IsNextBlock(client, w.clientSent, block)
    requires answer(w.clientSent + block) == Fed(p, (w.serverGot + w.toServer) + out)
    requires out + p.pending == w.parser.pending + block
    requires p.phase != Held ==> |p.pending| < MAX_PACKET
    ensures Inv(answer, client, server,
                w.(parser := p, toServer := w.toServer + out, clientSent := w.clientSent + block))
  {
    assert |out| + |p.pending| == |out + p.pending| == |w.parser.pending| + |block|;
    assert (w.serverGot + w.toServer) + out == w.serverGot + (w.toServer + out);
    assert w.serverGot + (w.toServer + out) + p.pending
        == (w.serverGot + w.toServer) + (out + p.pending);
    assert (w.serverGot + w.toServer) + (w.parser.pending + block) == w.clientSent + block;
  }

  lemma AnswerStep(answer: Answer, w: World, block: bytes, p: Parser, out: bytes)
    requires Incremental(answer) && BarrierHolds(answer, w) && !w.released
    requires Feed(w.parser, block) == Fed(p, out)
    ensures answer(w.clientSent + block) == Fed(p, (w.serverGot + w.toServer) + out)
    ensures out + p.pending == w.parser.pending + block
    ensures p.phase != Held ==> |p.pending| < MAX_PACKET
  {
    assert answer(w.clientSent + block) == Then(answer(w.clientSent), block);
    DrainQuiesces(WithMore(w.parser, block));
    if p.phase != Held {
      QuiescentPending(p);
    }
  }

  lemma PassedInv(answer: Answer, client: bytes, server: bytes, w: World, block: bytes)
    requires Inv(answer, client, server, w) && WantsClient(w) && w.released
    requires IsNextBlock(client, w.clientSent, block)
    ensures Inv(answer, client, server,
                w.(toServer := w.toServer + block, clientSent := w.clientSent + block))
  {
    assert (w.serverGot + w.toServer) + block == w.serverGot + (w.toServer + block);
    assert w.serverGot + w.toServer + w.parser.pending == w.serverGot + w.toServer;
    var sent := w.serverGot + (w.toServer + block);
    assert sent + w.parser.pending == sent;
  }

  lemma ReadClientInv(answer: Answer, client: bytes, server: bytes, w: World, t: Turn)
    requires Inv(answer, client, server, w) && WantsClient(w)
    requires IsNextBlock(client, w.clientSent, t.clientBlock)
    requires Incremental(answer)
    ensures ReadClient(w, t).Some? ==> Inv(answer, client, server, ReadClient(w, t).value)
  {
    var block := t.clientBlock;
    if block == [] {
    } else if w.released {
      PassedInv(answer, client, server, w, block);
    } else {
      var o := Feed(w.parser, block);
      if o.Fed? {
        AnswerStep(answer, w, block, o.parser, o.out);
        AnsweredInv(answer, client, server, w, block, o.parser, o.out);
      }
    }
  }

  lemma WriteServerInv(answer: Answer, client: bytes, server: bytes, w: World, t: Turn)
    requires Inv(answer, client, server, w)
    ensures Inv(answer, client, server, WriteServer(w, t))
  {
    var n := Taken(w.toServer, t.serverTook);
    assert (w.serverGot + w.toServer[..n]) + w.toServer[n..] == w.serverGot + w.toServer;
  }

  lemma WriteClientInv(answer: Answer, client: bytes, server: bytes, w: World, t: Turn)
    requires Inv(answer, client, server, w)
    ensures Inv(answer, client, server, WriteClient(w, t))
  {
    var n := Taken(w.toClient, t.clientTook);
    assert (w.clientGot + w.toClient[..n]) + w.toClient[n..] == w.clientGot + w.toClient;
  }

  /** Every iteration of the loop keeps the invariant, whatever the turn. */
  lemma IterateInv(answer: Answer, client: bytes, server: bytes, w: World, t: Turn)
    requires Inv(answer, client, server, w) && Incremental(answer)
    requires IsLegal(client, server, w, t)
    ensures Iterate(w, t).Some? ==> Inv(answer, client, server, Iterate(w, t).value)
  {
    PrepareInv(answer, client, server, w, t);
    if Prepare(w, t).Some? {
      ExchangeInv(answer, client, server, Prepare(w, t).value, t);
    }
  }

  lemma ReadsInv(answer: Answer, client: bytes, server: bytes, w: World, t: Turn)
    requires Inv(answer, client, server, w) && Incremental(answer)
    requires WantsServer(w) && t.serverReadable ==> IsNextBlock(server, w.serverSent, t.serverBlock)
    requires WantsClient(w) && t.clientReadable ==> IsNextBlock(client, w.clientSent, t.clientBlock)
    ensures Reads(w, t).Some? ==> Inv(answer, client, server, Reads(w, t).value)
  {
    var a := w;
    if WantsServer(w) && t.serverReadable {
      ReadServerInv(answer, client, server, w, t);
      a := ReadServer(w, t);
    }
    if WantsClient(w) && t.clientReadable {
      ReadClientInv(answer, client, server, a, t);
    }
  }

  lemma WritesInv(answer: Answer, client: bytes, server: bytes, w: World, t: Turn, s: bool, c: bool)
    requires Inv(answer, client, server, w)
    ensures Inv(answer, client, server, Writes(w, t, s, c))
  {
    WriteServerInv(answer, client, server, w, t);
    WriteClientInv(answer, client, server, w, t);
    WriteClientInv(answer, client, server, WriteServer(w, t), t);
  }

  lemma ExchangeInv(answer: Answer, client: bytes, server: bytes, w: World, t: Turn)
    requires Inv(answer, client, server, w) && Incremental(answer)
    requires WantsServer(w) && t.serverReadable ==> IsNextBlock(server, w.serverSent, t.serverBlock)
    requires WantsClient(w) && t.clientReadable ==> IsNextBlock(client, w.clientSent, t.clientBlock)
    ensures Exchange(w, t).Some? ==> Inv(answer, client, server, Exchange(w, t).value)
  {
    ReadsInv(answer, client, server, w, t);
    if Reads(w, t).Some? {
      WritesInv(answer, client, server, Reads(w, t).value, t,
                w.toServer != [] && !w.writeClosed, w.toClient != []);
    }
  }

  lemma {:induction false} RunInv(answer: Answer, client: bytes, server: bytes, w: World, turns: seq<Turn>)
    requires Inv(answer, client, server, w) && Incremental(answer)
    requires IsSchedule(client, server, w, turns)
    ensures match Run(w, turns)
            case Raised => true
            case Running(v) => Inv(answer, client, server, v)
            case Returned(v) => Inv(answer, client, server, v) && Finished(v) && v.marked && v.released
    decreases |turns|
  {
    if !Finished(w) && turns != [] {
      IterateInv(answer, client, server, w, turns[0]);
      if Iterate(w, turns[0]).Some? {
        RunInv(answer, client, server, Iterate(w, turns[0]).value, turns[1..]);
      }
    }
  }

  /** Where the world stands after a schedule, unless the relay raised. */
  function Reached(raw: bool, turns: seq<Turn>): Option<World> {
    match Run(Initial(raw), turns)
    case Raised => None
    case Running(w) => Some(w)
    case Returned(w) => Some(w)
  }

  lemma ReachedInv(raw: bool, client: bytes, server: bytes, turns: seq<Turn>)
    requires IsSchedule(client, server, Initial(raw), turns)
    ensures Reached(raw, turns).Some? ==> Inv(Whole(raw), client, server, Reached(raw, turns).value)
  {
    InitialInv(raw, client, server);
    WholeIsIncremental(raw);
    RunInv(Whole(raw), client, server, Initial(raw), turns);
  }

  /**
   The barrier. Before the release the server has received a prefix of the
   released sections, and a relay that has marked has delivered exactly one
   complete prefix, ending with the 12-byte PACK header.
   */
  lemma NothingPastTheHeader(raw: bool, client: bytes, server: bytes, turns: seq<Turn>)
    returns (r: Released)
    requires IsSchedule(client, server, Initial(raw), turns)
    ensures match Reached(raw, turns)
            case None => true
            case Some(w) => !w.released ==>
              && Sections(raw, w.parser, r)
              && w.serverGot <= Wire(r)
              && Wire(r) + w.parser.pending == w.clientSent
              && (w.marked ==> IsCompletePrefix(raw, r) && w.serverGot == Wire(r) && w.serverSent != [])
  {
    r := NOTHING;
    ReachedInv(raw, client, server, turns);
    if Reached(raw, turns).Some? && !Reached(raw, turns).value.released {
      var w := Reached(raw, turns).value;
      r := ReleasedSections(raw, w.clientSent);
      assert Feed(Start(raw), w.clientSent) == Whole(raw)(w.clientSent);
      HeldIsComplete(raw, w.parser, r);
      assert w.serverGot <= w.serverGot + w.toServer;
    }
  }

  /** The write half closes only after the client's whole stream was delivered. */
  lemma CloseIsComplete(raw: bool, client: bytes, server: bytes, turns: seq<Turn>)
    requires IsSchedule(client, server, Initial(raw), turns)
    ensures match Reached(raw, turns)
            case None => true
            case Some(w) => && w.serverGot + w.toServer + w.parser.pending <= client
                            && (w.writeClosed ==> w.serverGot == client)
  {
    ReachedInv(raw, client, server, turns);
  }

  /** A normal return has delivered the server's whole stream, after mark and release. */
  lemma ReturnIsComplete(raw: bool, client: bytes, server: bytes, turns: seq<Turn>)
    requires IsSchedule(client, server, Initial(raw), turns)
    requires Run(Initial(raw), turns).Returned?
    ensures var w := Run(Initial(raw), turns).world;
            w.clientGot == server && w.marked && w.released && w.serverBytes == |server|
  {
    InitialInv(raw, client, server);
    WholeIsIncremental(raw);
    RunInv(Whole(raw), client, server, Initial(raw), turns);
    var w := Run(Initial(raw), turns).world;
    assert w.clientGot + w.toClient == w.clientGot;
  }

  /** In every reachable state the three buffers stay within their bounds. */
  lemma BuffersAreBounded(raw: bool, client: bytes, server: bytes, turns: seq<Turn>)
    requires IsSchedule(client, server, Initial(raw), turns)
    ensures match Reached(raw, turns)
            case None => true
            case Some(w) => && |w.toClient| <= 81919
                            && |w.toServer| <= 147438
                            && |w.parser.pending| <= 81903
  {
    ReachedInv(raw, client, server, turns);
  }
}
