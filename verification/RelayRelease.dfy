/**
 The barrier opens only for the release, and the relay never stalls
 (scripts/e2e/continuous_git_proxy.py:122-181).
 */
module RelayRelease {
  import opened Bytes
  import opened PrefixProperties
  import opened Relay
  import opened RelayProperties

  // ----- what opens the barrier -----

  /** The world before turn `k`, if the loop gets there. */
  function Before(w: World, turns: seq<Turn>, k: nat): Option<World>
    requires k <= |turns|
    decreases k
  {
    if k == 0 then Some(w)
    else if Finished(w) then None
    else match Iterate(w, turns[0])
      case None => None
      case Some(next) => Before(next, turns[1..], k - 1)
  }

  /** Turn `k` finds the release, in an iteration that has marked the barrier. */
  ghost predicate IsOpenedAt(w: World, turns: seq<Turn>, k: nat)
    requires k < |turns|
  {
    var v := Before(w, turns, k);
    turns[k].releaseSeen && v.Some? && Mark(v.value).Some? && Mark(v.value).value.marked
  }

  ghost predicate IsOpened(w: World, turns: seq<Turn>) {
    exists k :: 0 <= k < |turns| && IsOpenedAt(w, turns, k)
  }

  function After(w: World, turns: seq<Turn>): Option<World> {
    match Run(w, turns)
    case Raised => None
    case Running(v) => Some(v)
    case Returned(v) => Some(v)
  }

  lemma ReadsKeepFlags(w: World, t: Turn)
    ensures Reads(w, t).Some? ==> Reads(w, t).value.released == w.released && Reads(w, t).value.writeClosed == w.writeClosed
  {
  }

  /** Reading and writing neither release nor close. */
  lemma ExchangeKeepsFlags(w: World, t: Turn)
    ensures Exchange(w, t).Some? ==>
      Exchange(w, t).value.released == w.released && Exchange(w, t).value.writeClosed == w.writeClosed
  {
    ReadsKeepFlags(w, t);
  }

  lemma IterateReleases(w: World, t: Turn)
    requires Iterate(w, t).Some? && Iterate(w, t).value.released && !w.released
    ensures t.releaseSeen && Mark(w).Some? && Mark(w).value.marked
  {
    ExchangeKeepsFlags(Prepare(w, t).value, t);
  }

  lemma OpenedLater(w: World, turns: seq<Turn>)
    requires turns != [] && !Finished(w) && Iterate(w, turns[0]).Some?
    requires IsOpened(Iterate(w, turns[0]).value, turns[1..])
    ensures IsOpened(w, turns)
  {
    var next, rest := Iterate(w, turns[0]).value, turns[1..];
    var k :| 0 <= k < |rest| && IsOpenedAt(next, rest, k);
    assert rest[k] == turns[k + 1];
    assert Before(w, turns, k + 1) == Before(next, rest, k);
    assert IsOpenedAt(w, turns, k + 1);
  }

  lemma {:induction false} ReleasedWasOpened(w: World, turns: seq<Turn>)
    requires !w.released && After(w, turns).Some? && After(w, turns).value.released
    ensures IsOpened(w, turns)
    decreases |turns|
  {
    var next, rest := Iterate(w, turns[0]).value, turns[1..];
    if next.released {
      IterateReleases(w, turns[0]);
      assert IsOpenedAt(w, turns, 0);
    } else {
      ReleasedWasOpened(next, rest);
      OpenedLater(w, turns);
    }
  }

  /** In every state any schedule reaches: released only if some turn saw the release once the barrier was marked. */
  lemma OnlyTheReleaseOpens(raw: bool, turns: seq<Turn>)
    ensures Reached(raw, turns).Some? && Reached(raw, turns).value.released ==> IsOpened(Initial(raw), turns)
  {
    if Reached(raw, turns).Some? && Reached(raw, turns).value.released {
      ReleasedWasOpened(Initial(raw), turns);
    }
  }

  /**
   The barrier holds by itself: on any schedule in which the release is never
   seen, the server has received only a part of the prefix, however it goes.
   */
  lemma NothingWithoutRelease(raw: bool, client: bytes, server: bytes, turns: seq<Turn>) returns (r: Released)
    requires IsSchedule(client, server, Initial(raw), turns)
    requires forall k :: 0 <= k < |turns| ==> !turns[k].releaseSeen
    ensures match Reached(raw, turns)
            case None => true
            case Some(w) => && !w.released && Sections(raw, w.parser, r) && w.serverGot <= Wire(r)
                            && Wire(r) + w.parser.pending == w.clientSent
  {
    OnlyTheReleaseOpens(raw, turns);
    r := NothingPastTheHeader(raw, client, server, turns);
  }

  // ----- no stalling -----

  /** Everything is ready, the release is there, and the peers take what they are offered. */
  predicate IsEager(t: Turn) {
    && t.releaseSeen && t.serverReadable && t.clientReadable && t.serverWritable && t.clientWritable
    && t.serverTook > 0 && t.clientTook > 0
  }

  function Bit(b: bool): nat {
    if b then 1 else 0
  }

  /** How far the client's stream has come. */
  function Upstream(w: World): nat {
    |w.clientSent| + |w.serverGot| + Bit(w.marked) + Bit(w.released) + Bit(w.inputEof) + Bit(w.writeClosed)
  }

  /** How far the server's stream has come. */
  function Downstream(w: World): nat {
    |w.serverSent| + |w.clientGot| + Bit(w.outputEof)
  }

  lemma PrepareProgress(w: World, t: Turn)
    requires IsEager(t) && Flags(w) && Prepare(w, t).Some?
    ensures var p := Prepare(w, t).value;
      && Upstream(p) >= Upstream(w) && Downstream(p) == Downstream(w)
      && p.outputEof == w.outputEof && p.toClient == w.toClient
      && (Upstream(p) == Upstream(w) ==> p == w)
      && (p.toServer == [] && !p.writeClosed && Upstream(p) == Upstream(w) ==> WantsClient(p))
  {
  }

  lemma ReadClientProgress(w: World, t: Turn)
    requires WantsClient(w) && ReadClient(w, t).Some?
    ensures var r := ReadClient(w, t).value;
      Upstream(r) > Upstream(w) && Downstream(r) == Downstream(w) && w.toServer <= r.toServer && r.toClient == w.toClient
  {
  }

  lemma ReadServerProgress(w: World, t: Turn)
    requires WantsServer(w)
    ensures var r := ReadServer(w, t);
      && Downstream(r) > Downstream(w) && Upstream(r) == Upstream(w) && w.toClient <= r.toClient
      && r.toServer == w.toServer && WantsClient(r) == WantsClient(w)
  {
  }

  lemma ReadsProgress(w: World, t: Turn)
    requires IsEager(t) && Reads(w, t).Some?
    ensures var r := Reads(w, t).value;
      && Upstream(r) >= Upstream(w) + Bit(WantsClient(w))
      && Downstream(r) >= Downstream(w) + Bit(WantsServer(w))
      && w.toServer <= r.toServer && w.toClient <= r.toClient
  {
    var a := w;
    if WantsServer(w) {
      ReadServerProgress(w, t);
      a := ReadServer(w, t);
    }
    if WantsClient(w) { ReadClientProgress(a, t); }
  }

  lemma WritesProgress(w: World, t: Turn, s: bool, c: bool)
    requires IsEager(t) && (s ==> w.toServer != []) && (c ==> w.toClient != [])
    ensures var r := Writes(w, t, s, c);
      Upstream(r) >= Upstream(w) + Bit(s) && Downstream(r) >= Downstream(w) + Bit(c)
  {
  }

  /**
   No stalling: in any state the relay can be in, an eager turn moves the
   server's stream on, and the client's too until its write half is closed.
   */
  lemma EagerProgress(w: World, t: Turn)
    requires IsEager(t) && Flags(w) && !Finished(w) && Iterate(w, t).Some?
    ensures Downstream(Iterate(w, t).value) > Downstream(w)
    ensures Upstream(Iterate(w, t).value) > Upstream(w) || (w.writeClosed && Upstream(Iterate(w, t).value) == Upstream(w))
  {
    PrepareProgress(w, t);
    var p := Prepare(w, t).value;
    ReadsProgress(p, t);
    WritesProgress(Reads(p, t).value, t, p.toServer != [] && !p.writeClosed, p.toClient != []);
  }

  lemma IterateKeepsClosed(w: World, t: Turn)
    requires w.writeClosed && Iterate(w, t).Some?
    ensures Iterate(w, t).value.writeClosed
  {
    ExchangeKeepsFlags(Prepare(w, t).value, t);
  }

  /** `v` is at least `n` steps ahead of `w` on both streams, or has closed the client's. */
  predicate IsAhead(w: World, v: World, n: nat) {
    && Downstream(v) >= Downstream(w) + n
    && (v.writeClosed || (!w.writeClosed && Upstream(v) >= Upstream(w) + n))
    && (w.writeClosed ==> v.writeClosed)
  }

  lemma EagerStep(w: World, t: Turn)
    requires IsEager(t) && Flags(w) && !Finished(w) && Iterate(w, t).Some?
    ensures IsAhead(w, Iterate(w, t).value, 1)
  {
    EagerProgress(w, t);
    if w.writeClosed { IterateKeepsClosed(w, t); }
  }

  lemma AheadAdds(a: World, b: World, c: World, m: nat, n: nat)
    requires IsAhead(a, b, m) && IsAhead(b, c, n)
    ensures IsAhead(a, c, m + n)
  {
  }

  lemma {:induction false} EagerRun(answer: Answer, client: bytes, server: bytes, w: World, turns: seq<Turn>)
    requires Inv(answer, client, server, w) && Incremental(answer) && IsSchedule(client, server, w, turns)
    requires forall k :: 0 <= k < |turns| ==> IsEager(turns[k])
    requires Run(w, turns).Running?
    ensures IsAhead(w, Run(w, turns).world, |turns|)
    decreases |turns|
  {
    if turns != [] {
      var t, rest := turns[0], turns[1..];
      IterateInv(answer, client, server, w, t);
      EagerStep(w, t);
      EagerRun(answer, client, server, Iterate(w, t).value, rest);
      AheadAdds(w, Iterate(w, t).value, Run(w, turns).world, 1, |rest|);
    }
  }

  lemma StreamsAreBounded(answer: Answer, client: bytes, server: bytes, w: World)
    requires Inv(answer, client, server, w)
    ensures Downstream(w) <= 2 * |server| + 1 && Upstream(w) <= 2 * |client| + 4
  {
    assert |w.clientGot| + |w.toClient| == |w.clientGot + w.toClient| <= |server|;
    assert |w.serverGot| + |w.toServer + w.parser.pending| == |w.serverGot + (w.toServer + w.parser.pending)|;
    assert w.serverGot + (w.toServer + w.parser.pending) == w.clientSent;
  }

  /**
   Everything arrives: eager turns end the loop within two per server byte and
   one more; and a loop that eager turns keep running longer than two per client
   byte and four more has delivered the client's whole stream and closed it.
   */
  lemma EagerDelivers(raw: bool, client: bytes, server: bytes, turns: seq<Turn>)
    requires IsSchedule(client, server, Initial(raw), turns)
    requires forall k :: 0 <= k < |turns| ==> IsEager(turns[k])
    ensures match Run(Initial(raw), turns)
            case Running(w) => && |turns| <= 2 * |server| + 1
                               && (|turns| > 2 * |client| + 4 ==> w.writeClosed && w.serverGot == client)
            case _ => true
  {
    if Run(Initial(raw), turns).Running? {
      InitialInv(raw, client, server);
      WholeIsIncremental(raw);
      EagerRun(Whole(raw), client, server, Initial(raw), turns);
      ReachedInv(raw, client, server, turns);
      StreamsAreBounded(Whole(raw), client, server, Run(Initial(raw), turns).world);
      CloseIsComplete(raw, client, server, turns);
    }
  }
}
