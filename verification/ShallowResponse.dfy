/**
 Framing of a shallow update for the client. The framing re-checks the update
 it is handed; every update the history computation produces passes, and the
 client reads back exactly that update.
 */
module ShallowResponse {
  import opened Bytes
  import opened ShallowGraph
  import opened ShallowDepth
  import opened ShallowBall
  import opened ShallowRelative
  import opened ShallowHistory
  import opened ShallowSelect

  datatype Packet =
    | ShallowInfo
    | ShallowLine(id: Oid)
    | UnshallowLine(id: Oid)
    | Flush
    | Delimiter

  datatype Limits = Limits(maxShallows: nat, maxPacketBytes: nat, maxOutboundBytes: nat)

  datatype Response =
    | Framed(packets: seq<Packet>)
    | TooMany
    | SourceRefused
    | TooLarge

  predicate ChangesBoundary(req: Request) {
    req.deepen.Some? || req.since.Some? || req.exclude != []
  }

  /** Ascending, visible, and for a removal also supplied by the client and not just announced. */
  predicate IsSound(visible: set<Oid>, req: Request, u: Update) {
    && IsAscending(u.shallow) && IsAscending(u.unshallow)
    && (forall x :: x in u.shallow ==> x in visible)
    && (forall x :: x in u.unshallow ==> x in visible && x in req.shallows && x !in u.shallow)
    && (!ChangesBoundary(req) ==> u == Update([], []))
  }

  function ShallowLines(ids: seq<Oid>): seq<Packet> {
    seq(|ids|, i requires 0 <= i < |ids| => ShallowLine(ids[i]))
  }

  function UnshallowLines(ids: seq<Oid>): seq<Packet> {
    seq(|ids|, i requires 0 <= i < |ids| => UnshallowLine(ids[i]))
  }

  /** The frame of an accepted update, for protocol v2 or for the older ones. */
  function Frame(v2: bool, req: Request, u: Update): seq<Packet> {
    if !v2 && !ChangesBoundary(req) then []
    else (if v2 then [ShallowInfo] else []) + ShallowLines(u.shallow) + UnshallowLines(u.unshallow)
         + [if v2 then Delimiter else Flush]
  }

  method CheckList(visible: set<Oid>, req: Request, ids: seq<Oid>, removing: bool, announced: set<Oid>)
    returns (ok: bool)
    ensures ok <==> IsAscending(ids)
                    && forall x :: x in ids ==> x in visible && (removing ==> x in req.shallows && x !in announced)
  {
    for k := 0 to |ids|
      invariant IsAscending(ids[..k])
      invariant forall j :: 0 <= j < k ==> ids[j] in visible && (removing ==> ids[j] in req.shallows && ids[j] !in announced)
    {
      if k > 0 && ids[k - 1] >= ids[k] {
        return false;
      }
      var id := ids[k];
      assert id in ids;
      if id !in visible {
        return false;
      }
      if removing && (id !in req.shallows || id in announced) {
        return false;
      }
      assert k > 0 ==> forall i :: 0 <= i < k ==> ids[..k][i] <= ids[..k][k - 1];
    }
    assert ids[..|ids|] == ids;
    return true;
  }

  /** Bytes of one line: keyword, space, hex digits, newline, and the length prefix. */
  function LineBytes(keyword: nat, width: nat): nat {
    keyword + 1 + width + 1 + 4
  }

  predicate AreTooMany(req: Request, u: Update, limits: Limits) {
    |req.shallows| > limits.maxShallows || |u.shallow| > limits.maxShallows || |u.unshallow| > limits.maxShallows
  }

  /** The bytes of the lines that announce `n` boundaries and remove `m`. */
  function LinesBytes(n: nat, m: nat, width: nat): nat {
    n * LineBytes(7, width) + m * LineBytes(9, width)
  }

  /** Each line fits a packet, and all of them with the opening and the end fit the response. */
  predicate Fits(v2: bool, u: Update, width: nat, limits: Limits) {
    && (u.shallow != [] ==> LineBytes(7, width) <= limits.maxPacketBytes)
    && (u.unshallow != [] ==> LineBytes(9, width) <= limits.maxPacketBytes)
    && (if v2 then 17 else 0) + LinesBytes(|u.shallow|, |u.unshallow|, width) + 4 <= limits.maxOutboundBytes
  }

  /** The lines of one keyword, each taken while it fits its packet and the rest of the response. */
  method AddLines(lines: seq<Packet>, size: nat, used: nat, limits: Limits)
    returns (r: Option<seq<Packet>>)
    requires used <= limits.maxOutboundBytes
    ensures r.Some? ==> r.value == lines && (lines != [] ==> size <= limits.maxPacketBytes)
    ensures r.Some? <==> (lines != [] ==> size <= limits.maxPacketBytes) && used + |lines| * size <= limits.maxOutboundBytes
  {
    var output: seq<Packet> := [];
    var total := used;
    for k := 0 to |lines|
      invariant output == lines[..k] && total == used + k * size <= limits.maxOutboundBytes
      invariant k > 0 ==> size <= limits.maxPacketBytes
    {
      Product(k, size, |lines|);
      if size > limits.maxPacketBytes || size > limits.maxOutboundBytes - total {
        return None;
      }
      total := total + size;
      output := output + [lines[k]];
    }
    assert lines[..|lines|] == lines;
    return Some(output);
  }

  lemma Product(k: nat, size: nat, n: nat)
    requires k < n
    ensures (k + 1) * size == k * size + size <= n * size
  {
    assert n * size == (k + 1) * size + (n - k - 1) * size;
  }

  /** Opening, lines and end, within the packet and byte budgets. */
  method Emit(v2: bool, u: Update, width: nat, limits: Limits) returns (r: Option<seq<Packet>>)
    ensures r == if Fits(v2, u, width, limits)
                 then Some((if v2 then [ShallowInfo] else []) + ShallowLines(u.shallow) + UnshallowLines(u.unshallow)
                           + [if v2 then Delimiter else Flush])
                 else None
  {
    var opening: seq<Packet> := if v2 then [ShallowInfo] else [];
    var used := if v2 then 17 else 0;
    if used > limits.maxOutboundBytes { return None; }
    var announced := AddLines(ShallowLines(u.shallow), LineBytes(7, width), used, limits);
    if announced == None { return None; }
    used := used + |u.shallow| * LineBytes(7, width);
    var removed := AddLines(UnshallowLines(u.unshallow), LineBytes(9, width), used, limits);
    if removed == None { return None; }
    used := used + |u.unshallow| * LineBytes(9, width);
    if 4 > limits.maxOutboundBytes - used { return None; }
    r := Some(opening + announced.value + removed.value + [if v2 then Delimiter else Flush]);
  }

  /** Exactly which responses a request and an update get. */
  method Respond(supported: bool, visible: set<Oid>, v2: bool, req: Request, u: Update, width: nat, limits: Limits)
    returns (r: Response)
    ensures r == if !supported then SourceRefused
                 else if AreTooMany(req, u, limits) then TooMany
                 else if !IsSound(visible, req, u) then SourceRefused
                 else if (v2 || ChangesBoundary(req)) && !Fits(v2, u, width, limits) then TooLarge
                 else Framed(Frame(v2, req, u))
  {
    if !supported { return SourceRefused; }
    if |req.shallows| > limits.maxShallows { return TooMany; }
    if |u.shallow| > limits.maxShallows || |u.unshallow| > limits.maxShallows { return TooMany; }
    var announced := CheckList(visible, req, u.shallow, false, {});
    if !announced { return SourceRefused; }
    var removed := CheckList(visible, req, u.unshallow, true, set x | x in u.shallow);
    if !removed { return SourceRefused; }
    if !ChangesBoundary(req) && (u.shallow != [] || u.unshallow != []) { return SourceRefused; }
    if !v2 && !ChangesBoundary(req) { return Framed([]); }
    var output := Emit(v2, u, width, limits);
    r := if output == None then TooLarge else Framed(output.value);
  }

  /** Every computed update passes the framing's own checks. */
  lemma HistoryIsAccepted(g: Graph, req: Request, h: History, visible: set<Oid>)
    requires IsHistory(g, req, h) && g.Keys <= visible
    ensures IsSound(visible, req, h.update)
  {
    HistoryIsCoherent(g, req, h);
    BoundariesAreVisible(g, req, h);
    forall x | x in h.update.unshallow ensures x in visible && x in req.shallows && x !in h.update.shallow {
      assert x in Elements(h.update.unshallow) && x in h.known;
      assert x in h.update.shallow ==> x in Elements(h.update.shallow);
    }
    forall x | x in h.update.shallow ensures x in visible {
      assert x in Elements(h.update.shallow);
    }
    UpdateIsAscending(g, req, h);
  }

  lemma BoundariesAreVisible(g: Graph, req: Request, h: History)
    requires IsHistory(g, req, h)
    ensures h.boundaries <= g.Keys
  {
    if WantsCutoffs(req) {
      var c :| IsCut(g, req, c) && IsCutHistory(g, c, h);
      forall x | x in h.boundaries ensures x in g {
        assert HasOutsideParent(g, c.included, x);
      }
    } else {
      var depth :| IsEffectiveDepth(g, req, h.known, depth) && IsDepthHistory(g, req, depth, h);
      forall x | x in h.boundaries ensures x in g {
        assert IsRim(g, req.wants, Rule(depth, h.known), x);
      }
    }
  }

  lemma UpdateIsAscending(g: Graph, req: Request, h: History)
    requires IsHistory(g, req, h)
    ensures IsAscending(h.update.shallow) && IsAscending(h.update.unshallow)
    ensures !ChangesBoundary(req) ==> h.update == Update([], [])
  {
    if WantsCutoffs(req) {
      var c :| IsCut(g, req, c) && IsCutHistory(g, c, h);
    }
  }

  // ----- the client's side -----

  function ReadShallow(packets: seq<Packet>): seq<Oid> {
    if packets == [] then []
    else (if packets[0].ShallowLine? then [packets[0].id] else []) + ReadShallow(packets[1..])
  }

  function ReadUnshallow(packets: seq<Packet>): seq<Oid> {
    if packets == [] then []
    else (if packets[0].UnshallowLine? then [packets[0].id] else []) + ReadUnshallow(packets[1..])
  }

  lemma {:induction false} ReadAppend(a: seq<Packet>, b: seq<Packet>)
    ensures ReadShallow(a + b) == ReadShallow(a) + ReadShallow(b)
    ensures ReadUnshallow(a + b) == ReadUnshallow(a) + ReadUnshallow(b)
  {
    if a == [] {
      assert a + b == b;
    } else {
      assert (a + b)[0] == a[0] && (a + b)[1..] == a[1..] + b;
      ReadAppend(a[1..], b);
      var s: seq<Oid> := if a[0].ShallowLine? then [a[0].id] else [];
      var n: seq<Oid> := if a[0].UnshallowLine? then [a[0].id] else [];
      assert s + (ReadShallow(a[1..]) + ReadShallow(b)) == (s + ReadShallow(a[1..])) + ReadShallow(b);
      assert n + (ReadUnshallow(a[1..]) + ReadUnshallow(b)) == (n + ReadUnshallow(a[1..])) + ReadUnshallow(b);
    }
  }

  lemma {:induction false} ReadLines(ids: seq<Oid>)
    ensures ReadShallow(ShallowLines(ids)) == ids && ReadUnshallow(ShallowLines(ids)) == []
    ensures ReadUnshallow(UnshallowLines(ids)) == ids && ReadShallow(UnshallowLines(ids)) == []
  {
    if ids != [] {
      ReadLines(ids[1..]);
      assert ShallowLines(ids)[1..] == ShallowLines(ids[1..]);
      assert UnshallowLines(ids)[1..] == UnshallowLines(ids[1..]);
    }
  }

  /** Reading a frame gives back the update, in every protocol. */
  lemma FrameRoundTrip(v2: bool, req: Request, u: Update)
    requires !ChangesBoundary(req) ==> u == Update([], [])
    ensures Update(ReadShallow(Frame(v2, req, u)), ReadUnshallow(Frame(v2, req, u))) == u
  {
    if v2 || ChangesBoundary(req) {
      var head: seq<Packet> := if v2 then [ShallowInfo] else [];
      var tail: seq<Packet> := [if v2 then Delimiter else Flush];
      var s, n := ShallowLines(u.shallow), UnshallowLines(u.unshallow);
      ReadAppend(head + s + n, tail);
      ReadAppend(head + s, n);
      ReadAppend(head, s);
      ReadLines(u.shallow);
      ReadLines(u.unshallow);
      assert ReadShallow(tail) == [] && ReadUnshallow(tail) == [];
      assert ReadShallow(head) == [] && ReadUnshallow(head) == [];
    }
  }
}
