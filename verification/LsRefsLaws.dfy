/** What a connection of several `ls-refs` commands promises. */
module LsRefsLaws {
  import opened Bytes
  import opened Order
  import opened LsRefs

  // ---- No command leaves anything behind ----

  /** Between commands the machine is as new, and within one only what that phase may hold is held. */
  ghost predicate IsTidy(m: Machine) {
    && (m.state == AwaitCommand ==> m == FRESH)
    && (m.state == AwaitCapabilities ==> m.prefixes == [] && m.options == PLAIN)
  }

  lemma PushIsTidy(s: Session, repo: Repository, m: Machine, p: Packet)
    requires IsTidy(m) && PushPacket(s, repo, m, p).Moved?
    ensures IsTidy(PushPacket(s, repo, m, p).next)
  {
  }

  /** A session: packets in order, each against the repository view of its moment. */
  datatype Event = Event(repo: Repository, packet: Packet)

  /** The machine and all output after a session; a refused packet changes nothing and outputs nothing. */
  datatype Trace = Trace(machine: Machine, outputs: seq<seq<Packet>>)

  function Run(s: Session, m: Machine, es: seq<Event>): Trace {
    if es == [] then Trace(m, [])
    else
      var before := Run(s, m, es[..|es| - 1]);
      var r := PushPacket(s, es[|es| - 1].repo, before.machine, es[|es| - 1].packet);
      if r.Refused? then Trace(before.machine, before.outputs + [[]])
      else Trace(r.next, before.outputs + [r.output])
  }

  lemma {:induction false} RunIsTidy(s: Session, es: seq<Event>)
    ensures IsTidy(Run(s, FRESH, es).machine)
  {
    if es != [] {
      var n := |es| - 1;
      RunIsTidy(s, es[..n]);
      var before := Run(s, FRESH, es[..n]).machine;
      if PushPacket(s, es[n].repo, before, es[n].packet).Moved? {
        PushIsTidy(s, es[n].repo, before, es[n].packet);
      }
    }
  }

  lemma {:induction false} RunJoins(s: Session, m: Machine, a: seq<Event>, b: seq<Event>)
    ensures Run(s, m, a + b) ==
            Trace(Run(s, Run(s, m, a).machine, b).machine,
                  Run(s, m, a).outputs + Run(s, Run(s, m, a).machine, b).outputs)
    decreases |b|
  {
    if b == [] {
      assert a + b == a;
      assert Run(s, m, a).outputs + [] == Run(s, m, a).outputs;
    } else {
      var n := |b| - 1;
      assert (a + b)[..|a + b| - 1] == a + b[..n];
      RunJoins(s, m, a, b[..n]);
    }
  }

  /**
   * History does not matter: after any packets that leave the machine at a
   * command boundary, everything that follows is exactly what a new machine
   * would do and output.
   */
  lemma HistoryIsForgotten(s: Session, past: seq<Event>, next: seq<Event>)
    requires Run(s, FRESH, past).machine.state == AwaitCommand
    ensures Run(s, FRESH, past + next) ==
            Trace(Run(s, FRESH, next).machine, Run(s, FRESH, past).outputs + Run(s, FRESH, next).outputs)
  {
    RunIsTidy(s, past);
    RunJoins(s, FRESH, past, next);
  }

  // ---- Each command gets the whole prefix budget ----

  function PrefixPacket(prefix: bytes): Packet {
    Data(Ascii("ref-prefix ") + prefix)
  }

  /** A prefix the request line grammar lets through. */
  ghost predicate IsPrefix(l: Limits, prefix: bytes) {
    prefix != [] && |prefix| <= l.refName && 10 !in prefix && 13 !in prefix && 0 !in prefix
  }

  lemma PrefixIsRead(prefix: bytes)
    requires 10 !in prefix && 13 !in prefix && 0 !in prefix && prefix != []
    ensures RequestLine(Ascii("ref-prefix ") + prefix) == Some(Ascii("ref-prefix ") + prefix)
    ensures Strip(Ascii("ref-prefix ") + prefix, Ascii("ref-prefix ")) == Some(prefix)
  {
    var head := Ascii("ref-prefix ");
    var line := head + prefix;
    assert line[|line| - 1] == prefix[|prefix| - 1] && prefix[|prefix| - 1] in prefix;
    assert forall b :: b in line ==> b in head || b in prefix;
    assert forall i :: 0 <= i < |head| ==> head[i] != 10 && head[i] != 13 && head[i] != 0;
    assert line[|head|..] == prefix;
  }

  lemma NotAnOption(prefix: bytes)
    ensures var line := Ascii("ref-prefix ") + prefix;
      line != Ascii("symrefs") && line != Ascii("peel") && line != Ascii("unborn")
  {
    var line := Ascii("ref-prefix ") + prefix;
    assert line[0] == 114;
    assert Ascii("symrefs")[0] == 115 && Ascii("peel")[0] == 112 && Ascii("unborn")[0] == 117;
  }

  /** One prefix is taken exactly while fewer than the limit were, repeats included. */
  lemma PrefixIsTakenIff(s: Session, repo: Repository, m: Machine, prefix: bytes)
    requires m.state == AwaitArguments && IsPrefix(s.limits, prefix)
    ensures var r := PushPacket(s, repo, m, PrefixPacket(prefix));
      if |m.prefixes| == s.limits.prefixes then r == Refused
      else r == Moved(m.(prefixes := m.prefixes + [prefix]), [])
  {
    PrefixIsRead(prefix);
    NotAnOption(prefix);
  }

  function PrefixEvents(repo: Repository, prefixes: seq<bytes>): seq<Event> {
    seq(|prefixes|, i requires 0 <= i < |prefixes| => Event(repo, PrefixPacket(prefixes[i])))
  }

  ghost predicate ArePrefixes(l: Limits, prefixes: seq<bytes>) {
    forall i :: 0 <= i < |prefixes| ==> IsPrefix(l, prefixes[i])
  }

  /** As many prefixes as the limit allows. */
  function Kept(limit: nat, prefixes: seq<bytes>): seq<bytes> {
    if |prefixes| <= limit then prefixes else prefixes[..limit]
  }

  lemma KeptSnoc(limit: nat, prefixes: seq<bytes>, prefix: bytes)
    ensures Kept(limit, prefixes + [prefix]) ==
            if |Kept(limit, prefixes)| == limit then Kept(limit, prefixes) else Kept(limit, prefixes) + [prefix]
  {
  }

  lemma RunSnoc(s: Session, m: Machine, es: seq<Event>, e: Event)
    ensures var before, r := Run(s, m, es).machine, PushPacket(s, e.repo, Run(s, m, es).machine, e.packet);
      Run(s, m, es + [e]).machine == if r.Refused? then before else r.next
  {
    assert (es + [e])[..|es|] == es;
  }

  lemma EventsSnoc(repo: Repository, prefixes: seq<bytes>, prefix: bytes)
    ensures PrefixEvents(repo, prefixes + [prefix]) == PrefixEvents(repo, prefixes) + [Event(repo, PrefixPacket(prefix))]
  {
  }

  /** From the start of any command's arguments, exactly the limit's number of prefixes is kept. */
  lemma {:induction false} WholeBudget(s: Session, repo: Repository, m: Machine, prefixes: seq<bytes>)
    requires m.state == AwaitArguments && m.prefixes == [] && ArePrefixes(s.limits, prefixes)
    ensures Run(s, m, PrefixEvents(repo, prefixes)).machine == m.(prefixes := Kept(s.limits.prefixes, prefixes))
  {
    if prefixes != [] {
      var n := |prefixes| - 1;
      var front, prefix := prefixes[..n], prefixes[n];
      assert prefixes == front + [prefix];
      WholeBudget(s, repo, m, front);
      PrefixIsTakenIff(s, repo, m.(prefixes := Kept(s.limits.prefixes, front)), prefix);
      KeptSnoc(s.limits.prefixes, front, prefix);
      EventsSnoc(repo, front, prefix);
      RunSnoc(s, m, PrefixEvents(repo, front), Event(repo, PrefixPacket(prefix)));
    }
  }

  // ---- What a response lists ----

  /** The refs that match, in advertised order. */
  function Matching(prefixes: seq<bytes>, refs: seq<Reference>): seq<Reference> {
    if refs == [] then []
    else
      var n := |refs| - 1;
      Matching(prefixes, refs[..n]) + if Matches(prefixes, refs[n].name) then [refs[n]] else []
  }

  /** Line `i` is the line of ref `i`. */
  ghost predicate AreLinesOf(repo: Repository, l: Limits, o: Options, lines: seq<bytes>, refs: seq<Reference>) {
    |lines| == |refs| && forall i :: 0 <= i < |refs| ==> RefLine(repo, l, o, refs[i]) == Some(lines[i])
  }

  lemma LinesSnoc(repo: Repository, l: Limits, o: Options, lines: seq<bytes>, refs: seq<Reference>, line: bytes,
                  r: Reference)
    requires AreLinesOf(repo, l, o, lines, refs) && RefLine(repo, l, o, r) == Some(line)
    ensures AreLinesOf(repo, l, o, lines + [line], refs + [r])
  {
  }

  lemma {:induction false} LinesAreMatching(repo: Repository, l: Limits, m: Machine, n: nat)
    requires n <= |repo.refs| && RefLines(repo, l, m, n).Some?
    ensures AreLinesOf(repo, l, m.options, RefLines(repo, l, m, n).value, Matching(m.prefixes, repo.refs[..n]))
  {
    if n > 0 {
      LinesAreMatching(repo, l, m, n - 1);
      assert repo.refs[..n][..n - 1] == repo.refs[..n - 1];
      if Matches(m.prefixes, repo.refs[n - 1].name) {
        LinesSnoc(repo, l, m.options, RefLines(repo, l, m, n - 1).value, Matching(m.prefixes, repo.refs[..n - 1]),
                  RefLine(repo, l, m.options, repo.refs[n - 1]).value, repo.refs[n - 1]);
      } else {
        assert Matching(m.prefixes, repo.refs[..n]) == Matching(m.prefixes, repo.refs[..n - 1]) + [];
      }
    }
  }

  /** A response is the unborn line, if any, then one line for each matching ref in order. */
  lemma ResponseListsMatching(repo: Repository, l: Limits, m: Machine) returns (lines: seq<bytes>)
    requires Answer(repo, l, m).Some?
    ensures UnbornLine(repo, l, m).Some? && Answer(repo, l, m).value == UnbornLine(repo, l, m).value + lines
    ensures AreLinesOf(repo, l, m.options, lines, Matching(m.prefixes, repo.refs))
  {
    lines := RefLines(repo, l, m, |repo.refs|).value;
    LinesAreMatching(repo, l, m, |repo.refs|);
    assert repo.refs[..|repo.refs|] == repo.refs;
  }

  ghost predicate IsRising(refs: seq<Reference>) {
    forall i, j :: 0 <= i < j < |refs| ==> LexLess(refs[i].name, refs[j].name)
  }

  lemma {:induction false} AdvertisedRise(repo: Repository, l: Limits, i: nat, j: nat)
    requires AreAdvertisable(repo, l) && i < j < |repo.refs|
    ensures LexLess(repo.refs[i].name, repo.refs[j].name)
    decreases j
  {
    assert LexLess(repo.refs[j - 1].name, repo.refs[j].name);
    if i < j - 1 {
      AdvertisedRise(repo, l, i, j - 1);
      LexTransitive(repo.refs[i].name, repo.refs[j - 1].name, repo.refs[j].name);
    }
  }

  lemma {:induction false} MatchingIsExact(prefixes: seq<bytes>, refs: seq<Reference>)
    requires IsRising(refs)
    ensures IsRising(Matching(prefixes, refs))
    ensures forall r :: r in Matching(prefixes, refs) <==> r in refs && Matches(prefixes, r.name)
  {
    if refs != [] {
      var n := |refs| - 1;
      var front := Matching(prefixes, refs[..n]);
      MatchingIsExact(prefixes, refs[..n]);
      assert refs == refs[..n] + [refs[n]];
      forall i | 0 <= i < |front| ensures LexLess(front[i].name, refs[n].name)
      {
        assert front[i] in refs[..n];
        var k :| 0 <= k < n && refs[k] == front[i];
      }
    }
  }

  /** A ref is listed exactly when it is advertised and matches, and no name is listed twice. */
  lemma ListedOnce(repo: Repository, l: Limits, prefixes: seq<bytes>)
    requires AreAdvertisable(repo, l)
    ensures forall r :: r in Matching(prefixes, repo.refs) <==> r in repo.refs && Matches(prefixes, r.name)
    ensures forall i, j :: 0 <= i < j < |Matching(prefixes, repo.refs)| ==>
      Matching(prefixes, repo.refs)[i].name != Matching(prefixes, repo.refs)[j].name
  {
    forall i, j | 0 <= i < j < |repo.refs| ensures LexLess(repo.refs[i].name, repo.refs[j].name)
    {
      AdvertisedRise(repo, l, i, j);
    }
    MatchingIsExact(prefixes, repo.refs);
    var listed := Matching(prefixes, repo.refs);
    forall i, j | 0 <= i < j < |listed| ensures listed[i].name != listed[j].name
    {
      LexTotal(listed[i].name, listed[j].name);
      assert LexLess(listed[i].name, listed[j].name);
    }
  }

  /** Repeating or reordering prefixes changes nothing: the response depends only on which there are. */
  lemma PrefixesAreASet(repo: Repository, l: Limits, m: Machine, prefixes: seq<bytes>)
    requires forall p :: p in m.prefixes <==> p in prefixes
    ensures Response(repo, l, m.(prefixes := prefixes)) == Response(repo, l, m)
  {
    var m' := m.(prefixes := prefixes);
    forall name ensures Matches(prefixes, name) <==> Matches(m.prefixes, name)
    {
      SameMatches(m.prefixes, prefixes, name);
      SameMatches(prefixes, m.prefixes, name);
    }
    SameLines(repo, l, m, m', |repo.refs|);
  }

  lemma SameMatches(a: seq<bytes>, b: seq<bytes>, name: bytes)
    requires forall p :: p in a <==> p in b
    ensures Matches(a, name) ==> Matches(b, name)
  {
    if b != [] { assert b[0] in a; }
    if Matches(a, name) && a != [] {
      var i :| 0 <= i < |a| && a[i] <= name;
      assert a[i] in b;
    }
  }

  lemma {:induction false} SameLines(repo: Repository, l: Limits, m: Machine, m': Machine, n: nat)
    requires n <= |repo.refs| && m.options == m'.options
    requires forall name :: Matches(m.prefixes, name) <==> Matches(m'.prefixes, name)
    ensures RefLines(repo, l, m, n) == RefLines(repo, l, m', n)
  {
    if n > 0 { SameLines(repo, l, m, m', n - 1); }
  }
}
