/**
 * The client's side of `ls-refs`: what a reader of the response lines gets
 * back, from the argument lines that asked for it
 * (crates/fgit-wire/src/lib.rs:2779-2833, 2963-3083; "ls-refs" in gitprotocol-v2(5)).
 */
module LsRefsClient {
  import opened Bytes
  import opened LsRefs
  import opened LsRefsLaws

  // ---- Reading a line ----

  /** One listed ref: its object (or the word unborn), its name and its attributes. */
  datatype Item = Item(id: bytes, name: bytes, target: Option<bytes>, peeled: Option<bytes>)

  const TARGET: bytes := Ascii("symref-target:")

  const PEELED_AS: bytes := Ascii("peeled:")

  /** The attributes after the name, each told by its label. */
  function WithAttribute(i: Item, a: bytes): Item {
    if TARGET <= a then i.(target := Some(a[|TARGET|..]))
    else if PEELED_AS <= a then i.(peeled := Some(a[|PEELED_AS|..]))
    else i
  }

  function WithAttributes(i: Item, attributes: seq<bytes>): Item {
    if attributes == [] then i
    else WithAttribute(WithAttributes(i, attributes[..|attributes| - 1]), attributes[|attributes| - 1])
  }

  /** Identity up to the first space, name up to the next, then attributes, up to the line end. */
  function ReadItem(line: bytes): Option<Item> {
    if line == [] || line[|line| - 1] != 10 then None
    else
      var parts := Split(line[..|line| - 1], 32);
      if |parts| < 2 then None else Some(WithAttributes(Item(parts[0], parts[1], None, None), parts[2..]))
  }

  predicate IsPlain(s: bytes) {
    32 !in s && 10 !in s
  }

  /** A line of space-separated plain fields reads back as those fields. */
  lemma ReadsFields(fields: seq<bytes>)
    requires |fields| >= 2 && forall i :: 0 <= i < |fields| ==> IsPlain(fields[i])
    ensures ReadItem(Join(fields, 32) + [10]) == Some(WithAttributes(Item(fields[0], fields[1], None, None), fields[2..]))
  {
    SplitJoin(fields, 32);
    var line := Join(fields, 32) + [10];
    assert line[..|line| - 1] == Join(fields, 32);
  }

  // ---- The line of a ref ----

  /** What the client should learn about a ref. */
  function ItemOf(repo: Repository, o: Options, r: Reference): Item {
    Item(r.oid.hex, r.name,
         if o.symrefs && r.name in repo.symrefs then Some(repo.symrefs[r.name]) else None,
         if o.peel && r.oid in repo.peeled then Some(repo.peeled[r.oid].hex) else None)
  }

  predicate IsPlainItem(i: Item) {
    && IsPlain(i.id) && IsPlain(i.name)
    && (i.target.Some? ==> IsPlain(i.target.value)) && (i.peeled.Some? ==> IsPlain(i.peeled.value))
  }

  function FieldsOf(i: Item): seq<bytes> {
    [i.id, i.name]
    + (if i.target.Some? then [TARGET + i.target.value] else [])
    + (if i.peeled.Some? then [PEELED_AS + i.peeled.value] else [])
  }

  lemma LabelsArePlain()
    ensures IsPlain(TARGET) && IsPlain(PEELED_AS)
    ensures forall s: bytes :: !(TARGET <= PEELED_AS + s)
  {
    assert TARGET[0] == 115 && PEELED_AS[0] == 112;
    forall s: bytes ensures !(TARGET <= PEELED_AS + s)
    {
      assert (PEELED_AS + s)[0] == 112;
    }
  }

  lemma FieldsArePlain(i: Item)
    requires IsPlainItem(i)
    ensures forall k :: 0 <= k < |FieldsOf(i)| ==> IsPlain(FieldsOf(i)[k])
  {
    LabelsArePlain();
  }

  lemma AttributesReadBack(i: Item)
    ensures WithAttributes(Item(i.id, i.name, None, None), FieldsOf(i)[2..]) == i
  {
    LabelsArePlain();
    var start, rest := Item(i.id, i.name, None, None), FieldsOf(i)[2..];
    assert WithAttributes(start, []) == start;
    if i.target.Some? {
      var a := TARGET + i.target.value;
      var one: seq<bytes> := [a];
      assert a[|TARGET|..] == i.target.value;
      assert rest[..1] == one && one[..0] == [];
      assert WithAttributes(start, one) == WithAttribute(start, a) == start.(target := i.target);
    }
    if i.peeled.Some? {
      var p := PEELED_AS + i.peeled.value;
      assert p[|PEELED_AS|..] == i.peeled.value;
      assert rest[|rest| - 1] == p;
    }
  }

  lemma JoinTwo(a: bytes, b: bytes)
    ensures Join([a, b], 32) == a + [32] + b
  {
    assert [a, b][1..] == [b];
  }

  lemma {:induction false} JoinSnoc(parts: seq<bytes>, last: bytes)
    requires parts != []
    ensures Join(parts + [last], 32) == Join(parts, 32) + [32] + last
  {
    var all := parts + [last];
    if |parts| == 1 {
      assert all == [parts[0], last];
      JoinTwo(parts[0], last);
    } else {
      assert all[1..] == parts[1..] + [last];
      JoinSnoc(parts[1..], last);
      assert Join(all, 32) == parts[0] + [32] + Join(all[1..], 32);
      assert parts[0] + [32] + (Join(parts[1..], 32) + [32] + last) == parts[0] + [32] + Join(parts[1..], 32) + [32] + last;
    }
  }

  /** The text of an item, field by field. */
  lemma FieldsJoin(i: Item)
    ensures Join(FieldsOf(i), 32) == i.id + [32] + i.name
      + (if i.target.Some? then [32] + TARGET + i.target.value else [])
      + (if i.peeled.Some? then [32] + PEELED_AS + i.peeled.value else [])
  {
    var two := [i.id, i.name];
    JoinTwo(i.id, i.name);
    var three := two + if i.target.Some? then [TARGET + i.target.value] else [];
    if i.target.Some? { JoinSnoc(two, TARGET + i.target.value); }
    if i.peeled.Some? { JoinSnoc(three, PEELED_AS + i.peeled.value); }
    assert FieldsOf(i) == three + if i.peeled.Some? then [PEELED_AS + i.peeled.value] else [];
    assert i.target == None ==> three == two;
    assert i.peeled == None ==> FieldsOf(i) == three;
  }

  lemma ReadsItem(i: Item)
    requires IsPlainItem(i)
    ensures ReadItem(Join(FieldsOf(i), 32) + [10]) == Some(i)
  {
    FieldsArePlain(i);
    ReadsFields(FieldsOf(i));
    AttributesReadBack(i);
  }

  lemma SpacedLabels()
    ensures Ascii(" symref-target:") == [32] + TARGET && Ascii(" peeled:") == [32] + PEELED_AS
    ensures Ascii("unborn HEAD symref-target:") == Ascii("unborn") + [32] + Ascii("HEAD") + [32] + TARGET
  {
  }

  /** The line of a ref reads back as exactly that ref, with exactly the attributes asked for. */
  lemma RefLineReadsBack(repo: Repository, l: Limits, o: Options, r: Reference)
    requires RefLine(repo, l, o, r).Some? && IsPlainItem(ItemOf(repo, o, r))
    ensures ReadItem(RefLine(repo, l, o, r).value) == Some(ItemOf(repo, o, r))
  {
    var i := ItemOf(repo, o, r);
    SpacedLabels();
    FieldsJoin(i);
    assert RefLine(repo, l, o, r).value == Join(FieldsOf(i), 32) + [10];
    ReadsItem(i);
  }

  function UnbornItem(target: bytes): Item {
    Item(Ascii("unborn"), Ascii("HEAD"), Some(target), None)
  }

  lemma UnbornReadsBack(target: bytes)
    requires IsPlain(target)
    ensures ReadItem(Ascii("unborn HEAD symref-target:") + target + [10]) == Some(UnbornItem(target))
  {
    var i := UnbornItem(target);
    assert IsPlain(Ascii("unborn")) && IsPlain(Ascii("HEAD"));
    SpacedLabels();
    FieldsJoin(i);
    assert Ascii("unborn HEAD symref-target:") + target == Join(FieldsOf(i), 32);
    ReadsItem(i);
  }

  // ---- The whole response ----

  /** Every packet but the closing flush, read as an item. */
  function ReadAll(packets: seq<Packet>): Option<seq<Item>> {
    if packets == [Flush] then Some([])
    else if packets == [] || !packets[0].Data? then None
    else
      var i, rest := ReadItem(packets[0].line), ReadAll(packets[1..]);
      if i == None || rest == None then None else Some([i.value] + rest.value)
  }

  ghost predicate AreReadAs(lines: seq<bytes>, items: seq<Item>) {
    |lines| == |items| && forall i :: 0 <= i < |lines| ==> ReadItem(lines[i]) == Some(items[i])
  }

  lemma {:induction false} ReadsAll(lines: seq<bytes>, items: seq<Item>)
    requires AreReadAs(lines, items)
    ensures ReadAll(DataOf(lines) + [Flush]) == Some(items)
  {
    if lines == [] {
      assert DataOf(lines) + [Flush] == [Flush];
    } else {
      ReadsAll(lines[1..], items[1..]);
      PacketsSplit(lines);
      assert items == [items[0]] + items[1..];
    }
  }

  lemma PacketsSplit(lines: seq<bytes>)
    requires lines != []
    ensures var packets := DataOf(lines) + [Flush];
      |packets| > 1 && packets[0] == Data(lines[0]) && packets[1..] == DataOf(lines[1..]) + [Flush]
  {
  }

  /** No name, target or identity the repository shows holds a space or a line end. */
  ghost predicate IsPlainRepository(repo: Repository) {
    && (forall i :: 0 <= i < |repo.refs| ==> IsPlain(repo.refs[i].name) && IsPlain(repo.refs[i].oid.hex))
    && (forall n :: n in repo.symrefs ==> IsPlain(repo.symrefs[n]))
    && (forall o :: o in repo.peeled ==> IsPlain(repo.peeled[o].hex))
    && (repo.unborn.Some? ==> IsPlain(repo.unborn.value))
  }

  /** What a client that asked with these options and prefixes should learn. */
  function Learned(repo: Repository, o: Options, prefixes: seq<bytes>): seq<Item> {
    var refs := Matching(prefixes, repo.refs);
    (if o.unborn && Matches(prefixes, Ascii("HEAD")) && repo.unborn.Some? then [UnbornItem(repo.unborn.value)] else [])
    + seq(|refs|, i requires 0 <= i < |refs| => ItemOf(repo, o, refs[i]))
  }

  lemma {:induction false} MatchingIsAdvertised(prefixes: seq<bytes>, refs: seq<Reference>, i: nat)
    requires i < |Matching(prefixes, refs)|
    ensures Matching(prefixes, refs)[i] in refs
  {
    var n := |refs| - 1;
    if i < |Matching(prefixes, refs[..n])| {
      MatchingIsAdvertised(prefixes, refs[..n], i);
    }
  }

  lemma LinesReadBack(repo: Repository, l: Limits, m: Machine, lines: seq<bytes>)
    requires IsPlainRepository(repo) && AreLinesOf(repo, l, m.options, lines, Matching(m.prefixes, repo.refs))
    ensures var refs := Matching(m.prefixes, repo.refs);
      AreReadAs(lines, seq(|refs|, i requires 0 <= i < |refs| => ItemOf(repo, m.options, refs[i])))
  {
    var refs := Matching(m.prefixes, repo.refs);
    forall i | 0 <= i < |lines| ensures ReadItem(lines[i]) == Some(ItemOf(repo, m.options, refs[i]))
    {
      MatchingIsAdvertised(m.prefixes, repo.refs, i);
      assert IsPlainItem(ItemOf(repo, m.options, refs[i]));
      RefLineReadsBack(repo, l, m.options, refs[i]);
    }
  }

  lemma JoinReads(a: seq<bytes>, x: seq<Item>, b: seq<bytes>, y: seq<Item>)
    requires AreReadAs(a, x) && AreReadAs(b, y)
    ensures AreReadAs(a + b, x + y)
  {
  }

  lemma FirstReadsBack(repo: Repository, l: Limits, m: Machine)
    requires IsPlainRepository(repo) && UnbornLine(repo, l, m).Some?
    ensures AreReadAs(UnbornLine(repo, l, m).value,
      if m.options.unborn && Matches(m.prefixes, Ascii("HEAD")) && repo.unborn.Some?
      then [UnbornItem(repo.unborn.value)] else [])
  {
    if m.options.unborn && Matches(m.prefixes, Ascii("HEAD")) && repo.unborn.Some? {
      UnbornReadsBack(repo.unborn.value);
    }
  }

  /** A response, read line by line, is exactly what the machine's options and prefixes ask for. */
  lemma ResponseReadsBack(repo: Repository, l: Limits, m: Machine)
    requires IsPlainRepository(repo) && Response(repo, l, m).Some?
    ensures ReadAll(Response(repo, l, m).value) == Some(Learned(repo, m.options, m.prefixes))
  {
    var lines := ResponseListsMatching(repo, l, m);
    var first, refs := UnbornLine(repo, l, m).value, Matching(m.prefixes, repo.refs);
    FirstReadsBack(repo, l, m);
    LinesReadBack(repo, l, m, lines);
    var head := if m.options.unborn && Matches(m.prefixes, Ascii("HEAD")) && repo.unborn.Some?
                then [UnbornItem(repo.unborn.value)] else [];
    var tail := seq(|refs|, i requires 0 <= i < |refs| => ItemOf(repo, m.options, refs[i]));
    JoinReads(first, head, lines, tail);
    ReadsAll(first + lines, head + tail);
  }

  // ---- From the argument lines ----

  /** Some packet is the argument line `word`. */
  ghost predicate IsSaid(es: seq<Event>, word: bytes) {
    exists i :: 0 <= i < |es| && es[i].packet.Data? && RequestLine(es[i].packet.line) == Some(word)
  }

  ghost predicate AreData(es: seq<Event>) {
    forall i :: 0 <= i < |es| ==> es[i].packet.Data?
  }

  function Heard(o: Options, text: Option<bytes>): Options {
    Options(o.symrefs || text == Some(Ascii("symrefs")), o.peel || text == Some(Ascii("peel")),
            o.unborn || text == Some(Ascii("unborn")))
  }

  lemma WordsDiffer()
    ensures Ascii("symrefs") != Ascii("peel") && Ascii("peel") != Ascii("unborn") && Ascii("symrefs") != Ascii("unborn")
  {
    assert Ascii("symrefs")[0] == 115 && Ascii("peel")[0] == 112 && Ascii("unborn")[0] == 117;
  }

  /** One argument line sets the option it names and no other. */
  lemma ArgumentSets(s: Session, repo: Repository, m: Machine, line: bytes)
    requires m.state == AwaitArguments
    ensures var m' := Held(PushPacket(s, repo, m, Data(line)), m);
      m'.state == AwaitArguments && m'.options == Heard(m.options, RequestLine(line))
  {
    WordsDiffer();
  }

  lemma SaidSnoc(es: seq<Event>, e: Event, word: bytes)
    ensures IsSaid(es + [e], word) <==> IsSaid(es, word) || (e.packet.Data? && RequestLine(e.packet.line) == Some(word))
  {
    var all := es + [e];
    assert all[|es|] == e;
    if IsSaid(es, word) {
      var i :| 0 <= i < |es| && es[i].packet.Data? && RequestLine(es[i].packet.line) == Some(word);
      assert all[i] == es[i];
    }
  }

  /** After any argument lines an option is on exactly if it was or its own word was among them. */
  lemma {:induction false} ArgumentsSet(s: Session, m: Machine, es: seq<Event>)
    requires m.state == AwaitArguments && AreData(es)
    ensures var m' := Run(s, m, es).machine;
      && m'.state == AwaitArguments
      && (m'.options.symrefs <==> m.options.symrefs || IsSaid(es, Ascii("symrefs")))
      && (m'.options.peel <==> m.options.peel || IsSaid(es, Ascii("peel")))
      && (m'.options.unborn <==> m.options.unborn || IsSaid(es, Ascii("unborn")))
  {
    if es != [] {
      var n := |es| - 1;
      var front, e := es[..n], es[n];
      assert es == front + [e];
      ArgumentsSet(s, m, front);
      RunSnoc(s, m, front, e);
      ArgumentSets(s, e.repo, Run(s, m, front).machine, e.packet.line);
      SaidSnoc(front, e, Ascii("symrefs"));
      SaidSnoc(front, e, Ascii("peel"));
      SaidSnoc(front, e, Ascii("unborn"));
    }
  }

  /** The prefix an argument line asks for, when it is one the machine would take. */
  function PrefixIn(l: Limits, p: Packet): seq<bytes> {
    if !p.Data? || RequestLine(p.line) == None then []
    else
      var prefix := Strip(RequestLine(p.line).value, Ascii("ref-prefix "));
      if prefix == None || prefix.value == [] || |prefix.value| > l.refName then [] else [prefix.value]
  }

  function PrefixesIn(l: Limits, es: seq<Event>): seq<bytes> {
    if es == [] then [] else PrefixesIn(l, es[..|es| - 1]) + PrefixIn(l, es[|es| - 1].packet)
  }

  lemma WordsAreNotPrefixes(line: bytes)
    requires line == Ascii("symrefs") || line == Ascii("peel") || line == Ascii("unborn")
    ensures Strip(line, Ascii("ref-prefix ")) == None
  {
    assert Ascii("symrefs")[0] == 115 && Ascii("peel")[0] == 112 && Ascii("unborn")[0] == 117;
    assert Ascii("ref-prefix ")[0] == 114;
  }

  lemma ArgumentKeeps(s: Session, repo: Repository, m: Machine, p: Packet)
    requires m.state == AwaitArguments && p.Data?
    ensures Held(PushPacket(s, repo, m, p), m).prefixes ==
      if |m.prefixes| == s.limits.prefixes then m.prefixes else m.prefixes + PrefixIn(s.limits, p)
  {
    var text := RequestLine(p.line);
    if text == Some(Ascii("symrefs")) || text == Some(Ascii("peel")) || text == Some(Ascii("unborn")) {
      WordsAreNotPrefixes(text.value);
      assert m.prefixes + [] == m.prefixes;
    }
  }

  lemma KeptNext(limit: nat, prefixes: seq<bytes>, more: seq<bytes>)
    requires |more| <= 1
    ensures Kept(limit, prefixes + more) ==
            if |Kept(limit, prefixes)| == limit then Kept(limit, prefixes) else Kept(limit, prefixes) + more
  {
    if more == [] {
      assert prefixes + more == prefixes;
    } else {
      assert more == [more[0]];
      KeptSnoc(limit, prefixes, more[0]);
    }
  }

  /** After any argument lines the prefixes are those the lines named, as far as the limit allows. */
  lemma {:induction false} ArgumentsKeep(s: Session, m: Machine, es: seq<Event>)
    requires m.state == AwaitArguments && m.prefixes == [] && AreData(es)
    ensures Run(s, m, es).machine.prefixes == Kept(s.limits.prefixes, PrefixesIn(s.limits, es))
  {
    if es != [] {
      var n := |es| - 1;
      var front, e := es[..n], es[n];
      assert es == front + [e];
      ArgumentsKeep(s, m, front);
      ArgumentsSet(s, m, front);
      RunSnoc(s, m, front, e);
      ArgumentKeeps(s, e.repo, Run(s, m, front).machine, e.packet);
      KeptNext(s.limits.prefixes, PrefixesIn(s.limits, front), PrefixIn(s.limits, e.packet));
    }
  }

  /** The options a client's argument lines ask for. */
  ghost function Asked(es: seq<Event>): Options {
    Options(IsSaid(es, Ascii("symrefs")), IsSaid(es, Ascii("peel")), IsSaid(es, Ascii("unborn")))
  }

  /**
   * Asked and answered: whatever argument lines follow the capabilities of a
   * command, the closing flush is answered, if at all, with packets that read
   * back as exactly the matching refs, each with its own object and name and
   * with the attributes those lines asked for, after the unborn head if asked.
   */
  lemma AskedIsAnswered(s: Session, repo: Repository, m: Machine, es: seq<Event>)
    requires m.state == AwaitArguments && m.options == PLAIN && m.prefixes == [] && AreData(es)
    requires IsPlainRepository(repo)
    ensures var r := PushPacket(s, repo, Run(s, m, es).machine, Flush);
      r.Moved? ==>
        ReadAll(r.output) == Some(Learned(repo, Asked(es), Kept(s.limits.prefixes, PrefixesIn(s.limits, es))))
  {
    ArgumentsSet(s, m, es);
    ArgumentsKeep(s, m, es);
    var at := Run(s, m, es).machine;
    assert at.options == Asked(es);
    if Response(repo, s.limits, at).Some? { ResponseReadsBack(repo, s.limits, at); }
  }

  // ---- Which capabilities a command may hold ----

  /** How many bytes a capability line takes. */
  function Spelled(c: Capability): nat {
    |c.name| + (if c.value.Some? then 1 + |c.value.value| else 0)
  }

  /** Offered by the server, each once, within the limit, and of the repository's own format. */
  ghost predicate AreVetted(s: Session, f: Format, cs: seq<Capability>) {
    && |cs| <= s.limits.capabilities
    && (forall i :: 0 <= i < |cs| ==> cs[i].name in s.offered && Spelled(cs[i]) <= s.limits.capability)
    && (forall i :: 0 <= i < |cs| && cs[i].name == Ascii("object-format") ==>
          match f
          case Sha1 => cs[i].value == Some(Ascii("sha1"))
          case Sha256 => cs[i].value == Some(Ascii("sha256")))
    && forall i, j :: 0 <= i < j < |cs| ==> cs[i].name != cs[j].name
  }

  /** Prefixes are text, each within the length of a name, and no more of them than the limit. */
  ghost predicate AreText(l: Limits, ps: seq<bytes>) {
    && |ps| <= l.prefixes
    && forall i :: 0 <= i < |ps| ==> 0 < |ps[i]| <= l.refName && 0 !in ps[i] && 10 !in ps[i] && 13 !in ps[i]
  }

  lemma PushKeepsText(s: Session, repo: Repository, m: Machine, p: Packet)
    requires AreText(s.limits, m.prefixes)
    ensures AreText(s.limits, Held(PushPacket(s, repo, m, p), m).prefixes)
  {
  }

  /** In every run the prefixes held are such text. */
  lemma {:induction false} RunHoldsText(s: Session, es: seq<Event>)
    ensures AreText(s.limits, Run(s, FRESH, es).machine.prefixes)
  {
    if es != [] {
      var n := |es| - 1;
      RunHoldsText(s, es[..n]);
      PushKeepsText(s, es[n].repo, Run(s, FRESH, es[..n]).machine, es[n].packet);
    }
  }

  /** Past the command line only for an offered command, and ended only over a connection that stays open. */
  ghost predicate IsOffered(s: Session, state: State) {
    match state
    case AwaitCommand => true
    case AwaitCapabilities => Ascii("ls-refs") in s.offered
    case AwaitArguments => Ascii("ls-refs") in s.offered
    case InFetch => Ascii("fetch") in s.offered
    case Ended => !s.stateless
  }

  lemma PushIsOffered(s: Session, repo: Repository, m: Machine, p: Packet)
    requires IsOffered(s, m.state)
    ensures IsOffered(s, Held(PushPacket(s, repo, m, p), m).state)
  {
  }

  /** In every run a command is under way only if it was offered, and a stateless machine never ends on a flush. */
  lemma {:induction false} RunIsOffered(s: Session, es: seq<Event>)
    ensures IsOffered(s, Run(s, FRESH, es).machine.state)
  {
    if es != [] {
      var n := |es| - 1;
      RunIsOffered(s, es[..n]);
      PushIsOffered(s, es[n].repo, Run(s, FRESH, es[..n]).machine, es[n].packet);
    }
  }

  // ---- How much a response sends ----

  /** The bytes of packets on the wire: a length of four, and the line of a data packet. */
  function WireBytes(ps: seq<Packet>): nat {
    if ps == [] then 0
    else WireBytes(ps[..|ps| - 1]) + 4 + (if ps[|ps| - 1].Data? then |ps[|ps| - 1].line| else 0)
  }

  lemma {:induction false} DataBytes(lines: seq<bytes>)
    ensures WireBytes(DataOf(lines)) == Cost(lines)
  {
    if lines != [] {
      var n := |lines| - 1;
      DataBytes(lines[..n]);
      assert DataOf(lines)[..n] == DataOf(lines[..n]);
    }
  }

  /** A response stays within the outbound budget, its flush included, and each packet within its own. */
  lemma ResponseFits(repo: Repository, l: Limits, m: Machine)
    requires Response(repo, l, m).Some?
    ensures var ps := Response(repo, l, m).value;
      && WireBytes(ps) <= l.outbound
      && forall i :: 0 <= i < |ps| && ps[i].Data? ==> |ps[i].line| + 4 <= l.packet
  {
    var lines := Answer(repo, l, m).value;
    DataBytes(lines);
    assert (DataOf(lines) + [Flush])[..|lines|] == DataOf(lines);
  }

  // ---- Capabilities ----

  lemma PushVets(s: Session, repo: Repository, m: Machine, p: Packet)
    requires AreVetted(s, repo.format, m.capabilities)
    ensures AreVetted(s, repo.format, Held(PushPacket(s, repo, m, p), m).capabilities)
  {
  }

  /** In every run over one object format, the capabilities held are vetted. */
  lemma {:induction false} RunIsVetted(s: Session, f: Format, es: seq<Event>)
    requires forall i :: 0 <= i < |es| ==> es[i].repo.format == f
    ensures AreVetted(s, f, Run(s, FRESH, es).machine.capabilities)
  {
    if es != [] {
      var n := |es| - 1;
      RunIsVetted(s, f, es[..n]);
      PushVets(s, es[n].repo, Run(s, FRESH, es[..n]).machine, es[n].packet);
    }
  }
}
