/**
 * Full-object packs: writing one, and reading one with no slack byte
 * (scripts/e2e/merge_preparation_smoke.py:90-143, initial_commit_smoke.py:22-47).
 */
module PackFile {
  import opened Bytes
  import opened SizeHeader
  import opened Zip

  /** A digest of fixed width. */
  datatype Hash = Hash(digest: bytes -> bytes, width: nat)

  ghost predicate IsHash(h: Hash) {
    h.width > 0 && forall s :: |h.digest(s)| == h.width
  }

  type Id = bytes

  /** A pack object: 1 commit, 2 tree, 3 blob, 4 tag. */
  datatype Entry = Entry(kind: nat, body: bytes)

  function KindName(kind: nat): bytes {
    match kind
    case 1 => Ascii("commit")
    case 2 => Ascii("tree")
    case 3 => Ascii("blob")
    case _ => Ascii("tag")
  }

  function Decimal(n: nat): bytes {
    if n < 10 then [48 + n] else Decimal(n / 10) + [48 + n % 10]
  }

  function Hex(s: bytes): (r: bytes)
    ensures |r| == 2 * |s|
  {
    if s == [] then [] else [HexChar(s[0] / 16), HexChar(s[0] % 16)] + Hex(s[1..])
  }

  function IdOf(h: Hash, e: Entry): Id {
    Hex(h.digest(KindName(e.kind) + Ascii(" ") + Decimal(|e.body|) + [0] + e.body))
  }

  /** What a reader will take. */
  datatype Limits = Limits(kinds: set<nat>, least: nat, most: nat, size: Option<nat>, total: Option<nat>)

  predicate Fits(limit: Option<nat>, n: nat) {
    limit.Some? ==> n <= limit.value
  }

  const MEBIBYTES_32 := 32 * 1024 * 1024

  const PREPARATION := Limits({1, 2, 3, 4}, 1, 10000, Some(MEBIBYTES_32), Some(MEBIBYTES_32))

  const INITIAL := Limits({1, 2, 3}, 0, 0xffff_ffff, None, None)

  // ---- Writing ----

  const MAGIC: bytes := Ascii("PACK") + [0, 0, 0, 2]

  /** How one object is written. */
  type Wiring = Entry -> bytes

  function WireOf(z: Zip): Wiring {
    (e: Entry) => if e.kind < 8 then Header(e.kind, |e.body|) + z.compress(e.body) else []
  }

  function Wires(wire: Wiring, es: seq<Entry>): bytes {
    if es == [] then [] else Wires(wire, es[..|es| - 1]) + wire(es[|es| - 1])
  }

  function PackBody(wire: Wiring, es: seq<Entry>): bytes
    requires |es| < 0x1_0000_0000
  {
    MAGIC + Big4(|es|) + Wires(wire, es)
  }

  function Pack(wire: Wiring, h: Hash, es: seq<Entry>): bytes
    requires |es| < 0x1_0000_0000
  {
    PackBody(wire, es) + h.digest(PackBody(wire, es))
  }

  /** `s` is a pack body as far as the first `i` entries. */
  ghost predicate IsWritten(wire: Wiring, es: seq<Entry>, i: nat, s: bytes) {
    i <= |es| < 0x1_0000_0000 && s == MAGIC + Big4(|es|) + Wires(wire, es[..i])
  }

  lemma WrittenNext(wire: Wiring, es: seq<Entry>, i: nat, s: bytes)
    requires i < |es| && IsWritten(wire, es, i, s)
    ensures IsWritten(wire, es, i + 1, s + wire(es[i]))
  {
    var head, before := MAGIC + Big4(|es|), Wires(wire, es[..i]);
    assert es[..i + 1][..i] == es[..i];
    assert Wires(wire, es[..i + 1]) == before + wire(es[i]);
    assert head + before + wire(es[i]) == head + (before + wire(es[i]));
  }

  lemma WrittenAll(wire: Wiring, es: seq<Entry>, s: bytes)
    requires IsWritten(wire, es, |es|, s)
    ensures s == PackBody(wire, es)
  {
    assert es[..|es|] == es;
  }

  method WriteEntry(z: Zip, e: Entry) returns (s: bytes)
    requires e.kind < 8
    ensures s == WireOf(z)(e)
  {
    var header := EncodeLookingAhead(e.kind, |e.body|);
    s := header + z.compress(e.body);
  }

  /** The writer's loop. */
  method SyntheticPack(z: Zip, h: Hash, es: seq<Entry>) returns (packed: bytes)
    requires |es| < 0x1_0000_0000 && forall i :: 0 <= i < |es| ==> es[i].kind < 8
    ensures packed == Pack(WireOf(z), h, es)
  {
    packed := MAGIC + Big4(|es|);
    for i := 0 to |es|
      invariant IsWritten(WireOf(z), es, i, packed)
    {
      WrittenNext(WireOf(z), es, i, packed);
      var wired := WriteEntry(z, es[i]);
      packed := packed + wired;
    }
    WrittenAll(WireOf(z), es, packed);
    packed := packed + h.digest(packed);
  }

  // ---- Reading ----

  datatype One = One(entry: Entry, used: nat)

  function ReadEntry(z: Zip, l: Limits, s: bytes): Option<One> {
    var head := ReadBounded(s);
    if head == None || head.value.kind !in l.kinds || !Fits(l.size, head.value.size) then None
    else
      var m := z.inflate(s[head.value.used..]);
      if m == None || |m.value.body| != head.value.size then None
      else Some(One(Entry(head.value.kind, m.value.body), head.value.used + m.value.used))
  }

  /** A reader of one entry, which takes something and never more than it is given. */
  type Reader = bytes -> Option<One>

  ghost predicate IsReader(read: Reader) {
    forall s :: read(s).Some? ==> 0 < read(s).value.used <= |s|
  }

  lemma EntryReader(z: Zip, l: Limits)
    requires IsZip(z)
    ensures IsReader(s => ReadEntry(z, l, s))
  {
  }

  datatype Many = Many(entries: seq<Entry>, used: nat)

  /** The first `n` entries, one after another from the front. */
  ghost function ReadEntries(read: Reader, s: bytes, n: nat): (r: Option<Many>)
    requires IsReader(read)
    ensures r.Some? ==> r.value.used <= |s| && |r.value.entries| == n
  {
    if n == 0 then Some(Many([], 0))
    else
      var before := ReadEntries(read, s, n - 1);
      if before == None then None
      else
        var one := read(s[before.value.used..]);
        if one == None then None
        else Some(Many(before.value.entries + [one.value.entry], before.value.used + one.value.used))
  }

  function Total(es: seq<Entry>): nat {
    if es == [] then 0 else Total(es[..|es| - 1]) + |es[|es| - 1].body|
  }

  /** How objects are named. */
  type Naming = Entry -> Id

  /** Objects by name. */
  function Index(name: Naming, es: seq<Entry>): map<Id, Entry> {
    if es == [] then map[] else Index(name, es[..|es| - 1])[name(es[|es| - 1]) := es[|es| - 1]]
  }

  /** Each entry has a name none before it has. */
  predicate AreDistinct(name: Naming, es: seq<Entry>) {
    es == [] || (AreDistinct(name, es[..|es| - 1]) && name(es[|es| - 1]) !in Index(name, es[..|es| - 1]))
  }

  /** The verdict on entries that were read: all of the input, within the total, no name twice. */
  ghost function Judged(name: Naming, l: Limits, r: Option<Many>, length: nat): Option<map<Id, Entry>> {
    if r == None || r.value.used != length then None
    else if !Fits(l.total, Total(r.value.entries)) || !AreDistinct(name, r.value.entries) then None
    else Some(Index(name, r.value.entries))
  }

  /** The objects of a pack body: header, exactly the counted entries, and nothing after them. */
  ghost function Accepted(read: Reader, name: Naming, l: Limits, body: bytes): Option<map<Id, Entry>>
    requires IsReader(read)
  {
    if |body| < 12 || body[..8] != MAGIC then None
    else
      var count := BigEndian4(body[8..12]);
      if !(l.least <= count <= l.most) then None
      else Judged(name, l, ReadEntries(read, body[12..], count), |body| - 12)
  }

  /** What stands before the trailer, when the trailer is its digest. */
  function Sealed(h: Hash, packed: bytes): (r: Option<bytes>)
    ensures r.Some? ==> |r.value| >= 12
  {
    if |packed| < 12 + h.width then None
    else
      var body := packed[..|packed| - h.width];
      if h.digest(body) != packed[|packed| - h.width..] then None else Some(body)
  }

  ghost function Inspected(read: Reader, name: Naming, h: Hash, l: Limits, packed: bytes): Option<map<Id, Entry>>
    requires IsReader(read)
  {
    var body := Sealed(h, packed);
    if body == None then None else Accepted(read, name, l, body.value)
  }

  lemma {:induction false} IndexKeys(name: Naming, es: seq<Entry>, id: Id)
    ensures id in Index(name, es) <==> exists i :: 0 <= i < |es| && name(es[i]) == id
  {
    if es != [] {
      var n := |es| - 1;
      IndexKeys(name, es[..n], id);
      if i :| 0 <= i < |es| && name(es[i]) == id {
        assert i < n ==> es[..n][i] == es[i];
      }
      if i :| 0 <= i < n && name(es[..n][i]) == id { assert es[i] == es[..n][i]; }
    }
  }

  lemma {:induction false} DistinctIff(name: Naming, es: seq<Entry>)
    ensures AreDistinct(name, es) <==> forall i, j :: 0 <= i < j < |es| ==> name(es[i]) != name(es[j])
  {
    if es != [] {
      var n := |es| - 1;
      DistinctIff(name, es[..n]);
      IndexKeys(name, es[..n], name(es[n]));
      assert forall i :: 0 <= i < n ==> es[..n][i] == es[i];
      if name(es[n]) in Index(name, es[..n]) {
        var i :| 0 <= i < n && name(es[..n][i]) == name(es[n]);
        assert name(es[i]) == name(es[n]);
      }
    }
  }

  /** Entries over a total stay over it, and a repeat stays a repeat, whatever follows. */
  lemma {:induction false} RefusalGrows(name: Naming, es: seq<Entry>, more: seq<Entry>)
    ensures Total(es) <= Total(es + more)
    ensures AreDistinct(name, es + more) ==> AreDistinct(name, es)
    decreases |more|
  {
    if more == [] {
      assert es + more == es;
    } else {
      var n := |more| - 1;
      assert (es + more)[..|es + more| - 1] == es + more[..n];
      RefusalGrows(name, es, more[..n]);
    }
  }

  /** Reading on keeps what was read, and cannot pass an entry that does not read. */
  lemma {:induction false} ReadOn(read: Reader, s: bytes, i: nat, n: nat)
    requires IsReader(read) && i <= n && ReadEntries(read, s, n).Some?
    ensures ReadEntries(read, s, i).Some?
    ensures ReadEntries(read, s, i).value.entries <= ReadEntries(read, s, n).value.entries
  {
    if i < n { ReadOn(read, s, i, n - 1); }
  }

  /** Entries already over the total, or already repeating a name, refuse the whole. */
  lemma RefusesWhole(read: Reader, name: Naming, l: Limits, s: bytes, i: nat, n: nat)
    requires IsReader(read) && i <= n && ReadEntries(read, s, i).Some?
    requires var es := ReadEntries(read, s, i).value.entries; !Fits(l.total, Total(es)) || !AreDistinct(name, es)
    ensures Judged(name, l, ReadEntries(read, s, n), |s|) == None
  {
    var whole := ReadEntries(read, s, n);
    if whole.Some? {
      ReadOn(read, s, i, n);
      var es, all := ReadEntries(read, s, i).value.entries, whole.value.entries;
      assert all == es + all[|es|..];
      RefusalGrows(name, es, all[|es|..]);
    }
  }

  lemma Snoc(name: Naming, es: seq<Entry>, e: Entry)
    ensures Index(name, es + [e]) == Index(name, es)[name(e) := e]
    ensures Total(es + [e]) == Total(es) + |e.body|
    ensures AreDistinct(name, es + [e]) <==> AreDistinct(name, es) && name(e) !in Index(name, es)
  {
    assert (es + [e])[..|es|] == es;
  }

  /** Where the loop stands after `i` entries: what was read, and the running map and total of it. */
  ghost predicate IsTally(read: Reader, name: Naming, l: Limits, s: bytes, i: nat, es: seq<Entry>, cursor: nat,
                          objects: map<Id, Entry>, total: nat)
    requires IsReader(read)
  {
    && ReadEntries(read, s, i) == Some(Many(es, cursor))
    && objects == Index(name, es)
    && total == Total(es)
    && Fits(l.total, total)
    && AreDistinct(name, es)
  }

  /** Where it stands once it has taken one more. */
  ghost predicate IsTallyPlus(read: Reader, name: Naming, l: Limits, s: bytes, i: nat, es: seq<Entry>, cursor: nat,
                              objects: map<Id, Entry>, total: nat, one: One)
    requires IsReader(read)
  {
    IsTally(read, name, l, s, i + 1, es + [one.entry], cursor + one.used, objects[name(one.entry) := one.entry],
            total + |one.entry.body|)
  }

  lemma ReadStep(read: Reader, s: bytes, i: nat, es: seq<Entry>, cursor: nat)
    requires IsReader(read) && ReadEntries(read, s, i) == Some(Many(es, cursor))
    ensures var one := read(s[cursor..]);
      ReadEntries(read, s, i + 1) ==
        if one == None then None else Some(Many(es + [one.value.entry], cursor + one.value.used))
  {
  }

  lemma TallyNext(read: Reader, name: Naming, l: Limits, s: bytes, i: nat, es: seq<Entry>, cursor: nat,
                  objects: map<Id, Entry>, total: nat, one: One)
    requires IsReader(read) && IsTally(read, name, l, s, i, es, cursor, objects, total)
    requires read(s[cursor..]) == Some(one)
    requires Fits(l.total, total + |one.entry.body|) && name(one.entry) !in objects
    ensures IsTallyPlus(read, name, l, s, i, es, cursor, objects, total, one)
  {
    ReadStep(read, s, i, es, cursor);
    Snoc(name, es, one.entry);
  }

  lemma TallyRefused(read: Reader, name: Naming, l: Limits, s: bytes, i: nat, es: seq<Entry>, cursor: nat,
                     objects: map<Id, Entry>, total: nat, count: nat)
    requires IsReader(read) && i < count && IsTally(read, name, l, s, i, es, cursor, objects, total)
    requires var one := read(s[cursor..]);
      one == None || !Fits(l.total, total + |one.value.entry.body|) || name(one.value.entry) in objects
    ensures Judged(name, l, ReadEntries(read, s, count), |s|) == None
  {
    ReadStep(read, s, i, es, cursor);
    var one := read(s[cursor..]);
    if one == None {
      if ReadEntries(read, s, count).Some? { ReadOn(read, s, i + 1, count); }
    } else {
      Snoc(name, es, one.value.entry);
      RefusesWhole(read, name, l, s, i + 1, count);
    }
  }

  /** One turn: the next entry, refused when it does not read, overflows the total or repeats a name. */
  method TakeNext(read: Reader, name: Naming, l: Limits, s: bytes, cursor: nat, objects: map<Id, Entry>, total: nat,
                  ghost i: nat, ghost es: seq<Entry>, ghost count: nat) returns (one: Option<One>)
    requires IsReader(read) && i < count && IsTally(read, name, l, s, i, es, cursor, objects, total)
    ensures one == None ==> Judged(name, l, ReadEntries(read, s, count), |s|) == None
    ensures one.Some? ==> IsTallyPlus(read, name, l, s, i, es, cursor, objects, total, one.value)
  {
    one := read(s[cursor..]);
    if one == None || !Fits(l.total, total + |one.value.entry.body|) || name(one.value.entry) in objects {
      TallyRefused(read, name, l, s, i, es, cursor, objects, total, count);
      one := None;
    } else {
      TallyNext(read, name, l, s, i, es, cursor, objects, total, one.value);
    }
  }

  /** The reader's loop over entries, refusing a repeat or an overflow as soon as it shows. */
  method ReadObjects(read: Reader, name: Naming, l: Limits, s: bytes, count: nat) returns (r: Option<map<Id, Entry>>)
    requires IsReader(read)
    ensures r == Judged(name, l, ReadEntries(read, s, count), |s|)
  {
    var objects: map<Id, Entry>, cursor: nat, total: nat := map[], 0, 0;
    ghost var es: seq<Entry> := [];
    for i := 0 to count
      invariant IsTally(read, name, l, s, i, es, cursor, objects, total)
    {
      var one := TakeNext(read, name, l, s, cursor, objects, total, i, es, count);
      if one == None { return None; }
      var e := one.value.entry;
      es, cursor, objects, total := es + [e], cursor + one.value.used, objects[name(e) := e], total + |e.body|;
    }
    r := if cursor == |s| then Some(objects) else None;
  }

  /** The checks below the trailer: signature and version, the count's bounds, then the entries. */
  method InspectBody(read: Reader, name: Naming, l: Limits, body: bytes) returns (r: Option<map<Id, Entry>>)
    requires IsReader(read) && |body| >= 12
    ensures r == Accepted(read, name, l, body)
  {
    if body[..8] != MAGIC { return None; }
    var count := BigEndian4(body[8..12]);
    if !(l.least <= count <= l.most) { return None; }
    r := ReadObjects(read, name, l, body[12..], count);
  }

  method CheckTrailer(h: Hash, packed: bytes) returns (r: Option<bytes>)
    ensures r == Sealed(h, packed)
  {
    if |packed| < 12 + h.width { return None; }
    var body, trailer := packed[..|packed| - h.width], packed[|packed| - h.width..];
    if h.digest(body) != trailer { return None; }
    r := Some(body);
  }

  method InspectPack(read: Reader, name: Naming, h: Hash, l: Limits, packed: bytes) returns (r: Option<map<Id, Entry>>)
    requires IsReader(read)
    ensures r == Inspected(read, name, h, l, packed)
  {
    var body := CheckTrailer(h, packed);
    if body == None { return None; }
    r := InspectBody(read, name, l, body.value);
  }
}
