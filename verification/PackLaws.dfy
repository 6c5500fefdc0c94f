/** Packs read back as what was written, and a pack that reads has no other bytes. */
module PackLaws {
  import opened Bytes
  import opened SizeHeader
  import opened Zip
  import opened PackFile

  // ---- Four-byte counts ----

  lemma CountRoundTrip(n: nat)
    requires n < 0x1_0000_0000
    ensures BigEndian4(Big4(n)) == n
  {
    assert n / 0x1_0000 / 256 == n / 0x100_0000 && n / 256 / 256 == n / 0x1_0000;
  }

  lemma CountIsExact(s: bytes)
    requires |s| == 4
    ensures Big4(BigEndian4(s)) == s
  {
    var a, b, c, d := s[0] as int, s[1] as int, s[2] as int, s[3] as int;
    var n := BigEndian4(s);
    assert n == ((a * 256 + b) * 256 + c) * 256 + d;
    assert n / 256 == (a * 256 + b) * 256 + c;
    assert n / 0x1_0000 == a * 256 + b;
    assert n / 0x100_0000 == a;
  }

  // ---- Round trip ----

  /** An object a reader with these limits will take. */
  ghost predicate IsTakeable(l: Limits, e: Entry) {
    e.kind in l.kinds && e.kind < 8 && Fits(l.size, |e.body|) && |e.body| < Pow2(67)
  }

  lemma EntryRoundTrip(z: Zip, l: Limits, e: Entry, rest: bytes)
    requires IsZip(z) && IsTakeable(l, e)
    ensures ReadEntry(z, l, WireOf(z)(e) + rest) == Some(One(e, |WireOf(z)(e)|))
  {
    var head, member := Header(e.kind, |e.body|), z.compress(e.body);
    var s := WireOf(z)(e) + rest;
    assert s == head + (member + rest);
    BoundIsTwoToThe67(e.kind, |e.body|, member + rest);
    assert s[|head|..] == member + rest;
    assert ReadsBack(z, e.body, rest);
  }

  /** Reading undoes writing for one object, whatever follows. */
  ghost predicate Undoes(read: Reader, wire: Wiring, e: Entry, rest: bytes) {
    read(wire(e) + rest) == Some(One(e, |wire(e)|))
  }

  ghost predicate UndoesAll(read: Reader, wire: Wiring, es: seq<Entry>) {
    forall i, rest {:trigger Undoes(read, wire, es[i], rest)} :: 0 <= i < |es| ==> Undoes(read, wire, es[i], rest)
  }

  /** Reading as many entries as `es` has gives `es` and stops after `used` bytes. */
  ghost predicate IsReadAs(read: Reader, s: bytes, es: seq<Entry>, used: nat)
    requires IsReader(read)
  {
    ReadEntries(read, s, |es|) == Some(Many(es, used))
  }

  lemma RoundTripStep(read: Reader, first: bytes, wire: bytes, rest: bytes, es: seq<Entry>, e: Entry)
    requires IsReader(read) && read(wire + rest) == Some(One(e, |wire|))
    requires IsReadAs(read, first + (wire + rest), es, |first|)
    ensures IsReadAs(read, first + wire + rest, es + [e], |first + wire|)
  {
    var s := first + (wire + rest);
    assert first + wire + rest == s && s[|first|..] == wire + rest;
    ReadStep(read, s, |es|, es, |first|);
  }

  lemma UndoesFront(read: Reader, wire: Wiring, es: seq<Entry>, n: nat)
    requires n <= |es| && UndoesAll(read, wire, es)
    ensures UndoesAll(read, wire, es[..n])
  {
    forall i, rest | 0 <= i < n ensures Undoes(read, wire, es[..n][i], rest)
    {
      assert Undoes(read, wire, es[i], rest);
    }
  }

  lemma {:induction false} EntriesRoundTrip(read: Reader, wire: Wiring, es: seq<Entry>, rest: bytes)
    requires IsReader(read) && UndoesAll(read, wire, es)
    ensures IsReadAs(read, Wires(wire, es) + rest, es, |Wires(wire, es)|)
  {
    if es != [] {
      var n := |es| - 1;
      var front, e := es[..n], es[n];
      UndoesFront(read, wire, es, n);
      EntriesRoundTrip(read, wire, front, wire(e) + rest);
      assert Undoes(read, wire, es[n], rest);
      RoundTripStep(read, Wires(wire, front), wire(e), rest, front, e);
      assert front + [e] == es;
    }
  }

  lemma BodyParts(wire: Wiring, es: seq<Entry>)
    requires |es| < 0x1_0000_0000
    ensures var body := PackBody(wire, es);
      |body| >= 12 && body[..8] == MAGIC && body[8..12] == Big4(|es|) && body[12..] == Wires(wire, es)
  {
    assert |MAGIC| == 8 && |Big4(|es|)| == 4;
  }

  lemma TrailerParts(body: bytes, trailer: bytes)
    ensures (body + trailer)[..|body + trailer| - |trailer|] == body
    ensures (body + trailer)[|body + trailer| - |trailer|..] == trailer
  {
  }

  lemma AcceptedBody(read: Reader, wire: Wiring, name: Naming, l: Limits, es: seq<Entry>)
    requires IsReader(read) && UndoesAll(read, wire, es) && |es| < 0x1_0000_0000
    requires l.least <= |es| <= l.most && Fits(l.total, Total(es)) && AreDistinct(name, es)
    ensures Accepted(read, name, l, PackBody(wire, es)) == Some(Index(name, es))
  {
    BodyParts(wire, es);
    CountRoundTrip(|es|);
    EntriesRoundTrip(read, wire, es, []);
    assert Wires(wire, es) + [] == Wires(wire, es);
  }

  /** A pack of objects the reader undoes, with distinct names, reads back as exactly those objects. */
  lemma PackRoundTrip(read: Reader, wire: Wiring, name: Naming, h: Hash, l: Limits, es: seq<Entry>)
    requires IsHash(h) && IsReader(read) && UndoesAll(read, wire, es) && |es| < 0x1_0000_0000
    requires l.least <= |es| <= l.most && Fits(l.total, Total(es)) && AreDistinct(name, es)
    ensures Inspected(read, name, h, l, Pack(wire, h, es)) == Some(Index(name, es))
  {
    var body := PackBody(wire, es);
    assert |h.digest(body)| == h.width;
    TrailerParts(body, h.digest(body));
    BodyParts(wire, es);
    AcceptedBody(read, wire, name, l, es);
  }

  // ---- Exactness ----

  /** Reading looks no further than it takes. */
  ghost predicate TakesWhole(read: Reader, s: bytes) {
    read(s).Some? ==> read(s).value.used <= |s| && read(s[..read(s).value.used]) == read(s)
  }

  ghost predicate IsExactReader(read: Reader) {
    forall s {:trigger TakesWhole(read, s)} :: TakesWhole(read, s)
  }

  lemma {:induction false} GroupsArePrefix(s: bytes)
    requires ReadGroups(s).Some?
    ensures ReadGroups(s[..ReadGroups(s).value.used]) == ReadGroups(s)
  {
    var n := ReadGroups(s).value.used;
    if s[0] >= 128 {
      GroupsArePrefix(s[1..]);
      assert s[..n][1..] == s[1..][..n - 1];
    }
  }

  lemma {:induction false} GroupsLookNoFurther(s: bytes, t: bytes)
    requires ReadGroups(s).Some? && s[..ReadGroups(s).value.used] <= t
    ensures ReadGroups(t) == ReadGroups(s)
  {
    var n := ReadGroups(s).value.used;
    assert t[0] == s[..n][0] == s[0];
    if s[0] >= 128 {
      assert s[..n][1..] == s[1..][..n - 1];
      assert s[1..][..n - 1] <= t[1..];
      GroupsLookNoFurther(s[1..], t[1..]);
    }
  }

  lemma HeaderLooksNoFurther(s: bytes, t: bytes)
    requires ReadHeader(s).Some? && s[..ReadHeader(s).value.used] <= t
    ensures ReadHeader(t) == ReadHeader(s)
  {
    var n := ReadHeader(s).value.used;
    assert t[0] == s[..n][0] == s[0];
    if s[0] >= 128 {
      assert s[..n][1..] == s[1..][..n - 1];
      assert s[1..][..n - 1] <= t[1..];
      GroupsLookNoFurther(s[1..], t[1..]);
    }
  }

  lemma EntryLooksNoFurther(z: Zip, l: Limits, s: bytes)
    requires IsZip(z) && ReadEntry(z, l, s).Some?
    ensures ReadEntry(z, l, s).value.used <= |s|
    ensures ReadEntry(z, l, s[..ReadEntry(z, l, s).value.used]) == ReadEntry(z, l, s)
  {
    var n, k := ReadEntry(z, l, s).value.used, ReadBounded(s).value.used;
    var m := z.inflate(s[k..]).value.used;
    var t := s[..n];
    assert s[..k] <= t;
    HeaderLooksNoFurther(s, t);
    assert IsSelfDelimiting(z, s[k..], []);
    assert t[k..] == s[k..][..m] + [];
  }

  /** `pieces` are whole entries, in order, for `es`. */
  ghost predicate ArePieces(read: Reader, pieces: seq<bytes>, es: seq<Entry>) {
    |pieces| == |es| && forall i :: 0 <= i < |es| ==> read(pieces[i]) == Some(One(es[i], |pieces[i]|))
  }

  lemma {:induction false} EntriesArePieces(read: Reader, s: bytes, n: nat) returns (pieces: seq<bytes>)
    requires IsReader(read) && IsExactReader(read) && ReadEntries(read, s, n).Some?
    ensures var r := ReadEntries(read, s, n).value;
      ArePieces(read, pieces, r.entries) && Flatten(pieces) == s[..r.used]
  {
    if n == 0 {
      pieces := [];
    } else {
      var front := EntriesArePieces(read, s, n - 1);
      var before := ReadEntries(read, s, n - 1).value;
      pieces := PieceSnoc(read, s, n - 1, before.entries, before.used, front);
    }
  }

  lemma PieceSnoc(read: Reader, s: bytes, n: nat, es: seq<Entry>, used: nat, front: seq<bytes>)
      returns (pieces: seq<bytes>)
    requires IsReader(read) && IsExactReader(read) && ReadEntries(read, s, n) == Some(Many(es, used))
    requires ArePieces(read, front, es) && Flatten(front) == s[..used] && read(s[used..]).Some?
    ensures var r := ReadEntries(read, s, n + 1);
      r.Some? && ArePieces(read, pieces, r.value.entries) && Flatten(pieces) == s[..r.value.used]
  {
    var rest := s[used..];
    var one := read(rest).value;
    assert TakesWhole(read, rest);
    var piece := rest[..one.used];
    pieces := front + [piece];
    ReadStep(read, s, n, es, used);
    FlattenAppend(front, [piece]);
    assert Flatten([piece]) == piece + Flatten([]) == piece;
    assert s[..used + one.used] == s[..used] + piece;
  }

  /** A body made of the header, whole entries in order, and nothing else. */
  ghost predicate IsExactBody(read: Reader, name: Naming, l: Limits, body: bytes, es: seq<Entry>, pieces: seq<bytes>) {
    && ArePieces(read, pieces, es)
    && l.least <= |es| <= l.most
    && |es| < 0x1_0000_0000
    && body == MAGIC + Big4(|es|) + Flatten(pieces)
    && AreDistinct(name, es)
    && Fits(l.total, Total(es))
  }

  lemma BodyIsExact(read: Reader, name: Naming, l: Limits, body: bytes) returns (es: seq<Entry>, pieces: seq<bytes>)
    requires IsReader(read) && IsExactReader(read) && Accepted(read, name, l, body).Some?
    ensures IsExactBody(read, name, l, body, es, pieces)
    ensures Accepted(read, name, l, body) == Some(Index(name, es))
  {
    var count := BigEndian4(body[8..12]);
    var r := ReadEntries(read, body[12..], count).value;
    es := r.entries;
    pieces := EntriesArePieces(read, body[12..], count);
    CountIsExact(body[8..12]);
    InThree(body);
  }

  lemma InThree(body: bytes)
    requires |body| >= 12
    ensures body == body[..8] + body[8..12] + body[12..] && body[12..][..|body| - 12] == body[12..]
  {
  }

  /** Every accepted pack is header, whole entries and digest, with no byte between or after. */
  lemma PackIsExact(read: Reader, name: Naming, h: Hash, l: Limits, packed: bytes)
      returns (body: bytes, es: seq<Entry>, pieces: seq<bytes>)
    requires IsHash(h) && IsReader(read) && IsExactReader(read) && Inspected(read, name, h, l, packed).Some?
    ensures packed == body + h.digest(body)
    ensures IsExactBody(read, name, l, body, es, pieces)
    ensures Inspected(read, name, h, l, packed) == Some(Index(name, es))
  {
    SealedSplits(h, packed);
    body := Sealed(h, packed).value;
    es, pieces := BodyIsExact(read, name, l, body);
  }

  lemma SealedSplits(h: Hash, packed: bytes)
    requires Sealed(h, packed).Some?
    ensures var body := Sealed(h, packed).value; packed == body + h.digest(body)
  {
  }

  /** The reader takes only entries of the allowed kinds and sizes. */
  ghost predicate IsFitReader(read: Reader, l: Limits) {
    forall s :: read(s).Some? ==> IsFit(read(s).value.entry, l)
  }

  predicate IsFit(e: Entry, l: Limits) {
    e.kind in l.kinds && (l.size.Some? ==> |e.body| <= l.size.value)
  }

  lemma EntryIsFit(z: Zip, l: Limits)
    ensures IsFitReader(s => ReadEntry(z, l, s), l)
  {
  }

  lemma {:induction false} EntriesAreFit(read: Reader, l: Limits, s: bytes, n: nat, i: nat)
    requires IsReader(read) && IsFitReader(read, l) && ReadEntries(read, s, n).Some? && i < n
    ensures IsFit(ReadEntries(read, s, n).value.entries[i], l)
  {
    if i < n - 1 { EntriesAreFit(read, l, s, n - 1, i); }
  }

  /** What is accepted holds as many entries as allowed, each of an allowed kind and size, within the total. */
  lemma AcceptedIsFit(read: Reader, name: Naming, h: Hash, l: Limits, packed: bytes) returns (es: seq<Entry>)
    requires IsReader(read) && IsFitReader(read, l) && Inspected(read, name, h, l, packed).Some?
    ensures Inspected(read, name, h, l, packed).value == Index(name, es)
    ensures l.least <= |es| <= l.most && (l.total.Some? ==> Total(es) <= l.total.value)
    ensures forall i :: 0 <= i < |es| ==> IsFit(es[i], l)
  {
    var body := Sealed(h, packed).value;
    var count := BigEndian4(body[8..12]);
    es := ReadEntries(read, body[12..], count).value.entries;
    forall i | 0 <= i < |es| ensures IsFit(es[i], l) {
      EntriesAreFit(read, l, body[12..], count, i);
    }
  }

  /** What a merge preparation accepts: 1 to 10000 objects of the four plain kinds, together at most 32 MiB. */
  lemma PreparationIsBounded(read: Reader, name: Naming, h: Hash, packed: bytes) returns (es: seq<Entry>)
    requires IsReader(read) && IsFitReader(read, PREPARATION) && Inspected(read, name, h, PREPARATION, packed).Some?
    ensures Inspected(read, name, h, PREPARATION, packed).value == Index(name, es)
    ensures 1 <= |es| <= 10000 && Total(es) <= 32 * 1024 * 1024
    ensures forall i :: 0 <= i < |es| ==> 1 <= es[i].kind <= 4 && |es[i].body| <= 32 * 1024 * 1024
  {
    es := AcceptedIsFit(read, name, h, PREPARATION, packed);
    forall i | 0 <= i < |es| ensures 1 <= es[i].kind <= 4 && |es[i].body| <= 32 * 1024 * 1024 {
      assert IsFit(es[i], PREPARATION);
    }
  }
}
