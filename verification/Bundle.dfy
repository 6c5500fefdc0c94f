/**
 * Review bundles: a text header, a blank line and a pack
 * (gitformat-bundle(5); scripts/e2e/merge_preparation_smoke.py:78-126).
 */
module Bundle {
  import opened Bytes
  import opened SizeHeader
  import opened Zip
  import opened PackFile
  import opened PackLaws

  datatype Algorithm = Sha1 | Sha256

  const TARGET: bytes := Ascii("refs/heads/main")

  const MEBIBYTES_40 := 40 * 1024 * 1024

  /** The start of the first blank line: two line ends in a row. */
  function FindBlank(s: bytes): (k: Option<nat>)
    ensures k.Some? ==> k.value + 2 <= |s| && s[k.value] == s[k.value + 1] == 10
  {
    if |s| < 2 then None
    else if s[0] == s[1] == 10 then Some(0)
    else
      var k := FindBlank(s[1..]);
      if k == None then None else Some(k.value + 1)
  }

  function Signature(a: Algorithm): seq<bytes> {
    if a == Sha1 then [Ascii("# v2 git bundle")] else [Ascii("# v3 git bundle"), Ascii("@object-format=sha256")]
  }

  /** A prerequisite line. */
  function Needs(id: bytes, role: string): bytes {
    Ascii("-") + id + Ascii(role)
  }

  /** The header lines: signature, the two prerequisites, and the candidate under its ref. */
  function Lines(a: Algorithm, target: bytes, source: bytes, candidate: Id): seq<bytes> {
    Signature(a) + [Needs(target, " target"), Needs(source, " source"), candidate + [32] + TARGET]
  }

  function BundleBytes(a: Algorithm, target: bytes, source: bytes, candidate: Id, packed: bytes): bytes {
    Join(Lines(a, target, source, candidate), 10) + [10, 10] + packed
  }

  datatype Inspection = Inspection(candidate: Id, objects: map<Id, Entry>)

  predicate IsAscii(s: bytes) {
    forall i :: 0 <= i < |s| ==> s[i] < 128
  }

  /** The identity on the candidate line, before its first space. */
  function CandidateOn(line: bytes): Option<Id> {
    var k := Find(line, 32);
    if k == |line| || line[k + 1..] != TARGET || !IsAscii(line[..k]) then None else Some(line[..k])
  }

  /** The candidate a header advertises, when every line is as prescribed. */
  function Advertised(a: Algorithm, target: bytes, source: bytes, header: bytes): Option<Id> {
    var lines, p := Split(header, 10), |Signature(a)|;
    if |lines| != p + 3 || lines[..p] != Signature(a) then None
    else if lines[p] != Needs(target, " target") || lines[p + 1] != Needs(source, " source") then None
    else CandidateOn(lines[p + 2])
  }

  /** The candidate must be one of the packed commits, as wide as its digest prints. */
  function Concluded(candidate: Option<Id>, objects: Option<map<Id, Entry>>, width: nat): Option<Inspection> {
    if candidate == None || objects == None then None
    else if candidate.value !in objects.value || objects.value[candidate.value].kind != 1 then None
    else if |candidate.value| != 2 * width then None
    else Some(Inspection(candidate.value, objects.value))
  }

  ghost function Inspect(read: Reader, name: Naming, h: Hash, a: Algorithm, target: bytes, source: bytes, data: bytes)
      : Option<Inspection>
    requires IsReader(read)
  {
    var k := FindBlank(data);
    if |data| > MEBIBYTES_40 || k == None then None
    else
      Concluded(Advertised(a, target, source, data[..k.value]),
                Inspected(read, name, h, PREPARATION, data[k.value + 2..]), h.width)
  }

  method InspectBundle(read: Reader, name: Naming, h: Hash, a: Algorithm, target: bytes, source: bytes, data: bytes)
      returns (r: Option<Inspection>)
    requires IsReader(read)
    ensures r == Inspect(read, name, h, a, target, source, data)
  {
    var k := FindBlank(data);
    if |data| > MEBIBYTES_40 || k == None { return None; }
    var candidate := Advertised(a, target, source, data[..k.value]);
    if candidate == None { return None; }
    var objects := InspectPack(read, name, h, PREPARATION, data[k.value + 2..]);
    r := Concluded(candidate, objects, h.width);
  }

  // ---- The header reads back ----

  ghost predicate IsLine(s: bytes) {
    s != [] && 10 !in s
  }

  ghost predicate AreLines(lines: seq<bytes>) {
    forall i :: 0 <= i < |lines| ==> IsLine(lines[i])
  }

  lemma {:induction false} FirstBlank(s: bytes, rest: bytes)
    requires s != [] && s[|s| - 1] != 10
    requires forall i :: 0 <= i < |s| - 1 ==> s[i] != 10 || s[i + 1] != 10
    ensures FindBlank(s + [10, 10] + rest) == Some(|s|)
  {
    var t := s + [10, 10] + rest;
    if |s| == 1 {
      assert t[1..] == [10, 10] + rest;
    } else {
      assert t[1..] == s[1..] + [10, 10] + rest;
      assert t[0] == s[0] && t[1] == s[1];
      FirstBlank(s[1..], rest);
    }
  }

  /** Lines joined have no blank line inside and do not end in a line end. */
  ghost predicate IsSolid(s: bytes) {
    s != [] && s[0] != 10 && s[|s| - 1] != 10 && forall i :: 0 <= i < |s| - 1 ==> s[i] != 10 || s[i + 1] != 10
  }

  lemma SolidJoin(a: bytes, b: bytes)
    requires IsLine(a) && IsSolid(b)
    ensures IsSolid(a + [10] + b)
  {
    var s := a + [10] + b;
    assert forall i :: 0 <= i < |a| ==> s[i] == a[i] && a[i] in a;
    assert forall i :: 0 <= i < |b| ==> s[|a| + 1 + i] == b[i];
    forall i | 0 <= i < |s| - 1 ensures s[i] != 10 || s[i + 1] != 10
    {
      if i > |a| { assert s[i] == b[i - |a| - 1] && s[i + 1] == b[i - |a|]; }
    }
  }

  lemma {:induction false} JoinIsSolid(lines: seq<bytes>)
    requires lines != [] && AreLines(lines)
    ensures IsSolid(Join(lines, 10))
  {
    if |lines| == 1 {
      assert IsLine(lines[0]);
    } else {
      assert IsLine(lines[0]);
      assert AreLines(lines[1..]) by {
        forall i | 0 <= i < |lines[1..]| ensures IsLine(lines[1..][i]) { assert IsLine(lines[i + 1]); }
      }
      JoinIsSolid(lines[1..]);
      SolidJoin(lines[0], Join(lines[1..], 10));
    }
  }

  /** An identity as the header prints it: no space, no line end, ASCII. */
  ghost predicate IsPlain(s: bytes) {
    forall i :: 0 <= i < |s| ==> s[i] < 128 && s[i] != 10 && s[i] != 32
  }

  lemma SignatureIsLines(a: Algorithm)
    ensures AreLines(Signature(a)) && IsPlain(TARGET) && IsLine(Ascii(" target")) && IsLine(Ascii(" source"))
  {
    forall i | 0 <= i < |Ascii("# v2 git bundle")| ensures Ascii("# v2 git bundle")[i] != 10 {}
    forall i | 0 <= i < |Ascii("# v3 git bundle")| ensures Ascii("# v3 git bundle")[i] != 10 {}
    forall i | 0 <= i < |Ascii("@object-format=sha256")| ensures Ascii("@object-format=sha256")[i] != 10 {}
  }

  lemma HeaderIsLines(a: Algorithm, target: bytes, source: bytes, candidate: Id)
    requires 10 !in target && 10 !in source && IsPlain(candidate)
    ensures AreLines(Lines(a, target, source, candidate))
  {
    SignatureIsLines(a);
    var last := candidate + [32] + TARGET;
    assert 10 !in last;
    var lines, p := Lines(a, target, source, candidate), |Signature(a)|;
    forall i | 0 <= i < |lines| ensures IsLine(lines[i])
    {
      if i < p { assert lines[i] == Signature(a)[i]; }
    }
  }

  lemma CandidateRoundTrip(candidate: Id)
    requires IsPlain(candidate)
    ensures CandidateOn(candidate + [32] + TARGET) == Some(candidate)
  {
    var t, n := candidate + [32] + TARGET, |candidate|;
    FindAfter(candidate, 32, TARGET);
    assert t[..n] == candidate && t[n + 1..] == TARGET;
  }

  lemma CandidateIsExact(line: bytes)
    requires CandidateOn(line).Some?
    ensures line == CandidateOn(line).value + [32] + TARGET
  {
  }

  lemma HeaderRoundTrip(a: Algorithm, target: bytes, source: bytes, candidate: Id)
    requires 10 !in target && 10 !in source && IsPlain(candidate)
    ensures Advertised(a, target, source, Join(Lines(a, target, source, candidate), 10)) == Some(candidate)
  {
    var lines, p := Lines(a, target, source, candidate), |Signature(a)|;
    HeaderIsLines(a, target, source, candidate);
    forall i | 0 <= i < |lines| ensures 10 !in lines[i] { assert IsLine(lines[i]); }
    SplitJoin(lines, 10);
    CandidateRoundTrip(candidate);
    assert lines[..p] == Signature(a);
  }

  /** Exactly the prescribed lines advertise a candidate. */
  lemma AdvertisedIsExact(a: Algorithm, target: bytes, source: bytes, header: bytes)
    requires Advertised(a, target, source, header).Some?
    ensures header == Join(Lines(a, target, source, Advertised(a, target, source, header).value), 10)
  {
    var lines, p := Split(header, 10), |Signature(a)|;
    JoinSplit(header, 10);
    CandidateIsExact(lines[p + 2]);
    LastThree(lines, p);
  }

  lemma LastThree(lines: seq<bytes>, p: nat)
    requires |lines| == p + 3
    ensures lines == lines[..p] + [lines[p], lines[p + 1], lines[p + 2]]
  {
  }

  // ---- The whole bundle ----

  /**
   * A bundle written from takeable objects with distinct names, one of them the
   * candidate commit, inspects as exactly that candidate and those objects.
   */
  lemma BundleRoundTrip(read: Reader, wire: Wiring, name: Naming, h: Hash, a: Algorithm, target: bytes, source: bytes,
                        es: seq<Entry>, c: nat)
    requires IsHash(h) && IsReader(read) && UndoesAll(read, wire, es)
    requires 1 <= |es| <= 10000 && Total(es) <= MEBIBYTES_32 && AreDistinct(name, es)
    requires c < |es| && es[c].kind == 1 && IsPlain(name(es[c])) && |name(es[c])| == 2 * h.width
    requires 10 !in target && 10 !in source
    requires |BundleBytes(a, target, source, name(es[c]), Pack(wire, h, es))| <= MEBIBYTES_40
    ensures Inspect(read, name, h, a, target, source, BundleBytes(a, target, source, name(es[c]), Pack(wire, h, es))) ==
            Some(Inspection(name(es[c]), Index(name, es)))
  {
    var candidate, packed := name(es[c]), Pack(wire, h, es);
    HeaderEnds(a, target, source, candidate, packed);
    HeaderRoundTrip(a, target, source, candidate);
    PackRoundTrip(read, wire, name, h, PREPARATION, es);
    IndexHolds(name, es, c);
    InspectSplit(read, name, h, a, target, source, BundleBytes(a, target, source, candidate, packed),
                 |Join(Lines(a, target, source, candidate), 10)|);
  }

  lemma HeaderEnds(a: Algorithm, target: bytes, source: bytes, candidate: Id, packed: bytes)
    requires 10 !in target && 10 !in source && IsPlain(candidate)
    ensures var header, data := Join(Lines(a, target, source, candidate), 10),
                                BundleBytes(a, target, source, candidate, packed);
      FindBlank(data) == Some(|header|) && data[..|header|] == header && data[|header| + 2..] == packed
  {
    HeaderIsLines(a, target, source, candidate);
    JoinIsSolid(Lines(a, target, source, candidate));
    FirstBlank(Join(Lines(a, target, source, candidate), 10), packed);
  }

  lemma InspectSplit(read: Reader, name: Naming, h: Hash, a: Algorithm, target: bytes, source: bytes, data: bytes, k: nat)
    requires IsReader(read) && |data| <= MEBIBYTES_40 && FindBlank(data) == Some(k)
    ensures Inspect(read, name, h, a, target, source, data) ==
            Concluded(Advertised(a, target, source, data[..k]), Inspected(read, name, h, PREPARATION, data[k + 2..]),
                      h.width)
  {
  }

  lemma {:induction false} IndexHolds(name: Naming, es: seq<Entry>, c: nat)
    requires AreDistinct(name, es) && c < |es|
    ensures name(es[c]) in Index(name, es) && Index(name, es)[name(es[c])] == es[c]
  {
    var n := |es| - 1;
    if c < n {
      IndexHolds(name, es[..n], c);
      assert es[..n][c] == es[c];
    }
  }

  lemma InspectParts(read: Reader, name: Naming, h: Hash, a: Algorithm, target: bytes, source: bytes, data: bytes)
      returns (k: nat, candidate: Id, objects: map<Id, Entry>)
    requires IsReader(read) && Inspect(read, name, h, a, target, source, data).Some?
    ensures FindBlank(data) == Some(k)
    ensures Advertised(a, target, source, data[..k]) == Some(candidate)
    ensures Inspected(read, name, h, PREPARATION, data[k + 2..]) == Some(objects)
    ensures Inspect(read, name, h, a, target, source, data) == Some(Inspection(candidate, objects))
    ensures candidate in objects && objects[candidate].kind == 1 && |candidate| == 2 * h.width
    ensures |data| <= 40 * 1024 * 1024 && forall i :: 0 <= i < |candidate| ==> candidate[i] < 128
  {
    k := FindBlank(data).value;
    candidate := Advertised(a, target, source, data[..k]).value;
    objects := Inspected(read, name, h, PREPARATION, data[k + 2..]).value;
  }

  lemma BlankSplits(data: bytes, k: nat)
    requires FindBlank(data) == Some(k)
    ensures data == data[..k] + [10, 10] + data[k + 2..]
  {
  }

  /** What an accepted bundle is: a prescribed header, a blank line, and an exact pack of its objects. */
  ghost predicate IsExactBundle(read: Reader, name: Naming, h: Hash, a: Algorithm, target: bytes, source: bytes,
                                data: bytes, r: Inspection, body: bytes, es: seq<Entry>, pieces: seq<bytes>) {
    && data == BundleBytes(a, target, source, r.candidate, body + h.digest(body))
    && r.objects == Index(name, es)
    && r.candidate in r.objects
    && r.objects[r.candidate].kind == 1
    && IsExactBody(read, name, PREPARATION, body, es, pieces)
  }

  lemma BundleIsExact(read: Reader, name: Naming, h: Hash, a: Algorithm, target: bytes, source: bytes, data: bytes)
      returns (body: bytes, es: seq<Entry>, pieces: seq<bytes>)
    requires IsHash(h) && IsReader(read) && IsExactReader(read) && Inspect(read, name, h, a, target, source, data).Some?
    ensures IsExactBundle(read, name, h, a, target, source, data,
                          Inspect(read, name, h, a, target, source, data).value, body, es, pieces)
  {
    var k, candidate, objects := InspectParts(read, name, h, a, target, source, data);
    AdvertisedIsExact(a, target, source, data[..k]);
    body, es, pieces := PackIsExact(read, name, h, PREPARATION, data[k + 2..]);
    BlankSplits(data, k);
  }

  // ---- The real identities ----

  lemma {:induction false} HexIsPlain(s: bytes)
    ensures IsPlain(Hex(s))
  {
    if s != [] { HexIsPlain(s[1..]); }
  }

  /** Real object names are printable and twice as wide as the digest. */
  lemma RealNames(h: Hash, e: Entry)
    requires IsHash(h)
    ensures IsPlain(IdOf(h, e)) && |IdOf(h, e)| == 2 * h.width
  {
    HexIsPlain(h.digest(KindName(e.kind) + Ascii(" ") + Decimal(|e.body|) + [0] + e.body));
  }

  function RealReader(z: Zip): Reader {
    s => ReadEntry(z, PREPARATION, s)
  }

  /** Over any self-delimiting compression, the reader undoes every takeable object and looks no further. */
  lemma RealReading(z: Zip, es: seq<Entry>)
    requires IsZip(z) && forall i :: 0 <= i < |es| ==> IsTakeable(PREPARATION, es[i])
    ensures IsReader(RealReader(z)) && IsExactReader(RealReader(z)) && UndoesAll(RealReader(z), WireOf(z), es)
  {
    EntryReader(z, PREPARATION);
    RealIsExact(z);
    forall i, rest | 0 <= i < |es| ensures Undoes(RealReader(z), WireOf(z), es[i], rest)
    {
      EntryRoundTrip(z, PREPARATION, es[i], rest);
    }
  }

  lemma RealIsExact(z: Zip)
    requires IsZip(z)
    ensures IsExactReader(RealReader(z))
  {
    forall s ensures TakesWhole(RealReader(z), s)
    {
      if ReadEntry(z, PREPARATION, s).Some? { EntryLooksNoFurther(z, PREPARATION, s); }
    }
  }

  function RealNaming(h: Hash): Naming {
    e => IdOf(h, e)
  }

  lemma {:induction false} PartOfTotal(es: seq<Entry>, i: nat)
    requires i < |es|
    ensures |es[i].body| <= Total(es)
  {
    var n := |es| - 1;
    if i < n {
      PartOfTotal(es[..n], i);
      assert es[..n][i] == es[i];
    }
  }

  lemma {:induction false} Pow2Grows(m: nat, n: nat)
    requires m <= n
    ensures Pow2(m) <= Pow2(n)
    decreases n
  {
    if m < n { Pow2Grows(m, n - 1); }
  }

  lemma InBoundsIsTakeable(es: seq<Entry>, i: nat)
    requires i < |es| && 1 <= es[i].kind <= 4 && Total(es) <= MEBIBYTES_32
    ensures IsTakeable(PREPARATION, es[i])
  {
    PartOfTotal(es, i);
    BoundBelowPow2();
  }

  lemma BoundBelowPow2()
    ensures MEBIBYTES_32 < Pow2(67)
  {
    Pow2Seven(0);
    Pow2Seven(7);
    Pow2Seven(14);
    Pow2Seven(21);
    Pow2Grows(28, 67);
  }

  /** What a writer may put in a bundle: commits, trees, blobs and tags, in bounds, no two of one name. */
  ghost predicate IsWritable(h: Hash, es: seq<Entry>) {
    && 1 <= |es| <= 10000 && Total(es) <= MEBIBYTES_32
    && (forall i :: 0 <= i < |es| ==> 1 <= es[i].kind <= 4)
    && forall i, j :: 0 <= i < j < |es| ==> IdOf(h, es[i]) != IdOf(h, es[j])
  }

  lemma WritableIsDistinct(h: Hash, es: seq<Entry>)
    requires IsWritable(h, es)
    ensures AreDistinct(RealNaming(h), es)
  {
    DistinctIff(RealNaming(h), es);
  }

  /**
   * The whole round trip with real names, real entries and any compression: a
   * written bundle inspects as exactly its candidate and objects.
   */
  lemma WrittenBundleIsInspected(z: Zip, h: Hash, a: Algorithm, target: bytes, source: bytes, es: seq<Entry>, c: nat)
    requires IsZip(z) && IsHash(h) && IsWritable(h, es) && c < |es| && es[c].kind == 1
    requires 10 !in target && 10 !in source
    requires |BundleBytes(a, target, source, IdOf(h, es[c]), Pack(WireOf(z), h, es))| <= MEBIBYTES_40
    ensures IsReader(RealReader(z))
    ensures Inspect(RealReader(z), RealNaming(h), h, a, target, source,
                    BundleBytes(a, target, source, IdOf(h, es[c]), Pack(WireOf(z), h, es))) ==
            Some(Inspection(IdOf(h, es[c]), Index(RealNaming(h), es)))
  {
    forall i | 0 <= i < |es| ensures IsTakeable(PREPARATION, es[i]) { InBoundsIsTakeable(es, i); }
    RealReading(z, es);
    WritableIsDistinct(h, es);
    RealNames(h, es[c]);
    BundleRoundTrip(RealReader(z), WireOf(z), RealNaming(h), h, a, target, source, es, c);
  }

  /** And every bundle the real reader accepts is the prescribed header over an exact pack of its objects. */
  lemma AcceptedBundleIsExact(z: Zip, h: Hash, a: Algorithm, target: bytes, source: bytes, data: bytes)
      returns (body: bytes, es: seq<Entry>, pieces: seq<bytes>)
    requires IsZip(z) && IsHash(h)
    requires IsReader(RealReader(z)) && Inspect(RealReader(z), RealNaming(h), h, a, target, source, data).Some?
    ensures IsExactBundle(RealReader(z), RealNaming(h), h, a, target, source, data,
                          Inspect(RealReader(z), RealNaming(h), h, a, target, source, data).value, body, es, pieces)
  {
    RealIsExact(z);
    body, es, pieces := BundleIsExact(RealReader(z), RealNaming(h), h, a, target, source, data);
  }
}
