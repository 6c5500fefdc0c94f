/**
 * Canonical bytes tell batches apart: no two batches share an encoding, so a
 * batch's digest is a digest of its content
 * (crates/fgit-codec/src/writer.rs:60-285, schema.rs:298-366).
 */
module BatchReading {
  import opened Bytes
  import opened BatchCodec

  // Each lemma reads one component off the front of two equal byte strings.

  function Power(width: nat): nat {
    if width == 0 then 1 else 256 * Power(width - 1)
  }

  lemma {:induction false} ScalarSplits(width: nat, n: nat, m: nat, s: bytes, t: bytes)
    requires n < Power(width) && m < Power(width) && Scalar(width, n) + s == Scalar(width, m) + t
    ensures n == m && s == t
  {
    if width == 0 {
      assert Scalar(0, n) + s == s && Scalar(0, m) + t == t;
    } else {
      assert Scalar(width, n) + s == Scalar(width - 1, n / 256) + ([n % 256] + s);
      assert Scalar(width, m) + t == Scalar(width - 1, m / 256) + ([m % 256] + t);
      ScalarSplits(width - 1, n / 256, m / 256, [n % 256] + s, [m % 256] + t);
      assert ([n % 256] + s)[0] == ([m % 256] + t)[0];
      assert ([n % 256] + s)[1..] == s && ([m % 256] + t)[1..] == t;
    }
  }

  lemma Powers()
    ensures Power(2) == 0x1_0000 && Power(4) == 0x1_0000_0000 && Power(8) == 0x1_0000_0000_0000_0000
  {
    assert Power(4) == 256 * (256 * Power(2));
    assert Power(8) == 256 * (256 * (256 * (256 * Power(4))));
  }

  lemma ShortSplits(n: Short, m: Short, s: bytes, t: bytes)
    requires Scalar(2, n) + s == Scalar(2, m) + t
    ensures n == m && s == t
  {
    Powers();
    ScalarSplits(2, n, m, s, t);
  }

  lemma LongSplits(n: Long, m: Long, s: bytes, t: bytes)
    requires Scalar(8, n) + s == Scalar(8, m) + t
    ensures n == m && s == t
  {
    Powers();
    ScalarSplits(8, n, m, s, t);
  }

  lemma EqualSplits(a: bytes, b: bytes, s: bytes, t: bytes)
    requires |a| == |b| && a + s == b + t
    ensures a == b && s == t
  {
    assert (a + s)[..|a|] == a && (b + t)[..|b|] == b;
    assert (a + s)[|a|..] == s && (b + t)[|b|..] == t;
  }

  // Regrouping, on byte strings that nothing else is known of.

  lemma Regroup2(a: bytes, b: bytes, s: bytes)
    ensures (a + b) + s == a + (b + s)
  {
  }

  lemma Regroup3(a: bytes, b: bytes, c: bytes, s: bytes)
    ensures (a + b + c) + s == a + (b + (c + s))
  {
    Regroup2(a + b, c, s);
    Regroup2(a, b, c + s);
  }

  lemma Regroup8(a: bytes, b: bytes, c: bytes, d: bytes, e: bytes, f: bytes, g: bytes, h: bytes, s: bytes)
    ensures (a + b + c + d + e + f + g + h) + s == a + (b + (c + (d + (e + (f + (g + (h + s)))))))
  {
    Regroup3(a + b + c + d + e + f, g, h, s);
    Regroup3(a + b + c + d, e, f, g + (h + s));
    Regroup3(a + b, c, d, e + (f + (g + (h + s))));
    Regroup2(a, b, c + (d + (e + (f + (g + (h + s))))));
  }

  lemma CountedSplits(a: bytes, b: bytes, s: bytes, t: bytes)
    requires |a| <= LAST_LENGTH && |b| <= LAST_LENGTH && Counted(a) + s == Counted(b) + t
    ensures a == b && s == t
  {
    Regroup2(Scalar(4, |a|), a, s);
    Regroup2(Scalar(4, |b|), b, t);
    Powers();
    ScalarSplits(4, |a|, |b|, a + s, b + t);
    EqualSplits(a, b, s, t);
  }

  lemma DigestSplits(a: Digest, b: Digest, s: bytes, t: bytes)
    requires OfDigest(a) + s == OfDigest(b) + t
    ensures a == b && s == t
  {
    Regroup2(Scalar(2, a.algorithm), Counted(a.body), s);
    Regroup2(Scalar(2, b.algorithm), Counted(b.body), t);
    ShortSplits(a.algorithm, b.algorithm, Counted(a.body) + s, Counted(b.body) + t);
    CountedSplits(a.body, b.body, s, t);
  }

  /** What follows the domain of an identity. */
  function Tail(i: ObjectId): bytes {
    Scalar(2, i.major) + (Scalar(2, i.minor) + Counted(i.body))
  }

  lemma TailIsOpen(i: ObjectId, s: bytes)
    ensures Tail(i) + s == Scalar(2, i.major) + (Scalar(2, i.minor) + (Counted(i.body) + s))
  {
    Regroup2(Scalar(2, i.major), Scalar(2, i.minor) + Counted(i.body), s);
    Regroup2(Scalar(2, i.minor), Counted(i.body), s);
  }

  lemma TailSplits(a: ObjectId, b: ObjectId, s: bytes, t: bytes)
    requires Tail(a) + s == Tail(b) + t
    ensures a.major == b.major && a.minor == b.minor && a.body == b.body && s == t
  {
    var x, y := Counted(a.body) + s, Counted(b.body) + t;
    TailIsOpen(a, s);
    TailIsOpen(b, t);
    ShortSplits(a.major, b.major, Scalar(2, a.minor) + x, Scalar(2, b.minor) + y);
    ShortSplits(a.minor, b.minor, x, y);
    CountedSplits(a.body, b.body, s, t);
  }

  lemma IdIsTail(i: ObjectId, s: bytes)
    ensures OfId(i) + s == Scalar(2, i.algorithm) + (Counted(i.domain) + (Tail(i) + s))
  {
    var front, body := Scalar(2, i.algorithm) + Counted(i.domain), Counted(i.body);
    Regroup3(front, Scalar(2, i.major), Scalar(2, i.minor), body);
    Regroup2(front, Tail(i), s);
    Regroup2(Scalar(2, i.algorithm), Counted(i.domain), Tail(i) + s);
  }

  lemma IdSplits(a: ObjectId, b: ObjectId, s: bytes, t: bytes)
    requires OfId(a) + s == OfId(b) + t
    ensures a == b && s == t
  {
    var x, y := Tail(a) + s, Tail(b) + t;
    IdIsTail(a, s);
    IdIsTail(b, t);
    ShortSplits(a.algorithm, b.algorithm, Counted(a.domain) + x, Counted(b.domain) + y);
    CountedSplits(a.domain, b.domain, x, y);
    TailSplits(a, b, s, t);
  }

  lemma TagSplits(g: byte, h: byte, s: bytes, t: bytes)
    requires [g] + s == [h] + t
    ensures g == h && s == t
  {
    assert ([g] + s)[0] == ([h] + t)[0];
    assert ([g] + s)[1..] == s && ([h] + t)[1..] == t;
  }

  /** An outcome after its tag. */
  function Content(o: Outcome, s: bytes): bytes {
    match o
    case Committed(commit) => OfId(commit) + s
    case Refused(code, record) => Scalar(2, code) + (OfId(record) + s)
  }

  lemma OutcomeIsTagged(o: Outcome, s: bytes)
    ensures OfOutcome(o) + s == [if o.Committed? then 1 else 2] + Content(o, s)
  {
    match o
    case Committed(commit) => Regroup2([1], OfId(commit), s);
    case Refused(code, record) => Regroup3([2], Scalar(2, code), OfId(record), s);
  }

  lemma OutcomeSplits(a: Outcome, b: Outcome, s: bytes, t: bytes)
    requires OfOutcome(a) + s == OfOutcome(b) + t
    ensures a == b && s == t
  {
    OutcomeIsTagged(a, s);
    OutcomeIsTagged(b, t);
    TagSplits(if a.Committed? then 1 else 2, if b.Committed? then 1 else 2, Content(a, s), Content(b, t));
    if a.Committed? {
      IdSplits(a.commit, b.commit, s, t);
    } else {
      ShortSplits(a.code, b.code, OfId(a.record) + s, OfId(b.record) + t);
      IdSplits(a.record, b.record, s, t);
    }
  }

  lemma DecisionSplits(a: DecisionBody, b: DecisionBody, s: bytes, t: bytes)
    requires OfDecision(a) + s == OfDecision(b) + t
    ensures a == b && s == t
  {
    var x, y := OfOutcome(a.outcome) + s, OfOutcome(b.outcome) + t;
    Regroup3(OfId(a.tx), Scalar(8, a.sequence), OfOutcome(a.outcome), s);
    Regroup3(OfId(b.tx), Scalar(8, b.sequence), OfOutcome(b.outcome), t);
    IdSplits(a.tx, b.tx, Scalar(8, a.sequence) + x, Scalar(8, b.sequence) + y);
    LongSplits(a.sequence, b.sequence, x, y);
    OutcomeSplits(a.outcome, b.outcome, s, t);
  }

  // ---- Lists ----

  ghost predicate SplitsAt<T(!new)>(of: T -> bytes, x: T, y: T, s: bytes, t: bytes) {
    of(x) + s == of(y) + t ==> x == y && s == t
  }

  ghost predicate Splits<T(!new)>(of: T -> bytes) {
    forall x, y, s, t :: SplitsAt(of, x, y, s, t)
  }

  /** `all` writes the elements one after another. */
  ghost predicate IsListing<T(!new)>(of: T -> bytes, all: seq<T> -> bytes) {
    all([]) == [] && forall xs :: xs != [] ==> all(xs) == all(xs[..|xs| - 1]) + of(xs[|xs| - 1])
  }

  lemma {:induction false} ListSplits<T(!new)>(of: T -> bytes, all: seq<T> -> bytes, a: seq<T>, b: seq<T>, s: bytes, t: bytes)
    requires Splits(of) && IsListing(of, all) && |a| == |b| && all(a) + s == all(b) + t
    ensures a == b && s == t
  {
    if a == [] {
      assert [] + s == s && [] + t == t;
    } else {
      var n := |a| - 1;
      Regroup2(all(a[..n]), of(a[n]), s);
      Regroup2(all(b[..n]), of(b[n]), t);
      ListSplits(of, all, a[..n], b[..n], of(a[n]) + s, of(b[n]) + t);
      assert SplitsAt(of, a[n], b[n], s, t);
      assert a == a[..n] + [a[n]] && b == b[..n] + [b[n]];
    }
  }

  lemma DigestsSplit(a: seq<Digest>, b: seq<Digest>, s: bytes, t: bytes)
    requires |a| == |b| && OfDigests(a) + s == OfDigests(b) + t
    ensures a == b && s == t
  {
    assert Splits(OfDigest) by {
      forall x, y, u, v ensures SplitsAt(OfDigest, x, y, u, v) {
        if OfDigest(x) + u == OfDigest(y) + v { DigestSplits(x, y, u, v); }
      }
    }
    ListSplits(OfDigest, OfDigests, a, b, s, t);
  }

  lemma DecisionsSplit(a: seq<DecisionBody>, b: seq<DecisionBody>, s: bytes, t: bytes)
    requires |a| == |b| && OfDecisions(a) + s == OfDecisions(b) + t
    ensures a == b && s == t
  {
    assert Splits(OfDecision) by {
      forall x, y, u, v ensures SplitsAt(OfDecision, x, y, u, v) {
        if OfDecision(x) + u == OfDecision(y) + v { DecisionSplits(x, y, u, v); }
      }
    }
    ListSplits(OfDecision, OfDecisions, a, b, s, t);
  }

  // ---- Records ----

  function OfParent(p: Option<ObjectId>): bytes {
    if p == None then [0] else [1] + OfId(p.value)
  }

  lemma ParentSplits(a: Option<ObjectId>, b: Option<ObjectId>, s: bytes, t: bytes)
    requires OfParent(a) + s == OfParent(b) + t
    ensures a == b && s == t
  {
    if a.Some? { Regroup2([1], OfId(a.value), s); }
    if b.Some? { Regroup2([1], OfId(b.value), t); }
    TagSplits(if a.Some? then 1 else 0, if b.Some? then 1 else 0,
              if a.Some? then OfId(a.value) + s else s, if b.Some? then OfId(b.value) + t else t);
    if a.Some? { IdSplits(a.value, b.value, s, t); }
  }

  /** A record after its parent, before `s`. */
  function Inside(r: RecordBody, s: bytes): bytes {
    OfId(r.tx) + (OfId(r.principal) +
      (OfDigests(RecordDigests(r).0) + (Scalar(8, r.epoch) + (OfDigests(RecordDigests(r).1) + s))))
  }

  lemma RecordIsInside(r: RecordBody, s: bytes)
    ensures OfRecord(r) + s == r.repository + (Scalar(8, r.sequence) + (OfParent(r.parent) + Inside(r, s)))
  {
    Regroup8(r.repository, Scalar(8, r.sequence), OfParent(r.parent), OfId(r.tx), OfId(r.principal),
             OfDigests(RecordDigests(r).0), Scalar(8, r.epoch), OfDigests(RecordDigests(r).1), s);
  }

  lemma InsideSplits(a: RecordBody, b: RecordBody, s: bytes, t: bytes)
    requires Inside(a, s) == Inside(b, t)
    ensures a.tx == b.tx && a.principal == b.principal && a.epoch == b.epoch
    ensures RecordDigests(a) == RecordDigests(b) && s == t
  {
    var (a0, a1) := RecordDigests(a);
    var (b0, b1) := RecordDigests(b);
    var x, y := Scalar(8, a.epoch) + (OfDigests(a1) + s), Scalar(8, b.epoch) + (OfDigests(b1) + t);
    IdSplits(a.tx, b.tx, OfId(a.principal) + (OfDigests(a0) + x), OfId(b.principal) + (OfDigests(b0) + y));
    IdSplits(a.principal, b.principal, OfDigests(a0) + x, OfDigests(b0) + y);
    DigestsSplit(a0, b0, x, y);
    LongSplits(a.epoch, b.epoch, OfDigests(a1) + s, OfDigests(b1) + t);
    DigestsSplit(a1, b1, s, t);
  }

  lemma SameDigests(a: RecordBody, b: RecordBody)
    requires RecordDigests(a) == RecordDigests(b)
    ensures a.request == b.request && a.refDelta == b.refDelta && a.refs == b.refs && a.closure == b.closure
    ensures a.forgeBatch == b.forgeBatch && a.forgePosition == b.forgePosition
    ensures a.policyDecision == b.policyDecision && a.invariantEvidence == b.invariantEvidence
    ensures a.outboxEffect == b.outboxEffect && a.retentionDelta == b.retentionDelta
  {
    var (a0, a1) := RecordDigests(a);
    var (b0, b1) := RecordDigests(b);
    assert forall i :: 0 <= i < 6 ==> a0[i] == b0[i];
    assert forall i :: 0 <= i < 4 ==> a1[i] == b1[i];
  }

  lemma RecordSplits(a: RecordBody, b: RecordBody, s: bytes, t: bytes)
    requires OfRecord(a) + s == OfRecord(b) + t
    ensures a == b && s == t
  {
    RecordIsInside(a, s);
    RecordIsInside(b, t);
    var x, y := OfParent(a.parent) + Inside(a, s), OfParent(b.parent) + Inside(b, t);
    EqualSplits(a.repository, b.repository, Scalar(8, a.sequence) + x, Scalar(8, b.sequence) + y);
    LongSplits(a.sequence, b.sequence, x, y);
    ParentSplits(a.parent, b.parent, Inside(a, s), Inside(b, t));
    InsideSplits(a, b, s, t);
    SameDigests(a, b);
  }

  lemma RecordsSplit(a: seq<RecordBody>, b: seq<RecordBody>, s: bytes, t: bytes)
    requires |a| == |b| && OfRecords(a) + s == OfRecords(b) + t
    ensures a == b && s == t
  {
    assert Splits(OfRecord) by {
      forall x, y, u, v ensures SplitsAt(OfRecord, x, y, u, v) {
        if OfRecord(x) + u == OfRecord(y) + v { RecordSplits(x, y, u, v); }
      }
    }
    ListSplits(OfRecord, OfRecords, a, b, s, t);
  }

  // ---- Batches ----

  function Roots(b: BatchBody): seq<Digest> {
    [b.refs, b.forgePosition, b.outcomes, b.retention, b.outbox]
  }

  function OfCompaction(c: Option<Digest>): bytes {
    if c == None then [0] else [1] + OfDigest(c.value)
  }

  lemma CompactionSplits(a: Option<Digest>, b: Option<Digest>)
    requires OfCompaction(a) == OfCompaction(b)
    ensures a == b
  {
    assert OfCompaction(a)[0] == OfCompaction(b)[0] && a.Some? == b.Some?;
    if a.Some? {
      assert OfCompaction(a)[1..] == OfDigest(a.value) + [] && OfCompaction(b)[1..] == OfDigest(b.value) + [];
      DigestSplits(a.value, b.value, [], []);
    }
  }

  /** A payload after its decisions and records. */
  function Foot(b: BatchBody): bytes {
    OfDigests(Roots(b)) + (Scalar(8, b.epoch) + (OfDigest(b.evidence) + OfCompaction(b.compaction)))
  }

  lemma FootSplits(a: BatchBody, b: BatchBody)
    requires Foot(a) == Foot(b)
    ensures Roots(a) == Roots(b) && a.epoch == b.epoch && a.evidence == b.evidence && a.compaction == b.compaction
  {
    var x, y := OfDigest(a.evidence) + OfCompaction(a.compaction), OfDigest(b.evidence) + OfCompaction(b.compaction);
    DigestsSplit(Roots(a), Roots(b), Scalar(8, a.epoch) + x, Scalar(8, b.epoch) + y);
    LongSplits(a.epoch, b.epoch, x, y);
    DigestSplits(a.evidence, b.evidence, OfCompaction(a.compaction), OfCompaction(b.compaction));
    CompactionSplits(a.compaction, b.compaction);
  }

  /** A payload after its head: two counted lists and the foot. */
  function Lists(b: BatchBody): bytes {
    Scalar(4, |b.decisions|) + (OfDecisions(b.decisions) + (Scalar(4, |b.records|) + (OfRecords(b.records) + Foot(b))))
  }

  ghost predicate IsCountable(b: BatchBody) {
    |b.decisions| <= LAST_LENGTH && |b.records| <= LAST_LENGTH
  }

  lemma ListsSplit(a: BatchBody, b: BatchBody)
    requires IsCountable(a) && IsCountable(b) && Lists(a) == Lists(b)
    ensures a.decisions == b.decisions && a.records == b.records && Foot(a) == Foot(b)
  {
    var x, y := OfRecords(a.records) + Foot(a), OfRecords(b.records) + Foot(b);
    var u, v := Scalar(4, |a.records|) + x, Scalar(4, |b.records|) + y;
    Powers();
    ScalarSplits(4, |a.decisions|, |b.decisions|, OfDecisions(a.decisions) + u, OfDecisions(b.decisions) + v);
    DecisionsSplit(a.decisions, b.decisions, u, v);
    ScalarSplits(4, |a.records|, |b.records|, x, y);
    RecordsSplit(a.records, b.records, Foot(a), Foot(b));
  }

  lemma PayloadIsLists(b: BatchBody)
    ensures Payload(b) == b.repository + (OfId(b.predecessor) + (Scalar(8, b.generation) + (Scalar(8, b.first) + Lists(b))))
  {
    var foot := Scalar(8, b.epoch) + (OfDigest(b.evidence) + OfCompaction(b.compaction));
    var front := b.repository + OfId(b.predecessor) + Scalar(8, b.generation) + Scalar(8, b.first)
                 + Scalar(4, |b.decisions|) + OfDecisions(b.decisions) + Scalar(4, |b.records|) + OfRecords(b.records);
    Regroup3(front + OfDigests(Roots(b)), Scalar(8, b.epoch), OfDigest(b.evidence), OfCompaction(b.compaction));
    Regroup2(front, OfDigests(Roots(b)), foot);
    Regroup8(b.repository, OfId(b.predecessor), Scalar(8, b.generation), Scalar(8, b.first), Scalar(4, |b.decisions|),
             OfDecisions(b.decisions), Scalar(4, |b.records|), OfRecords(b.records), Foot(b));
  }

  lemma HeadSplits(a: BatchBody, b: BatchBody)
    requires Payload(a) == Payload(b)
    ensures a.repository == b.repository && a.predecessor == b.predecessor
    ensures a.generation == b.generation && a.first == b.first && Lists(a) == Lists(b)
  {
    PayloadIsLists(a);
    PayloadIsLists(b);
    var x, y := Scalar(8, a.first) + Lists(a), Scalar(8, b.first) + Lists(b);
    var u, v := Scalar(8, a.generation) + x, Scalar(8, b.generation) + y;
    EqualSplits(a.repository, b.repository, OfId(a.predecessor) + u, OfId(b.predecessor) + v);
    IdSplits(a.predecessor, b.predecessor, u, v);
    LongSplits(a.generation, b.generation, x, y);
    LongSplits(a.first, b.first, Lists(a), Lists(b));
  }

  lemma SameRoots(a: BatchBody, b: BatchBody)
    requires Roots(a) == Roots(b)
    ensures a.refs == b.refs && a.forgePosition == b.forgePosition && a.outcomes == b.outcomes
    ensures a.retention == b.retention && a.outbox == b.outbox
  {
    assert forall i :: 0 <= i < 5 ==> Roots(a)[i] == Roots(b)[i];
  }

  lemma PayloadSplits(a: BatchBody, b: BatchBody)
    requires IsCountable(a) && IsCountable(b) && Payload(a) == Payload(b)
    ensures a == b
  {
    HeadSplits(a, b);
    ListsSplit(a, b);
    FootSplits(a, b);
    SameRoots(a, b);
  }

  lemma FrameSplits(p: bytes, q: bytes)
    requires |p| <= LAST_LENGTH && |q| <= LAST_LENGTH && Frame(p) == Frame(q)
    ensures p == q
  {
    var top := Ascii("FGC1") + Scalar(2, 1) + Scalar(2, 0) + Counted(DOMAIN) + Counted(FAMILY) + Scalar(2, 1) + Scalar(2, 1);
    assert Frame(p) == top + Counted(p) && Frame(q) == top + Counted(q);
    EqualSplits(top, top, Counted(p), Counted(q));
    assert Counted(p) + [] == Counted(q) + [];
    CountedSplits(p, q, [], []);
  }

  lemma FramedSplits(n: nat, m: nat, p: bytes, n': nat, m': nat, q: bytes)
    requires Framed(n, m, p).Some? && Framed(n, m, p) == Framed(n', m', q)
    ensures p == q && n <= LAST_LENGTH && m <= LAST_LENGTH && n' <= LAST_LENGTH && m' <= LAST_LENGTH
  {
    FrameSplits(p, q);
  }

  /** Two batches that have bytes have the same bytes only when they are the same batch. */
  lemma EncodingIsInjective(a: BatchBody, b: BatchBody)
    requires Encoded(a).Some? && Encoded(a) == Encoded(b)
    ensures a == b
  {
    FramedSplits(|a.decisions|, |a.records|, Payload(a), |b.decisions|, |b.records|, Payload(b));
    PayloadSplits(a, b);
  }
}
