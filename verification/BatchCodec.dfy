/**
 * The canonical bytes of a decision batch, and how long they can be
 * (crates/fgit-codec/src/writer.rs:60-285, wire.rs:128-180,
 * schema.rs:150-175, 240-262, 298-366).
 */
module BatchCodec {
  import opened Bytes

  // ---- Bounded components ----

  type Short = n: int | 0 <= n < 0x1_0000

  type Long = n: int | 0 <= n < 0x1_0000_0000_0000_0000

  /** A label of 1 to 64 bytes. */
  type Slug = s: bytes | 1 <= |s| <= 64 witness [97]

  /** A digest body of 16 to 64 bytes. */
  type DigestBytes = s: bytes | 16 <= |s| <= 64 witness seq(16, i => 0)

  type OpaqueId = s: bytes | |s| == 16 witness seq(16, i => 0)

  datatype Digest = Digest(algorithm: Short, body: DigestBytes)

  datatype ObjectId = ObjectId(algorithm: Short, domain: Slug, major: Short, minor: Short, body: DigestBytes)

  datatype Outcome = Committed(commit: ObjectId) | Refused(code: Short, record: ObjectId)

  datatype DecisionBody = DecisionBody(tx: ObjectId, sequence: Long, outcome: Outcome)

  datatype RecordBody = RecordBody(
    repository: OpaqueId,
    sequence: Long,
    parent: Option<ObjectId>,
    tx: ObjectId,
    principal: ObjectId,
    request: Digest,
    refDelta: Digest,
    refs: Digest,
    closure: Digest,
    forgeBatch: Digest,
    forgePosition: Digest,
    epoch: Long,
    policyDecision: Digest,
    invariantEvidence: Digest,
    outboxEffect: Digest,
    retentionDelta: Digest)

  datatype BatchBody = BatchBody(
    repository: OpaqueId,
    predecessor: ObjectId,
    generation: Long,
    first: Long,
    decisions: seq<DecisionBody>,
    records: seq<RecordBody>,
    refs: Digest,
    forgePosition: Digest,
    outcomes: Digest,
    retention: Digest,
    outbox: Digest,
    epoch: Long,
    evidence: Digest,
    compaction: Option<Digest>)

  // ---- The bytes, as values ----

  /** `n` in `width` bytes, most significant first. */
  function Scalar(width: nat, n: nat): (r: bytes)
    ensures |r| == width
  {
    if width == 0 then [] else Scalar(width - 1, n / 256) + [n % 256]
  }

  const LAST_LENGTH := 0xffff_ffff

  function Counted(s: bytes): bytes {
    Scalar(4, |s|) + s
  }

  function OfDigest(d: Digest): bytes {
    Scalar(2, d.algorithm) + Counted(d.body)
  }

  function OfId(i: ObjectId): bytes {
    Scalar(2, i.algorithm) + Counted(i.domain) + Scalar(2, i.major) + Scalar(2, i.minor) + Counted(i.body)
  }

  function OfOutcome(o: Outcome): bytes {
    match o
    case Committed(commit) => [1] + OfId(commit)
    case Refused(code, record) => [2] + Scalar(2, code) + OfId(record)
  }

  function OfDecision(d: DecisionBody): bytes {
    OfId(d.tx) + Scalar(8, d.sequence) + OfOutcome(d.outcome)
  }

  function OfDigests(ds: seq<Digest>): bytes {
    if ds == [] then [] else OfDigests(ds[..|ds| - 1]) + OfDigest(ds[|ds| - 1])
  }

  function RecordDigests(r: RecordBody): (seq<Digest>, seq<Digest>) {
    ([r.request, r.refDelta, r.refs, r.closure, r.forgeBatch, r.forgePosition],
     [r.policyDecision, r.invariantEvidence, r.outboxEffect, r.retentionDelta])
  }

  function OfRecord(r: RecordBody): bytes {
    r.repository + Scalar(8, r.sequence)
    + (if r.parent == None then [0] else [1] + OfId(r.parent.value))
    + OfId(r.tx) + OfId(r.principal)
    + OfDigests(RecordDigests(r).0) + Scalar(8, r.epoch) + OfDigests(RecordDigests(r).1)
  }

  function OfDecisions(ds: seq<DecisionBody>): bytes {
    if ds == [] then [] else OfDecisions(ds[..|ds| - 1]) + OfDecision(ds[|ds| - 1])
  }

  function OfRecords(rs: seq<RecordBody>): bytes {
    if rs == [] then [] else OfRecords(rs[..|rs| - 1]) + OfRecord(rs[|rs| - 1])
  }

  function Payload(b: BatchBody): bytes {
    b.repository + OfId(b.predecessor) + Scalar(8, b.generation) + Scalar(8, b.first)
    + Scalar(4, |b.decisions|) + OfDecisions(b.decisions)
    + Scalar(4, |b.records|) + OfRecords(b.records)
    + OfDigests([b.refs, b.forgePosition, b.outcomes, b.retention, b.outbox])
    + Scalar(8, b.epoch) + OfDigest(b.evidence)
    + (if b.compaction == None then [0] else [1] + OfDigest(b.compaction.value))
  }

  const DOMAIN := Ascii("frankengit/decision-batch/v1")

  const FAMILY := Ascii("decision-batch")

  function Frame(payload: bytes): bytes {
    Ascii("FGC1") + Scalar(2, 1) + Scalar(2, 0) + Counted(DOMAIN)
    + Counted(FAMILY) + Scalar(2, 1) + Scalar(2, 1) + Counted(payload)
  }

  /** A payload with its two counts, framed; none when a length does not fit its four bytes. */
  function Framed(decisions: nat, records: nat, payload: bytes): Option<bytes> {
    if decisions > LAST_LENGTH || records > LAST_LENGTH || |payload| > LAST_LENGTH then None else Some(Frame(payload))
  }

  function Encoded(b: BatchBody): Option<bytes> {
    Framed(|b.decisions|, |b.records|, Payload(b))
  }

  // ---- How long ----

  const LONGEST_ID := 142

  const LONGEST_DIGEST := 70

  const LONGEST_DECISION := 295

  const LONGEST_RECORD := 1159

  lemma IdIsShort(i: ObjectId)
    ensures |OfId(i)| <= LONGEST_ID
  {
  }

  lemma {:induction false} DigestsAreShort(ds: seq<Digest>)
    ensures |OfDigests(ds)| <= LONGEST_DIGEST * |ds|
  {
    if ds != [] { DigestsAreShort(ds[..|ds| - 1]); }
  }

  lemma RecordIsShort(r: RecordBody)
    ensures |OfRecord(r)| <= LONGEST_RECORD
  {
    IdIsShort(r.tx);
    IdIsShort(r.principal);
    if r.parent.Some? { IdIsShort(r.parent.value); }
    DigestsAreShort(RecordDigests(r).0);
    DigestsAreShort(RecordDigests(r).1);
  }

  lemma {:induction false} DecisionsAreShort(ds: seq<DecisionBody>)
    ensures |OfDecisions(ds)| <= LONGEST_DECISION * |ds|
  {
    if ds != [] {
      var n := |ds| - 1;
      DecisionsAreShort(ds[..n]);
      IdIsShort(ds[n].tx);
      IdIsShort(if ds[n].outcome.Committed? then ds[n].outcome.commit else ds[n].outcome.record);
    }
  }

  lemma {:induction false} RecordsAreShort(rs: seq<RecordBody>)
    ensures |OfRecords(rs)| <= LONGEST_RECORD * |rs|
  {
    if rs != [] {
      RecordsAreShort(rs[..|rs| - 1]);
      RecordIsShort(rs[|rs| - 1]);
    }
  }

  lemma FrameAdds(payload: bytes)
    ensures |Frame(payload)| == 66 + |payload|
  {
    assert |Ascii("FGC1")| == 4 && |DOMAIN| == 28 && |FAMILY| == 14;
  }

  /** A payload with at most one record per decision is at most 681 bytes and 1454 more per decision. */
  lemma PayloadIsShort(b: BatchBody)
    requires |b.records| <= |b.decisions|
    ensures |Payload(b)| <= 681 + 1454 * |b.decisions|
  {
    IdIsShort(b.predecessor);
    DecisionsAreShort(b.decisions);
    RecordsAreShort(b.records);
    DigestsAreShort([b.refs, b.forgePosition, b.outcomes, b.retention, b.outbox]);
  }

  const MAX_BATCH_BYTES := 1024 * 1024

  lemma ShortIsFramed(decisions: nat, records: nat, payload: bytes)
    requires records <= decisions <= 64 && |payload| <= 681 + 1454 * decisions
    ensures Framed(decisions, records, payload).Some?
    ensures |Framed(decisions, records, payload).value| <= MAX_BATCH_BYTES
  {
    FrameAdds(payload);
  }

  /** Every batch of at most 64 decisions fits the byte bound. */
  lemma GroupFits(b: BatchBody)
    requires |b.records| <= |b.decisions| <= 64
    ensures Encoded(b).Some? && |Encoded(b).value| <= MAX_BATCH_BYTES
  {
    PayloadIsShort(b);
    ShortIsFramed(|b.decisions|, |b.records|, Payload(b));
  }
}
