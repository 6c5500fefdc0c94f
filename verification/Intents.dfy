/**
 * Typed intents, statements and the canonical request
 * (crates/fgit-reference/src/intent.rs, refs.rs).
 *
 * Slugs, digests and derived identities are integers: the code only compares
 * and orders them. A ref name is its bytes.
 */
module Intents {
  import opened Bytes

  type Label = int

  type Digest = int

  type RefName = bytes

  datatype Format = Sha1 | Sha256

  datatype Oid = Oid(format: Format, digest: Digest)

  /** The largest forge stream position, `u64::MAX`. */
  const LAST_POSITION := 0xffff_ffff_ffff_ffff

  type Position = p: int | 0 <= p <= LAST_POSITION

  /** What a ref intent believes about the ref before it runs. */
  datatype Expected = Absent | Exact(oid: Oid) | Any

  predicate IsSatisfied(expected: Expected, actual: Option<Oid>) {
    match expected
    case Any => true
    case Absent => actual == None
    case Exact(oid) => actual == Some(oid)
  }

  datatype Event =
    | PullRequestOpened(entity: Label, target: RefName)
    | PullRequestMerged(entity: Label, target: RefName)
    | PullRequestClosed(entity: Label)
    | PullRequestUpdated(entity: Label, target: RefName)
    | PullRequestReviewed(entity: Label, target: RefName)
    | IssueChanged(entity: Label)
    | ReviewProtectionChanged(entity: Label)
    | WorkflowCheckObserved(entity: Label, source: RefName)
    | PullRequestCommented(entity: Label)
    | MergeQueueChanged(entity: Label, target: RefName)
    | DiscussionChanged(entity: Label)
    | MilestoneChanged(entity: Label)
    | NotificationPreferenceChanged(entity: Label)
    | AgentCredentialChanged(entity: Label)

  datatype RetentionClass = ReferencedByRef | LegalHold | GraceTombstone

  datatype RetentionRoot = RetentionRoot(oid: Oid, hold: RetentionClass)

  datatype Intent =
    | UpdateRef(name: RefName, expected: Expected, oid: Oid, force: bool)
    | DeleteRef(name: RefName, expected: Expected)
    | Forge(stream: Label, position: Position, event: Event)
    | AddRoot(root: RetentionRoot)
    | RemoveRoot(root: RetentionRoot)
    | Outbox(key: Label, parameters: Digest)

  datatype MismatchPolicy = NoOp | StatementError | TxnAbort

  datatype Statement = Statement(intents: seq<Intent>, policy: MismatchPolicy)

  datatype Address = Address(statement: nat, intent: nat)

  /** One intent with its address and the policy of its statement. */
  datatype Placed = Placed(address: Address, intent: Intent, policy: MismatchPolicy)

  datatype Durability = CanonicalSource | DerivedGeneration

  datatype Request = Request(
    tx: Label,
    tenant: Label,
    repository: Label,
    principal: Label,
    schema: Label,
    key: Label,
    digest: Digest,
    statements: seq<Statement>,
    promised: set<Oid>,
    atomic: bool,
    durability: Durability)

  /** Every intent of statements `s`, numbered from statement `first`, in source order. */
  function PlacedFrom(s: seq<Statement>, first: nat): (r: seq<Placed>) {
    if s == [] then []
    else
      seq(|s[0].intents|, i requires 0 <= i < |s[0].intents| =>
        Placed(Address(first, i), s[0].intents[i], s[0].policy))
      + PlacedFrom(s[1..], first + 1)
  }

  function AddressedIntents(r: Request): seq<Placed> {
    PlacedFrom(r.statements, 0)
  }

  datatype Target =
    | RefTarget(name: RefName)
    | StreamTarget(stream: Label)
    | RootTarget(root: RetentionRoot)
    | OutboxTarget(key: Label)

  /** The one target an intent acts on. */
  function TargetOf(i: Intent): Target {
    match i
    case UpdateRef(name, _, _, _) => RefTarget(name)
    case DeleteRef(name, _) => RefTarget(name)
    case Forge(stream, _, _) => StreamTarget(stream)
    case AddRoot(root) => RootTarget(root)
    case RemoveRoot(root) => RootTarget(root)
    case Outbox(key, _) => OutboxTarget(key)
  }
}
