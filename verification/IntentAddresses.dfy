/**
 * Addresses of intents: each says where in the request its intent stands, and
 * every intent has exactly one, in source order
 * (crates/fgit-reference/src/intent.rs:850-870).
 */
module IntentAddresses {
  import opened Intents

  /** `x` is the intent that stands at its address, with the policy of its statement; statements count from `first`. */
  predicate IsAt(ss: seq<Statement>, first: nat, x: Placed) {
    && first <= x.address.statement < first + |ss|
    && var s := ss[x.address.statement - first];
    && x.address.intent < |s.intents| && x.intent == s.intents[x.address.intent] && x.policy == s.policy
  }

  predicate Before(a: Address, b: Address) {
    a.statement < b.statement || (a.statement == b.statement && a.intent < b.intent)
  }

  function Opening(s: Statement, first: nat): seq<Placed> {
    seq(|s.intents|, i requires 0 <= i < |s.intents| => Placed(Address(first, i), s.intents[i], s.policy))
  }

  lemma {:induction false} PlacedAreTrue(ss: seq<Statement>, first: nat, k: nat)
    requires k < |PlacedFrom(ss, first)|
    ensures IsAt(ss, first, PlacedFrom(ss, first)[k])
  {
    var top := Opening(ss[0], first);
    assert PlacedFrom(ss, first) == top + PlacedFrom(ss[1..], first + 1);
    if k >= |top| { PlacedAreTrue(ss[1..], first + 1, k - |top|); }
  }

  lemma {:induction false} PlacedRise(ss: seq<Statement>, first: nat, j: nat, k: nat)
    requires j < k < |PlacedFrom(ss, first)|
    ensures Before(PlacedFrom(ss, first)[j].address, PlacedFrom(ss, first)[k].address)
  {
    var top, rest := Opening(ss[0], first), PlacedFrom(ss[1..], first + 1);
    assert PlacedFrom(ss, first) == top + rest;
    if j >= |top| {
      PlacedRise(ss[1..], first + 1, j - |top|, k - |top|);
    } else if k >= |top| {
      PlacedAreTrue(ss[1..], first + 1, k - |top|);
    }
  }

  lemma {:induction false} EachIsPlaced(ss: seq<Statement>, first: nat, s: nat, i: nat) returns (k: nat)
    requires s < |ss| && i < |ss[s].intents|
    ensures k < |PlacedFrom(ss, first)|
    ensures PlacedFrom(ss, first)[k] == Placed(Address(first + s, i), ss[s].intents[i], ss[s].policy)
  {
    var top, rest := Opening(ss[0], first), PlacedFrom(ss[1..], first + 1);
    assert PlacedFrom(ss, first) == top + rest;
    if s == 0 {
      k := i;
    } else {
      k := EachIsPlaced(ss[1..], first + 1, s - 1, i);
      assert (top + rest)[|top| + k] == rest[k];
      k := |top| + k;
    }
  }

  /** A placed intent stands at its address, and addresses rise: no intent is listed twice. */
  lemma AddressesAreTrue(r: Request, j: nat, k: nat)
    requires j < k < |AddressedIntents(r)|
    ensures IsAt(r.statements, 0, AddressedIntents(r)[j]) && IsAt(r.statements, 0, AddressedIntents(r)[k])
    ensures Before(AddressedIntents(r)[j].address, AddressedIntents(r)[k].address)
  {
    PlacedAreTrue(r.statements, 0, j);
    PlacedAreTrue(r.statements, 0, k);
    PlacedRise(r.statements, 0, j, k);
  }

  /** Every intent of every statement is listed. */
  lemma EveryIntentIsAddressed(r: Request, s: nat, i: nat) returns (k: nat)
    requires s < |r.statements| && i < |r.statements[s].intents|
    ensures k < |AddressedIntents(r)| && AddressedIntents(r)[k].address == Address(s, i)
    ensures AddressedIntents(r)[k].intent == r.statements[s].intents[i]
  {
    k := EachIsPlaced(r.statements, 0, s, i);
  }
}
