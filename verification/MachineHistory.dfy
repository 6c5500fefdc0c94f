/** Replay of published history, and the invariant every state of the machine keeps. */
module MachineHistory {
  import opened Bytes
  import opened Intents
  import opened Fold
  import opened Machine

  // ---- Replaying decisions and commits ----

  /** A meaning for net effects; the machine's own is `ApplyEffects`. */
  type Meaning = (Basis, NetEffects) -> Option<Basis>

  /** The point after one refusal, if the decision continues the history. */
  function PlayRefusal(p: Point, d: Decision): Option<Point> {
    if d.sequence != p.lastDecision + 1 || d.tx in p.roots.outcomes then None
    else Some(Decided(p, d.tx, d.outcome))
  }

  /** The point after one commit, if the decision and its record continue the history. */
  function PlayCommit(f: Meaning, p: Point, d: Decision, r: Record): Option<Point>
    requires d.outcome.Committed?
  {
    var after := f(p.roots.basis, r.effects);
    if d.sequence != p.lastDecision + 1 || d.tx in p.roots.outcomes then None
    else if r.id != d.outcome.commit || r.tx != d.tx then None
    else if r.sequence != p.lastSequence + 1 || r.parent != p.lastCommit then None
    else if after == None || r.refs != after.value.refs || r.positions != after.value.positions then None
    else Some(Point(p.lastDecision + 1, Some(r.id), p.lastSequence + 1,
                    Roots(after.value, p.roots.outcomes[d.tx := d.outcome])))
  }

  /** Replays a decision log against its commit records, checking every link on the way. */
  function Play(f: Meaning, p: Point, ds: seq<Decision>, cs: seq<Record>): Option<Point>
    decreases |ds|
  {
    if ds == [] then
      if cs == [] then Some(p) else None
    else
      var n, m := |ds| - 1, |cs| - 1;
      if ds[n].outcome.Refused? then
        var q := Play(f, p, ds[..n], cs);
        if q == None then None else PlayRefusal(q.value, ds[n])
      else if cs == [] then None
      else
        var q := Play(f, p, ds[..n], cs[..m]);
        if q == None then None else PlayCommit(f, q.value, ds[n], cs[m])
  }

  lemma {:induction false} PlayJoins(f: Meaning, p: Point, d1: seq<Decision>, c1: seq<Record>, d2: seq<Decision>, c2: seq<Record>)
    requires Play(f, p, d1, c1).Some? && Play(f, Play(f, p, d1, c1).value, d2, c2).Some?
    ensures Play(f, p, d1 + d2, c1 + c2) == Play(f, Play(f, p, d1, c1).value, d2, c2)
    decreases |d2|
  {
    if d2 == [] {
      assert d1 + d2 == d1 && c1 + c2 == c1;
    } else {
      var n := |d2| - 1;
      assert (d1 + d2)[..|d1 + d2| - 1] == d1 + d2[..n];
      if d2[n].outcome.Refused? {
        PlayJoins(f, p, d1, c1, d2[..n], c2);
      } else {
        var m := |c2| - 1;
        assert (c1 + c2)[..|c1 + c2| - 1] == c1 + c2[..m];
        PlayJoins(f, p, d1, c1, d2[..n], c2[..m]);
      }
    }
  }

  /** Records applied in order, without the decisions. */
  function Replay(f: Meaning, b: Basis, cs: seq<Record>): Option<Basis> {
    if cs == [] then Some(b)
    else
      var q := Replay(f, b, cs[..|cs| - 1]);
      if q == None then None else f(q.value, cs[|cs| - 1].effects)
  }

  lemma {:induction false} PlayReplays(f: Meaning, p: Point, ds: seq<Decision>, cs: seq<Record>)
    requires Play(f, p, ds, cs).Some?
    ensures Replay(f, p.roots.basis, cs) == Some(Play(f, p, ds, cs).value.roots.basis)
    decreases |ds|
  {
    if ds != [] {
      var n := |ds| - 1;
      if ds[n].outcome.Refused? {
        PlayReplays(f, p, ds[..n], cs);
      } else {
        PlayReplays(f, p, ds[..n], cs[..|cs| - 1]);
      }
    }
  }

  lemma {:induction false} ReplayJoins(f: Meaning, b: Basis, c1: seq<Record>, c2: seq<Record>)
    requires Replay(f, b, c1).Some?
    ensures Replay(f, b, c1 + c2) == Replay(f, Replay(f, b, c1).value, c2)
    decreases |c2|
  {
    if c2 == [] {
      assert c1 + c2 == c1;
    } else {
      assert (c1 + c2)[..|c1 + c2| - 1] == c1 + c2[..|c2| - 1];
      ReplayJoins(f, b, c1, c2[..|c2| - 1]);
    }
  }

  // ---- What replay establishes ----

  /** Positions advance by exactly the number of decisions and of commits. */
  lemma {:induction false} PlayCounts(f: Meaning, p: Point, ds: seq<Decision>, cs: seq<Record>)
    requires Play(f, p, ds, cs).Some?
    ensures var q := Play(f, p, ds, cs).value;
      q.lastDecision == p.lastDecision + |ds| && q.lastSequence == p.lastSequence + |cs|
    decreases |ds|
  {
    if ds != [] {
      var n := |ds| - 1;
      if ds[n].outcome.Refused? {
        PlayCounts(f, p, ds[..n], cs);
      } else {
        PlayCounts(f, p, ds[..n], cs[..|cs| - 1]);
      }
    }
  }

  /** The outcome index after a list of decisions. */
  function Index(m: map<Label, Terminal>, ds: seq<Decision>): map<Label, Terminal> {
    if ds == [] then m else Index(m, ds[..|ds| - 1])[ds[|ds| - 1].tx := ds[|ds| - 1].outcome]
  }

  /** No decision is for a transaction already in the index. */
  predicate IsFresh(m: map<Label, Terminal>, ds: seq<Decision>) {
    ds == [] || (IsFresh(m, ds[..|ds| - 1]) && ds[|ds| - 1].tx !in Index(m, ds[..|ds| - 1]))
  }

  /** What the commits were before the last decision. */
  function Before(ds: seq<Decision>, cs: seq<Record>): seq<Record>
    requires ds != []
  {
    if ds[|ds| - 1].outcome.Refused? || cs == [] then cs else cs[..|cs| - 1]
  }

  /** The last step of a replay. */
  lemma LastPlay(f: Meaning, p: Point, ds: seq<Decision>, cs: seq<Record>)
    requires ds != [] && Play(f, p, ds, cs).Some?
    ensures var q0, q, d := Play(f, p, ds[..|ds| - 1], Before(ds, cs)), Play(f, p, ds, cs).value, ds[|ds| - 1];
      && q0.Some?
      && d.sequence == q0.value.lastDecision + 1
      && d.tx !in q0.value.roots.outcomes
      && q.roots.outcomes == q0.value.roots.outcomes[d.tx := d.outcome]
  {
  }

  /** Decision sequences are gap-free, and the index is the decisions, each made once. */
  lemma {:induction false} PlayDecides(f: Meaning, p: Point, ds: seq<Decision>, cs: seq<Record>)
    requires Play(f, p, ds, cs).Some?
    ensures forall i :: 0 <= i < |ds| ==> ds[i].sequence == p.lastDecision + 1 + i
    ensures Play(f, p, ds, cs).value.roots.outcomes == Index(p.roots.outcomes, ds)
    ensures IsFresh(p.roots.outcomes, ds)
    decreases |ds|
  {
    if ds != [] {
      var n := |ds| - 1;
      LastPlay(f, p, ds, cs);
      PlayDecides(f, p, ds[..n], Before(ds, cs));
      PlayCounts(f, p, ds[..n], Before(ds, cs));
      assert forall i :: 0 <= i < n ==> ds[..n][i] == ds[i];
    }
  }

  /** A fresh list decides each transaction at most once and never touches an earlier outcome. */
  lemma {:induction false} IndexMeaning(m: map<Label, Terminal>, ds: seq<Decision>)
    requires IsFresh(m, ds)
    ensures forall t :: t in m ==> t in Index(m, ds) && Index(m, ds)[t] == m[t]
    ensures forall i :: 0 <= i < |ds| ==>
      ds[i].tx !in m && ds[i].tx in Index(m, ds) && Index(m, ds)[ds[i].tx] == ds[i].outcome
    ensures forall i, j :: 0 <= i < j < |ds| ==> ds[i].tx != ds[j].tx
  {
    if ds != [] {
      var n := |ds| - 1;
      IndexMeaning(m, ds[..n]);
      assert forall i :: 0 <= i < n ==> ds[..n][i] == ds[i];
    }
  }

  lemma {:induction false} IndexIsDecided(m: map<Label, Terminal>, ds: seq<Decision>, t: Label)
    requires t in Index(m, ds) && t !in m
    ensures exists i :: 0 <= i < |ds| && ds[i].tx == t
  {
    var n := |ds| - 1;
    if ds[n].tx != t {
      IndexIsDecided(m, ds[..n], t);
      var i :| 0 <= i < n && ds[..n][i].tx == t;
      assert ds[i].tx == t;
    }
  }

  function LinkBefore(p: Option<Label>, cs: seq<Record>, i: nat): Option<Label>
    requires i <= |cs|
  {
    if i == 0 then p else Some(cs[i - 1].id)
  }

  /** The last step of a replay, when it commits. */
  lemma LastCommitted(f: Meaning, p: Point, ds: seq<Decision>, cs: seq<Record>)
    requires ds != [] && Play(f, p, ds, cs).Some? && ds[|ds| - 1].outcome.Committed?
    ensures cs != []
    ensures var q0, q, r := Play(f, p, ds[..|ds| - 1], cs[..|cs| - 1]), Play(f, p, ds, cs).value, cs[|cs| - 1];
      && q0.Some?
      && r.sequence == q0.value.lastSequence + 1
      && r.parent == q0.value.lastCommit
      && q.lastCommit == Some(r.id)
  {
  }

  /** Gap-free repository sequences from `first`, each record naming the one before it as parent. */
  predicate IsLinked(first: nat, parent: Option<Label>, cs: seq<Record>) {
    forall i :: 0 <= i < |cs| ==> cs[i].sequence == first + i && cs[i].parent == LinkBefore(parent, cs, i)
  }

  lemma LinkedSnoc(first: nat, parent: Option<Label>, cs: seq<Record>, r: Record)
    requires IsLinked(first, parent, cs) && r.sequence == first + |cs| && r.parent == LinkBefore(parent, cs, |cs|)
    ensures IsLinked(first, parent, cs + [r])
  {
    var all := cs + [r];
    forall i | 0 <= i < |all| ensures all[i].sequence == first + i && all[i].parent == LinkBefore(parent, all, i)
    {
      if i < |cs| { assert all[i] == cs[i]; }
      if i > 0 { assert all[i - 1] == cs[i - 1]; }
    }
  }

  lemma {:induction false} PlayLinks(f: Meaning, p: Point, ds: seq<Decision>, cs: seq<Record>)
    requires Play(f, p, ds, cs).Some?
    ensures IsLinked(p.lastSequence + 1, p.lastCommit, cs)
    ensures Play(f, p, ds, cs).value.lastCommit == LinkBefore(p.lastCommit, cs, |cs|)
    decreases |ds|
  {
    if ds != [] {
      var n := |ds| - 1;
      if ds[n].outcome.Refused? {
        PlayLinks(f, p, ds[..n], cs);
      } else {
        LastCommitted(f, p, ds, cs);
        var m := |cs| - 1;
        PlayLinks(f, p, ds[..n], cs[..m]);
        PlayCounts(f, p, ds[..n], cs[..m]);
        LinkedSnoc(p.lastSequence + 1, p.lastCommit, cs[..m], cs[m]);
        assert cs[..m] + [cs[m]] == cs;
      }
    }
  }
}
