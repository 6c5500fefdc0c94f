/** The shared work ledger, and ordered-set access in ascending order. */
module ShallowWork {
  import opened ShallowGraph

  datatype Refusal =
    | DeadlineExceeded
    | BudgetExceeded
    | ClosureIncomplete
    | EvidenceInvalid
    | HeaderInvalid
    | WantOutsideClosure(id: Oid)
    | UnsupportedFetch

  datatype Result<+T> = Ok(value: T) | Err(error: Refusal)
  {
    predicate IsFailure() { Err? }
    function PropagateFailure<U>(): Result<U>
      requires Err?
    {
      Err(error)
    }
    function Extract(): T
      requires Ok?
    {
      value
    }
  }

  /** A ledger checkpoint, which yields no value. */
  datatype Check = Pass | Refused(error: Refusal)
  {
    predicate IsFailure() { Refused? }
    function PropagateFailure<U>(): Result<U>
      requires Refused?
    {
      Err(error)
    }
  }

  /** The refusals that come from the ledger rather than from the graph or the request. */
  predicate FromLedger(e: Refusal) {
    e == DeadlineExceeded || e == BudgetExceeded
  }

  /** One budget for a whole request; `live` answers the n-th deadline poll, and `refused` records a refusal. */
  class Work {
    const live: nat -> bool
    const maximum: nat
    var polls: nat
    var left: nat
    ghost var refused: bool

    constructor (budget: nat, maximum: nat, live: nat -> bool)
      ensures left == budget && this.maximum == maximum && this.live == live && polls == 0 && !refused
    {
      this.live, this.maximum := live, maximum;
      left, polls, refused := budget, 0, false;
    }

    method Tick() returns (r: Check)
      modifies this
      ensures r == if !live(old(polls)) then Refused(DeadlineExceeded)
                   else if old(left) == 0 then Refused(BudgetExceeded)
                   else Pass
      ensures polls == old(polls) + 1
      ensures left == if r.Pass? then old(left) - 1 else old(left)
      ensures refused == (old(refused) || r.Refused?)
    {
      polls := polls + 1;
      if !live(polls - 1) {
        refused := true;
        return Refused(DeadlineExceeded);
      }
      if left == 0 {
        refused := true;
        return Refused(BudgetExceeded);
      }
      left := left - 1;
      return Pass;
    }

    method Count(n: nat) returns (r: Check)
      modifies this`refused
      ensures r == if n > maximum then Refused(BudgetExceeded) else Pass
      ensures refused == (old(refused) || r.Refused?)
    {
      r := if n > maximum then Refused(BudgetExceeded) else Pass;
      refused := refused || n > maximum;
    }

    /** Adds `value` to an ordered set; the flag says whether it was new. */
    method Insert<T(==)>(s: set<T>, value: T) returns (r: Result<(set<T>, bool)>)
      modifies this
      ensures r.Ok? ==> r.value == (s + {value}, value !in s)
      ensures r.Ok? && value !in s ==> |s| < maximum
      ensures r.Err? ==> FromLedger(r.error) && refused && (!live(old(polls)) || old(left) == 0 || |s| >= maximum)
      ensures r.Ok? ==> refused == old(refused)
      ensures left <= old(left)
    {
      var present := value in s;
      :- Tick();
      if present {
        assert s + {value} == s;
        return Ok((s, false));
      }
      :- Count(|s| + 1);
      return Ok((s + {value}, true));
    }
  }

  /** Lookup in the graph; a missing object is an incomplete closure. */
  function Lookup(g: Graph, id: Oid): Result<Item> {
    if id in g then Ok(g[id]) else Err(ClosureIncomplete)
  }

  lemma SomeElement<T>(part: set<T>, s: set<T>) returns (x: T)
    requires part <= s && part != s
    ensures x in s - part
  {
    var missing := s - part;
    assert s == part + missing;
    assert missing != {};
    x :| x in missing;
  }

  /** `pop_first` of an ordered set of identities. */
  method First(s: set<Oid>) returns (m: Oid)
    requires s != {}
    ensures m in s && forall x :: x in s ==> m <= x
  {
    ghost var one := SomeElement({}, s);
    m :| m in s;
    var seen := {m};
    while seen != s
      invariant seen <= s && m in s
      invariant forall x :: x in seen ==> m <= x
      decreases s - seen
    {
      ghost var next := SomeElement(seen, s);
      var x :| x in s - seen;
      if x < m {
        m := x;
      }
      seen := seen + {x};
    }
  }

  /** `pop_first` of an ordered set of (depth, identity) pairs. */
  predicate Precedence(a: (nat, Oid), b: (nat, Oid)) {
    a.0 < b.0 || (a.0 == b.0 && a.1 <= b.1)
  }

  method FirstPair(s: set<(nat, Oid)>) returns (m: (nat, Oid))
    requires s != {}
    ensures m in s && forall x :: x in s ==> Precedence(m, x)
  {
    m :| m in s;
    var seen := {m};
    while seen != s
      invariant seen <= s && m in s
      invariant forall x :: x in seen ==> Precedence(m, x)
      decreases s - seen
    {
      ghost var next := SomeElement(seen, s);
      var x :| x in s - seen;
      if !Precedence(m, x) {
        m := x;
      }
      seen := seen + {x};
    }
  }

  /** The elements of an ordered set, as iteration lists them. */
  method Listed(s: set<Oid>) returns (r: seq<Oid>)
    ensures IsAscending(r) && Elements(r) == s
  {
    r := [];
    var rest := s;
    while rest != {}
      invariant Elements(r) !! rest && Elements(r) + rest == s
      invariant IsAscending(r)
      invariant forall x, y :: x in Elements(r) && y in rest ==> x < y
      decreases rest
    {
      var x := First(rest);
      assert forall i :: 0 <= i < |r| ==> r[i] in Elements(r);
      assert Elements(r + [x]) == Elements(r) + {x};
      r := r + [x];
      rest := rest - {x};
    }
  }
}
