/** Insertion into a sorted list, standing for the stable sorts by key of the source. */
module Sorting {
  /** A strict order: irreflexive and transitive; elements with equal keys are unrelated. */
  ghost predicate IsStrict<T(!new)>(less: (T, T) -> bool) {
    (forall a :: !less(a, a)) && forall a, b, c :: less(a, b) && less(b, c) ==> less(a, c)
  }

  ghost predicate IsAscending<T>(less: (T, T) -> bool, s: seq<T>) {
    forall i, j :: 0 <= i < j < |s| ==> less(s[i], s[j])
  }

  /** No two elements have equal keys. */
  ghost predicate AreApart<T>(less: (T, T) -> bool, s: seq<T>) {
    forall i, j :: 0 <= i < j < |s| ==> less(s[i], s[j]) || less(s[j], s[i])
  }

  function Insert<T>(less: (T, T) -> bool, x: T, s: seq<T>): seq<T> {
    if s == [] || !less(s[0], x) then [x] + s else [s[0]] + Insert(less, x, s[1..])
  }

  function Sort<T>(less: (T, T) -> bool, s: seq<T>): seq<T> {
    if s == [] then [] else Insert(less, s[0], Sort(less, s[1..]))
  }

  lemma {:induction false} InsertKeeps<T>(less: (T, T) -> bool, x: T, s: seq<T>)
    ensures multiset(Insert(less, x, s)) == multiset{x} + multiset(s)
  {
    if s != [] && less(s[0], x) {
      InsertKeeps(less, x, s[1..]);
      assert s == [s[0]] + s[1..];
    }
  }

  /** Sorting permutes. */
  lemma {:induction false} SortKeeps<T>(less: (T, T) -> bool, s: seq<T>)
    ensures multiset(Sort(less, s)) == multiset(s)
    ensures |Sort(less, s)| == |s|
  {
    if s != [] {
      SortKeeps(less, s[1..]);
      InsertKeeps(less, s[0], Sort(less, s[1..]));
      assert s == [s[0]] + s[1..];
    }
    assert |multiset(Sort(less, s))| == |multiset(s)|;
  }

  lemma {:induction false} InsertAscends<T(!new)>(less: (T, T) -> bool, x: T, s: seq<T>)
    requires IsStrict(less) && IsAscending(less, s)
    requires forall i :: 0 <= i < |s| ==> less(s[i], x) || less(x, s[i])
    ensures IsAscending(less, Insert(less, x, s))
  {
    if s != [] && less(s[0], x) {
      InsertAscends(less, x, s[1..]);
      InsertKeeps(less, x, s[1..]);
      var rest := Insert(less, x, s[1..]);
      forall j | 0 <= j < |rest| ensures less(s[0], rest[j])
      {
        assert rest[j] in multiset(rest);
        assert rest[j] == x || rest[j] in s[1..];
      }
    }
  }

  /** Sorting sorts, when no two keys are equal. */
  lemma {:induction false} SortAscends<T(!new)>(less: (T, T) -> bool, s: seq<T>)
    requires IsStrict(less) && AreApart(less, s)
    ensures IsAscending(less, Sort(less, s))
  {
    if s != [] {
      SortAscends(less, s[1..]);
      SortKeeps(less, s[1..]);
      var rest := Sort(less, s[1..]);
      forall i | 0 <= i < |rest| ensures less(rest[i], s[0]) || less(s[0], rest[i])
      {
        assert rest[i] in multiset(rest);
        assert rest[i] in s[1..];
      }
      InsertAscends(less, s[0], rest);
    }
  }

  function Without<T>(s: seq<T>, j: nat): seq<T>
    requires j < |s|
  {
    s[..j] + s[j + 1..]
  }

  lemma WithoutKeeps<T>(s: seq<T>, j: nat)
    requires j < |s|
    ensures multiset(s) == multiset(Without(s, j)) + multiset{s[j]}
  {
    var a, b := s[..j], s[j + 1..];
    assert s == a + [s[j]] + b;
    assert multiset(s) == multiset(a) + multiset{s[j]} + multiset(b);
  }

  /** The last element of one listing, found in another and taken out of both. */
  lemma TakeOut<T>(p: seq<T>, q: seq<T>) returns (j: nat)
    requires p != [] && multiset(p) == multiset(q)
    ensures j < |q| && q[j] == p[|p| - 1]
    ensures multiset(p[..|p| - 1]) == multiset(Without(q, j))
  {
    var c := p[|p| - 1];
    assert c in multiset(q);
    j :| 0 <= j < |q| && q[j] == c;
    WithoutKeeps(q, j);
    WithoutKeeps(p, |p| - 1);
    assert Without(p, |p| - 1) == p[..|p| - 1];
    assert multiset(p[..|p| - 1]) == multiset(p) - multiset{c};
    assert multiset(Without(q, j)) == multiset(q) - multiset{c};
  }

  /** Equal keys may stand side by side. */
  ghost predicate IsOrdered<T>(less: (T, T) -> bool, s: seq<T>) {
    forall i, j :: 0 <= i < j < |s| ==> !less(s[j], s[i])
  }

  lemma WithoutIsOrdered<T>(less: (T, T) -> bool, s: seq<T>, j: nat)
    requires j < |s| && IsOrdered(less, s)
    ensures IsOrdered(less, Without(s, j))
  {
    forall x, y | 0 <= x < y < |s| - 1 ensures !less(Without(s, j)[y], Without(s, j)[x])
    {
      var x', y' := if x < j then x else x + 1, if y < j then y else y + 1;
      assert !less(s[y'], s[x']);
    }
  }

  /** Having a key that is not smaller is transitive. */
  ghost predicate IsWeak<T(!new)>(less: (T, T) -> bool) {
    forall a, b, c :: !less(a, b) && !less(b, c) ==> !less(a, c)
  }

  lemma {:induction false} InsertOrders<T(!new)>(less: (T, T) -> bool, x: T, s: seq<T>)
    requires IsStrict(less) && IsWeak(less) && IsOrdered(less, s)
    ensures IsOrdered(less, Insert(less, x, s))
  {
    if s != [] && less(s[0], x) {
      InsertOrders(less, x, s[1..]);
      InsertKeeps(less, x, s[1..]);
      var rest := Insert(less, x, s[1..]);
      forall j | 0 <= j < |rest| ensures !less(rest[j], s[0])
      {
        assert rest[j] in multiset(rest);
        assert rest[j] == x || rest[j] in s[1..];
      }
    }
  }

  /** Sorting sorts. */
  lemma {:induction false} SortOrders<T(!new)>(less: (T, T) -> bool, s: seq<T>)
    requires IsStrict(less) && IsWeak(less)
    ensures IsOrdered(less, Sort(less, s))
  {
    if s != [] {
      SortOrders(less, s[1..]);
      InsertOrders(less, s[0], Sort(less, s[1..]));
    }
  }

  lemma SameFirst<T(!new)>(less: (T, T) -> bool, a: seq<T>, b: seq<T>)
    requires IsStrict(less) && IsAscending(less, a) && IsAscending(less, b)
    requires a != [] && b != [] && multiset(a) == multiset(b)
    ensures a[0] == b[0]
  {
    assert a[0] in multiset(b) && b[0] in multiset(a);
    var i, j :| 0 <= i < |b| && b[i] == a[0] && 0 <= j < |a| && a[j] == b[0];
  }

  /** An ascending list is determined by its elements. */
  lemma {:induction false} AscendingUnique<T(!new)>(less: (T, T) -> bool, a: seq<T>, b: seq<T>)
    requires IsStrict(less) && IsAscending(less, a) && IsAscending(less, b) && multiset(a) == multiset(b)
    ensures a == b
  {
    assert |multiset(a)| == |a| && |multiset(b)| == |b|;
    if a != [] {
      SameFirst(less, a, b);
      assert a == [a[0]] + a[1..] && b == [b[0]] + b[1..];
      assert multiset(a[1..]) == multiset(a) - multiset{a[0]};
      assert multiset(b[1..]) == multiset(b) - multiset{b[0]};
      AscendingUnique(less, a[1..], b[1..]);
    }
  }

  /** Any two listings of the same elements sort alike, when no two keys are equal. */
  lemma SortIsOrderFree<T(!new)>(less: (T, T) -> bool, a: seq<T>, b: seq<T>)
    requires IsStrict(less) && AreApart(less, a) && AreApart(less, b) && multiset(a) == multiset(b)
    ensures Sort(less, a) == Sort(less, b)
  {
    SortAscends(less, a);
    SortAscends(less, b);
    SortKeeps(less, a);
    SortKeeps(less, b);
    AscendingUnique(less, Sort(less, a), Sort(less, b));
  }
}
