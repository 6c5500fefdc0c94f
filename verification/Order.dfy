/** Strict total orders, as the ordered maps of the source iterate by. */
module Order {
  import opened Bytes

  ghost predicate IsTotalOrder<K(!new)>(less: (K, K) -> bool) {
    && (forall a :: !less(a, a))
    && (forall a, b, c :: less(a, b) && less(b, c) ==> less(a, c))
    && (forall a, b :: a == b || less(a, b) || less(b, a))
  }

  ghost predicate IsLeast<K(!new)>(s: set<K>, less: (K, K) -> bool, k: K) {
    k in s && forall j :: j in s && j != k ==> less(k, j)
  }

  lemma {:induction false} LeastExists<K(!new)>(s: set<K>, less: (K, K) -> bool) returns (k: K)
    requires IsTotalOrder(less) && s != {}
    ensures IsLeast(s, less, k)
    decreases |s|
  {
    var first :| first in s;
    k := first;
    var rest := s - {first};
    assert s == rest + {first};
    if rest != {} {
      var j := LeastExists(rest, less);
      if less(j, first) { k := j; }
    }
  }

  /** Byte strings in lexicographic order. */
  predicate LexLess(a: bytes, b: bytes) {
    if b == [] then false
    else if a == [] then true
    else if a[0] != b[0] then a[0] < b[0]
    else LexLess(a[1..], b[1..])
  }

  lemma {:induction false} LexTotal(a: bytes, b: bytes)
    ensures a == b || LexLess(a, b) || LexLess(b, a)
    ensures !(LexLess(a, b) && LexLess(b, a))
    ensures !LexLess(a, a)
    decreases |a|
  {
    if a != [] {
      LexTotal(a[1..], if b == [] then [] else b[1..]);
      if b != [] && a[0] == b[0] && a[1..] == b[1..] {
        assert a == [a[0]] + a[1..] && b == [b[0]] + b[1..];
      }
    }
  }

  lemma {:induction false} LexTransitive(a: bytes, b: bytes, c: bytes)
    requires LexLess(a, b) && LexLess(b, c)
    ensures LexLess(a, c)
  {
    if a != [] && a[0] == b[0] && b[0] == c[0] {
      LexTransitive(a[1..], b[1..], c[1..]);
    }
  }

  lemma LexIsTotalOrder()
    ensures IsTotalOrder(LexLess)
  {
    forall a: bytes ensures !LexLess(a, a) { LexTotal(a, a); }
    forall a: bytes, b: bytes ensures a == b || LexLess(a, b) || LexLess(b, a) { LexTotal(a, b); }
    forall a: bytes, b: bytes, c: bytes | LexLess(a, b) && LexLess(b, c) ensures LexLess(a, c)
    {
      LexTransitive(a, b, c);
    }
  }
}
