/** Names of objects read back: hexadecimal, decimal and the bytes a name is the digest of. */
module PackNames {
  import opened Bytes
  import opened PackFile

  // ---- Hexadecimal ----

  /** Pairs of hexadecimal digits, as bytes. */
  function UnHex(s: bytes): Option<bytes>
    decreases |s|
  {
    if s == [] then Some([])
    else if |s| < 2 || !IsHex(s[0]) || !IsHex(s[1]) then None
    else
      var rest := UnHex(s[2..]);
      if rest == None then None else Some([HexDigit(s[0]) * 16 + HexDigit(s[1])] + rest.value)
  }

  lemma {:induction false} HexReadsBack(s: bytes)
    ensures UnHex(Hex(s)) == Some(s)
  {
    if s != [] {
      HexReadsBack(s[1..]);
      assert Hex(s)[2..] == Hex(s[1..]);
      assert s == [s[0]] + s[1..];
      assert s[0] / 16 * 16 + s[0] % 16 == s[0];
    }
  }

  // ---- Decimal ----

  function UnDecimal(s: bytes): nat
    requires forall i :: 0 <= i < |s| ==> 48 <= s[i] <= 57
  {
    if s == [] then 0 else UnDecimal(s[..|s| - 1]) * 10 + (s[|s| - 1] - 48)
  }

  /** Digits only, no leading zero except in zero itself, and the number back. */
  lemma {:induction false} DecimalReadsBack(n: nat)
    ensures Decimal(n) != [] && (forall i :: 0 <= i < |Decimal(n)| ==> 48 <= Decimal(n)[i] <= 57)
    ensures UnDecimal(Decimal(n)) == n
    ensures n > 0 ==> Decimal(n)[0] != 48
  {
    var s := Decimal(n);
    if n < 10 {
      assert s[..0] == [];
      assert UnDecimal([]) == 0;
    } else {
      DecimalReadsBack(n / 10);
      assert s[..|s| - 1] == Decimal(n / 10);
    }
  }

  // ---- What a name is the digest of ----

  /** Kind, length and body, as they are hashed. */
  function Preimage(e: Entry): bytes {
    KindName(e.kind) + Ascii(" ") + Decimal(|e.body|) + [0] + e.body
  }

  lemma NameIsDigest(h: Hash, e: Entry)
    ensures UnHex(IdOf(h, e)) == Some(h.digest(Preimage(e)))
  {
    HexReadsBack(h.digest(Preimage(e)));
  }

  lemma KindNamesDiffer(a: nat, b: nat)
    requires 1 <= a <= 4 && 1 <= b <= 4 && KindName(a) == KindName(b)
    ensures a == b
  {
    assert KindName(1)[0] == 99 && KindName(2)[1] == 114 && KindName(3)[0] == 98 && KindName(4)[1] == 97;
    assert KindName(2)[0] == 116 && KindName(4)[0] == 116;
  }

  lemma KindNameIsWord(kind: nat)
    ensures 32 !in KindName(kind)
  {
  }

  lemma DecimalHasNoNul(n: nat)
    ensures 0 !in Decimal(n)
  {
    DecimalReadsBack(n);
  }

  /** Two objects with one preimage are one object: kind and body can be read off it. */
  lemma PreimageIsInjective(a: Entry, b: Entry)
    requires 1 <= a.kind <= 4 && 1 <= b.kind <= 4 && Preimage(a) == Preimage(b)
    ensures a == b
  {
    var da, db := Decimal(|a.body|), Decimal(|b.body|);
    KindNameIsWord(a.kind);
    KindNameIsWord(b.kind);
    assert Ascii(" ") == [32];
    assert Preimage(a) == KindName(a.kind) + [32] + (da + [0] + a.body);
    assert Preimage(b) == KindName(b.kind) + [32] + (db + [0] + b.body);
    SameFront(KindName(a.kind), 32, da + [0] + a.body, KindName(b.kind), db + [0] + b.body);
    KindNamesDiffer(a.kind, b.kind);
    DecimalHasNoNul(|a.body|);
    DecimalHasNoNul(|b.body|);
    SameFront(da, 0, a.body, db, b.body);
  }

  lemma SameFront(a: bytes, sep: byte, x: bytes, b: bytes, y: bytes)
    requires sep !in a && sep !in b && a + [sep] + x == b + [sep] + y
    ensures a == b && x == y
  {
    FindAfter(a, sep, x);
    FindAfter(b, sep, y);
    var s := a + [sep] + x;
    assert s[..|a|] == a && s[|a| + 1..] == x;
    assert s[..|b|] == b && s[|b| + 1..] == y;
  }
}
