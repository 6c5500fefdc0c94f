/**
 * The offset-delta distance: seven bits a byte, high bits first, each
 * continuation standing for one more than its bits (scripts/e2e/candidate_review_smoke.py:84-92;
 * the reading rule is that of "Deltified representation" in gitformat-pack(5)).
 */
module OfsDistance {
  import opened Bytes

  /** The continuation bytes of a distance, from what is left after its low seven bits. */
  function High(d: nat): bytes {
    if d == 0 then [] else High((d - 1) / 128) + [128 + (d - 1) % 128]
  }

  function Ofs(d: nat): bytes {
    High(d / 128) + [d % 128]
  }

  datatype Distance = Distance(value: nat, used: nat)

  /** Reading with the bits so far in `v`: add one and shift at each continuation. */
  function ReadFrom(v: nat, s: bytes): (r: Option<Distance>)
    ensures r.Some? ==> 0 < r.value.used <= |s|
    decreases |s|
  {
    if s == [] then None
    else if s[0] < 128 then Some(Distance(128 * v + s[0], 1))
    else
      var r := ReadFrom(128 * v + (s[0] - 128) + 1, s[1..]);
      if r == None then None else Some(Distance(r.value.value, 1 + r.value.used))
  }

  function Read(s: bytes): Option<Distance> {
    ReadFrom(0, s)
  }

  /** Reading the continuation bytes of `d` leaves exactly `d` in hand. */
  lemma {:induction false} HighReads(d: nat, rest: bytes)
    ensures var r := ReadFrom(d, rest);
      ReadFrom(0, High(d) + rest) == if r == None then None else Some(Distance(r.value.value, |High(d)| + r.value.used))
    decreases d
  {
    if d == 0 {
      assert High(d) + rest == rest;
    } else {
      var h, c := (d - 1) / 128, [128 + (d - 1) % 128];
      assert High(d) + rest == High(h) + (c + rest);
      HighReads(h, c + rest);
      assert (c + rest)[1..] == rest;
      assert 128 * h + (d - 1) % 128 + 1 == d;
    }
  }

  /** Every distance reads back, whatever follows, stopping at the first byte without the high bit. */
  lemma OfsRoundTrip(d: nat, rest: bytes)
    ensures Read(Ofs(d) + rest) == Some(Distance(d, |Ofs(d)|))
    ensures forall i :: 0 <= i < |Ofs(d)| - 1 ==> Ofs(d)[i] >= 128
    ensures Ofs(d)[|Ofs(d)| - 1] < 128
  {
    HighReads(d / 128, [d % 128] + rest);
    assert Ofs(d) + rest == High(d / 128) + ([d % 128] + rest);
    HighIsFlagged(d / 128);
  }

  lemma {:induction false} HighIsFlagged(d: nat)
    ensures forall i :: 0 <= i < |High(d)| ==> High(d)[i] >= 128
  {
    if d > 0 { HighIsFlagged((d - 1) / 128); }
  }

  lemma OfsInjective(a: nat, b: nat)
    requires Ofs(a) == Ofs(b)
    ensures a == b
  {
    OfsRoundTrip(a, []);
    OfsRoundTrip(b, []);
  }

  /** Reading is exact: the bytes taken are the one encoding of what was read. */
  lemma {:induction false} ReadIsCanonical(v: nat, s: bytes)
    requires ReadFrom(v, s).Some?
    ensures var r := ReadFrom(v, s).value; Ofs(r.value) == High(v) + s[..r.used]
    decreases |s|
  {
    var r := ReadFrom(v, s).value;
    if s[0] >= 128 {
      var next := 128 * v + (s[0] - 128) + 1;
      ReadIsCanonical(next, s[1..]);
      assert (next - 1) / 128 == v && (next - 1) % 128 == s[0] - 128;
      assert High(next) == High(v) + [s[0]];
      assert s[..r.used] == [s[0]] + s[1..][..r.used - 1];
    } else {
      assert s[..1] == [s[0]];
    }
  }

  /** The encoder's loop, which collects low bytes first and reverses them. */
  method EncodeDistance(distance: nat) returns (data: bytes)
    ensures data == Ofs(distance)
  {
    var encoded: bytes := [distance % 128];
    var left: nat := distance / 128;
    while left > 0
      invariant High(left) + Reversed(encoded) == Ofs(distance)
    {
      var byte: byte := 128 + (left - 1) % 128;
      ReversedSnoc(encoded, byte);
      assert High(left) + Reversed(encoded) == High((left - 1) / 128) + ([byte] + Reversed(encoded));
      encoded := encoded + [byte];
      left := (left - 1) / 128;
    }
    data := Reversed(encoded);
  }

  function Reversed(s: bytes): bytes {
    if s == [] then [] else Reversed(s[1..]) + [s[0]]
  }

  lemma {:induction false} ReversedSnoc(s: bytes, b: byte)
    ensures Reversed(s + [b]) == [b] + Reversed(s)
  {
    if s != [] {
      assert (s + [b])[1..] == s[1..] + [b];
      ReversedSnoc(s[1..], b);
    }
  }
}
