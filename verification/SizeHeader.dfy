/**
 * Pack entry headers: the kind and the inflated size, low bits first
 * ("pack-*.pack files have the following format" in gitformat-pack(5)).
 * Two encoder loops and three decoder loops of the end-to-end campaigns.
 */
module SizeHeader {
  import opened Bytes

  function Pow2(n: nat): (r: nat)
    ensures r > 0
  {
    if n == 0 then 1 else 2 * Pow2(n - 1)
  }

  lemma Pow2Seven(n: nat)
    ensures Pow2(n + 7) == 128 * Pow2(n)
  {
    assert Pow2(n + 7) == 2 * Pow2(n + 6);
    assert Pow2(n + 6) == 2 * Pow2(n + 5);
    assert Pow2(n + 5) == 2 * Pow2(n + 4);
    assert Pow2(n + 4) == 2 * Pow2(n + 3);
    assert Pow2(n + 3) == 2 * Pow2(n + 2);
    assert Pow2(n + 2) == 2 * Pow2(n + 1);
  }

  // ---- The code ----

  /** Seven bits a byte, low bits first, the high bit on all but the last. */
  function Groups(n: nat): (r: bytes)
    ensures r != []
  {
    if n < 128 then [n] else [128 + n % 128] + Groups(n / 128)
  }

  /** The first byte carries the kind and four bits of the size. */
  function Header(kind: nat, size: nat): (r: bytes)
    requires kind < 8
  {
    if size < 16 then [16 * kind + size] else [128 + 16 * kind + size % 16] + Groups(size / 16)
  }

  datatype Groupings = Groupings(value: nat, used: nat)

  /** A group with others after it. */
  function Followed(low: nat, more: Option<Groupings>): Option<Groupings> {
    if more == None then None else Some(Groupings(low + 128 * more.value.value, 1 + more.value.used))
  }

  function ReadGroups(s: bytes): (r: Option<Groupings>)
    ensures r.Some? ==> 0 < r.value.used <= |s|
  {
    if s == [] then None
    else if s[0] < 128 then Some(Groupings(s[0], 1))
    else Followed(s[0] - 128, ReadGroups(s[1..]))
  }

  /** A header read off the front of `s`, with the bytes it took. */
  datatype Sized = Sized(kind: nat, size: nat, used: nat)

  function ReadHeader(s: bytes): (r: Option<Sized>)
    ensures r.Some? ==> 0 < r.value.used <= |s| && r.value.kind < 8
  {
    if s == [] then None
    else
      var kind := s[0] % 128 / 16;
      if s[0] < 128 then Some(Sized(kind, s[0] % 16, 1))
      else
        var g := ReadGroups(s[1..]);
        if g == None then None else Some(Sized(kind, s[0] % 16 + 16 * g.value.value, 1 + g.value.used))
  }

  // ---- Round trip ----

  lemma {:induction false} GroupsRoundTrip(n: nat, rest: bytes)
    ensures ReadGroups(Groups(n) + rest) == Some(Groupings(n, |Groups(n)|))
  {
    var s := Groups(n) + rest;
    if n >= 128 {
      GroupsRoundTrip(n / 128, rest);
      assert s[1..] == Groups(n / 128) + rest;
    }
  }

  /** Whatever follows it, an encoded header reads back as its kind and size and stops at its own end. */
  lemma HeaderRoundTrip(kind: nat, size: nat, rest: bytes)
    requires kind < 8
    ensures ReadHeader(Header(kind, size) + rest) == Some(Sized(kind, size, |Header(kind, size)|))
  {
    FirstByte(kind, size % 16);
    if size >= 16 {
      GroupsRoundTrip(size / 16, rest);
      LongReads(128 + 16 * kind + size % 16, Groups(size / 16) + rest);
      assert Header(kind, size) + rest == [128 + 16 * kind + size % 16] + (Groups(size / 16) + rest);
    }
  }

  lemma LongReads(b: byte, tail: bytes)
    requires b >= 128 && ReadGroups(tail).Some?
    ensures var g := ReadGroups(tail).value;
      ReadHeader([b] + tail) == Some(Sized(b % 128 / 16, b % 16 + 16 * g.value, 1 + g.used))
  {
    assert ([b] + tail)[1..] == tail;
  }

  lemma FirstByte(kind: nat, low: nat)
    requires kind < 8 && low < 16
    ensures var b := 16 * kind + low; b < 128 && b % 16 == low && b % 128 / 16 == kind
    ensures var b := 128 + 16 * kind + low; b % 16 == low && b % 128 / 16 == kind
  {
  }

  // ---- Encoders ----

  /** The groups still to write. */
  function Tail(left: nat): bytes {
    if left > 0 then Groups(left) else []
  }

  /** The next byte to write, flagged when more follow. */
  function NextByte(left: nat): byte {
    if left / 128 > 0 then left % 128 + 128 else left % 128
  }

  lemma TailStep(left: nat)
    requires left > 0
    ensures Tail(left) == [NextByte(left)] + Tail(left / 128)
  {
  }

  /** The loop that flags a byte by looking at what is left. */
  method EncodeLookingAhead(kind: nat, size: nat) returns (packed: bytes)
    requires kind < 8
    ensures packed == Header(kind, size)
  {
    var left: nat := size / 16;
    var first := 16 * kind + size % 16;
    packed := [if left > 0 then first + 128 else first];
    assert packed + Tail(left) == Header(kind, size);
    while left > 0
      invariant packed + Tail(left) == Header(kind, size)
    {
      TailStep(left);
      assert packed + Tail(left) == packed + [NextByte(left)] + Tail(left / 128);
      packed := packed + [NextByte(left)];
      left := left / 128;
    }
  }

  /** The bytes still to write when `byte` is held back. */
  function Pending(byte: nat, left: nat): bytes
    requires byte < 128
  {
    if left > 0 then [byte + 128] + Groups(left) else [byte]
  }

  lemma PendingStep(byte: nat, left: nat)
    requires byte < 128 && left > 0
    ensures Pending(byte, left) == [byte + 128] + Pending(left % 128, left / 128)
  {
  }

  /** What is written and what is pending make up `whole`. */
  ghost predicate IsHolding(whole: bytes, data: bytes, byte: nat, left: nat) {
    byte < 128 && data + Pending(byte, left) == whole
  }

  lemma HoldingStep(whole: bytes, data: bytes, byte: nat, left: nat)
    requires IsHolding(whole, data, byte, left) && left > 0
    ensures IsHolding(whole, data + [byte + 128], left % 128, left / 128)
  {
    PendingStep(byte, left);
    assert data + [byte + 128] + Pending(left % 128, left / 128) == data + ([byte + 128] + Pending(left % 128, left / 128));
  }

  /** The loop that holds a byte back until it knows whether another follows. */
  method EncodeHoldingBack(kind: nat, size: nat) returns (data: bytes)
    requires kind < 8
    ensures data == Header(kind, size)
  {
    data := [];
    var byte: nat := 16 * kind + size % 16;
    var left: nat := size / 16;
    assert [] + Pending(byte, left) == Header(kind, size);
    while left > 0
      invariant IsHolding(Header(kind, size), data, byte, left)
    {
      HoldingStep(Header(kind, size), data, byte, left);
      data := data + [byte + 128];
      byte := left % 128;
      left := left / 128;
    }
    data := data + [byte];
  }

  // ---- Decoders ----

  /** The nine continuation bytes both bounded decoders stop at. */
  const MOST := 9

  /** What the bounded decoders accept: a header of at most ten bytes. */
  function ReadBounded(s: bytes): (r: Option<Sized>) {
    var r := ReadHeader(s);
    if r.Some? && r.value.used <= 1 + MOST then r else None
  }

  /** Seven bits of a byte, shifted into place. */
  function Shifted(b: byte, shift: nat): (r: nat) {
    b % 128 * Pow2(shift)
  }

  /** The groups still to come complete what was read. */
  ghost predicate Completes(whole: Option<Sized>, kind: nat, size: nat, scale: nat, at: nat, g: Option<Groupings>) {
    whole == if g == None then None else Some(Sized(kind, size + scale * g.value.value, at + g.value.used))
  }

  /** How far along a decoding loop is. */
  ghost predicate IsHalfRead(s: bytes, at: nat, byte: int, size: nat, shift: nat) {
    && 1 <= at <= |s|
    && 0 <= byte < 256
    && shift == 4 + 7 * (at - 1)
    && (byte < 128 ==> ReadHeader(s) == Some(Sized(s[0] % 128 / 16, size, at)))
    && (byte >= 128 ==> Completes(ReadHeader(s), s[0] % 128 / 16, size, Pow2(shift), at, ReadGroups(s[at..])))
  }

  lemma StartHalfRead(s: bytes)
    requires s != []
    ensures IsHalfRead(s, 1, s[0], s[0] % 16, 4)
  {
    assert Pow2(4) == 16 by { assert Pow2(4) == 2 * Pow2(3) && Pow2(3) == 2 * Pow2(2); }
  }

  lemma ScaledSum(size: nat, scale: nat, low: nat, high: nat)
    ensures size + scale * (low + 128 * high) == size + low * scale + 128 * scale * high
  {
    assert scale * (low + 128 * high) == scale * low + scale * (128 * high);
    assert scale * (128 * high) == 128 * scale * high;
  }

  lemma CompletesLast(whole: Option<Sized>, kind: nat, size: nat, scale: nat, at: nat, b: nat)
    requires Completes(whole, kind, size, scale, at, Some(Groupings(b, 1)))
    ensures whole == Some(Sized(kind, size + b * scale, at + 1))
  {
  }

  lemma CompletesMore(whole: Option<Sized>, kind: nat, size: nat, scale: nat, at: nat, low: nat, g: Option<Groupings>)
    requires Completes(whole, kind, size, scale, at, Followed(low, g))
    ensures Completes(whole, kind, size + low * scale, 128 * scale, at + 1, g)
  {
    if g.Some? { ScaledSum(size, scale, low, g.value.value); }
  }

  lemma ShiftedMore(whole: Option<Sized>, kind: nat, size: nat, shift: nat, at: nat, b: byte, g: Option<Groupings>)
    requires b >= 128 && Completes(whole, kind, size, Pow2(shift), at, Followed(b - 128, g))
    ensures Completes(whole, kind, size + Shifted(b, shift), Pow2(shift + 7), at + 1, g)
  {
    Pow2Seven(shift);
    var low: nat := b - 128;
    assert b % 128 == low;
    CompletesMore(whole, kind, size, Pow2(shift), at, low, g);
  }

  lemma LastHalfRead(s: bytes, at: nat, byte: int, size: nat, shift: nat)
    requires IsHalfRead(s, at, byte, size, shift) && byte >= 128 && at < |s| && s[at] < 128
    ensures IsHalfRead(s, at + 1, s[at], size + Shifted(s[at], shift), shift + 7)
  {
    GroupsFrom(s, at);
    CompletesLast(ReadHeader(s), s[0] % 128 / 16, size, Pow2(shift), at, s[at]);
  }

  lemma MoreHalfRead(s: bytes, at: nat, byte: int, size: nat, shift: nat)
    requires IsHalfRead(s, at, byte, size, shift) && byte >= 128 && at < |s| && s[at] >= 128
    ensures IsHalfRead(s, at + 1, s[at], size + Shifted(s[at], shift), shift + 7)
  {
    GroupsFrom(s, at);
    ShiftedMore(ReadHeader(s), s[0] % 128 / 16, size, shift, at, s[at], ReadGroups(s[at + 1..]));
  }

  lemma NextHalfRead(s: bytes, at: nat, byte: int, size: nat, shift: nat)
    requires IsHalfRead(s, at, byte, size, shift) && byte >= 128 && at < |s|
    ensures IsHalfRead(s, at + 1, s[at], size + Shifted(s[at], shift), shift + 7)
  {
    if s[at] < 128 {
      LastHalfRead(s, at, byte, size, shift);
    } else {
      MoreHalfRead(s, at, byte, size, shift);
    }
  }

  lemma GroupsFrom(s: bytes, at: nat)
    requires at < |s|
    ensures ReadGroups(s[at..]) ==
      if s[at] < 128 then Some(Groupings(s[at], 1))
      else Followed(s[at] - 128, ReadGroups(s[at + 1..]))
  {
    assert s[at..][1..] == s[at + 1..];
  }

  lemma EndHalfRead(s: bytes, byte: int, size: nat, shift: nat)
    requires IsHalfRead(s, |s|, byte, size, shift) && byte >= 128
    ensures ReadHeader(s) == None
  {
  }

  /** The decoder that checks the shift before each read. Joining disjoint bits is adding them. */
  method DecodeBelow64(s: bytes) returns (r: Option<Sized>)
    ensures r == ReadBounded(s)
  {
    if s == [] { return None; }
    var at: nat, byte: int, size: nat, shift: nat := 1, s[0], s[0] % 16, 4;
    StartHalfRead(s);
    while byte >= 128
      invariant IsHalfRead(s, at, byte, size, shift) && at <= 1 + MOST
      decreases |s| - at, byte >= 128
    {
      if at == |s| {
        EndHalfRead(s, byte, size, shift);
        return None;
      }
      if shift >= 64 { return None; }
      NextHalfRead(s, at, byte, size, shift);
      byte, size, shift, at := s[at], size + Shifted(s[at], shift), shift + 7, at + 1;
    }
    r := Some(Sized(s[0] % 128 / 16, size, at));
  }

  /** The decoder that checks the shift after each read. */
  method DecodeAtMost67(s: bytes) returns (r: Option<Sized>)
    ensures r == ReadBounded(s)
  {
    if s == [] { return None; }
    var at: nat, byte: int, size: nat, shift: nat := 1, s[0], s[0] % 16, 4;
    StartHalfRead(s);
    while byte >= 128
      invariant IsHalfRead(s, at, byte, size, shift) && at <= 1 + MOST
      decreases |s| - at, byte >= 128
    {
      if at == |s| {
        EndHalfRead(s, byte, size, shift);
        return None;
      }
      NextHalfRead(s, at, byte, size, shift);
      byte, size, shift, at := s[at], size + Shifted(s[at], shift), shift + 7, at + 1;
      if shift > 67 { return None; }
    }
    r := Some(Sized(s[0] % 128 / 16, size, at));
  }

  /** The decoder without a bound. */
  method DecodeUnbounded(s: bytes) returns (r: Option<Sized>)
    ensures r == ReadHeader(s)
  {
    if s == [] { return None; }
    var at: nat, byte: int, size: nat, shift: nat := 1, s[0], s[0] % 16, 4;
    StartHalfRead(s);
    while byte >= 128
      invariant IsHalfRead(s, at, byte, size, shift)
      decreases |s| - at, byte >= 128
    {
      if at == |s| {
        EndHalfRead(s, byte, size, shift);
        return None;
      }
      NextHalfRead(s, at, byte, size, shift);
      byte, size, shift, at := s[at], size + Shifted(s[at], shift), shift + 7, at + 1;
    }
    r := Some(Sized(s[0] % 128 / 16, size, at));
  }

  // ---- Exactly which sizes the bound admits ----

  lemma {:induction false} GroupsLength(n: nat, k: nat)
    requires k > 0
    ensures |Groups(n)| <= k <==> n < Pow2(7 * k)
  {
    Pow2Seven(7 * k - 7);
    if k == 1 {
      assert Pow2(0) == 1;
    } else if n >= 128 {
      GroupsLength(n / 128, k - 1);
      assert 7 * (k - 1) == 7 * k - 7;
    } else {
      assert Pow2(7 * k - 7) >= 1;
    }
  }

  /** The bounded decoders invert the encoder exactly on sizes below 2 to the 67. */
  lemma BoundIsTwoToThe67(kind: nat, size: nat, rest: bytes)
    requires kind < 8
    ensures ReadBounded(Header(kind, size) + rest) ==
            if size < Pow2(67) then Some(Sized(kind, size, |Header(kind, size)|)) else None
  {
    HeaderRoundTrip(kind, size, rest);
    assert Pow2(67) == 16 * Pow2(63) by {
      assert Pow2(67) == 2 * Pow2(66) && Pow2(66) == 2 * Pow2(65) && Pow2(65) == 2 * Pow2(64);
    }
    if size >= 16 { GroupsLength(size / 16, MOST); }
  }
}
