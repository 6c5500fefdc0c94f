/**
 * Compression as a self-delimiting code: a member is read off the front of its
 * input and says where it ends. Stored blocks (section 3.2.4 of RFC 1951, in
 * the wrapper of section 2.2 of RFC 1950) are one such code.
 */
module Zip {
  import opened Bytes

  /** A complete member at the front of some input: what it expands to and how many bytes it took. */
  datatype Member = Member(body: bytes, used: nat)

  datatype Zip = Zip(compress: bytes -> bytes, inflate: bytes -> Option<Member>)

  ghost predicate ReadsBack(z: Zip, b: bytes, rest: bytes) {
    z.inflate(z.compress(b) + rest) == Some(Member(b, |z.compress(b)|))
  }

  ghost predicate IsSelfDelimiting(z: Zip, s: bytes, rest: bytes)
    requires z.inflate(s).Some? ==> z.inflate(s).value.used <= |s|
  {
    z.inflate(s).Some? ==> z.inflate(s[..z.inflate(s).value.used] + rest) == z.inflate(s)
  }

  /** Compression reads back whatever follows it, and reading looks no further than it takes. */
  ghost predicate IsZip(z: Zip) {
    && (forall b, rest {:trigger ReadsBack(z, b, rest)} :: ReadsBack(z, b, rest))
    && (forall s :: z.inflate(s).Some? ==> 0 < z.inflate(s).value.used <= |s|)
    && (forall s, rest {:trigger IsSelfDelimiting(z, s, rest)} :: IsSelfDelimiting(z, s, rest))
  }

  // ---- Stored blocks ----

  /** The checksum of section 8.2 of RFC 1950, from running sums `a` and `b`. */
  function Adler(s: bytes, a: nat, b: nat): (r: nat)
    requires a < 65521 && b < 65521
    ensures r < 0x1_0000_0000
    decreases |s|
  {
    if s == [] then 65536 * b + a
    else
      var a' := (a + s[0]) % 65521;
      Adler(s[1..], a', (b + a') % 65521)
  }

  function Little2(n: nat): bytes
    requires n < 65536
  {
    [n % 256, n / 256]
  }

  function Word(low: byte, high: byte): nat {
    low as int + 256 * high as int
  }

  const MOST := 65535

  function StoredBlock(last: bool, b: bytes): bytes
    requires |b| <= MOST
  {
    [if last then 1 else 0] + Little2(|b|) + Little2(MOST - |b|) + b
  }

  function StoredBlocks(b: bytes): (r: bytes)
    ensures r != []
    decreases |b|
  {
    if |b| <= MOST then StoredBlock(true, b) else StoredBlock(false, b[..MOST]) + StoredBlocks(b[MOST..])
  }

  /** One stored block off the front: whether it is the last, its bytes, and how many it took. */
  datatype Block = Block(last: bool, body: bytes, used: nat)

  function ReadBlock(s: bytes): (r: Option<Block>)
    ensures r.Some? ==> 5 <= r.value.used <= |s|
  {
    if |s| < 5 || s[0] > 1 then None
    else
      var n := Word(s[1], s[2]);
      if Word(s[3], s[4]) != MOST - n || |s| < 5 + n then None else Some(Block(s[0] == 1, s[5..5 + n], 5 + n))
  }

  function ReadBlocks(s: bytes): (r: Option<Member>)
    ensures r.Some? ==> 5 <= r.value.used <= |s|
    decreases |s|
  {
    var block := ReadBlock(s);
    if block == None then None
    else if block.value.last then Some(Member(block.value.body, block.value.used))
    else
      var more := ReadBlocks(s[block.value.used..]);
      if more == None then None
      else Some(Member(block.value.body + more.value.body, block.value.used + more.value.used))
  }

  lemma BlockRoundTrip(last: bool, b: bytes, rest: bytes)
    requires |b| <= MOST
    ensures ReadBlock(StoredBlock(last, b) + rest) == Some(Block(last, b, |StoredBlock(last, b)|))
  {
    var s := StoredBlock(last, b) + rest;
    assert s[5..5 + |b|] == b;
  }

  lemma ReadBlocksStep(s: bytes, block: Block)
    requires ReadBlock(s) == Some(block) && !block.last && ReadBlocks(s[block.used..]).Some?
    ensures var more := ReadBlocks(s[block.used..]).value;
      ReadBlocks(s) == Some(Member(block.body + more.body, block.used + more.used))
  {
  }

  lemma BlocksStep(b1: bytes, b2: bytes, tail: bytes, rest: bytes)
    requires |b1| <= MOST && ReadBlocks(tail + rest) == Some(Member(b2, |tail|))
    ensures ReadBlocks(StoredBlock(false, b1) + tail + rest) ==
            Some(Member(b1 + b2, |StoredBlock(false, b1)| + |tail|))
  {
    var head := StoredBlock(false, b1);
    BlockRoundTrip(false, b1, tail + rest);
    assert head + tail + rest == head + (tail + rest);
    assert (head + (tail + rest))[|head|..] == tail + rest;
    ReadBlocksStep(head + (tail + rest), Block(false, b1, |head|));
  }

  lemma LastBlock(b: bytes, rest: bytes)
    requires |b| <= MOST
    ensures ReadBlocks(StoredBlock(true, b) + rest) == Some(Member(b, |StoredBlock(true, b)|))
  {
    BlockRoundTrip(true, b, rest);
  }

  ghost predicate IsStored(s: bytes, b: bytes, rest: bytes) {
    ReadBlocks(s + rest) == Some(Member(b, |s|))
  }

  lemma StoredStep(b1: bytes, b2: bytes, tail: bytes, rest: bytes)
    requires |b1| <= MOST && IsStored(tail, b2, rest)
    ensures IsStored(StoredBlock(false, b1) + tail, b1 + b2, rest)
  {
    BlocksStep(b1, b2, tail, rest);
  }

  lemma StoredSplit(b: bytes)
    requires |b| > MOST
    ensures b == b[..MOST] + b[MOST..]
    ensures StoredBlocks(b) == StoredBlock(false, b[..MOST]) + StoredBlocks(b[MOST..])
  {
  }

  lemma {:induction false} BlocksRoundTrip(b: bytes, rest: bytes)
    ensures IsStored(StoredBlocks(b), b, rest)
    decreases |b|
  {
    if |b| <= MOST {
      LastBlock(b, rest);
    } else {
      var b1, b2 := b[..MOST], b[MOST..];
      BlocksRoundTrip(b2, rest);
      StoredStep(b1, b2, StoredBlocks(b2), rest);
      StoredSplit(b);
    }
  }

  /** Reading a block depends on nothing past its end. */
  lemma BlockIsPrefix(s: bytes, t: bytes)
    requires ReadBlock(s).Some? && s[..ReadBlock(s).value.used] <= t
    ensures ReadBlock(t) == ReadBlock(s)
  {
    var k := ReadBlock(s).value.used;
    assert forall i :: 0 <= i < k ==> t[i] == s[..k][i] == s[i];
    assert t[5..k] == s[5..k];
  }

  lemma PrefixStep(s: bytes, t: bytes, block: Block)
    requires ReadBlock(t) == ReadBlock(s) == Some(block)
    requires !block.last ==> ReadBlocks(t[block.used..]) == ReadBlocks(s[block.used..])
    ensures ReadBlocks(t) == ReadBlocks(s)
  {
  }

  lemma {:induction false} BlocksArePrefix(s: bytes, t: bytes)
    requires ReadBlocks(s).Some? && s[..ReadBlocks(s).value.used] <= t
    ensures ReadBlocks(t) == ReadBlocks(s)
    decreases |s|
  {
    var block, used := ReadBlock(s).value, ReadBlocks(s).value.used;
    assert s[..block.used] == s[..used][..block.used] <= t;
    BlockIsPrefix(s, t);
    if !block.last {
      var more := ReadBlocks(s[block.used..]).value;
      assert s[block.used..][..more.used] == s[..used][block.used..];
      assert s[..used][block.used..] <= t[block.used..];
      BlocksArePrefix(s[block.used..], t[block.used..]);
    }
    PrefixStep(s, t, block);
  }

  function Big4(n: nat): bytes
    requires n < 0x1_0000_0000
  {
    [n / 0x100_0000, n / 0x1_0000 % 256, n / 256 % 256, n % 256]
  }

  function Store(b: bytes): bytes {
    [0x78, 0x01] + StoredBlocks(b) + Big4(Adler(b, 1, 0))
  }

  function Unstore(s: bytes): (r: Option<Member>)
    ensures r.Some? ==> 0 < r.value.used <= |s|
  {
    if |s| < 2 || s[..2] != [0x78, 0x01] then None
    else
      var m := ReadBlocks(s[2..]);
      if m == None || |s| < 2 + m.value.used + 4 then None
      else
        var end := 2 + m.value.used;
        if s[end..end + 4] != Big4(Adler(m.value.body, 1, 0)) then None else Some(Member(m.value.body, end + 4))
  }

  const STORED := Zip(Store, Unstore)

  lemma StoreRoundTrip(b: bytes, rest: bytes)
    ensures Unstore(Store(b) + rest) == Some(Member(b, |Store(b)|))
  {
    var blocks, sum := StoredBlocks(b), Big4(Adler(b, 1, 0));
    var s := Store(b) + rest;
    assert s[..2] == [0x78, 0x01];
    assert s[2..] == blocks + (sum + rest);
    BlocksRoundTrip(b, sum + rest);
    assert s[2 + |blocks|..2 + |blocks| + 4] == sum;
  }

  lemma UnstoreIsPrefix(s: bytes, rest: bytes)
    requires Unstore(s).Some?
    ensures Unstore(s[..Unstore(s).value.used] + rest) == Unstore(s)
  {
    var used := Unstore(s).value.used;
    var t := s[..used] + rest;
    var m := ReadBlocks(s[2..]).value;
    assert t[..2] == s[..2];
    assert s[2..][..m.used] <= t[2..];
    BlocksArePrefix(s[2..], t[2..]);
    assert t[2 + m.used..2 + m.used + 4] == s[2 + m.used..2 + m.used + 4];
  }

  /** Stored blocks are such a code. */
  lemma StoredIsZip()
    ensures IsZip(STORED)
  {
    forall b, rest ensures ReadsBack(STORED, b, rest)
    {
      StoreRoundTrip(b, rest);
    }
    forall s, rest ensures IsSelfDelimiting(STORED, s, rest)
    {
      if Unstore(s).Some? { UnstoreIsPrefix(s, rest); }
    }
  }
}
