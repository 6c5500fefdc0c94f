/** Byte strings and the few Python/Rust string operations the model needs. */
module Bytes {

  type byte = b: int | 0 <= b < 256

  type bytes = seq<byte>

  datatype Option<+T> = None | Some(value: T)

  function CharByte(c: char): byte {
    if c as int < 256 then c as int else 0
  }

  /** The bytes of an ASCII literal. */
  function Ascii(s: string): bytes {
    seq<byte>(|s|, i requires 0 <= i < |s| => CharByte(s[i]))
  }

  /** Concatenation of a list of pieces. */
  function Flatten(pieces: seq<bytes>): (r: bytes)
  {
    if pieces == [] then [] else pieces[0] + Flatten(pieces[1..])
  }

  lemma {:induction false} FlattenAppend(a: seq<bytes>, b: seq<bytes>)
    ensures Flatten(a + b) == Flatten(a) + Flatten(b)
  {
    if a == [] {
      assert a + b == b;
    } else {
      assert (a + b)[0] == a[0] && (a + b)[1..] == a[1..] + b;
      FlattenAppend(a[1..], b);
    }
  }

  /** Index of the first `b` in `s`, or `|s|`. */
  function Find(s: bytes, b: byte): (k: nat)
    ensures k <= |s|
    ensures b !in s[..k]
    ensures k < |s| ==> s[k] == b
  {
    if s == [] || s[0] == b then 0
    else
      var k := Find(s[1..], b) + 1;
      assert s[..k] == [s[0]] + s[1..][..k - 1];
      k
  }

  lemma {:induction false} FindAfter(s: bytes, b: byte, rest: bytes)
    requires b !in s
    ensures Find(s + [b] + rest, b) == |s|
  {
    var t := s + [b] + rest;
    if s == [] {
      assert t[0] == b;
    } else {
      assert t[0] == s[0] && t[1..] == s[1..] + [b] + rest;
      FindAfter(s[1..], b, rest);
    }
  }

  /** `bytes.split(sep)` with an explicit one-byte separator. */
  function Split(s: bytes, sep: byte): (r: seq<bytes>)
    ensures |r| >= 1
    decreases |s|
  {
    var k := Find(s, sep);
    if k == |s| then [s] else [s[..k]] + Split(s[k + 1..], sep)
  }

  /** `sep.join(parts)`. */
  function Join(parts: seq<bytes>, sep: byte): bytes
    requires |parts| >= 1
  {
    if |parts| == 1 then parts[0] else parts[0] + [sep] + Join(parts[1..], sep)
  }

  /** Splitting undoes joining when no part contains the separator. */
  lemma {:induction false} SplitJoin(parts: seq<bytes>, sep: byte)
    requires |parts| >= 1
    requires forall i :: 0 <= i < |parts| ==> sep !in parts[i]
    ensures Split(Join(parts, sep), sep) == parts
  {
    var s := Join(parts, sep);
    var k := Find(s, sep);
    if |parts| == 1 {
    } else {
      var p := parts[0];
      assert s[|p|] == sep && s[..|p|] == p;
      assert k == |p| by {
        assert s[|p|] == sep && s[..|p|] == p;
        assert forall i :: 0 <= i < |p| ==> s[i] == p[i] && p[i] in p;
        assert sep !in s[..k];
        assert forall i :: 0 <= i < k ==> s[i] in s[..k];
      }
      assert s[k + 1..] == Join(parts[1..], sep);
      SplitJoin(parts[1..], sep);
      assert parts == [p] + parts[1..];
    }
  }

  /** ... and joining undoes splitting, for every string. */
  lemma {:induction false} JoinSplit(s: bytes, sep: byte)
    ensures Join(Split(s, sep), sep) == s
    decreases |s|
  {
    var k := Find(s, sep);
    if k < |s| {
      JoinSplit(s[k + 1..], sep);
      assert Split(s, sep)[1..] == Split(s[k + 1..], sep);
      assert s == s[..k] + [sep] + s[k + 1..];
    }
  }

  predicate IsSpace(b: byte) {
    b == 32 || 9 <= b <= 13
  }

  /** `bytes.split()`: maximal runs of non-whitespace. */
  function Words(s: bytes): (r: seq<bytes>)
    decreases |s|
  {
    if s == [] then []
    else if IsSpace(s[0]) then Words(s[1..])
    else
      var k := WordEnd(s);
      [s[..k]] + Words(s[k..])
  }

  function WordEnd(s: bytes): (k: nat)
    ensures k <= |s|
    ensures s != [] && !IsSpace(s[0]) ==> k > 0
    ensures forall i :: 0 <= i < k ==> !IsSpace(s[i])
  {
    if s == [] || IsSpace(s[0]) then 0 else 1 + WordEnd(s[1..])
  }

  /** `bytes.rstrip(b"\n")`. */
  function StripNewlines(s: bytes): (r: bytes)
    ensures r <= s
    ensures r != [] ==> r[|r| - 1] != 10
  {
    if s != [] && s[|s| - 1] == 10 then StripNewlines(s[..|s| - 1]) else s
  }

  predicate IsHex(b: byte) {
    48 <= b <= 57 || 97 <= b <= 102 || 65 <= b <= 70
  }

  function HexDigit(b: byte): (d: nat)
    requires IsHex(b)
    ensures d < 16
  {
    if b <= 57 then b - 48 else if b <= 70 then b - 55 else b - 87
  }

  predicate IsHex4(s: bytes) {
    |s| == 4 && forall i :: 0 <= i < 4 ==> IsHex(s[i])
  }

  /** `int(s, 16)` of a four-digit pkt-line length. */
  function Hex4(s: bytes): (n: nat)
    requires IsHex4(s)
    ensures n < 65536
    ensures n == 0 <==> s == [48, 48, 48, 48]
  {
    ((HexDigit(s[0]) * 16 + HexDigit(s[1])) * 16 + HexDigit(s[2])) * 16 + HexDigit(s[3])
  }

  /** A lower-case hex digit. */
  function HexChar(n: nat): byte
    requires n < 16
  {
    if n < 10 then 48 + n else 87 + n
  }

  /** `int.from_bytes(s, "big")` of four bytes. */
  function BigEndian4(s: bytes): (n: nat)
    requires |s| == 4
    ensures n < 0x1_0000_0000
  {
    ((s[0] as int * 256 + s[1]) * 256 + s[2]) * 256 + s[3]
  }
}
