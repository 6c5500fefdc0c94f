/**
 * Tree objects: rows of mode, name and identity in Git's order
 * (scripts/e2e/merge_preparation_smoke.py:33-37 writes them,
 * initial_commit_smoke.py:57-71 reads them).
 */
module TreeCodec {
  import opened Bytes
  import opened Order
  import opened Sorting

  /** A row to write: the mode as a number, the name, and the raw identity. */
  datatype Row = Row(mode: nat, name: bytes, id: bytes)

  /** A row as read: the mode as text. */
  datatype Line = Line(mode: bytes, name: bytes, id: bytes)

  const DIRECTORY := 0x4000

  const FORTY: bytes := Ascii("40000")

  function Octal(n: nat): (r: bytes)
    ensures r != []
    ensures forall i :: 0 <= i < |r| ==> 48 <= r[i] < 56
  {
    if n < 8 then [48 + n] else Octal(n / 8) + [48 + n % 8]
  }

  lemma {:induction false} OctalInjective(a: nat, b: nat)
    requires Octal(a) == Octal(b)
    ensures a == b
    decreases a
  {
    var x, y := Octal(a), Octal(b);
    assert x[|x| - 1] == y[|y| - 1];
    if a >= 8 && b >= 8 {
      assert x[..|x| - 1] == Octal(a / 8) && y[..|y| - 1] == Octal(b / 8);
      OctalInjective(a / 8, b / 8);
    }
  }

  lemma DirectoryIsForty()
    ensures Octal(DIRECTORY) == FORTY
  {
    assert Octal(4) == [52];
    assert Octal(32) == [52, 48];
    assert Octal(256) == [52, 48, 48];
    assert Octal(2048) == [52, 48, 48, 48];
    assert Octal(16384) == [52, 48, 48, 48, 48];
  }

  function LineOf(r: Row): Line {
    Line(Octal(r.mode), r.name, r.id)
  }

  // ---- Order ----

  /** The sort key: directories end in a slash, everything else in NUL. */
  function Key(name: bytes, directory: bool): bytes {
    name + (if directory then [47] else [0])
  }

  function RowKey(r: Row): bytes {
    Key(r.name, r.mode == DIRECTORY)
  }

  function LineKey(l: Line): bytes {
    Key(l.name, l.mode == FORTY)
  }

  /** A name read with its slash when it is a directory. */
  function Spoken(name: bytes, directory: bool): bytes {
    if directory then name + [47] else name
  }

  ghost predicate IsName(name: bytes) {
    0 !in name && 47 !in name
  }

  lemma LexPrefix(a: byte, s: bytes, t: bytes)
    ensures LexLess([a] + s, [a] + t) <==> LexLess(s, t)
  {
    assert ([a] + s)[1..] == s && ([a] + t)[1..] == t;
  }

  /** Ordering by key is ordering names with directories read as ending in a slash. */
  lemma {:induction false} KeyOrderIsSpoken(a: bytes, da: bool, b: bytes, db: bool)
    requires IsName(a) && IsName(b)
    ensures LexLess(Key(a, da), Key(b, db)) <==> LexLess(Spoken(a, da), Spoken(b, db))
    decreases |a|
  {
    if a != [] && b != [] && a[0] == b[0] {
      KeyOrderIsSpoken(a[1..], da, b[1..], db);
      assert Key(a, da) == [a[0]] + Key(a[1..], da) && Key(b, db) == [a[0]] + Key(b[1..], db);
      assert Spoken(a, da) == [a[0]] + Spoken(a[1..], da) && Spoken(b, db) == [a[0]] + Spoken(b[1..], db);
      LexPrefix(a[0], Key(a[1..], da), Key(b[1..], db));
      LexPrefix(a[0], Spoken(a[1..], da), Spoken(b[1..], db));
    } else {
      KeyOrderAtEnd(a, da, b, db);
    }
  }

  lemma KeyOrderAtEnd(a: bytes, da: bool, b: bytes, db: bool)
    requires IsName(a) && IsName(b) && (a == [] || b == [] || a[0] != b[0])
    ensures LexLess(Key(a, da), Key(b, db)) <==> LexLess(Spoken(a, da), Spoken(b, db))
  {
    assert a != [] ==> a[0] in a;
    assert b != [] ==> b[0] in b;
    var x, y := Key(a, da), Key(b, db);
    assert x[0] == (if a == [] then (if da then 47 else 0) else a[0]);
    assert y[0] == (if b == [] then (if db then 47 else 0) else b[0]);
    if a == [] && b == [] {
      assert x[1..] == [] && y[1..] == [];
    }
  }

  /** Distinct names give distinct keys; equal names collide only within files or within directories. */
  lemma KeysDiffer(a: bytes, da: bool, b: bytes, db: bool)
    requires IsName(a) && IsName(b)
    ensures Key(a, da) == Key(b, db) <==> a == b && da == db
  {
    var x, y := Key(a, da), Key(b, db);
    if x == y {
      assert x[|x| - 1] == y[|y| - 1];
      assert a == x[..|x| - 1] && b == y[..|y| - 1];
    }
  }

  // ---- Writing ----

  predicate KeyLess(a: Row, b: Row) {
    LexLess(RowKey(a), RowKey(b))
  }

  function Sorted(rs: seq<Row>): seq<Row> {
    Sort(KeyLess, rs)
  }

  function RowBytes(r: Row): bytes {
    Octal(r.mode) + [32] + r.name + [0] + r.id
  }

  function RowsBytes(rs: seq<Row>): bytes {
    if rs == [] then [] else RowBytes(rs[0]) + RowsBytes(rs[1..])
  }

  predicate HaveDistinctNames(rs: seq<Row>) {
    forall i, j :: 0 <= i < j < |rs| ==> rs[i].name != rs[j].name
  }

  /** The tree object of some rows, refused when a name repeats. */
  function Tree(rs: seq<Row>): Option<bytes> {
    if HaveDistinctNames(rs) then Some(RowsBytes(Sorted(rs))) else None
  }

  /** Keys rise strictly from row to row. */
  ghost predicate IsRising(rs: seq<Row>) {
    forall i :: 0 <= i < |rs| - 1 ==> LexLess(RowKey(rs[i]), RowKey(rs[i + 1]))
  }

  ghost predicate AreNames(rs: seq<Row>) {
    forall i :: 0 <= i < |rs| ==> IsName(rs[i].name)
  }

  lemma KeysAreOrdered(rs: seq<Row>)
    requires HaveDistinctNames(rs) && AreNames(rs)
    ensures IsStrict(KeyLess) && AreApart(KeyLess, rs)
  {
    LexIsTotalOrder();
    forall i, j | 0 <= i < j < |rs| ensures RowKey(rs[i]) != RowKey(rs[j])
    {
      KeysDiffer(rs[i].name, rs[i].mode == DIRECTORY, rs[j].name, rs[j].mode == DIRECTORY);
    }
  }

  lemma SortedRises(rs: seq<Row>)
    requires HaveDistinctNames(rs) && AreNames(rs)
    ensures IsRising(Sorted(rs))
  {
    KeysAreOrdered(rs);
    SortAscends(KeyLess, rs);
    var sorted := Sorted(rs);
    forall i | 0 <= i < |sorted| - 1 ensures LexLess(RowKey(sorted[i]), RowKey(sorted[i + 1]))
    {
      assert KeyLess(sorted[i], sorted[i + 1]);
    }
  }

  // ---- Reading ----

  datatype Read = Read(line: Line, used: nat)

  /** One row: mode to the first space, name to the first NUL, then the identity. */
  function ReadLine(s: bytes, width: nat): (r: Option<Read>)
    ensures r.Some? ==> 0 < r.value.used <= |s|
  {
    var end := Find(s, 0);
    if end == |s| || |s| < end + 1 + width then None
    else
      var space := Find(s[..end], 32);
      if space == end then None
      else Some(Read(Line(s[..space], s[space + 1..end], s[end + 1..end + 1 + width]), end + 1 + width))
  }

  function ParseTree(s: bytes, width: nat): Option<seq<Line>>
    decreases |s|
  {
    if s == [] then Some([])
    else
      var one := ReadLine(s, width);
      if one == None then None
      else
        var rest := ParseTree(s[one.value.used..], width);
        if rest == None then None else Some([one.value.line] + rest.value)
  }

  /** The walker's check on a tree: keys in order, none twice. */
  predicate IsInOrder(ls: seq<Line>) {
    forall i :: 0 <= i < |ls| - 1 ==> LexLess(LineKey(ls[i]), LineKey(ls[i + 1]))
  }

  lemma LineRoundTrip(r: Row, rest: bytes)
    requires 0 !in r.name
    ensures ReadLine(RowBytes(r) + rest, |r.id|) == Some(Read(LineOf(r), |RowBytes(r)|))
  {
    var mode := Octal(r.mode);
    var front := mode + [32] + r.name;
    var s := RowBytes(r) + rest;
    assert 0 !in front;
    assert s == front + [0] + (r.id + rest);
    FindAfter(front, 0, r.id + rest);
    assert s[..|front|] == front;
    assert 32 !in mode;
    FindAfter(mode, 32, r.name);
    assert front[..|mode|] == mode && front[|mode| + 1..] == r.name;
    assert s[|front| + 1..|front| + 1 + |r.id|] == r.id;
    assert s[..|mode|] == mode && s[|mode| + 1..|front|] == r.name;
  }

  function LinesOf(rs: seq<Row>): seq<Line> {
    seq(|rs|, i requires 0 <= i < |rs| => LineOf(rs[i]))
  }

  ghost predicate IsParsedAs(s: bytes, width: nat, ls: seq<Line>) {
    ParseTree(s, width) == Some(ls)
  }

  lemma ParseStep(s: bytes, width: nat, one: Read, rest: bytes, ls: seq<Line>)
    requires ReadLine(s, width) == Some(one) && s[one.used..] == rest && IsParsedAs(rest, width, ls)
    ensures IsParsedAs(s, width, [one.line] + ls)
  {
  }

  lemma RowsSplit(rs: seq<Row>)
    requires rs != []
    ensures RowsBytes(rs) == RowBytes(rs[0]) + RowsBytes(rs[1..])
    ensures LinesOf(rs) == [LineOf(rs[0])] + LinesOf(rs[1..])
  {
  }

  lemma DropFront(a: bytes, b: bytes)
    ensures (a + b)[|a|..] == b
  {
  }

  lemma ParseCons(rs: seq<Row>, width: nat)
    requires rs != [] && 0 !in rs[0].name && |rs[0].id| == width
    requires IsParsedAs(RowsBytes(rs[1..]), width, LinesOf(rs[1..]))
    ensures IsParsedAs(RowsBytes(rs), width, LinesOf(rs))
  {
    RowsSplit(rs);
    DropFront(RowBytes(rs[0]), RowsBytes(rs[1..]));
    LineRoundTrip(rs[0], RowsBytes(rs[1..]));
    ParseStep(RowsBytes(rs), width, Read(LineOf(rs[0]), |RowBytes(rs[0])|), RowsBytes(rs[1..]), LinesOf(rs[1..]));
  }

  lemma {:induction false} ParseRows(rs: seq<Row>, width: nat)
    requires forall i :: 0 <= i < |rs| ==> 0 !in rs[i].name && |rs[i].id| == width
    ensures IsParsedAs(RowsBytes(rs), width, LinesOf(rs))
  {
    if rs == [] {
      assert LinesOf(rs) == [];
    } else {
      ParseRows(rs[1..], width);
      ParseCons(rs, width);
    }
  }

  lemma LineKeyIsRowKey(r: Row)
    ensures LineKey(LineOf(r)) == RowKey(r)
  {
    DirectoryIsForty();
    if Octal(r.mode) == FORTY { OctalInjective(r.mode, DIRECTORY); }
  }

  lemma RisingIsInOrder(rs: seq<Row>)
    requires IsRising(rs)
    ensures IsInOrder(LinesOf(rs))
  {
    var ls := LinesOf(rs);
    forall i | 0 <= i < |ls| - 1 ensures LexLess(LineKey(ls[i]), LineKey(ls[i + 1]))
    {
      LineKeyIsRowKey(rs[i]);
      LineKeyIsRowKey(rs[i + 1]);
      assert LexLess(RowKey(rs[i]), RowKey(rs[i + 1]));
    }
  }

  /**
   * A tree written from distinct, slash- and NUL-free names reads back as the
   * same rows, sorted, and passes the walker's order check.
   */
  lemma TreeRoundTrip(rs: seq<Row>, width: nat)
    requires AreNames(rs) && HaveDistinctNames(rs) && forall i :: 0 <= i < |rs| ==> |rs[i].id| == width
    ensures Tree(rs).Some? && ParseTree(Tree(rs).value, width) == Some(LinesOf(Sorted(rs)))
    ensures multiset(Sorted(rs)) == multiset(rs)
    ensures IsInOrder(LinesOf(Sorted(rs)))
  {
    SortKeeps(KeyLess, rs);
    SortedRises(rs);
    RisingIsInOrder(Sorted(rs));
    var sorted := Sorted(rs);
    forall i | 0 <= i < |sorted| ensures 0 !in sorted[i].name && |sorted[i].id| == width
    {
      assert sorted[i] in multiset(rs);
      var j :| 0 <= j < |rs| && rs[j] == sorted[i];
      assert IsName(rs[j].name);
    }
    ParseRows(sorted, width);
  }

  // ---- What the walker's check leaves open ----

  lemma {:induction false} InOrderIsTransitive(ls: seq<Line>, i: nat, j: nat)
    requires IsInOrder(ls) && i < j < |ls|
    ensures LexLess(LineKey(ls[i]), LineKey(ls[j]))
    decreases j - i
  {
    assert LexLess(LineKey(ls[j - 1]), LineKey(ls[j]));
    if i < j - 1 {
      InOrderIsTransitive(ls, i, j - 1);
      LexTransitive(LineKey(ls[i]), LineKey(ls[j - 1]), LineKey(ls[j]));
    }
  }

  /** In an ordered tree a name appears at most twice: once as a file, then once as a directory. */
  lemma TwinsAreFileAndDirectory(ls: seq<Line>, i: nat, j: nat)
    requires IsInOrder(ls) && i < j < |ls| && ls[i].name == ls[j].name
    ensures ls[i].mode != FORTY && ls[j].mode == FORTY
  {
    InOrderIsTransitive(ls, i, j);
    var n := ls[i].name;
    LexSame(n, if ls[i].mode == FORTY then [47] else [0], if ls[j].mode == FORTY then [47] else [0]);
  }

  lemma {:induction false} LexSame(n: bytes, a: bytes, b: bytes)
    ensures LexLess(n + a, n + b) <==> LexLess(a, b)
  {
    if n == [] {
      assert n + a == a && n + b == b;
    } else {
      LexSame(n[1..], a, b);
      assert (n + a)[1..] == n[1..] + a && (n + b)[1..] == n[1..] + b;
    }
  }

  /** Such twins do pass the walker, though the writer refuses them. */
  lemma TwinsPassTheWalker(mode: nat, name: bytes, file: bytes, directory: bytes)
    requires IsName(name) && mode != DIRECTORY
    ensures var rs := [Row(mode, name, file), Row(DIRECTORY, name, directory)];
      IsInOrder(LinesOf(rs)) && Tree(rs) == None
  {
    var rs := [Row(mode, name, file), Row(DIRECTORY, name, directory)];
    LexSame(name, [0], [47]);
    assert RowKey(rs[0]) == name + [0] && RowKey(rs[1]) == name + [47];
    assert IsRising(rs);
    RisingIsInOrder(rs);
    assert rs[0].name == rs[1].name;
  }
}
