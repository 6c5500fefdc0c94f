/**
 * Initial bundles: one parentless commit and exactly the objects it reaches
 * (scripts/e2e/initial_commit_smoke.py:17-74).
 */
module InitialBundle {
  import opened Bytes
  import opened PackFile
  import opened TreeCodec
  import Bundle

  /** How a walk reads trees: their rows, the object a row names, the kinds of row, and the order it insists on. */
  datatype Rules = Rules(
    parse: bytes -> Option<seq<Line>>,
    target: Line -> Id,
    isDirectory: bytes -> bool,
    isFile: bytes -> bool,
    isInOrder: seq<Line> -> bool)

  function Git(width: nat): Rules {
    Rules(body => ParseTree(body, width), (row: Line) => Hex(row.id), mode => mode == FORTY,
          mode => mode == Ascii("100644") || mode == Ascii("100755"), IsInOrder)
  }

  datatype Store = Store(objects: map<Id, Entry>, rules: Rules)

  /** The rows of a tree object. */
  function RowsAt(st: Store, id: Id): Option<seq<Line>> {
    if id in st.objects && st.objects[id].kind == 2 then st.rules.parse(st.objects[id].body) else None
  }

  function Target(st: Store, row: Line): Id {
    st.rules.target(row)
  }

  predicate IsDirectory(st: Store, row: Line) {
    st.rules.isDirectory(row.mode)
  }

  // ---- Commits ----

  /** `bytes.splitlines()`: line feeds, carriage returns, or both together, end a line. */
  function SplitLines(s: bytes): seq<bytes>
    decreases |s|
  {
    if s == [] then []
    else
      var k := LineEnd(s);
      if k == |s| then [s]
      else
        var next := if s[k] == 13 && k + 1 < |s| && s[k + 1] == 10 then k + 2 else k + 1;
        [s[..k]] + SplitLines(s[next..])
  }

  function LineEnd(s: bytes): (k: nat)
    ensures k <= |s|
  {
    if s == [] || s[0] == 10 || s[0] == 13 then 0 else 1 + LineEnd(s[1..])
  }

  /** The tree a commit names on its first line. */
  function RootTree(body: bytes): Option<Id> {
    if body == [] then None
    else
      var line := SplitLines(body)[0];
      Some(if Ascii("tree ") <= line then line[5..] else line)
  }

  /** Some line starts with the word. */
  predicate HasWord(lines: seq<bytes>, word: bytes) {
    exists i :: 0 <= i < |lines| && word <= lines[i]
  }

  predicate HasParent(body: bytes) {
    var k := Bundle.FindBlank(body);
    HasWord(SplitLines(if k.Some? then body[..k.value] else body), Ascii("parent "))
  }

  // ---- Reachability ----

  /** One object names another: a commit its tree, a tree the target of a row. */
  ghost predicate IsBond(st: Store, a: Id, b: Id) {
    a in st.objects &&
    if st.objects[a].kind == 1 then RootTree(st.objects[a].body) == Some(b)
    else
      var rows := RowsAt(st, a);
      rows.Some? && exists i :: 0 <= i < |rows.value| && Target(st, rows.value[i]) == b
  }

  ghost predicate IsChain(st: Store, p: seq<Id>) {
    p != [] && forall i :: 0 <= i < |p| - 1 ==> IsBond(st, p[i], p[i + 1])
  }

  ghost predicate IsReached(st: Store, from: Id, to: Id) {
    exists p :: IsChain(st, p) && p[0] == from && p[|p| - 1] == to
  }

  lemma ReachedSelf(st: Store, id: Id)
    ensures IsReached(st, id, id)
  {
    assert IsChain(st, [id]) && [id][|[id]| - 1] == id;
  }

  lemma ReachedVia(st: Store, a: Id, b: Id, x: Id)
    requires IsBond(st, a, b) && IsReached(st, b, x)
    ensures IsReached(st, a, x)
  {
    var p :| IsChain(st, p) && p[0] == b && p[|p| - 1] == x;
    var q := [a] + p;
    forall i | 0 <= i < |q| - 1 ensures IsBond(st, q[i], q[i + 1])
    {
      if i > 0 { assert q[i] == p[i - 1] && q[i + 1] == p[i]; }
    }
    assert IsChain(st, q) && q[0] == a && q[|q| - 1] == x;
  }

  lemma ReachedSplit(st: Store, a: Id, x: Id) returns (b: Id)
    requires IsReached(st, a, x) && a != x
    ensures IsBond(st, a, b) && IsReached(st, b, x)
  {
    var p :| IsChain(st, p) && p[0] == a && p[|p| - 1] == x;
    b := p[1];
    var q := p[1..];
    forall i | 0 <= i < |q| - 1 ensures IsBond(st, q[i], q[i + 1]) { assert IsBond(st, p[i + 1], p[i + 2]); }
    assert IsBond(st, p[0], p[1]);
    assert IsChain(st, q) && q[0] == b && q[|q| - 1] == x;
  }

  // ---- The walk ----

  datatype File = File(mode: bytes, body: bytes)

  /** How far a walk got: what it visited and the files it found, or an assertion failed. */
  datatype Tour = Lost | Tour(visited: set<Id>, files: map<bytes, File>)

  /** Subtrees have smaller rank: tree identities cannot form a cycle. */
  ghost predicate IsRanked(st: Store, rank: Id -> nat) {
    forall id, i {:trigger RowsAt(st, id).value[i]} ::
      RowsAt(st, id).Some? && 0 <= i < |RowsAt(st, id).value| && IsDirectory(st, RowsAt(st, id).value[i]) ==>
        rank(Target(st, RowsAt(st, id).value[i])) < rank(id)
  }

  predicate IsBlob(st: Store, id: Id) {
    id in st.objects && st.objects[id].kind == 3
  }

  /** The walk of one tree, from what was seen before it. */
  ghost function Tours(st: Store, rank: Id -> nat, t: Tour, prefix: bytes, id: Id): Tour
    requires IsRanked(st, rank)
    decreases rank(id), 1, 0
  {
    var rows := RowsAt(st, id);
    if t.Lost? || rows == None || !st.rules.isInOrder(rows.value) then Lost
    else ToursRows(st, rank, Tour(t.visited + {id}, t.files), prefix, id, |rows.value|)
  }

  ghost function ToursRows(st: Store, rank: Id -> nat, t: Tour, prefix: bytes, id: Id, n: nat): Tour
    requires IsRanked(st, rank) && RowsAt(st, id).Some? && n <= |RowsAt(st, id).value|
    decreases rank(id), 0, n
  {
    if n == 0 then t
    else
      var before := ToursRows(st, rank, t, prefix, id, n - 1);
      var row := RowsAt(st, id).value[n - 1];
      if IsDirectory(st, row) then Tours(st, rank, before, prefix + row.name + [47], Target(st, row))
      else AfterFile(st, before, prefix, row)
  }

  /** The walk once it has recorded a file row. */
  function AfterFile(st: Store, before: Tour, prefix: bytes, row: Line): Tour {
    if before.Lost? || !st.rules.isFile(row.mode) || !IsBlob(st, Target(st, row)) then Lost
    else
      Tour(before.visited + {Target(st, row)},
           before.files[prefix + row.name := File(row.mode, st.objects[Target(st, row)].body)])
  }

  /** The nested walk, which shares one visited set and one file table across all its calls. */
  class Walker {
    const st: Store
    var visited: set<Id>
    var files: map<bytes, File>

    constructor (st: Store, start: Id)
      ensures this.st == st && visited == {start} && files == map[]
    {
      this.st := st;
      visited, files := {start}, map[];
    }

    method Walk(id: Id, prefix: bytes, ghost rank: Id -> nat) returns (ok: bool)
      requires IsRanked(st, rank)
      modifies this
      ensures Tours(st, rank, Tour(old(visited), old(files)), prefix, id) == if ok then Tour(visited, files) else Lost
      decreases rank(id)
    {
      ghost var t := Tour(visited + {id}, files);
      visited := visited + {id};
      var rows := RowsAt(st, id);
      if rows == None || !st.rules.isInOrder(rows.value) { return false; }
      for i := 0 to |rows.value|
        invariant ToursRows(st, rank, t, prefix, id, i) == Tour(visited, files)
      {
        var row := rows.value[i];
        if IsDirectory(st, row) {
          assert row == RowsAt(st, id).value[i];
          ok := Walk(Target(st, row), prefix + row.name + [47], rank);
          if !ok {
            LostStays(st, rank, t, prefix, id, i + 1, |rows.value|);
            return false;
          }
        } else if st.rules.isFile(row.mode) && IsBlob(st, Target(st, row)) {
          visited := visited + {Target(st, row)};
          files := files[prefix + row.name := File(row.mode, st.objects[Target(st, row)].body)];
        } else {
          LostStays(st, rank, t, prefix, id, i + 1, |rows.value|);
          return false;
        }
      }
      ok := true;
    }
  }

  lemma {:induction false} LostStays(st: Store, rank: Id -> nat, t: Tour, prefix: bytes, id: Id, i: nat, n: nat)
    requires IsRanked(st, rank) && RowsAt(st, id).Some? && i <= n <= |RowsAt(st, id).value|
    requires ToursRows(st, rank, t, prefix, id, i).Lost?
    ensures ToursRows(st, rank, t, prefix, id, n).Lost?
    decreases n
  {
    if i < n { LostStays(st, rank, t, prefix, id, i, n - 1); }
  }

  // ---- The walk visits exactly what the tree reaches ----

  ghost predicate IsRowReached(st: Store, id: Id, n: nat, x: Id)
    requires RowsAt(st, id).Some? && n <= |RowsAt(st, id).value|
  {
    exists i :: 0 <= i < n && IsReached(st, Target(st, RowsAt(st, id).value[i]), x)
  }

  lemma BlobReachesItself(st: Store, id: Id, x: Id)
    requires IsBlob(st, id)
    ensures IsReached(st, id, x) <==> x == id
  {
    ReachedSelf(st, id);
    if IsReached(st, id, x) && id != x {
      var b := ReachedSplit(st, id, x);
    }
  }

  lemma TreeReaches(st: Store, id: Id, x: Id)
    requires RowsAt(st, id).Some?
    ensures IsReached(st, id, x) <==> x == id || IsRowReached(st, id, |RowsAt(st, id).value|, x)
  {
    var rows := RowsAt(st, id).value;
    ReachedSelf(st, id);
    if IsReached(st, id, x) && id != x {
      var b := ReachedSplit(st, id, x);
      var i :| 0 <= i < |rows| && Target(st, rows[i]) == b;
    }
    if IsRowReached(st, id, |rows|, x) {
      var i :| 0 <= i < |rows| && IsReached(st, Target(st, rows[i]), x);
      assert IsBond(st, id, Target(st, rows[i]));
      ReachedVia(st, id, Target(st, rows[i]), x);
    }
  }

  lemma MoreRows(st: Store, id: Id, n: nat, x: Id)
    requires RowsAt(st, id).Some? && 0 < n <= |RowsAt(st, id).value|
    ensures IsRowReached(st, id, n, x) <==>
            IsRowReached(st, id, n - 1, x) || IsReached(st, Target(st, RowsAt(st, id).value[n - 1]), x)
  {
  }

  /** `after` is `before` and what the first `n` rows reach, as far as `x` goes. */
  ghost predicate IsSeen(st: Store, id: Id, n: nat, x: Id, before: set<Id>, after: set<Id>)
    requires RowsAt(st, id).Some? && n <= |RowsAt(st, id).value|
  {
    x in after <==> x in before || IsRowReached(st, id, n, x)
  }

  lemma SeenMore(st: Store, id: Id, i: nat, x: Id, before: set<Id>, mid: set<Id>, after: set<Id>)
    requires RowsAt(st, id).Some? && i < |RowsAt(st, id).value| && IsSeen(st, id, i, x, before, mid)
    requires x in after <==> x in mid || IsReached(st, Target(st, RowsAt(st, id).value[i]), x)
    ensures IsSeen(st, id, i + 1, x, before, after)
  {
    MoreRows(st, id, i + 1, x);
  }

  lemma {:induction false} TourSees(st: Store, rank: Id -> nat, t: Tour, prefix: bytes, id: Id, x: Id)
    requires IsRanked(st, rank) && Tours(st, rank, t, prefix, id).Tour?
    ensures t.Tour?
    ensures x in Tours(st, rank, t, prefix, id).visited <==> x in t.visited || IsReached(st, id, x)
    decreases rank(id), 1, 0
  {
    RowsSee(st, rank, Tour(t.visited + {id}, t.files), prefix, id, |RowsAt(st, id).value|, x);
    TreeReaches(st, id, x);
  }

  lemma {:induction false} RowsSee(st: Store, rank: Id -> nat, t: Tour, prefix: bytes, id: Id, n: nat, x: Id)
    requires IsRanked(st, rank) && RowsAt(st, id).Some? && n <= |RowsAt(st, id).value|
    requires ToursRows(st, rank, t, prefix, id, n).Tour?
    ensures t.Tour? && IsSeen(st, id, n, x, t.visited, ToursRows(st, rank, t, prefix, id, n).visited)
    decreases rank(id), 0, n
  {
    if n > 0 {
      var before := ToursRows(st, rank, t, prefix, id, n - 1);
      RowSees(st, rank, t, prefix, id, n - 1, x);
      RowsSee(st, rank, t, prefix, id, n - 1, x);
      SeenMore(st, id, n - 1, x, t.visited, before.visited, ToursRows(st, rank, t, prefix, id, n).visited);
    }
  }

  /** Row `i` adds exactly what it reaches. */
  lemma {:induction false} RowSees(st: Store, rank: Id -> nat, t: Tour, prefix: bytes, id: Id, i: nat, x: Id)
    requires IsRanked(st, rank) && RowsAt(st, id).Some? && i < |RowsAt(st, id).value|
    requires ToursRows(st, rank, t, prefix, id, i + 1).Tour?
    ensures ToursRows(st, rank, t, prefix, id, i).Tour?
    ensures x in ToursRows(st, rank, t, prefix, id, i + 1).visited <==>
            x in ToursRows(st, rank, t, prefix, id, i).visited || IsReached(st, Target(st, RowsAt(st, id).value[i]), x)
    decreases rank(id), 0, i
  {
    var row := RowsAt(st, id).value[i];
    if IsDirectory(st, row) {
      TourSees(st, rank, ToursRows(st, rank, t, prefix, id, i), prefix + row.name + [47], Target(st, row), x);
    } else {
      BlobReachesItself(st, Target(st, row), x);
    }
  }

  // ---- The walk records exactly the files below the tree ----

  /** Row `i` of the tree `id` holds the file `f` at `path`, or leads to it. */
  ghost predicate IsFileOn(st: Store, rank: Id -> nat, prefix: bytes, id: Id, i: nat, path: bytes, f: File)
    requires IsRanked(st, rank) && RowsAt(st, id).Some? && i < |RowsAt(st, id).value|
    decreases rank(id), 0
  {
    var row := RowsAt(st, id).value[i];
    if IsDirectory(st, row) then
      RowsAt(st, Target(st, row)).Some? &&
      IsFileBelow(st, rank, prefix + row.name + [47], Target(st, row), |RowsAt(st, Target(st, row)).value|, path, f)
    else path == prefix + row.name && IsBlob(st, Target(st, row)) && f == File(row.mode, st.objects[Target(st, row)].body)
  }

  ghost predicate IsFileBelow(st: Store, rank: Id -> nat, prefix: bytes, id: Id, n: nat, path: bytes, f: File)
    requires IsRanked(st, rank) && RowsAt(st, id).Some? && n <= |RowsAt(st, id).value|
    decreases rank(id), 1
  {
    exists i :: 0 <= i < n && IsFileOn(st, rank, prefix, id, i, path, f)
  }

  /** Some file is at `path`: on row `i`, or on one of the first `n` rows. */
  ghost predicate HasFileOn(st: Store, rank: Id -> nat, prefix: bytes, id: Id, i: nat, path: bytes)
    requires IsRanked(st, rank) && RowsAt(st, id).Some? && i < |RowsAt(st, id).value|
  {
    exists f :: IsFileOn(st, rank, prefix, id, i, path, f)
  }

  ghost predicate HasFileBelow(st: Store, rank: Id -> nat, prefix: bytes, id: Id, n: nat, path: bytes)
    requires IsRanked(st, rank) && RowsAt(st, id).Some? && n <= |RowsAt(st, id).value|
  {
    exists f :: IsFileBelow(st, rank, prefix, id, n, path, f)
  }

  /** A path is recorded exactly when it was before or a file is there, and what is recorded is one of them. */
  ghost predicate IsRecorded(st: Store, rank: Id -> nat, prefix: bytes, id: Id, n: nat, path: bytes,
                             before: map<bytes, File>, after: map<bytes, File>)
    requires IsRanked(st, rank) && RowsAt(st, id).Some? && n <= |RowsAt(st, id).value|
  {
    && (path in after <==> path in before || HasFileBelow(st, rank, prefix, id, n, path))
    && (path in after ==>
          (path in before && after[path] == before[path]) || IsFileBelow(st, rank, prefix, id, n, path, after[path]))
  }

  /** The same, for one row. */
  ghost predicate IsRecordedOn(st: Store, rank: Id -> nat, prefix: bytes, id: Id, i: nat, path: bytes,
                               before: map<bytes, File>, after: map<bytes, File>)
    requires IsRanked(st, rank) && RowsAt(st, id).Some? && i < |RowsAt(st, id).value|
  {
    && (path in after <==> path in before || HasFileOn(st, rank, prefix, id, i, path))
    && (path in after ==>
          (path in before && after[path] == before[path]) || IsFileOn(st, rank, prefix, id, i, path, after[path]))
  }

  lemma FileBelowMore(st: Store, rank: Id -> nat, prefix: bytes, id: Id, i: nat, path: bytes, f: File)
    requires IsRanked(st, rank) && RowsAt(st, id).Some? && i < |RowsAt(st, id).value|
    ensures IsFileBelow(st, rank, prefix, id, i + 1, path, f) <==>
            IsFileBelow(st, rank, prefix, id, i, path, f) || IsFileOn(st, rank, prefix, id, i, path, f)
  {
  }

  lemma HasFileBelowMore(st: Store, rank: Id -> nat, prefix: bytes, id: Id, i: nat, path: bytes)
    requires IsRanked(st, rank) && RowsAt(st, id).Some? && i < |RowsAt(st, id).value|
    ensures HasFileBelow(st, rank, prefix, id, i + 1, path) <==>
            HasFileBelow(st, rank, prefix, id, i, path) || HasFileOn(st, rank, prefix, id, i, path)
  {
    var n := i + 1;
    if f :| IsFileBelow(st, rank, prefix, id, n, path, f) { FileBelowMore(st, rank, prefix, id, i, path, f); }
    if f :| IsFileBelow(st, rank, prefix, id, i, path, f) { FileBelowMore(st, rank, prefix, id, i, path, f); }
    if f :| IsFileOn(st, rank, prefix, id, i, path, f) { FileBelowMore(st, rank, prefix, id, i, path, f); }
  }

  lemma RecordedMore(st: Store, rank: Id -> nat, prefix: bytes, id: Id, i: nat, path: bytes,
                     before: map<bytes, File>, mid: map<bytes, File>, after: map<bytes, File>)
    requires IsRanked(st, rank) && RowsAt(st, id).Some? && i < |RowsAt(st, id).value|
    requires IsRecorded(st, rank, prefix, id, i, path, before, mid)
    requires IsRecordedOn(st, rank, prefix, id, i, path, mid, after)
    ensures IsRecorded(st, rank, prefix, id, i + 1, path, before, after)
  {
    HasFileBelowMore(st, rank, prefix, id, i, path);
    if path in after { FileBelowMore(st, rank, prefix, id, i, path, after[path]); }
  }

  /** A row that is a directory records what its tree does. */
  lemma DirectoryRecords(st: Store, rank: Id -> nat, prefix: bytes, id: Id, i: nat, path: bytes,
                         mid: map<bytes, File>, after: map<bytes, File>)
    requires IsRanked(st, rank) && RowsAt(st, id).Some? && i < |RowsAt(st, id).value|
    requires IsDirectory(st, RowsAt(st, id).value[i]) && RowsAt(st, Target(st, RowsAt(st, id).value[i])).Some?
    requires var row := RowsAt(st, id).value[i];
      IsRecorded(st, rank, prefix + row.name + [47], Target(st, row), |RowsAt(st, Target(st, row)).value|, path, mid, after)
    ensures IsRecordedOn(st, rank, prefix, id, i, path, mid, after)
  {
    var row := RowsAt(st, id).value[i];
    forall f ensures IsFileOn(st, rank, prefix, id, i, path, f) <==>
      IsFileBelow(st, rank, prefix + row.name + [47], Target(st, row), |RowsAt(st, Target(st, row)).value|, path, f)
    {
    }
  }

  lemma FileRecords(st: Store, rank: Id -> nat, prefix: bytes, id: Id, i: nat, path: bytes,
                    mid: map<bytes, File>, after: map<bytes, File>)
    requires IsRanked(st, rank) && RowsAt(st, id).Some? && i < |RowsAt(st, id).value|
    requires var row := RowsAt(st, id).value[i];
      !IsDirectory(st, row) && IsBlob(st, Target(st, row)) &&
      after == mid[prefix + row.name := File(row.mode, st.objects[Target(st, row)].body)]
    ensures IsRecordedOn(st, rank, prefix, id, i, path, mid, after)
  {
    var row := RowsAt(st, id).value[i];
    var f := File(row.mode, st.objects[Target(st, row)].body);
    assert path == prefix + row.name <==> IsFileOn(st, rank, prefix, id, i, path, f);
  }

  /** A walk records exactly the files below its tree, each with the mode and contents of a row that holds it. */
  lemma {:induction false} TourRecords(st: Store, rank: Id -> nat, t: Tour, prefix: bytes, id: Id, path: bytes)
    requires IsRanked(st, rank) && Tours(st, rank, t, prefix, id).Tour?
    ensures t.Tour? && RowsAt(st, id).Some?
    ensures IsRecorded(st, rank, prefix, id, |RowsAt(st, id).value|, path, t.files, Tours(st, rank, t, prefix, id).files)
    decreases rank(id), 1, 0
  {
    RowsRecord(st, rank, Tour(t.visited + {id}, t.files), prefix, id, |RowsAt(st, id).value|, path);
  }

  lemma {:induction false} RowsRecord(st: Store, rank: Id -> nat, t: Tour, prefix: bytes, id: Id, n: nat, path: bytes)
    requires IsRanked(st, rank) && RowsAt(st, id).Some? && n <= |RowsAt(st, id).value|
    requires ToursRows(st, rank, t, prefix, id, n).Tour?
    ensures t.Tour?
    ensures IsRecorded(st, rank, prefix, id, n, path, t.files, ToursRows(st, rank, t, prefix, id, n).files)
    decreases rank(id), 0, n
  {
    if n > 0 {
      var row := RowsAt(st, id).value[n - 1];
      var before, after := ToursRows(st, rank, t, prefix, id, n - 1), ToursRows(st, rank, t, prefix, id, n);
      if IsDirectory(st, row) {
        TourRecords(st, rank, before, prefix + row.name + [47], Target(st, row), path);
        DirectoryRecords(st, rank, prefix, id, n - 1, path, before.files, after.files);
      } else {
        FileRecords(st, rank, prefix, id, n - 1, path, before.files, after.files);
      }
      RowsRecord(st, rank, t, prefix, id, n - 1, path);
      RecordedMore(st, rank, prefix, id, n - 1, path, t.files, before.files, after.files);
    }
  }

  // ---- Unpacking ----

  /** The header advertises exactly the expected commit under the reference. */
  predicate IsHeader(a: Bundle.Algorithm, header: bytes, reference: bytes, expected: Id) {
    var signature := if a == Bundle.Sha1 then Ascii("# v2 git bundle\n")
                     else Ascii("# v3 git bundle\n@object-format=sha256\n");
    signature <= header && Advertised(SplitLines(header)) == [expected + [32] + reference]
  }

  /** The lines that are neither signature nor capability. */
  function Advertised(lines: seq<bytes>): seq<bytes> {
    if lines == [] then []
    else
      (if lines[0] != [] && (lines[0][0] == 35 || lines[0][0] == 64) then [] else [lines[0]]) + Advertised(lines[1..])
  }

  function Commits(objects: map<Id, Entry>): set<Id> {
    set id | id in objects && objects[id].kind == 1
  }

  datatype Unpacked = Unpacked(tree: Id, files: map<bytes, File>, objects: map<Id, Entry>)

  /** The objects form one commit, without parents, whose tree walk visits every one of them. */
  ghost function Explained(st: Store, rank: Id -> nat, expected: Id): Option<Unpacked>
    requires IsRanked(st, rank)
  {
    if |Commits(st.objects)| != 1 || expected !in Commits(st.objects) then None
    else
      var body := st.objects[expected].body;
      var tree := RootTree(body);
      if HasParent(body) || tree == None then None
      else
        var t := Tours(st, rank, Tour({expected}, map[]), [], tree.value);
        if t.Lost? || t.visited != st.objects.Keys then None else Some(Unpacked(tree.value, t.files, st.objects))
  }

  /** What follows the blank line, when the header before it is right. */
  function AfterHeader(a: Bundle.Algorithm, reference: bytes, expected: Id, bundle: bytes): Option<bytes> {
    var k := Bundle.FindBlank(bundle);
    if k == None || !IsHeader(a, bundle[..k.value], reference, expected) then None else Some(bundle[k.value + 2..])
  }

  /** The objects of a well-formed initial bundle, before they are explained. */
  ghost function Contents(read: Reader, name: Naming, h: Hash, a: Bundle.Algorithm, reference: bytes, expected: Id,
                          bundle: bytes): Option<map<Id, Entry>>
    requires IsReader(read)
  {
    var packed := AfterHeader(a, reference, expected, bundle);
    if packed == None then None else Inspected(read, name, h, INITIAL, packed.value)
  }

  method Explain(st: Store, expected: Id, ghost rank: Id -> nat) returns (r: Option<Unpacked>)
    requires IsRanked(st, rank)
    ensures r == Explained(st, rank, expected)
  {
    if |Commits(st.objects)| != 1 || expected !in Commits(st.objects) { return None; }
    var body := st.objects[expected].body;
    var tree := RootTree(body);
    if HasParent(body) || tree == None { return None; }
    var walker := new Walker(st, expected);
    var ok := walker.Walk(tree.value, [], rank);
    if !ok || walker.visited != st.objects.Keys { return None; }
    r := Some(Unpacked(tree.value, walker.files, st.objects));
  }

  method ReadContents(read: Reader, name: Naming, h: Hash, a: Bundle.Algorithm, reference: bytes, expected: Id,
                      bundle: bytes) returns (o: Option<map<Id, Entry>>)
    requires IsReader(read)
    ensures o == Contents(read, name, h, a, reference, expected, bundle)
  {
    var packed := AfterHeader(a, reference, expected, bundle);
    if packed == None { return None; }
    o := InspectPack(read, name, h, INITIAL, packed.value);
  }

  method Unpack(read: Reader, name: Naming, h: Hash, a: Bundle.Algorithm, reference: bytes, expected: Id, bundle: bytes,
                ghost rank: Id -> nat) returns (r: Option<Unpacked>)
    requires IsReader(read)
    requires var o := Contents(read, name, h, a, reference, expected, bundle);
      o.Some? ==> IsRanked(Store(o.value, Git(h.width)), rank)
    ensures var o := Contents(read, name, h, a, reference, expected, bundle);
      r == if o == None then None else Explained(Store(o.value, Git(h.width)), rank, expected)
  {
    var o := ReadContents(read, name, h, a, reference, expected, bundle);
    if o == None { return None; }
    r := Explain(Store(o.value, Git(h.width)), expected, rank);
  }

  /**
   * An accepted bundle is exactly one closure: its objects are those the
   * advertised, parentless commit reaches through trees to blobs, no more and no fewer.
   */
  lemma AcceptedIsOneClosure(st: Store, rank: Id -> nat, expected: Id, x: Id)
    requires IsRanked(st, rank) && Explained(st, rank, expected).Some?
    ensures x in st.objects <==> IsReached(st, expected, x)
    ensures expected in st.objects && st.objects[expected].kind == 1 && !HasParent(st.objects[expected].body)
  {
    var tree := RootTree(st.objects[expected].body).value;
    TourSees(st, rank, Tour({expected}, map[]), [], tree, x);
    assert IsBond(st, expected, tree);
    ReachedSelf(st, expected);
    if IsReached(st, tree, x) { ReachedVia(st, expected, tree, x); }
    if IsReached(st, expected, x) && x != expected {
      var b := ReachedSplit(st, expected, x);
    }
  }

  /**
   * The file table of an accepted bundle: a path is in it exactly when a row below
   * the commit's tree holds a file there, and its entry is the mode and contents of such a row.
   */
  lemma AcceptedFilesAreExact(st: Store, rank: Id -> nat, expected: Id, path: bytes)
    requires IsRanked(st, rank) && Explained(st, rank, expected).Some?
    ensures var u := Explained(st, rank, expected).value;
      && RootTree(st.objects[expected].body) == Some(u.tree) && RowsAt(st, u.tree).Some?
      && (path in u.files <==> HasFileBelow(st, rank, [], u.tree, |RowsAt(st, u.tree).value|, path))
      && (path in u.files ==> IsFileBelow(st, rank, [], u.tree, |RowsAt(st, u.tree).value|, path, u.files[path]))
  {
    TourRecords(st, rank, Tour({expected}, map[]), [], RootTree(st.objects[expected].body).value, path);
  }

  // ---- Twins ----

  /** A store of one commit, its tree of a file row and a directory row, the file's blob and an empty tree. */
  ghost predicate IsTwinStore(st: Store, commit: Id, tree: Id, file: Line, directory: Line) {
    var blob, empty := Target(st, file), Target(st, directory);
    && st.objects.Keys == {commit, tree, blob, empty} && Commits(st.objects) == {commit}
    && RootTree(st.objects[commit].body) == Some(tree) && !HasParent(st.objects[commit].body)
    && RowsAt(st, tree) == Some([file, directory]) && RowsAt(st, empty) == Some([]) && tree != empty
    && !IsDirectory(st, file) && st.rules.isFile(file.mode) && IsBlob(st, blob) && IsDirectory(st, directory)
    && st.rules.isInOrder([file, directory]) && st.rules.isInOrder([])
  }

  lemma TwinStoreIsExplained(st: Store, rank: Id -> nat, commit: Id, tree: Id, file: Line, directory: Line)
    requires IsTwinStore(st, commit, tree, file, directory) && IsRanked(st, rank)
    ensures Explained(st, rank, commit).Some?
  {
    var t := Tour({commit} + {tree}, map[]);
    assert ToursRows(st, rank, t, [], tree, 0) == t;
    var t1 := ToursRows(st, rank, t, [], tree, 1);
    assert t1 == AfterFile(st, t, [], file);
    var t2 := ToursRows(st, rank, t, [], tree, 2);
    assert t2 == Tours(st, rank, t1, [] + directory.name + [47], Target(st, directory));
    var t3 := Tour(t1.visited + {Target(st, directory)}, t1.files);
    assert ToursRows(st, rank, t3, [] + directory.name + [47], Target(st, directory), 0) == t3;
    assert t2.visited == st.objects.Keys;
    assert Tours(st, rank, Tour({commit}, map[]), [], tree) == t2;
  }

  lemma PlainModeReads()
    ensures Octal(0x81a4) == Ascii("100644")
  {
    assert Octal(1) == [49];
    assert Octal(8) == [49, 48];
    assert Octal(64) == [49, 48, 48];
    assert Octal(518) == [49, 48, 48, 54];
    assert Octal(4148) == [49, 48, 48, 54, 52];
    assert Octal(33188) == [49, 48, 48, 54, 52, 52];
  }

  lemma ExecutableModeReads()
    ensures Octal(0x81ed) == Ascii("100755")
  {
    assert Octal(1) == [49];
    assert Octal(8) == [49, 48];
    assert Octal(64) == [49, 48, 48];
    assert Octal(519) == [49, 48, 48, 55];
    assert Octal(4157) == [49, 48, 48, 55, 53];
    assert Octal(33261) == [49, 48, 48, 55, 53, 53];
  }

  /** With Git's rules and either file mode: the decoder explains a tree that no writer of trees makes. */
  lemma TwinsAreExplained(st: Store, rank: Id -> nat, commit: Id, tree: Id, width: nat, mode: nat, name: bytes,
                          file: bytes, directory: bytes)
    requires st.rules == Git(width) && IsRanked(st, rank)
    requires IsName(name) && (mode == 0x81a4 || mode == 0x81ed) && |file| == |directory| == width
    requires var rs := [Row(mode, name, file), Row(DIRECTORY, name, directory)];
      && st.objects.Keys == {commit, tree, Hex(file), Hex(directory)} && Commits(st.objects) == {commit}
      && RootTree(st.objects[commit].body) == Some(tree) && !HasParent(st.objects[commit].body)
      && st.objects[tree] == Entry(2, RowsBytes(rs)) && st.objects[Hex(directory)] == Entry(2, [])
      && st.objects[Hex(file)].kind == 3
    ensures Explained(st, rank, commit).Some?
    ensures Tree([Row(mode, name, file), Row(DIRECTORY, name, directory)]) == None
  {
    var rs := [Row(mode, name, file), Row(DIRECTORY, name, directory)];
    TwinsPassTheWalker(mode, name, file, directory);
    if mode == 0x81a4 { PlainModeReads(); } else { ExecutableModeReads(); }
    DirectoryIsForty();
    ParseRows(rs, width);
    assert LinesOf(rs) == [LineOf(rs[0]), LineOf(rs[1])];
    assert Ascii("100644")[0] == 49 && Ascii("100755")[0] == 49 && FORTY[0] == 52;
    assert |RowsBytes(rs)| > 0;
    TwinStoreIsExplained(st, rank, commit, tree, LineOf(rs[0]), LineOf(rs[1]));
  }
}
