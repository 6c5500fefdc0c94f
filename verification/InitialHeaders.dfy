/**
 * Bundle headers and commit headers of initial bundles, read line by line
 * (scripts/e2e/initial_commit_smoke.py:17-21, 46-52).
 */
module InitialHeaders {
  import opened Bytes
  import opened PackFile
  import opened InitialBundle
  import Bundle

  /** A line of text: not empty, and no line end inside. */
  ghost predicate IsText(s: bytes) {
    s != [] && 10 !in s && 13 !in s
  }

  ghost predicate AreText(lines: seq<bytes>) {
    lines != [] && forall i :: 0 <= i < |lines| ==> IsText(lines[i])
  }

  lemma {:induction false} LineEnds(line: bytes, rest: bytes)
    requires 10 !in line && 13 !in line && (rest == [] || rest[0] == 10)
    ensures LineEnd(line + rest) == |line|
  {
    var s := line + rest;
    if line == [] {
      assert s == rest;
    } else {
      assert s[0] == line[0] && s[1..] == line[1..] + rest;
      LineEnds(line[1..], rest);
    }
  }

  /** Lines joined by line feeds are read back as those lines. */
  lemma {:induction false} LinesReadBack(lines: seq<bytes>)
    requires AreText(lines)
    ensures SplitLines(Join(lines, 10)) == lines
  {
    var line := lines[0];
    assert IsText(lines[0]);
    if |lines| == 1 {
      LineEnds(line, []);
      assert line + [] == line && lines == [line];
    } else {
      var tail := Join(lines[1..], 10);
      var s := Join(lines, 10);
      assert s == line + ([10] + tail);
      LineEnds(line, [10] + tail);
      assert s[..|line|] == line && s[|line|] == 10 && s[|line| + 1..] == tail;
      assert AreText(lines[1..]) by {
        forall i | 0 <= i < |lines[1..]| ensures IsText(lines[1..][i]) { assert IsText(lines[i + 1]); }
      }
      LinesReadBack(lines[1..]);
      assert lines == [line] + lines[1..];
    }
  }

  // ---- Commits ----

  /** A commit: header lines, a blank line, the message. */
  function CommitBody(headers: seq<bytes>, message: bytes): bytes
    requires headers != []
  {
    Join(headers, 10) + [10, 10] + message
  }

  lemma HeaderEnds(headers: seq<bytes>, message: bytes)
    requires AreText(headers)
    ensures Bundle.FindBlank(CommitBody(headers, message)) == Some(|Join(headers, 10)|)
  {
    assert Bundle.AreLines(headers) by {
      forall i | 0 <= i < |headers| ensures Bundle.IsLine(headers[i]) { assert IsText(headers[i]); }
    }
    Bundle.JoinIsSolid(headers);
    Bundle.FirstBlank(Join(headers, 10), message);
  }

  /** A commit has a parent exactly when one of its header lines says so; its message does not count. */
  lemma ParentIff(headers: seq<bytes>, message: bytes)
    requires AreText(headers)
    ensures HasParent(CommitBody(headers, message)) <==> HasWord(headers, Ascii("parent "))
  {
    HeaderEnds(headers, message);
    LinesReadBack(headers);
    var text, body := Join(headers, 10), CommitBody(headers, message);
    assert body[..|text|] == text;
  }

  lemma FirstLine(headers: seq<bytes>, message: bytes)
    requires AreText(headers)
    ensures CommitBody(headers, message) != [] && SplitLines(CommitBody(headers, message))[0] == headers[0]
  {
    var body, line := CommitBody(headers, message), headers[0];
    assert IsText(headers[0]);
    var rest := if |headers| == 1 then [10, 10] + message else [10] + Join(headers[1..], 10) + [10, 10] + message;
    assert body == line + rest;
    LineEnds(line, rest);
    assert body[..|line|] == line;
  }

  /** The tree of a commit is what its first header line names. */
  lemma TreeIsFirst(headers: seq<bytes>, message: bytes, tree: Id)
    requires AreText(headers) && headers[0] == Ascii("tree ") + tree
    ensures RootTree(CommitBody(headers, message)) == Some(tree)
  {
    FirstLine(headers, message);
    assert |Ascii("tree ")| == 5;
    assert (Ascii("tree ") + tree)[5..] == tree;
  }

  /** A bundle whose commit has a parent line is refused, whatever else it holds. */
  lemma ParentIsRefused(st: Store, rank: Id -> nat, expected: Id, headers: seq<bytes>, message: bytes, i: nat)
    requires IsRanked(st, rank) && AreText(headers) && i < |headers| && Ascii("parent ") <= headers[i]
    requires expected in st.objects && st.objects[expected].body == CommitBody(headers, message)
    ensures Explained(st, rank, expected) == None
  {
    ParentIff(headers, message);
  }

  /** An accepted bundle's commit has no parent line, and its tree is the one its first line names. */
  lemma AcceptedHasNoParent(st: Store, rank: Id -> nat, expected: Id, headers: seq<bytes>, message: bytes)
    requires IsRanked(st, rank) && AreText(headers) && Explained(st, rank, expected).Some?
    requires expected in st.objects && st.objects[expected].body == CommitBody(headers, message)
    ensures forall i :: 0 <= i < |headers| ==> !(Ascii("parent ") <= headers[i])
    ensures forall tree :: headers[0] == Ascii("tree ") + tree ==> Explained(st, rank, expected).value.tree == tree
  {
    ParentIff(headers, message);
    forall tree | headers[0] == Ascii("tree ") + tree ensures Explained(st, rank, expected).value.tree == tree
    {
      TreeIsFirst(headers, message, tree);
    }
  }

  /** An accepted bundle holds one commit, the advertised one. */
  lemma AcceptedHasOneCommit(st: Store, rank: Id -> nat, expected: Id, id: Id)
    requires IsRanked(st, rank) && Explained(st, rank, expected).Some?
    requires id in st.objects && st.objects[id].kind == 1
    ensures id == expected
  {
    var commits := Commits(st.objects);
    if id != expected {
      assert {id, expected} <= commits;
      Cardinality({id, expected}, commits);
    }
  }

  lemma {:induction false} Cardinality(a: set<Id>, b: set<Id>)
    requires a <= b
    ensures |a| <= |b|
  {
    if a != {} {
      var x :| x in a;
      Cardinality(a - {x}, b - {x});
    }
  }

  // ---- Bundle headers ----

  /** A signature or capability line. */
  predicate IsMarked(line: bytes) {
    line != [] && (line[0] == 35 || line[0] == 64)
  }

  lemma {:induction false} AdvertisedNone(lines: seq<bytes>)
    ensures Advertised(lines) == [] <==> forall i :: 0 <= i < |lines| ==> IsMarked(lines[i])
  {
    if lines != [] { AdvertisedNone(lines[1..]); }
  }

  /** Exactly one line is not marked, and it is `x`. */
  ghost predicate IsOnlyLine(lines: seq<bytes>, x: bytes, k: nat) {
    && k < |lines| && lines[k] == x && !IsMarked(x)
    && forall i :: 0 <= i < |lines| && i != k ==> IsMarked(lines[i])
  }

  lemma {:induction false} AdvertisedOne(lines: seq<bytes>, x: bytes)
    ensures Advertised(lines) == [x] <==> exists k :: IsOnlyLine(lines, x, k)
  {
    if lines != [] {
      var rest := lines[1..];
      AdvertisedOne(rest, x);
      AdvertisedNone(rest);
      if Advertised(lines) == [x] {
        if IsMarked(lines[0]) {
          var k :| IsOnlyLine(rest, x, k);
          var n := k + 1;
          assert forall i :: 0 < i < |lines| ==> lines[i] == rest[i - 1];
          assert IsOnlyLine(lines, x, n);
        } else {
          assert [lines[0]] + Advertised(rest) == [x];
          assert ([lines[0]] + Advertised(rest))[0] == x && |Advertised(rest)| == 0;
          assert forall i :: 0 < i < |lines| ==> lines[i] == rest[i - 1];
          assert IsOnlyLine(lines, x, 0);
        }
      }
      if k :| IsOnlyLine(lines, x, k) {
        if k == 0 {
          assert forall i :: 0 <= i < |rest| ==> rest[i] == lines[i + 1];
        } else {
          var n := k - 1;
          assert IsOnlyLine(rest, x, n);
        }
      }
    }
  }

  /** A header of text lines is accepted exactly when it opens with the signature and its one other line advertises the commit. */
  lemma HeaderIff(a: Bundle.Algorithm, lines: seq<bytes>, reference: bytes, expected: Id)
    requires AreText(lines)
    ensures var signature := if a == Bundle.Sha1 then Ascii("# v2 git bundle\n")
                             else Ascii("# v3 git bundle\n@object-format=sha256\n");
      IsHeader(a, Join(lines, 10), reference, expected) <==>
        signature <= Join(lines, 10) && exists k :: IsOnlyLine(lines, expected + [32] + reference, k)
  {
    LinesReadBack(lines);
    AdvertisedOne(lines, expected + [32] + reference);
  }
}
