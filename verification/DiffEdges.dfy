/** What the unified diff parser makes of texts that are no printed diffs (internal/review/diff.go). */
module DiffEdges {
  import opened Wrappers
  import opened Strings
  import opened Diff
  import opened DiffRoundTrip

  /** Nothing is parsed from an empty or blank text, or from one of more than ten megabytes. */
  lemma {:induction false} NothingParsed(text: string)
    requires Blank(text) || |text| > 10485760
    ensures Parsed(text) == map[]
  {
    hide AddChunks, Split;
    if Blank(text) { BlankTrims(text); }
  }

  lemma {:induction false} BlankTrims(text: string)
    requires Blank(text)
    ensures TrimSpace(text) == ""
  {
    if text != "" {
      assert IsSpace(text[0]) && forall i :: 0 <= i < |text[1..]| ==> text[1..][i] == text[i + 1];
      BlankTrims(text[1..]);
    }
  }

  lemma {:induction false} ChunkOfLines(files: Files, lines: seq<string>)
    requires lines != [] && AreLines(lines)
    ensures AddChunk(files, Join(lines)) ==
      match ScanLines(lines, 0, NEW_CHUNK)
      case None => files
      case Some(c) =>
        var key := if c.fd.newName == "" then c.oldName else c.fd.newName;
        if c.foundNew && key != "" then files[key := c.fd] else files
  {
    hide ScanLines, Split, Join;
    SplitOfJoin(lines);
  }

  /** A binary file is not filed, whatever its section says before and after. */
  lemma {:induction false} BinaryIsNotFiled(files: Files, lines: seq<string>, k: nat)
    requires AreLines(lines) && k < |lines| && "Binary files" <= lines[k]
    requires forall j :: 0 <= j < k ==> !("@@ " <= lines[j])
    ensures AddChunk(files, Join(lines)) == files
  {
    BinaryIsFound(lines, 0, k, NEW_CHUNK);
    hide ScanLines, Join, Split;
    ChunkOfLines(files, lines);
  }

  lemma {:induction false} BinaryIsFound(lines: seq<string>, i: nat, k: nat, c: Chunk)
    requires i <= k < |lines| && BINARY_MARK <= lines[k] && forall j :: i <= j < k ==> !(HUNK_MARK <= lines[j])
    ensures ScanLines(lines, i, c) == None
    decreases k - i
  {
    var line := lines[i];
    if i == k {
      assert line[0] == 'B';
    } else {
      BinaryIsFound(lines, i + 1, k, c);
      BinaryIsFound(lines, i + 1, k, c.(oldName := OldName(line)));
      BinaryIsFound(lines, i + 1, k, WithNewName(line, c));
    }
  }

  /** A section that never names its new file is not filed, even if it has hunks. */
  lemma {:induction false} UnnamedIsNotFiled(files: Files, lines: seq<string>)
    requires lines != [] && AreLines(lines) && forall k :: 0 <= k < |lines| ==> !("+++ " <= lines[k])
    ensures AddChunk(files, Join(lines)) == files
  {
    ScanWithoutNew(lines, 0, NEW_CHUNK);
    hide ScanLines, Join, Split;
    ChunkOfLines(files, lines);
  }

  /** Neither is one that names /dev/null on both sides. */
  lemma {:induction false} NoNameIsNotFiled(files: Files)
    ensures AddChunk(files, Join(["--- /dev/null", "+++ /dev/null"])) == files
  {
    var a, b := "--- /dev/null", "+++ /dev/null";
    var lines := [a, b];
    assert TrimPrefix(a, OLD_MARK) == "/dev/null" && "/dev/null"[0] != "a/"[0];
    assert TrimPrefix("/dev/null", "a/") == "/dev/null";
    assert TrimPrefix(b, NEW_MARK) == "/dev/null";
    assert OldName(a) == "";
    var c1 := NEW_CHUNK.(oldName := "");
    var c2 := Chunk(FileDiff("", true, []), "", true);
    assert WithNewName(b, c1) == c2;
    assert ScanLines(lines, 2, c2) == Some(c2);
    assert !(OLD_MARK <= b) by { assert b[0] != OLD_MARK[0]; }
    assert ScanLines(lines, 1, c1) == Some(c2);
    assert ScanLines(lines, 0, NEW_CHUNK) == Some(c2);
    hide ScanLines, Join, Split;
    ChunkOfLines(files, lines);
  }

  /** A hunk header without its second mark, or without a range for the new file, gives no hunk; the file is
      filed all the same. */
  lemma {:induction false} UnreadableHunkIsSkipped(files: Files, name: string, junk: string)
    requires name != "" && Lacks(name, '\n') && Lacks(junk, '\n')
    requires Index(junk, "@@") < 0 || NewRange(Fields(TrimSpace(junk[..Index(junk, "@@")]))) == None
    ensures AddChunk(files, Join(["+++ b/" + name, "@@ " + junk])) == files[name := FileDiff(name, false, [])]
  {
    var a, b := "+++ b/" + name, "@@ " + junk;
    var lines := [a, b];
    hide NewRange, Fields, TrimSpace, Index;
    assert TrimPrefix(a, NEW_MARK) == "b/" + name && ("b/" + name)[0] == 'b' && TrimPrefix("b/" + name, "b/") == name;
    var c := Chunk(FileDiff(name, false, []), "", true);
    assert WithNewName(a, NEW_CHUNK) == c;
    assert b[3..] == junk && a[0] == '+' && b[0] == '@';
    HeaderIsUnreadable(junk);
    assert ScanLines(lines, 2, c) == Some(c);
    assert ScanLines(lines, 1, c) == Some(c);
    assert ScanLines(lines, 0, NEW_CHUNK) == Some(c);
    hide ScanLines, Join, Split;
    ChunkOfLines(files, lines);
  }

  lemma {:induction false} HeaderIsUnreadable(junk: string)
    requires Index(junk, "@@") < 0 || NewRange(Fields(TrimSpace(junk[..Index(junk, "@@")]))) == None
    ensures HunkHeader("@@ " + junk) == None
  {
    hide NewRange, Fields, TrimSpace, Index;
    var line := "@@ " + junk;
    assert line[3..] == junk;
    var end := Index(junk, "@@");
    if end >= 0 { assert line[3..3 + end] == junk[..end]; }
  }
}
