/** The unified diff parser of internal/review/diff.go. */
module Diff {
  import opened Wrappers
  import opened Strings

  const MAX_DIFF_SIZE := 10 * 1024 * 1024

  /** `diffOffset` is the ordinal number of the hunk within its file. */
  datatype HunkRange = HunkRange(newStart: int, newCount: int, diffOffset: nat)

  datatype FileDiff = FileDiff(newName: string, isDelete: bool, hunks: seq<HunkRange>)

  const OLD_MARK := "--- "
  const NEW_MARK := "+++ "
  const BINARY_MARK := "Binary files"
  const HUNK_MARK := "@@ "
  const FILE_MARK := "diff --git "
  const FILE_SEPARATOR := ['\n'] + FILE_MARK
  const HUNK_END := "@@"

  // ---- Hunks ---------------------------------------------------------------------------------

  /** Start and count of a field such as "+3,7"; the count is 1 when it is missing. */
  function RangeOf(field: string): Option<(int, int)>
    requires field != ""
  {
    var spec := field[1..];
    var comma := Index(spec, ",");
    if comma >= 0 then
      match (Atoi(spec[..comma]), Atoi(spec[comma + 1..]))
      case (Some(start), Some(count)) => Some((start, count))
      case _ => None
    else
      match Atoi(spec)
      case Some(start) => Some((start, 1))
      case None => None
  }

  /** The first field that starts with a plus sign decides. */
  function NewRange(fields: seq<string>): Option<(int, int)> {
    if fields == [] then None
    else if "+" <= fields[0] then RangeOf(fields[0])
    else NewRange(fields[1..])
  }

  /** None stands for the pair (-1, 0) that the code returns when the header cannot be read. */
  function HunkHeader(line: string): Option<(int, int)>
    requires HUNK_MARK <= line
  {
    var end := Index(line[3..], HUNK_END);
    if end < 0 then None else NewRange(Fields(TrimSpace(line[3..3 + end])))
  }

  predicate EndsBody(line: string) { HUNK_MARK <= line || FILE_MARK <= line }

  /** First line at or after `i` that ends a hunk body. */
  function BodyEnd(lines: seq<string>, i: nat): (e: nat)
    requires i <= |lines|
    ensures i <= e <= |lines|
    decreases |lines| - i
  {
    if i == |lines| || EndsBody(lines[i]) then i else BodyEnd(lines, i + 1)
  }

  // ---- One file ------------------------------------------------------------------------------

  /** What the scan over the lines of a file carries along. */
  datatype Chunk = Chunk(fd: FileDiff, oldName: string, foundNew: bool)

  const NEW_CHUNK := Chunk(FileDiff("", false, []), "", false)

  function OldName(line: string): string {
    var name := TrimPrefix(TrimPrefix(line, OLD_MARK), "a/");
    if name == "/dev/null" then "" else name
  }

  function WithNewName(line: string, c: Chunk): Chunk {
    var val := TrimPrefix(line, NEW_MARK);
    if val == "/dev/null"
    then c.(fd := c.fd.(isDelete := true, newName := c.oldName), foundNew := true)
    else c.(fd := c.fd.(newName := TrimPrefix(val, "b/")), foundNew := true)
  }

  function WithHunk(line: string, c: Chunk): Chunk
    requires HUNK_MARK <= line
  {
    match HunkHeader(line)
    case Some((start, count)) =>
      if start < 0 then c
      else c.(fd := c.fd.(hunks := c.fd.hunks + [HunkRange(start, count, |c.fd.hunks|)]))
    case None => c
  }

  /** Lines consumed by the hunk header at `i`: its body as well when the header can be read. */
  function AfterHunk(lines: seq<string>, i: nat): (e: nat)
    requires i < |lines| && HUNK_MARK <= lines[i]
    ensures i < e <= |lines|
  {
    match HunkHeader(lines[i])
    case Some((start, _)) => if start < 0 then i + 1 else BodyEnd(lines, i + 1)
    case None => i + 1
  }

  /** None when the file turns out to be binary. */
  function ScanLines(lines: seq<string>, i: nat, c: Chunk): Option<Chunk>
    requires i <= |lines|
    decreases |lines| - i
  {
    if i == |lines| then Some(c)
    else
      var line := lines[i];
      if OLD_MARK <= line then ScanLines(lines, i + 1, c.(oldName := OldName(line)))
      else if NEW_MARK <= line then ScanLines(lines, i + 1, WithNewName(line, c))
      else if BINARY_MARK <= line then None
      else if HUNK_MARK <= line && c.foundNew then ScanLines(lines, AfterHunk(lines, i), WithHunk(line, c))
      else ScanLines(lines, i + 1, c)
  }

  type Files = map<string, FileDiff>

  /** Files after a file section has been read. */
  function AddChunk(files: Files, chunk: string): Files {
    match ScanLines(Split(chunk, ['\n']), 0, NEW_CHUNK)
    case None => files
    case Some(c) =>
      var key := if c.fd.newName == "" then c.oldName else c.fd.newName;
      if c.foundNew && key != "" then files[key := c.fd] else files
  }

  // ---- The whole diff ------------------------------------------------------------------------

  function AddChunks(files: Files, chunks: seq<string>): Files
    decreases |chunks|
  {
    if chunks == [] then files
    else
      var chunk := TrimSpace(chunks[0]);
      AddChunks(if chunk == "" then files else AddChunk(files, chunk), chunks[1..])
  }

  function Parsed(text: string): Files {
    if |text| == 0 || |text| > MAX_DIFF_SIZE || TrimSpace(text) == "" then map[]
    else
      var chunks := Split(text, FILE_SEPARATOR);
      AddChunks(map[], [TrimPrefix(chunks[0], FILE_MARK)] + chunks[1..])
  }

  // ---- The code ------------------------------------------------------------------------------

  method ParseHunkHeader(line: string) returns (newStart: int, newCount: int)
    requires HUNK_MARK <= line
    ensures (newStart, newCount) == match HunkHeader(line) case Some(p) => p case None => (-1, 0)
  {
    var end := Index(line[3..], HUNK_END);
    if end < 0 {
      return -1, 0;
    }
    var middle := TrimSpace(line[3..3 + end]);
    var parts := Fields(middle);
    for i := 0 to |parts|
      invariant NewRange(parts[i..]) == NewRange(parts)
    {
      var p := parts[i];
      assert parts[i..][0] == p && parts[i..][1..] == parts[i + 1..];
      if "+" <= p {
        var spec := p[1..];
        var idx := Index(spec, ",");
        if idx >= 0 {
          var ns, nc := Atoi(spec[..idx]), Atoi(spec[idx + 1..]);
          if ns == None || nc == None {
            return -1, 0;
          }
          return ns.value, nc.value;
        }
        var ns := Atoi(spec);
        if ns == None {
          return -1, 0;
        }
        return ns.value, 1;
      }
    }
    return -1, 0;
  }

  method ParseHunk(lines: seq<string>, start: nat, hunkIndex: nat) returns (hunk: Option<HunkRange>, consumed: nat)
    requires start < |lines| && HUNK_MARK <= lines[start]
    ensures start + consumed == AfterHunk(lines, start)
    ensures forall c: Chunk :: |c.fd.hunks| == hunkIndex ==>
      WithHunk(lines[start], c) == if hunk == None then c else c.(fd := c.fd.(hunks := c.fd.hunks + [hunk.value]))
  {
    var newStart, newCount := ParseHunkHeader(lines[start]);
    if newStart < 0 {
      return None, 1;
    }
    hunk := Some(HunkRange(newStart, newCount, hunkIndex));
    consumed := 1;
    var idx := start + 1;
    while idx < |lines|
      invariant start < idx <= |lines| && consumed == idx - start
      invariant BodyEnd(lines, idx) == BodyEnd(lines, start + 1)
    {
      if EndsBody(lines[idx]) {
        break;
      }
      consumed := consumed + 1;
      idx := idx + 1;
    }
  }

  /** The parsed diff; parsing fills `files`. */
  class DiffMap {
    var files: Files

    constructor ()
      ensures files == map[]
    {
      files := map[];
    }

    method ParseFileChunk(chunk: string)
      modifies this
      ensures files == AddChunk(old(files), chunk)
    {
      var lines := Split(chunk, ['\n']);
      var c := NEW_CHUNK;
      var i := 0;
      while i < |lines|
        invariant 0 <= i <= |lines| && files == old(files)
        invariant ScanLines(lines, i, c) == ScanLines(lines, 0, NEW_CHUNK)
      {
        var line := lines[i];
        if OLD_MARK <= line {
          c := c.(oldName := OldName(line));
        } else if NEW_MARK <= line {
          c := WithNewName(line, c);
        } else if BINARY_MARK <= line {
          return;
        } else if HUNK_MARK <= line {
          if !c.foundNew {
            i := i + 1;
            continue;
          }
          var hunk, consumed := ParseHunk(lines, i, |c.fd.hunks|);
          if hunk != None {
            c := c.(fd := c.fd.(hunks := c.fd.hunks + [hunk.value]));
          }
          i := i + consumed;
          continue;
        }
        i := i + 1;
      }
      if !c.foundNew {
        return;
      }
      var key := c.fd.newName;
      if key == "" {
        key := c.oldName;
      }
      if key != "" {
        files := files[key := c.fd];
      }
    }

    /** The position of a line of the new file; semantics A returns the line itself. */
    method MapLine(file: string, line: int) returns (position: int, ok: bool)
      ensures ok <==> InSomeHunk(files, file, line)
      ensures position == if ok then line else 0
    {
      if file !in files || files[file].isDelete {
        return 0, false;
      }
      var hunks := files[file].hunks;
      for k := 0 to |hunks|
        invariant forall j :: 0 <= j < k ==> !Covers(hunks[j], line)
      {
        var hunkEnd := hunks[k].newStart + hunks[k].newCount - 1;
        if hunks[k].newCount == 0 {
          continue;
        }
        if hunks[k].newStart <= line <= hunkEnd {
          return line, true;
        }
      }
      return 0, false;
    }
  }

  method ParseDiff(text: string) returns (dm: DiffMap)
    ensures fresh(dm) && dm.files == Parsed(text)
  {
    dm := new DiffMap();
    if |text| == 0 || |text| > MAX_DIFF_SIZE {
      return;
    }
    if TrimSpace(text) == "" {
      return;
    }
    var chunks := Split(text, FILE_SEPARATOR);
    ghost var cleaned := [TrimPrefix(chunks[0], FILE_MARK)] + chunks[1..];
    for i := 0 to |chunks|
      invariant AddChunks(dm.files, cleaned[i..]) == AddChunks(map[], cleaned)
    {
      var chunk := chunks[i];
      if i == 0 {
        chunk := TrimPrefix(chunk, FILE_MARK);
      }
      assert cleaned[i..][0] == chunk && cleaned[i..][1..] == cleaned[i + 1..];
      chunk := TrimSpace(chunk);
      if chunk == "" {
        continue;
      }
      dm.ParseFileChunk(chunk);
    }
  }

  predicate Covers(h: HunkRange, line: int) { h.newStart <= line < h.newStart + h.newCount }

  predicate InSomeHunk(files: Files, file: string, line: int) {
    && file in files && !files[file].isDelete
    && exists k :: 0 <= k < |files[file].hunks| && Covers(files[file].hunks[k], line)
  }
}
