/** Unified diffs as structures, their text in the "Diff -u or -U Output Format" of the POSIX.1-2017
    diff utility with the file headers git adds, and the proof that parsing gives the structure back. */
module DiffText {
  import opened Wrappers
  import opened Strings
  import opened Diff

  /** A missing count stands for 1. */
  datatype Range = Range(start: nat, count: Option<nat>)

  datatype Hunk = Hunk(minus: Range, plus: Range, heading: string, body: seq<string>)

  /** The tails stand behind the names in the two file headers: nothing, the TAB that git puts behind a
      name with blanks, or a TAB and a time stamp. */
  datatype Change =
    | Modified(before: string, name: string, oldTail: string, newTail: string)
    | Added(name: string, oldTail: string, newTail: string)
    | Deleted(name: string, oldTail: string, newTail: string)

  /** `extra` are the extended header lines, such as file modes or the similarity of a rename.  Without
      hunks they are all there is: a pure rename, a change of mode, a binary file. */
  datatype Section = Section(change: Change, extra: seq<string>, hunks: seq<Hunk>)

  // ---- Printing ------------------------------------------------------------------------------

  function PrintRange(r: Range): string {
    match r.count
    case None => Itoa(r.start)
    case Some(n) => Itoa(r.start) + ([','] + Itoa(n))
  }

  function Header(minus: Range, plus: Range, heading: string): string {
    "@@ " + ((['-'] + PrintRange(minus)) + ([' '] + (['+'] + PrintRange(plus)))) + ([' '] + (HUNK_END + heading))
  }

  /** Lines of a hunk, the header given as a string. */
  datatype Group = Group(header: string, body: seq<string>)

  function GroupOf(h: Hunk): Group { Group(Header(h.minus, h.plus, h.heading), h.body) }

  function Groups(hunks: seq<Hunk>): seq<Group> {
    if hunks == [] then [] else [GroupOf(hunks[0])] + Groups(hunks[1..])
  }

  function Flat(groups: seq<Group>): seq<string> {
    if groups == [] then [] else [groups[0].header] + groups[0].body + Flat(groups[1..])
  }

  function Title(c: Change): string {
    "a/" + (if c.Modified? then c.before else c.name) + " b/" + c.name
  }

  function OldLine(c: Change): string {
    match c
    case Modified(before, _, tail, _) => "--- " + ("a/" + (before + tail))
    case Added(_, tail, _) => "--- " + ("/dev/null" + tail)
    case Deleted(name, tail, _) => "--- " + ("a/" + (name + tail))
  }

  function NewLine(c: Change): string {
    match c
    case Deleted(_, _, tail) => "+++ " + ("/dev/null" + tail)
    case _ => "+++ " + ("b/" + (c.name + c.newTail))
  }

  /** The lines before the first hunk; the first one comes after the text "diff --git ". */
  function HeadLines(s: Section): seq<string> {
    [Title(s.change)] + (s.extra + if s.hunks == [] then [] else [OldLine(s.change), NewLine(s.change)])
  }

  function SectionLines(s: Section): seq<string> { HeadLines(s) + Flat(Groups(s.hunks)) }

  /** Every section begins with "diff --git " and every line ends with a line feed. */
  function PrintDiff(sections: seq<Section>): string {
    if sections == [] then ""
    else FILE_MARK + (Join(SectionLines(sections[0])) + (['\n'] + PrintDiff(sections[1..])))
  }

  // ---- Which structures are meant ------------------------------------------------------------

  predicate IsMarked(line: string) {
    OLD_MARK <= line || NEW_MARK <= line || BINARY_MARK <= line || HUNK_MARK <= line || FILE_MARK <= line
  }

  /** Body lines start with a space, '+', '-' or a backslash, and are otherwise arbitrary. */
  predicate GoodBodyLine(line: string) {
    line != "" && (line[0] == ' ' || line[0] == '+' || line[0] == '-' || line[0] == '\\')
  }

  predicate GoodRange(r: Range) { r.start <= MAX_INT && (r.count.Some? ==> r.count.value <= MAX_INT) }

  predicate GoodHunk(h: Hunk) {
    && GoodRange(h.minus) && GoodRange(h.plus)
    && Lacks(h.heading, '\n') && AreLines(h.body)
    && (forall i :: 0 <= i < |h.body| ==> GoodBodyLine(h.body[i]))
  }

  predicate GoodTail(tail: string) { Lacks(tail, '\n') && (tail == "" || tail[0] == '\t') }

  predicate GoodSection(s: Section) {
    && s.change.name != "" && Lacks(s.change.name, '\n')
    && (s.change.Modified? ==> Lacks(s.change.before, '\n'))
    && (s.change.Deleted? ==> s.change.name != "/dev/null")
    && GoodTail(s.change.oldTail) && GoodTail(s.change.newTail)
    && AreLines(s.extra) && (forall i :: 0 <= i < |s.extra| ==> GoodExtra(s.extra[i], s.hunks == []))
    && (forall i :: 0 <= i < |s.hunks| ==> GoodHunk(s.hunks[i]))
  }

  /** Before hunks no line may look like a mark; a section without hunks may hold anything but the lines
      that begin a section or name its new file. */
  predicate GoodExtra(line: string, bare: bool) {
    if bare then !(NEW_MARK <= line) && !(FILE_MARK <= line) else !IsMarked(line)
  }

  predicate GoodDiff(sections: seq<Section>) { forall i :: 0 <= i < |sections| ==> GoodSection(sections[i]) }

  /** The names are distinct and hold no TAB. */
  predicate PlainNames(sections: seq<Section>) {
    && (forall i :: 0 <= i < |sections| ==> Lacks(sections[i].change.name, '\t'))
    && (forall i, j :: 0 <= i < j < |sections| ==> sections[i].change.name != sections[j].change.name)
  }

  // ---- What parsing should give --------------------------------------------------------------

  function CountOf(r: Range): nat { if r.count.Some? then r.count.value else 1 }

  function Ranges(hunks: seq<Hunk>, from: nat): seq<HunkRange> {
    if hunks == [] then []
    else [HunkRange(hunks[0].plus.start, CountOf(hunks[0].plus), from)] + Ranges(hunks[1..], from + 1)
  }

  /** The name under which a file is filed: a tail becomes part of it, and a tail behind "/dev/null" hides
      that the file was deleted. */
  function KeyOf(c: Change): string {
    if !c.Deleted? then c.name + c.newTail
    else if c.newTail == "" then c.name + c.oldTail
    else "/dev/null" + c.newTail
  }

  predicate IsFiledAsDeleted(c: Change) { c.Deleted? && c.newTail == "" }

  function Expected(s: Section): FileDiff {
    FileDiff(KeyOf(s.change), IsFiledAsDeleted(s.change), Ranges(s.hunks, 0))
  }

  function ExpectedFiles(files: Files, sections: seq<Section>): Files
    decreases |sections|
  {
    if sections == [] then files else ExpectedFiles(WithSection(files, sections[0]), sections[1..])
  }

  /** A section without hunks adds no file. */
  function WithSection(files: Files, s: Section): Files {
    if s.hunks == [] then files else files[KeyOf(s.change) := Expected(s)]
  }

  // ---- Hunk headers --------------------------------------------------------------------------

  predicate Numeric(s: string) { forall i :: 0 <= i < |s| ==> IsDigit(s[i]) || s[i] == ',' }

  lemma RangeIsNumeric(r: Range)
    ensures PrintRange(r) != "" && Numeric(PrintRange(r))
  {}

  lemma CommaFirst()
    ensures Index("", ",") == -1
  {}

  lemma CommaAt(tail: string)
    requires tail != "" && tail[0] == ','
    ensures Index(tail, ",") == 0
  {}

  lemma ReadRange(r: Range)
    requires GoodRange(r)
    ensures RangeOf(['+'] + PrintRange(r)) == Some((r.start, CountOf(r)))
  {
    hide Index, Itoa, Atoi;
    var spec := PrintRange(r);
    assert (['+'] + spec)[1..] == spec;
    AtoiOfItoa(r.start);
    CommaFirst();
    match r.count
    case None =>
      IndexSkips(spec, "", ",");
      assert spec + "" == spec;
    case Some(n) =>
      var tail := [','] + Itoa(n);
      AtoiOfItoa(n);
      CommaAt(tail);
      IndexSkips(Itoa(r.start), tail, ",");
      var comma := |Itoa(r.start)|;
      assert spec[..comma] == Itoa(r.start) && spec[comma + 1..] == Itoa(n);
  }

  /** A header, with any heading behind it, reads as the range of the new file. */
  lemma ReadHeader(minus: Range, plus: Range, heading: string)
    requires GoodRange(minus) && GoodRange(plus)
    ensures HUNK_MARK <= Header(minus, plus, heading)
    ensures HunkHeader(Header(minus, plus, heading)) == Some((plus.start, CountOf(plus)))
  {
    hide Fields, Index, RangeOf, TrimSpace, PrintRange;
    var a, b := ['-'] + PrintRange(minus), ['+'] + PrintRange(plus);
    RangeIsNumeric(minus);
    RangeIsNumeric(plus);
    NumericNoSpace(a, PrintRange(minus));
    NumericNoSpace(b, PrintRange(plus));
    HeaderFields(a, b, heading);
    assert [a, b][1..] == [b];
    ReadRange(plus);
  }

  lemma HeaderFields(a: string, b: string, heading: string)
    requires NoSpace(a) && NoSpace(b) && Lacks(a, '@') && Lacks(b, '@') && a != "" && b != ""
    ensures var line := "@@ " + (a + ([' '] + b)) + ([' '] + (HUNK_END + heading));
      HUNK_MARK <= line && HunkHeader(line) == NewRange([a, b])
  {
    hide Fields, Index, NewRange, TrimSpace;
    var middle := a + ([' '] + b);
    var line := "@@ " + middle + ([' '] + (HUNK_END + heading));
    assert line[3..] == middle + ([' '] + (HUNK_END + heading));
    MiddleEnds(middle, heading);
    assert line[3..3 + |middle| + 1] == middle + " ";
    TrimMiddle(a, b);
    FieldsOfTwo(a, b);
  }

  lemma NumericNoSpace(s: string, digits: string)
    requires Numeric(digits) && |s| > 0 && s[1..] == digits && (s[0] == '-' || s[0] == '+')
    ensures NoSpace(s) && Lacks(s, '@')
  {
    forall i | 0 <= i < |s| ensures !IsSpace(s[i]) && s[i] != '@' {
      if i > 0 { assert s[i] == digits[i - 1]; }
    }
  }

  lemma TrimMiddle(minus: string, plus: string)
    requires NoSpace(minus) && NoSpace(plus) && minus != "" && plus != ""
    ensures TrimSpace((minus + ([' '] + plus)) + " ") == minus + ([' '] + plus)
  {
    var m := minus + ([' '] + plus);
    assert (m + " ")[0] == minus[0];
    TrimRightConcat(m, " ");
    assert m[|m| - 1] == plus[|plus| - 1];
  }

  lemma MiddleEnds(middle: string, heading: string)
    requires Lacks(middle, '@')
    ensures Index(middle + ([' '] + (HUNK_END + heading)), HUNK_END) == |middle| + 1
  {
    var rest := HUNK_END + heading;
    EndIsNext(rest);
    hide Index;
    IndexSkips(middle, [' '] + rest, HUNK_END);
  }

  lemma EndIsNext(rest: string)
    requires HUNK_END <= rest
    ensures Index([' '] + rest, HUNK_END) == 1
  {
    var tail := [' '] + rest;
    assert tail[1..] == rest && tail[0] != HUNK_END[0];
    assert Index(rest, HUNK_END) == 0;
  }
}
