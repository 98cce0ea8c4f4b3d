/** Parsing a printed diff gives its structure back. */
module DiffRoundTrip {
  import opened Wrappers
  import opened Strings
  import opened Diff
  import opened DiffText

  // ---- Reading the lines of one section ------------------------------------------------------

  lemma {:induction false} ScanUnmarked(lines: seq<string>, i: nat, n: nat, c: Chunk)
    requires i <= n <= |lines| && forall k :: i <= k < n ==> !IsMarked(lines[k])
    ensures ScanLines(lines, i, c) == ScanLines(lines, n, c)
    decreases n - i
  {
    if i < n { ScanUnmarked(lines, i + 1, n, c); }
  }

  function AfterHead(c: Change): Chunk {
    Chunk(FileDiff(KeyOf(c), IsFiledAsDeleted(c), []), OldName(OldLine(c)), true)
  }

  lemma ReadNames(c: Change)
    requires (c.Deleted? ==> c.name != "/dev/null") && GoodTail(c.oldTail) && GoodTail(c.newTail)
    ensures OLD_MARK <= OldLine(c) && NEW_MARK <= NewLine(c) && !(OLD_MARK <= NewLine(c))
    ensures WithNewName(NewLine(c), NEW_CHUNK.(oldName := OldName(OldLine(c)))) == AfterHead(c)
  {
    assert NewLine(c)[0] == '+';
    match c
    case Deleted(name, oldTail, newTail) =>
      assert TrimPrefix(OldLine(c), OLD_MARK) == "a/" + (name + oldTail);
      assert TrimPrefix("a/" + (name + oldTail), "a/") == name + oldTail;
      TailShows(name, oldTail);
      assert TrimPrefix(NewLine(c), NEW_MARK) == "/dev/null" + newTail;
      assert ("/dev/null" + newTail)[0] == '/' && |"/dev/null" + newTail| == 9 + |newTail|;
    case _ =>
      var val := "b/" + (c.name + c.newTail);
      assert TrimPrefix(NewLine(c), NEW_MARK) == val;
      assert val[0] == 'b' && TrimPrefix(val, "b/") == c.name + c.newTail;
  }

  /** A name with a tail is never "/dev/null". */
  lemma {:induction false} TailShows(name: string, tail: string)
    requires name != "/dev/null" && GoodTail(tail)
    ensures name + tail != "/dev/null"
  {
    if tail != "" {
      assert (name + tail)[|name|] == '\t';
    } else {
      assert name + tail == name;
    }
  }

  lemma ScanHead(s: Section, rest: seq<string>)
    requires GoodSection(s) && s.hunks != []
    ensures var lines := HeadLines(s) + rest;
      ScanLines(lines, 0, NEW_CHUNK) == ScanLines(lines, |HeadLines(s)|, AfterHead(s.change))
  {
    hide WithNewName, OldName, OldLine, NewLine, Title;
    var lines := HeadLines(s) + rest;
    var n := 1 + |s.extra|;
    TitleIsUnmarked(s.change);
    assert forall k :: 1 <= k < n ==> lines[k] == s.extra[k - 1] && GoodExtra(s.extra[k - 1], false);
    ScanUnmarked(lines, 0, n, NEW_CHUNK);
    ReadNames(s.change);
    assert lines[n] == OldLine(s.change) && lines[n + 1] == NewLine(s.change);
    var c := NEW_CHUNK.(oldName := OldName(OldLine(s.change)));
    assert ScanLines(lines, n, NEW_CHUNK) == ScanLines(lines, n + 1, c);
    assert ScanLines(lines, n + 1, c) == ScanLines(lines, n + 2, AfterHead(s.change));
  }

  lemma TitleIsUnmarked(c: Change)
    ensures !IsMarked(Title(c)) && Title(c)[0] == 'a'
  {}

  /** The group's lines read as a hunk with this range. */
  predicate ReadsAs(g: Group, h: Hunk) {
    && HUNK_MARK <= g.header
    && HunkHeader(g.header) == Some((h.plus.start, CountOf(h.plus)))
    && (forall i :: 0 <= i < |g.body| ==> !EndsBody(g.body[i]))
  }

  predicate AllReadAs(groups: seq<Group>, hunks: seq<Hunk>) {
    |groups| == |hunks| && forall i :: 0 <= i < |groups| ==> ReadsAs(groups[i], hunks[i])
  }

  lemma {:induction false} BodyEndOf(lines: seq<string>, i: nat, n: nat)
    requires i <= n <= |lines| && (forall k :: i <= k < n ==> !EndsBody(lines[k]))
    requires n < |lines| ==> EndsBody(lines[n])
    ensures BodyEnd(lines, i) == n
    decreases n - i
  {
    if i < n { BodyEndOf(lines, i + 1, n); }
  }

  function WithRange(h: Hunk, c: Chunk): Chunk {
    c.(fd := c.fd.(hunks := c.fd.hunks + [HunkRange(h.plus.start, CountOf(h.plus), |c.fd.hunks|)]))
  }

  lemma ScanHunk(lines: seq<string>, i: nat, g: Group, h: Hunk, c: Chunk)
    requires i < |lines| && lines[i] == g.header && ReadsAs(g, h) && c.foundNew
    ensures ScanLines(lines, i, c) == ScanLines(lines, AfterHunk(lines, i), WithRange(h, c))
  {
    hide HunkHeader;
    assert lines[i][0] == '@';
  }

  lemma {:induction false} Regroup(done: seq<HunkRange>, hunks: seq<Hunk>)
    requires hunks != []
    ensures var first := HunkRange(hunks[0].plus.start, CountOf(hunks[0].plus), |done|);
      done + Ranges(hunks, |done|) == (done + [first]) + Ranges(hunks[1..], |done| + 1)
  {
    var first := HunkRange(hunks[0].plus.start, CountOf(hunks[0].plus), |done|);
    var rest := Ranges(hunks[1..], |done| + 1);
    assert Ranges(hunks, |done|) == [first] + rest;
    Reassociate(done, [first], rest);
  }

  lemma ScanEnd(lines: seq<string>, i: nat, c: Chunk)
    requires i <= |lines| && lines[i..] == Flat([])
    ensures ScanLines(lines, i, c) == Some(c)
    ensures c.fd.hunks + Ranges([], |c.fd.hunks|) == c.fd.hunks
  {
    assert lines[i..] == [] && i == |lines|;
  }

  lemma {:induction false} ScanGroups(lines: seq<string>, i: nat, groups: seq<Group>, hunks: seq<Hunk>, c: Chunk)
    requires i <= |lines| && lines[i..] == Flat(groups) && AllReadAs(groups, hunks) && c.foundNew
    ensures ScanLines(lines, i, c)
         == Some(c.(fd := c.fd.(hunks := c.fd.hunks + Ranges(hunks, |c.fd.hunks|))))
    decreases |groups|
  {
    hide ScanLines, BodyEnd, AfterHunk, WithHunk, HunkHeader, ReadsAs, Flat;
    if groups == [] {
      ScanEnd(lines, i, c);
    } else {
      ScanGroup(lines, i, groups, hunks);
      var n := i + 1 + |groups[0].body|;
      var next := WithRange(hunks[0], c);
      ScanHunk(lines, i, groups[0], hunks[0], c);
      ScanGroups(lines, n, groups[1..], hunks[1..], next);
      Regroup(c.fd.hunks, hunks);
    }
  }

  lemma {:induction false} ScanGroup(lines: seq<string>, i: nat, groups: seq<Group>, hunks: seq<Hunk>)
    requires i <= |lines| && lines[i..] == Flat(groups) && groups != [] && AllReadAs(groups, hunks)
    ensures i < |lines| && lines[i] == groups[0].header && HUNK_MARK <= lines[i]
    ensures var n := i + 1 + |groups[0].body|;
      AfterHunk(lines, i) == n && lines[n..] == Flat(groups[1..])
  {
    hide HunkHeader;
    var rest := Flat(groups[1..]);
    var g := groups[0];
    assert ReadsAs(g, hunks[0]) && (|groups| > 1 ==> ReadsAs(groups[1], hunks[1]));
    assert lines[i..] == [g.header] + g.body + rest;
    assert lines[i] == lines[i..][0] == g.header;
    var n := i + 1 + |g.body|;
    forall k | i + 1 <= k < n ensures lines[k] == g.body[k - i - 1] {
      assert lines[k] == lines[i..][k - i];
    }
    assert lines[n..] == lines[i..][n - i..] == rest;
    if n < |lines| {
      assert lines[n] == lines[n..][0] == groups[1].header;
    }
    BodyEndOf(lines, i + 1, n);
  }

  // ---- Trimming the text of a section --------------------------------------------------------

  predicate AllBlank(lines: seq<string>) { forall i :: 0 <= i < |lines| ==> Blank(lines[i]) }

  /** What trimming at the right does to lines: blank lines at the end go, the last other is trimmed. */
  function TrimTail(lines: seq<string>): (r: seq<string>)
    requires !AllBlank(lines)
    ensures r != [] && |r| <= |lines|
  {
    var last := lines[|lines| - 1];
    if Blank(last) then TrimTail(lines[..|lines| - 1]) else lines[..|lines| - 1] + [TrimRight(last)]
  }

  lemma {:induction false} JoinLast(lines: seq<string>, last: string)
    requires lines != []
    ensures Join(lines + [last]) == Join(lines) + (['\n'] + last)
  {
    JoinConcat(lines, [last]);
  }

  lemma {:induction false} TrimJoin(lines: seq<string>)
    requires !AllBlank(lines)
    ensures TrimRight(Join(lines)) == Join(TrimTail(lines))
    decreases |lines|
  {
    var front, last := lines[..|lines| - 1], lines[|lines| - 1];
    if front != [] {
      assert lines == front + [last];
      JoinLast(front, last);
      TrimRightConcat(Join(front), ['\n'] + last);
      TrimRightConcat(['\n'], last);
      assert Blank(['\n'] + last) == Blank(last) by { BlankBehindNewline(last); }
      if Blank(last) {
        TrimJoin(front);
      } else {
        JoinLast(front, TrimRight(last));
      }
    } else {
      assert lines == [last];
    }
  }

  lemma BlankBehindNewline(s: string)
    ensures Blank(['\n'] + s) == Blank(s)
  {
    var t := ['\n'] + s;
    if Blank(t) { assert forall i :: 0 <= i < |s| ==> s[i] == t[i + 1]; }
  }

  lemma {:induction false} TrimTailConcat(a: seq<string>, b: seq<string>)
    requires !AllBlank(a)
    ensures !AllBlank(a + b)
    ensures TrimTail(a + b) == if AllBlank(b) then TrimTail(a) else a + TrimTail(b)
    decreases |b|
  {
    var k :| 0 <= k < |a| && !Blank(a[k]);
    assert (a + b)[k] == a[k];
    if b == [] {
      assert a + b == a;
    } else {
      var front, last := b[..|b| - 1], b[|b| - 1];
      assert (a + b)[|a + b| - 1] == last;
      assert (a + b)[..|a + b| - 1] == a + front;
      if Blank(last) {
        TrimTailConcat(a, front);
        assert AllBlank(b) == AllBlank(front);
      }
    }
  }

  /** The last group of a section after trimming. */
  function TrimGroup(h: Hunk): Group {
    if AllBlank(h.body)
    then Group(Header(h.minus, h.plus, if Blank(h.heading) then "" else TrimRight(h.heading)), [])
    else Group(Header(h.minus, h.plus, h.heading), TrimTail(h.body))
  }

  function TrimGroups(hunks: seq<Hunk>): seq<Group>
    requires hunks != []
  {
    if |hunks| == 1 then [TrimGroup(hunks[0])] else [GroupOf(hunks[0])] + TrimGroups(hunks[1..])
  }

  lemma HeaderSplits(minus: Range, plus: Range, heading: string)
    ensures Header(minus, plus, heading) == Header(minus, plus, "") + heading
    ensures var h := Header(minus, plus, heading); h != "" && h[0] == '@'
    ensures var front := Header(minus, plus, ""); front[|front| - 1] == '@'
  {
    hide PrintRange;
    assert [' '] + (HUNK_END + heading) == ([' '] + (HUNK_END + "")) + heading;
  }

  lemma EndsSolid(s: string)
    requires s != "" && s[|s| - 1] == '@'
    ensures TrimRight(s) == s
  {}

  lemma StartsSolid(s: string)
    requires s != "" && s[0] == '@'
    ensures !Blank(s)
  {}

  lemma HeaderTrims(minus: Range, plus: Range, heading: string)
    ensures TrimRight(Header(minus, plus, heading))
         == Header(minus, plus, if Blank(heading) then "" else TrimRight(heading))
    ensures !Blank(Header(minus, plus, heading))
  {
    hide TrimRight, Blank;
    var front := Header(minus, plus, "");
    HeaderSplits(minus, plus, heading);
    HeaderSplits(minus, plus, TrimRight(heading));
    TrimRightConcat(front, heading);
    EndsSolid(front);
    StartsSolid(Header(minus, plus, heading));
  }

  lemma TrimLastGroup(h: Hunk)
    ensures !AllBlank([GroupOf(h).header] + h.body)
    ensures TrimTail([GroupOf(h).header] + h.body) == [TrimGroup(h).header] + TrimGroup(h).body
  {
    var header := GroupOf(h).header;
    HeaderTrims(h.minus, h.plus, h.heading);
    assert [header][0] == header;
    TrimTailConcat([header], h.body);
    assert TrimTail([header]) == [TrimRight(header)];
  }

  lemma {:induction false} TrimFlat(hunks: seq<Hunk>)
    requires hunks != []
    ensures !AllBlank(Flat(Groups(hunks)))
    ensures TrimTail(Flat(Groups(hunks))) == Flat(TrimGroups(hunks))
    decreases |hunks|
  {
    var g := GroupOf(hunks[0]);
    var first := [g.header] + g.body;
    TrimLastGroup(hunks[0]);
    assert Groups(hunks)[1..] == Groups(hunks[1..]);
    if |hunks| == 1 {
      assert Flat(Groups(hunks)) == first;
      var t := TrimGroup(hunks[0]);
      assert Flat([t]) == [t.header] + t.body;
    } else {
      TrimFlat(hunks[1..]);
      TrimTailConcat(first, Flat(Groups(hunks[1..])));
      assert TrimGroups(hunks)[1..] == TrimGroups(hunks[1..]);
    }
  }

  lemma {:induction false} TrimTailKeeps(lines: seq<string>)
    requires !AllBlank(lines)
    ensures forall i :: 0 <= i < |TrimTail(lines)| ==>
      TrimTail(lines)[i] != "" ==> TrimTail(lines)[i] <= lines[i]
    ensures TrimTail(lines)[|TrimTail(lines)| - 1] != ""
    ensures forall i :: 0 <= i < |TrimTail(lines)| - 1 ==> TrimTail(lines)[i] == lines[i]
    ensures TrimTail(lines)[|TrimTail(lines)| - 1] <= lines[|TrimTail(lines)| - 1]
  {
    var last := lines[|lines| - 1];
    if Blank(last) {
      TrimTailKeeps(lines[..|lines| - 1]);
    } else {
      TrimRightOfBlank(last);
    }
  }

  lemma TrimBodyReads(body: seq<string>)
    requires !AllBlank(body) && forall i :: 0 <= i < |body| ==> GoodBodyLine(body[i])
    ensures forall i :: 0 <= i < |TrimTail(body)| ==> !EndsBody(TrimTail(body)[i])
  {
    TrimTailKeeps(body);
    var t := TrimTail(body);
    forall i | 0 <= i < |t| ensures !EndsBody(t[i]) {
      assert GoodBodyLine(body[i]);
      assert t[i] != "" ==> t[i][0] == body[i][0];
    }
  }

  lemma TrimGroupReads(h: Hunk)
    requires GoodHunk(h)
    ensures ReadsAs(GroupOf(h), h) && ReadsAs(TrimGroup(h), h)
  {
    hide Header, HunkHeader, TrimRight;
    ReadHeader(h.minus, h.plus, h.heading);
    ReadHeader(h.minus, h.plus, if Blank(h.heading) then "" else TrimRight(h.heading));
    forall i | 0 <= i < |h.body| ensures !EndsBody(h.body[i]) {
      assert GoodBodyLine(h.body[i]);
    }
    if !AllBlank(h.body) { TrimBodyReads(h.body); }
  }

  lemma {:induction false} TrimGroupsRead(hunks: seq<Hunk>)
    requires hunks != [] && forall i :: 0 <= i < |hunks| ==> GoodHunk(hunks[i])
    ensures AllReadAs(TrimGroups(hunks), hunks)
    decreases |hunks|
  {
    hide TrimGroup, GoodHunk, ReadsAs;
    TrimGroupReads(hunks[0]);
    if |hunks| > 1 { TrimGroupsRead(hunks[1..]); }
  }

  // ---- The chunk of one section --------------------------------------------------------------

  predicate GoodLines(lines: seq<string>) {
    lines != [] && AreLines(lines) && forall i :: 1 <= i < |lines| ==> !(FILE_MARK <= lines[i])
  }

  lemma {:induction false} RangeIsLine(r: Range)
    ensures Lacks(PrintRange(r), '\n')
  {}

  predicate IsLines(g: Group) {
    AreLines([g.header] + g.body) && !(FILE_MARK <= g.header) &&
    forall i :: 0 <= i < |g.body| ==> !(FILE_MARK <= g.body[i])
  }

  lemma {:induction false} HeaderIsLine(minus: Range, plus: Range, heading: string)
    requires Lacks(heading, '\n')
    ensures Lacks(Header(minus, plus, heading), '\n') && Header(minus, plus, heading)[0] == '@'
  {
    hide PrintRange;
    RangeIsLine(minus);
    RangeIsLine(plus);
  }

  lemma {:induction false} GroupsAreLines(h: Hunk)
    requires GoodHunk(h)
    ensures IsLines(GroupOf(h)) && IsLines(TrimGroup(h))
  {
    hide Header, HunkHeader, TrimRight;
    var heading := if Blank(h.heading) then "" else TrimRight(h.heading);
    TrimRightOfBlank(h.heading);
    HeaderIsLine(h.minus, h.plus, h.heading);
    HeaderIsLine(h.minus, h.plus, heading);
    TrimGroupReads(h);
    if !AllBlank(h.body) { TrimTailIsLines(h.body); }
  }

  lemma {:induction false} TrimTailIsLines(lines: seq<string>)
    requires !AllBlank(lines) && AreLines(lines)
    ensures AreLines(TrimTail(lines))
  {
    TrimTailKeeps(lines);
    var t := TrimTail(lines);
    forall i | 0 <= i < |t| ensures Lacks(t[i], '\n') {
      assert Lacks(lines[i], '\n') && t[i] <= lines[i];
    }
  }

  lemma {:induction false} FlatIsLines(hunks: seq<Hunk>)
    requires hunks != [] && forall i :: 0 <= i < |hunks| ==> GoodHunk(hunks[i])
    ensures AreLines(Flat(Groups(hunks))) && AreLines(Flat(TrimGroups(hunks)))
    ensures Flat(Groups(hunks)) != [] && Flat(TrimGroups(hunks)) != []
    ensures forall i :: 0 <= i < |Flat(Groups(hunks))| ==> !(FILE_MARK <= Flat(Groups(hunks))[i])
    decreases |hunks|
  {
    hide GoodHunk, TrimGroup, GroupOf, Lacks;
    GroupsAreLines(hunks[0]);
    if |hunks| > 1 { FlatIsLines(hunks[1..]); }
  }

  /** The title and the two file headers hold no line feed, and the latter begin no section. */
  lemma {:induction false} HeadersAreLines(s: Section)
    requires GoodSection(s)
    ensures Lacks(Title(s.change), '\n') && Lacks(OldLine(s.change), '\n') && Lacks(NewLine(s.change), '\n')
    ensures OldLine(s.change)[0] == '-' && NewLine(s.change)[0] == '+'
  {
    hide GoodHunk, GoodExtra, AreLines;
  }

  lemma {:induction false} HeadIsLines(s: Section)
    requires GoodSection(s)
    ensures GoodLines(HeadLines(s)) && HeadLines(s)[0] == Title(s.change)
  {
    HeadersAreLines(s);
    hide Title, OldLine, NewLine, GoodHunk;
    var h := HeadLines(s);
    forall i | 0 <= i < |h| ensures Lacks(h[i], '\n') && (i > 0 ==> !(FILE_MARK <= h[i])) {
      if 1 <= i < 1 + |s.extra| {
        assert h[i] == s.extra[i - 1] && GoodExtra(s.extra[i - 1], s.hunks == []);
      } else if i > 0 {
        assert h[i] == OldLine(s.change) || h[i] == NewLine(s.change);
        assert h[i][0] == '-' || h[i][0] == '+';
      }
    }
  }

  lemma {:induction false} TrimLeftKeepsTitle(c: Change, rest: string)
    ensures TrimLeft(Title(c) + rest) == Title(c) + rest
  {
    assert (Title(c) + rest)[0] == 'a';
  }

  /** The trimmed text of a section still has the section's lines, up to the end of the last hunk. */
  lemma {:induction false} TrimSection(s: Section, end: string)
    requires GoodSection(s) && Blank(end) && s.hunks != []
    ensures TrimSpace(Join(SectionLines(s)) + end) == Join(HeadLines(s) + Flat(TrimGroups(s.hunks)))
  {
    hide Title, OldLine, NewLine, Flat, TrimGroups, Groups, GoodSection, TrimRight, TrimLeft;
    var head, flat := HeadLines(s), Flat(Groups(s.hunks));
    HeadIsLines(s);
    FlatNotEmpty(s);
    JoinConcat(head, flat);
    JoinStart(head + flat, end);
    TrimLeftKeepsTitle(s.change, (Join(head + flat) + end)[|Title(s.change)|..]);
    TrimRightConcat(Join(head + flat), end);
    TrimFlat(s.hunks);
    TrimSolid(head, flat);
    TrimJoin(head + flat);
  }

  lemma {:induction false} FlatNotEmpty(s: Section)
    requires GoodSection(s) && s.hunks != []
    ensures s.hunks != [] && Flat(Groups(s.hunks)) != []
  {
    FlatIsLines(s.hunks);
  }

  lemma {:induction false} JoinStart(lines: seq<string>, end: string)
    requires lines != []
    ensures lines[0] <= Join(lines) + end && (Join(lines) + end) == lines[0] + (Join(lines) + end)[|lines[0]|..]
  {}

  lemma {:induction false} TrimSolid(a: seq<string>, b: seq<string>)
    requires !AllBlank(b)
    ensures !AllBlank(a + b) && TrimTail(a + b) == a + TrimTail(b)
    decreases |b|
  {
    var k :| 0 <= k < |b| && !Blank(b[k]);
    assert (a + b)[|a| + k] == b[k];
    var front, last := b[..|b| - 1], b[|b| - 1];
    assert (a + b)[|a + b| - 1] == last && (a + b)[..|a + b| - 1] == a + front;
    if Blank(last) {
      assert !AllBlank(front) by { assert front[k] == b[k]; }
      TrimSolid(a, front);
    } else {
      assert (a + front) + [TrimRight(last)] == a + (front + [TrimRight(last)]);
    }
  }

  lemma {:induction false} ScanSection(s: Section)
    requires GoodSection(s) && s.hunks != []
    ensures ScanLines(HeadLines(s) + Flat(TrimGroups(s.hunks)), 0, NEW_CHUNK) ==
      Some(Chunk(Expected(s), OldName(OldLine(s.change)), true))
  {
    var hunks := s.hunks;
    assert forall i :: 0 <= i < |hunks| ==> GoodHunk(hunks[i]);
    hide ScanLines, Flat, TrimGroups, HeadLines, GoodSection, GoodHunk, Ranges, AllReadAs, OldName, OldLine;
    var head, flat := HeadLines(s), Flat(TrimGroups(hunks));
    ScanHead(s, flat);
    assert (head + flat)[|head|..] == flat;
    TrimGroupsRead(hunks);
    ScanGroups(head + flat, |head|, TrimGroups(hunks), hunks, AfterHead(s.change));
    assert [] + Ranges(hunks, 0) == Ranges(hunks, 0);
  }

  /** The lines that are left of a section after trimming. */
  lemma {:induction false} TrimmedIsLines(s: Section)
    requires GoodSection(s) && s.hunks != []
    ensures var lines := HeadLines(s) + Flat(TrimGroups(s.hunks)); AreLines(lines) && lines != [] && lines[0] != ""
  {
    assert s.hunks != [] && forall i :: 0 <= i < |s.hunks| ==> GoodHunk(s.hunks[i]);
    hide Flat, TrimGroups, HeadLines, GoodSection, GoodHunk, Lacks, Groups;
    HeadIsLines(s);
    FlatIsLines(s.hunks);
    AreLinesConcat(HeadLines(s), Flat(TrimGroups(s.hunks)));
    TitleIsUnmarked(s.change);
  }

  lemma {:induction false} ReadFullSection(files: Files, s: Section, end: string)
    requires GoodSection(s) && Blank(end) && s.hunks != []
    ensures var chunk := TrimSpace(Join(SectionLines(s)) + end);
      chunk != "" && AddChunk(files, chunk) == files[KeyOf(s.change) := Expected(s)]
  {
    assert KeyOf(s.change) != "";
    hide ScanLines, Flat, TrimGroups, HeadLines, SectionLines, Split, Join, TrimSpace, GoodSection, Ranges, OldName,
      OldLine, Blank;
    TrimmedIsLines(s);
    TrimSection(s, end);
    var lines := HeadLines(s) + Flat(TrimGroups(s.hunks));
    SplitOfJoin(lines);
    NotEmpty(lines);
    ScanSection(s);
  }

  // ---- A section without hunks ---------------------------------------------------------------

  lemma {:induction false} ScanWithoutNew(lines: seq<string>, i: nat, c: Chunk)
    requires i <= |lines| && !c.foundNew && forall k :: i <= k < |lines| ==> !(NEW_MARK <= lines[k])
    ensures var r := ScanLines(lines, i, c); r.Some? ==> !r.value.foundNew
    decreases |lines| - i
  {
    if i < |lines| {
      ScanWithoutNew(lines, i + 1, c);
      ScanWithoutNew(lines, i + 1, c.(oldName := OldName(lines[i])));
    }
  }

  lemma {:induction false} BareLines(s: Section)
    requires GoodSection(s) && s.hunks == []
    ensures var lines := SectionLines(s);
      && lines == HeadLines(s) && lines != [] && lines[0] == Title(s.change) && AreLines(lines) && !AllBlank(lines)
      && forall i :: 0 <= i < |lines| ==> !(NEW_MARK <= lines[i])
  {
    HeadIsLines(s);
    TitleIsUnmarked(s.change);
    var lines := SectionLines(s);
    assert lines == HeadLines(s) && !Blank(lines[0]);
    forall i | 0 <= i < |lines| ensures !(NEW_MARK <= lines[i]) {
      if i > 0 { assert lines[i] == s.extra[i - 1] && GoodExtra(s.extra[i - 1], true); }
    }
  }

  lemma {:induction false} TrimmedWithoutNew(lines: seq<string>)
    requires !AllBlank(lines) && forall i :: 0 <= i < |lines| ==> !(NEW_MARK <= lines[i])
    ensures forall i :: 0 <= i < |TrimTail(lines)| ==> !(NEW_MARK <= TrimTail(lines)[i])
  {
    TrimTailKeeps(lines);
    var t := TrimTail(lines);
    forall i | 0 <= i < |t| ensures !(NEW_MARK <= t[i]) {
      assert t[i] <= lines[i];
    }
  }

  lemma {:induction false} ReadBareSection(files: Files, s: Section, end: string)
    requires GoodSection(s) && Blank(end) && s.hunks == []
    ensures AddChunk(files, TrimSpace(Join(SectionLines(s)) + end)) == files
  {
    hide Title, HeadLines, SectionLines, GoodSection, TrimRight, TrimLeft, Split, ScanLines, TrimTail, AllBlank;
    BareLines(s);
    var lines := SectionLines(s);
    JoinStart(lines, end);
    TrimLeftKeepsTitle(s.change, (Join(lines) + end)[|Title(s.change)|..]);
    TrimRightConcat(Join(lines), end);
    TrimJoin(lines);
    TrimTailIsLines(lines);
    SplitOfJoin(TrimTail(lines));
    TrimmedWithoutNew(lines);
    ScanWithoutNew(TrimTail(lines), 0, NEW_CHUNK);
  }

  /** Reading the chunk of a section adds exactly what the section says. */
  lemma {:induction false} ReadSection(files: Files, s: Section, end: string)
    requires GoodSection(s) && Blank(end)
    ensures var chunk := TrimSpace(Join(SectionLines(s)) + end);
      (if chunk == "" then files else AddChunk(files, chunk)) == WithSection(files, s)
  {
    hide AddChunk, SectionLines, GoodSection, TrimSpace, Join, Blank;
    if s.hunks == [] { ReadBareSection(files, s, end); } else { ReadFullSection(files, s, end); }
  }

  lemma {:induction false} NotEmpty(lines: seq<string>)
    requires lines != [] && lines[0] != ""
    ensures Join(lines) != ""
  {}

  lemma {:induction false} AreLinesConcat(a: seq<string>, b: seq<string>)
    requires AreLines(a) && AreLines(b)
    ensures AreLines(a + b)
  {}

  // ---- Splitting the whole text --------------------------------------------------------------

  /** A line that does not start with the mark cannot start with it once more text follows. */
  lemma {:induction false} MarkNeedsLine(line: string, y: string)
    requires !(FILE_MARK <= line) && (y == "" || y[0] == '\n')
    ensures !(FILE_MARK <= line + y)
  {
    var w := line + y;
    if |line| >= |FILE_MARK| {
      assert w[..|FILE_MARK|] == line[..|FILE_MARK|];
    } else if y != "" {
      assert w[|line|] == '\n' && FILE_MARK[|line|] != '\n';
    }
  }

  lemma {:induction false} IndexInLines(lines: seq<string>, y: string)
    requires GoodLines(lines) && (y == "" || y[0] == '\n')
    ensures Index(Join(lines) + y, FILE_SEPARATOR)
         == if Index(y, FILE_SEPARATOR) < 0 then -1 else |Join(lines)| + Index(y, FILE_SEPARATOR)
    decreases |lines|
  {
    hide Index;
    if |lines| == 1 {
      IndexSkips(lines[0], y, FILE_SEPARATOR);
    } else {
      var w := Join(lines[1..]) + y;
      IndexInLines(lines[1..], y);
      NextLineUnmarked(lines[1..], y);
      IndexBehindNewline(w);
      IndexSkips(lines[0], ['\n'] + w, FILE_SEPARATOR);
      assert Join(lines) + y == lines[0] + (['\n'] + w);
    }
  }

  lemma {:induction false} NextLineUnmarked(lines: seq<string>, y: string)
    requires lines != [] && !(FILE_MARK <= lines[0]) && (y == "" || y[0] == '\n')
    ensures !(FILE_MARK <= Join(lines) + y)
  {
    if |lines| == 1 {
      MarkNeedsLine(lines[0], y);
    } else {
      var z := ['\n'] + Join(lines[1..]) + y;
      MarkNeedsLine(lines[0], z);
      assert Join(lines) + y == lines[0] + z;
    }
  }

  lemma {:induction false} IndexBehindNewline(w: string)
    requires !(FILE_MARK <= w)
    ensures Index(['\n'] + w, FILE_SEPARATOR) ==
      if Index(w, FILE_SEPARATOR) < 0 then -1 else 1 + Index(w, FILE_SEPARATOR)
  {
    var z := ['\n'] + w;
    assert z[1..] == w;
    assert FILE_SEPARATOR[1..] == FILE_MARK;
    assert |z| >= |FILE_SEPARATOR| ==> z[..|FILE_SEPARATOR|][1..] == w[..|FILE_MARK|];
  }

  /** The text behind the first mark. */
  function Rest(sections: seq<Section>): string
    requires sections != []
    decreases |sections|
  {
    Join(SectionLines(sections[0])) + Tail(sections)
  }

  function Tail(sections: seq<Section>): string
    requires sections != []
    decreases |sections|, 0
  {
    if |sections| == 1 then ['\n'] else FILE_SEPARATOR + Rest(sections[1..])
  }

  lemma {:induction false} PrintIsRest(sections: seq<Section>)
    requires sections != []
    ensures PrintDiff(sections) == FILE_MARK + Rest(sections)
    decreases |sections|
  {
    hide Join, SectionLines;
    if |sections| == 1 {
      assert ['\n'] + PrintDiff([]) == ['\n'];
    } else {
      PrintIsRest(sections[1..]);
      NewlineAndMark(Rest(sections[1..]));
    }
  }

  lemma {:induction false} NewlineAndMark(rest: string)
    ensures ['\n'] + (FILE_MARK + rest) == FILE_SEPARATOR + rest
  {}

  /** The pieces the text is split into; the last one keeps its line feed. */
  function Pieces(sections: seq<Section>): seq<string>
    requires sections != []
  {
    var first := Join(SectionLines(sections[0]));
    if |sections| == 1 then [first + ['\n']] else [first] + Pieces(sections[1..])
  }

  /** `lines` are those of the first section, possibly with something before the first of them. */
  lemma {:induction false} SplitOne(lines: seq<string>, rest: string)
    requires GoodLines(lines)
    ensures Split(Join(lines) + (FILE_SEPARATOR + rest), FILE_SEPARATOR) == [Join(lines)] + Split(rest, FILE_SEPARATOR)
    ensures Split(Join(lines) + ['\n'], FILE_SEPARATOR) == [Join(lines) + ['\n']]
  {
    hide Join;
    IndexInLines(lines, FILE_SEPARATOR + rest);
    assert Index(FILE_SEPARATOR + rest, FILE_SEPARATOR) == 0;
    SplitFirst(Join(lines), FILE_SEPARATOR, rest);
    IndexInLines(lines, ['\n']);
    NoMarkInNewline();
  }

  lemma {:induction false} NoMarkInNewline()
    ensures Index(['\n'], FILE_SEPARATOR) == -1
  {
    IndexBehindNewline("");
    assert ['\n'] + "" == ['\n'];
  }

  lemma {:induction false} SplitRest(sections: seq<Section>)
    requires sections != [] && forall i :: 0 <= i < |sections| ==> GoodSection(sections[i])
    ensures Split(Rest(sections), FILE_SEPARATOR) == Pieces(sections)
    decreases |sections|
  {
    hide GoodSection, Split, Join, SectionLines;
    SectionIsLines(sections[0]);
    if |sections| == 1 {
      SplitOne(SectionLines(sections[0]), "");
    } else {
      SplitRest(sections[1..]);
      SplitOne(SectionLines(sections[0]), Rest(sections[1..]));
    }
  }

  lemma {:induction false} SectionIsLines(s: Section)
    requires GoodSection(s)
    ensures GoodLines(SectionLines(s))
  {
    if s.hunks == [] {
      HeadIsLines(s);
      BareLines(s);
    } else {
      hide HeadLines, Flat, Groups, Lacks;
      HeadIsLines(s);
      FlatIsLines(s.hunks);
      AreLinesConcat(HeadLines(s), Flat(Groups(s.hunks)));
    }
  }

  /** The first piece still carries the mark in front of its first line. */
  lemma {:induction false} SplitText(sections: seq<Section>)
    requires sections != [] && forall i :: 0 <= i < |sections| ==> GoodSection(sections[i])
    ensures Split(PrintDiff(sections), FILE_SEPARATOR) == [FILE_MARK + Pieces(sections)[0]] + Pieces(sections)[1..]
  {
    hide GoodSection, Split, Join, SectionLines, PrintDiff;
    var lines := SectionLines(sections[0]);
    SectionIsLines(sections[0]);
    MarkedIsLines(lines);
    var marked := [FILE_MARK + lines[0]] + lines[1..];
    PrintIsRest(sections);
    assert FILE_MARK + (Join(lines) + Tail(sections)) == Join(marked) + Tail(sections);
    if |sections| == 1 {
      SplitOne(marked, "");
      assert FILE_MARK + (Join(lines) + ['\n']) == Join(marked) + ['\n'];
    } else {
      SplitRest(sections[1..]);
      SplitOne(marked, Rest(sections[1..]));
    }
  }

  lemma {:induction false} MarkedIsLines(lines: seq<string>)
    requires GoodLines(lines)
    ensures var marked := [FILE_MARK + lines[0]] + lines[1..];
      GoodLines(marked) && Join(marked) == FILE_MARK + Join(lines)
  {
    var marked := [FILE_MARK + lines[0]] + lines[1..];
    assert marked[1..] == lines[1..];
    MarkIsLine(lines[0]);
    assert forall i :: 1 <= i < |lines| ==> marked[i] == lines[i];
  }

  lemma {:induction false} MarkIsLine(line: string)
    requires Lacks(line, '\n')
    ensures Lacks(FILE_MARK + line, '\n')
  {}

  // ---- The round trip ------------------------------------------------------------------------

  lemma {:induction false} ReadPieces(files: Files, sections: seq<Section>)
    requires sections != [] && forall i :: 0 <= i < |sections| ==> GoodSection(sections[i])
    ensures AddChunks(files, Pieces(sections)) == ExpectedFiles(files, sections)
    decreases |sections|
  {
    hide GoodSection, SectionLines, Join, TrimSpace, AddChunk, WithSection;
    var s := sections[0];
    var next := WithSection(files, s);
    SectionIsLines(s);
    var text := Join(SectionLines(s));
    if |sections| == 1 {
      NewlineIsBlank();
      ReadSection(files, s, ['\n']);
      assert Pieces(sections)[1..] == [];
    } else {
      ReadSection(files, s, "");
      assert text + "" == text;
      ReadPieces(next, sections[1..]);
      assert Pieces(sections)[1..] == Pieces(sections[1..]);
    }
  }

  lemma {:induction false} NewlineIsBlank()
    ensures Blank(['\n']) && Blank("")
  {}

  /** Parsing the text of a diff gives the files of the diff, provided the text is not too long. */
  lemma {:induction false} ParseOfPrint(sections: seq<Section>)
    requires GoodDiff(sections) && |PrintDiff(sections)| <= 10485760
    ensures Parsed(PrintDiff(sections)) == ExpectedFiles(map[], sections)
  {
    if sections != [] {
      hide Split, AddChunks, Pieces, TrimSpace, GoodSection;
      var text := PrintDiff(sections);
      PrintIsRest(sections);
      TextIsNotBlank(text);
      SplitText(sections);
      assert TrimPrefix(FILE_MARK + Pieces(sections)[0], FILE_MARK) == Pieces(sections)[0];
      assert [Pieces(sections)[0]] + Pieces(sections)[1..] == Pieces(sections);
      ReadPieces(map[], sections);
    }
  }

  lemma {:induction false} TextIsNotBlank(text: string)
    requires FILE_MARK <= text
    ensures TrimSpace(text) != ""
  {
    assert !IsSpace(text[0]) && TrimLeft(text) == text;
    TrimRightOfBlank(text);
  }

  /** The section has hunks, and no later one with hunks is filed under the same name. */
  predicate IsLast(sections: seq<Section>, k: int)
    requires 0 <= k < |sections|
  {
    sections[k].hunks != [] &&
    forall j :: k < j < |sections| && sections[j].hunks != [] ==> KeyOf(sections[j].change) != KeyOf(sections[k].change)
  }

  predicate ComesBack(files: Files, s: Section) {
    KeyOf(s.change) in files && files[KeyOf(s.change)] == Expected(s)
  }

  lemma {:induction false} ExpectedHolds(files: Files, sections: seq<Section>, k: nat)
    requires k < |sections| && IsLast(sections, k)
    ensures ComesBack(ExpectedFiles(files, sections), sections[k])
    decreases |sections|
  {
    hide KeyOf, Expected;
    var next, rest := WithSection(files, sections[0]), sections[1..];
    if k > 0 {
      forall j | k - 1 < j < |rest| && rest[j].hunks != [] ensures KeyOf(rest[j].change) != KeyOf(rest[k - 1].change) {
        assert rest[j] == sections[j + 1];
      }
      ExpectedHolds(next, rest, k - 1);
    } else {
      ExpectedKeeps(next, rest, KeyOf(sections[0].change));
    }
  }

  lemma {:induction false} ExpectedKeeps(files: Files, sections: seq<Section>, key: string)
    ensures (forall i :: 0 <= i < |sections| && sections[i].hunks != [] ==> KeyOf(sections[i].change) != key) ==>
      (key in ExpectedFiles(files, sections) <==> key in files) &&
      (key in files ==> ExpectedFiles(files, sections)[key] == files[key])
    decreases |sections|
  {
    if sections != [] { ExpectedKeeps(WithSection(files, sections[0]), sections[1..], key); }
  }

  /** Among the first `n` sections some are filed under a name, and none behind them: there is a last one. */
  lemma {:induction false} SomeLast(sections: seq<Section>, key: string, n: nat) returns (k: nat)
    requires n <= |sections|
    requires exists i :: 0 <= i < n && sections[i].hunks != [] && KeyOf(sections[i].change) == key
    requires forall i :: n <= i < |sections| && sections[i].hunks != [] ==> KeyOf(sections[i].change) != key
    ensures k < |sections| && IsLast(sections, k) && KeyOf(sections[k].change) == key
  {
    hide KeyOf;
    if sections[n - 1].hunks != [] && KeyOf(sections[n - 1].change) == key {
      k := n - 1;
    } else {
      k := SomeLast(sections, key, n - 1);
    }
  }

  ghost predicate IsFiled(sections: seq<Section>, key: string) {
    exists k :: 0 <= k < |sections| && IsLast(sections, k) && KeyOf(sections[k].change) == key
  }

  lemma {:induction false} FiledAreExpected(sections: seq<Section>, key: string)
    ensures key in ExpectedFiles(map[], sections) ==> IsFiled(sections, key)
  {
    hide ExpectedFiles, KeyOf, IsLast;
    if key in ExpectedFiles(map[], sections) {
      ExpectedKeeps(map[], sections, key);
      var k := SomeLast(sections, key, |sections|);
    }
  }

  /** The last section with hunks under each name comes back, with its delete flag and its hunk ranges,
      and nothing else does: in particular no file that was only renamed, changed its mode, or is binary. */
  lemma {:induction false} RoundTrip(sections: seq<Section>)
    requires GoodDiff(sections) && |PrintDiff(sections)| <= 10485760
    ensures var files := Parsed(PrintDiff(sections));
      && (forall k :: 0 <= k < |sections| && IsLast(sections, k) ==> ComesBack(files, sections[k]))
      && (forall key :: key in files ==> IsFiled(sections, key))
  {
    hide GoodDiff, PrintDiff, Parsed, ExpectedFiles, IsLast, ComesBack, IsFiled;
    ParseOfPrint(sections);
    forall k | 0 <= k < |sections| && IsLast(sections, k)
      ensures ComesBack(ExpectedFiles(map[], sections), sections[k])
    {
      ExpectedHolds(map[], sections, k);
    }
    forall key | key in ExpectedFiles(map[], sections) ensures IsFiled(sections, key) {
      FiledAreExpected(sections, key);
    }
  }

  predicate HunkCovers(h: Hunk, line: int) { h.plus.start <= line < h.plus.start + CountOf(h.plus) }

  predicate SectionCovers(s: Section, line: int) { exists j :: 0 <= j < |s.hunks| && HunkCovers(s.hunks[j], line) }

  lemma {:induction false} CoversAlike(s: Section, line: int)
    ensures SectionCovers(s, line) <==>
      exists j :: 0 <= j < |Expected(s).hunks| && Covers(Expected(s).hunks[j], line)
  {
    hide Ranges;
    RangesOf(s.hunks, 0);
    var rs := Expected(s).hunks;
    assert forall j :: 0 <= j < |s.hunks| ==> Covers(rs[j], line) == HunkCovers(s.hunks[j], line);
    if SectionCovers(s, line) {
      var j :| 0 <= j < |s.hunks| && HunkCovers(s.hunks[j], line);
      assert Covers(rs[j], line);
    }
  }

  lemma {:induction false} FoundInSection(files: Files, s: Section, line: int)
    requires ComesBack(files, s)
    ensures InSomeHunk(files, KeyOf(s.change), line) <==> !IsFiledAsDeleted(s.change) && SectionCovers(s, line)
  {
    hide SectionCovers, KeyOf, Ranges;
    CoversAlike(s, line);
  }

  /** The last section filed under `file` is not filed as deleted and covers the line. */
  ghost predicate IsCovered(sections: seq<Section>, file: string, line: int) {
    exists k :: 0 <= k < |sections| && IsLast(sections, k) && KeyOf(sections[k].change) == file &&
      !IsFiledAsDeleted(sections[k].change) && SectionCovers(sections[k], line)
  }

  /** A line of a file can be mapped exactly when it lies in the new range of some hunk of the last section
      filed under that name, and not as deleted.  (MapLine returns the line itself; see Diff.) */
  lemma {:induction false} MappedLines(sections: seq<Section>, file: string, line: int)
    requires GoodDiff(sections) && |PrintDiff(sections)| <= 10485760
    ensures InSomeHunk(Parsed(PrintDiff(sections)), file, line) <==> IsCovered(sections, file, line)
  {
    hide GoodDiff, PrintDiff, Parsed, IsLast, ComesBack, SectionCovers, KeyOf, IsFiledAsDeleted, InSomeHunk;
    RoundTrip(sections);
    var files := Parsed(PrintDiff(sections));
    FoundIsFiled(files, file, line);
    forall k | 0 <= k < |sections| && IsLast(sections, k) && KeyOf(sections[k].change) == file
      ensures InSomeHunk(files, file, line) <==>
        !IsFiledAsDeleted(sections[k].change) && SectionCovers(sections[k], line)
    {
      FoundInSection(files, sections[k], line);
    }
  }

  lemma {:induction false} FoundIsFiled(files: Files, file: string, line: int)
    ensures InSomeHunk(files, file, line) ==> file in files
  {}

  // ---- Tails in the file headers -------------------------------------------------------------

  lemma {:induction false} TailKeepsTab(name: string, tail: string)
    requires GoodTail(tail)
    ensures tail != "" ==> !Lacks(name + tail, '\t')
    ensures tail == "" ==> name + tail == name
  {
    if tail != "" { assert (name + tail)[|name|] == '\t'; }
  }

  predicate IsTailFree(c: Change) { c.newTail == "" && (c.Deleted? ==> c.oldTail == "") }

  /** When a file is filed under a name without a TAB: under its own, and without a tail that counts. */
  lemma {:induction false} KeyIsName(s: Section, name: string)
    requires GoodSection(s) && Lacks(name, '\t')
    ensures KeyOf(s.change) == name <==> s.change.name == name && IsTailFree(s.change)
  {
    hide GoodTail, GoodHunk, GoodExtra, Lacks;
    var c := s.change;
    assert GoodTail(c.oldTail) && GoodTail(c.newTail);
    TailKeepsTab(c.name, c.newTail);
    TailKeepsTab(c.name, c.oldTail);
    TailKeepsTab("/dev/null", c.newTail);
  }

  lemma {:induction false} FiledByName(sections: seq<Section>, k: nat)
    requires GoodDiff(sections) && PlainNames(sections) && k < |sections|
    ensures var name := sections[k].change.name;
      && (forall i :: 0 <= i < |sections| && KeyOf(sections[i].change) == name ==> i == k)
      && (IsFiled(sections, name) <==> sections[k].hunks != [] && IsTailFree(sections[k].change))
      && (IsFiled(sections, name) ==> IsLast(sections, k) && KeyOf(sections[k].change) == name)
  {
    hide GoodSection, KeyOf, IsTailFree;
    var name := sections[k].change.name;
    forall i | 0 <= i < |sections| && KeyOf(sections[i].change) == name ensures i == k {
      KeyIsName(sections[i], name);
    }
    KeyIsName(sections[k], name);
    if sections[k].hunks != [] && IsTailFree(sections[k].change) { assert IsLast(sections, k); }
  }

  /** With distinct names that hold no TAB: a file is found under its own name exactly when it has hunks and
      no tail that counts, and only then can its lines be mapped. */
  lemma {:induction false} FoundByName(sections: seq<Section>, k: nat, line: int)
    requires GoodDiff(sections) && PlainNames(sections) && |PrintDiff(sections)| <= 10485760 && k < |sections|
    ensures var files, s := Parsed(PrintDiff(sections)), sections[k];
      && (s.change.name in files <==> s.hunks != [] && IsTailFree(s.change))
      && (InSomeHunk(files, s.change.name, line) <==>
            SectionCovers(s, line) && s.change.newTail == "" && !s.change.Deleted?)
  {
    hide GoodDiff, PlainNames, PrintDiff, Parsed, IsLast, IsFiled, ComesBack, SectionCovers, KeyOf, InSomeHunk;
    var files, s := Parsed(PrintDiff(sections)), sections[k];
    RoundTrip(sections);
    FiledByName(sections, k);
    FoundIsFiled(files, s.change.name, line);
    NothingCovered(s, line);
    if IsFiled(sections, s.change.name) {
      FoundInSection(files, s, line);
      IsThere(files, s);
    }
  }

  lemma {:induction false} IsThere(files: Files, s: Section)
    requires ComesBack(files, s)
    ensures KeyOf(s.change) in files
  {}

  lemma {:induction false} NothingCovered(s: Section, line: int)
    ensures SectionCovers(s, line) ==> s.hunks != []
  {}

  // A file with a blank in its name as git prints it, and a deleted file with time stamps.
  const ONE := Range(1, None)
  const NOTHING := Range(0, Some(0))
  const BLANK_NAME := Section(Modified("a b", "a b", "\t", "\t"), [], [Hunk(ONE, ONE, "", ["-x", "+y"])])
  const STAMPED := Section(Deleted("c", "\t2024", "\t1970"), [], [Hunk(ONE, NOTHING, "", ["-x"])])

  lemma {:induction false} JoinIsShort(lines: seq<string>)
    requires lines != [] && forall i :: 0 <= i < |lines| ==> |lines[i]| <= 30
    ensures |Join(lines)| <= 31 * |lines|
  {
    if |lines| > 1 { JoinIsShort(lines[1..]); }
  }

  lemma ExamplesAreGood()
    ensures GoodDiff([BLANK_NAME, STAMPED]) && PlainNames([BLANK_NAME, STAMPED])
    ensures SectionCovers(BLANK_NAME, 1)
    ensures KeyOf(STAMPED.change) == "/dev/null\t1970" && !IsFiledAsDeleted(STAMPED.change)
  {
    assert GoodSection(BLANK_NAME) by { assert GoodHunk(BLANK_NAME.hunks[0]); }
    assert GoodSection(STAMPED) by { assert GoodHunk(STAMPED.hunks[0]); }
    hide GoodSection;
    assert HunkCovers(BLANK_NAME.hunks[0], 1);
    assert "/dev/null" + "\t1970" == "/dev/null\t1970";
  }

  lemma ShortHeader(plus: Range)
    requires plus == ONE || plus == NOTHING
    ensures |Header(ONE, plus, "")| <= 30
  {
    assert |Itoa(1)| == 1 && |Itoa(0)| == 1;
  }

  lemma {:induction false} OneHunk(h: Hunk)
    ensures Flat(Groups([h])) == [GroupOf(h).header] + GroupOf(h).body
  {
    hide GroupOf;
    var g := GroupOf(h);
    assert [h][1..] == [] && Groups([]) == [] && [g] + [] == [g];
    assert Groups([h]) == [g];
    assert [g][1..] == [] && Flat([]) == [];
    assert [g.header] + g.body + [] == [g.header] + g.body;
  }

  lemma {:induction false} ExampleIsShort(s: Section, end: string)
    requires s == BLANK_NAME || s == STAMPED
    ensures |FILE_MARK + (Join(SectionLines(s)) + (['\n'] + end))| <= 300 + |end|
  {
    hide Header;
    var h := s.hunks[0];
    ShortHeader(h.plus);
    var g := GroupOf(h);
    OneHunk(h);
    assert s.hunks == [h];
    var lines := SectionLines(s);
    assert lines == [Title(s.change), OldLine(s.change), NewLine(s.change)] + ([g.header] + g.body);
    JoinIsShort(lines);
  }

  /** The tails hide both: line 1 of the first file cannot be mapped, and the second file is filed under
      "/dev/null" and its time stamp, and not as deleted. */
  lemma {:induction false} TailsHideFiles()
    ensures var files := Parsed(PrintDiff([BLANK_NAME, STAMPED]));
      && SectionCovers(BLANK_NAME, 1) && !InSomeHunk(files, "a b", 1) && "a b" !in files
      && "c" !in files && "/dev/null\t1970" in files && !files["/dev/null\t1970"].isDelete
  {
    hide GoodDiff, PlainNames, Parsed, SectionLines, InSomeHunk, SectionCovers, IsFiled;
    var sections := [BLANK_NAME, STAMPED];
    ExamplesAreGood();
    assert sections[1..] == [STAMPED] && [STAMPED][1..] == [];
    assert PrintDiff([]) == "";
    ExampleIsShort(STAMPED, "");
    ExampleIsShort(BLANK_NAME, PrintDiff([STAMPED]));
    FoundByName(sections, 0, 1);
    FoundByName(sections, 1, 1);
    RoundTrip(sections);
    assert IsLast(sections, 1) && ComesBack(Parsed(PrintDiff(sections)), sections[1]);
  }

  lemma {:induction false} RangesOf(hunks: seq<Hunk>, from: nat)
    ensures |Ranges(hunks, from)| == |hunks|
    ensures forall j :: 0 <= j < |hunks| ==>
      Ranges(hunks, from)[j] == HunkRange(hunks[j].plus.start, CountOf(hunks[j].plus), from + j)
  {
    if hunks != [] { RangesOf(hunks[1..], from + 1); }
  }
}
