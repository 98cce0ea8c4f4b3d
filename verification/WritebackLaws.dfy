/** What a posted review shows, and when. */
module WritebackLaws {
  import opened Wrappers
  import opened Strings
  import opened Diff
  import opened Writeback

  // ---- Counting issues -----------------------------------------------------------------------

  function Bag(issues: seq<Issue>, p: Issue -> bool): multiset<Issue> { multiset(Select(issues, p)) }

  lemma {:induction false} BagSplits(issues: seq<Issue>, p: Issue -> bool, q: Issue -> bool, r: Issue -> bool)
    requires forall i :: r(i) <==> p(i) || q(i)
    requires forall i :: !(p(i) && q(i))
    ensures Bag(issues, r) == Bag(issues, p) + Bag(issues, q)
  {
    if issues != [] {
      BagSplits(issues[..|issues| - 1], p, q, r);
    }
  }

  lemma {:induction false} SelectedAreThere(issues: seq<Issue>, p: Issue -> bool)
    ensures forall i :: i in Select(issues, p) <==> i in issues && p(i)
  {
    if issues != [] {
      SelectedAreThere(issues[..|issues| - 1], p);
      assert issues == issues[..|issues| - 1] + [issues[|issues| - 1]];
    }
  }

  function IssuesOf(comments: seq<InlineComment>): seq<Issue> {
    seq(|comments|, k requires 0 <= k < |comments| => comments[k].issue)
  }

  /** Everything the posting shows, inline or in the body. */
  function Shown(p: Posting): multiset<Issue> { multiset(IssuesOf(p.comments)) + multiset(p.body) }

  // ---- Conservation --------------------------------------------------------------------------

  /** An issue that the filter hides but whose key is also the key of a visible issue. */
  predicate Collides(issues: seq<Issue>, f: Filter, i: Issue) {
    f.IsConfigured() && i in issues && !f.Passes(i) &&
    exists v :: v in issues && f.Passes(v) && IssueKey(v) == IssueKey(i)
  }

  function Intruders(issues: seq<Issue>, f: Filter): Issue -> bool {
    var keys := Keys(Visible(issues, f));
    i => f.IsConfigured() && !f.Passes(i) && IssueKey(i) in keys
  }

  function Rightful(issues: seq<Issue>, f: Filter): Issue -> bool {
    var keys := Keys(Visible(issues, f));
    i => f.IsConfigured() ==> f.Passes(i) && IssueKey(i) in keys
  }

  /** What is shown is what passes the filter, plus the hidden issues that share a visible key. */
  lemma {:induction false} ShownIsVisiblePlusIntruders(output: Output, f: Filter, files: Option<Files>)
    ensures Shown(Posted(output, f, files))
         == multiset(Visible(output.issues, f)) + Bag(output.issues, Intruders(output.issues, f))
  {
    var issues := output.issues;
    var kept, mapped, unmapped := Kept(issues, f), Mapped(files), Unmapped(files);
    BagSplits(issues, And(mapped, kept), And(unmapped, kept), kept);
    BagSplits(issues, Rightful(issues, f), Intruders(issues, f), kept);
    RightfulAreVisible(issues, f);
    var inline := Select(issues, And(mapped, kept));
    assert IssuesOf(CommentsOn(inline)) == inline;
  }

  lemma {:induction false} RightfulAreVisible(issues: seq<Issue>, f: Filter)
    ensures Select(issues, Rightful(issues, f)) == Visible(issues, f)
  {
    var keys := Keys(Visible(issues, f));
    if f.IsConfigured() {
      SelectedAreThere(issues, Passing(f));
      SelectAgree(issues, Rightful(issues, f), Passing(f)) by {
        forall i | i in issues ensures Rightful(issues, f)(i) == f.Passes(i) {
          if f.Passes(i) {
            var v := Visible(issues, f);
            var k :| 0 <= k < |v| && v[k] == i;
            assert IssueKey(v[k]) in keys;
          }
        }
      }
    } else {
      SelectEverything(issues, Rightful(issues, f));
    }
  }

  lemma {:induction false} SelectAgree(issues: seq<Issue>, p: Issue -> bool, q: Issue -> bool)
    requires forall i :: i in issues ==> p(i) == q(i)
    ensures Select(issues, p) == Select(issues, q)
  {
    if issues != [] { SelectAgree(issues[..|issues| - 1], p, q); }
  }

  lemma {:induction false} SelectEverything(issues: seq<Issue>, p: Issue -> bool)
    requires forall i :: p(i)
    ensures Select(issues, p) == issues
  {
    if issues != [] { SelectEverything(issues[..|issues| - 1], p); }
  }

  /** Inline comments and body issues are together exactly the visible issues, unless a hidden issue
      has the same key string as a visible one; then that hidden issue is shown as well. */
  lemma {:induction false} Conservation(output: Output, f: Filter, files: Option<Files>)
    ensures Shown(Posted(output, f, files)) == multiset(Visible(output.issues, f))
      <==> !exists i :: Collides(output.issues, f, i)
  {
    var issues := output.issues;
    ShownIsVisiblePlusIntruders(output, f, files);
    SelectedAreThere(issues, Intruders(issues, f));
    SelectedAreThere(issues, Passing(f));
    var extra := Select(issues, Intruders(issues, f));
    forall i ensures Collides(issues, f, i) <==> i in extra {
      CollidersAreIntruders(issues, f, i);
    }
    if extra != [] {
      assert extra[0] in extra && Collides(issues, f, extra[0]);
      assert extra[0] in multiset(extra);
    }
    assert extra == [] <==> multiset(extra) == multiset{};
  }

  lemma {:induction false} CollidersAreIntruders(issues: seq<Issue>, f: Filter, i: Issue)
    ensures Collides(issues, f, i) <==> i in issues && Intruders(issues, f)(i)
  {
    var visible := Visible(issues, f);
    if f.IsConfigured() {
      SelectedAreThere(issues, Passing(f));
      if Collides(issues, f, i) {
        var v :| v in issues && f.Passes(v) && IssueKey(v) == IssueKey(i);
        assert v in visible;
        var k :| 0 <= k < |visible| && visible[k] == v;
        assert IssueKey(visible[k]) in Keys(visible);
      }
      if i in issues && Intruders(issues, f)(i) {
        var k :| 0 <= k < |visible| && IssueKey(visible[k]) == IssueKey(i);
        assert visible[k] in visible;
      }
    }
  }

  // ---- When keys cannot collide --------------------------------------------------------------

  lemma {:induction false} FieldsSplit(a: string, b: string, x: string, y: string)
    requires Lacks(a, ':') && Lacks(b, ':') && a + ([':'] + x) == b + ([':'] + y)
    ensures a == b && x == y
  {
    var s := a + ([':'] + x);
    assert s[|a|] == ':' && s[|b|] == ':';
    assert s[..|a|] == a && s[..|b|] == b;
    assert s[|a| + 1..] == x && s[|b| + 1..] == y;
  }

  lemma {:induction false} PrintIntLacksColon(n: int)
    ensures Lacks(PrintInt(n), ':')
  {}

  /** Without a colon in any file name or severity, no two issues that the filter treats differently
      share a key, so nothing hidden is shown. */
  lemma {:induction false} ColonFreeIsSafe(output: Output, f: Filter, files: Option<Files>)
    requires forall i :: i in output.issues ==> Lacks(i.file, ':') && Lacks(i.severity, ':')
    ensures Shown(Posted(output, f, files)) == multiset(Visible(output.issues, f))
  {
    hide IssueKey;
    forall i ensures !Collides(output.issues, f, i) {
      if Collides(output.issues, f, i) {
        var v :| v in output.issues && f.Passes(v) && IssueKey(v) == IssueKey(i);
        KeysTell(v, i);
      }
    }
    Conservation(output, f, files);
  }

  lemma {:induction false} KeysTell(v: Issue, i: Issue)
    requires Lacks(v.file, ':') && Lacks(v.severity, ':') && Lacks(i.file, ':') && Lacks(i.severity, ':')
    requires IssueKey(v) == IssueKey(i)
    ensures v.file == i.file && v.severity == i.severity
  {
    var v2, i2 := v.category + ([':'] + v.message), i.category + ([':'] + i.message);
    var v1, i1 := v.severity + ([':'] + v2), i.severity + ([':'] + i2);
    PrintIntLacksColon(v.line);
    PrintIntLacksColon(i.line);
    FieldsSplit(v.file, i.file, PrintInt(v.line) + ([':'] + v1), PrintInt(i.line) + ([':'] + i1));
    FieldsSplit(PrintInt(v.line), PrintInt(i.line), v1, i1);
    FieldsSplit(v.severity, i.severity, v2, i2);
  }

  /** A concrete collision: the first issue is visible at threshold "error", the second is not, and
      both have the key "f:1:2:ERROR::". */
  lemma {:induction false} CollisionExists()
    ensures var a, b := Issue("f:1", 2, "ERROR", "", "", ""), Issue("f", 1, "2", "ERROR", ":", "");
      Collides([a, b], Filter("error", [], (p, s) => false), b)
  {
    hide IssueKey, ParseSeverity;
    var a, b := Issue("f:1", 2, "ERROR", "", "", ""), Issue("f", 1, "2", "ERROR", ":", "");
    SameKey();
    Ranks();
    assert a in [a, b] && b in [a, b];
  }

  lemma {:induction false} SameKey()
    ensures IssueKey(Issue("f:1", 2, "ERROR", "", "", "")) == "f:1:2:ERROR::"
    ensures IssueKey(Issue("f", 1, "2", "ERROR", ":", "")) == "f:1:2:ERROR::"
  {
    assert PrintInt(2) == "2" && PrintInt(1) == "1";
  }

  lemma {:induction false} Ranks()
    ensures ParseSeverity("ERROR") == ParseSeverity("error") > ParseSeverity("2")
  {
    assert TrimSpace("ERROR") == "ERROR" && TrimSpace("error") == "error" && TrimSpace("2") == "2";
    assert ToLower("ERROR") == "error" && ToLower("error") == "error" && ToLower("2") == "2";
  }

  // ---- Inline comments lie in the diff -------------------------------------------------------

  /** Every inline comment names a file of the diff that is not deleted and a line in one of its hunks. */
  lemma {:induction false} CommentsLieInHunks(output: Output, f: Filter, files: Option<Files>)
    ensures forall c :: c in Posted(output, f, files).comments ==>
      files.Some? && c.path == c.issue.file && c.newLineNum == c.issue.line && c.issue in output.issues &&
      InSomeHunk(files.value, c.path, c.newLineNum)
  {
    SelectedAreThere(output.issues, And(Mapped(files), Kept(output.issues, f)));
    var inline := Select(output.issues, And(Mapped(files), Kept(output.issues, f)));
    forall c | c in CommentsOn(inline) ensures c.issue in inline && c == CommentOn(c.issue) {
      var k :| 0 <= k < |inline| && c == CommentsOn(inline)[k];
    }
  }

  // ---- Verdicts ------------------------------------------------------------------------------

  predicate SomethingFiltered(output: Output, f: Filter) { |Visible(output.issues, f)| < |output.issues| }

  lemma {:induction false} NothingFiltered(issues: seq<Issue>, p: Issue -> bool)
    requires |Select(issues, p)| == |issues|
    ensures Select(issues, p) == issues
  {
    if issues != [] { NothingFiltered(issues[..|issues| - 1], p); }
  }

  /** The posted state is REQUEST_CHANGES exactly when a visible issue is CRITICAL or ERROR, or the
      review asked for changes and nothing was filtered. */
  lemma {:induction false} RequestChangesExactlyWhen(output: Output, f: Filter)
    ensures PostedState(output, f) == StateRequestChanges
      <==>
      HasHigh(Visible(output.issues, f)) ||
      (output.verdict == VerdictRequestChanges && !SomethingFiltered(output, f))
  {
    if f.IsConfigured() && !SomethingFiltered(output, f) {
      NothingFiltered(output.issues, Passing(f));
    }
  }

  /** The posted state is the state of the verdict that other callers get from ApplyFilters, except
      when nothing was filtered and the safety net overrules a verdict that did not ask for changes. */
  lemma {:induction false} StateMatchesFilteredVerdict(output: Output, f: Filter)
    ensures PostedState(output, f) == VerdictToState(Filtered(output, f).verdict)
      <==> SomethingFiltered(output, f) || !HasHigh(output.issues) || output.verdict == VerdictRequestChanges
  {}

  /** Both fold case, but in opposite directions: only lowering takes the dotted capital I for an i, and
      only raising takes the dotless small i for an I. */
  predicate IsSomeI(c: char) { c == 'i' || c == 'I' || c == DOTTED_CAPITAL_I || c == DOTLESS_SMALL_I }

  function PlainChar(c: char): char { if IsSomeI(c) then 'i' else LowerChar(c) }

  /** The text with every kind of i as 'i', otherwise lowered. */
  function Plain(s: string): string { seq(|s|, k requires 0 <= k < |s| => PlainChar(s[k])) }

  /** The text spells "critical" with one of the two special kinds of i and not with the other. */
  predicate OddlySpelled(s: string) {
    Plain(s) == "critical" && (DOTTED_CAPITAL_I in s) != (DOTLESS_SMALL_I in s)
  }

  predicate IsWord(w: string) { forall k :: 0 <= k < |w| ==> 'a' <= w[k] <= 'z' && w[k] != 'k' && w[k] != 's' }

  function Raised(w: string): string
    requires IsWord(w)
  {
    seq(|w|, k requires 0 <= k < |w| => (w[k] as int - 32) as char)
  }

  lemma FoldChar(c: char, w: char)
    requires 'a' <= w <= 'z' && w != 'k' && w != 's'
    ensures LowerChar(c) == w <==> PlainChar(c) == w && c != DOTLESS_SMALL_I
    ensures UpperChar(c) == (w as int - 32) as char <==> PlainChar(c) == w && c != DOTTED_CAPITAL_I
  {}

  /** When a text folds to a word: it must spell the word and lack the kind of i that does not fold. */
  lemma {:induction false} Folds(s: string, w: string)
    requires IsWord(w)
    ensures ToLower(s) == w <==> Plain(s) == w && DOTLESS_SMALL_I !in s
    ensures ToUpper(s) == Raised(w) <==> Plain(s) == w && DOTTED_CAPITAL_I !in s
  {
    hide PlainChar, LowerChar, UpperChar;
    if |s| == |w| {
      forall k | 0 <= k < |s|
        ensures ToLower(s)[k] == w[k] <==> Plain(s)[k] == w[k] && s[k] != DOTLESS_SMALL_I
        ensures ToUpper(s)[k] == Raised(w)[k] <==> Plain(s)[k] == w[k] && s[k] != DOTTED_CAPITAL_I
      {
        FoldChar(s[k], w[k]);
      }
      FoldAll(s, w);
    }
  }

  lemma {:induction false} FoldAll(s: string, w: string)
    requires IsWord(w) && |s| == |w|
    requires forall k :: 0 <= k < |s| ==> (ToLower(s)[k] == w[k] <==> Plain(s)[k] == w[k] && s[k] != DOTLESS_SMALL_I)
    requires forall k :: 0 <= k < |s| ==>
      (ToUpper(s)[k] == Raised(w)[k] <==> Plain(s)[k] == w[k] && s[k] != DOTTED_CAPITAL_I)
    ensures ToLower(s) == w <==> Plain(s) == w && DOTLESS_SMALL_I !in s
    ensures ToUpper(s) == Raised(w) <==> Plain(s) == w && DOTTED_CAPITAL_I !in s
  {
    hide PlainChar, LowerChar, UpperChar;
    if ToLower(s) == w {
      forall k | 0 <= k < |s| ensures Plain(s)[k] == w[k] && s[k] != DOTLESS_SMALL_I { assert ToLower(s)[k] == w[k]; }
      assert Plain(s) == w;
    }
    if Plain(s) == w && DOTLESS_SMALL_I !in s {
      forall k | 0 <= k < |s| ensures ToLower(s)[k] == w[k] { assert Plain(s)[k] == w[k] && s[k] in s; }
      assert ToLower(s) == w;
    }
    if ToUpper(s) == Raised(w) {
      forall k | 0 <= k < |s| ensures Plain(s)[k] == w[k] && s[k] != DOTTED_CAPITAL_I {
        assert ToUpper(s)[k] == Raised(w)[k];
      }
      assert Plain(s) == w;
    }
    if Plain(s) == w && DOTTED_CAPITAL_I !in s {
      forall k | 0 <= k < |s| ensures ToUpper(s)[k] == Raised(w)[k] { assert Plain(s)[k] == w[k] && s[k] in s; }
      assert ToUpper(s) == Raised(w);
    }
  }

  /** A text that spells a word without an i holds no special one. */
  lemma {:induction false} NoSpecialI(s: string, w: string)
    requires Plain(s) == w && Lacks(w, 'i')
    ensures DOTTED_CAPITAL_I !in s && DOTLESS_SMALL_I !in s
  {
    forall k | 0 <= k < |s| ensures !IsSomeI(s[k]) { assert Plain(s)[k] == w[k]; }
  }

  lemma {:induction false} WordsOfSafetyNet(s: string)
    ensures (ToLower(s) == "critical" || ToLower(s) == "error") <==>
      Plain(s) == "error" || (Plain(s) == "critical" && DOTLESS_SMALL_I !in s)
    ensures (ToUpper(s) == "CRITICAL" || ToUpper(s) == "ERROR") <==>
      Plain(s) == "error" || (Plain(s) == "critical" && DOTTED_CAPITAL_I !in s)
  {
    hide ToLower, ToUpper, Plain;
    assert Raised("error") == "ERROR" && Raised("critical") == "CRITICAL";
    Folds(s, "error");
    Folds(s, "critical");
    if Plain(s) == "error" { NoSpecialI(s, "error"); }
  }

  /** The threshold ignores surrounding white space, the safety net does not.  Apart from that, a severity
      counts as at least ERROR for the one exactly when it does for the other, unless it spells "critical"
      with a special i. */
  lemma {:induction false} ThresholdTrims(i: Issue)
    ensures var trimmed := TrimSpace(i.severity);
      (ParseSeverity(i.severity) >= 2 <==> IsHigh(i.(severity := trimmed))) <==> !OddlySpelled(trimmed)
  {
    hide ToLower, ToUpper, Plain, TrimSpace;
    WordsOfSafetyNet(TrimSpace(i.severity));
  }

  lemma {:induction false} TrimKeepsSolid(s: string)
    requires forall k :: 0 <= k < |s| ==> !Strings.IsSpace(s[k])
    ensures TrimSpace(s) == s
  {}

  /** No severity that the safety net knows has white space around it. */
  lemma {:induction false} HighIsTrimmed(i: Issue)
    requires IsHigh(i)
    ensures TrimSpace(i.severity) == i.severity
  {
    var s := i.severity;
    forall k | 0 <= k < |s| ensures !Strings.IsSpace(s[k]) {
      assert ToUpper(s)[k] == UpperChar(s[k]);
      if ToUpper(s) == "CRITICAL" {
        assert ToUpper(s)[k] == "CRITICAL"[k];
      } else {
        assert ToUpper(s)[k] == "ERROR"[k];
      }
    }
    TrimKeepsSolid(s);
  }

  /** The text spells "error", or it spells "critical" and holds no dotless small i. */
  predicate SpellsHigh(s: string) { Plain(s) == "error" || (Plain(s) == "critical" && DOTLESS_SMALL_I !in s) }

  /** Threshold and safety net agree on a severity with white space around it exactly when the text inside
      spells nothing high, and on any other exactly when it does not spell "critical" with one special
      kind of i. */
  lemma {:induction false} ThresholdAgreesIff(i: Issue)
    ensures var trimmed := TrimSpace(i.severity);
      (ParseSeverity(i.severity) >= 2 <==> IsHigh(i)) <==>
      if trimmed == i.severity then !OddlySpelled(trimmed) else !SpellsHigh(trimmed)
  {
    hide ToLower, ToUpper, Plain, TrimSpace, OddlySpelled;
    ThresholdTrims(i);
    WordsOfSafetyNet(TrimSpace(i.severity));
    if IsHigh(i) { HighIsTrimmed(i); }
  }

  /** They differ on "ERROR ": the issue passes a threshold of errors, and nothing makes its review ask
      for changes. */
  lemma {:induction false} PaddedErrorIsNotHigh()
    ensures var i := Issue("f", 1, "ERROR ", "", "", ""); ParseSeverity(i.severity) >= 2 && !IsHigh(i)
  {
    assert TrimLeft("ERROR ") == "ERROR ";
    TrimRightConcat("ERROR", " ");
    assert "ERROR" + " " == "ERROR " && TrimRight("ERROR") == "ERROR";
    assert TrimSpace("ERROR ") == "ERROR" && ToLower("ERROR") == "error";
    assert |ToUpper("ERROR ")| == 6;
  }

  const DOTTED_CRITICAL := "CR\U{130}T\U{130}CAL"
  const DOTLESS_CRITICAL := "CR\U{131}T\U{131}CAL"

  /** They differ on "critical" with dotted capital I's, which passes every threshold and is not high. */
  lemma {:induction false} DottedCriticalIsNotHigh()
    ensures var i := Issue("f", 1, DOTTED_CRITICAL, "", "", "");
      TrimSpace(i.severity) == i.severity && ParseSeverity(i.severity) == 3 && !IsHigh(i)
  {
    TrimKeepsSolid(DOTTED_CRITICAL);
    assert ToLower(DOTTED_CRITICAL) == "critical";
    assert ToUpper(DOTTED_CRITICAL)[2] == DOTTED_CAPITAL_I;
    assert ToUpper(DOTTED_CRITICAL) != "CRITICAL" && |ToUpper(DOTTED_CRITICAL)| == 8;
  }

  /** And on "critical" with dotless small i's: the safety net takes it for high, and the threshold for
      an info, so that any other threshold filters it. */
  lemma {:induction false} DotlessCriticalIsMild()
    ensures var i := Issue("f", 1, DOTLESS_CRITICAL, "", "", "");
      TrimSpace(i.severity) == i.severity && ParseSeverity(i.severity) == 0 && IsHigh(i)
  {
    TrimKeepsSolid(DOTLESS_CRITICAL);
    assert ToUpper(DOTLESS_CRITICAL) == "CRITICAL";
    assert ToLower(DOTLESS_CRITICAL)[2] == DOTLESS_SMALL_I && |ToLower(DOTLESS_CRITICAL)| == 8;
  }

  // ---- What the filter shows, and where ------------------------------------------------------

  /** Ranks, by the text without white space: critical 3, error 2, warning 1, anything else 0. */
  lemma {:induction false} RankExact(s: string)
    ensures var t := TrimSpace(s);
      ParseSeverity(s) ==
        if Plain(t) == "critical" && DOTLESS_SMALL_I !in t then 3
        else if Plain(t) == "error" then 2
        else if Plain(t) == "warning" && DOTLESS_SMALL_I !in t then 1
        else 0
  {
    hide ToLower, ToUpper, Plain, TrimSpace;
    var t := TrimSpace(s);
    Folds(t, "critical");
    Folds(t, "error");
    Folds(t, "warning");
    if Plain(t) == "error" { NoSpecialI(t, "error"); }
  }

  lemma {:induction false} NamedRanks()
    ensures ParseSeverity("critical") > ParseSeverity("error") > ParseSeverity("warning") > ParseSeverity("info")
    ensures ParseSeverity("info") == ParseSeverity("") == ParseSeverity("unknown")
  {
    TrimKeepsSolid("critical");
    TrimKeepsSolid("error");
    TrimKeepsSolid("warning");
    TrimKeepsSolid("info");
    TrimKeepsSolid("unknown");
    assert ToLower("critical") == "critical" && ToLower("error") == "error" && ToLower("warning") == "warning";
    assert ToLower("info") == "info" && ToLower("unknown") == "unknown" && TrimSpace("") == "" == ToLower("");
  }

  /** Without a threshold and patterns every issue is visible.  Otherwise those are whose file no pattern
      matches, or that name no file, and that rank at least as high as the threshold. */
  lemma {:induction false} VisibleIff(issues: seq<Issue>, f: Filter, i: Issue)
    ensures i in Visible(issues, f) <==>
      i in issues &&
      ((f.threshold == "" && f.patterns == []) ||
       ((i.file == "" || forall k :: 0 <= k < |f.patterns| ==> !f.glob(f.patterns[k], i.file)) &&
        ParseSeverity(i.severity) >= ParseSeverity(f.threshold)))
  {
    hide ParseSeverity, Select;
    SelectedAreThere(issues, Passing(f));
  }

  /** An issue is shown iff its key is that of a visible one; inline iff moreover it names a file and a line
      in a hunk of the diff, and in the body otherwise. */
  lemma {:induction false} ShownWhere(output: Output, f: Filter, files: Option<Files>, i: Issue)
    ensures var p := Posted(output, f, files);
      var inHunk := files.Some? && i.file != "" && i.line > 0 && InSomeHunk(files.value, i.file, i.line);
      var shown := i in output.issues && exists v :: v in Visible(output.issues, f) && IssueKey(v) == IssueKey(i);
      && (InlineComment(i.file, i.line, i) in p.comments <==> shown && inHunk)
      && (i in p.body <==> shown && !inHunk)
  {
    hide Select, IssueKey, InSomeHunk;
    var issues := output.issues;
    var visible := Visible(issues, f);
    if i in issues { KeptIff(issues, f, i); }
    SelectedAreThere(issues, And(Mapped(files), Kept(issues, f)));
    SelectedAreThere(issues, And(Unmapped(files), Kept(issues, f)));
    var inline := Select(issues, And(Mapped(files), Kept(issues, f)));
    if i in inline {
      var k :| 0 <= k < |inline| && inline[k] == i;
      assert CommentsOn(inline)[k] == InlineComment(i.file, i.line, i);
    }
    if InlineComment(i.file, i.line, i) in CommentsOn(inline) {
      var k :| 0 <= k < |inline| && CommentsOn(inline)[k] == InlineComment(i.file, i.line, i);
      assert inline[k] == i;
    }
  }

  lemma {:induction false} KeptIff(issues: seq<Issue>, f: Filter, i: Issue)
    requires i in issues
    ensures Kept(issues, f)(i) <==> exists v :: v in Visible(issues, f) && IssueKey(v) == IssueKey(i)
  {
    hide Select, IssueKey;
    var visible := Visible(issues, f);
    if !f.IsConfigured() { assert i in visible; }
    if exists v :: v in visible && IssueKey(v) == IssueKey(i) {
      var v :| v in visible && IssueKey(v) == IssueKey(i);
      var k :| 0 <= k < |visible| && visible[k] == v;
      assert IssueKey(visible[k]) in Keys(visible);
    }
  }

  // ---- The posted state ----------------------------------------------------------------------

  /** Some issue has a severity that upper-cased reads CRITICAL or ERROR. */
  predicate AnyHigh(issues: seq<Issue>) {
    exists k :: 0 <= k < |issues| &&
      (ToUpper(issues[k].severity) == "CRITICAL" || ToUpper(issues[k].severity) == "ERROR")
  }

  /** When a review is posted as which of the three states. */
  lemma {:induction false} StateExactly(output: Output, f: Filter, files: Option<Files>)
    ensures var state, visible := Posted(output, f, files).state, Visible(output.issues, f);
      && (state == StateApproved <==>
            output.verdict == VerdictApprove && !AnyHigh(visible) && (visible != [] || output.issues == []))
      && (state == StateRequestChanges <==>
            AnyHigh(visible) || (output.verdict == VerdictRequestChanges && |visible| == |output.issues|))
      && (state == StateComment <==>
            !AnyHigh(visible) &&
            (if |visible| == |output.issues| then
               output.verdict != VerdictApprove && output.verdict != VerdictRequestChanges
             else output.verdict != VerdictApprove || visible == []))
  {
    hide ToUpper;
    var visible := Visible(output.issues, f);
    assert HasHigh(visible) <==> AnyHigh(visible);
    if f.IsConfigured() && |visible| == |output.issues| { NothingFiltered(output.issues, Passing(f)); }
  }

  /** The verdict that other callers see: unchanged when nothing was filtered; otherwise a comment when
      nothing is left, a request for changes when something high is, a comment instead of a request that
      nothing high supports, and any other verdict as it was. */
  lemma {:induction false} FilteredVerdictExactly(output: Output, f: Filter)
    ensures var verdict, visible := Filtered(output, f).verdict, Visible(output.issues, f);
      if |visible| == |output.issues| then verdict == output.verdict
      else
        && (verdict == VerdictRequestChanges <==> visible != [] && AnyHigh(visible))
        && (verdict != VerdictRequestChanges ==>
              verdict == if visible != [] && output.verdict != VerdictRequestChanges then output.verdict
                         else VerdictComment)
  {
    hide ToUpper, Select;
    var visible := Visible(output.issues, f);
    VisibleIsShorter(output.issues, f);
    assert HasHigh(visible) <==> AnyHigh(visible);
  }

  lemma {:induction false} VisibleIsShorter(issues: seq<Issue>, f: Filter)
    ensures |Visible(issues, f)| <= |issues|
  {}
}
