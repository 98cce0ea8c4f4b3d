/** Review writeback: filtering, the split into inline comments and body, and the verdict
    (internal/review/writeback.go and filter.go). */
module Writeback {
  import opened Wrappers
  import opened Strings
  import opened Diff

  datatype Issue = Issue(file: string, line: int, severity: string, category: string, message: string,
                         suggestion: string)

  datatype Verdict = VerdictApprove | VerdictRequestChanges | VerdictComment | VerdictOther(text: string)

  datatype State = StateApproved | StateRequestChanges | StateComment

  datatype Output = Output(summary: string, verdict: Verdict, issues: seq<Issue>)

  /** An inline comment; its body is computed from the issue alone. */
  datatype InlineComment = InlineComment(path: string, newLineNum: int, issue: Issue)

  /** doublestar.Match: pattern first, then path. */
  type Glob = (string, string) -> bool

  // ---- Severity ------------------------------------------------------------------------------

  const DOTTED_CAPITAL_I := '\U{130}'
  const DOTLESS_SMALL_I := '\U{131}'
  const LONG_S := '\U{17F}'
  const KELVIN_SIGN := '\U{212A}'

  /** unicode.ToUpper as far as a comparison with ASCII text can tell: a character that folds to one
      outside ASCII stays as it is. */
  function UpperChar(c: char): char {
    if 'a' <= c <= 'z' then (c as int - 32) as char
    else if c == DOTLESS_SMALL_I then 'I'
    else if c == LONG_S then 'S'
    else c
  }

  /** unicode.ToLower, in the same way. */
  function LowerChar(c: char): char {
    if 'A' <= c <= 'Z' then (c as int + 32) as char
    else if c == DOTTED_CAPITAL_I then 'i'
    else if c == KELVIN_SIGN then 'k'
    else c
  }

  function ToUpper(s: string): string { seq(|s|, i requires 0 <= i < |s| => UpperChar(s[i])) }
  function ToLower(s: string): string { seq(|s|, i requires 0 <= i < |s| => LowerChar(s[i])) }

  /** 3 critical, 2 error, 1 warning, 0 info and everything unknown. */
  function ParseSeverity(s: string): nat {
    var t := ToLower(TrimSpace(s));
    if t == "critical" then 3 else if t == "error" then 2 else if t == "warning" then 1 else 0
  }

  predicate IsHigh(i: Issue) { ToUpper(i.severity) == "CRITICAL" || ToUpper(i.severity) == "ERROR" }

  predicate HasHigh(issues: seq<Issue>) { exists k :: 0 <= k < |issues| && IsHigh(issues[k]) }

  // ---- Filtering -----------------------------------------------------------------------------

  datatype Filter = Filter(threshold: string, patterns: seq<string>, glob: Glob)
  {
    predicate IsConfigured() { threshold != "" || patterns != [] }

    predicate Ignores(file: string) {
      file != "" && exists k :: 0 <= k < |patterns| && glob(patterns[k], file)
    }

    predicate Passes(i: Issue) {
      !Ignores(i.file) && ParseSeverity(i.severity) >= ParseSeverity(threshold)
    }
  }

  function Passing(f: Filter): Issue -> bool { i => f.Passes(i) }

  function Ignored(f: Filter): Issue -> bool { (i: Issue) => f.Ignores(i.file) }

  function TooMild(f: Filter): Issue -> bool { (i: Issue) => !f.Ignores(i.file) && !f.Passes(i) }

  datatype FilterResult = FilterResult(visible: seq<Issue>, filtered: nat, bySeverity: nat, byFile: nat)

  function Select(issues: seq<Issue>, p: Issue -> bool): (r: seq<Issue>)
    ensures |r| <= |issues|
  {
    if issues == [] then []
    else Select(issues[..|issues| - 1], p) + if p(issues[|issues| - 1]) then [issues[|issues| - 1]] else []
  }

  lemma SelectStep(issues: seq<Issue>, k: nat, p: Issue -> bool)
    requires k < |issues|
    ensures Select(issues[..k + 1], p) == Select(issues[..k], p) + if p(issues[k]) then [issues[k]] else []
  {
    assert issues[..k + 1][..k] == issues[..k];
  }

  /** The issues a review shows: all of them when no filter is configured. */
  function Visible(issues: seq<Issue>, f: Filter): seq<Issue> {
    if f.IsConfigured() then Select(issues, Passing(f)) else issues
  }

  method MatchesIgnorePattern(file: string, f: Filter) returns (matched: bool)
    ensures matched == f.Ignores(file)
  {
    if file == "" || f.patterns == [] {
      return false;
    }
    for k := 0 to |f.patterns|
      invariant forall j :: 0 <= j < k ==> !f.glob(f.patterns[j], file)
    {
      if f.glob(f.patterns[k], file) {
        return true;
      }
    }
    return false;
  }

  lemma FilterCases(f: Filter, i: Issue)
    ensures Ignored(f)(i) == f.Ignores(i.file)
    ensures Passing(f)(i) == (!f.Ignores(i.file) && ParseSeverity(i.severity) >= ParseSeverity(f.threshold))
    ensures TooMild(f)(i) == (!f.Ignores(i.file) && ParseSeverity(i.severity) < ParseSeverity(f.threshold))
  {}

  /** The counts over a list, each by its own criterion. */
  function Tally(issues: seq<Issue>, f: Filter): FilterResult {
    var visible := Select(issues, Passing(f));
    FilterResult(visible, |issues| - |visible|, |Select(issues, TooMild(f))|, |Select(issues, Ignored(f))|)
  }

  /** How one issue moves the counters. */
  function Counted(r: FilterResult, i: Issue, f: Filter): FilterResult {
    if f.Ignores(i.file) then r.(filtered := r.filtered + 1, byFile := r.byFile + 1)
    else if ParseSeverity(i.severity) < ParseSeverity(f.threshold) then
      r.(filtered := r.filtered + 1, bySeverity := r.bySeverity + 1)
    else r.(visible := r.visible + [i])
  }

  lemma {:induction false} TallyStep(issues: seq<Issue>, k: nat, f: Filter)
    requires k < |issues|
    ensures Tally(issues[..k + 1], f) == Counted(Tally(issues[..k], f), issues[k], f)
  {
    hide Select, ParseSeverity, Passing, Ignored, TooMild;
    SelectStep(issues, k, Passing(f));
    SelectStep(issues, k, Ignored(f));
    SelectStep(issues, k, TooMild(f));
    FilterCases(f, issues[k]);
    assert |issues[..k + 1]| == k + 1 && |issues[..k]| == k;
  }

  lemma {:induction false} TallyAddsUp(issues: seq<Issue>, k: nat, f: Filter)
    requires k <= |issues|
    ensures Tally(issues[..k], f).filtered == Tally(issues[..k], f).byFile + Tally(issues[..k], f).bySeverity
  {
    if k > 0 {
      hide Tally, ParseSeverity;
      TallyAddsUp(issues, k - 1, f);
      TallyStep(issues, k - 1, f);
    }
  }

  method FilterIssues(issues: seq<Issue>, f: Filter) returns (result: FilterResult)
    ensures result.visible == Select(issues, Passing(f))
    ensures result.byFile == |Select(issues, Ignored(f))|
    ensures result.bySeverity == |Select(issues, TooMild(f))|
    ensures result.filtered == result.byFile + result.bySeverity == |issues| - |result.visible|
  {
    result := FilterResult([], 0, 0, 0);
    var threshold := ParseSeverity(f.threshold);
    assert result == Tally(issues[..0], f);
    for k := 0 to |issues|
      invariant result == Tally(issues[..k], f)
    {
      hide Tally, ParseSeverity;
      var issue := issues[k];
      TallyStep(issues, k, f);
      var ignored := MatchesIgnorePattern(issue.file, f);
      if ignored {
        result := result.(filtered := result.filtered + 1, byFile := result.byFile + 1);
        continue;
      }
      if ParseSeverity(issue.severity) < threshold {
        result := result.(filtered := result.filtered + 1, bySeverity := result.bySeverity + 1);
        continue;
      }
      result := result.(visible := result.visible + [issue]);
    }
    TallyAddsUp(issues, |issues|, f);
    assert issues[..|issues|] == issues;
  }

  // ---- Verdicts ------------------------------------------------------------------------------

  function RecalcVerdict(visible: seq<Issue>, original: Verdict): Verdict {
    if visible == [] then VerdictComment
    else if HasHigh(visible) then VerdictRequestChanges
    else if original == VerdictRequestChanges then VerdictComment
    else original
  }

  function VerdictToState(v: Verdict): State {
    match v
    case VerdictApprove => StateApproved
    case VerdictRequestChanges => StateRequestChanges
    case _ => StateComment
  }

  function MapVerdict(v: Verdict, issues: seq<Issue>): State {
    if HasHigh(issues) then StateRequestChanges else VerdictToState(v)
  }

  /** The filtered review that other callers see. */
  method ApplyFilters(output: Output, f: Filter) returns (clone: Output, result: FilterResult)
    ensures clone == Filtered(output, f)
    ensures result.visible == Visible(output.issues, f)
    ensures result.filtered == |output.issues| - |result.visible|
  {
    if !f.IsConfigured() {
      return output, FilterResult(output.issues, 0, 0, 0);
    }
    result := FilterIssues(output.issues, f);
    clone := output.(issues := result.visible);
    if result.filtered > 0 {
      var verdict := CheckVerdict(result.visible, output.verdict);
      clone := clone.(verdict := verdict);
    }
  }

  function Filtered(output: Output, f: Filter): Output {
    var visible := Visible(output.issues, f);
    output.(issues := visible,
            verdict := if |visible| < |output.issues| then RecalcVerdict(visible, output.verdict) else output.verdict)
  }

  method HasHighIssue(issues: seq<Issue>) returns (found: bool)
    ensures found == HasHigh(issues)
  {
    for k := 0 to |issues|
      invariant forall j :: 0 <= j < k ==> !IsHigh(issues[j])
    {
      var sev := ToUpper(issues[k].severity);
      if sev == "CRITICAL" || sev == "ERROR" {
        return true;
      }
    }
    return false;
  }

  method CheckVerdict(visible: seq<Issue>, original: Verdict) returns (v: Verdict)
    ensures v == RecalcVerdict(visible, original)
  {
    if |visible| == 0 {
      return VerdictComment;
    }
    var high := HasHighIssue(visible);
    if high {
      return VerdictRequestChanges;
    }
    if original == VerdictRequestChanges {
      return VerdictComment;
    }
    return original;
  }

  // ---- Mapping and posting -------------------------------------------------------------------

  function PrintInt(n: int): string { if n < 0 then ['-'] + Itoa(-n) else Itoa(n) }

  /** issueKey: the fields joined by colons. */
  function IssueKey(i: Issue): string {
    i.file + ([':'] + (PrintInt(i.line) + ([':'] + (i.severity + ([':'] + (i.category + ([':'] + i.message)))))))
  }

  predicate IsMapped(files: Option<Files>, i: Issue) {
    files.Some? && i.file != "" && i.line > 0 && InSomeHunk(files.value, i.file, i.line)
  }

  function Mapped(files: Option<Files>): Issue -> bool { i => IsMapped(files, i) }

  function Unmapped(files: Option<Files>): Issue -> bool { i => !IsMapped(files, i) }

  /** The code keeps an issue by its key, not by the filter. */
  function Kept(issues: seq<Issue>, f: Filter): Issue -> bool {
    var keys := Keys(Visible(issues, f));
    i => f.IsConfigured() ==> IssueKey(i) in keys
  }

  function And(p: Issue -> bool, q: Issue -> bool): Issue -> bool { i => p(i) && q(i) }

  function Keys(issues: seq<Issue>): set<string> { set k | 0 <= k < |issues| :: IssueKey(issues[k]) }

  datatype MapResult = MapResult(issue: Issue, position: int, mapped: bool)

  datatype Posting = Posting(state: State, comments: seq<InlineComment>, body: seq<Issue>)

  function CommentOn(i: Issue): InlineComment { InlineComment(i.file, i.line, i) }

  function CommentsOn(issues: seq<Issue>): seq<InlineComment> {
    seq(|issues|, k requires 0 <= k < |issues| => CommentOn(issues[k]))
  }

  /** What is posted for a review that could be parsed. */
  function Posted(output: Output, f: Filter, files: Option<Files>): Posting {
    Posting(
      PostedState(output, f),
      CommentsOn(Select(output.issues, And(Mapped(files), Kept(output.issues, f)))),
      Select(output.issues, And(Unmapped(files), Kept(output.issues, f))))
  }

  function PostedState(output: Output, f: Filter): State {
    var visible := Visible(output.issues, f);
    if |visible| < |output.issues| then VerdictToState(RecalcVerdict(visible, output.verdict))
    else MapVerdict(output.verdict, output.issues)
  }

  ghost function FilesOf(dm: DiffMap?): Option<Files>
    reads if dm == null then {} else {dm}
  {
    if dm == null then None else Some(dm.files)
  }

  method MapIssuesToComments(dm: DiffMap?, issues: seq<Issue>) returns (results: seq<MapResult>)
    ensures Maps(results, issues, FilesOf(dm))
  {
    results := [];
    for k := 0 to |issues|
      invariant |results| == k
      invariant forall j :: 0 <= j < k ==>
        results[j] == MapResult(issues[j], if IsMapped(FilesOf(dm), issues[j]) then issues[j].line else 0,
                                IsMapped(FilesOf(dm), issues[j]))
    {
      var mr := MapResult(issues[k], 0, false);
      if dm != null && issues[k].file != "" && issues[k].line > 0 {
        var pos, ok := dm.MapLine(issues[k].file, issues[k].line);
        if ok {
          mr := mr.(mapped := true, position := pos);
        }
      }
      results := results + [mr];
    }
  }

  ghost predicate Maps(results: seq<MapResult>, issues: seq<Issue>, files: Option<Files>) {
    |results| == |issues| && forall k :: 0 <= k < |issues| ==>
      results[k] ==
        MapResult(issues[k], if IsMapped(files, issues[k]) then issues[k].line else 0, IsMapped(files, issues[k]))
  }

  /** Step 8c: the first split, before any filter. */
  method SplitByDiff(results: seq<MapResult>, ghost issues: seq<Issue>, ghost files: Option<Files>)
    returns (comments: seq<InlineComment>, unmapped: seq<Issue>)
    requires Maps(results, issues, files)
    ensures comments == CommentsOn(Select(issues, Mapped(files)))
    ensures unmapped == Select(issues, Unmapped(files))
  {
    comments, unmapped := [], [];
    hide IsMapped;
    for k := 0 to |results|
      invariant comments == CommentsOn(Select(issues[..k], Mapped(files)))
      invariant unmapped == Select(issues[..k], Unmapped(files))
    {
      var mr := results[k];
      SelectStep(issues, k, Mapped(files));
      SelectStep(issues, k, Unmapped(files));
      if mr.mapped {
        comments := comments + [InlineComment(mr.issue.file, mr.position, mr.issue)];
      } else {
        unmapped := unmapped + [mr.issue];
      }
    }
    assert issues[..|results|] == issues;
  }

  /** The first list again, with only the issues whose key is the key of a visible issue. */
  method RebuildMapped(results: seq<MapResult>, ghost issues: seq<Issue>, ghost files: Option<Files>,
                       visibleSet: set<string>, ghost kept: Issue -> bool)
    returns (filtered: seq<InlineComment>)
    requires Maps(results, issues, files) && forall i :: kept(i) <==> IssueKey(i) in visibleSet
    ensures filtered == CommentsOn(Select(issues, And(Mapped(files), kept)))
  {
    hide IssueKey, IsMapped;
    filtered := [];
    for k := 0 to |results|
      invariant filtered == CommentsOn(Select(issues[..k], And(Mapped(files), kept)))
    {
      var mr := results[k];
      SelectStep(issues, k, And(Mapped(files), kept));
      if mr.mapped && IssueKey(mr.issue) in visibleSet {
        filtered := filtered + [InlineComment(mr.issue.file, mr.position, mr.issue)];
      }
    }
    assert issues[..|results|] == issues;
  }

  method RebuildUnmapped(unmapped: seq<Issue>, visibleSet: set<string>, ghost kept: Issue -> bool)
    returns (filtered: seq<Issue>)
    requires forall i :: kept(i) <==> IssueKey(i) in visibleSet
    ensures filtered == Select(unmapped, kept)
  {
    hide IssueKey;
    filtered := [];
    for k := 0 to |unmapped|
      invariant filtered == Select(unmapped[..k], kept)
    {
      SelectStep(unmapped, k, kept);
      if IssueKey(unmapped[k]) in visibleSet {
        filtered := filtered + [unmapped[k]];
      }
    }
    assert unmapped[..|unmapped|] == unmapped;
  }

  lemma {:induction false} SelectTwice(issues: seq<Issue>, p: Issue -> bool, q: Issue -> bool)
    ensures Select(Select(issues, p), q) == Select(issues, And(p, q))
  {
    if issues != [] {
      var front, last := issues[..|issues| - 1], issues[|issues| - 1];
      SelectTwice(front, p, q);
      var s := Select(front, p);
      assert (s + [last])[..|s|] == s && (s + [last])[|s|] == last && s + [] == s;
    }
  }

  lemma {:induction false} SelectAll(issues: seq<Issue>, p: Issue -> bool, q: Issue -> bool)
    requires forall i :: q(i)
    ensures Select(issues, And(p, q)) == Select(issues, p)
  {
    if issues != [] { SelectAll(issues[..|issues| - 1], p, q); }
  }

  /** The part of Write between the diff and the call that creates the review.  `review` is None when
      the output could not be parsed: then nothing is split and the state is COMMENT. */
  method Write(dm: DiffMap?, review: Option<Output>, f: Filter) returns (p: Posting)
    ensures review == None ==> p == Posting(StateComment, [], [])
    ensures review.Some? ==> p == Posted(review.value, f, FilesOf(dm))
  {
    if review == None {
      return Posting(StateComment, [], []);
    }
    var output := review.value;
    var issues := output.issues;
    var mapResults := MapIssuesToComments(dm, issues);
    var comments, unmapped := SplitByDiff(mapResults, issues, FilesOf(dm));
    var filterResult := FilterResult([], 0, 0, 0);
    if f.IsConfigured() {
      var clone;
      clone, filterResult := ApplyFilters(output, f);
      var visibleSet := Keys(filterResult.visible);
      comments := RebuildMapped(mapResults, issues, FilesOf(dm), visibleSet, Kept(issues, f));
      unmapped := RebuildUnmapped(unmapped, visibleSet, Kept(issues, f));
      SelectTwice(issues, Unmapped(FilesOf(dm)), Kept(issues, f));
    } else {
      SelectAll(issues, Mapped(FilesOf(dm)), Kept(issues, f));
      SelectAll(issues, Unmapped(FilesOf(dm)), Kept(issues, f));
    }
    var state;
    if filterResult.filtered > 0 {
      var recalced := CheckVerdict(filterResult.visible, output.verdict);
      state := VerdictToState(recalced);
    } else {
      var high := HasHighIssue(issues);
      state := if high then StateRequestChanges else VerdictToState(output.verdict);
    }
    return Posting(state, comments, unmapped);
  }
}
