/** Stable branch keys for test-generation modules (internal/worker/container.go).

    The code rewrites a string until nothing changes any more.  The specification is a normal
    form that mentions no rewriting: every maximal run of '.' and '-' becomes one character. */
module BranchKey {
  import opened Wrappers

  predicate IsSep(c: char) { c == '.' || c == '-' }

  predicate IsKept(c: char) {
    'a' <= c <= 'z' || 'A' <= c <= 'Z' || '0' <= c <= '9' || c == '.' || c == '_'
  }

  // ---- Declarative normal form ---------------------------------------------------------------

  function Mapped(s: string): string {
    seq(|s|, i requires 0 <= i < |s| => if IsKept(s[i]) then s[i] else '-')
  }

  /** Length of the longest prefix that consists of separators. */
  function RunLength(s: string): (n: nat)
    ensures n <= |s|
  {
    if s != "" && IsSep(s[0]) then 1 + RunLength(s[1..]) else 0
  }

  /** Every maximal run of separators becomes '-' if it holds a '-', and '.' otherwise. */
  function Collapse(s: string): string
    decreases |s|
  {
    if s == "" then ""
    else if IsSep(s[0]) then
      var n := RunLength(s);
      [if '-' in s[..n] then '-' else '.'] + Collapse(s[n..])
    else [s[0]] + Collapse(s[1..])
  }

  function TrimLeft(s: string): string {
    if s != "" && IsSep(s[0]) then TrimLeft(s[1..]) else s
  }

  function TrimRight(s: string): string {
    if s != "" && IsSep(s[|s| - 1]) then TrimRight(s[..|s| - 1]) else s
  }

  function Normal(s: string): string {
    TrimRight(TrimLeft(Collapse(Mapped(s))))
  }

  predicate NoAdjacentSeps(s: string) {
    forall i :: 0 < i < |s| ==> !(IsSep(s[i - 1]) && IsSep(s[i]))
  }

  // ---- The same form as a right fold ---------------------------------------------------------

  /** Puts one character in front of a collapsed string. */
  function Push(c: char, r: string): string {
    if IsSep(c) && r != "" && IsSep(r[0])
    then [if c == '-' then '-' else r[0]] + r[1..]
    else [c] + r
  }

  function Fold(s: string): string {
    if s == "" then "" else Push(s[0], Fold(s[1..]))
  }

  lemma {:induction false} FoldStartsLikeRun(s: string)
    ensures (Fold(s) != "" && IsSep(Fold(s)[0])) == (s != "" && IsSep(s[0]))
    ensures s != "" && IsSep(s[0]) ==>
      Fold(s) == [if '-' in s[..RunLength(s)] then '-' else '.'] + Fold(s[RunLength(s)..])
  {
    if s != "" {
      FoldStartsLikeRun(s[1..]);
      if IsSep(s[0]) {
        var n := RunLength(s[1..]);
        assert s[..n + 1] == [s[0]] + s[1..][..n];
        assert s[n + 1..] == s[1..][n..];
        if n == 0 { assert s[1..][n..] == s[1..]; }
      }
    }
  }

  lemma {:induction false} FoldIsCollapse(s: string)
    ensures Fold(s) == Collapse(s)
    decreases |s|
  {
    if s != "" {
      FoldStartsLikeRun(s);
      FoldStartsLikeRun(s[1..]);
      if IsSep(s[0]) {
        FoldIsCollapse(s[RunLength(s)..]);
      } else {
        FoldIsCollapse(s[1..]);
      }
    }
  }

  lemma {:induction false} FoldCongruence(x: string, s: string, t: string)
    requires Fold(s) == Fold(t)
    ensures Fold(x + s) == Fold(x + t)
  {
    if x == "" {
      assert x + s == s && x + t == t;
    } else {
      FoldCongruence(x[1..], s, t);
      assert (x + s)[1..] == x[1..] + s && (x + t)[1..] == x[1..] + t;
    }
  }

  lemma {:induction false} FoldOfSettled(s: string)
    requires NoAdjacentSeps(s)
    ensures Fold(s) == s
  {
    if s != "" {
      assert NoAdjacentSeps(s[1..]) by {
        forall i | 0 < i < |s[1..]| ensures !(IsSep(s[1..][i - 1]) && IsSep(s[1..][i])) {
          assert s[1..][i - 1] == s[i] && s[1..][i] == s[i + 1];
        }
      }
      FoldOfSettled(s[1..]);
    }
  }

  lemma {:induction false} FoldSettles(s: string)
    ensures NoAdjacentSeps(Fold(s))
    ensures forall c :: c in Fold(s) ==> c in s
  {
    if s != "" {
      FoldSettles(s[1..]);
      var r := Fold(s[1..]);
      forall i | 0 < i < |Fold(s)| ensures !(IsSep(Fold(s)[i - 1]) && IsSep(Fold(s)[i])) {
        if Fold(s) == [s[0]] + r {
          if i > 1 { assert Fold(s)[i - 1] == r[i - 2] && Fold(s)[i] == r[i - 1]; }
        } else {
          assert i > 0 && Fold(s)[i] == r[i] && IsSep(r[i - 1]) == IsSep(Fold(s)[i - 1]);
        }
      }
    }
  }

  // ---- strings.ReplaceAll --------------------------------------------------------------------

  /** Replaces the non-overlapping occurrences of the pair, left to right. */
  function ReplaceAll(s: string, pair: string, rep: char): (r: string)
    requires |pair| == 2
    ensures |r| <= |s|
    ensures |r| == |s| ==> r == s && Lacks(s, pair)
  {
    if |s| < 2 then s
    else if s[..2] == pair then [rep] + ReplaceAll(s[2..], pair, rep)
    else
      assert s[..2] == [s[0], s[1]] && pair == [pair[0], pair[1]];
      [s[0]] + ReplaceAll(s[1..], pair, rep)
  }

  predicate Lacks(s: string, pair: string)
    requires |pair| == 2
  {
    forall i :: 0 < i < |s| ==> !(s[i - 1] == pair[0] && s[i] == pair[1])
  }

  /** The four rewrites of the loop: each removes a pair in favour of what the pair collapses to. */
  predicate IsRewrite(pair: string, rep: char) {
    (pair == ".." && rep == '.') || ((pair == "-." || pair == ".-" || pair == "--") && rep == '-')
  }

  /** No rewrite of the loop changes the collapsed form. */
  lemma {:induction false} RewriteKeepsCollapse(s: string, pair: string, rep: char)
    requires IsRewrite(pair, rep)
    ensures Collapse(ReplaceAll(s, pair, rep)) == Collapse(s)
  {
    RewriteKeepsFold(s, pair, rep);
    FoldIsCollapse(s);
    FoldIsCollapse(ReplaceAll(s, pair, rep));
  }

  lemma {:induction false} PairFolds(pair: string, rep: char, t: string)
    requires IsRewrite(pair, rep)
    ensures Push(pair[0], Push(pair[1], t)) == Push(rep, t)
  {}

  lemma {:induction false} FoldFirst(c: char, rest: string)
    ensures Fold([c] + rest) == Push(c, Fold(rest))
  {
    assert ([c] + rest)[1..] == rest;
  }

  lemma {:induction false} RewriteKeepsFold(s: string, pair: string, rep: char)
    requires IsRewrite(pair, rep)
    ensures Fold(ReplaceAll(s, pair, rep)) == Fold(s)
    decreases |s|
  {
    if |s| >= 2 {
      hide Fold, Push;
      if s[..2] == pair {
        var rest := s[2..];
        RewriteKeepsFold(rest, pair, rep);
        FoldFirst(rep, ReplaceAll(rest, pair, rep));
        assert s == [s[0]] + ([s[1]] + rest) && pair[0] == s[..2][0] && pair[1] == s[..2][1];
        FoldFirst(s[0], [s[1]] + rest);
        FoldFirst(s[1], rest);
        PairFolds(pair, rep, Fold(rest));
      } else {
        RewriteKeepsFold(s[1..], pair, rep);
        FoldFirst(s[0], ReplaceAll(s[1..], pair, rep));
        assert s == [s[0]] + s[1..];
        FoldFirst(s[0], s[1..]);
      }
    }
  }

  lemma SettledWhenNothingReplaced(s: string)
    requires |ReplaceAll(s, "..", '.')| == |s| && |ReplaceAll(s, "-.", '-')| == |s|
    requires |ReplaceAll(s, ".-", '-')| == |s| && |ReplaceAll(s, "--", '-')| == |s|
    ensures NoAdjacentSeps(s)
  {
    assert Lacks(s, "..") && Lacks(s, "-.") && Lacks(s, ".-") && Lacks(s, "--");
  }

  function Round(s: string): string {
    ReplaceAll(ReplaceAll(ReplaceAll(ReplaceAll(s, "..", '.'), "-.", '-'), ".-", '-'), "--", '-')
  }

  lemma RoundKeepsFold(s: string)
    ensures Fold(Round(s)) == Fold(s)
    ensures Round(s) == s || |Round(s)| < |s|
    ensures Round(s) == s ==> NoAdjacentSeps(s)
  {
    var s1 := ReplaceAll(s, "..", '.');
    var s2 := ReplaceAll(s1, "-.", '-');
    var s3 := ReplaceAll(s2, ".-", '-');
    RewriteKeepsFold(s, "..", '.');
    RewriteKeepsFold(s1, "-.", '-');
    RewriteKeepsFold(s2, ".-", '-');
    RewriteKeepsFold(s3, "--", '-');
    if Round(s) == s { SettledWhenNothingReplaced(s); }
  }

  /** One step of the first loop: what is written plus what is left still folds to the same. */
  lemma FeedOne(out: string, left: string)
    requires left != ""
    ensures Fold((out + [left[0]]) + left[1..]) == Fold(out + left)
    ensures left[0] == '-' && out != "" && out[|out| - 1] == '-' ==> Fold(out + left[1..]) == Fold(out + left)
  {
    var c, rest := left[0], left[1..];
    assert left == [c] + rest;
    Reassociate(out, [c], rest);
    if c == '-' && out != "" && out[|out| - 1] == '-' {
      var front := out[..|out| - 1];
      assert out == front + ['-'];
      Reassociate(front, ['-'], rest);
      Reassociate(front, ['-'], left);
      DoubleDash(front, rest);
    }
  }

  lemma DoubleDash(front: string, rest: string)
    ensures Fold(front + (['-'] + (['-'] + rest))) == Fold(front + (['-'] + rest))
  {
    var one := ['-'] + rest;
    var two := ['-'] + one;
    assert two[1..] == one && one[1..] == rest;
    FoldCongruence(front, two, one);
  }

  // ---- The code ------------------------------------------------------------------------------

  method SanitizeModuleBranchRef(s: string) returns (out: string)
    ensures out == Normal(s)
  {
    out := "";
    var prevDash := false;
    assert out + Mapped(s)[0..] == Mapped(s);
    for i := 0 to |s|
      invariant prevDash == (out != "" && out[|out| - 1] == '-')
      invariant Fold(out + Mapped(s)[i..]) == Fold(Mapped(s))
    {
      FeedOne(out, Mapped(s)[i..]);
      if IsKept(s[i]) {
        out := out + [s[i]];
        prevDash := false;
      } else if !prevDash {
        out := out + "-";
        prevDash := true;
      }
    }
    assert out + Mapped(s)[|s|..] == out;
    while true
      invariant Fold(out) == Fold(Mapped(s))
      decreases |out|
    {
      var prev := out;
      out := ReplaceAll(out, "..", '.');
      out := ReplaceAll(out, "-.", '-');
      out := ReplaceAll(out, ".-", '-');
      out := ReplaceAll(out, "--", '-');
      RoundKeepsFold(prev);
      if out == prev {
        break;
      }
    }
    FoldOfSettled(out);
    FoldIsCollapse(Mapped(s));
    out := TrimRight(TrimLeft(out));
  }

  method ModuleKeyForContainer(module_: string) returns (key: string)
    ensures key == ModuleKey(module_)
  {
    key := module_;
    if key == "" {
      key := "all";
    }
    key := SanitizeModuleBranchRef(key);
    if key == "" {
      key := "all";
    }
  }

  function ModuleKey(m: string): string {
    var r := Normal(if m == "" then "all" else m);
    if r == "" then "all" else r
  }

  // ---- What the normal form promises ---------------------------------------------------------

  predicate IsKey(s: string) {
    && NoAdjacentSeps(s)
    && (forall c :: c in s ==> IsKept(c) || c == '-')
    && (s != "" ==> !IsSep(s[0]) && !IsSep(s[|s| - 1]))
  }

  lemma {:induction false} TrimLeftKeeps(s: string)
    requires NoAdjacentSeps(s)
    ensures NoAdjacentSeps(TrimLeft(s)) && forall c :: c in TrimLeft(s) ==> c in s
    ensures TrimLeft(s) != "" ==> !IsSep(TrimLeft(s)[0])
  {
    if s != "" && IsSep(s[0]) {
      assert forall i :: 0 < i < |s[1..]| ==> s[1..][i] == s[i + 1] && s[1..][i - 1] == s[i];
      TrimLeftKeeps(s[1..]);
    }
  }

  lemma {:induction false} TrimRightKeeps(s: string)
    requires NoAdjacentSeps(s) && (s != "" ==> !IsSep(s[0]))
    ensures NoAdjacentSeps(TrimRight(s)) && forall c :: c in TrimRight(s) ==> c in s
    ensures TrimRight(s) != "" ==> !IsSep(TrimRight(s)[0]) && !IsSep(TrimRight(s)[|TrimRight(s)| - 1])
  {
    if s != "" && IsSep(s[|s| - 1]) {
      TrimRightKeeps(s[..|s| - 1]);
    }
  }

  /** The sanitized name is a key: no two adjacent separators, none at the ends. */
  lemma NormalIsKey(s: string)
    ensures IsKey(Normal(s))
  {
    var m := Mapped(s);
    FoldIsCollapse(m);
    FoldSettles(m);
    TrimLeftKeeps(Collapse(m));
    TrimRightKeeps(TrimLeft(Collapse(m)));
    forall c | c in Normal(s) ensures IsKept(c) || c == '-' {
      assert c in m;
    }
  }

  /** Keys are exactly the fixed points, so sanitizing twice is sanitizing once. */
  lemma KeysAreFixedPoints(s: string)
    ensures IsKey(s) <==> Normal(s) == s
    ensures Normal(Normal(s)) == Normal(s)
  {
    KeyIsFixed(Normal(s)) by { NormalIsKey(s); }
    if IsKey(s) { KeyIsFixed(s); } else { NormalIsKey(s); }
  }

  lemma KeyIsFixed(s: string)
    requires IsKey(s)
    ensures Normal(s) == s
  {
    assert Mapped(s) == s by {
      forall i | 0 <= i < |s| ensures Mapped(s)[i] == s[i] { assert s[i] in s; }
    }
    FoldOfSettled(s);
    FoldIsCollapse(s);
  }

  /** Module keys are never empty and stable under a second application. */
  lemma ModuleKeyIsStable(m: string)
    ensures ModuleKey(m) != "" && IsKey(ModuleKey(m))
    ensures ModuleKey(ModuleKey(m)) == ModuleKey(m)
  {
    NormalIsKey(if m == "" then "all" else m);
    KeyIsFixed(ModuleKey(m));
  }

  // ---- The characters, written out -----------------------------------------------------------

  predicate IsWordChar(c: char) {
    ('a' <= c && c <= 'z') || ('A' <= c && c <= 'Z') || ('0' <= c && c <= '9') || c == '_'
  }

  predicate IsWord(s: string) { forall c :: c in s ==> IsWordChar(c) }

  predicate IsRun(s: string) { forall c :: c in s ==> c == '.' || c == '-' }

  /** Letters, digits and underscores stay as they are. */
  lemma {:induction false} WordsStay(s: string)
    requires IsWord(s)
    ensures Normal(s) == s
  {
    assert forall i :: 0 <= i < |s| ==> s[i] in s;
    KeyIsFixed(s);
  }

  /** Any character other than these and the dot counts as a dash. */
  lemma {:induction false} OthersAreDashes(a: string, c: char, b: string)
    requires !IsWordChar(c) && c != '.'
    ensures Normal(a + [c] + b) == Normal(a + "-" + b)
  {
    assert Mapped(a + [c] + b) == Mapped(a + "-" + b);
  }

  /** Between two words a run of dots and dashes becomes one dash if it holds a dash, and one dot otherwise;
      around them it is dropped. */
  lemma {:induction false} RunsBecomeOne(before: string, a: string, run: string, b: string, after: string)
    requires a != "" && b != "" && run != ""
    requires IsWord(a) && IsWord(b) && IsRun(before) && IsRun(run) && IsRun(after)
    ensures Normal(before + (a + (run + (b + after)))) == a + ((if '-' in run then "-" else ".") + b)
  {
    hide Collapse, TrimLeft, TrimRight;
    var s := before + (a + (run + (b + after)));
    forall i | 0 <= i < |s| ensures IsKept(s[i]) || s[i] == '-' { assert s[i] in s; }
    assert Mapped(s) == s;
    var mid := if '-' in run then "-" else ".";
    assert a[0] in a && b[0] in b && a[|a| - 1] in a && b[|b| - 1] in b;
    WordAhead(b, after);
    RunAhead(run, b + Collapse(after), b + after);
    WordAhead(a, run + (b + after));
    TailCollapses(before);
    TailCollapses(after);
    if before == "" {
      assert s == a + (run + (b + after));
      Trims("", a + (mid + b), Collapse(after));
    } else {
      RunAhead(before, a + (mid + (b + Collapse(after))), a + (run + (b + after)));
      Trims(if '-' in before then "-" else ".", a + (mid + b), Collapse(after));
    }
    assert a + (mid + (b + Collapse(after))) == (a + (mid + b)) + Collapse(after);
    assert "" + ((a + (mid + b)) + Collapse(after)) == (a + (mid + b)) + Collapse(after);
  }

  lemma {:induction false} WordAhead(a: string, rest: string)
    requires forall c :: c in a ==> IsWordChar(c)
    ensures Collapse(a + rest) == a + Collapse(rest)
  {
    if a == "" {
      assert a + rest == rest;
    } else {
      assert a[0] in a && (a + rest)[1..] == a[1..] + rest;
      WordAhead(a[1..], rest);
    }
  }

  lemma {:induction false} RunAhead(run: string, r: string, rest: string)
    requires run != "" && (forall c :: c in run ==> IsSep(c)) && Collapse(rest) == r
    requires rest != "" ==> !IsSep(rest[0])
    ensures Collapse(run + rest) == (if '-' in run then "-" else ".") + r
  {
    RunIsLong(run, rest);
    assert (run + rest)[..|run|] == run && (run + rest)[|run|..] == rest && run[0] in run;
  }

  lemma {:induction false} RunIsLong(run: string, rest: string)
    requires (forall c :: c in run ==> IsSep(c)) && (rest != "" ==> !IsSep(rest[0]))
    ensures RunLength(run + rest) == |run|
  {
    if run == "" {
      assert run + rest == rest;
    } else {
      assert run[0] in run && (run + rest)[1..] == run[1..] + rest;
      RunIsLong(run[1..], rest);
    }
  }

  lemma {:induction false} TailCollapses(tail: string)
    requires forall c :: c in tail ==> IsSep(c)
    ensures Collapse(tail) == if tail == "" then "" else if '-' in tail then "-" else "."
  {
    if tail != "" {
      assert Collapse("") == "";
      RunAhead(tail, "", "");
      assert tail + "" == tail;
    }
  }

  lemma {:induction false} Trims(lead: string, w: string, tail: string)
    requires w != "" && !IsSep(w[0]) && !IsSep(w[|w| - 1])
    requires lead == "" || lead == "-" || lead == "."
    requires tail == "" || tail == "-" || tail == "."
    ensures TrimRight(TrimLeft(lead + (w + tail))) == w
  {
    var s := w + tail;
    assert lead != "" ==> (lead + s)[1..] == s;
    assert lead == "" ==> lead + s == s;
    assert s[0] == w[0] && TrimLeft(s) == s;
    if tail != "" { assert s[..|s| - 1] == w; } else { assert s == w; }
  }

  /** Without anything but dots, dashes and other characters the key of a module is "all". */
  lemma {:induction false} NothingKeptIsAll(m: string)
    requires forall c :: c in m ==> !IsWordChar(c)
    ensures ModuleKey(m) == "all"
  {
    hide Collapse, TrimLeft, TrimRight;
    if m == "" {
      WordsStay("all");
    } else {
      var t := Mapped(m);
      forall c | c in t ensures IsSep(c) {
        var i :| 0 <= i < |t| && t[i] == c;
        assert m[i] in m;
      }
      TailCollapses(t);
      OneSepIsTrimmed();
    }
  }

  lemma {:induction false} OneSepIsTrimmed()
    ensures TrimRight(TrimLeft("-")) == "" && TrimRight(TrimLeft(".")) == ""
  {
    assert "-"[1..] == "" && "."[1..] == "";
  }
}
