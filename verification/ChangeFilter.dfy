/** Grouping changed files by module (internal/queue/change_filter.go). */
module ChangeFilter {

  datatype Module = Module(path: string, framework: string)

  datatype Group = Group(m: Module, files: seq<string>)

  predicate Under(file: string, path: string) {
    |path| < |file| && file[..|path|] == path && file[|path|] == '/'
  }

  /** The file lies under a module that is not the root. */
  predicate InSub(file: string, modules: seq<Module>) {
    exists k :: 0 <= k < |modules| && modules[k].path != "" && Under(file, modules[k].path)
  }

  predicate Belongs(file: string, m: Module, modules: seq<Module>) {
    if m.path == "" then !InSub(file, modules) else Under(file, m.path)
  }

  function FilesFor(files: seq<string>, m: Module, modules: seq<Module>): seq<string> {
    if files == [] then []
    else
      FilesFor(files[..|files| - 1], m, modules) +
      if Belongs(files[|files| - 1], m, modules) then [files[|files| - 1]] else []
  }

  /** The groups of the first `n` modules. */
  function Groups(files: seq<string>, modules: seq<Module>, n: nat): seq<Group>
    requires n <= |modules|
  {
    if n == 0 then []
    else
      var mine := FilesFor(files, modules[n - 1], modules);
      Groups(files, modules, n - 1) + if mine == [] then [] else [Group(modules[n - 1], mine)]
  }

  lemma {:induction false} FilesForAppend(front: seq<string>, file: string, m: Module, modules: seq<Module>)
    ensures FilesFor(front + [file], m, modules) ==
      if Belongs(file, m, modules) then FilesFor(front, m, modules) + [file] else FilesFor(front, m, modules)
  {
    assert (front + [file])[..|front|] == front;
  }

  lemma {:induction false} BelongsTo(file: string, m: Module, modules: seq<Module>)
    ensures Belongs(file, m, modules) <==> if m.path == "" then !InSub(file, modules) else Under(file, m.path)
  {}

  // ---- The loops -----------------------------------------------------------------------------

  method BelongsToSub(file: string, modules: seq<Module>) returns (r: bool)
    ensures r == InSub(file, modules)
  {
    for k := 0 to |modules|
      invariant forall j :: 0 <= j < k ==> !(modules[j].path != "" && Under(file, modules[j].path))
    {
      if modules[k].path != "" && Under(file, modules[k].path) { return true; }
    }
    return false;
  }

  ghost predicate Collected(c: map<nat, seq<string>>, files: seq<string>, modules: seq<Module>, i: nat)
    requires i < |modules|
  {
    if i in c then c[i] == FilesFor(files, modules[i], modules) != [] else FilesFor(files, modules[i], modules) == []
  }

  /** The inner loop: one file is added to the list of every module it belongs to. */
  method AddFile(collected: map<nat, seq<string>>, file: string, modules: seq<Module>, ghost front: seq<string>)
    returns (r: map<nat, seq<string>>)
    requires forall i :: 0 <= i < |modules| ==> Collected(collected, front, modules, i)
    ensures forall i :: 0 <= i < |modules| ==> Collected(r, front + [file], modules, i)
  {
    hide FilesFor, Belongs;
    r := collected;
    for i := 0 to |modules|
      invariant forall j :: 0 <= j < i ==> Collected(r, front + [file], modules, j)
      invariant forall j :: i <= j < |modules| ==> (j in r <==> j in collected) && (j in r ==> r[j] == collected[j])
    {
      var matches := false;
      if modules[i].path == "" {
        var sub := BelongsToSub(file, modules);
        matches := !sub;
      } else {
        matches := Under(file, modules[i].path);
      }
      BelongsTo(file, modules[i], modules);
      FilesForAppend(front, file, modules[i], modules);
      assert Collected(collected, front, modules, i);
      ghost var was := r;
      if matches {
        var before := if i in r then r[i] else [];
        r := r[i := before + [file]];
      }
      forall j | 0 <= j < i ensures Collected(r, front + [file], modules, j) {
        assert Collected(was, front + [file], modules, j);
      }
    }
  }

  /** The last loop: modules in their order, those without a list left out. */
  method Gather(collected: map<nat, seq<string>>, modules: seq<Module>, ghost files: seq<string>)
    returns (groups: seq<Group>)
    requires forall i :: 0 <= i < |modules| ==> Collected(collected, files, modules, i)
    ensures groups == Groups(files, modules, |modules|)
  {
    hide FilesFor;
    groups := [];
    for i := 0 to |modules|
      invariant groups == Groups(files, modules, i)
    {
      assert Collected(collected, files, modules, i);
      if i in collected { groups := groups + [Group(modules[i], collected[i])]; }
    }
  }

  /** A map from module positions to lists, filled file by file; positions without a file stay out. */
  method MatchFilesToModules(files: seq<string>, modules: seq<Module>) returns (groups: seq<Group>)
    ensures groups == Groups(files, modules, |modules|)
  {
    hide Belongs, Groups;
    var collected: map<nat, seq<string>> := map[];
    for f := 0 to |files|
      invariant forall i :: 0 <= i < |modules| ==> Collected(collected, files[..f], modules, i)
    {
      hide Collected;
      assert files[..f + 1] == files[..f] + [files[f]];
      collected := AddFile(collected, files[f], modules, files[..f]);
    }
    assert files[..|files|] == files;
    groups := Gather(collected, modules, files);
  }

  // ---- What the groups are -------------------------------------------------------------------

  /** A group holds exactly the files that belong to its module. */
  lemma {:induction false} FilesForHolds(files: seq<string>, m: Module, modules: seq<Module>, file: string)
    ensures file in FilesFor(files, m, modules) <==> file in files && Belongs(file, m, modules)
  {
    hide Belongs;
    if files != [] {
      FilesForHolds(files[..|files| - 1], m, modules, file);
      assert files == files[..|files| - 1] + [files[|files| - 1]];
    }
  }

  ghost predicate Increasing(idx: seq<nat>) { forall i, j :: 0 <= i < j < |idx| ==> idx[i] < idx[j] }

  /** Files keep the order in which they were given, and none is left out. */
  lemma {:induction false} FilesInOrder(files: seq<string>, m: Module, modules: seq<Module>) returns (idx: seq<nat>)
    ensures |idx| == |FilesFor(files, m, modules)| && Increasing(idx)
    ensures forall k :: 0 <= k < |idx| ==> idx[k] < |files| && files[idx[k]] == FilesFor(files, m, modules)[k]
    ensures forall i :: 0 <= i < |files| ==> (i in idx <==> Belongs(files[i], m, modules))
  {
    hide Belongs;
    if files == [] {
      idx := [];
    } else {
      var n := |files| - 1;
      idx := FilesInOrder(files[..n], m, modules);
      assert forall i :: 0 <= i < n ==> files[..n][i] == files[i];
      if Belongs(files[n], m, modules) { idx := idx + [n]; }
    }
  }

  ghost predicate IsGroupOf(g: Group, files: seq<string>, modules: seq<Module>, i: nat)
    requires i < |modules|
  {
    g == Group(modules[i], FilesFor(files, modules[i], modules))
  }

  ghost predicate InOrder(groups: seq<Group>, idx: seq<nat>, files: seq<string>, modules: seq<Module>, n: nat)
    requires n <= |modules|
  {
    && |idx| == |groups| && Increasing(idx)
    && (forall k :: 0 <= k < |idx| ==> idx[k] < n && IsGroupOf(groups[k], files, modules, idx[k]))
    && (forall i :: 0 <= i < n ==> (i in idx <==> FilesFor(files, modules[i], modules) != []))
  }

  /** Groups keep the order of the modules; exactly the modules with files have one. */
  lemma {:induction false} GroupsInOrder(files: seq<string>, modules: seq<Module>, n: nat) returns (idx: seq<nat>)
    requires n <= |modules|
    ensures InOrder(Groups(files, modules, n), idx, files, modules, n)
  {
    hide FilesFor;
    idx := [];
    if n > 0 {
      hide InOrder;
      idx := GroupsInOrder(files, modules, n - 1);
      if FilesFor(files, modules[n - 1], modules) == [] {
        InOrderSkip(Groups(files, modules, n - 1), idx, files, modules, n - 1);
      } else {
        InOrderAdd(Groups(files, modules, n - 1), idx, files, modules, n - 1);
        idx := idx + [n - 1];
      }
    }
  }

  lemma {:induction false} InOrderSkip(groups: seq<Group>, idx: seq<nat>, files: seq<string>, modules: seq<Module>,
      n: nat)
    requires n < |modules| && InOrder(groups, idx, files, modules, n) && FilesFor(files, modules[n], modules) == []
    ensures InOrder(groups + [], idx, files, modules, n + 1)
  {
    hide FilesFor, IsGroupOf;
    assert groups + [] == groups;
  }

  lemma {:induction false} InOrderAdd(groups: seq<Group>, idx: seq<nat>, files: seq<string>, modules: seq<Module>,
      n: nat)
    requires n < |modules| && InOrder(groups, idx, files, modules, n) && FilesFor(files, modules[n], modules) != []
    ensures InOrder(groups + [Group(modules[n], FilesFor(files, modules[n], modules))], idx + [n], files, modules,
      n + 1)
  {
    var g := Group(modules[n], FilesFor(files, modules[n], modules));
    assert IsGroupOf(g, files, modules, n);
    hide FilesFor, IsGroupOf;
    assert forall i :: i in idx + [n] <==> i in idx || i == n;
  }

  ghost predicate InSomeGroup(file: string, groups: seq<Group>) {
    exists k :: 0 <= k < |groups| && file in groups[k].files
  }

  /** A file lands in some group exactly when it lies under a module or a root module is listed. */
  lemma {:induction false} LandsIff(files: seq<string>, modules: seq<Module>, file: string)
    requires file in files
    ensures InSomeGroup(file, Groups(files, modules, |modules|)) <==>
      InSub(file, modules) || exists i :: 0 <= i < |modules| && modules[i].path == ""
  {
    var groups := Groups(files, modules, |modules|);
    var idx := GroupsInOrder(files, modules, |modules|);
    if InSomeGroup(file, groups) {
      var k :| 0 <= k < |groups| && file in groups[k].files;
      FilesForHolds(files, modules[idx[k]], modules, file);
    }
    if InSub(file, modules) {
      var k :| 0 <= k < |modules| && modules[k].path != "" && Under(file, modules[k].path);
      Lands(files, modules, file, k, groups, idx);
    } else if exists i :: 0 <= i < |modules| && modules[i].path == "" {
      var i :| 0 <= i < |modules| && modules[i].path == "";
      Lands(files, modules, file, i, groups, idx);
    }
  }

  lemma {:induction false} Lands(files: seq<string>, modules: seq<Module>, file: string, i: nat, groups: seq<Group>,
      idx: seq<nat>)
    requires file in files && i < |modules| && Belongs(file, modules[i], modules)
    requires InOrder(groups, idx, files, modules, |modules|)
    ensures InSomeGroup(file, groups)
  {
    hide Belongs;
    FilesForHolds(files, modules[i], modules, file);
    assert i in idx;
    var k :| 0 <= k < |idx| && idx[k] == i;
    assert file in groups[k].files;
  }

  /** The root group holds exactly the files under no other module, so it shares none with any other group. */
  lemma {:induction false} RootIsTheRest(files: seq<string>, modules: seq<Module>, k: nat, l: nat)
    requires k < |Groups(files, modules, |modules|)| && l < |Groups(files, modules, |modules|)|
    requires Groups(files, modules, |modules|)[k].m.path == ""
    ensures var groups := Groups(files, modules, |modules|);
      && groups[k].files != []
      && (forall f :: f in groups[k].files <==> f in files && !InSub(f, modules))
      && (groups[l].m.path != "" ==> forall f :: f in groups[l].files ==> f !in groups[k].files)
  {
    hide Groups;
    var groups := Groups(files, modules, |modules|);
    var idx := GroupsInOrder(files, modules, |modules|);
    assert idx[k] in idx && idx[l] in idx;
    forall f ensures f in groups[k].files <==> f in files && !InSub(f, modules) {
      FilesForHolds(files, modules[idx[k]], modules, f);
    }
    forall f | groups[l].m.path != "" && f in groups[l].files ensures f !in groups[k].files {
      FilesForHolds(files, modules[idx[l]], modules, f);
    }
  }

  /** Which files a module's group holds, written out: those whose path goes on with a slash after the
      module's path; and for the root module those for which that holds of no other module. */
  lemma {:induction false} GroupHoldsExactly(files: seq<string>, m: Module, modules: seq<Module>, file: string)
    ensures file in FilesFor(files, m, modules) <==>
      file in files &&
      if m.path != "" then m.path + "/" <= file
      else forall k :: 0 <= k < |modules| && modules[k].path != "" ==> !(modules[k].path + "/" <= file)
  {
    FilesForHolds(files, m, modules, file);
    forall path: string ensures Under(file, path) <==> path + "/" <= file { UnderIff(file, path); }
  }

  lemma {:induction false} UnderIff(file: string, path: string)
    ensures Under(file, path) <==> path + "/" <= file
  {
    if |path| < |file| {
      assert file[..|path| + 1] == file[..|path|] + [file[|path|]];
      assert (path + "/")[|path|] == '/';
    }
  }

  /** A module's own name as a prefix is not enough. */
  lemma {:induction false} SiblingIsNotUnder(modules: seq<Module>)
    ensures "src2/a.go" !in FilesFor(["src2/a.go", "src/a.go"], Module("src", ""), modules)
    ensures "src/a.go" in FilesFor(["src2/a.go", "src/a.go"], Module("src", ""), modules)
  {
    GroupHoldsExactly(["src2/a.go", "src/a.go"], Module("src", ""), modules, "src2/a.go");
    GroupHoldsExactly(["src2/a.go", "src/a.go"], Module("src", ""), modules, "src/a.go");
    assert ("src" + "/")[3] == '/' && "src/a.go"[..4] == "src" + "/";
  }
}
