/** Issues for failed end-to-end cases: one per case path, however often a task runs
    (internal/e2e/service.go, internal/store/sqlite_e2e.go). */
module IssueOnce {
  import opened Wrappers

  datatype CaseStatus = Passed | Broken | Erroneous | Skipped
  datatype Category = NoCategory | Environment | Bug | ScriptOutdated
  datatype Case = Case(path: string, status: CaseStatus, category: Category)

  /** A reported case, and what creating its issue would answer: a number, or a failure. */
  datatype Try = Try(c: Case, answer: Option<int>)

  type Created = map<string, int>

  datatype Row = Row(id: nat, created: Created)

  datatype Issue = Issue(task: nat, path: string, number: int)

  /** `rows` is the result table by task; `log` lists the issues that were created, oldest first. */
  datatype World = World(rows: map<nat, Row>, nextId: nat, log: seq<Issue>)

  const EMPTY := World(map[], 0, [])

  predicate Wants(c: Case, saved: Created) {
    (c.status.Broken? || c.status.Erroneous?) && (c.category.Bug? || c.category.ScriptOutdated?) && c.path !in saved
  }

  predicate Creates(t: Try, saved: Created) { Wants(t.c, saved) && t.answer.Some? }

  function IssuesOf(task: nat, tries: seq<Try>, saved: Created): seq<Issue> {
    if tries == [] then []
    else
      var t := tries[|tries| - 1];
      IssuesOf(task, tries[..|tries| - 1], saved) +
      if Creates(t, saved) then [Issue(task, t.c.path, t.answer.value)] else []
  }

  lemma {:induction false} IssuesOfAppend(task: nat, front: seq<Try>, t: Try, saved: Created)
    ensures IssuesOf(task, front + [t], saved) ==
      if Creates(t, saved) then IssuesOf(task, front, saved) + [Issue(task, t.c.path, t.answer.value)]
      else IssuesOf(task, front, saved)
  {
    assert (front + [t])[..|front|] == front;
  }

  lemma {:induction false} EnterAppend(m: Created, front: seq<Issue>, x: Issue)
    ensures Enter(m, front + [x]) == Enter(m, front)[x.path := x.number]
  {
    assert (front + [x])[..|front|] == front;
  }

  function Enter(m: Created, issues: seq<Issue>): Created {
    if issues == [] then m
    else Enter(m, issues[..|issues| - 1])[issues[|issues| - 1].path := issues[|issues| - 1].number]
  }

  /** SaveE2EResult: one row per task, and the id of an existing row stays. */
  function Save(w: World, task: nat, row: Row): World {
    if task in w.rows then w.(rows := w.rows[task := w.rows[task].(created := row.created)])
    else w.(rows := w.rows[task := row], nextId := w.nextId + 1)
  }

  function UpdateCreated(w: World, id: nat, created: Created): World {
    w.(rows := map t | t in w.rows :: if w.rows[t].id == id then Row(id, created) else w.rows[t])
  }

  function SavedOf(w: World, task: nat): Created { if task in w.rows then w.rows[task].created else map[] }

  function IdOf(w: World, task: nat): nat { if task in w.rows then w.rows[task].id else w.nextId }

  /** One run of a task; `cut` says that the process dies before the second phase. */
  function Execute(w: World, task: nat, tries: seq<Try>, cut: bool): World {
    var saved := SavedOf(w, task);
    var id := IdOf(w, task);
    var w1 := Save(w, task, Row(id, saved));
    var made := IssuesOf(task, tries, saved);
    var w2 := w1.(log := w1.log + made);
    var created := Enter(saved, made);
    if cut || |created| == 0 then w2 else UpdateCreated(w2, id, created)
  }

  // ---- The invariant -------------------------------------------------------------------------

  /** The stored maps are exactly the issues created so far. */
  ghost predicate Recorded(w: World) {
    forall t, p, n :: Issue(t, p, n) in w.log <==> t in w.rows && p in w.rows[t].created && w.rows[t].created[p] == n
  }

  /** At most one issue per task and case path. */
  ghost predicate OncePerPath(log: seq<Issue>) {
    forall i, j :: 0 <= i < j < |log| ==> log[i].task != log[j].task || log[i].path != log[j].path
  }

  ghost predicate IdsOk(w: World) {
    (forall t :: t in w.rows ==> w.rows[t].id < w.nextId) &&
    forall t, u :: t in w.rows && u in w.rows && w.rows[t].id == w.rows[u].id ==> t == u
  }

  ghost predicate Ok(w: World) { Recorded(w) && OncePerPath(w.log) && IdsOk(w) }

  /** No case path gets two issues within one run. */
  ghost predicate NoPathTwice(tries: seq<Try>, saved: Created) {
    forall i, j :: 0 <= i < j < |tries| && Creates(tries[i], saved) && Creates(tries[j], saved) ==>
      tries[i].c.path != tries[j].c.path
  }

  // ---- One run -------------------------------------------------------------------------------

  lemma {:induction false} MadeFrom(task: nat, tries: seq<Try>, saved: Created, k: nat)
    requires k < |IssuesOf(task, tries, saved)|
    ensures var i := IssuesOf(task, tries, saved)[k]; i.task == task && i.path !in saved
  {
    var front := tries[..|tries| - 1];
    if k < |IssuesOf(task, front, saved)| { MadeFrom(task, front, saved, k); }
  }

  ghost predicate NoIssueFor(issues: seq<Issue>, path: string) {
    forall k :: 0 <= k < |issues| ==> issues[k].path != path
  }

  ghost predicate NoCaseFor(tries: seq<Try>, saved: Created, path: string) {
    forall j :: 0 <= j < |tries| && Creates(tries[j], saved) ==> tries[j].c.path != path
  }

  lemma {:induction false} IssueForCase(task: nat, tries: seq<Try>, saved: Created, path: string)
    ensures NoIssueFor(IssuesOf(task, tries, saved), path) <==> NoCaseFor(tries, saved, path)
    ensures forall k :: 0 <= k < |IssuesOf(task, tries, saved)| ==> IssuesOf(task, tries, saved)[k].task == task
  {
    hide Wants;
    if tries != [] {
      var front, t := tries[..|tries| - 1], tries[|tries| - 1];
      IssueForCase(task, front, saved, path);
      assert tries == front + [t];
      CaseAppend(front, t, saved, path);
      IssuesOfAppend(task, front, t, saved);
      if Creates(t, saved) { IssueAppend(IssuesOf(task, front, saved), Issue(task, t.c.path, t.answer.value), path); }
    }
  }

  lemma {:induction false} CaseAppend(front: seq<Try>, t: Try, saved: Created, path: string)
    ensures NoCaseFor(front + [t], saved, path) <==>
      NoCaseFor(front, saved, path) && (Creates(t, saved) ==> t.c.path != path)
  {
    hide Creates;
    var all := front + [t];
    assert all[|front|] == t;
    assert forall j :: 0 <= j < |front| ==> all[j] == front[j];
  }

  lemma {:induction false} IssueAppend(front: seq<Issue>, x: Issue, path: string)
    ensures NoIssueFor(front + [x], path) <==> NoIssueFor(front, path) && x.path != path
  {
    var all := front + [x];
    assert all[|front|] == x;
    assert forall j :: 0 <= j < |front| ==> all[j] == front[j];
  }

  lemma {:induction false} OnceAppend(front: seq<Issue>, x: Issue)
    requires forall k :: 0 <= k < |front| ==> front[k].task == x.task
    ensures OncePerPath(front + [x]) <==> OncePerPath(front) && NoIssueFor(front, x.path)
  {
    var all := front + [x];
    assert all[|front|] == x;
    assert forall j :: 0 <= j < |front| ==> all[j] == front[j];
    if OncePerPath(all) {
      forall i, j | 0 <= i < j < |front| ensures front[i].task != front[j].task || front[i].path != front[j].path {
        assert all[i] == front[i] && all[j] == front[j];
      }
    }
  }

  lemma {:induction false} TwiceAppend(front: seq<Try>, t: Try, saved: Created)
    ensures NoPathTwice(front + [t], saved) <==>
      NoPathTwice(front, saved) && (Creates(t, saved) ==> NoCaseFor(front, saved, t.c.path))
  {
    hide Creates;
    var all := front + [t];
    assert all[|front|] == t;
    assert forall j :: 0 <= j < |front| ==> all[j] == front[j];
    if NoPathTwice(all, saved) {
      forall i, j | 0 <= i < j < |front| && Creates(front[i], saved) && Creates(front[j], saved)
        ensures front[i].c.path != front[j].c.path
      {
        assert all[i] == front[i] && all[j] == front[j];
      }
    }
  }

  /** A run makes no path's issue twice exactly when no two of its creating cases share their path. */
  lemma {:induction false} MadeOnce(task: nat, tries: seq<Try>, saved: Created)
    ensures OncePerPath(IssuesOf(task, tries, saved)) <==> NoPathTwice(tries, saved)
  {
    hide Wants, OncePerPath, NoPathTwice, NoCaseFor, NoIssueFor;
    if tries == [] {
      NothingTwice(saved);
    } else {
      var front, t := tries[..|tries| - 1], tries[|tries| - 1];
      MadeOnce(task, front, saved);
      assert tries == front + [t];
      TwiceAppend(front, t, saved);
      IssuesOfAppend(task, front, t, saved);
      IssueForCase(task, front, saved, t.c.path);
      if Creates(t, saved) { OnceAppend(IssuesOf(task, front, saved), Issue(task, t.c.path, t.answer.value)); }
    }
  }

  lemma {:induction false} NothingTwice(saved: Created)
    ensures OncePerPath([]) && NoPathTwice([], saved)
  {}

  lemma {:induction false} Entered(m: Created, issues: seq<Issue>, task: nat, p: string, n: int)
    requires OncePerPath(issues) && forall k :: 0 <= k < |issues| ==> issues[k].task == task && issues[k].path !in m
    ensures (p in Enter(m, issues) && Enter(m, issues)[p] == n) <==>
      (p in m && m[p] == n) || Issue(task, p, n) in issues
  {
    if issues != [] {
      var front, x := issues[..|issues| - 1], issues[|issues| - 1];
      assert issues == front + [x];
      OnceAppend(front, x);
      Entered(m, front, task, p, n);
      NotEntered(m, front, x.path);
      assert Issue(task, p, n) in issues <==> Issue(task, p, n) in front || Issue(task, p, n) == x;
    }
  }

  /** A path without an issue is not entered. */
  lemma {:induction false} NotEntered(m: Created, issues: seq<Issue>, path: string)
    requires path !in m && NoIssueFor(issues, path)
    ensures path !in Enter(m, issues)
  {
    if issues != [] {
      var front := issues[..|issues| - 1];
      assert issues == front + [issues[|issues| - 1]];
      IssueAppend(front, issues[|issues| - 1], path);
      NotEntered(m, front, path);
    }
  }

  ghost predicate FreshIn(w: World, task: nat, made: seq<Issue>) {
    forall k :: 0 <= k < |made| ==> made[k].task == task && made[k].path !in SavedOf(w, task)
  }

  lemma {:induction false} MadeIsFresh(w: World, task: nat, tries: seq<Try>)
    ensures FreshIn(w, task, IssuesOf(task, tries, SavedOf(w, task)))
  {
    forall k | 0 <= k < |IssuesOf(task, tries, SavedOf(w, task))|
      ensures var i := IssuesOf(task, tries, SavedOf(w, task))[k]; i.task == task && i.path !in SavedOf(w, task)
    {
      MadeFrom(task, tries, SavedOf(w, task), k);
    }
  }

  /** New issues and old ones never share a path. */
  lemma {:induction false} LogStaysOnce(w: World, task: nat, made: seq<Issue>)
    requires Ok(w) && FreshIn(w, task, made)
    ensures OncePerPath(w.log + made) <==> OncePerPath(made)
  {
    var all := w.log + made;
    if OncePerPath(all) {
      forall i, j | 0 <= i < j < |made| ensures made[i].task != made[j].task || made[i].path != made[j].path {
        assert all[|w.log| + i] == made[i] && all[|w.log| + j] == made[j];
      }
    }
    if OncePerPath(made) {
      forall i, j | 0 <= i < j < |all| ensures all[i].task != all[j].task || all[i].path != all[j].path {
        if i < |w.log| && |w.log| <= j {
          var o := w.log[i];
          assert Issue(o.task, o.path, o.number) in w.log;
          assert made[j - |w.log|].path !in SavedOf(w, task);
        }
      }
    }
  }

  /** The rows after a run that is not cut. */
  lemma {:induction false} RowsAfter(w: World, task: nat, tries: seq<Try>)
    requires IdsOk(w)
    ensures var w' := Execute(w, task, tries, false);
      var made := IssuesOf(task, tries, SavedOf(w, task));
      && w'.rows == w.rows[task := Row(IdOf(w, task), Enter(SavedOf(w, task), made))]
      && w'.log == w.log + made
      && IdsOk(w')
  {
    hide IssuesOf, Enter, UpdateCreated, Save, IdsOk, SavedOf, IdOf;
    var saved := SavedOf(w, task);
    var made := IssuesOf(task, tries, saved);
    var created := Enter(saved, made);
    var w1 := Save(w, task, Row(IdOf(w, task), saved));
    SavedRow(w, task, made);
    assert w1.rows[task] == Row(IdOf(w, task), saved);
    if |created| == 0 {
      assert created == map[];
      EmptyStart(saved, made);
    } else {
      UpdatedRow(w1.(log := w1.log + made), task, created);
    }
  }

  lemma {:induction false} SavedRow(w: World, task: nat, made: seq<Issue>)
    requires IdsOk(w)
    ensures var w1 := Save(w, task, Row(IdOf(w, task), SavedOf(w, task)));
      && w1.rows == w.rows[task := Row(IdOf(w, task), SavedOf(w, task))] && w1.log == w.log
      && IdsOk(w1.(log := w.log + made))
  {}

  lemma {:induction false} UpdatedRow(w: World, task: nat, created: Created)
    requires IdsOk(w) && task in w.rows
    ensures UpdateCreated(w, w.rows[task].id, created) == w.(rows := w.rows[task := Row(w.rows[task].id, created)])
    ensures IdsOk(UpdateCreated(w, w.rows[task].id, created))
  {
    var w' := UpdateCreated(w, w.rows[task].id, created);
    assert w'.rows == w.rows[task := Row(w.rows[task].id, created)];
  }

  lemma {:induction false} EmptyStart(m: Created, issues: seq<Issue>)
    requires Enter(m, issues) == map[]
    ensures m == map[] && issues == []
  {
    LastIsEntered(m, issues);
  }

  lemma {:induction false} LastIsEntered(m: Created, issues: seq<Issue>)
    ensures issues != [] ==> issues[|issues| - 1].path in Enter(m, issues)
  {}

  /** One run: each path still has at most one issue exactly when no two cases that create an issue in
      this run share their path, and then the stored map is again exactly the issues created. */
  lemma {:induction false} RunKeeps(w: World, task: nat, tries: seq<Try>)
    requires Ok(w)
    ensures var w' := Execute(w, task, tries, false);
      && (OncePerPath(w'.log) <==> NoPathTwice(tries, SavedOf(w, task)))
      && (NoPathTwice(tries, SavedOf(w, task)) ==> Ok(w'))
  {
    hide Execute, IssuesOf, Enter, NoPathTwice;
    var saved := SavedOf(w, task);
    var made := IssuesOf(task, tries, saved);
    RowsAfter(w, task, tries);
    MadeIsFresh(w, task, tries);
    MadeOnce(task, tries, saved);
    LogStaysOnce(w, task, made);
    if NoPathTwice(tries, saved) { StaysRecorded(w, task, made, Execute(w, task, tries, false)); }
  }

  lemma {:induction false} StaysRecorded(w: World, task: nat, made: seq<Issue>, w': World)
    requires Recorded(w) && FreshIn(w, task, made) && OncePerPath(made)
    requires w'.rows == w.rows[task := Row(IdOf(w, task), Enter(SavedOf(w, task), made))] && w'.log == w.log + made
    ensures Recorded(w')
  {
    hide Enter, OncePerPath;
    forall t, p, n
      ensures Issue(t, p, n) in w'.log <==> t in w'.rows && p in w'.rows[t].created && w'.rows[t].created[p] == n
    {
      Entered(SavedOf(w, task), made, task, p, n);
      assert Issue(t, p, n) in w'.log <==> Issue(t, p, n) in w.log || Issue(t, p, n) in made;
    }
  }

  // ---- A run that is cut off -----------------------------------------------------------------

  predicate NoneCreates(tries: seq<Try>, saved: Created) {
    forall i :: 0 <= i < |tries| ==> !Creates(tries[i], saved)
  }

  lemma {:induction false} NothingMadeIff(task: nat, tries: seq<Try>, saved: Created)
    ensures IssuesOf(task, tries, saved) == [] <==> NoneCreates(tries, saved)
  {
    hide Creates;
    if tries != [] {
      var front, t := tries[..|tries| - 1], tries[|tries| - 1];
      NothingMadeIff(task, front, saved);
      assert tries == front + [t];
      IssuesOfAppend(task, front, t, saved);
    }
  }

  lemma {:induction false} CutRows(w: World, task: nat, tries: seq<Try>)
    requires IdsOk(w)
    ensures var w' := Execute(w, task, tries, true);
      && w'.rows == w.rows[task := Row(IdOf(w, task), SavedOf(w, task))]
      && w'.log == w.log + IssuesOf(task, tries, SavedOf(w, task))
      && IdsOk(w')
  {
    hide IssuesOf, Enter;
    SavedRow(w, task, IssuesOf(task, tries, SavedOf(w, task)));
  }

  /** A run that dies before the second phase leaves the stored map right exactly when none of its cases
      creates an issue. */
  lemma {:induction false} CutRunExact(w: World, task: nat, tries: seq<Try>)
    requires Ok(w)
    ensures var w' := Execute(w, task, tries, true);
      && (Recorded(w') <==> NoneCreates(tries, SavedOf(w, task)))
      && (OncePerPath(w'.log) <==> NoPathTwice(tries, SavedOf(w, task)))
      && (NoneCreates(tries, SavedOf(w, task)) ==> Ok(w'))
  {
    hide Execute, IssuesOf, Enter, NoPathTwice, NoneCreates, OncePerPath, IdsOk;
    var saved := SavedOf(w, task);
    var made, w' := IssuesOf(task, tries, saved), Execute(w, task, tries, true);
    CutRows(w, task, tries);
    MadeIsFresh(w, task, tries);
    NothingMadeIff(task, tries, saved);
    MadeOnce(task, tries, saved);
    LogStaysOnce(w, task, made);
    if made == [] {
      assert w'.log == w.log;
      SameRecorded(w, w', task);
    } else {
      ForgottenIssue(w, w', task, made);
    }
  }

  lemma {:induction false} SameRecorded(w: World, w': World, task: nat)
    requires Recorded(w) && w'.log == w.log && w'.rows == w.rows[task := Row(IdOf(w, task), SavedOf(w, task))]
    ensures Recorded(w')
  {
    forall t, p, n
      ensures Issue(t, p, n) in w'.log <==> t in w'.rows && p in w'.rows[t].created && w'.rows[t].created[p] == n
    {
      assert Issue(t, p, n) in w.log <==> t in w.rows && p in w.rows[t].created && w.rows[t].created[p] == n;
    }
  }

  lemma {:induction false} ForgottenIssue(w: World, w': World, task: nat, made: seq<Issue>)
    requires FreshIn(w, task, made) && made != []
    requires w'.log == w.log + made && w'.rows == w.rows[task := Row(IdOf(w, task), SavedOf(w, task))]
    ensures !Recorded(w')
  {
    var i := made[0];
    assert i.task == task && i.path !in SavedOf(w, task);
    assert w'.log[|w.log|] == i && Issue(i.task, i.path, i.number) in w'.log;
  }

  // ---- Any number of runs --------------------------------------------------------------------

  /** `cut` says that the process dies before the second phase. */
  datatype Run = Run(task: nat, tries: seq<Try>, cut: bool)

  function AfterRuns(runs: seq<Run>): World {
    if runs == [] then EMPTY
    else
      var r := runs[|runs| - 1];
      Execute(AfterRuns(runs[..|runs| - 1]), r.task, r.tries, r.cut)
  }

  /** No two cases that create an issue share their path; and a run that is cut creates none. */
  ghost predicate Allowed(w: World, r: Run) {
    var saved := SavedOf(w, r.task);
    NoPathTwice(r.tries, saved) && (r.cut ==> NoneCreates(r.tries, saved))
  }

  lemma {:induction false} RunExact(w: World, r: Run)
    requires Ok(w)
    ensures Ok(Execute(w, r.task, r.tries, r.cut)) <==> Allowed(w, r)
  {
    hide Execute, NoPathTwice, NoneCreates, Recorded, OncePerPath, IdsOk;
    if r.cut { CutRunExact(w, r.task, r.tries); } else { RunKeeps(w, r.task, r.tries); }
  }

  ghost predicate AlwaysOk(runs: seq<Run>) { forall k :: 0 <= k <= |runs| ==> Ok(AfterRuns(runs[..k])) }

  ghost predicate AllAllowed(runs: seq<Run>) { forall k :: 0 <= k < |runs| ==> Allowed(AfterRuns(runs[..k]), runs[k]) }

  lemma {:induction false} OneMoreRun(front: seq<Run>, r: Run)
    ensures AlwaysOk(front + [r]) <==> AlwaysOk(front) && Ok(AfterRuns(front + [r]))
    ensures AllAllowed(front + [r]) <==> AllAllowed(front) && Allowed(AfterRuns(front), r)
  {
    hide AfterRuns, Ok, Allowed;
    var runs := front + [r];
    assert runs[..|runs|] == runs && runs[..|front|] == front[..|front|] == front && runs[|front|] == r;
    assert forall k :: 0 <= k <= |front| ==> runs[..k] == front[..k];
    assert forall k :: 0 <= k < |front| ==> runs[k] == front[k];
    if AlwaysOk(runs) {
      forall k | 0 <= k <= |front| ensures Ok(AfterRuns(front[..k])) { assert runs[..k] == front[..k]; }
    }
    if AllAllowed(runs) {
      forall k | 0 <= k < |front| ensures Allowed(AfterRuns(front[..k]), front[k]) {
        assert runs[..k] == front[..k] && runs[k] == front[k];
      }
    }
  }

  /** In any number of runs of any tasks, whatever CreateIssue answers and wherever processes die: every
      case path of a task has at most one issue and the stored maps are exactly the issues created, all
      along, if and only if every run is allowed when it comes. */
  lemma {:induction false} AlwaysOkIff(runs: seq<Run>)
    ensures AlwaysOk(runs) <==> AllAllowed(runs)
  {
    hide Ok, Allowed, Execute;
    if runs == [] {
      NoRunYet(runs);
    } else {
      var front, r := runs[..|runs| - 1], runs[|runs| - 1];
      assert runs == front + [r];
      AlwaysOkIff(front);
      OneMoreRun(front, r);
      if AlwaysOk(front) {
        assert front[..|front|] == front && Ok(AfterRuns(front));
        RunExact(AfterRuns(front), r);
      }
    }
  }

  lemma {:induction false} NoRunYet(runs: seq<Run>)
    requires runs == []
    ensures AlwaysOk(runs) && AllAllowed(runs)
  {
    assert runs[..0] == runs;
  }

  ghost predicate DistinctPaths(tries: seq<Try>) {
    forall i, j :: 0 <= i < j < |tries| ==> tries[i].c.path != tries[j].c.path
  }

  /** However often tasks run and whatever CreateIssue answers: as long as the paths within each output
      are distinct and runs that are cut create nothing, every case path of a task has at most one issue,
      and the stored map is exactly the issues created so far. */
  lemma {:induction false} AtMostOneIssue(runs: seq<Run>)
    requires forall k :: 0 <= k < |runs| ==> DistinctPaths(runs[k].tries)
    requires forall k :: 0 <= k < |runs| && runs[k].cut ==>
      NoneCreates(runs[k].tries, SavedOf(AfterRuns(runs[..k]), runs[k].task))
    ensures OncePerPath(AfterRuns(runs).log) && Recorded(AfterRuns(runs))
  {
    hide Recorded, OncePerPath, AfterRuns, NoneCreates;
    forall k | 0 <= k < |runs| ensures Allowed(AfterRuns(runs[..k]), runs[k]) { assert DistinctPaths(runs[k].tries); }
    AlwaysOkIff(runs);
    assert runs[..|runs|] == runs;
  }

  /** A process that dies after creating an issue forgets it: the next run creates a second one. */
  lemma {:induction false} CutRunRepeats(w: World, task: nat, c: Case, n: int, m: int)
    requires Wants(c, SavedOf(w, task))
    ensures var w1 := Execute(w, task, [Try(c, Some(n))], true);
      var w2 := Execute(w1, task, [Try(c, Some(m))], false);
      w2.log == w.log + [Issue(task, c.path, n), Issue(task, c.path, m)]
  {
    hide Enter, IssuesOf;
    var saved := SavedOf(w, task);
    OneMade(task, Try(c, Some(n)), saved);
    OneMade(task, Try(c, Some(m)), saved);
    var w1 := Execute(w, task, [Try(c, Some(n))], true);
    assert SavedOf(w1, task) == saved;
    assert Execute(w1, task, [Try(c, Some(m))], false).log == w1.log + [Issue(task, c.path, m)];
  }

  /** So do two failed cases with one path in the same output, in the very first run: the path gets two
      issues, and the stored map knows only the second. */
  lemma {:induction false} SamePathRepeats() returns (tries: seq<Try>)
    ensures |tries| == 2 && tries[0].c == tries[1].c
    ensures var w := AfterRuns([Run(1, tries, false)]);
      && w.log == [Issue(1, "login/empty", 7), Issue(1, "login/empty", 8)] && !OncePerPath(w.log)
      && SavedOf(w, 1) == map["login/empty" := 8]
  {
    var c := Case("login/empty", Broken, Bug);
    tries := [Try(c, Some(7)), Try(c, Some(8))];
    hide Enter, IssuesOf, Execute, OncePerPath;
    SamePathMakesTwo(tries);
    RowsAfter(EMPTY, 1, tries);
    FirstRun(Run(1, tries, false));
    TwoOnOnePath([Issue(1, c.path, 7), Issue(1, c.path, 8)]);
  }

  lemma {:induction false} SamePathMakesTwo(tries: seq<Try>)
    requires |tries| == 2 && tries[0].c == tries[1].c && Creates(tries[0], map[]) && Creates(tries[1], map[])
    ensures var path, n, m := tries[0].c.path, tries[0].answer.value, tries[1].answer.value;
      && IssuesOf(1, tries, map[]) == [Issue(1, path, n), Issue(1, path, m)]
      && Enter(map[], IssuesOf(1, tries, map[])) == map[path := m]
  {
    hide Enter, IssuesOf;
    var a, b := tries[0], tries[1];
    var first, second := Issue(1, a.c.path, a.answer.value), Issue(1, a.c.path, b.answer.value);
    assert [a] + [b] == tries && [first] + [second] == [first, second] && [] + [first] == [first];
    OneMade(1, a, map[]);
    IssuesOfAppend(1, [a], b, map[]);
    NothingEntered(map[]);
    EnterAppend(map[], [], first);
    EnterAppend(map[], [first], second);
  }

  lemma {:induction false} FirstRun(r: Run)
    ensures AfterRuns([r]) == Execute(EMPTY, r.task, r.tries, r.cut)
  {
    hide Execute;
    assert [r][..0] == [];
  }

  lemma {:induction false} TwoOnOnePath(log: seq<Issue>)
    requires |log| == 2 && log[0].task == log[1].task && log[0].path == log[1].path
    ensures !OncePerPath(log)
  {}

  lemma {:induction false} NothingEntered(m: Created)
    ensures Enter(m, []) == m
  {}

  lemma {:induction false} OneMade(task: nat, t: Try, saved: Created)
    requires Creates(t, saved)
    ensures IssuesOf(task, [t], saved) == [Issue(task, t.c.path, t.answer.value)]
  {
    assert [t][..0] == [];
    assert IssuesOf(task, [], saved) == [];
  }

  // ---- Which cases get an issue --------------------------------------------------------------

  /** A failed or erroneous case that is a bug or an outdated script, for which no issue is saved yet and
      creating one answered `n`. */
  predicate GetsIssue(t: Try, saved: Created, path: string, n: int) {
    && t.c.path == path && path !in saved && t.answer == Some(n)
    && (t.c.status == Broken || t.c.status == Erroneous)
    && (t.c.category == Bug || t.c.category == ScriptOutdated)
  }

  lemma {:induction false} MadeExactly(task: nat, tries: seq<Try>, saved: Created, path: string, n: int)
    ensures Issue(task, path, n) in IssuesOf(task, tries, saved) <==>
      exists k :: 0 <= k < |tries| && GetsIssue(tries[k], saved, path, n)
  {
    if tries != [] {
      var front, t := tries[..|tries| - 1], tries[|tries| - 1];
      MadeExactly(task, front, saved, path, n);
      assert tries == front + [t];
      IssuesOfAppend(task, front, t, saved);
      hide IssuesOf;
      assert Issue(task, path, n) in IssuesOf(task, tries, saved) <==>
        Issue(task, path, n) in IssuesOf(task, front, saved) || GetsIssue(t, saved, path, n);
      if exists k :: 0 <= k < |front| && GetsIssue(front[k], saved, path, n) {
        var k :| 0 <= k < |front| && GetsIssue(front[k], saved, path, n);
        assert GetsIssue(tries[k], saved, path, n);
      }
    }
  }

  /** The issues of one run: for a path there is one with the number exactly when some case with that path
      gets it; none for cases that passed, were skipped, blame the environment or have no category. */
  lemma {:induction false} RunCreatesExactly(w: World, task: nat, tries: seq<Try>, path: string, n: int)
    requires IdsOk(w)
    ensures var w', saved := Execute(w, task, tries, false), SavedOf(w, task);
      && w.log <= w'.log
      && (Issue(task, path, n) in w'.log[|w.log|..] <==>
            exists k :: 0 <= k < |tries| && GetsIssue(tries[k], saved, path, n))
  {
    hide Execute, IssuesOf, Enter, GetsIssue;
    RowsAfter(w, task, tries);
    MadeExactly(task, tries, SavedOf(w, task), path, n);
    var w' := Execute(w, task, tries, false);
    assert w'.log[|w.log|..] == IssuesOf(task, tries, SavedOf(w, task));
  }

  /** With distinct paths the stored map is afterwards the old one and what the cases of the run got. */
  lemma {:induction false} RunStoresExactly(w: World, task: nat, tries: seq<Try>, path: string, n: int)
    requires Ok(w) && DistinctPaths(tries)
    ensures var w', saved := Execute(w, task, tries, false), SavedOf(w, task);
      && task in w'.rows
      && ((path in w'.rows[task].created && w'.rows[task].created[path] == n) <==>
            (path in saved && saved[path] == n) ||
            exists k :: 0 <= k < |tries| && GetsIssue(tries[k], saved, path, n))
  {
    hide Execute, IssuesOf, Enter, GetsIssue, OncePerPath;
    RowsAfter(w, task, tries);
    MadeIsFresh(w, task, tries);
    MadeOnce(task, tries, SavedOf(w, task));
    assert NoPathTwice(tries, SavedOf(w, task));
    MadeExactly(task, tries, SavedOf(w, task), path, n);
    Entered(SavedOf(w, task), IssuesOf(task, tries, SavedOf(w, task)), task, path, n);
  }

  // ---- The service ---------------------------------------------------------------------------

  class E2EService {
    var rows: map<nat, Row>
    var nextId: nat
    var log: seq<Issue>

    constructor ()
      ensures Contents() == EMPTY
    {
      rows, nextId, log := map[], 0, [];
    }

    ghost function Contents(): World
      reads this
    {
      World(rows, nextId, log)
    }

    method SaveE2EResult(task: nat, row: Row) returns (id: nat)
      modifies this
      ensures Contents() == Save(old(Contents()), task, row) && id == row.id
    {
      if task in rows {
        rows := rows[task := rows[task].(created := row.created)];
      } else {
        rows := rows[task := row];
        nextId := nextId + 1;
      }
      return row.id;
    }

    /** An id that no row has is an error. */
    method UpdateE2ECreatedIssues(id: nat, created: Created) returns (ok: bool)
      modifies this
      ensures Contents() == UpdateCreated(old(Contents()), id, created)
      ensures ok <==> exists t :: t in old(rows) && old(rows)[t].id == id
    {
      ok := exists t :: t in rows && rows[t].id == id;
      rows := map t | t in rows :: if rows[t].id == id then Row(id, created) else rows[t];
    }

    method ProcessFailures(task: nat, tries: seq<Try>, saved: Created) returns (created: Created)
      modifies this`log
      ensures log == old(log) + IssuesOf(task, tries, saved)
      ensures created == Enter(saved, IssuesOf(task, tries, saved))
    {
      created := saved;
      ghost var made: seq<Issue> := [];
      for i := 0 to |tries|
        invariant made == IssuesOf(task, tries[..i], saved)
        invariant log == old(log) + made
        invariant created == Enter(saved, made)
      {
        hide Enter, IssuesOf;
        assert tries[..i + 1] == tries[..i] + [tries[i]];
        IssuesOfAppend(task, tries[..i], tries[i], saved);
        var c := tries[i].c;
        if c.status.Passed? || c.status.Skipped? || c.category.Environment? { continue; }
        if c.path in saved { continue; }
        if !c.category.Bug? && !c.category.ScriptOutdated? { continue; }
        if tries[i].answer == None { continue; }
        var issue := Issue(task, c.path, tries[i].answer.value);
        EnterAppend(saved, made, issue);
        Reassociate(old(log), made, [issue]);
        log := log + [issue];
        made := made + [issue];
        created := created[c.path := issue.number];
      }
      assert tries[..|tries|] == tries;
    }

    method ExecuteTask(task: nat, tries: seq<Try>)
      modifies this
      ensures Contents() == Execute(old(Contents()), task, tries, false)
    {
      hide IssuesOf, Enter;
      var saved: Created := map[];
      var id := nextId;
      if task in rows {
        saved := rows[task].created;
        id := rows[task].id;
      }
      id := SaveE2EResult(task, Row(id, saved));
      var created := ProcessFailures(task, tries, saved);
      if |created| > 0 { var _ := UpdateE2ECreatedIssues(id, created); }
    }
  }
}
