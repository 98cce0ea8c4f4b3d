/** The full split of run_e2e: all active tasks of the repository are cancelled first, then one task per
    scanned module is enqueued (internal/queue/enqueue.go).  Unlike the replacing calls it can leave a
    gap; it is said exactly when, and when the gap outlasts the call. */
module TaskSplit {
  import opened Wrappers
  import opened TaskModel
  import opened TaskProtocol
  import opened TaskLaws
  import opened TaskReplacement
  import opened TaskPlaces

  function Targets(tasks: seq<Task>): seq<string> {
    seq(|tasks|, k requires 0 <= k < |tasks| => tasks[k].subject.target)
  }

  /** The modules of active tasks; one module can be listed several times. */
  function ActiveModules(s: Sys, repo: string, kind: Kind): seq<string> {
    Targets(Select(s.tasks, (t: Task) => t.kind == kind && t.subject.repo == repo && t.status.IsActive()))
  }

  function Cleanup(s: Sys, repo: string, modules: seq<string>, works: Task -> bool): Sys {
    if modules == [] then s
    else
      var s1 := Cleanup(s, repo, modules[..|modules| - 1], works);
      CancelAll(s1, ActiveTasksByModule(s1, repo, modules[|modules| - 1], RunE2E), works)
  }

  function CleanupAll(s: Sys, repo: string, works: Task -> bool): Sys {
    Cleanup(s, repo, ActiveModules(s, repo, RunE2E), works)
  }

  /** A scanned module and the delivery id made up for it. */
  datatype Part = Part(target: string, deliveryId: string)

  /** One replacing call per part; the second result lists the records that were accepted. */
  function EnqueueParts(s: Sys, repo: string, parts: seq<Part>, reaches: bool, works: Task -> bool): (Sys, seq<nat>) {
    if parts == [] then (s, [])
    else
      var (s1, ids) := EnqueueParts(s, repo, parts[..|parts| - 1], reaches, works);
      var p := parts[|parts| - 1];
      var t := NewTask(s1, RunE2E, Subject(repo, p.target, 0, 0), p.deliveryId);
      (Replace(s1, t, ActiveTasksByModule(s1, repo, p.target, RunE2E), reaches, works),
       if CreateTask(s1, t) == None then ids else ids + [t.id])
  }

  lemma {:induction false} NoParts(s: Sys, repo: string, reaches: bool, works: Task -> bool)
    ensures EnqueueParts(s, repo, [], reaches, works) == (s, [])
  {}

  lemma {:induction false} PartsStep(s: Sys, repo: string, front: seq<Part>, p: Part, reaches: bool,
      works: Task -> bool)
    ensures var (s1, ids) := EnqueueParts(s, repo, front, reaches, works);
      var t := NewTask(s1, RunE2E, Subject(repo, p.target, 0, 0), p.deliveryId);
      EnqueueParts(s, repo, front + [p], reaches, works) ==
        (Replace(s1, t, ActiveTasksByModule(s1, repo, p.target, RunE2E), reaches, works),
         if CreateTask(s1, t) == None then ids else ids + [t.id])
  {
    hide Replace, CreateTask, ActiveTasksByModule;
    assert (front + [p])[..|front|] == front;
  }

  function FullSplit(s: Sys, repo: string, parts: seq<Part>, reaches: bool, works: Task -> bool): (Sys, seq<nat>) {
    EnqueueParts(CleanupAll(s, repo, works), repo, parts, reaches, works)
  }

  // ---- What cancelling does to each row ------------------------------------------------------

  predicate Cancellable(s: Sys, i: nat, works: Task -> bool)
    requires i < |s.tasks|
  {
    CancelTask(s, s.tasks[i], works(s.tasks[i])).1
  }

  /** The rows that are hit and can be cancelled are cancelled; all others are untouched, and whether
      they can be cancelled is as before. */
  ghost predicate Cleaned(s: Sys, s': Sys, hit: set<nat>, works: Task -> bool) {
    SysOk(s') && |s'.tasks| == |s.tasks| && forall i :: 0 <= i < |s.tasks| ==> CleanedRow(s, s', i in hit, works, i)
  }

  ghost predicate CleanedRow(s: Sys, s': Sys, hit: bool, works: Task -> bool, i: nat)
    requires i < |s.tasks| == |s'.tasks|
  {
    if hit && Cancellable(s, i, works) then s'.tasks[i] == s.tasks[i].(status := Cancelled)
    else s'.tasks[i] == s.tasks[i] && Cancellable(s', i, works) == Cancellable(s, i, works)
  }

  function Ids(tasks: seq<Task>): set<nat> { set k | 0 <= k < |tasks| :: tasks[k].id }

  ghost predicate AreRows(s: Sys, olds: seq<Task>) { forall o :: o in olds ==> o.id < |s.tasks| && s.tasks[o.id] == o }

  lemma {:induction false} OneCancelEffect(s: Sys, i: nat, j: nat, w: bool, works: Task -> bool)
    requires SysOk(s) && i < |s.tasks| && j < |s.tasks| && i != j
    ensures var s' := CancelTask(s, s.tasks[i], w).0;
      |s'.tasks| == |s.tasks| && s'.tasks[j] == s.tasks[j] && Cancellable(s', j, works) == Cancellable(s, j, works)
  {
    hide BuildAsynqTaskId, EntriesOwned, HandlersOk, NoneStranded, OneRowEach;
    OneOwner(s, i, j);
  }

  lemma {:induction false} FailedCancelChangesNothing(s: Sys, t: Task, works: bool)
    ensures !CancelTask(s, t, works).1 ==> CancelTask(s, t, works).0 == s
  {}

  lemma {:induction false} RowFits(s: Sys, o: Task)
    requires SysOk(s) && o.id < |s.tasks| && s.tasks[o.id] == o
    ensures Fits(s, o)
  {}

  lemma {:induction false} FirstCleans(s: Sys, o: Task, works: Task -> bool)
    requires SysOk(s) && o.id < |s.tasks| && s.tasks[o.id] == o
    ensures Cleaned(s, CancelTask(s, o, works(o)).0, {o.id}, works)
  {
    hide SysOk, CancelTask;
    RowFits(s, o);
    CancelKeeps(s, o, works(o));
    CancelWrites(s, o, works(o));
    FailedCancelChangesNothing(s, o, works(o));
    var s1, hit := CancelTask(s, o, works(o)).0, {o.id};
    forall i | 0 <= i < |s.tasks| ensures CleanedRow(s, s1, i in hit, works, i) {
      if i != o.id { OneCancelEffect(s, o.id, i, works(o), works); }
    }
  }

  lemma {:induction false} RestAreRows(s: Sys, s1: Sys, olds: seq<Task>)
    requires olds != [] && Distinct(olds) && AreRows(s, olds) && |s1.tasks| == |s.tasks|
    requires forall i :: 0 <= i < |s.tasks| && i != olds[0].id ==> s1.tasks[i] == s.tasks[i]
    ensures Distinct(olds[1..]) && AreRows(s1, olds[1..])
    ensures olds[0].id !in Ids(olds[1..]) && Ids(olds) == {olds[0].id} + Ids(olds[1..])
  {
    var rest := olds[1..];
    forall x | x in rest ensures x in olds && x.id != olds[0].id {
      var k :| 0 <= k < |rest| && rest[k] == x;
      assert olds[k + 1] == x;
    }
    forall i | i in Ids(olds) ensures i in {olds[0].id} + Ids(rest) {
      var k :| 0 <= k < |olds| && olds[k].id == i;
      if k > 0 { assert rest[k - 1].id == i; }
    }
    forall i | i in Ids(rest) ensures i in Ids(olds) {
      var k :| 0 <= k < |rest| && rest[k].id == i;
      assert olds[k + 1].id == i;
    }
  }

  /** Hits one after the other; a row that was hit without success may be hit again. */
  lemma {:induction false} CleanedTwice(s: Sys, s1: Sys, s': Sys, a: set<nat>, b: set<nat>, works: Task -> bool)
    requires Cleaned(s, s1, a, works) && Cleaned(s1, s', b, works)
    requires forall i :: 0 <= i < |s.tasks| && i in a && i in b ==> !Cancellable(s, i, works)
    ensures Cleaned(s, s', a + b, works)
  {
    hide SysOk, Cancellable;
    forall i | 0 <= i < |s.tasks| ensures CleanedRow(s, s', i in a + b, works, i) {
      assert CleanedRow(s, s1, i in a, works, i) && CleanedRow(s1, s', i in b, works, i);
    }
  }

  lemma {:induction false} CancelAllCleans(s: Sys, olds: seq<Task>, works: Task -> bool)
    requires SysOk(s) && Distinct(olds) && AreRows(s, olds)
    ensures Cleaned(s, CancelAll(s, olds, works), Ids(olds), works)
    decreases |olds|
  {
    hide SysOk, CancelTask, Cancellable;
    if olds != [] {
      var o := olds[0];
      assert o in olds;
      var s1 := CancelTask(s, o, works(o)).0;
      var hit := {o.id};
      FirstCleans(s, o, works);
      forall i | 0 <= i < |s.tasks| && i != o.id ensures s1.tasks[i] == s.tasks[i] {
        assert CleanedRow(s, s1, i in hit, works, i);
      }
      hide Cleaned, Ids, Distinct, AreRows;
      RestAreRows(s, s1, olds);
      assert SysOk(s1) && |s1.tasks| == |s.tasks| by { CleanedIsOk(s, s1, hit, works); }
      CancelAllCleans(s1, olds[1..], works);
      CleanedTwice(s, s1, CancelAll(s, olds, works), hit, Ids(olds[1..]), works);
    }
  }

  lemma {:induction false} CleanedIsOk(s: Sys, s': Sys, hit: set<nat>, works: Task -> bool)
    requires Cleaned(s, s', hit, works)
    ensures SysOk(s') && |s'.tasks| == |s.tasks|
  {}

  // ---- What the cleanup does -----------------------------------------------------------------

  predicate InPlace(t: Task, repo: string, target: string) {
    t.status.IsActive() && t.kind.RunE2E? && t.subject.repo == repo && t.subject.target == target
  }

  function ActiveIn(s: Sys, repo: string, modules: seq<string>): set<nat> {
    set i | 0 <= i < |s.tasks| && InPlace(s.tasks[i], repo, s.tasks[i].subject.target) &&
      s.tasks[i].subject.target in modules
  }

  lemma {:induction false} ListedIds(s: Sys, repo: string, target: string)
    requires RowsOk(s)
    ensures var olds := ActiveTasksByModule(s, repo, target, RunE2E);
      && Distinct(olds) && AreRows(s, olds)
      && forall i :: i in Ids(olds) <==> 0 <= i < |s.tasks| && InPlace(s.tasks[i], repo, target)
  {
    var olds := ActiveTasksByModule(s, repo, target, RunE2E);
    var p := (t: Task) => t.subject.repo == repo && t.kind == RunE2E && t.subject.target == target &&
      t.status.IsActive();
    SelectedAreRows(s, p);
    assert olds == Select(s.tasks, p);
    forall i | 0 <= i < |s.tasks| && InPlace(s.tasks[i], repo, target) ensures i in Ids(olds) {
      assert s.tasks[i] in olds;
      var k :| 0 <= k < |olds| && olds[k] == s.tasks[i];
      assert olds[k].id == i;
    }
    forall i | i in Ids(olds) ensures 0 <= i < |s.tasks| && InPlace(s.tasks[i], repo, target) {
      var k :| 0 <= k < |olds| && olds[k].id == i;
      assert olds[k] in olds;
    }
  }

  /** The cleanup cancels exactly the active tasks of the listed modules whose cancellation succeeds. */
  lemma {:induction false} CleanupCleans(s: Sys, repo: string, modules: seq<string>, works: Task -> bool)
    requires SysOk(s)
    ensures Cleaned(s, Cleanup(s, repo, modules, works), ActiveIn(s, repo, modules), works)
  {
    if modules == [] {
      NothingHit(s, repo, works);
    } else {
      hide SysOk, Cleaned, ActiveIn, Cleanup;
      CleanupCleans(s, repo, modules[..|modules| - 1], works);
      CleanupStep(s, repo, modules, works);
    }
  }

  lemma {:induction false} CleanupStep(s: Sys, repo: string, modules: seq<string>, works: Task -> bool)
    requires modules != []
    requires var front := modules[..|modules| - 1];
      Cleaned(s, Cleanup(s, repo, front, works), ActiveIn(s, repo, front), works)
    ensures Cleaned(s, Cleanup(s, repo, modules, works), ActiveIn(s, repo, modules), works)
  {
    hide SysOk, Cleaned, ActiveIn, CancelAll, ActiveTasksByModule;
    var front, m := modules[..|modules| - 1], modules[|modules| - 1];
    assert modules == front + [m];
    CleanupOne(s, Cleanup(s, repo, front, works), repo, front, m, works);
  }

  lemma {:induction false} CleanupOne(s: Sys, s1: Sys, repo: string, front: seq<string>, m: string, works: Task -> bool)
    requires Cleaned(s, s1, ActiveIn(s, repo, front), works)
    ensures Cleaned(s, CancelAll(s1, ActiveTasksByModule(s1, repo, m, RunE2E), works),
      ActiveIn(s, repo, front + [m]), works)
  {
    hide SysOk, Cancellable, Cleaned, ActiveIn, Ids, ActiveTasksByModule, CancelAll, Distinct, AreRows, InPlace, RowsOk;
    CleanedIsOk(s, s1, ActiveIn(s, repo, front), works);
    SysRows(s1);
    var olds := ActiveTasksByModule(s1, repo, m, RunE2E);
    ListedIds(s1, repo, m);
    CancelAllCleans(s1, olds, works);
    HitAgainInVain(s, s1, repo, front, m, Ids(olds), works);
    CleanedTwice(s, s1, CancelAll(s1, olds, works), ActiveIn(s, repo, front), Ids(olds), works);
  }

  lemma {:induction false} NothingHit(s: Sys, repo: string, works: Task -> bool)
    requires SysOk(s)
    ensures Cleaned(s, s, ActiveIn(s, repo, []), works)
  {
    hide SysOk, Cancellable;
    assert ActiveIn(s, repo, []) == {};
  }

  lemma {:induction false} SysRows(s: Sys)
    requires SysOk(s)
    ensures RowsOk(s)
  {}

  lemma {:induction false} HitAgainInVain(s: Sys, s1: Sys, repo: string, front: seq<string>, m: string, ids: set<nat>,
                                          works: Task -> bool)
    requires Cleaned(s, s1, ActiveIn(s, repo, front), works)
    requires forall i :: i in ids <==> 0 <= i < |s1.tasks| && InPlace(s1.tasks[i], repo, m)
    ensures forall i :: 0 <= i < |s.tasks| && i in ActiveIn(s, repo, front) && i in ids ==> !Cancellable(s, i, works)
    ensures ActiveIn(s, repo, front) + ids == ActiveIn(s, repo, front + [m])
  {
    hide SysOk, Cancellable;
    forall i | 0 <= i < |s.tasks| && i in ActiveIn(s, repo, front) && i in ids ensures !Cancellable(s, i, works) {
      assert CleanedRow(s, s1, true, works, i);
    }
    forall i | i in ids ensures i in ActiveIn(s, repo, front + [m]) {
      assert CleanedRow(s, s1, i in ActiveIn(s, repo, front), works, i);
    }
    forall i | i in ActiveIn(s, repo, front + [m]) ensures i in ActiveIn(s, repo, front) + ids {
      assert CleanedRow(s, s1, i in ActiveIn(s, repo, front), works, i);
    }
  }

  // ---- The gap -------------------------------------------------------------------------------

  ghost predicate Vacant(s: Sys, repo: string, target: string) {
    forall i :: 0 <= i < |s.tasks| ==> !InPlace(s.tasks[i], repo, target)
  }

  lemma {:induction false} AllAreListed(s: Sys, repo: string, target: string, i: nat)
    requires i < |s.tasks| && InPlace(s.tasks[i], repo, target)
    ensures i in ActiveIn(s, repo, ActiveModules(s, repo, RunE2E))
  {
    var listed := Select(s.tasks, (t: Task) => t.kind == RunE2E && t.subject.repo == repo && t.status.IsActive());
    assert s.tasks[i] in listed;
    var k :| 0 <= k < |listed| && listed[k] == s.tasks[i];
    assert ActiveModules(s, repo, RunE2E)[k] == target;
  }

  /** After the cleanup, and before anything new is persisted, a module has no active task exactly when
      each of its active tasks could be cancelled.  With at least one of them there before, that is a gap. */
  lemma {:induction false} SplitGapIff(s: Sys, repo: string, target: string, works: Task -> bool)
    requires SysOk(s)
    ensures Vacant(CleanupAll(s, repo, works), repo, target) <==>
      forall i :: 0 <= i < |s.tasks| && InPlace(s.tasks[i], repo, target) ==> Cancellable(s, i, works)
  {
    hide SysOk, Cancellable, ActiveIn, ActiveModules, Cleanup;
    var modules := ActiveModules(s, repo, RunE2E);
    var hit, s' := ActiveIn(s, repo, modules), CleanupAll(s, repo, works);
    CleanupCleans(s, repo, modules, works);
    forall i | 0 <= i < |s.tasks|
      ensures InPlace(s'.tasks[i], repo, target) <==> InPlace(s.tasks[i], repo, target) && !Cancellable(s, i, works)
    {
      assert CleanedRow(s, s', i in hit, works, i);
      if InPlace(s.tasks[i], repo, target) { AllAreListed(s, repo, target, i); }
    }
  }

  /** A module that was active and is vacant after the cleanup. */
  lemma {:induction false} SplitCanLeaveGap() returns (steps: seq<Step>)
    ensures var s := After(steps).sys;
      !Vacant(s, "r", "m") && Vacant(CleanupAll(s, "r", _ => true), "r", "m")
  {
    hide BuildAsynqTaskId, SysOk, CleanupAll;
    var subject := Subject("r", "m", 0, 0);
    var t := Task(0, RunE2E, Pending, "", subject, "d", MAX_RETRY);
    steps := [Persist(RunE2E, subject, "d")];
    AfterOne([], steps[0]);
    assert [] + [steps[0]] == steps;
    var s := After(steps).sys;
    assert s == Sys([t], map[], map[]);
    InvHolds(steps);
    assert InPlace(s.tasks[0], "r", "m");
    assert Cancellable(s, 0, _ => true);
    SplitGapIff(s, "r", "m", _ => true);
  }

  // ---- How long the gap lasts ----------------------------------------------------------------

  /** The delivery ids made up for the parts are new. */
  ghost predicate FreshParts(s: Sys, parts: seq<Part>) {
    (forall k :: 0 <= k < |parts| ==>
      parts[k].deliveryId != "" && RowFor(s.tasks, parts[k].deliveryId, RunE2E) == None) &&
    forall j, k :: 0 <= j < k < |parts| ==> parts[j].deliveryId != parts[k].deliveryId
  }

  lemma {:induction false} OnlyCancelled(s: Sys, olds: seq<Task>, works: Task -> bool)
    requires SysOk(s) && Distinct(olds) && AreRows(s, olds)
    ensures var s' := CancelAll(s, olds, works);
      && |s'.tasks| == |s.tasks|
      && forall i :: 0 <= i < |s.tasks| ==>
           s'.tasks[i] == s.tasks[i] || (i in Ids(olds) && s'.tasks[i] == s.tasks[i].(status := Cancelled))
  {
    hide SysOk, Cancellable, Ids;
    CancelAllCleans(s, olds, works);
    var s' := CancelAll(s, olds, works);
    forall i | 0 <= i < |s.tasks|
      ensures s'.tasks[i] == s.tasks[i] || (i in Ids(olds) && s'.tasks[i] == s.tasks[i].(status := Cancelled))
    {
      assert CleanedRow(s, s', i in Ids(olds), works, i);
    }
  }

  /** One call for a module makes that module active and leaves all others as they are. */
  lemma {:induction false} PartFills(s: Sys, repo: string, p: Part, reaches: bool, works: Task -> bool, target: string)
    requires SysOk(s) && p.deliveryId != "" && RowFor(s.tasks, p.deliveryId, RunE2E) == None
    ensures var t := NewTask(s, RunE2E, Subject(repo, p.target, 0, 0), p.deliveryId);
      var s' := Replace(s, t, ActiveTasksByModule(s, repo, p.target, RunE2E), reaches, works);
      && Keeps(s, s') && |s'.tasks| == |s.tasks| + 1 && s'.tasks[|s.tasks|].deliveryId == p.deliveryId
      && CreateTask(s, t).Some?
      && (Vacant(s', repo, target) <==> Vacant(s, repo, target) && p.target != target)
  {
    hide SysOk, EnqueueAndMark, CancelAll, ActiveTasksByModule, BuildAsynqTaskId, Follows, Distinct, Ids;
    var t := NewTask(s, RunE2E, Subject(repo, p.target, 0, 0), p.deliveryId);
    var olds := ActiveTasksByModule(s, repo, p.target, RunE2E);
    SysRows(s);
    ListedIds(s, repo, p.target);
    AreRowsFit(s, olds);
    ReplaceKeeps(s, RunE2E, t.subject, p.deliveryId, olds, reaches, works);
    Created(s, t, reaches);
    CreateIsFresh(s, t, reaches);
    var s2 := EnqueueAndMark(CreateTask(s, t).value, t, reaches);
    OnlyCancelled(s2, olds, works);
    var s' := CancelAll(s2, olds, works);
    forall i | 0 <= i < |s.tasks|
      ensures InPlace(s'.tasks[i], repo, target) && p.target != target <==>
        InPlace(s.tasks[i], repo, target) && p.target != target
    {}
    assert InPlace(s'.tasks[|s.tasks|], repo, p.target);
  }

  lemma {:induction false} AreRowsFit(s: Sys, olds: seq<Task>)
    requires SysOk(s) && AreRows(s, olds)
    ensures forall o :: o in olds ==> Fits(s, o)
  {
    forall o | o in olds ensures Fits(s, o) { RowFits(s, o); }
  }

  lemma {:induction false} CreateIsFresh(s: Sys, t: Task, reaches: bool)
    requires SysOk(s) && t.id == |s.tasks| && t.deliveryId != "" && t.status.Pending? && t.asynqId == "" &&
      CreateTask(s, t).Some?
    ensures SysOk(EnqueueAndMark(CreateTask(s, t).value, t, reaches))
  {
    hide SysOk, CreateTask, Follows;
    CreateKeeps(s, t);
    NewFits(s, t);
    var s1 := CreateTask(s, t).value;
    if Enqueue(s1, t, reaches).1.Accepted? { MarkedKeeps(s1, t, reaches); } else { EnqueueKeeps(s1, t, reaches); }
  }

  /** The rows after the calls: the old ones, then one per part. */
  ghost predicate Extended(s: Sys, s': Sys, parts: seq<Part>) {
    && Follows(s, s') && |s'.tasks| == |s.tasks| + |parts|
    && forall k :: 0 <= k < |parts| ==> s'.tasks[|s.tasks| + k].deliveryId == parts[k].deliveryId
  }

  lemma {:induction false} StillFresh(s: Sys, s1: Sys, parts: seq<Part>)
    requires parts != [] && FreshParts(s, parts) && Extended(s, s1, parts[..|parts| - 1])
    ensures RowFor(s1.tasks, parts[|parts| - 1].deliveryId, RunE2E) == None
  {
    var n, last := |s.tasks|, parts[|parts| - 1];
    forall i | 0 <= i < |s1.tasks| ensures !(s1.tasks[i].deliveryId == last.deliveryId && s1.tasks[i].kind == RunE2E) {
      if i < n {
        assert s1.tasks[i].deliveryId == s.tasks[i].deliveryId && s1.tasks[i].kind == s.tasks[i].kind;
      } else {
        assert s1.tasks[n + (i - n)].deliveryId == parts[..|parts| - 1][i - n].deliveryId;
      }
    }
  }

  lemma {:induction false} ExtendedOnce(s: Sys, s1: Sys, s': Sys, parts: seq<Part>)
    requires parts != [] && Extended(s, s1, parts[..|parts| - 1]) && Follows(s1, s') && |s'.tasks| == |s1.tasks| + 1
    requires s'.tasks[|s1.tasks|].deliveryId == parts[|parts| - 1].deliveryId
    ensures Extended(s, s', parts)
  {
    FollowsChain(s, s1, s');
    forall k | 0 <= k < |parts| ensures s'.tasks[|s.tasks| + k].deliveryId == parts[k].deliveryId {
      if k < |parts| - 1 { assert s1.tasks[|s.tasks| + k].deliveryId == parts[..|parts| - 1][k].deliveryId; }
    }
  }

  /** With new delivery ids every part is accepted, and a module is vacant afterwards exactly when it was
      vacant before and is not among the parts. */
  lemma {:induction false} PartsFill(s: Sys, repo: string, parts: seq<Part>, reaches: bool, works: Task -> bool,
      target: string)
    requires SysOk(s) && FreshParts(s, parts)
    ensures var (s', ids) := EnqueueParts(s, repo, parts, reaches, works);
      && SysOk(s') && Extended(s, s', parts) && |ids| == |parts|
      && (Vacant(s', repo, target) <==>
        Vacant(s, repo, target) && forall k :: 0 <= k < |parts| ==> parts[k].target != target)
  {
    hide SysOk, Vacant, Replace, CreateTask, ActiveTasksByModule;
    if parts == [] {
      SelfFollows(s);
    } else {
      var front, p := parts[..|parts| - 1], parts[|parts| - 1];
      assert parts == front + [p];
      FreshFront(s, parts);
      PartsFill(s, repo, front, reaches, works, target);
      var (s1, ids) := EnqueueParts(s, repo, front, reaches, works);
      hide Extended, Follows, FreshParts;
      StillFresh(s, s1, parts);
      FreshLast(s, parts);
      PartFills(s1, repo, p, reaches, works, target);
      ExtendedOnce(s, s1, EnqueueParts(s, repo, parts, reaches, works).0, parts);
      assert (forall k :: 0 <= k < |parts| ==> parts[k].target != target) <==>
             (forall k :: 0 <= k < |front| ==> front[k].target != target) && p.target != target;
    }
  }

  lemma {:induction false} CancelAllLength(s: Sys, olds: seq<Task>, works: Task -> bool)
    ensures |CancelAll(s, olds, works).tasks| == |s.tasks|
    decreases |olds|
  {
    hide CancelTask;
    if olds != [] {
      CancelTouchesOne(s, olds[0], works(olds[0]));
      CancelAllLength(CancelTask(s, olds[0], works(olds[0])).0, olds[1..], works);
    }
  }

  lemma {:induction false} ReplaceLength(s: Sys, t: Task, olds: seq<Task>, reaches: bool, works: Task -> bool)
    ensures |Replace(s, t, olds, reaches, works).tasks| == |s.tasks| + if CreateTask(s, t) == None then 0 else 1
  {
    hide CancelAll, BuildAsynqTaskId, FindByDeliveryId;
    if CreateTask(s, t).Some? { CancelAllLength(EnqueueAndMark(CreateTask(s, t).value, t, reaches), olds, works); }
  }

  /** The ids that are returned are those of the rows the call added, in order; refused parts have none. */
  lemma {:induction false} IdsAreNewRows(s: Sys, repo: string, parts: seq<Part>, reaches: bool, works: Task -> bool)
    ensures var (s', ids) := EnqueueParts(s, repo, parts, reaches, works);
      |s'.tasks| == |s.tasks| + |ids| && forall k :: 0 <= k < |ids| ==> ids[k] == |s.tasks| + k
  {
    if parts == [] {
      NoParts(s, repo, reaches, works);
    } else {
      hide Replace, CreateTask, ActiveTasksByModule, EnqueueParts;
      var front, p := parts[..|parts| - 1], parts[|parts| - 1];
      assert parts == front + [p];
      IdsAreNewRows(s, repo, front, reaches, works);
      PartsStep(s, repo, front, p, reaches, works);
      var s1 := EnqueueParts(s, repo, front, reaches, works).0;
      ReplaceLength(s1, NewTask(s1, RunE2E, Subject(repo, p.target, 0, 0), p.deliveryId),
        ActiveTasksByModule(s1, repo, p.target, RunE2E), reaches, works);
    }
  }

  lemma {:induction false} FreshFront(s: Sys, parts: seq<Part>)
    requires parts != [] && FreshParts(s, parts)
    ensures FreshParts(s, parts[..|parts| - 1])
  {}

  lemma {:induction false} FreshLast(s: Sys, parts: seq<Part>)
    requires parts != [] && FreshParts(s, parts)
    ensures parts[|parts| - 1].deliveryId != ""
  {}

  lemma {:induction false} FreshAfterCleanup(s: Sys, s': Sys, parts: seq<Part>, hit: set<nat>, works: Task -> bool)
    requires Cleaned(s, s', hit, works) && FreshParts(s, parts)
    ensures FreshParts(s', parts)
  {
    hide SysOk, Cancellable;
    forall k | 0 <= k < |parts| ensures RowFor(s'.tasks, parts[k].deliveryId, RunE2E) == None {
      forall i | 0 <= i < |s'.tasks|
        ensures !(s'.tasks[i].deliveryId == parts[k].deliveryId && s'.tasks[i].kind == RunE2E)
      {
        assert CleanedRow(s, s', i in hit, works, i) && RowFor(s.tasks, parts[k].deliveryId, RunE2E) == None;
      }
    }
  }

  /** A module has no active task after the whole split exactly when it was not scanned and each active
      task it had could be cancelled: then the gap lasts beyond the call. */
  lemma {:induction false} GapLastsIff(s: Sys, repo: string, parts: seq<Part>, reaches: bool, works: Task -> bool,
      target: string)
    requires SysOk(s) && FreshParts(s, parts)
    ensures Vacant(FullSplit(s, repo, parts, reaches, works).0, repo, target) <==>
      (forall k :: 0 <= k < |parts| ==> parts[k].target != target) &&
      forall i :: 0 <= i < |s.tasks| && InPlace(s.tasks[i], repo, target) ==> Cancellable(s, i, works)
  {
    hide SysOk, Vacant, Cleanup, ActiveModules, ActiveIn, Cancellable, FreshParts, Extended, EnqueueParts, InPlace,
      Cleaned;
    var modules := ActiveModules(s, repo, RunE2E);
    var s1 := CleanupAll(s, repo, works);
    CleanupCleans(s, repo, modules, works);
    CleanedIsOk(s, s1, ActiveIn(s, repo, modules), works);
    FreshAfterCleanup(s, s1, parts, ActiveIn(s, repo, modules), works);
    SplitGapIff(s, repo, target, works);
    PartsFill(s1, repo, parts, reaches, works, target);
  }
}
