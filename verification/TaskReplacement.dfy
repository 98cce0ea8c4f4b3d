/** Cancel-and-replace: a new task takes the place of the active ones for the same pull request, issue,
    module or branch (internal/queue/enqueue.go). */
module TaskReplacement {
  import opened Wrappers
  import opened TaskModel
  import opened TaskProtocol
  import opened TaskLaws

  // ---- Which tasks are replaced --------------------------------------------------------------

  /** The queries for pull requests and issues do not list retrying tasks. */
  predicate IsListed(st: Status) { st.Pending? || st.Queued? || st.Running? }

  function ActivePRTasks(s: Sys, repo: string, pr: int, kind: Kind): seq<Task> {
    Select(s.tasks, (t: Task) => t.subject.repo == repo && t.subject.pr == pr && t.kind == kind && IsListed(t.status))
  }

  function ActivePRTasksMulti(s: Sys, repo: string, pr: int, kinds: set<Kind>): seq<Task> {
    Select(s.tasks, (t: Task) => t.subject.repo == repo && t.subject.pr == pr && t.kind in kinds && t.status.IsActive())
  }

  function ActiveIssueTasks(s: Sys, repo: string, issue: int, kind: Kind): seq<Task> {
    Select(s.tasks, (t: Task) => t.subject.repo == repo && t.subject.issue == issue && t.kind == kind &&
      IsListed(t.status))
  }

  function ActiveTasksByModule(s: Sys, repo: string, target: string, kind: Kind): seq<Task> {
    Select(s.tasks, (t: Task) => t.subject.repo == repo && t.kind == kind && t.subject.target == target &&
      t.status.IsActive())
  }

  /** The iteration session of the pull request as far as it matters here. */
  datatype SessionView = NoSession | FixingOwnPush | UserPush

  function ReviewReplaces(s: Sys, repo: string, pr: int, view: SessionView): seq<Task> {
    var active := ActivePRTasks(s, repo, pr, ReviewPR);
    if view.UserPush? then active + ActivePRTasksMulti(s, repo, pr, {FixReview}) else active
  }

  /** A fix replaces earlier fixes and earlier analyses of the issue. */
  function IssueReplaces(s: Sys, repo: string, issue: int, kind: Kind): seq<Task> {
    var same := ActiveIssueTasks(s, repo, issue, kind);
    if kind.FixIssue? then same + ActiveIssueTasks(s, repo, issue, AnalyzeIssue) else same
  }

  /** Under which delivery id code_from_doc is asked for: none while a task for the same document is
      active, the rerun id after one that ended. */
  function CodeDelivery(s: Sys, baseId: string, rerunId: string): Option<string> {
    var existing := FindByDeliveryId(s, baseId, CodeFromDoc);
    if existing == None then Some(baseId)
    else if existing.value.status.IsActive() then None
    else Some(rerunId)
  }

  // ---- The states a replacing call goes through ----------------------------------------------

  /** From the state before the first cancellation to the state after the last. */
  function CancelTrace(s: Sys, olds: seq<Task>, works: Task -> bool): (r: seq<Sys>)
    ensures |r| == |olds| + 1 && r[0] == s
    decreases |olds|
  {
    if olds == [] then [s] else [s] + CancelTrace(CancelTask(s, olds[0], works(olds[0])).0, olds[1..], works)
  }

  function CancelAll(s: Sys, olds: seq<Task>, works: Task -> bool): Sys
    decreases |olds|
  {
    if olds == [] then s else CancelAll(CancelTask(s, olds[0], works(olds[0])).0, olds[1..], works)
  }

  /** Persist, enqueue, cancel; nothing after a refused persist. */
  function ReplaceTrace(s: Sys, t: Task, olds: seq<Task>, reaches: bool, works: Task -> bool): seq<Sys> {
    match CreateTask(s, t)
    case None => [s]
    case Some(s1) => [s, s1] + CancelTrace(EnqueueAndMark(s1, t, reaches), olds, works)
  }

  function Replace(s: Sys, t: Task, olds: seq<Task>, reaches: bool, works: Task -> bool): Sys {
    match CreateTask(s, t)
    case None => s
    case Some(s1) => CancelAll(EnqueueAndMark(s1, t, reaches), olds, works)
  }

  lemma {:induction false} CancelTraceEnds(s: Sys, olds: seq<Task>, works: Task -> bool)
    ensures CancelTrace(s, olds, works)[|olds|] == CancelAll(s, olds, works)
    decreases |olds|
  {
    hide CancelTask;
    if olds != [] { CancelTraceEnds(CancelTask(s, olds[0], works(olds[0])).0, olds[1..], works); }
  }

  // ---- No gap --------------------------------------------------------------------------------

  /** The new task holds its place: it is there and active. */
  ghost predicate Stands(s: Sys, t: Task) {
    t.id < |s.tasks| && (s.tasks[t.id] == t || s.tasks[t.id] == t.(status := Queued, asynqId := KeyOf(t)))
  }

  lemma {:induction false} CancelTouchesOne(s: Sys, t: Task, works: bool)
    ensures var s' := CancelTask(s, t, works).0;
      && |s'.tasks| == |s.tasks|
      && (forall i :: 0 <= i < |s.tasks| && i != t.id ==> s'.tasks[i] == s.tasks[i])
      && (t.id < |s.tasks| ==> s'.tasks[t.id] == s.tasks[t.id] || s'.tasks[t.id] == t.(status := Cancelled))
  {
    hide KeyOf;
  }

  lemma {:induction false} CancelsSpareTheNew(s: Sys, t: Task, olds: seq<Task>, works: Task -> bool, k: nat)
    requires Stands(s, t) && (forall o :: o in olds ==> o.id < t.id) && k <= |olds|
    ensures Stands(CancelTrace(s, olds, works)[k], t)
    decreases |olds|
  {
    hide CancelTask, KeyOf;
    if k > 0 {
      assert olds[0] in olds;
      CancelTouchesOne(s, olds[0], works(olds[0]));
      CancelsSpareTheNew(CancelTask(s, olds[0], works(olds[0])).0, t, olds[1..], works, k - 1);
    }
  }

  /** Replacement never leaves a gap: in every state of the call after the first, the new task stands,
      whatever the queue answers and whichever cancellations fail; and if the new task is refused,
      nothing is cancelled. */
  lemma {:induction false} ReplacementLeavesNoGap(s: Sys, kind: Kind, subject: Subject, d: string, olds: seq<Task>,
                                                  reaches: bool, works: Task -> bool)
    requires forall o :: o in olds ==> o.id < |s.tasks|
    ensures var t := NewTask(s, kind, subject, d);
      var trace := ReplaceTrace(s, t, olds, reaches, works);
      && trace[0] == s
      && trace[|trace| - 1] == Replace(s, t, olds, reaches, works)
      && (forall k :: 0 < k < |trace| ==> Stands(trace[k], t))
      && (CreateTask(s, t) == None ==> trace == [s])
  {
    hide CancelTask, KeyOf, Enqueue, FindByDeliveryId;
    var t := NewTask(s, kind, subject, d);
    if CreateTask(s, t).Some? {
      var s1 := CreateTask(s, t).value;
      assert Stands(s1, t);
      MarkStands(s1, t, reaches);
      var s2 := EnqueueAndMark(s1, t, reaches);
      CancelTraceEnds(s2, olds, works);
      var trace := ReplaceTrace(s, t, olds, reaches, works);
      forall k | 0 < k < |trace| ensures Stands(trace[k], t) {
        if k > 1 { CancelsSpareTheNew(s2, t, olds, works, k - 2); }
      }
    }
  }

  lemma {:induction false} MarkStands(s: Sys, t: Task, reaches: bool)
    requires Stands(s, t)
    ensures Stands(EnqueueAndMark(s, t, reaches), t)
  {
    hide KeyOf;
  }

  lemma {:induction false} CancelAllKeeps(s: Sys, olds: seq<Task>, works: Task -> bool)
    requires SysOk(s) && forall o :: o in olds ==> Fits(s, o)
    ensures Keeps(s, CancelAll(s, olds, works))
    decreases |olds|
  {
    hide SysOk, CancelTask, Fits, Follows;
    SelfFollows(s);
    if olds != [] {
      var s1 := CancelTask(s, olds[0], works(olds[0])).0;
      assert olds[0] in olds;
      CancelKeeps(s, olds[0], works(olds[0]));
      forall o | o in olds[1..] ensures Fits(s1, o) { FitsStays(s, s1, o); }
      CancelAllKeeps(s1, olds[1..], works);
      FollowsChain(s, s1, CancelAll(s, olds, works));
    }
  }

  /** A whole replacing call keeps the system in order. */
  lemma {:induction false} ReplaceKeeps(s: Sys, kind: Kind, subject: Subject, d: string, olds: seq<Task>, reaches: bool,
                                        works: Task -> bool)
    requires SysOk(s) && d != "" && forall o :: o in olds ==> Fits(s, o)
    ensures Keeps(s, Replace(s, NewTask(s, kind, subject, d), olds, reaches, works))
  {
    hide SysOk, CancelAll, CreateTask, Fits, Follows;
    SelfFollows(s);
    var t := NewTask(s, kind, subject, d);
    if CreateTask(s, t).Some? {
      var s1 := CreateTask(s, t).value;
      CreateKeeps(s, t);
      NewFits(s, t);
      SelfFollows(s1);
      if Enqueue(s1, t, reaches).1.Accepted? { MarkedKeeps(s1, t, reaches); } else { EnqueueKeeps(s1, t, reaches); }
      var s2 := EnqueueAndMark(s1, t, reaches);
      FollowsChain(s, s1, s2);
      forall o | o in olds ensures Fits(s2, o) { FitsStays(s, s2, o); }
      CancelAllKeeps(s2, olds, works);
      FollowsChain(s, s2, CancelAll(s2, olds, works));
    }
  }

  lemma {:induction false} NewFits(s: Sys, t: Task)
    requires CreateTask(s, t).Some? && t.id == |s.tasks| && t.asynqId == ""
    ensures Fits(CreateTask(s, t).value, t)
  {}

  lemma {:induction false} SelectedAreRows(s: Sys, p: Task -> bool)
    requires RowsOk(s)
    ensures forall t :: t in Select(s.tasks, p) ==> t.id < |s.tasks| && s.tasks[t.id] == t
    ensures Distinct(Select(s.tasks, p))
  {
    SelectedAreDistinct(s.tasks, p);
  }

  /** All four paths list rows that were there before, so none of them leaves a gap. */
  lemma {:induction false} ListsAreOld(s: Sys, repo: string, pr: int, issue: int, target: string, kind: Kind,
      view: SessionView)
    requires RowsOk(s)
    ensures forall o :: o in ReviewReplaces(s, repo, pr, view) ==> o.id < |s.tasks| && s.tasks[o.id] == o
    ensures forall o :: o in IssueReplaces(s, repo, issue, kind) ==> o.id < |s.tasks| && s.tasks[o.id] == o
    ensures forall o :: o in ActiveTasksByModule(s, repo, target, kind) ==> o.id < |s.tasks| && s.tasks[o.id] == o
  {
    hide Select;
    forall p: Task -> bool ensures forall t :: t in Select(s.tasks, p) ==> t.id < |s.tasks| && s.tasks[t.id] == t {
      SelectedAreRows(s, p);
    }
  }
}
