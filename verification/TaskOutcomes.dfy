/** What single steps of the task lifecycle come to, written out over statuses, entries and rows
    (internal/queue/processor.go, processor_adapt.go, enqueue.go, recovery.go, retry.go). */
module TaskOutcomes {
  import opened Wrappers
  import opened TaskModel
  import opened TaskProtocol
  import opened TaskLaws
  import opened TaskReplacement
  import opened TaskPlaces

  // ---- Statuses ------------------------------------------------------------------------------

  /** Active is everything but succeeded, failed and cancelled; under way everything active but pending. */
  lemma StatusesAreDivided(st: Status)
    ensures st.IsActive() <==> st != Succeeded && st != Failed && st != Cancelled
    ensures st.IsUnderWay() <==> st == Queued || st == Running || st == Retrying
    ensures st.IsTerminal() <==> st == Succeeded || st == Failed || st == Cancelled
  {}

  /** In every run, a record that is queued, running or retrying has a live entry. */
  lemma {:induction false} WorkHasEntry(steps: seq<Step>, i: nat)
    requires i < |After(steps).sys.tasks|
    ensures var s := After(steps).sys;
      var st := s.tasks[i].status;
      st == Queued || st == Running || st == Retrying ==> KeyOf(s.tasks[i]) in s.queue
  {
    hide After, BuildAsynqTaskId;
    NobodyIsStranded(steps, i);
  }

  // ---- Enqueueing ----------------------------------------------------------------------------

  /** A delivery that is known changes nothing; any other one gets a row at the end, which is queued if the
      queue is reached and its id is not live, and pending otherwise. */
  lemma {:induction false} EnqueueExact(s: Sys, kind: Kind, subject: Subject, d: string, reaches: bool,
      olds: seq<Task>, works: Task -> bool)
    requires d != ""
    ensures var t := NewTask(s, kind, subject, d);
      var known := exists i :: 0 <= i < |s.tasks| && s.tasks[i].deliveryId == d && s.tasks[i].kind == kind;
      match CreateTask(s, t)
      case None => known && Replace(s, t, olds, reaches, works) == s
      case Some(s1) =>
        var s2 := EnqueueAndMark(s1, t, reaches);
        var id := d + ":" + KindName(kind);
        && !known && Replace(s, t, olds, reaches, works) == CancelAll(s2, olds, works)
        && |s2.tasks| == |s.tasks| + 1 && s2.tasks[..|s.tasks|] == s.tasks && s2.handlers == s.handlers
        && (if reaches && id !in s.queue then
              s2.tasks[|s.tasks|] == Task(|s.tasks|, kind, Queued, id, subject, d, 3) &&
              s2.queue == s.queue[id := Job(d, kind)]
            else
              s2.tasks[|s.tasks|] == Task(|s.tasks|, kind, Pending, "", subject, d, 3) && s2.queue == s.queue)
  {
    hide CancelAll, KindName;
    assert d + ":" + KindName(kind) == BuildAsynqTaskId(d, kind);
  }

  /** The names by which a queue id tells the types apart. */
  lemma QueueIds()
    ensures KindName(ReviewPR) == "review_pr" && KindName(AnalyzeIssue) == "analyze_issue"
    ensures KindName(FixIssue) == "fix_issue" && KindName(GenTests) == "gen_tests"
    ensures KindName(GenDailyReport) == "gen_daily_report" && KindName(RunE2E) == "run_e2e"
    ensures KindName(TriageE2E) == "triage_e2e" && KindName(FixReview) == "fix_review"
    ensures KindName(CodeFromDoc) == "code_from_doc"
  {}

  // ---- Cancelling ----------------------------------------------------------------------------

  /** Cancelling a row as it is.  A pending or queued one with an entry is cancelled exactly when the entry
      can be deleted, and then has none any more; a running one exactly when the queue is reached, and its
      handler goes on; a retrying one always, and its entry stays. */
  lemma {:induction false} CancelExact(s: Sys, i: nat, works: bool)
    requires SysOk(s) && i < |s.tasks|
    ensures var t := s.tasks[i];
      var (s', ok) := CancelTask(s, t, works);
      && (ok <==> t.asynqId == "" || match t.status
            case Pending => works && t.asynqId in s.queue && t.asynqId !in s.handlers
            case Queued => works && t.asynqId in s.queue && t.asynqId !in s.handlers
            case Running => works
            case _ => true)
      && (!ok ==> s' == s)
      && (ok ==> s'.tasks == s.tasks[i := t.(status := Cancelled)] && s'.handlers == s.handlers)
      && (ok ==>
            s'.queue == if t.asynqId != "" && (t.status == Pending || t.status == Queued)
                        then s.queue - {t.asynqId} else s.queue)
  {
    hide OneRowEach, EntriesOwned, HandlersOk, NoneStranded, BuildAsynqTaskId;
  }

  // ---- Starting and finishing ----------------------------------------------------------------

  /** An entry is not started while it is being processed.  A cancelled record and a fix_review that has
      succeeded are not run, and their entry goes or stays; any other record is set to running, with a
      handler that works on that copy. */
  lemma {:induction false} StartExact(s: Sys, i: nat, kept: bool)
    requires SysOk(s) && i < |s.tasks| && KeyOf(s.tasks[i]) in s.queue
    ensures var t, a := s.tasks[i], KeyOf(s.tasks[i]);
      var s' := StartTask(s, a, kept);
      if a in s.handlers then s' == s
      else if t.status == Cancelled || (t.status == Succeeded && t.kind == FixReview) then
        s'.tasks == s.tasks && s'.handlers == s.handlers && s'.queue == if kept then s.queue else s.queue - {a}
      else
        var running := t.(status := Running);
        s'.tasks == s.tasks[i := running] && s'.handlers == s.handlers[a := running] && s'.queue == s.queue
  {
    hide NoneStranded, BuildAsynqTaskId, FindByDeliveryId;
    var a := KeyOf(s.tasks[i]);
    OwnerIsFound(s, a);
    var t := FindByDeliveryId(s, s.queue[a].deliveryId, s.queue[a].kind).value;
    OneOwner(s, i, t.id);
    assert s.handlers - {a} == s.handlers || a in s.handlers;
  }

  /** Where a handler leaves the row it worked on, its entry and itself. */
  ghost predicate Finished(s: Sys, s': Sys, a: string, status: Status, entryStays: bool)
    requires a in s.handlers
  {
    var copy := s.handlers[a];
    && copy.id < |s.tasks| && s'.tasks == s.tasks[copy.id := copy.(status := status)]
    && s'.handlers == s.handlers - {a} && s'.queue == if entryStays then s.queue else s.queue - {a}
  }

  /** After a success the record has succeeded and cannot be retried.  After a failure it has failed, and a
      manual retry that reaches the queue takes it back.  After a retry it is retrying with its entry live.
      After a cancellation it is cancelled, and no later start runs it. */
  lemma {:induction false} OutcomeExact(s: Sys, a: string, o: Outcome, kept: bool)
    requires SysOk(s) && a in s.handlers
    ensures var s' := FinishTask(s, a, o, kept);
      var id := s.handlers[a].id;
      match o
      case Success =>
        Finished(s, s', a, Succeeded, kept) && forall works :: RetryTask(s', s'.tasks[id], works) == None
      case Failure =>
        && Finished(s, s', a, Failed, kept) && RetryTask(s', s'.tasks[id], true).Some?
        && RetryTask(s', s'.tasks[id], true).value.tasks[id].status == Queued
      case Retry => Finished(s, s', a, Retrying, true) && a in s'.queue && KeyOf(s'.tasks[id]) == a
      case Cancellation =>
        && Finished(s, s', a, Cancelled, kept)
        && forall kept2 ::
             StartTask(s', a, kept2).tasks == s'.tasks && a !in StartTask(s', a, kept2).handlers
  {
    hide RowsOk, OneRowEach, EntriesOwned, NoneStranded, BuildAsynqTaskId;
    FinishKeeps(s, a, o, kept);
    var s' := FinishTask(s, a, o, kept);
    var id := s.handlers[a].id;
    assert KeyOf(s'.tasks[id]) == a;
    if o == Cancellation && a in s'.queue {
      forall kept2 ensures StartTask(s', a, kept2).tasks == s'.tasks && a !in StartTask(s', a, kept2).handlers {
        StartExact(s', id, kept2);
      }
    }
  }

  // ---- Recovery and manual retry -------------------------------------------------------------

  /** Requeueing a listed record: it fails and is forgotten once it was requeued as often as it may be
      retried; an unreachable queue changes nothing; otherwise it is queued, its entry is live, and the
      attempt is counted. */
  lemma {:induction false} RequeueExact(s: Sys, attempts: Attempts, t: Task, works: bool)
    requires t.id < |s.tasks|
    ensures var (s', attempts') := Requeue(s, attempts, t, works);
      var n := if t.id in attempts then attempts[t.id] else 0;
      if n >= t.maxRetry then
        s' == s.(tasks := s.tasks[t.id := t.(status := Failed)]) && attempts' == attempts - {t.id}
      else if !works then s' == s && attempts' == attempts
      else
        && s'.tasks == s.tasks[t.id := t.(status := Queued, asynqId := KeyOf(t))]
        && s'.queue == (if KeyOf(t) in s.queue then s.queue else s.queue[KeyOf(t) := Job(t.deliveryId, t.kind)])
        && s'.handlers == s.handlers && attempts' == attempts[t.id := n + 1]
  {
    hide BuildAsynqTaskId;
  }

  /** A record that gets lost again and again: after three requeues since the process started, the fourth
      gives it up. */
  lemma {:induction false} GivenUpAfterThree(s: Sys, t: Task)
    requires t.id < |s.tasks| && t.maxRetry == 3
    ensures var (s1, a1) := Requeue(s, map[], t, true);
      var (s2, a2) := Requeue(s1, a1, t, true);
      var (s3, a3) := Requeue(s2, a2, t, true);
      var (s4, a4) := Requeue(s3, a3, t, true);
      && s3.tasks[t.id].status == Queued && a3 == map[t.id := 3]
      && s4.tasks[t.id].status == Failed && a4 == map[]
  {
    hide BuildAsynqTaskId, Requeue;
    RequeueExact(s, map[], t, true);
    var (s1, a1) := Requeue(s, map[], t, true);
    RequeueExact(s1, a1, t, true);
    var (s2, a2) := Requeue(s1, a1, t, true);
    RequeueExact(s2, a2, t, true);
    var (s3, a3) := Requeue(s2, a2, t, true);
    RequeueExact(s3, a3, t, true);
  }

  /** A pass takes a hundred of the records that wait, out of a list of at most a thousand. */
  lemma {:induction false} BatchesOfHundred(s: Sys, attempts: Attempts, aged: Task -> bool, n: nat)
    requires SysOk(s)
    ensures var waiting := Select(s.tasks, (t: Task) => t.status == Pending && aged(t));
      ListOrphans(s, aged) == if |waiting| <= 1000 then waiting else waiting[..1000]
    ensures var waiting := Select(s.tasks, (t: Task) => t.status == Pending && aged(t));
      var left := Select(Passes(s, attempts, aged, n).0.tasks, (t: Task) => t.status == Pending && aged(t));
      left == if |waiting| <= 100 * n then [] else waiting[100 * n..]
  {
    hide SysOk, Passes, Select;
    PassesDrain(s, attempts, aged, n);
    SelectSame(s.tasks, Waiting(aged), (t: Task) => t.status == Pending && aged(t));
    SelectSame(Passes(s, attempts, aged, n).0.tasks, Waiting(aged), (t: Task) => t.status == Pending && aged(t));
  }

  lemma {:induction false} SelectSame(tasks: seq<Task>, p: Task -> bool, q: Task -> bool)
    requires forall t :: p(t) == q(t)
    ensures Select(tasks, p) == Select(tasks, q)
  {
    if tasks != [] { SelectSame(tasks[..|tasks| - 1], p, q); }
  }

  /** A manual retry takes a failed or cancelled row when the queue is reached, and no other; an entry that
      is still live is kept. */
  lemma {:induction false} RetryRowExact(s: Sys, i: nat, works: bool)
    requires SysOk(s) && i < |s.tasks|
    ensures var t := s.tasks[i];
      var a := KeyOf(t);
      match RetryTask(s, t, works)
      case None => !works || (t.status != Failed && t.status != Cancelled)
      case Some(s') =>
        && works && (t.status == Failed || t.status == Cancelled)
        && s'.tasks == s.tasks[i := t.(status := Queued, asynqId := a)] && s'.handlers == s.handlers
        && s'.queue == if a in s.queue then s.queue else s.queue[a := Job(t.deliveryId, t.kind)]
  {
    hide OneRowEach, EntriesOwned, HandlersOk, NoneStranded, BuildAsynqTaskId;
  }

  // ---- Which tasks a call replaces -----------------------------------------------------------

  predicate WaitsOrRuns(t: Task) { t.status == Pending || t.status == Queued || t.status == Running }

  predicate IsEnded(t: Task) { t.status == Succeeded || t.status == Failed || t.status == Cancelled }

  /** A review replaces the reviews of its pull request that are pending, queued or running, and after a
      user's push also every fix_review of it that has not ended. */
  lemma {:induction false} ReviewReplacesExactly(s: Sys, repo: string, pr: int, view: SessionView, t: Task)
    ensures t in ReviewReplaces(s, repo, pr, view) <==>
      t in s.tasks && t.subject.repo == repo && t.subject.pr == pr &&
      ((t.kind == ReviewPR && WaitsOrRuns(t)) || (view == UserPush && t.kind == FixReview && !IsEnded(t)))
  {
    hide Select;
    assert t in ActivePRTasks(s, repo, pr, ReviewPR) <==>
      t in s.tasks && t.subject.repo == repo && t.subject.pr == pr && t.kind == ReviewPR && WaitsOrRuns(t);
    assert t in ActivePRTasksMulti(s, repo, pr, {FixReview}) <==>
      t in s.tasks && t.subject.repo == repo && t.subject.pr == pr && t.kind == FixReview && !IsEnded(t);
  }

  /** A fix replaces the fixes and the analyses of its issue that are pending, queued or running; an analysis
      replaces only analyses. */
  lemma {:induction false} IssueReplacesExactly(s: Sys, repo: string, issue: int, t: Task)
    ensures t in IssueReplaces(s, repo, issue, FixIssue) <==>
      t in s.tasks && t.subject.repo == repo && t.subject.issue == issue && WaitsOrRuns(t) &&
      (t.kind == FixIssue || t.kind == AnalyzeIssue)
    ensures t in IssueReplaces(s, repo, issue, AnalyzeIssue) <==>
      t in s.tasks && t.subject.repo == repo && t.subject.issue == issue && WaitsOrRuns(t) && t.kind == AnalyzeIssue
  {
    hide Select;
    forall kind: Kind ensures t in ActiveIssueTasks(s, repo, issue, kind) <==>
      t in s.tasks && t.subject.repo == repo && t.subject.issue == issue && t.kind == kind && WaitsOrRuns(t) {}
  }

  /** The other calls replace what has not ended for the same module or branch. */
  lemma {:induction false} ModuleReplacesExactly(s: Sys, repo: string, target: string, kind: Kind, t: Task)
    ensures t in ActiveTasksByModule(s, repo, target, kind) <==>
      t in s.tasks && t.subject.repo == repo && t.subject.target == target && t.kind == kind && !IsEnded(t)
  {
    hide Select;
  }

  /** code_from_doc: the base id is asked for when no task has it, none while that task has not ended, and
      the rerun id after it ended. */
  lemma {:induction false} CodeDeliveryExact(s: Sys, baseId: string, rerunId: string)
    requires SysOk(s) && baseId != ""
    ensures match CodeDelivery(s, baseId, rerunId)
      case None => exists i :: 0 <= i < |s.tasks| && IsFor(s.tasks[i], baseId) && !IsEnded(s.tasks[i])
      case Some(d) =>
        if exists i :: 0 <= i < |s.tasks| && IsFor(s.tasks[i], baseId)
        then d == rerunId && forall i :: 0 <= i < |s.tasks| && IsFor(s.tasks[i], baseId) ==> IsEnded(s.tasks[i])
        else d == baseId
  {
    hide RowsOk, EntriesOwned, HandlersOk, NoneStranded;
    var r := FindByDeliveryId(s, baseId, CodeFromDoc);
    if r.Some? {
      var j :| 0 <= j < |s.tasks| && s.tasks[j] == r.value;
      assert IsFor(s.tasks[j], baseId);
      assert forall i :: 0 <= i < |s.tasks| && IsFor(s.tasks[i], baseId) ==> i == j;
    }
  }

  predicate IsFor(t: Task, d: string) { t.deliveryId == d && t.kind == CodeFromDoc }
}
