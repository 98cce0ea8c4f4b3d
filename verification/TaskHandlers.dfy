/** The task store, the queue, the enqueue handler, the processor and the recovery loop as objects that
    change in place, each method proved to do what its function in TaskModel or TaskReplacement says. */
module TaskHandlers {
  import opened Wrappers
  import opened TaskModel
  import opened TaskProtocol
  import opened TaskLaws
  import opened TaskReplacement
  import opened TaskSplit

  class TaskStore {
    var tasks: seq<Task>

    constructor ()
      ensures tasks == []
    {
      tasks := [];
    }

    method FindByDeliveryID(deliveryId: string, kind: Kind) returns (r: Option<Task>)
      ensures r == if deliveryId == "" then None else RowFor(tasks, deliveryId, kind)
    {
      if deliveryId == "" { return None; }
      r := RowFor(tasks, deliveryId, kind);
    }

    method CreateTask(t: Task) returns (ok: bool)
      modifies this
      ensures ok <==> t.deliveryId == "" || RowFor(old(tasks), t.deliveryId, t.kind) == None
      ensures tasks == if ok then old(tasks) + [t] else old(tasks)
    {
      var existing := FindByDeliveryID(t.deliveryId, t.kind);
      if existing.Some? { return false; }
      tasks := tasks + [t];
      return true;
    }

    method UpdateTask(t: Task) returns (ok: bool)
      modifies this
      ensures ok <==> t.id < |old(tasks)|
      ensures tasks == if ok then old(tasks)[t.id := t] else old(tasks)
    {
      ok := t.id < |tasks|;
      if ok { tasks := tasks[t.id := t]; }
    }
  }

  /** The queue behind the client; `works` says whether a call reaches it. */
  class Queue {
    var live: map<string, Job>
    var processing: map<string, Task>

    constructor ()
      ensures live == map[] && processing == map[]
    {
      live, processing := map[], map[];
    }

    method Enqueue(t: Task, works: bool) returns (answer: Answer)
      modifies this`live
      ensures answer == if !works then Unreachable else if KeyOf(t) in old(live) then Conflict else Accepted
      ensures live == if answer.Accepted? then old(live)[KeyOf(t) := Job(t.deliveryId, t.kind)] else old(live)
    {
      if !works { return Unreachable; }
      if KeyOf(t) in live { return Conflict; }
      live := live[KeyOf(t) := Job(t.deliveryId, t.kind)];
      return Accepted;
    }

    method Delete(asynqId: string, works: bool) returns (ok: bool)
      modifies this`live
      ensures ok <==> works && asynqId in old(live) && asynqId !in processing
      ensures live == if ok then old(live) - {asynqId} else old(live)
    {
      ok := works && asynqId in live && asynqId !in processing;
      if ok { live := live - {asynqId}; }
    }

    method Leave(asynqId: string, kept: bool)
      modifies this
      ensures processing == old(processing) - {asynqId}
      ensures live == if kept then old(live) else old(live) - {asynqId}
    {
      processing := processing - {asynqId};
      if !kept { live := live - {asynqId}; }
    }
  }

  ghost function SysOf(store: TaskStore, queue: Queue): Sys
    reads store, queue
  {
    Sys(store.tasks, queue.live, queue.processing)
  }

  function CancelFailures(s: Sys, olds: seq<Task>, works: Task -> bool): nat
    decreases |olds|
  {
    if olds == [] then 0
    else
      var (s1, ok) := CancelTask(s, olds[0], works(olds[0]));
      CancelFailures(s1, olds[1..], works) + if ok then 0 else 1
  }

  // ---- The enqueue handler -------------------------------------------------------------------

  class EnqueueHandler {
    const store: TaskStore
    const queue: Queue

    constructor (store: TaskStore, queue: Queue)
      ensures this.store == store && this.queue == queue
    {
      this.store, this.queue := store, queue;
    }

    ghost function Contents(): Sys
      reads this, store, queue
    {
      SysOf(store, queue)
    }

    /** Persist first, enqueue second; false only if the record was refused. */
    method EnqueueTask(kind: Kind, subject: Subject, deliveryId: string, works: bool) returns (ok: bool)
      modifies store, queue
      ensures var t := NewTask(old(Contents()), kind, subject, deliveryId);
        match CreateTask(old(Contents()), t)
        case None => !ok && Contents() == old(Contents())
        case Some(s1) => ok && Contents() == EnqueueAndMark(s1, t, works)
    {
      hide BuildAsynqTaskId;
      var record := Task(|store.tasks|, kind, Pending, "", subject, deliveryId, MAX_RETRY);
      ok := store.CreateTask(record);
      if !ok { return; }
      var answer := queue.Enqueue(record, works);
      if answer.Accepted? {
        record := record.(asynqId := KeyOf(record), status := Queued);
        var _ := store.UpdateTask(record);
      }
    }

    method CancelOne(task: Task, works: bool) returns (ok: bool)
      modifies store, queue
      ensures (Contents(), ok) == CancelTask(old(Contents()), task, works)
    {
      if task.asynqId != "" {
        match task.status
        case Pending | Queued =>
          var deleted := queue.Delete(task.asynqId, works);
          if !deleted { return false; }
        case Running =>
          if !works { return false; }
        case _ =>
      }
      var _ := store.UpdateTask(task.(status := Cancelled));
      return true;
    }

    method CancelTasks(tasks: seq<Task>, works: Task -> bool) returns (failCount: nat)
      modifies store, queue
      ensures Contents() == CancelAll(old(Contents()), tasks, works)
      ensures failCount == CancelFailures(old(Contents()), tasks, works)
    {
      failCount := 0;
      for i := 0 to |tasks|
        invariant failCount + CancelFailures(Contents(), tasks[i..], works)
          == CancelFailures(old(Contents()), tasks, works)
        invariant CancelAll(Contents(), tasks[i..], works) == CancelAll(old(Contents()), tasks, works)
      {
        hide CancelTask;
        assert tasks[i..][0] == tasks[i] && tasks[i..][1..] == tasks[i + 1..];
        var ok := CancelOne(tasks[i], works(tasks[i]));
        if !ok { failCount := failCount + 1; }
      }
    }

    /** The four replacing paths differ in what they look up and when. */
    method HandleReviewPullRequest(subject: Subject, deliveryId: string, view: SessionView, reaches: bool,
                                   works: Task -> bool) returns (ok: bool)
      modifies store, queue
      ensures Contents() ==
        Replace(old(Contents()), NewTask(old(Contents()), ReviewPR, subject, deliveryId),
                ReviewReplaces(old(Contents()), subject.repo, subject.pr, view), reaches, works)
      ensures ok
    {
      hide EnqueueAndMark, CancelAll;
      var existing := store.FindByDeliveryID(deliveryId, ReviewPR);
      if existing.Some? { return true; }
      var active := ActivePRTasks(Sys(store.tasks, queue.live, queue.processing), subject.repo, subject.pr, ReviewPR);
      ghost var before := Contents();
      ok := EnqueueTask(ReviewPR, subject, deliveryId, reaches);
      if !ok { return; }
      if view.UserPush? {
        var fixes := ActivePRTasksMulti(Sys(store.tasks, queue.live, queue.processing), subject.repo, subject.pr,
          {FixReview});
        NewReviewIsNoFix(before, subject, deliveryId, reaches);
        active := active + fixes;
      }
      var _ := CancelTasks(active, works);
    }

    method HandleIssueLabel(kind: Kind, subject: Subject, deliveryId: string, reaches: bool, works: Task -> bool)
      returns (ok: bool)
      requires SysOk(Contents())
      modifies store, queue
      ensures Contents() ==
        Replace(old(Contents()), NewTask(old(Contents()), kind, subject, deliveryId),
                IssueReplaces(old(Contents()), subject.repo, subject.issue, kind), reaches, works)
      ensures ok
    {
      hide EnqueueAndMark, CancelAll, SysOk;
      var existing := store.FindByDeliveryID(deliveryId, kind);
      if existing.Some? { return true; }
      var s := Sys(store.tasks, queue.live, queue.processing);
      var active := ActiveIssueTasks(s, subject.repo, subject.issue, kind);
      if kind.FixIssue? {
        var analyses := ActiveIssueTasks(s, subject.repo, subject.issue, AnalyzeIssue);
        IssueListsAreApart(s, subject.repo, subject.issue);
        active := MergeById(active, analyses);
      }
      ok := EnqueueTask(kind, subject, deliveryId, reaches);
      if !ok { return; }
      var _ := CancelTasks(active, works);
    }

    method EnqueueSingleE2E(subject: Subject, deliveryId: string, reaches: bool, works: Task -> bool) returns (ok: bool)
      modifies store, queue
      ensures Contents() ==
        Replace(old(Contents()), NewTask(old(Contents()), RunE2E, subject, deliveryId),
                ActiveTasksByModule(old(Contents()), subject.repo, subject.target, RunE2E), reaches, works)
      ensures ok <==> FindByDeliveryId(old(Contents()), deliveryId, RunE2E) == None
    {
      hide EnqueueAndMark, CancelAll;
      var active := ActiveTasksByModule(Sys(store.tasks, queue.live, queue.processing), subject.repo, subject.target,
        RunE2E);
      ok := EnqueueTask(RunE2E, subject, deliveryId, reaches);
      if !ok { return; }
      var _ := CancelTasks(active, works);
    }

    method CleanupAllActiveE2ETasks(repo: string, works: Task -> bool)
      modifies store, queue
      ensures Contents() == CleanupAll(old(Contents()), repo, works)
    {
      var modules := ActiveModules(Sys(store.tasks, queue.live, queue.processing), repo, RunE2E);
      for i := 0 to |modules|
        invariant Contents() == Cleanup(old(Contents()), repo, modules[..i], works)
      {
        hide CancelAll, CancelFailures;
        assert modules[..i + 1][..i] == modules[..i];
        var tasks := ActiveTasksByModule(Sys(store.tasks, queue.live, queue.processing), repo, modules[i], RunE2E);
        var _ := CancelTasks(tasks, works);
      }
      assert modules[..|modules|] == modules;
    }

    /** The full split: clean up, then one call per scanned module; the ids of the records that were
        accepted, none of them being an error. */
    method EnqueueManualE2E(repo: string, parts: seq<Part>, reaches: bool, works: Task -> bool)
      returns (ids: seq<nat>, ok: bool)
      modifies store, queue
      ensures (Contents(), ids) == FullSplit(old(Contents()), repo, parts, reaches, works)
      ensures ok <==> ids != []
    {
      hide CleanupAll, EnqueueParts;
      CleanupAllActiveE2ETasks(repo, works);
      ghost var cleaned := Contents();
      ids := [];
      NoParts(cleaned, repo, reaches, works);
      for i := 0 to |parts|
        invariant (Contents(), ids) == EnqueueParts(cleaned, repo, parts[..i], reaches, works)
      {
        hide Replace, FindByDeliveryId, EnqueueParts, ActiveTasksByModule;
        assert parts[..i + 1] == parts[..i] + [parts[i]];
        PartsStep(cleaned, repo, parts[..i], parts[i], reaches, works);
        var id := |store.tasks|;
        var accepted := EnqueueSingleE2E(Subject(repo, parts[i].target, 0, 0), parts[i].deliveryId, reaches, works);
        if accepted { ids := ids + [id]; }
      }
      assert parts[..|parts|] == parts;
      ok := ids != [];
    }

    /** An active task for the same document is left alone and its id returned; an ended one gives way
        to a rerun, which fails only if the rerun id is taken as well. */
    method EnqueueCodeFromDoc(subject: Subject, baseId: string, rerunId: string, reaches: bool, works: Task -> bool)
      returns (id: Option<nat>)
      modifies store, queue
      ensures var s := old(Contents());
        match CodeDelivery(s, baseId, rerunId)
        case None => Contents() == s && id == Some(FindByDeliveryId(s, baseId, CodeFromDoc).value.id)
        case Some(d) =>
          && Contents() == Replace(s, NewTask(s, CodeFromDoc, subject, d),
                                   ActiveTasksByModule(s, subject.repo, subject.target, CodeFromDoc), reaches, works)
          && id == if FindByDeliveryId(s, d, CodeFromDoc) == None then Some(|s.tasks|) else None
    {
      hide EnqueueAndMark, CancelAll;
      var deliveryId := baseId;
      var existing := store.FindByDeliveryID(baseId, CodeFromDoc);
      if existing.Some? {
        if existing.value.status.IsActive() { return Some(existing.value.id); }
        deliveryId := rerunId;
      }
      var active := ActiveTasksByModule(Sys(store.tasks, queue.live, queue.processing), subject.repo, subject.target,
        CodeFromDoc);
      var newId := |store.tasks|;
      var ok := EnqueueTask(CodeFromDoc, subject, deliveryId, reaches);
      if !ok { return None; }
      var _ := CancelTasks(active, works);
      return Some(newId);
    }
  }

  /** Tasks of both lists, no id twice. */
  method MergeById(tasks: seq<Task>, more: seq<Task>) returns (merged: seq<Task>)
    ensures Distinct(tasks + more) ==> merged == tasks + more
    ensures Distinct(merged)
    ensures forall t :: t in tasks + more ==> exists u :: u in merged && u.id == t.id
    ensures forall u :: u in merged ==> u in tasks + more
  {
    merged := [];
    var all := tasks + more;
    var seen: set<nat> := {};
    for i := 0 to |all|
      invariant forall id :: id in seen <==> exists u :: u in merged && u.id == id
      invariant forall k :: 0 <= k < i ==> all[k].id in seen
      invariant forall u :: u in merged ==> u in all[..i]
      invariant Distinct(merged)
      invariant Distinct(all) ==> merged == all[..i]
    {
      assert all[..i + 1] == all[..i] + [all[i]];
      if all[i].id !in seen {
        seen := seen + {all[i].id};
        merged := merged + [all[i]];
      }
    }
    assert all[..|all|] == all;
  }

  lemma {:induction false} IssueListsAreApart(s: Sys, repo: string, issue: int)
    requires SysOk(s)
    ensures Distinct(ActiveIssueTasks(s, repo, issue, FixIssue) + ActiveIssueTasks(s, repo, issue, AnalyzeIssue))
  {
    hide Select;
    var p := (t: Task) => t.subject.repo == repo && t.subject.issue == issue && t.kind == FixIssue &&
      IsListed(t.status);
    var q := (t: Task) => t.subject.repo == repo && t.subject.issue == issue && t.kind == AnalyzeIssue &&
      IsListed(t.status);
    SelectedAreRows(s, p);
    SelectedAreRows(s, q);
    var a, b := Select(s.tasks, p), Select(s.tasks, q);
    assert a == ActiveIssueTasks(s, repo, issue, FixIssue) && b == ActiveIssueTasks(s, repo, issue, AnalyzeIssue);
    var c: seq<Task> := a + b;
    forall i, j | 0 <= i < j < |c| ensures c[i].id != c[j].id {
      if i < |a| && |a| <= j { assert a[i] in a && b[j - |a|] in b; }
    }
  }

  lemma {:induction false} NewReviewIsNoFix(s: Sys, subject: Subject, d: string, reaches: bool)
    requires CreateTask(s, NewTask(s, ReviewPR, subject, d)).Some?
    ensures var t := NewTask(s, ReviewPR, subject, d);
      var s2 := EnqueueAndMark(CreateTask(s, t).value, t, reaches);
      ActivePRTasksMulti(s2, subject.repo, subject.pr, {FixReview})
      == ActivePRTasksMulti(s, subject.repo, subject.pr, {FixReview})
  {
    hide FindByDeliveryId;
    var t := NewTask(s, ReviewPR, subject, d);
    var s2 := EnqueueAndMark(CreateTask(s, t).value, t, reaches);
    assert s2.tasks[..|s2.tasks| - 1] == s.tasks && s2.tasks[|s.tasks|].kind == ReviewPR;
  }

  // ---- The processor -------------------------------------------------------------------------

  /** The start of ProcessTask; what it returns is the record its handler goes on to work for. */
  method StartProcessing(store: TaskStore, queue: Queue, asynqId: string, kept: bool) returns (running: Option<Task>)
    modifies store, queue
    ensures SysOf(store, queue) == StartTask(old(SysOf(store, queue)), asynqId, kept)
    ensures running.Some? ==>
      asynqId in queue.processing && queue.processing[asynqId] == running.value && running.value.status.Running?
  {
    if asynqId !in queue.live || asynqId in queue.processing { return None; }
    var job := queue.live[asynqId];
    var record := store.FindByDeliveryID(job.deliveryId, job.kind);
    if record == None { return None; }
    if record.value.status.Cancelled? || (record.value.status.Succeeded? && record.value.kind.FixReview?) {
      queue.Leave(asynqId, kept);
      return None;
    }
    var t := record.value.(status := Running);
    var _ := store.UpdateTask(t);
    queue.processing := queue.processing[asynqId := t];
    return Some(t);
  }

  method FinishProcessing(store: TaskStore, queue: Queue, asynqId: string, o: Outcome, kept: bool)
    modifies store, queue
    ensures SysOf(store, queue) == FinishTask(old(SysOf(store, queue)), asynqId, o, kept)
  {
    if asynqId !in queue.processing { return; }
    var record := queue.processing[asynqId];
    match o {
      case Success => record := record.(status := Succeeded);
      case Failure => record := record.(status := Failed);
      case Retry => record := record.(status := Retrying);
      case Cancellation => record := record.(status := Cancelled);
    }
    var _ := store.UpdateTask(record);
    queue.Leave(asynqId, kept || o.Retry?);
  }

  // ---- Recovery and manual retry -------------------------------------------------------------

  class RecoveryLoop {
    const store: TaskStore
    const client: Queue
    var recoveryAttempts: map<nat, nat>

    constructor (store: TaskStore, client: Queue)
      ensures this.store == store && this.client == client && recoveryAttempts == map[]
    {
      this.store, this.client, recoveryAttempts := store, client, map[];
    }

    method RequeueOne(record: Task, works: bool)
      modifies this, store, client
      ensures (SysOf(store, client), recoveryAttempts) ==
        Requeue(old(SysOf(store, client)), old(recoveryAttempts), record, works)
    {
      hide BuildAsynqTaskId;
      var attempts := if record.id in recoveryAttempts then recoveryAttempts[record.id] else 0;
      if attempts >= record.maxRetry {
        var _ := store.UpdateTask(record.(status := Failed));
        recoveryAttempts := recoveryAttempts - {record.id};
        return;
      }
      var answer := client.Enqueue(record, works);
      if answer.Unreachable? { return; }
      var _ := store.UpdateTask(record.(asynqId := KeyOf(record), status := Queued));
      recoveryAttempts := recoveryAttempts[record.id := attempts + 1];
    }

    /** One pass: at most a batch of the orphans that were listed at its start. */
    method Recover(aged: Task -> bool, works: Task -> bool)
      modifies this, store, client
      ensures (SysOf(store, client), recoveryAttempts) ==
        RequeueAll(old(SysOf(store, client)), old(recoveryAttempts),
                   First(ListOrphans(old(SysOf(store, client)), aged), MAX_BATCH), works)
    {
      hide ListOrphans, Requeue;
      var orphans := ListOrphans(Sys(store.tasks, client.live, client.processing), aged);
      var i := 0;
      while i < |orphans| && i < MAX_BATCH
        invariant 0 <= i <= |orphans| && i <= MAX_BATCH
        invariant (SysOf(store, client), recoveryAttempts) ==
          RequeueAll(old(SysOf(store, client)), old(recoveryAttempts), orphans[..i], works)
      {
        assert orphans[..i + 1][..i] == orphans[..i];
        RequeueOne(orphans[i], works(orphans[i]));
        i := i + 1;
      }
      assert orphans[..i] == First(orphans, MAX_BATCH);
    }
  }

  method Retry(store: TaskStore, queue: Queue, id: nat, works: bool) returns (ok: bool)
    modifies store, queue
    ensures id >= |old(store.tasks)| ==> !ok && SysOf(store, queue) == old(SysOf(store, queue))
    ensures id < |old(store.tasks)| ==>
      match RetryTask(old(SysOf(store, queue)), old(store.tasks)[id], works)
      case None => !ok && SysOf(store, queue) == old(SysOf(store, queue))
      case Some(s) => ok && SysOf(store, queue) == s
  {
    hide BuildAsynqTaskId;
    if id >= |store.tasks| { return false; }
    var record := store.tasks[id];
    if record.status != Failed && record.status != Cancelled { return false; }
    var answer := queue.Enqueue(record, works);
    if answer.Unreachable? { return false; }
    record := record.(status := Queued, asynqId := KeyOf(record));
    ok := store.UpdateTask(record);
    return true;
  }
}
