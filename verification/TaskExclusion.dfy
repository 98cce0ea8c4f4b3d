/** Process conditions under which every move is allowed, so that at most one code_from_doc task per
    repository and branch and one run_e2e task per repository and module is active: calls are not
    interrupted, cancellations succeed and end the handler, a handler that succeeds or fails takes its
    entry out of the queue, and recovery and manual retries keep out of the way of active tasks
    (internal/queue/enqueue.go, recovery.go, retry.go). */
module TaskExclusion {
  import opened Wrappers
  import opened TaskModel
  import opened TaskProtocol
  import opened TaskLaws
  import opened TaskReplacement
  import opened TaskPlaces

  // ---- Quiet steps ---------------------------------------------------------------------------

  /** The handler that a cancellation reaches ends and writes its own copy as cancelled. */
  function EndHandler(s: Sys, t: Task, kept: bool): Sys {
    if t.asynqId != "" && t.asynqId in s.handlers then FinishTask(s, t.asynqId, Cancellation, kept) else s
  }

  function EndHandlers(s: Sys, olds: seq<Task>, kept: bool): Sys
    decreases |olds|
  {
    if olds == [] then s else EndHandlers(EndHandler(s, olds[0], kept), olds[1..], kept)
  }

  /** A cancellation that succeeds and ends the handler. */
  function QuietCancel(s: Sys, t: Task, kept: bool): Sys { EndHandler(CancelTask(s, t, true).0, t, kept) }

  /** A whole replacing call whose cancellations reach the queue; the handlers they reach end. */
  function QuietReplace(s: Sys, kind: Kind, subject: Subject, d: string, reaches: bool, kept: bool): Sys {
    var olds := ActiveTasksByModule(s, subject.repo, subject.target, kind);
    var t := NewTask(s, kind, subject, d);
    if CreateTask(s, t) == None then s else EndHandlers(Replace(s, t, olds, reaches, _ => true), olds, kept)
  }

  function CodeDeliveryId(repo: string, branch: string, docHash: string): string {
    "manual:code_from_doc:" + repo + ":" + branch + ":" + docHash
  }

  function EnqueueCodeFromDoc(s: Sys, repo: string, branch: string, docHash: string, suffix: string, reaches: bool,
                              kept: bool): Sys
  {
    var d := CodeDeliveryId(repo, branch, docHash);
    match CodeDelivery(s, d, d + ":rerun:" + suffix)
    case None => s
    case Some(id) => QuietReplace(s, CodeFromDoc, Subject(repo, branch, 0, 0), id, reaches, kept)
  }

  datatype QuietStep =
    | Code(repo: string, branch: string, docHash: string, suffix: string, reaches: bool, kept: bool)
    | E2E(repo: string, target: string, deliveryId: string, reaches: bool, kept: bool)
    | Other(kind: Kind, subject: Subject, deliveryId: string, reaches: bool)
    | CancelOne(id: nat, kept: bool)
    | Begin(asynqId: string, kept: bool)
    | End(asynqId: string, outcome: Outcome)
    | Crash(asynqId: string)
    | RecoverOne(id: nat, works: bool)
    | RetryOne(id: nat, works: bool)
    | Reboot

  /** The copy of a record that a recovery pass listed while it was pending. */
  function Listed(t: Task): Task { t.(status := Pending, asynqId := "") }

  /** When the listed copy of a record may still be requeued: the record is still pending; or no handler
      is at work on it, and the copy would neither come to stand beside another active task nor be given
      up while its entry is live. */
  predicate MayRequeue(s: Sys, attempts: Attempts, t: Task) {
    t.status.Pending? ||
    (KeyOf(t) !in s.handlers &&
     if AttemptsOf(attempts, t.id) >= t.maxRetry then KeyOf(t) !in s.queue else !Crowds(s, InQueue(Listed(t))))
  }

  datatype QuietState = QuietState(sys: Sys, attempts: Attempts)

  function QuietNext(st: QuietState, step: QuietStep): QuietState {
    var s := st.sys;
    match step
    case Code(repo, branch, docHash, suffix, reaches, kept) =>
      st.(sys := EnqueueCodeFromDoc(s, repo, branch, docHash, suffix, reaches, kept))
    case E2E(repo, target, d, reaches, kept) =>
      if d == "" then st else st.(sys := QuietReplace(s, RunE2E, Subject(repo, target, 0, 0), d, reaches, kept))
    case Other(kind, subject, d, reaches) =>
      if d == "" || Exclusive(kind) then st
      else
        var t := NewTask(s, kind, subject, d);
        var created := CreateTask(s, t);
        if created.Some? then st.(sys := EnqueueAndMark(created.value, t, reaches)) else st
    case CancelOne(id, kept) =>
      if id < |s.tasks| && s.tasks[id].status.IsActive() then st.(sys := QuietCancel(s, s.tasks[id], kept)) else st
    case Begin(a, kept) => st.(sys := StartTask(s, a, kept))
    case End(a, o) => st.(sys := FinishTask(s, a, o, false))
    case Crash(a) => st.(sys := s.(handlers := s.handlers - {a}))
    case RecoverOne(id, works) =>
      if id < |s.tasks| && MayRequeue(s, st.attempts, s.tasks[id]) then
        var (s', attempts') := Requeue(s, st.attempts, Listed(s.tasks[id]), works);
        QuietState(s', attempts')
      else st
    case RetryOne(id, works) =>
      if id < |s.tasks| && !Crowds(s, InQueue(s.tasks[id])) then
        var r := RetryTask(s, s.tasks[id], works);
        if r.Some? then st.(sys := r.value) else st
      else st
    case Reboot => QuietState(s.(handlers := map[]), map[])
  }

  const QUIET_INIT := QuietState(Sys([], map[], map[]), map[])

  function QuietAfter(steps: seq<QuietStep>): QuietState {
    if steps == [] then QUIET_INIT else QuietNext(QuietAfter(steps[..|steps| - 1]), steps[|steps| - 1])
  }

  // ---- What quiet runs keep ------------------------------------------------------------------

  /** A record's status agrees with the queue. */
  ghost predicate Agrees(s: Sys, t: Task) {
    && (t.status.Pending? ==> t.asynqId == "" && KeyOf(t) !in s.queue)
    && (t.status.IsUnderWay() ==> t.asynqId == KeyOf(t))
    && (t.status.Succeeded? || t.status.Failed? ==> KeyOf(t) !in s.queue)
    && (KeyOf(t) in s.handlers ==> t.status.Running? && s.handlers[KeyOf(t)] == t)
  }

  ghost predicate Tidy(s: Sys) { SysOk(s) && forall i :: 0 <= i < |s.tasks| ==> Agrees(s, s.tasks[i]) }

  ghost predicate Quiet(s: Sys) { Tidy(s) && OneActiveEach(s) }

  /** No record comes to life. */
  ghost predicate NoneRevived(s: Sys, s': Sys) {
    |s'.tasks| == |s.tasks| && Follows(s, s') &&
    forall i :: 0 <= i < |s.tasks| && s'.tasks[i].status.IsActive() ==> s.tasks[i].status.IsActive()
  }

  lemma {:induction false} OneActiveStays(s: Sys, s': Sys)
    requires OneActiveEach(s) && NoneRevived(s, s')
    ensures OneActiveEach(s')
  {
    forall i, j | 0 <= i < j < |s'.tasks| && s'.tasks[i].status.IsActive() && s'.tasks[j].status.IsActive()
      ensures !(SamePlace(s'.tasks[i], s'.tasks[j]) && Exclusive(s'.tasks[i].kind))
    {
      assert s.tasks[i].status.IsActive() && s.tasks[j].status.IsActive();
    }
  }

  /** The rows but one are untouched, and so are their entries and handlers. */
  ghost predicate OnlyRow(s: Sys, s': Sys, id: nat) {
    && |s'.tasks| == |s.tasks| && id < |s.tasks|
    && (forall i :: 0 <= i < |s.tasks| && i != id ==> s'.tasks[i] == s.tasks[i])
    && (forall a :: a != KeyOf(s.tasks[id]) ==>
          (a in s'.queue <==> a in s.queue) && (a in s'.handlers <==> a in s.handlers) &&
          (a in s.handlers ==> s'.handlers[a] == s.handlers[a]))
  }

  lemma {:induction false} TidyByRow(s: Sys, s': Sys, id: nat)
    requires Tidy(s) && SysOk(s') && OnlyRow(s, s', id) && Agrees(s', s'.tasks[id])
    ensures Tidy(s')
  {
    hide BuildAsynqTaskId;
    forall i | 0 <= i < |s'.tasks| ensures Agrees(s', s'.tasks[i]) {
      if i != id {
        OneOwner(s, i, id);
        assert Agrees(s, s.tasks[i]);
      }
    }
  }

  lemma {:induction false} KeyIsNotEmpty(t: Task)
    requires t.deliveryId != ""
    ensures KeyOf(t) != ""
  {}

  lemma {:induction false} CancelIsQuiet(s: Sys, i: nat, kept: bool)
    requires Tidy(s) && i < |s.tasks| && s.tasks[i].status.IsActive()
    ensures var s' := QuietCancel(s, s.tasks[i], kept);
      Tidy(s') && NoneRevived(s, s') && OnlyRow(s, s', i) && s'.tasks[i] == s.tasks[i].(status := Cancelled)
  {
    hide BuildAsynqTaskId, OneRowEach, EntriesOwned, HandlersOk;
    var t := s.tasks[i];
    assert Agrees(s, t) && Fits(s, t);
    KeyIsNotEmpty(t);
    var s1 := CancelTask(s, t, true).0;
    CancelKeeps(s, t, true);
    assert s1.tasks[i] == t.(status := Cancelled);
    if t.asynqId != "" && t.asynqId in s1.handlers { FinishKeeps(s1, t.asynqId, Cancellation, kept); }
    TidyByRow(s, QuietCancel(s, t, kept), i);
  }

  lemma {:induction false} CreateIsQuiet(s: Sys, t: Task)
    requires Tidy(s) && CreateTask(s, t).Some? && t.id == |s.tasks| && t.status.Pending? && t.deliveryId != "" &&
      t.asynqId == ""
    ensures var s' := CreateTask(s, t).value;
      Tidy(s') && s'.tasks == s.tasks + [t]
  {
    hide BuildAsynqTaskId, RowsOk, OneRowEach, EntriesOwned, NoneStranded;
    CreateKeeps(s, t);
    var s' := CreateTask(s, t).value;
    forall i | 0 <= i < |s'.tasks| ensures Agrees(s', s'.tasks[i]) {
      if i < |s.tasks| { assert Agrees(s, s.tasks[i]); }
    }
  }

  lemma {:induction false} MarkIsQuiet(s: Sys, i: nat, reaches: bool)
    requires Tidy(s) && i < |s.tasks| && s.tasks[i].status.Pending?
    ensures var s' := EnqueueAndMark(s, s.tasks[i], reaches);
      Tidy(s') && NoneRevived(s, s') && |s'.tasks| == |s.tasks|
    ensures var s' := EnqueueAndMark(s, s.tasks[i], reaches);
      forall j :: 0 <= j < |s.tasks| && j != i ==> s'.tasks[j] == s.tasks[j]
  {
    hide BuildAsynqTaskId, OneRowEach, EntriesOwned, NoneStranded, HandlersOk;
    var t := s.tasks[i];
    assert Agrees(s, t) && Fits(s, t);
    if reaches {
      MarkedKeeps(s, t, reaches);
      TidyByRow(s, EnqueueAndMark(s, t, reaches), i);
    }
  }

  lemma {:induction false} BeginIsQuiet(s: Sys, a: string, kept: bool)
    requires Tidy(s)
    ensures Tidy(StartTask(s, a, kept)) && NoneRevived(s, StartTask(s, a, kept))
  {
    hide BuildAsynqTaskId, OneRowEach, EntriesOwned, NoneStranded, HandlersOk, FindByDeliveryId;
    if a in s.queue && a !in s.handlers {
      OwnerIsFound(s, a);
      var t := FindByDeliveryId(s, s.queue[a].deliveryId, s.queue[a].kind).value;
      assert Agrees(s, t);
      StartKeeps(s, a, kept);
      TidyByRow(s, StartTask(s, a, kept), t.id);
    }
  }

  lemma {:induction false} HandlerHasRow(s: Sys, a: string)
    requires Tidy(s) && a in s.handlers
    ensures var t := s.handlers[a];
      SysOk(s) && t.id < |s.tasks| && s.tasks[t.id] == t && KeyOf(t) == a && Agrees(s, t)
  {
    hide OneRowEach, EntriesOwned, NoneStranded;
    var t := s.handlers[a];
    assert KeyOf(t) == a && Fits(s, t);
    assert Agrees(s, s.tasks[t.id]);
  }

  lemma {:induction false} EndedRow(s: Sys, a: string, o: Outcome)
    requires a in s.handlers && s.handlers[a].id < |s.tasks| && s.tasks[s.handlers[a].id] == s.handlers[a]
    requires KeyOf(s.handlers[a]) == a && Agrees(s, s.handlers[a])
    ensures var t := s.handlers[a];
      var s' := FinishTask(s, a, o, false);
      OnlyRow(s, s', t.id) && NoneRevived(s, s') && Agrees(s', s'.tasks[t.id])
  {
    hide BuildAsynqTaskId;
  }

  lemma {:induction false} EndIsQuiet(s: Sys, a: string, o: Outcome)
    requires Tidy(s)
    ensures Tidy(FinishTask(s, a, o, false)) && NoneRevived(s, FinishTask(s, a, o, false))
  {
    if a in s.handlers {
      HandlerHasRow(s, a);
      hide SysOk, Agrees, Tidy, FinishTask, OnlyRow, NoneRevived, KeyOf;
      EndedRow(s, a, o);
      FinishKeeps(s, a, o, false);
      TidyByRow(s, FinishTask(s, a, o, false), s.handlers[a].id);
    } else {
      SelfFollows(s);
    }
  }

  lemma {:induction false} RecoverIsQuiet(s: Sys, attempts: Attempts, i: nat, works: bool)
    requires Quiet(s) && i < |s.tasks| && MayRequeue(s, attempts, s.tasks[i])
    ensures Quiet(Requeue(s, attempts, Listed(s.tasks[i]), works).0)
  {
    hide BuildAsynqTaskId, OneRowEach, EntriesOwned, NoneStranded, HandlersOk, OneActiveEach, Crowds;
    var row := s.tasks[i];
    var t := Listed(row);
    assert Agrees(s, row) && Fits(s, t) && KeyOf(t) == KeyOf(row);
    RequeueKeeps(s, attempts, t, works);
    RecoverExact(s, attempts, t, works);
    if row.status.Pending? { PendingNeverCrowds(s, i); }
    RequeuedRow(s, attempts, t, works);
    TidyByRow(s, Requeue(s, attempts, t, works).0, i);
  }

  /** What stands active already does not become one too many. */
  lemma {:induction false} PendingNeverCrowds(s: Sys, i: nat)
    requires OneActiveEach(s) && RowsOk(s) && i < |s.tasks| && s.tasks[i].status.IsActive()
    ensures !Crowds(s, InQueue(Listed(s.tasks[i])))
  {
    hide BuildAsynqTaskId;
    var t := InQueue(Listed(s.tasks[i]));
    forall j | 0 <= j < |s.tasks| && j != i && s.tasks[j].status.IsActive()
      ensures !(SamePlace(s.tasks[j], t) && Exclusive(t.kind))
    {}
  }

  lemma {:induction false} RequeuedRow(s: Sys, attempts: Attempts, t: Task, works: bool)
    requires t.id < |s.tasks| && KeyOf(s.tasks[t.id]) == KeyOf(t) && t.status.Pending? && t.asynqId == ""
    requires Agrees(s, s.tasks[t.id]) && MayRequeue(s, attempts, s.tasks[t.id]) && s.tasks[t.id].maxRetry == t.maxRetry
    requires s.tasks[t.id].id == t.id && (s.tasks[t.id].status.Pending? ==> KeyOf(t) !in s.handlers)
    ensures var s' := Requeue(s, attempts, t, works).0; OnlyRow(s, s', t.id) && Agrees(s', s'.tasks[t.id])
  {
    hide BuildAsynqTaskId, Crowds;
  }

  lemma {:induction false} RetryIsQuiet(s: Sys, i: nat, works: bool)
    requires Quiet(s) && i < |s.tasks| && !Crowds(s, InQueue(s.tasks[i])) && RetryTask(s, s.tasks[i], works).Some?
    ensures Quiet(RetryTask(s, s.tasks[i], works).value)
  {
    hide BuildAsynqTaskId, OneRowEach, EntriesOwned, NoneStranded, HandlersOk, OneActiveEach, Crowds;
    var t := s.tasks[i];
    assert Agrees(s, t) && Fits(s, t);
    MarkedKeeps(s, t, works);
    RetryExact(s, t);
    TidyByRow(s, RetryTask(s, t, works).value, i);
  }

  lemma {:induction false} CrashIsQuiet(s: Sys, handlers: map<string, Task>)
    requires Tidy(s) && forall a :: a in handlers ==> a in s.handlers && handlers[a] == s.handlers[a]
    ensures Tidy(s.(handlers := handlers)) && NoneRevived(s, s.(handlers := handlers))
  {
    hide BuildAsynqTaskId, RowsOk, OneRowEach, EntriesOwned, NoneStranded;
    var s' := s.(handlers := handlers);
    SameRows(s, s');
    OwnedStays(s, s');
    forall i | 0 <= i < |s'.tasks| ensures Agrees(s', s'.tasks[i]) { assert Agrees(s, s.tasks[i]); }
  }

  // ---- A replacing call ----------------------------------------------------------------------

  lemma {:induction false} ListedAreRows(s: Sys, repo: string, target: string, kind: Kind)
    requires Quiet(s) && Exclusive(kind)
    ensures var olds := ActiveTasksByModule(s, repo, target, kind);
      |olds| <= 1 && forall o :: o in olds ==> o.id < |s.tasks| && s.tasks[o.id] == o && o.status.IsActive()
  {
    AtMostOneListed(s, repo, target, kind);
  }

  lemma {:induction false} OneEnded(s: Sys, o: Task, kept: bool)
    ensures EndHandlers(s, [o], kept) == EndHandler(s, o, kept) && EndHandlers(s, [], kept) == s
  {
    hide EndHandler;
    assert [o][1..] == [] && EndHandlers(EndHandler(s, o, kept), [], kept) == EndHandler(s, o, kept);
  }

  /** After the call the new task is the only active one in its place. */
  lemma {:induction false} ReplaceIsQuiet(s: Sys, kind: Kind, subject: Subject, d: string, reaches: bool, kept: bool)
    requires Quiet(s) && Exclusive(kind) && d != ""
    ensures Quiet(QuietReplace(s, kind, subject, d, reaches, kept))
  {
    hide Tidy, CreateTask, EnqueueAndMark, QuietCancel, ActiveTasksByModule, OneActiveEach, CancelAll, EndHandlers;
    assert RowsOk(s) by { TidyRows(s); }
    var olds := ActiveTasksByModule(s, subject.repo, subject.target, kind);
    ListedAreRows(s, subject.repo, subject.target, kind);
    var t := NewTask(s, kind, subject, d);
    var created := CreateTask(s, t);
    if created.Some? {
      CreateIsQuiet(s, t);
      var s1 := created.value;
      MarkIsQuiet(s1, t.id, reaches);
      Created(s, t, reaches);
      var s2 := EnqueueAndMark(s1, t, reaches);
      if olds == [] {
        NewIsAlone(s, s2, subject, kind);
        NothingCancelled(s2, _ => true);
        OneEnded(s2, t, kept);
      } else {
        var o := olds[0];
        assert olds == [o] && o in olds && s2.tasks[o.id] == o;
        CancelIsQuiet(s2, o.id, kept);
        OneCancelled(s2, o, _ => true);
        OneEnded(CancelAll(s2, [o], _ => true), o, kept);
        assert QuietReplace(s, kind, subject, d, reaches, kept) == QuietCancel(s2, o, kept)
          by { QuietCancelIs(s2, o, kept); }
        NewIsAlone(s, QuietCancel(s2, o, kept), subject, kind);
      }
    }
  }

  lemma {:induction false} NothingCancelled(s: Sys, works: Task -> bool)
    ensures CancelAll(s, [], works) == s
  {}

  lemma {:induction false} QuietCancelIs(s: Sys, o: Task, kept: bool)
    ensures QuietCancel(s, o, kept) == EndHandler(CancelTask(s, o, true).0, o, kept)
  {}

  lemma {:induction false} TidyRows(s: Sys)
    requires Tidy(s)
    ensures RowsOk(s)
  {}

  lemma {:induction false} OtherIsQuiet(s: Sys, kind: Kind, subject: Subject, d: string, reaches: bool)
    requires Tidy(s) && OneActiveEach(s) && !Exclusive(kind) && d != ""
    ensures var t := NewTask(s, kind, subject, d);
      var created := CreateTask(s, t);
      created.Some? ==>
        Tidy(EnqueueAndMark(created.value, t, reaches)) && OneActiveEach(EnqueueAndMark(created.value, t, reaches))
  {
    hide Tidy, CreateTask, EnqueueAndMark;
    var t := NewTask(s, kind, subject, d);
    var created := CreateTask(s, t);
    if created.Some? {
      CreateIsQuiet(s, t);
      MarkIsQuiet(created.value, t.id, reaches);
      assert OneActiveEach(created.value);
      OneActiveStays(created.value, EnqueueAndMark(created.value, t, reaches));
    }
  }

  lemma {:induction false} CodeIsQuiet(s: Sys, repo: string, branch: string, docHash: string, suffix: string,
      reaches: bool, kept: bool)
    requires Quiet(s)
    ensures Quiet(EnqueueCodeFromDoc(s, repo, branch, docHash, suffix, reaches, kept))
  {
    hide QuietReplace, FindByDeliveryId, Tidy, OneActiveEach;
    var d := CodeDeliveryId(repo, branch, docHash);
    assert |d| >= |"manual:code_from_doc:"|;
    ReplaceIsQuiet(s, CodeFromDoc, Subject(repo, branch, 0, 0), d, reaches, kept);
    ReplaceIsQuiet(s, CodeFromDoc, Subject(repo, branch, 0, 0), d + ":rerun:" + suffix, reaches, kept);
  }

  lemma {:induction false} StaysQuiet(s: Sys, s': Sys)
    requires Quiet(s) && Tidy(s') && NoneRevived(s, s')
    ensures Quiet(s')
  {
    OneActiveStays(s, s');
  }

  lemma {:induction false} QuietStepKeeps(st: QuietState, step: QuietStep)
    requires Quiet(st.sys)
    ensures Quiet(QuietNext(st, step).sys)
  {
    hide Tidy, OneActiveEach, NoneRevived, QuietReplace, EnqueueCodeFromDoc, CreateTask, EnqueueAndMark, QuietCancel,
      StartTask, FinishTask, Requeue, RetryTask, MayRequeue, Crowds;
    var s := st.sys;
    match step
    case Code(repo, branch, docHash, suffix, reaches, kept) =>
      CodeIsQuiet(s, repo, branch, docHash, suffix, reaches, kept);
    case E2E(repo, target, d, reaches, kept) =>
      if d != "" { ReplaceIsQuiet(s, RunE2E, Subject(repo, target, 0, 0), d, reaches, kept); }
    case Other(kind, subject, d, reaches) =>
      if d != "" && !Exclusive(kind) { OtherIsQuiet(s, kind, subject, d, reaches); }
    case CancelOne(id, kept) =>
      if id < |s.tasks| && s.tasks[id].status.IsActive() {
        CancelIsQuiet(s, id, kept);
        StaysQuiet(s, QuietCancel(s, s.tasks[id], kept));
      }
    case Begin(a, kept) =>
      BeginIsQuiet(s, a, kept);
      StaysQuiet(s, StartTask(s, a, kept));
    case End(a, o) =>
      EndIsQuiet(s, a, o);
      StaysQuiet(s, FinishTask(s, a, o, false));
    case Crash(a) =>
      CrashIsQuiet(s, s.handlers - {a});
      StaysQuiet(s, s.(handlers := s.handlers - {a}));
    case RecoverOne(id, works) =>
      if id < |s.tasks| && MayRequeue(s, st.attempts, s.tasks[id]) { RecoverIsQuiet(s, st.attempts, id, works); }
    case RetryOne(id, works) =>
      if id < |s.tasks| && !Crowds(s, InQueue(s.tasks[id])) && RetryTask(s, s.tasks[id], works).Some? {
        RetryIsQuiet(s, id, works);
      }
    case Reboot =>
      CrashIsQuiet(s, map[]);
      StaysQuiet(s, s.(handlers := map[]));
  }

  /** In every quiet run, at most one code_from_doc task per repository and branch and one run_e2e task
      per repository and module is active. */
  lemma {:induction false} OneActivePerPlace(steps: seq<QuietStep>)
    ensures OneActiveEach(QuietAfter(steps).sys)
  {
    QuietHolds(steps);
  }

  lemma {:induction false} QuietHolds(steps: seq<QuietStep>)
    ensures Quiet(QuietAfter(steps).sys)
  {
    if steps != [] {
      QuietHolds(steps[..|steps| - 1]);
      QuietStepKeeps(QuietAfter(steps[..|steps| - 1]), steps[|steps| - 1]);
    }
  }
}
