/** The task lifecycle as a state machine.  Webhook deliveries, enqueues that fail, crashes between
    persisting and enqueueing, recovery passes, handlers, cancellations and manual retries happen in
    any order, and every step that writes a record may act on any version of its row there ever was:
    that covers every delay between reading a row and writing it back. */
module TaskProtocol {
  import opened Wrappers
  import opened TaskModel

  /** `seen` holds every version a row ever had. */
  datatype State = State(sys: Sys, attempts: Attempts, seen: set<Task>)

  datatype Step =
    | Persist(kind: Kind, subject: Subject, deliveryId: string)
    | Mark(copy: Task, works: bool)
    | Cancel(copy: Task, works: bool)
    | Recover(copy: Task, works: bool)
    | ManualRetry(copy: Task, works: bool)
    | Start(asynqId: string, kept: bool)
    | Finish(asynqId: string, outcome: Outcome, kept: bool)
    | CrashHandler(asynqId: string)
    | Restart

  const INIT := State(Sys([], map[], map[]), map[], {})

  function See(st: State, sys: Sys): State {
    st.(sys := sys, seen := st.seen + set t | t in sys.tasks)
  }

  /** A crash of the process between the two halves of enqueueTask is a Persist without its Mark. */
  function Next(st: State, step: Step): State {
    match step
    case Persist(kind, subject, deliveryId) =>
      if deliveryId == "" then st
      else match CreateTask(st.sys, NewTask(st.sys, kind, subject, deliveryId)) {
        case None => st
        case Some(sys) => See(st, sys)
      }
    case Mark(t, works) => if t in st.seen && t.status.Pending? then See(st, EnqueueAndMark(st.sys, t, works)) else st
    case Cancel(t, works) => if t in st.seen then See(st, CancelTask(st.sys, t, works).0) else st
    case Recover(t, works) =>
      if t in st.seen && t.status.Pending? then
        var (sys, attempts) := Requeue(st.sys, st.attempts, t, works);
        See(st.(attempts := attempts), sys)
      else st
    case ManualRetry(t, works) =>
      if t !in st.seen then st
      else match RetryTask(st.sys, t, works) {
        case None => st
        case Some(sys) => See(st, sys)
      }
    case Start(a, kept) => See(st, StartTask(st.sys, a, kept))
    case Finish(a, o, kept) => See(st, FinishTask(st.sys, a, o, kept))
    case CrashHandler(a) => st.(sys := st.sys.(handlers := st.sys.handlers - {a}))
    case Restart => st.(sys := st.sys.(handlers := map[]), attempts := map[])
  }

  function After(steps: seq<Step>): State {
    if steps == [] then INIT else Next(After(steps[..|steps| - 1]), steps[|steps| - 1])
  }

  // ---- The invariant -------------------------------------------------------------------------

  ghost predicate RowsOk(s: Sys) {
    forall i :: 0 <= i < |s.tasks| ==>
      s.tasks[i].id == i && s.tasks[i].deliveryId != "" && s.tasks[i].asynqId in {"", KeyOf(s.tasks[i])}
  }

  ghost predicate OneRowEach(s: Sys) {
    forall i, j :: 0 <= i < j < |s.tasks| ==>
      s.tasks[i].deliveryId != s.tasks[j].deliveryId || s.tasks[i].kind != s.tasks[j].kind
  }

  predicate Owns(t: Task, asynqId: string, job: Job) {
    t.deliveryId == job.deliveryId && t.kind == job.kind && KeyOf(t) == asynqId
  }

  ghost predicate EntriesOwned(s: Sys) {
    forall a :: a in s.queue ==> exists i :: 0 <= i < |s.tasks| && Owns(s.tasks[i], a, s.queue[a])
  }

  /** A copy of a row that exists: what identifies a task never changes. */
  ghost predicate Fits(s: Sys, t: Task) {
    && t.id < |s.tasks|
    && t.kind == s.tasks[t.id].kind && t.deliveryId == s.tasks[t.id].deliveryId && t.subject == s.tasks[t.id].subject
    && t.maxRetry == s.tasks[t.id].maxRetry
    && t.asynqId in {"", KeyOf(t)}
  }

  ghost predicate HandlersOk(s: Sys) {
    forall a :: a in s.handlers ==> a in s.queue && KeyOf(s.handlers[a]) == a && Fits(s, s.handlers[a])
  }

  /** Nobody is stranded: work that is under way has a live entry in the queue. */
  ghost predicate NoneStranded(s: Sys) {
    forall i :: 0 <= i < |s.tasks| ==> s.tasks[i].status.IsUnderWay() ==> KeyOf(s.tasks[i]) in s.queue
  }

  ghost predicate SysOk(s: Sys) {
    RowsOk(s) && OneRowEach(s) && EntriesOwned(s) && HandlersOk(s) && NoneStranded(s)
  }

  ghost predicate Inv(st: State) {
    SysOk(st.sys) && forall t :: t in st.seen ==> Fits(st.sys, t)
  }

  /** Rows are never dropped and keep what identifies them. */
  ghost predicate Follows(s: Sys, s': Sys) {
    |s.tasks| <= |s'.tasks| && forall i :: 0 <= i < |s.tasks| ==>
      s'.tasks[i].kind == s.tasks[i].kind && s'.tasks[i].deliveryId == s.tasks[i].deliveryId &&
      s'.tasks[i].subject == s.tasks[i].subject && s'.tasks[i].maxRetry == s.tasks[i].maxRetry
  }

  ghost predicate Keeps(s: Sys, s': Sys) { SysOk(s') && Follows(s, s') }

  // ---- Elementary changes --------------------------------------------------------------------

  /** Only one row has a given queue id. */
  lemma {:induction false} OneOwner(s: Sys, i: nat, j: nat)
    requires RowsOk(s) && OneRowEach(s) && i < |s.tasks| && j < |s.tasks|
    ensures KeyOf(s.tasks[i]) == KeyOf(s.tasks[j]) <==> i == j
  {
    AsynqIdIsInjective(s.tasks[i].deliveryId, s.tasks[i].kind, s.tasks[j].deliveryId, s.tasks[j].kind);
  }

  lemma {:induction false} OwnedStays(s: Sys, s': Sys)
    requires EntriesOwned(s) && s'.queue == s.queue && Follows(s, s')
    ensures EntriesOwned(s')
  {
    hide BuildAsynqTaskId;
    forall a | a in s'.queue ensures exists i :: 0 <= i < |s'.tasks| && Owns(s'.tasks[i], a, s'.queue[a]) {
      var i :| 0 <= i < |s.tasks| && Owns(s.tasks[i], a, s.queue[a]);
      assert Owns(s'.tasks[i], a, s'.queue[a]);
    }
  }

  lemma {:induction false} CreateKeeps(s: Sys, t: Task)
    requires SysOk(s) && CreateTask(s, t).Some? && t.id == |s.tasks| && t.status.Pending? && t.deliveryId != "" &&
      t.asynqId == ""
    ensures Keeps(s, CreateTask(s, t).value)
    ensures KeyOf(t) !in s.queue
  {
    hide EntriesOwned, BuildAsynqTaskId;
    var s' := CreateTask(s, t).value;
    OwnedStays(s, s');
    KeyIsNew(s, t);
    assert forall i :: 0 <= i < |s'.tasks| ==> s'.tasks[i] == if i < |s.tasks| then s.tasks[i] else t;
  }

  lemma {:induction false} KeyIsNew(s: Sys, t: Task)
    requires RowsOk(s) && EntriesOwned(s) && t.deliveryId != "" && RowFor(s.tasks, t.deliveryId, t.kind) == None
    ensures KeyOf(t) !in s.queue
  {
    if KeyOf(t) in s.queue {
      var i :| 0 <= i < |s.tasks| && Owns(s.tasks[i], KeyOf(t), s.queue[KeyOf(t)]);
      AsynqIdIsInjective(s.tasks[i].deliveryId, s.tasks[i].kind, t.deliveryId, t.kind);
    }
  }

  /** Overwriting a row with a copy, whatever its age. */
  lemma {:induction false} UpdateKeeps(s: Sys, t: Task)
    requires SysOk(s) && Fits(s, t) && (t.status.IsUnderWay() ==> KeyOf(t) in s.queue)
    ensures Keeps(s, UpdateTask(s, t))
  {
    hide EntriesOwned, BuildAsynqTaskId;
    var s' := UpdateTask(s, t);
    assert forall i :: 0 <= i < |s.tasks| ==> s'.tasks[i] == if i == t.id then t else s.tasks[i];
    assert KeyOf(t) == KeyOf(s.tasks[t.id]);
    OwnedStays(s, s');
  }

  lemma {:induction false} EnqueueKeeps(s: Sys, t: Task, works: bool)
    requires SysOk(s) && Fits(s, t)
    ensures Keeps(s, Enqueue(s, t, works).0)
    ensures !Enqueue(s, t, works).1.Unreachable? ==> KeyOf(t) in Enqueue(s, t, works).0.queue
    ensures Enqueue(s, t, works).0.tasks == s.tasks
  {
    hide EntriesOwned, BuildAsynqTaskId;
    EntryIsOwned(s, t);
  }

  lemma {:induction false} EntryIsOwned(s: Sys, t: Task)
    requires EntriesOwned(s) && Fits(s, t)
    ensures EntriesOwned(s.(queue := s.queue[KeyOf(t) := Job(t.deliveryId, t.kind)]))
  {
    hide BuildAsynqTaskId;
    var s' := s.(queue := s.queue[KeyOf(t) := Job(t.deliveryId, t.kind)]);
    forall a | a in s'.queue ensures exists i :: 0 <= i < |s'.tasks| && Owns(s'.tasks[i], a, s'.queue[a]) {
      if a == KeyOf(t) {
        assert Owns(s'.tasks[t.id], a, s'.queue[a]);
      } else {
        var i :| 0 <= i < |s.tasks| && Owns(s.tasks[i], a, s.queue[a]);
        assert Owns(s'.tasks[i], a, s'.queue[a]);
      }
    }
  }

  /** Taking an entry out strands nobody if the row it belongs to is at its end. */
  lemma {:induction false} LeaveKeeps(s: Sys, t: Task, kept: bool)
    requires SysOk(s) && Fits(s, t) && (kept || s.tasks[t.id].status.IsTerminal())
    ensures Keeps(s, Leave(s, KeyOf(t), kept)) && Leave(s, KeyOf(t), kept).tasks == s.tasks
  {
    hide EntriesOwned, BuildAsynqTaskId;
    var s' := Leave(s, KeyOf(t), kept);
    FewerAreOwned(s, s');
    assert KeyOf(s.tasks[t.id]) == KeyOf(t);
    forall i | 0 <= i < |s'.tasks| && s'.tasks[i].status.IsUnderWay() ensures KeyOf(s'.tasks[i]) in s'.queue {
      OneOwner(s, i, t.id);
    }
  }

  lemma {:induction false} FewerAreOwned(s: Sys, s': Sys)
    requires EntriesOwned(s) && s'.tasks == s.tasks
    requires forall a :: a in s'.queue ==> a in s.queue && s'.queue[a] == s.queue[a]
    ensures EntriesOwned(s')
  {
    hide BuildAsynqTaskId;
    forall a | a in s'.queue ensures exists i :: 0 <= i < |s'.tasks| && Owns(s'.tasks[i], a, s'.queue[a]) {
      var i :| 0 <= i < |s.tasks| && Owns(s.tasks[i], a, s.queue[a]);
      assert Owns(s'.tasks[i], a, s'.queue[a]);
    }
  }

  // ---- Every step keeps the system in order --------------------------------------------------

  lemma {:induction false} FollowsChain(a: Sys, b: Sys, c: Sys)
    requires Follows(a, b) && Follows(b, c)
    ensures Follows(a, c)
  {}

  lemma {:induction false} FitsStays(s: Sys, s': Sys, t: Task)
    requires Fits(s, t) && Follows(s, s')
    ensures Fits(s', t)
  {}

  lemma {:induction false} MarkedKeeps(s: Sys, t: Task, works: bool)
    requires SysOk(s) && Fits(s, t) && !Enqueue(s, t, works).1.Unreachable?
    ensures Keeps(s, UpdateTask(Enqueue(s, t, works).0, t.(status := Queued, asynqId := KeyOf(t))))
  {
    hide SysOk;
    EnqueueKeeps(s, t, works);
    UpdateKeeps(Enqueue(s, t, works).0, t.(status := Queued, asynqId := KeyOf(t)));
  }

  lemma {:induction false} SelfFollows(s: Sys)
    ensures Follows(s, s)
  {}

  lemma {:induction false} CancelKeeps(s: Sys, t: Task, works: bool)
    requires SysOk(s) && Fits(s, t)
    ensures Keeps(s, CancelTask(s, t, works).0)
  {
    hide RowsOk, OneRowEach, EntriesOwned, NoneStranded;
    SelfFollows(s);
    var gone := t.(status := Cancelled);
    UpdateKeeps(s, gone);
    if t.asynqId != "" && (t.status.Pending? || t.status.Queued?) && Delete(s, t.asynqId, works).Some? {
      var s1 := UpdateTask(s, gone);
      LeaveKeeps(s1, gone, false);
      assert s1.handlers - {KeyOf(t)} == s1.handlers;
      assert UpdateTask(Delete(s, t.asynqId, works).value, gone) == Leave(s1, KeyOf(t), false);
      FollowsChain(s, s1, Leave(s1, KeyOf(t), false));
    }
  }

  lemma {:induction false} RequeueKeeps(s: Sys, attempts: Attempts, t: Task, works: bool)
    requires SysOk(s) && Fits(s, t)
    ensures Keeps(s, Requeue(s, attempts, t, works).0)
  {
    hide SysOk;
    SelfFollows(s);
    if AttemptsOf(attempts, t.id) >= t.maxRetry {
      UpdateKeeps(s, t.(status := Failed));
    } else if !Enqueue(s, t, works).1.Unreachable? {
      MarkedKeeps(s, t, works);
    }
  }

  lemma {:induction false} OwnerIsFound(s: Sys, a: string)
    requires SysOk(s) && a in s.queue
    ensures var t := FindByDeliveryId(s, s.queue[a].deliveryId, s.queue[a].kind);
      t.Some? && Fits(s, t.value) && KeyOf(t.value) == a && s.tasks[t.value.id] == t.value
  {
    hide OneRowEach, NoneStranded, HandlersOk, BuildAsynqTaskId;
    var i :| 0 <= i < |s.tasks| && Owns(s.tasks[i], a, s.queue[a]);
    var t := FindByDeliveryId(s, s.queue[a].deliveryId, s.queue[a].kind).value;
    var j :| 0 <= j < |s.tasks| && s.tasks[j] == t;
  }

  lemma {:induction false} StartKeeps(s: Sys, a: string, kept: bool)
    requires SysOk(s)
    ensures Keeps(s, StartTask(s, a, kept))
  {
    hide SysOk, BuildAsynqTaskId, FindByDeliveryId, Leave;
    SelfFollows(s);
    if a in s.queue && a !in s.handlers {
      OwnerIsFound(s, a);
      var t := FindByDeliveryId(s, s.queue[a].deliveryId, s.queue[a].kind).value;
      if t.status.Cancelled? || (t.status.Succeeded? && t.kind.FixReview?) {
        LeaveKeeps(s, t, kept);
      } else {
        RunningKeeps(s, t.(status := Running));
      }
    }
  }

  lemma {:induction false} RunningKeeps(s: Sys, t: Task)
    requires SysOk(s) && Fits(s, t) && KeyOf(t) in s.queue
    ensures var s' := UpdateTask(s, t); Keeps(s, s'.(handlers := s'.handlers[KeyOf(t) := t]))
  {
    hide EntriesOwned, BuildAsynqTaskId, RowsOk, OneRowEach, NoneStranded;
    UpdateKeeps(s, t);
    var s' := UpdateTask(s, t);
    var s2 := s'.(handlers := s'.handlers[KeyOf(t) := t]);
    SameRows(s', s2);
    OwnedStays(s', s2);
  }

  lemma {:induction false} SameRows(s: Sys, s': Sys)
    requires s'.tasks == s.tasks && s'.queue == s.queue
    ensures Follows(s, s')
    ensures (RowsOk(s) ==> RowsOk(s')) && (OneRowEach(s) ==> OneRowEach(s')) && (NoneStranded(s) ==> NoneStranded(s'))
  {
    hide BuildAsynqTaskId;
  }

  lemma {:induction false} FinishKeeps(s: Sys, a: string, o: Outcome, kept: bool)
    requires SysOk(s)
    ensures Keeps(s, FinishTask(s, a, o, kept))
  {
    hide RowsOk, OneRowEach, EntriesOwned, NoneStranded;
    SelfFollows(s);
    if a in s.handlers {
      var t := s.handlers[a].(status := StatusAfter(o));
      UpdateKeeps(s, t);
      var s1 := UpdateTask(s, t);
      LeaveKeeps(s1, t, kept || o.Retry?);
      FollowsChain(s, s1, Leave(s1, a, kept || o.Retry?));
    }
  }

  lemma {:induction false} SeeKeeps(st: State, sys: Sys)
    requires Inv(st) && Keeps(st.sys, sys)
    ensures Inv(See(st, sys))
  {
    hide OneRowEach, EntriesOwned, NoneStranded, HandlersOk;
    forall t | t in See(st, sys).seen ensures Fits(sys, t) {
      if t in st.seen { FitsStays(st.sys, sys, t); }
    }
  }

  lemma {:induction false} StepKeeps(st: State, step: Step)
    requires Inv(st)
    ensures Inv(Next(st, step)) && Follows(st.sys, Next(st, step).sys)
  {
    hide SysOk, CreateTask, EnqueueAndMark, CancelTask, Requeue, RetryTask, StartTask, FinishTask, Fits, See, NewTask;
    SelfFollows(st.sys);
    match step
    case Persist(kind, subject, d) => if d != "" { PersistKeeps(st, kind, subject, d); }
    case Mark(t, works) => if t in st.seen && t.status.Pending? { MarkKeeps(st, t, works); }
    case Cancel(t, works) =>
      if t in st.seen {
        CancelKeeps(st.sys, t, works);
        SeeKeeps(st, CancelTask(st.sys, t, works).0);
        SeeSees(st, CancelTask(st.sys, t, works).0);
      }
    case Recover(t, works) =>
      if t in st.seen && t.status.Pending? {
        var (sys, attempts) := Requeue(st.sys, st.attempts, t, works);
        RequeueKeeps(st.sys, st.attempts, t, works);
        SeeKeeps(st.(attempts := attempts), sys);
        SeeSees(st.(attempts := attempts), sys);
      }
    case ManualRetry(t, works) => if t in st.seen { RetryKeeps(st, t, works); }
    case Start(a, kept) =>
      StartKeeps(st.sys, a, kept);
      SeeKeeps(st, StartTask(st.sys, a, kept));
      SeeSees(st, StartTask(st.sys, a, kept));
    case Finish(a, o, kept) =>
      FinishKeeps(st.sys, a, o, kept);
      SeeKeeps(st, FinishTask(st.sys, a, o, kept));
      SeeSees(st, FinishTask(st.sys, a, o, kept));
    case CrashHandler(a) => HandlersGone(st, st.attempts, st.sys.handlers - {a});
    case Restart => HandlersGone(st, map[], map[]);
  }

  lemma {:induction false} SeeSees(st: State, sys: Sys)
    ensures See(st, sys).sys == sys
  {}

  lemma {:induction false} PersistKeeps(st: State, kind: Kind, subject: Subject, d: string)
    requires Inv(st) && d != ""
    ensures var sys := CreateTask(st.sys, NewTask(st.sys, kind, subject, d));
      sys.Some? ==> Inv(See(st, sys.value)) && Follows(st.sys, sys.value) && See(st, sys.value).sys == sys.value
  {
    hide SysOk, CreateTask;
    var sys := CreateTask(st.sys, NewTask(st.sys, kind, subject, d));
    if sys.Some? {
      CreateKeeps(st.sys, NewTask(st.sys, kind, subject, d));
      SeeKeeps(st, sys.value);
    }
  }

  lemma {:induction false} MarkKeeps(st: State, t: Task, works: bool)
    requires Inv(st) && t in st.seen
    ensures var sys := EnqueueAndMark(st.sys, t, works);
      Inv(See(st, sys)) && Follows(st.sys, sys) && See(st, sys).sys == sys
  {
    hide SysOk;
    SelfFollows(st.sys);
    if Enqueue(st.sys, t, works).1.Accepted? { MarkedKeeps(st.sys, t, works); }
    SeeKeeps(st, EnqueueAndMark(st.sys, t, works));
  }

  lemma {:induction false} RetryKeeps(st: State, t: Task, works: bool)
    requires Inv(st) && t in st.seen
    ensures var sys := RetryTask(st.sys, t, works);
      sys.Some? ==> Inv(See(st, sys.value)) && Follows(st.sys, sys.value) && See(st, sys.value).sys == sys.value
  {
    hide SysOk;
    if RetryTask(st.sys, t, works).Some? {
      MarkedKeeps(st.sys, t, works);
      SeeKeeps(st, RetryTask(st.sys, t, works).value);
    }
  }

  lemma {:induction false} HandlersGone(st: State, attempts: Attempts, handlers: map<string, Task>)
    requires Inv(st) && forall a :: a in handlers ==> a in st.sys.handlers && handlers[a] == st.sys.handlers[a]
    ensures Inv(st.(sys := st.sys.(handlers := handlers), attempts := attempts))
  {
    hide EntriesOwned, BuildAsynqTaskId, RowsOk, OneRowEach, NoneStranded;
    var s' := st.sys.(handlers := handlers);
    SameRows(st.sys, s');
    OwnedStays(st.sys, s');
  }

  lemma {:induction false} InvHolds(steps: seq<Step>)
    ensures Inv(After(steps))
  {
    if steps != [] {
      InvHolds(steps[..|steps| - 1]);
      StepKeeps(After(steps[..|steps| - 1]), steps[|steps| - 1]);
    }
  }
}
