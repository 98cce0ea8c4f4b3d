/** Who may be active in one place: one code_from_doc task per repository and branch, one run_e2e task per
    repository and module.  For every step of the lifecycle and for whole replacing calls it is said
    exactly when they keep to that. */
module TaskPlaces {
  import opened Wrappers
  import opened TaskModel
  import opened TaskProtocol
  import opened TaskLaws
  import opened TaskReplacement

  predicate Exclusive(k: Kind) { k.CodeFromDoc? || k.RunE2E? }

  predicate SamePlace(a: Task, b: Task) {
    a.kind == b.kind && a.subject.repo == b.subject.repo && a.subject.target == b.subject.target
  }

  ghost predicate OneActiveEach(s: Sys) {
    forall i, j :: 0 <= i < j < |s.tasks| && s.tasks[i].status.IsActive() && s.tasks[j].status.IsActive() ==>
      !(SamePlace(s.tasks[i], s.tasks[j]) && Exclusive(s.tasks[i].kind))
  }

  /** Another active task stands where `t` would be active. */
  predicate Crowds(s: Sys, t: Task) {
    t.status.IsActive() && Exclusive(t.kind) &&
    exists j :: 0 <= j < |s.tasks| && j != t.id && s.tasks[j].status.IsActive() && SamePlace(s.tasks[j], t)
  }

  // ---- One write -----------------------------------------------------------------------------

  lemma {:induction false} WriteExact(s: Sys, t: Task)
    requires OneActiveEach(s) && t.id < |s.tasks|
    ensures OneActiveEach(UpdateTask(s, t)) <==> !Crowds(s, t)
  {
    var s' := UpdateTask(s, t);
    assert forall j :: 0 <= j < |s.tasks| ==> s'.tasks[j] == if j == t.id then t else s.tasks[j];
    if Crowds(s, t) {
      var j :| 0 <= j < |s.tasks| && j != t.id && s.tasks[j].status.IsActive() && SamePlace(s.tasks[j], t);
      assert s'.tasks[j].status.IsActive() && s'.tasks[t.id].status.IsActive();
      assert SamePlace(s'.tasks[j], s'.tasks[t.id]) && SamePlace(s'.tasks[t.id], s'.tasks[j]);
    } else {
      forall i, j | 0 <= i < j < |s'.tasks| && s'.tasks[i].status.IsActive() && s'.tasks[j].status.IsActive()
        ensures !(SamePlace(s'.tasks[i], s'.tasks[j]) && Exclusive(s'.tasks[i].kind))
      {
        if i == t.id { assert s.tasks[j].status.IsActive(); } else if j == t.id { assert s.tasks[i].status.IsActive(); }
      }
    }
  }

  lemma {:induction false} AppendExact(s: Sys, t: Task)
    requires OneActiveEach(s) && t.id == |s.tasks|
    ensures OneActiveEach(s.(tasks := s.tasks + [t])) <==> !Crowds(s, t)
  {
    var s' := s.(tasks := s.tasks + [t]);
    assert forall j :: 0 <= j < |s'.tasks| ==> s'.tasks[j] == if j == t.id then t else s.tasks[j];
    if Crowds(s, t) {
      var j :| 0 <= j < |s.tasks| && j != t.id && s.tasks[j].status.IsActive() && SamePlace(s.tasks[j], t);
      assert SamePlace(s'.tasks[j], s'.tasks[t.id]);
    } else {
      forall i, j | 0 <= i < j < |s'.tasks| && s'.tasks[i].status.IsActive() && s'.tasks[j].status.IsActive()
        ensures !(SamePlace(s'.tasks[i], s'.tasks[j]) && Exclusive(s'.tasks[i].kind))
      {
        if j == t.id { assert s.tasks[i].status.IsActive(); }
      }
    }
  }

  /** Only the rows matter. */
  lemma {:induction false} SameRowsSameActive(s: Sys, s': Sys)
    requires s'.tasks == s.tasks
    ensures OneActiveEach(s') <==> OneActiveEach(s)
  {}

  // ---- The version a step writes -------------------------------------------------------------

  function InQueue(t: Task): Task { t.(status := Queued, asynqId := KeyOf(t)) }

  function Written(st: State, step: Step): Option<Task> {
    var s := st.sys;
    match step
    case Persist(kind, subject, d) =>
      if d != "" && CreateTask(s, NewTask(s, kind, subject, d)).Some? then Some(NewTask(s, kind, subject, d)) else None
    case Mark(t, works) =>
      if t in st.seen && t.status.Pending? && Enqueue(s, t, works).1.Accepted? then Some(InQueue(t)) else None
    case Cancel(t, works) =>
      if t in st.seen && CancelTask(s, t, works).1 then Some(t.(status := Cancelled)) else None
    case Recover(t, works) =>
      if t !in st.seen || !t.status.Pending? then None
      else if AttemptsOf(st.attempts, t.id) >= t.maxRetry then Some(t.(status := Failed))
      else if works then Some(InQueue(t))
      else None
    case ManualRetry(t, works) =>
      if t in st.seen && (t.status.Failed? || t.status.Cancelled?) && works then Some(InQueue(t)) else None
    case Start(a, _) => Begun(s, a)
    case Finish(a, o, _) => if a in s.handlers then Some(s.handlers[a].(status := StatusAfter(o))) else None
    case _ => None
  }

  function Begun(s: Sys, asynqId: string): Option<Task> {
    if asynqId !in s.queue || asynqId in s.handlers then None
    else match FindByDeliveryId(s, s.queue[asynqId].deliveryId, s.queue[asynqId].kind)
      case None => None
      case Some(t) =>
        if t.status.Cancelled? || (t.status.Succeeded? && t.kind.FixReview?) then None else Some(t.(status := Running))
  }

  function With(tasks: seq<Task>, t: Task): seq<Task>
    requires t.id <= |tasks|
  {
    if t.id < |tasks| then tasks[t.id := t] else tasks + [t]
  }

  lemma {:induction false} CancelWrites(s: Sys, t: Task, works: bool)
    requires t.id < |s.tasks|
    ensures var (s', ok) := CancelTask(s, t, works);
      s'.tasks == if ok then s.tasks[t.id := t.(status := Cancelled)] else s.tasks
  {
    hide KeyOf;
  }

  lemma {:induction false} RequeueWrites(s: Sys, attempts: Attempts, t: Task, works: bool)
    requires t.id < |s.tasks|
    ensures var s' := Requeue(s, attempts, t, works).0;
      s'.tasks ==
        if AttemptsOf(attempts, t.id) >= t.maxRetry then s.tasks[t.id := t.(status := Failed)]
        else if works then s.tasks[t.id := InQueue(t)]
        else s.tasks
  {
    hide BuildAsynqTaskId;
  }

  lemma {:induction false} StartWrites(s: Sys, a: string, kept: bool)
    requires SysOk(s)
    ensures var t := Begun(s, a);
      && (t.Some? ==> t.value.id < |s.tasks|)
      && StartTask(s, a, kept).tasks == if t.Some? then s.tasks[t.value.id := t.value] else s.tasks
  {
    hide SysOk, BuildAsynqTaskId, FindByDeliveryId;
    if a in s.queue { OwnerIsFound(s, a); }
  }

  lemma {:induction false} FinishWrites(s: Sys, a: string, o: Outcome, kept: bool)
    requires SysOk(s)
    ensures a in s.handlers ==> s.handlers[a].id < |s.tasks|
    ensures FinishTask(s, a, o, kept).tasks ==
      if a in s.handlers then s.tasks[s.handlers[a].id := s.handlers[a].(status := StatusAfter(o))] else s.tasks
  {
    hide RowsOk, OneRowEach, EntriesOwned, NoneStranded, BuildAsynqTaskId;
  }

  /** A step changes the rows by the version it writes and by nothing else. */
  lemma {:induction false} StepWrites(st: State, step: Step)
    requires Inv(st)
    ensures var t := Written(st, step);
      && (t.Some? ==> t.value.id <= |st.sys.tasks|)
      && Next(st, step).sys.tasks == if t.Some? then With(st.sys.tasks, t.value) else st.sys.tasks
  {
    hide SysOk, CancelTask, Requeue, StartTask, FinishTask, Begun, BuildAsynqTaskId, FindByDeliveryId;
    match step
    case Persist(_, _, _) =>
    case Mark(t, works) => if t in st.seen { assert Fits(st.sys, t); }
    case Cancel(t, works) =>
      if t in st.seen {
        assert Fits(st.sys, t);
        CancelWrites(st.sys, t, works);
      }
    case Recover(t, works) =>
      if t in st.seen {
        assert Fits(st.sys, t);
        RequeueWrites(st.sys, st.attempts, t, works);
      }
    case ManualRetry(t, works) => if t in st.seen { assert Fits(st.sys, t); }
    case Start(a, kept) => StartWrites(st.sys, a, kept);
    case Finish(a, o, kept) => FinishWrites(st.sys, a, o, kept);
    case _ =>
  }

  /** A step leaves at most one active in each place exactly when what it writes crowds nobody. */
  lemma {:induction false} StepExact(st: State, step: Step)
    requires Inv(st) && OneActiveEach(st.sys)
    ensures var t := Written(st, step);
      OneActiveEach(Next(st, step).sys) <==> (t.Some? ==> !Crowds(st.sys, t.value))
  {
    hide Inv, Next, Written, OneActiveEach, Crowds;
    StepWrites(st, step);
    var s, s', t := st.sys, Next(st, step).sys, Written(st, step);
    if t == None {
      SameRowsSameActive(s, s');
    } else if t.value.id < |s.tasks| {
      WriteExact(s, t.value);
      SameRowsSameActive(UpdateTask(s, t.value), s');
    } else {
      AppendExact(s, t.value);
      SameRowsSameActive(s.(tasks := s.tasks + [t.value]), s');
    }
  }

  /** Recovery, with a listed copy of any age. */
  lemma {:induction false} RecoverExact(s: Sys, attempts: Attempts, t: Task, works: bool)
    requires SysOk(s) && OneActiveEach(s) && Fits(s, t)
    ensures OneActiveEach(Requeue(s, attempts, t, works).0) <==>
      AttemptsOf(attempts, t.id) >= t.maxRetry || !works || !Crowds(s, InQueue(t))
  {
    hide SysOk, OneActiveEach, Crowds, Requeue, BuildAsynqTaskId;
    RequeueWrites(s, attempts, t, works);
    var s' := Requeue(s, attempts, t, works).0;
    if AttemptsOf(attempts, t.id) >= t.maxRetry {
      WriteExact(s, t.(status := Failed));
      TerminalNeverCrowds(s, t.(status := Failed));
      SameRowsSameActive(UpdateTask(s, t.(status := Failed)), s');
    } else if works {
      WriteExact(s, InQueue(t));
      SameRowsSameActive(UpdateTask(s, InQueue(t)), s');
    } else {
      SameRowsSameActive(s, s');
    }
  }

  lemma {:induction false} TerminalNeverCrowds(s: Sys, t: Task)
    requires t.status.IsTerminal()
    ensures !Crowds(s, t)
  {}

  /** A manual retry, of a failed or of a cancelled task. */
  lemma {:induction false} RetryExact(s: Sys, t: Task)
    requires SysOk(s) && OneActiveEach(s) && Fits(s, t) && (t.status.Failed? || t.status.Cancelled?)
    ensures RetryTask(s, t, true).Some?
    ensures OneActiveEach(RetryTask(s, t, true).value) <==> !Crowds(s, InQueue(t))
  {
    hide SysOk, OneActiveEach, Crowds, BuildAsynqTaskId;
    WriteExact(s, InQueue(t));
    SameRowsSameActive(UpdateTask(s, InQueue(t)), RetryTask(s, t, true).value);
  }

  /** In particular, retrying a replaced task beside the one that replaced it makes two. */
  lemma {:induction false} RetryMakesTwo(s: Sys, i: nat, j: nat)
    requires SysOk(s) && OneActiveEach(s) && i < |s.tasks| && j < |s.tasks|
    requires (s.tasks[i].status.Cancelled? || s.tasks[i].status.Failed?) && s.tasks[j].status.IsActive()
    requires SamePlace(s.tasks[j], s.tasks[i]) && Exclusive(s.tasks[i].kind)
    ensures RetryTask(s, s.tasks[i], true).Some? && !OneActiveEach(RetryTask(s, s.tasks[i], true).value)
  {
    hide OneActiveEach, BuildAsynqTaskId, OneRowEach, EntriesOwned, HandlersOk, NoneStranded;
    assert Fits(s, s.tasks[i]) && j != i;
    RetryExact(s, s.tasks[i]);
  }

  // ---- Whole calls ---------------------------------------------------------------------------

  lemma {:induction false} AtMostOneListed(s: Sys, repo: string, target: string, kind: Kind)
    requires RowsOk(s) && OneActiveEach(s) && Exclusive(kind)
    ensures var olds := ActiveTasksByModule(s, repo, target, kind);
      |olds| <= 1 && forall o :: o in olds ==> o.id < |s.tasks| && s.tasks[o.id] == o && o.status.IsActive()
  {
    var p := (t: Task) => t.subject.repo == repo && t.kind == kind && t.subject.target == target && t.status.IsActive();
    SelectedAreRows(s, p);
    var olds := Select(s.tasks, p);
    assert olds == ActiveTasksByModule(s, repo, target, kind);
    if |olds| > 1 {
      var a, b := olds[0], olds[1];
      assert a in olds && b in olds && a.id != b.id;
      assert SamePlace(s.tasks[a.id], s.tasks[b.id]) && SamePlace(s.tasks[b.id], s.tasks[a.id]);
    }
  }

  lemma {:induction false} ActiveIsListed(s: Sys, i: nat, subject: Subject, kind: Kind)
    requires i < |s.tasks|
    ensures var t := s.tasks[i];
      t in ActiveTasksByModule(s, subject.repo, subject.target, kind) <==>
        t.status.IsActive() && t.kind == kind && t.subject.repo == subject.repo && t.subject.target == subject.target
  {}

  lemma {:induction false} ListedAreAlike(s: Sys, subject: Subject, kind: Kind)
    ensures forall o :: o in ActiveTasksByModule(s, subject.repo, subject.target, kind) ==>
      o.kind == kind && o.subject.repo == subject.repo && o.subject.target == subject.target
  {}

  /** The new task is alone in its place exactly when none of the listed ones is active any more. */
  lemma {:induction false} NewIsAlone(s: Sys, s': Sys, subject: Subject, kind: Kind)
    requires RowsOk(s) && OneActiveEach(s) && Exclusive(kind) && |s'.tasks| == |s.tasks| + 1
    requires forall i :: 0 <= i < |s.tasks| ==>
      s'.tasks[i] == s.tasks[i] || s'.tasks[i] == s.tasks[i].(status := Cancelled)
    requires var t := s'.tasks[|s.tasks|]; t.kind == kind && t.subject == subject && t.status.IsActive()
    ensures OneActiveEach(s') <==>
      forall o :: o in ActiveTasksByModule(s, subject.repo, subject.target, kind) && o.id < |s.tasks| ==>
        !s'.tasks[o.id].status.IsActive()
  {
    hide BuildAsynqTaskId, ActiveTasksByModule;
    var n, olds := |s.tasks|, ActiveTasksByModule(s, subject.repo, subject.target, kind);
    if exists o :: o in olds && o.id < n && s'.tasks[o.id].status.IsActive() {
      var o :| o in olds && o.id < n && s'.tasks[o.id].status.IsActive();
      AtMostOneListed(s, subject.repo, subject.target, kind);
      ListedAreAlike(s, subject, kind);
      assert SamePlace(s'.tasks[o.id], s'.tasks[n]) && Exclusive(s'.tasks[o.id].kind);
    } else {
      forall i, j | 0 <= i < j < |s'.tasks| && s'.tasks[i].status.IsActive() && s'.tasks[j].status.IsActive()
        ensures !(SamePlace(s'.tasks[i], s'.tasks[j]) && Exclusive(s'.tasks[i].kind))
      {
        assert s.tasks[i].status.IsActive() && s.tasks[i].id == i;
        ActiveIsListed(s, i, subject, kind);
        if j < n { assert s.tasks[j].status.IsActive(); }
      }
    }
  }

  /** The cancellations a call asks for succeed, judged before the call. */
  predicate CancelsSucceed(s: Sys, olds: seq<Task>, works: Task -> bool) {
    forall k :: 0 <= k < |olds| ==> CancelTask(s, olds[k], works(olds[k])).1
  }

  /** A new record and its entry do not change what cancelling another record comes to. */
  lemma {:induction false} CancelAnswerStays(s: Sys, s': Sys, o: Task, t: Task, works: bool)
    requires RowsOk(s) && o.id < |s.tasks| && s.tasks[o.id] == o && t.deliveryId != ""
    requires o.deliveryId != t.deliveryId || o.kind != t.kind
    requires s'.handlers == s.handlers &&
      (s'.queue == s.queue || s'.queue == s.queue[KeyOf(t) := Job(t.deliveryId, t.kind)])
    ensures CancelTask(s', o, works).1 == CancelTask(s, o, works).1
  {
    AsynqIdIsInjective(o.deliveryId, o.kind, t.deliveryId, t.kind);
    hide BuildAsynqTaskId;
  }

  lemma {:induction false} Created(s: Sys, t: Task, reaches: bool)
    requires CreateTask(s, t).Some? && t.id == |s.tasks| && t.deliveryId != ""
    ensures var s2 := EnqueueAndMark(CreateTask(s, t).value, t, reaches);
      && |s2.tasks| == |s.tasks| + 1 && (forall i :: 0 <= i < |s.tasks| ==> s2.tasks[i] == s.tasks[i])
      && (s2.tasks[|s.tasks|] == t || s2.tasks[|s.tasks|] == InQueue(t))
      && s2.handlers == s.handlers
      && (s2.queue == s.queue || s2.queue == s.queue[KeyOf(t) := Job(t.deliveryId, t.kind)])
      && forall i :: 0 <= i < |s.tasks| ==> s.tasks[i].deliveryId != t.deliveryId || s.tasks[i].kind != t.kind
  {
    hide BuildAsynqTaskId;
  }

  lemma {:induction false} OneCancelled(s: Sys, o: Task, works: Task -> bool)
    ensures CancelAll(s, [o], works) == CancelTask(s, o, works(o)).0
  {
    hide CancelTask;
    var s1 := CancelTask(s, o, works(o)).0;
    assert [o][1..] == [] && CancelAll(s1, [], works) == s1;
  }

  /** After a replacing call there is one active task in its place exactly when the record was refused
      or the cancellations succeeded. */
  lemma {:induction false} CallExact(s: Sys, kind: Kind, subject: Subject, d: string, reaches: bool,
      works: Task -> bool)
    requires SysOk(s) && OneActiveEach(s) && Exclusive(kind) && d != ""
    ensures var t := NewTask(s, kind, subject, d);
      var olds := ActiveTasksByModule(s, subject.repo, subject.target, kind);
      OneActiveEach(Replace(s, t, olds, reaches, works)) <==> CreateTask(s, t) == None || CancelsSucceed(s, olds, works)
  {
    assert RowsOk(s);
    hide SysOk, CreateTask, EnqueueAndMark, CancelTask, OneActiveEach, ActiveTasksByModule, RowsOk, BuildAsynqTaskId,
      CancelsSucceed;
    var t := NewTask(s, kind, subject, d);
    var olds := ActiveTasksByModule(s, subject.repo, subject.target, kind);
    AtMostOneListed(s, subject.repo, subject.target, kind);
    if CreateTask(s, t).Some? {
      Created(s, t, reaches);
      var s2 := EnqueueAndMark(CreateTask(s, t).value, t, reaches);
      if olds == [] {
        NewIsAlone(s, s2, subject, kind);
        NothingToCancel(s, works);
      } else {
        assert olds == [olds[0]] && olds[0] in olds;
        CallWithOne(s, s2, t, olds[0], works);
      }
    }
  }

  lemma {:induction false} NothingToCancel(s: Sys, works: Task -> bool)
    ensures CancelsSucceed(s, [], works)
  {}

  lemma {:induction false} CallWithOne(s: Sys, s2: Sys, t: Task, o: Task, works: Task -> bool)
    requires RowsOk(s) && OneActiveEach(s) && Exclusive(t.kind) && t.deliveryId != "" && |s2.tasks| == |s.tasks| + 1
    requires ActiveTasksByModule(s, t.subject.repo, t.subject.target, t.kind) == [o]
    requires o.id < |s.tasks| && s.tasks[o.id] == o && o.status.IsActive() &&
      (o.deliveryId != t.deliveryId || o.kind != t.kind)
    requires forall i :: 0 <= i < |s.tasks| ==> s2.tasks[i] == s.tasks[i]
    requires var u := s2.tasks[|s.tasks|]; u.kind == t.kind && u.subject == t.subject && u.status.IsActive()
    requires s2.handlers == s.handlers &&
      (s2.queue == s.queue || s2.queue == s.queue[KeyOf(t) := Job(t.deliveryId, t.kind)])
    ensures OneActiveEach(CancelAll(s2, [o], works)) <==> CancelsSucceed(s, [o], works)
  {
    hide RowsOk, CancelTask, OneActiveEach, ActiveTasksByModule, CancelAll, BuildAsynqTaskId;
    OneCancelled(s2, o, works);
    CancelWrites(s2, o, works(o));
    CancelAnswerStays(s, s2, o, t, works(o));
    NewIsAlone(s, CancelTask(s2, o, works(o)).0, t.subject, t.kind);
    assert [o][0] == o;
  }

  // ---- Runs of single steps and whole calls --------------------------------------------------

  /** A call that nothing interrupts is one move; an interrupted one is its single steps. */
  datatype Move =
    | Single(step: Step)
    | Call(kind: Kind, subject: Subject, deliveryId: string, reaches: bool, works: Task -> bool)

  predicate IsCall(m: Move) { m.Call? && Exclusive(m.kind) && m.deliveryId != "" }

  function NextMove(st: State, m: Move): State {
    if m.Single? then Next(st, m.step)
    else if !IsCall(m) then st
    else
      var t := NewTask(st.sys, m.kind, m.subject, m.deliveryId);
      var olds := ActiveTasksByModule(st.sys, m.subject.repo, m.subject.target, m.kind);
      if CreateTask(st.sys, t) == None then st
      else See(st.(seen := st.seen + {t}), Replace(st.sys, t, olds, m.reaches, m.works))
  }

  function AfterMoves(moves: seq<Move>): State {
    if |moves| == 0 then INIT else NextMove(AfterMoves(moves[..|moves| - 1]), moves[|moves| - 1])
  }

  /** What can be checked before a move: a step writes nothing active where another active task stands,
      and a call is refused or its cancellations succeed. */
  predicate Allowed(st: State, m: Move) {
    if m.Single? then
      var t := Written(st, m.step);
      t.Some? ==> !Crowds(st.sys, t.value)
    else
      IsCall(m) ==>
        CreateTask(st.sys, NewTask(st.sys, m.kind, m.subject, m.deliveryId)) == None ||
        CancelsSucceed(st.sys, ActiveTasksByModule(st.sys, m.subject.repo, m.subject.target, m.kind), m.works)
  }

  lemma {:induction false} RowsFit(s: Sys, olds: seq<Task>)
    requires SysOk(s) && forall o :: o in olds ==> o in s.tasks
    ensures forall o :: o in olds ==> Fits(s, o) && o.id < |s.tasks|
  {
    hide BuildAsynqTaskId, OneRowEach, EntriesOwned, HandlersOk, NoneStranded;
  }

  lemma {:induction false} CallKeeps(st: State, m: Move)
    requires Inv(st) && IsCall(m)
    ensures Inv(NextMove(st, m))
  {
    hide SysOk, CreateTask, Replace, Fits, Follows;
    var t := NewTask(st.sys, m.kind, m.subject, m.deliveryId);
    var olds := ActiveTasksByModule(st.sys, m.subject.repo, m.subject.target, m.kind);
    if CreateTask(st.sys, t).Some? {
      RowsFit(st.sys, olds);
      ReplaceKeeps(st.sys, m.kind, m.subject, m.deliveryId, olds, m.reaches, m.works);
      var s' := Replace(st.sys, t, olds, m.reaches, m.works);
      SeeKeeps(st, s');
      ReplaceLeavesNew(st.sys, m.kind, m.subject, m.deliveryId, olds, m.reaches, m.works);
    }
  }

  lemma {:induction false} ReplaceLeavesNew(s: Sys, kind: Kind, subject: Subject, d: string, olds: seq<Task>,
      reaches: bool, works: Task -> bool)
    requires (forall o :: o in olds ==> o.id < |s.tasks|) && CreateTask(s, NewTask(s, kind, subject, d)).Some?
    ensures Fits(Replace(s, NewTask(s, kind, subject, d), olds, reaches, works), NewTask(s, kind, subject, d))
  {
    hide CreateTask, Replace, KeyOf;
    ReplacementLeavesNoGap(s, kind, subject, d, olds, reaches, works);
    var t := NewTask(s, kind, subject, d);
    var trace := ReplaceTrace(s, t, olds, reaches, works);
    assert Stands(trace[|trace| - 1], t);
  }

  lemma {:induction false} MoveExact(st: State, m: Move)
    requires Inv(st) && OneActiveEach(st.sys)
    ensures Inv(NextMove(st, m))
    ensures OneActiveEach(NextMove(st, m).sys) <==> Allowed(st, m)
  {
    hide Inv, OneActiveEach, Next, Written, CreateTask, Replace, CancelsSucceed, ActiveTasksByModule;
    if m.Single? {
      StepKeeps(st, m.step);
      StepExact(st, m.step);
    } else if IsCall(m) {
      CallKeeps(st, m);
      CallExact(st.sys, m.kind, m.subject, m.deliveryId, m.reaches, m.works)
        by { assert SysOk(st.sys) by { InvSys(st); } }
    }
  }

  lemma {:induction false} InvSys(st: State)
    requires Inv(st)
    ensures SysOk(st.sys)
  {}

  ghost predicate NeverTwo(moves: seq<Move>) {
    forall k :: 0 <= k <= |moves| ==> OneActiveEach(AfterMoves(moves[..k]).sys)
  }

  ghost predicate AllAllowed(moves: seq<Move>) {
    forall k :: 0 <= k < |moves| ==> Allowed(AfterMoves(moves[..k]), moves[k])
  }

  lemma {:induction false} NeverTwoPrefix(front: seq<Move>, m: Move)
    ensures NeverTwo(front + [m]) <==> NeverTwo(front) && OneActiveEach(AfterMoves(front + [m]).sys)
  {
    hide AfterMoves, OneActiveEach;
    var moves := front + [m];
    assert moves[..|moves|] == moves && front[..|front|] == front;
    assert forall k :: 0 <= k <= |front| ==> moves[..k] == front[..k];
    if NeverTwo(moves) {
      forall k | 0 <= k <= |front|
        ensures OneActiveEach(AfterMoves(front[..k]).sys)
      {
        assert moves[..k] == front[..k];
      }
    }
  }

  lemma {:induction false} AllAllowedPrefix(front: seq<Move>, m: Move)
    ensures AllAllowed(front + [m]) <==> AllAllowed(front) && Allowed(AfterMoves(front), m)
  {
    hide AfterMoves, Allowed;
    var moves := front + [m];
    assert moves[|front|] == m && moves[..|front|] == front;
    assert forall k :: 0 <= k < |front| ==> moves[..k] == front[..k] && moves[k] == front[k];
    if AllAllowed(moves) {
      forall k | 0 <= k < |front| ensures Allowed(AfterMoves(front[..k]), front[k]) {
        assert moves[..k] == front[..k] && moves[k] == front[k];
      }
    }
  }

  /** In any run of steps and calls, with stale copies, failing queues, failing cancellations, recovery
      and manual retries: there are never two active in one place if and only if every move was allowed
      when it was made. */
  lemma {:induction false} NeverTwoIff(moves: seq<Move>)
    ensures Inv(AfterMoves(moves))
    ensures NeverTwo(moves) <==> AllAllowed(moves)
  {
    hide Inv, OneActiveEach, Allowed, NextMove;
    if |moves| == 0 {
      NothingYet(moves);
    } else {
      var front, m := moves[..|moves| - 1], moves[|moves| - 1];
      assert moves == front + [m];
      NeverTwoIff(front);
      hide NeverTwo, AllAllowed;
      NeverTwoPrefix(front, m);
      AllAllowedPrefix(front, m);
      NeverTwoHolds(front);
      if OneActiveEach(AfterMoves(front).sys) {
        MoveExact(AfterMoves(front), m);
      } else {
        MoveKeeps(AfterMoves(front), m);
      }
    }
  }

  lemma {:induction false} NothingYet(moves: seq<Move>)
    requires |moves| == 0
    ensures Inv(AfterMoves(moves)) && NeverTwo(moves) && AllAllowed(moves)
  {
    assert moves[..0] == moves;
  }

  lemma {:induction false} NeverTwoHolds(moves: seq<Move>)
    ensures NeverTwo(moves) ==> OneActiveEach(AfterMoves(moves).sys)
  {
    assert moves[..|moves|] == moves;
  }

  lemma {:induction false} MoveKeeps(st: State, m: Move)
    requires Inv(st)
    ensures Inv(NextMove(st, m))
  {
    hide Inv, Next, CreateTask, Replace;
    if m.Single? { StepKeeps(st, m.step); } else if IsCall(m) { CallKeeps(st, m); }
  }

  // ---- A run with two active tasks -----------------------------------------------------------

  const PLACE := Subject("r", "b", 0, 0)
  const OLD := Task(0, CodeFromDoc, Pending, "", PLACE, "d", MAX_RETRY)
  const NEW := Task(1, CodeFromDoc, Pending, "", PLACE, "e", MAX_RETRY)

  function Replaced(): Sys {
    Sys([OLD.(status := Cancelled), InQueue(NEW)], map[KeyOf(NEW) := Job("e", CodeFromDoc)], map[])
  }

  lemma {:induction false} OldIsListed()
    ensures ActiveTasksByModule(Sys([OLD], map[], map[]), "r", "b", CodeFromDoc) == [OLD]
  {
    var p := (t: Task) => t.subject.repo == "r" && t.kind == CodeFromDoc && t.subject.target == "b" &&
      t.status.IsActive();
    SelectAppend([], OLD, p);
    assert [] + [OLD] == [OLD] && Select([], p) == [];
    assert ActiveTasksByModule(Sys([OLD], map[], map[]), "r", "b", CodeFromDoc) == Select([OLD], p);
  }

  lemma {:induction false} OldIsReplaced()
    ensures CreateTask(Sys([OLD], map[], map[]), NEW).Some?
    ensures Replace(Sys([OLD], map[], map[]), NEW, [OLD], true, _ => true) == Replaced()
  {
    hide BuildAsynqTaskId;
    var s := Sys([OLD], map[], map[]);
    assert [OLD][1..] == [] && RowFor([OLD], "e", CodeFromDoc) == None;
    var s1 := Sys([OLD, NEW], map[], map[]);
    assert [OLD] + [NEW] == [OLD, NEW] && CreateTask(s, NEW) == Some(s1);
    var s2 := Sys([OLD, InQueue(NEW)], map[KeyOf(NEW) := Job("e", CodeFromDoc)], map[]);
    assert EnqueueAndMark(s1, NEW, true) == s2 by { assert [OLD, NEW][1 := InQueue(NEW)] == [OLD, InQueue(NEW)]; }
    OneCancelled(s2, OLD, _ => true);
    assert [OLD, InQueue(NEW)][0 := OLD.(status := Cancelled)] == [OLD.(status := Cancelled), InQueue(NEW)];
    assert CancelTask(s2, OLD, true).0 == Replaced();
  }

  /** Two active tasks without any manual retry, interrupted call or failed cancellation: recovery has
      listed a pending task, a call replaces it, and then recovery requeues the copy it has listed. */
  lemma {:induction false} StaleRecoveryMakesTwo() returns (moves: seq<Move>)
    ensures |moves| == 3 && moves[0] == Single(Persist(CodeFromDoc, PLACE, "d")) && moves[1].Call? && moves[2].Single?
    ensures Allowed(AfterMoves([moves[0]]), moves[1])
    ensures moves[2].step.Recover? && moves[2].step.copy == AfterMoves([moves[0]]).sys.tasks[0]
    ensures !OneActiveEach(AfterMoves(moves).sys)
    ensures AfterMoves(moves).sys.tasks == [InQueue(OLD), InQueue(NEW)]
  {
    hide BuildAsynqTaskId, ActiveTasksByModule, Replace, Requeue, OneActiveEach;
    var works := (t: Task) => true;
    var a, b, c := Single(Persist(CodeFromDoc, PLACE, "d")), Call(CodeFromDoc, PLACE, "e", true, works),
      Single(Recover(OLD, true));
    moves := [a, b, c];
    var st1 := State(Sys([OLD], map[], map[]), map[], {OLD});
    assert [a][..0] == [] && moves[..2] == [a, b] && [a, b][..1] == [a];
    assert [] + [OLD] == [OLD];
    assert AfterMoves([a]).sys == st1.sys && OLD in AfterMoves([a]).seen && AfterMoves([a]).attempts == map[];
    OldIsListed();
    OldIsReplaced();
    assert Replace(st1.sys, NEW, [OLD], true, works) == Replaced()
      by { SameWorks(st1.sys, NEW, [OLD], works, _ => true); }
    var st2 := AfterMoves([a, b]);
    assert st2.sys == Replaced() && OLD in st2.seen && st2.attempts == map[];
    LastMove(st2);
    assert AfterMoves(moves) == NextMove(st2, c);
    TwoAreActive(AfterMoves(moves).sys);
  }

  lemma {:induction false} SameWorks(s: Sys, t: Task, olds: seq<Task>, f: Task -> bool, g: Task -> bool)
    requires forall o :: f(o) == g(o)
    ensures Replace(s, t, olds, true, f) == Replace(s, t, olds, true, g)
  {
    hide EnqueueAndMark, CreateTask, CancelAll;
    if CreateTask(s, t).Some? { SameCancels(EnqueueAndMark(CreateTask(s, t).value, t, true), olds, f, g); }
  }

  lemma {:induction false} SameCancels(s: Sys, olds: seq<Task>, f: Task -> bool, g: Task -> bool)
    requires forall o :: f(o) == g(o)
    ensures CancelAll(s, olds, f) == CancelAll(s, olds, g)
    decreases |olds|
  {
    hide CancelTask;
    if olds != [] { SameCancels(CancelTask(s, olds[0], f(olds[0])).0, olds[1..], f, g); }
  }

  lemma {:induction false} LastMove(st: State)
    requires st.sys == Replaced() && OLD in st.seen && st.attempts == map[]
    ensures NextMove(st, Single(Recover(OLD, true))).sys.tasks == [InQueue(OLD), InQueue(NEW)]
  {
    hide Requeue, BuildAsynqTaskId;
    RequeueWrites(st.sys, st.attempts, OLD, true);
    assert [OLD.(status := Cancelled), InQueue(NEW)][0 := InQueue(OLD)] == [InQueue(OLD), InQueue(NEW)];
  }

  lemma {:induction false} TwoAreActive(s: Sys)
    requires s.tasks == [InQueue(OLD), InQueue(NEW)]
    ensures !OneActiveEach(s)
  {
    hide BuildAsynqTaskId;
    assert SamePlace(s.tasks[0], s.tasks[1]) && Exclusive(s.tasks[0].kind);
  }
}
