/** What holds in every run of the review/fix iteration protocol. */
module IterationLaws {
  import opened Wrappers
  import opened IterationModel
  import opened IterationTables
  import opened IterationProtocol

  // ---- Steps keep the invariant --------------------------------------------------------------

  lemma {:induction false} CallsStayOk(st: State, db: Db)
    requires Inv(st) && Progresses(st.db, db)
    ensures forall c :: c in st.calls ==> CallOk(db, st.calls[c])
    ensures forall sid :: st.started[sid] <= |Of(db.rounds, sid)|
  {
    hide CallOk, ValidDb;
    forall c | c in st.calls ensures CallOk(db, st.calls[c]) {
      CallStaysOk(st.db, db, st.calls[c]);
    }
    forall sid ensures st.started[sid] <= |Of(db.rounds, sid)| {
      assert Grows(Of(st.db.rounds, sid), Of(db.rounds, sid));
    }
  }

  lemma {:induction false} OnlyTables(st: State, db: Db)
    requires Inv(st) && ValidDb(db) && Progresses(st.db, db)
    ensures Inv(st.(db := db))
  {
    CallsStayOk(st, db);
  }

  lemma {:induction false} EndKeeps(st: State, c: nat, db: Db)
    requires Inv(st) && ValidDb(db) && Progresses(st.db, db)
    ensures Inv(EndCall(st, c, db))
  {
    CallsStayOk(st, db);
  }

  lemma {:induction false} GoOnKeeps(st: State, c: nat, db: Db, call: Call)
    requires Inv(st) && ValidDb(db) && Progresses(st.db, db) && CallOk(db, call)
    ensures Inv(GoOn(st, c, db, call))
  {
    hide CallOk, ValidDb;
    CallsStayOk(st, db);
  }

  ghost predicate Kept(st: State, st': State) { Inv(st') && Progresses(st.db, st'.db) }

  lemma {:induction false} Unchanged(st: State)
    requires Inv(st)
    ensures Kept(st, st)
  {
    ProgressesSame(st.db);
  }

  lemma {:induction false} EnsureStepKeeps(st: State, c: nat, call: Call, now: int)
    requires Inv(st) && c in st.calls && st.calls[c] == call && call.Found?
    ensures Kept(st, AfterEnsure(st, c, call.purpose, EnsureLatest(st.db, call.session, now)))
  {
    hide EnsureLatest, ValidDb, Progresses;
    EnsureKeeps(st.db, call.session, now);
    var (db, e) := EnsureLatest(st.db, call.session, now);
    match e
    case Ready(s, latest) => GoOnKeeps(st, c, db, Proceed(call.purpose, s, latest));
    case MustWait(s, number) => GoOnKeeps(st, c, db, Waiting(call.purpose, s, number));
    case GivenUp => EndKeeps(st, c, db);
  }

  lemma {:induction false} PollStepKeeps(st: State, c: nat, call: Call)
    requires Inv(st) && c in st.calls && st.calls[c] == call && call.Waiting?
    ensures Kept(st, Advance(st, Poll(c), c, call))
  {
    hide Progresses;
    ProgressesSame(st.db);
    var s := call.session;
    LatestIsLast(st.db, s.id);
    var r := GetRound(st.db, s.id, call.number);
    if r.Some? && r.value.IsCompleted() {
      assert ValidSession(st.db, s.id);
      GoOnKeeps(st, c, st.db, Proceed(call.purpose, s, r));
    }
  }

  lemma {:induction false} CompareStepKeeps(st: State, c: nat, call: Call)
    requires Inv(st) && c in st.calls && st.calls[c] == call && call.Comparing?
    ensures Kept(st, Advance(st, Compare(c), c, call))
  {
    hide Progresses, Exhaust;
    ProgressesSame(st.db);
    if !call.isRecovery && call.count >= 2 && TwoZeroes(Of(st.db.rounds, call.session.id)) {
      ExhaustKeeps(st.db, call.session);
      EndKeeps(st, c, Exhaust(st.db, call.session));
    } else {
      GoOnKeeps(st, c, st.db, Opening(call.session, call.found, call.latest, call.isRecovery));
    }
  }

  lemma {:induction false} CountStepKeeps(st: State, c: nat, call: Call)
    requires Inv(st) && c in st.calls && st.calls[c] == call && call.Counting?
    ensures Kept(st, Advance(st, Count(c), c, call))
  {
    hide Progresses, Exhaust;
    ProgressesSame(st.db);
    var n := CountNonRecovery(st.db, call.session.id);
    if !call.isRecovery && n >= call.session.maxRounds {
      ExhaustKeeps(st.db, call.session);
      EndKeeps(st, c, Exhaust(st.db, call.session));
    } else {
      GoOnKeeps(st, c, st.db, Comparing(call.session, call.found, call.latest, call.isRecovery, n));
    }
  }

  lemma {:induction false} OpenStepKeeps(st: State, c: nat, call: Call, taskId: string, progress: Progress)
    requires Inv(st) && c in st.calls && st.calls[c] == call && call.Opening?
    ensures Kept(st, Advance(st, Open(c, taskId, progress), c, call))
  {
    hide OpenRound, Progresses, ValidDb;
    Unchanged(st);
    if taskId != "" && taskId !in st.db.tasks {
      OpenKeeps(st.db, call.session, call.latest, call.found, call.isRecovery, taskId, progress);
      var (db, ok) := OpenRound(st.db, call.session, call.latest, call.found, call.isRecovery, taskId, progress);
      EndKeeps(st, c, db);
    }
  }

  lemma {:induction false} AdvanceKeeps(st: State, step: Step, c: nat)
    requires Inv(st) && c in st.calls
    ensures Kept(st, Advance(st, step, c, st.calls[c]))
  {
    hide ValidDb, Progresses, AfterEnsure, OpenRound, Approve, Exhaust, EnsureLatest, GetRound, CountNonRecovery,
      IsRecovery;
    Unchanged(st);
    var call := st.calls[c];
    match step
    case Ensure(_, now) => if call.Found? { EnsureStepKeeps(st, c, call, now); }
    case Poll(_) => if call.Waiting? { PollStepKeeps(st, c, call); }
    case Judge(_) =>
      if call.Judging? {
        GoOnKeeps(st, c, st.db, Counting(call.session, call.found, call.latest, IsRecovery(st.db, call.latest)));
      }
    case Count(_) => if call.Counting? { CountStepKeeps(st, c, call); }
    case Compare(_) => if call.Comparing? { CompareStepKeeps(st, c, call); }
    case Open(_, taskId, progress) => if call.Opening? { OpenStepKeeps(st, c, call, taskId, progress); }
    case Finish(_) =>
      if call.Approving? {
        ApproveKeeps(st.db, call.session, call.latest);
        EndKeeps(st, c, Approve(st.db, call.session, call.latest));
      }
    case Abandon(_) => EndKeeps(st, c, st.db);
    case _ =>
  }

  lemma {:induction false} StepKeeps(st: State, step: Step)
    requires Inv(st)
    ensures Kept(st, Next(st, step))
  {
    hide ValidDb, Progresses, Advance, FindOrCreate, PersistFix, PersistFailure, PersistZeroFix, FindActive;
    Unchanged(st);
    match step
    case StartReview(c, repo, pr, maxRounds, found) =>
      FindOrCreateKeeps(st.db, repo, pr, maxRounds);
      var (db, s) := FindOrCreate(st.db, repo, pr, maxRounds);
      GoOnKeeps(st, c, db, Found(ForReview(found), s));
    case StartApproval(c, repo, pr) =>
      if FindActive(st.db, repo, pr).Some? {
        FindActiveIsCopy(st.db, repo, pr);
        GoOnKeeps(st, c, st.db, Found(ForApproval, FindActive(st.db, repo, pr).value));
      }
    case TaskChanges(id, task) =>
      TasksDoNotMatter(st.db, st.db.tasks[id := task]);
      OnlyTables(st, st.db.(tasks := st.db.tasks[id := task]));
    case FixPersisted(sid, number, repo, pr, taskId, o, now) =>
      PersistFixKeeps(st.db, sid, number, repo, pr, taskId, o, now);
      OnlyTables(st, PersistFix(st.db, sid, number, repo, pr, taskId, o, now));
    case FailurePersisted(sid, number, repo, pr, now) =>
      PersistFailureKeeps(st.db, sid, number, repo, pr, now);
      OnlyTables(st, PersistFailure(st.db, sid, number, repo, pr, now));
    case ZeroPersisted(sid, number, repo, pr, taskId, now) =>
      PersistZeroFixKeeps(st.db, sid, number, repo, pr, taskId, now);
      OnlyTables(st, PersistZeroFix(st.db, sid, number, repo, pr, taskId, now));
    case _ =>
      var c := CallOf(step).value;
      if c in st.calls { AdvanceKeeps(st, step, c); }
  }

  lemma {:induction false} InvHolds(steps: seq<Step>)
    ensures Inv(After(steps))
  {
    if steps != [] {
      InvHolds(steps[..|steps| - 1]);
      StepKeeps(After(steps[..|steps| - 1]), steps[|steps| - 1]);
    }
  }

  // ---- Laws ----------------------------------------------------------------------------------

  /** However calls interleave, a session never has more than `maxRounds` rounds that are not
      recoveries; its rounds are numbered 1, 2, 3, ...; and every round but the latest that has a fix
      task is completed. */
  lemma {:induction false} RoundsAreBounded(steps: seq<Step>, sid: nat)
    requires 1 <= sid <= |After(steps).db.sessions|
    ensures var db := After(steps).db;
      && WithinCap(Of(db.rounds, sid), db.sessions[sid - 1].maxRounds)
      && Numbered(Of(db.rounds, sid))
      && OnlyLatestOpen(Of(db.rounds, sid))
  {
    InvHolds(steps);
    assert ValidSession(After(steps).db, sid);
  }

  /** Never two active sessions for one pull request. */
  lemma {:induction false} OneActiveSession(steps: seq<Step>)
    ensures OneActive(After(steps).db.sessions)
  {
    InvHolds(steps);
  }

  lemma {:induction false} AfterOne(steps: seq<Step>, step: Step)
    ensures After(steps + [step]) == Next(After(steps), step)
  {
    hide Next;
    assert (steps + [step])[..|steps|] == steps;
  }

  lemma {:induction false} RunsProgress(steps: seq<Step>, more: seq<Step>)
    ensures Progresses(After(steps).db, After(steps + more).db)
  {
    hide After, Progresses, Next, Inv;
    if more == [] {
      assert steps + more == steps;
      ProgressesSame(After(steps).db);
    } else {
      var front, last := more[..|more| - 1], more[|more| - 1];
      assert (steps + front) + [last] == steps + more;
      RunsProgress(steps, front);
      AfterOne(steps + front, last);
      InvHolds(steps + front);
      StepKeeps(After(steps + front), last);
      ProgressesChain(After(steps).db, After(steps + front).db, After(steps + more).db);
    }
  }

  /** Once a round is completed, nothing that happens later changes it. */
  lemma {:induction false} CompletedRoundsAreFinal(steps: seq<Step>, more: seq<Step>, i: nat)
    requires i < |After(steps).db.rounds| && After(steps).db.rounds[i].IsCompleted()
    ensures i < |After(steps + more).db.rounds| && After(steps + more).db.rounds[i] == After(steps).db.rounds[i]
  {
    RunsProgress(steps, more);
    assert Evolves(After(steps).db.rounds[i], After(steps + more).db.rounds[i]);
  }

  /** A round that is no recovery is never opened after two zero-fix rounds in a row. */
  lemma {:induction false} NoRoundAfterTwoZeroes(steps: seq<Step>, c: nat, taskId: string, progress: Progress)
    requires c in After(steps).calls && After(steps).calls[c].Opening?
    ensures var sid := After(steps).calls[c].session.id;
      var before, after := Of(After(steps).db.rounds, sid),
        Of(After(steps + [Open(c, taskId, progress)]).db.rounds, sid);
      |before| < |after| && !after[|before|].isRecovery ==> !TwoZeroes(before)
  {
    hide OpenRound, ValidDb, Progresses, TwoZeroes, NonRecovery, LatestOk, CopyOk;
    var st := After(steps);
    assert (steps + [Open(c, taskId, progress)])[..|steps|] == steps;
    InvHolds(steps);
    var call := st.calls[c];
    assert CallOk(st.db, call);
    if taskId != "" && taskId !in st.db.tasks {
      OpenKeeps(st.db, call.session, call.latest, call.found, call.isRecovery, taskId, progress);
    }
  }

  // ---- Runs in which no fix fails ------------------------------------------------------------

  ghost predicate NoFailure(steps: seq<Step>) {
    forall k :: 0 <= k < |steps| && steps[k].TaskChanges? ==> steps[k].task.status != Failed
  }

  ghost predicate NoRecoveries(rs: seq<Round>) { forall k :: 0 <= k < |rs| ==> !rs[k].isRecovery }

  predicate Steady(call: Call) {
    call.Counting? || call.Comparing? || call.Opening? ==> !call.isRecovery
  }

  ghost predicate Healthy(st: State) {
    && (forall id :: id in st.db.tasks ==> st.db.tasks[id].status != Failed)
    && (forall c :: c in st.calls ==> Steady(st.calls[c]))
    && (forall sid :: NoRecoveries(Of(st.db.rounds, sid)))
  }

  /** Handlers other than opening a round leave tasks alone and insert no round. */
  ghost predicate SameTasksAndLength(db: Db, db': Db) { db'.tasks == db.tasks && |db'.rounds| == |db.rounds| }

  lemma {:induction false} NoRecoveriesKept(a: seq<Round>, b: seq<Round>)
    requires Grows(a, b) && |a| == |b| && NoRecoveries(a)
    ensures NoRecoveries(b)
  {
    forall k | 0 <= k < |b| ensures !b[k].isRecovery { assert Evolves(a[k], b[k]); }
  }

  lemma {:induction false} OfLength(a: seq<Round>, b: seq<Round>, sid: nat)
    requires Grows(a, b) && |a| == |b|
    ensures |Of(a, sid)| == |Of(b, sid)|
  {
    if a != [] {
      assert Evolves(a[|a| - 1], b[|b| - 1]);
      OfLength(a[..|a| - 1], b[..|b| - 1], sid);
    }
  }

  lemma {:induction false} RoundsStayHealthy(db: Db, db': Db)
    requires Progresses(db, db') && |db'.rounds| == |db.rounds|
    requires forall sid :: NoRecoveries(Of(db.rounds, sid))
    ensures forall sid :: NoRecoveries(Of(db'.rounds, sid))
  {
    forall sid ensures NoRecoveries(Of(db'.rounds, sid)) {
      OfLength(db.rounds, db'.rounds, sid);
      assert Grows(Of(db.rounds, sid), Of(db'.rounds, sid)) && NoRecoveries(Of(db.rounds, sid));
      NoRecoveriesKept(Of(db.rounds, sid), Of(db'.rounds, sid));
    }
  }

  lemma {:induction false} HandlersInsertNothing(st: State, step: Step)
    requires !step.Open? && !step.TaskChanges?
    ensures SameTasksAndLength(st.db, Next(st, step).db)
  {
    hide FindOrCreate, FindActive, EnsureLatest, GetRound, Exhaust, Approve, PersistFix, PersistFailure, PersistZeroFix,
      CountNonRecovery, TwoZeroes, IsRecovery;
    var c := CallOf(step);
    if c.Some? && c.value in st.calls { CallsInsertNoRound(st.db, st.calls[c.value], step); }
    match step
    case StartReview(_, repo, pr, maxRounds, _) => CreatingInsertsNoRound(st.db, repo, pr, maxRounds);
    case FixPersisted(sid, number, repo, pr, taskId, o, now) =>
      FixInsertsNoRound(st.db, sid, number, repo, pr, taskId, o, now);
    case FailurePersisted(sid, number, repo, pr, now) => FailureInsertsNoRound(st.db, sid, number, repo, pr, now);
    case ZeroPersisted(sid, number, repo, pr, taskId, now) =>
      ZeroInsertsNoRound(st.db, sid, number, repo, pr, taskId, now);
    case _ =>
  }

  lemma {:induction false} CreatingInsertsNoRound(db: Db, repo: string, pr: int, maxRounds: int)
    ensures SameTasksAndLength(db, FindOrCreate(db, repo, pr, maxRounds).0)
  {}

  lemma {:induction false} CallsInsertNoRound(db: Db, call: Call, step: Step)
    ensures step.Ensure? ==> SameTasksAndLength(db, EnsureLatest(db, call.session, step.now).0)
    ensures SameTasksAndLength(db, Exhaust(db, call.session))
    ensures call.Approving? ==> SameTasksAndLength(db, Approve(db, call.session, call.latest))
  {
    hide Recompute, LatestRound, BreaksIndex;
  }

  lemma {:induction false} FixInsertsNoRound(db: Db, sid: nat, number: int, repo: string, pr: int, taskId: string,
      o: FixOutput, now: int)
    ensures SameTasksAndLength(db, PersistFix(db, sid, number, repo, pr, taskId, o, now))
  {
    hide Recompute, FindActive, GetRound, BreaksIndex;
  }

  lemma {:induction false} FailureInsertsNoRound(db: Db, sid: nat, number: int, repo: string, pr: int, now: int)
    ensures SameTasksAndLength(db, PersistFailure(db, sid, number, repo, pr, now))
  {
    hide FindActive, GetRound, BreaksIndex;
  }

  lemma {:induction false} ZeroInsertsNoRound(db: Db, sid: nat, number: int, repo: string, pr: int, taskId: string,
      now: int)
    ensures SameTasksAndLength(db, PersistZeroFix(db, sid, number, repo, pr, taskId, now))
  {
    hide FindActive, GetRound, BreaksIndex;
  }

  lemma {:induction false} OpenStaysHealthy(st: State, c: nat, taskId: string, progress: Progress)
    requires Healthy(st)
    ensures Healthy(Next(st, Open(c, taskId, progress)))
  {
    if c in st.calls && st.calls[c].Opening? && taskId != "" && taskId !in st.db.tasks {
      var call := st.calls[c];
      assert Steady(call) && !call.isRecovery;
      hide OpenRound, Of, NoRecoveries, Steady;
      var db' := OpenRound(st.db, call.session, call.latest, call.found, call.isRecovery, taskId, progress).0;
      OpenedRounds(st.db, call.session, call.latest, call.found, call.isRecovery, taskId, progress);
      OpenedStayHealthy(st.db, db');
    }
  }

  lemma {:induction false} OpenedStayHealthy(db: Db, db': Db)
    requires forall sid :: NoRecoveries(Of(db.rounds, sid))
    requires db'.rounds == db.rounds || (|db'.rounds| == |db.rounds| + 1 && db'.rounds[..|db.rounds|] == db.rounds &&
      !db'.rounds[|db.rounds|].isRecovery)
    ensures forall sid :: NoRecoveries(Of(db'.rounds, sid))
  {
    forall sid ensures NoRecoveries(Of(db'.rounds, sid)) {
      assert NoRecoveries(Of(db.rounds, sid));
      if |db'.rounds| > |db.rounds| {
        assert db'.rounds == db.rounds + [db'.rounds[|db.rounds|]];
        OfAppend(db.rounds, db'.rounds[|db.rounds|], sid);
      }
    }
  }

  lemma {:induction false} OpenedRounds(db: Db, s: Session, latest: Option<Round>, found: int, isRecovery: bool,
                                        taskId: string, progress: Progress)
    ensures var db' := OpenRound(db, s, latest, found, isRecovery, taskId, progress).0;
      && (db'.rounds != db.rounds ==>
            |db'.rounds| == |db.rounds| + 1 && db'.rounds[..|db.rounds|] == db.rounds &&
            db'.rounds[|db.rounds|].isRecovery == isRecovery)
      && (db'.tasks == db.tasks || db'.tasks == db.tasks[taskId := FixTask(Queued, None)])
  {
    hide GetRound, BreaksIndex, InsertRound;
    var number := if latest.Some? then latest.value.number + 1 else 1;
    var written := UpdateSession(db, s.(status := Fixing, currentRound := number, totalFound := s.totalFound + found));
    if written.Some? { InsertedRounds(written.value, s.id, number, found, isRecovery, taskId, progress); }
  }

  lemma {:induction false} InsertedRounds(db: Db, sid: nat, number: int, found: int, isRecovery: bool, taskId: string,
                                          progress: Progress)
    ensures var db' := InsertRound(db, sid, number, found, isRecovery, taskId, progress).0;
      && (db'.rounds != db.rounds ==>
            |db'.rounds| == |db.rounds| + 1 && db'.rounds[..|db.rounds|] == db.rounds &&
            db'.rounds[|db.rounds|].isRecovery == isRecovery)
      && (db'.tasks == db.tasks || db'.tasks == db.tasks[taskId := FixTask(Queued, None)])
  {
    hide GetRound;
  }

  lemma {:induction false} HealthyHolds(steps: seq<Step>)
    requires NoFailure(steps)
    ensures Healthy(After(steps))
  {
    if steps != [] {
      var front, step := steps[..|steps| - 1], steps[|steps| - 1];
      var st := After(front);
      HealthyHolds(front);
      InvHolds(front);
      StepKeeps(st, step);
      if step.Open? {
        OpenStaysHealthy(st, step.call, step.taskId, step.progress);
      } else if step.TaskChanges? {
        assert steps[|steps| - 1].task.status != Failed;
      } else {
        HandlersInsertNothing(st, step);
        RoundsStayHealthy(st.db, Next(st, step).db);
        CallsStayHealthy(st, step);
      }
    }
  }

  lemma {:induction false} CallsStayHealthy(st: State, step: Step)
    requires Healthy(st) && !step.Open? && !step.TaskChanges?
    ensures forall c :: c in Next(st, step).calls ==> Steady(Next(st, step).calls[c])
  {
    hide EnsureLatest, Exhaust, Approve, PersistFix, PersistFailure, PersistZeroFix, FindActive, FindOrCreate,
      GetRound, Of;
  }

  lemma {:induction false} NoRecoveriesCount(rs: seq<Round>)
    requires NoRecoveries(rs)
    ensures NonRecovery(rs) == rs
  {
    if rs != [] { NoRecoveriesCount(rs[..|rs| - 1]); }
  }

  /** When no fix task fails, AfterReviewCompleted returns true at most `maxRounds` times per session. */
  lemma {:induction false} ReturnsAreBounded(steps: seq<Step>, sid: nat)
    requires NoFailure(steps) && 1 <= sid <= |After(steps).db.sessions|
    ensures var st := After(steps);
      st.started[sid] <= st.db.sessions[sid - 1].maxRounds || st.started[sid] == 0
  {
    var st := After(steps);
    InvHolds(steps);
    HealthyHolds(steps);
    RoundsAreBounded(steps, sid);
    assert NoRecoveries(Of(st.db.rounds, sid));
    NoRecoveriesCount(Of(st.db.rounds, sid));
  }
}
