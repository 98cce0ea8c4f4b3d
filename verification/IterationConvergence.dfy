/** The review side and the fix worker both complete the round of a succeeded fix.  Whichever does it
    first, and however often either repeats it, the round comes out the same; and so does the session's
    total, unless the session has ended meanwhile. */
module IterationConvergence {
  import opened Wrappers
  import opened IterationModel
  import opened IterationTables
  import opened IterationProtocol
  import opened IterationLaws
  import opened IterationTotals

  /** A review that heals with the session copy it holds, or the worker persisting or repairing. */
  datatype Finisher = Heal(session: Session, now: int) | Persist(now: int)

  datatype Job = Job(sid: nat, number: int, repo: string, pr: int, taskId: string, output: FixOutput)

  function Apply(db: Db, job: Job, f: Finisher): Db {
    match f
    case Heal(s, now) => EnsureLatest(db, s, now).0
    case Persist(now) => PersistFix(db, job.sid, job.number, job.repo, job.pr, job.taskId, job.output, now)
  }

  function ApplyAll(db: Db, job: Job, fs: seq<Finisher>): Db {
    if fs == [] then db else Apply(ApplyAll(db, job, fs[..|fs| - 1]), job, fs[|fs| - 1])
  }

  /** The job's round is the latest of its session, which may have ended, and its fix has succeeded. */
  ghost predicate Concerns(db: Db, job: Job) {
    && ValidDb(db)
    && 1 <= job.sid <= |db.sessions|
    && db.sessions[job.sid - 1].repo == job.repo && db.sessions[job.sid - 1].pr == job.pr
    && job.number == |Of(db.rounds, job.sid)| > 0
    && Of(db.rounds, job.sid)[job.number - 1].fixTaskId == job.taskId != ""
    && TaskOf(db, job.taskId) == Some(FixTask(Succeeded, Some(job.output)))
  }

  ghost predicate IsOpen(db: Db, job: Job)
    requires Concerns(db, job)
  {
    !Of(db.rounds, job.sid)[job.number - 1].IsCompleted()
  }

  /** Copies may be stale in everything but the columns that never change. */
  ghost predicate CopiesOk(db: Db, job: Job, fs: seq<Finisher>)
    requires Concerns(db, job)
  {
    forall f :: f in fs && f.Heal? ==> SameSession(db.sessions[job.sid - 1], f.session) && f.session.IsActive()
  }

  /** The session has not ended. */
  predicate IsRunning(db: Db, job: Job)
    requires 1 <= job.sid <= |db.sessions|
  {
    db.sessions[job.sid - 1].IsActive()
  }

  /** Another session of the pull request is active, so that the index refuses a second one. */
  predicate IsReplaced(db: Db, job: Job) {
    exists k :: 0 <= k < |db.sessions| && k != job.sid - 1 && db.sessions[k].IsActive() &&
      db.sessions[k].repo == job.repo && db.sessions[k].pr == job.pr
  }

  /** Whether the first finisher gets to write the session. */
  predicate Reaches(db: Db, job: Job, f: Finisher)
    requires 1 <= job.sid <= |db.sessions|
  {
    IsRunning(db, job) || (f.Heal? && !IsReplaced(db, job))
  }

  /** The round as it should end. */
  ghost predicate Counted(db: Db, job: Job, before: seq<Round>) {
    Concerns(db, job) && job.number == |before| &&
    var rs := Of(db.rounds, job.sid);
    && rs[..job.number - 1] == before[..job.number - 1]
    && rs[job.number - 1].IsCompleted()
    && rs[job.number - 1].issuesFixed == CountFixed(job.output)
  }

  /** The round and the session as they should end. */
  ghost predicate Settled(db: Db, job: Job, before: seq<Round>) {
    && Counted(db, job, before) && IsRunning(db, job)
    && db.sessions[job.sid - 1].totalFixed == TotalOf(db, job.sid)
    && db.sessions[job.sid - 1].status != Fixing
  }

  /** The round as it should end, and the session as it was when it ended. */
  ghost predicate Stuck(db: Db, job: Job, before: seq<Round>, sessions: seq<Session>) {
    Counted(db, job, before) && !IsRunning(db, job) && db.sessions == sessions
  }

  lemma {:induction false} ActiveIsFound(sessions: seq<Session>, i: nat)
    requires i < |sessions| && sessions[i].IsActive() && OneActive(sessions)
    ensures FindActiveIn(sessions, sessions[i].repo, sessions[i].pr) == Some(sessions[i])
    decreases |sessions|
  {
    if i < |sessions| - 1 { ActiveIsFound(sessions[..|sessions| - 1], i); }
  }

  lemma {:induction false} RunningIsAlone(db: Db, job: Job)
    requires Concerns(db, job) && IsRunning(db, job)
    ensures !IsReplaced(db, job)
  {
    hide ValidSession;
    assert OneActive(db.sessions);
  }

  /** Writing an active copy back is refused exactly when the session has been replaced. */
  lemma {:induction false} WriteIsAccepted(db: Db, job: Job, s: Session)
    requires Concerns(db, job) && s.IsActive() && SameSession(db.sessions[job.sid - 1], s)
    ensures UpdateSession(db, s) ==
      if IsReplaced(db, job) then None else Some(db.(sessions := db.sessions[job.sid - 1 := s]))
  {
    hide ValidSession;
    assert s.id == job.sid;
    assert BreaksIndex(db, s) <==> IsReplaced(db, job);
  }

  lemma {:induction false} SessionRowWritten(db: Db, job: Job, s: Session)
    requires Concerns(db, job) && s.IsActive() && SameSession(db.sessions[job.sid - 1], s) && !IsReplaced(db, job)
    ensures UpdateSession(db, s) == Some(db.(sessions := db.sessions[job.sid - 1 := s]))
    ensures Concerns(db.(sessions := db.sessions[job.sid - 1 := s]), job)
  {
    hide ValidSession, IsReplaced, UpdateSession;
    assert s.id == job.sid;
    WriteIsAccepted(db, job, s);
    SessionWrite(db, s, db.(sessions := db.sessions[job.sid - 1 := s]));
  }

  /** The end of either path: the total is recomputed over the rows and written to the session. */
  lemma {:induction false} TotalWritten(db: Db, job: Job, s: Session, r: Round, before: seq<Round>)
    requires Counted(db, job, before) && Of(db.rounds, job.sid)[job.number - 1] == r && !IsReplaced(db, job)
    requires s.IsActive() && SameSession(db.sessions[job.sid - 1], s)
    ensures var s' := Settle(s, Recompute(db, job.sid, Some(r)));
      UpdateSession(db, s').Some? && Settled(UpdateSession(db, s').value, job, before)
  {
    hide ValidDb, TotalOf, Recompute, UpdateSession, IsReplaced;
    assert ValidDb(db);
    assert LatestOk(db, job.sid, Some(r)) by { NumberedLast(db, job); }
    RecomputeIsTotal(db, job.sid, Some(r));
    var s' := Settle(s, Recompute(db, job.sid, Some(r)));
    SessionRowWritten(db, job, s');
    assert TotalOf(UpdateSession(db, s').value, job.sid) == TotalOf(db, job.sid)
      by { SameRounds(db, UpdateSession(db, s').value, job.sid); }
  }

  lemma {:induction false} SameRounds(a: Db, b: Db, sid: nat)
    requires a.rounds == b.rounds
    ensures TotalOf(a, sid) == TotalOf(b, sid)
  {}

  lemma {:induction false} NumberedLast(db: Db, job: Job)
    requires Concerns(db, job)
    ensures Of(db.rounds, job.sid)[job.number - 1].number == job.number
    ensures LatestRound(db, job.sid) == GetRound(db, job.sid, job.number)
      == Some(Of(db.rounds, job.sid)[job.number - 1])
  {
    LatestIsLast(db, job.sid);
    assert ValidSession(db, job.sid);
  }

  lemma {:induction false} RoundWritten(db: Db, job: Job, done: Round)
    requires Concerns(db, job) && Completes(Of(db.rounds, job.sid)[job.number - 1], done)
    requires done.fixTaskId == job.taskId
    ensures Concerns(UpdateRound(db, done), job)
    ensures Of(UpdateRound(db, done).rounds, job.sid) == Of(db.rounds, job.sid)[job.number - 1 := done]
    ensures UpdateRound(db, done).sessions == db.sessions
  {
    hide ValidDb;
    CompleteRound(db, job.sid, job.number - 1, done);
  }

  /** The first heal: it settles the session, even one that has ended, unless that has been replaced. */
  lemma {:induction false} HealSettles(db: Db, job: Job, s: Session, now: int)
    requires Concerns(db, job) && IsOpen(db, job)
    requires SameSession(db.sessions[job.sid - 1], s) && s.IsActive()
    ensures var db' := Apply(db, job, Heal(s, now));
      && Counted(db', job, Of(db.rounds, job.sid))
      && (if IsReplaced(db, job) then db'.sessions == db.sessions else Settled(db', job, Of(db.rounds, job.sid)))
  {
    hide UpdateRound, UpdateSession, Recompute, Settled, LatestRound, ValidSession, CountFixed;
    NumberedLast(db, job);
    assert s.id == job.sid by { assert IdsOk(db); }
    var r := Of(db.rounds, job.sid)[job.number - 1];
    var done := r.(completedAt := Some(now), issuesFixed := CountFixed(job.output));
    RoundWritten(db, job, done);
    var db1 := UpdateRound(db, done);
    assert IsReplaced(db1, job) == IsReplaced(db, job);
    if IsReplaced(db, job) {
      WriteIsAccepted(db1, job, Settle(s, Recompute(db1, job.sid, Some(done))));
    } else {
      TotalWritten(db1, job, s, done, Of(db.rounds, job.sid));
      SettledIsCounted(Apply(db, job, Heal(s, now)), job, Of(db.rounds, job.sid));
    }
  }

  lemma {:induction false} SettledIsCounted(db: Db, job: Job, before: seq<Round>)
    requires Settled(db, job, before)
    ensures Counted(db, job, before) && IsRunning(db, job)
  {}

  /** The worker finds its session exactly when that has not ended. */
  lemma {:induction false} WorkerFinds(db: Db, job: Job)
    requires Concerns(db, job)
    ensures var s := FindActive(db, job.repo, job.pr);
      if IsRunning(db, job) then s == Some(db.sessions[job.sid - 1]) else s.Some? ==> s.value.id != job.sid
  {
    hide ValidSession;
    if IsRunning(db, job) {
      ActiveIsFound(db.sessions, job.sid - 1);
    } else if FindActive(db, job.repo, job.pr).Some? {
      FoundIsRow(db.sessions, job.repo, job.pr);
      assert IdsOk(db);
    }
  }

  /** Persisting, whether the round is still open or not: the round counts, and the session is settled if
      it has not ended and left alone if it has. */
  lemma {:induction false} PersistSettles(db: Db, job: Job, now: int, before: seq<Round>)
    requires (Concerns(db, job) && IsOpen(db, job) && before == Of(db.rounds, job.sid)) || Counted(db, job, before)
    ensures var db' := Apply(db, job, Persist(now));
      && Counted(db', job, before)
      && (if IsRunning(db, job) then Settled(db', job, before) else db'.sessions == db.sessions)
  {
    hide UpdateRound, UpdateSession, Recompute, GetRound, ValidSession, CountFixed, TotalOf, FindActive, IsReplaced;
    NumberedLast(db, job);
    var r := Of(db.rounds, job.sid)[job.number - 1];
    var done := if r.IsCompleted() then r
                else r.(fixTaskId := job.taskId, issuesFixed := CountFixed(job.output), completedAt := Some(now));
    if !r.IsCompleted() { RoundWritten(db, job, done); }
    var db1 := if r.IsCompleted() then db else UpdateRound(db, done);
    assert Counted(db1, job, before) && db1.sessions == db.sessions;
    WorkerFinds(db1, job);
    if IsRunning(db, job) {
      RunningIsAlone(db1, job);
      TotalWritten(db1, job, db1.sessions[job.sid - 1], done, before);
    }
  }

  /** A review that finds the round completed writes nothing. */
  lemma {:induction false} HealRepeats(db: Db, job: Job, s: Session, now: int, before: seq<Round>)
    requires Counted(db, job, before) && s.id == job.sid
    ensures Apply(db, job, Heal(s, now)) == db
  {
    hide HealSucceeded, UpdateRound, LatestRound;
    NumberedLast(db, job);
  }

  /** How it ends is decided by the first finisher. */
  ghost predicate Ends(db: Db, job: Job, first: Finisher, db': Db)
    requires Concerns(db, job)
  {
    var before := Of(db.rounds, job.sid);
    if Reaches(db, job, first) then Settled(db', job, before) else Stuck(db', job, before, db.sessions)
  }

  lemma {:induction false} FirstDecides(db: Db, job: Job, f: Finisher)
    requires Concerns(db, job) && IsOpen(db, job)
    requires f.Heal? ==> SameSession(db.sessions[job.sid - 1], f.session) && f.session.IsActive()
    ensures Ends(db, job, f, Apply(db, job, f))
  {
    hide ValidDb, Apply, TotalOf, Of, IsReplaced, SameSession;
    match f
    case Heal(s, now) =>
      HealSettles(db, job, s, now);
      if IsRunning(db, job) { RunningIsAlone(db, job); }
    case Persist(now) => PersistSettles(db, job, now, Of(db.rounds, job.sid));
  }

  lemma {:induction false} OthersRepeat(db: Db, job: Job, first: Finisher, db1: Db, f: Finisher)
    requires Concerns(db, job) && Ends(db, job, first, db1) && (f.Heal? ==> f.session.id == job.sid)
    ensures Ends(db, job, first, Apply(db1, job, f))
  {
    hide Concerns, Apply, TotalOf, Of, IsReplaced;
    match f
    case Heal(s, now) => HealRepeats(db1, job, s, now, Of(db.rounds, job.sid));
    case Persist(now) => PersistSettles(db1, job, now, Of(db.rounds, job.sid));
  }

  lemma {:induction false} AllEnd(db: Db, job: Job, fs: seq<Finisher>)
    requires Concerns(db, job) && IsOpen(db, job) && fs != [] && CopiesOk(db, job, fs)
    ensures Ends(db, job, fs[0], ApplyAll(db, job, fs))
  {
    var front, f := fs[..|fs| - 1], fs[|fs| - 1];
    assert f in fs && (f.Heal? ==> f.session.id == job.sid) by { hide ValidSession; }
    hide Apply, Ends, Concerns, IsOpen;
    if front == [] {
      assert ApplyAll(db, job, fs) == Apply(db, job, f);
      FirstDecides(db, job, f);
    } else {
      assert front[0] == fs[0];
      AllEnd(db, job, front);
      OthersRepeat(db, job, fs[0], ApplyAll(db, job, front), f);
    }
  }

  /** Completing an open last round adds what it fixed to the total. */
  lemma {:induction false} TotalGrows(a: seq<Round>, b: seq<Round>)
    requires |a| == |b| > 0 && a[..|a| - 1] == b[..|b| - 1] && !a[|a| - 1].IsCompleted() && b[|b| - 1].IsCompleted()
    ensures SumFixed(CompletedOf(b)) == SumFixed(CompletedOf(a)) + b[|b| - 1].issuesFixed
  {
    var c := CompletedOf(b);
    assert c[..|c| - 1] == CompletedOf(a);
  }

  /** Any number of heals and persists in any order, whatever became of the session: the round counts what
      the output says was fixed, and the sum over completed rounds grows by that count.  The session's
      total ends right if and only if the session has not ended, or a heal comes first and no other
      session of the pull request is active, or the total was right by chance.  In the first two cases
      the session is active afterwards, an ended one as well, and no longer fixing; otherwise it stays
      as it was. */
  lemma {:induction false} HealAndPersistConverge(db: Db, job: Job, fs: seq<Finisher>)
    requires Concerns(db, job) && IsOpen(db, job) && fs != [] && CopiesOk(db, job, fs)
    ensures var db' := ApplyAll(db, job, fs);
      && GetRound(db', job.sid, job.number).Some?
      && GetRound(db', job.sid, job.number).value.IsCompleted()
      && GetRound(db', job.sid, job.number).value.issuesFixed == CountFixed(job.output)
      && |db'.sessions| >= job.sid
      && TotalOf(db', job.sid) == TotalOf(db, job.sid) + CountFixed(job.output)
      && (db'.sessions[job.sid - 1].totalFixed == TotalOf(db', job.sid) <==>
            IsRunning(db, job) || (fs[0].Heal? && !IsReplaced(db, job)) ||
            db.sessions[job.sid - 1].totalFixed == TotalOf(db, job.sid) + CountFixed(job.output))
      && (IsRunning(db', job) <==> IsRunning(db, job) || (fs[0].Heal? && !IsReplaced(db, job)))
      && db'.sessions[job.sid - 1].status != Fixing
      && (!IsRunning(db', job) ==> db'.sessions == db.sessions)
  {
    hide ApplyAll, GetRound, ValidDb, CompletedOf, SumFixed, IsReplaced;
    AllEnd(db, job, fs);
    var db' := ApplyAll(db, job, fs);
    NumberedLast(db', job);
    TotalGrows(Of(db.rounds, job.sid), Of(db'.rounds, job.sid));
  }

  // ---- When the order does not matter --------------------------------------------------------

  predicate SameEnd(a: Db, b: Db, sid: nat)
    requires 1 <= sid <= |a.sessions| && sid <= |b.sessions|
  {
    a.sessions[sid - 1].totalFixed == b.sessions[sid - 1].totalFixed &&
    (a.sessions[sid - 1].IsActive() <==> b.sessions[sid - 1].IsActive())
  }

  /** Any two ways to finish the job end with the same total and with the session equally active. */
  ghost predicate OrderIsFree(db: Db, job: Job)
    requires Concerns(db, job) && IsOpen(db, job)
  {
    forall fs, gs :: Finishes(db, job, fs) && Finishes(db, job, gs) ==>
      var a, b := ApplyAll(db, job, fs), ApplyAll(db, job, gs);
      |a.sessions| >= job.sid && |b.sessions| >= job.sid && SameEnd(a, b, job.sid)
  }

  ghost predicate Finishes(db: Db, job: Job, fs: seq<Finisher>)
    requires Concerns(db, job)
  {
    fs != [] && CopiesOk(db, job, fs)
  }

  /** The order of heals and persists does not matter if and only if the session has not ended or has
      been replaced. */
  lemma {:induction false} OrderIsFreeIff(db: Db, job: Job)
    requires Concerns(db, job) && IsOpen(db, job)
    ensures OrderIsFree(db, job) <==> IsRunning(db, job) || IsReplaced(db, job)
  {
    hide ApplyAll, GetRound, ValidDb, TotalOf, IsReplaced, CopiesOk;
    if IsRunning(db, job) || IsReplaced(db, job) {
      forall fs, gs | Finishes(db, job, fs) && Finishes(db, job, gs)
        ensures var a, b := ApplyAll(db, job, fs), ApplyAll(db, job, gs);
          |a.sessions| >= job.sid && |b.sessions| >= job.sid && SameEnd(a, b, job.sid)
      {
        HealAndPersistConverge(db, job, fs);
        HealAndPersistConverge(db, job, gs);
      }
    } else {
      var heal, persist := [Heal(db.sessions[job.sid - 1].(status := Idle), 0)], [Persist(0)];
      TwoFinishers(db, job);
      HealAndPersistConverge(db, job, heal);
      HealAndPersistConverge(db, job, persist);
      assert !SameEnd(ApplyAll(db, job, heal), ApplyAll(db, job, persist), job.sid);
    }
  }

  lemma {:induction false} TwoFinishers(db: Db, job: Job)
    requires Concerns(db, job)
    ensures Finishes(db, job, [Heal(db.sessions[job.sid - 1].(status := Idle), 0)]) && Finishes(db, job, [Persist(0)])
  {
    hide ValidDb;
  }

  // ---- Copies that calls hold ----------------------------------------------------------------

  ghost predicate AllActive(st: State) { forall c :: c in st.calls ==> st.calls[c].session.IsActive() }

  lemma {:induction false} EnsuredIsActive(db: Db, s: Session, now: int)
    requires s.IsActive()
    ensures var e := EnsureLatest(db, s, now).1; !e.GivenUp? ==> e.session.IsActive()
  {
    hide Recompute, UpdateRound, UpdateSession, LatestRound;
  }

  lemma {:induction false} StaysActive(st: State, step: Step)
    requires AllActive(st)
    ensures AllActive(Next(st, step))
  {
    hide FindOrCreate, FindActiveIn, EnsureLatest, OpenRound, Exhaust, Approve, PersistFix, PersistFailure,
      PersistZeroFix, GetRound, CountNonRecovery, TwoZeroes, IsRecovery;
    match step
    case StartReview(_, repo, pr, maxRounds, _) => FoundOrCreatedIsActive(st.db, repo, pr, maxRounds);
    case StartApproval(_, repo, pr) => FoundOrCreatedIsActive(st.db, repo, pr, 0);
    case Ensure(c, now) => if c in st.calls { EnsuredIsActive(st.db, st.calls[c].session, now); }
    case _ =>
  }

  lemma {:induction false} FoundOrCreatedIsActive(db: Db, repo: string, pr: int, maxRounds: int)
    ensures FindOrCreate(db, repo, pr, maxRounds).1.IsActive()
    ensures FindActive(db, repo, pr).Some? ==> FindActive(db, repo, pr).value.IsActive()
  {
    if FindActive(db, repo, pr).Some? { FoundIsRow(db.sessions, repo, pr); }
  }

  /** In every run, the session copy of every call is one of an active session, even if the row has ended
      since: so these are the copies a review heals with. */
  lemma {:induction false} CopiesAreActive(steps: seq<Step>)
    ensures AllActive(After(steps))
  {
    if steps != [] {
      CopiesAreActive(steps[..|steps| - 1]);
      StaysActive(After(steps[..|steps| - 1]), steps[|steps| - 1]);
    }
  }

  // ---- A run in which the order matters ------------------------------------------------------

  const ENDED := S0.(status := Completed)
  const DONE := map["t" := FixTask(Succeeded, Some([Modified]))]
  const DB_ENDED := Db([ENDED], [R1], DONE)
  const THE_JOB := Job(1, 1, "r", 1, "t", [Modified])

  function HealerWaits(db: Db): State { State(db, map[2 := Found(ForReview(1), S2)], multiset{1}) }

  /** A second review reads the session while it is fixing. */
  lemma {:induction false} SecondReviewReads()
    ensures Next(State(DB2, map[1 := Approving(S0, None)], multiset{1}), StartReview(2, "r", 1, 3, 1)) ==
      State(DB2, map[1 := Approving(S0, None), 2 := Found(ForReview(1), S2)], multiset{1})
  {
    OneSession(S2, "r", 1);
  }

  /** The approval ends the session under it. */
  lemma {:induction false} ApprovalEndsIt()
    ensures Next(State(DB2, map[1 := Approving(S0, None), 2 := Found(ForReview(1), S2)], multiset{1}), Finish(1)) ==
      HealerWaits(Db([ENDED], [R1], T0))
  {
    hide Recompute, OpenRound, EnsureLatest, Exhaust, PersistFix, PersistFailure, PersistZeroFix, FindOrCreate,
      FindActive;
    assert [S2][0 := ENDED] == [ENDED];
    assert map[1 := Approving(S0, None), 2 := Found(ForReview(1), S2)] - {1} == map[2 := Found(ForReview(1), S2)];
    assert Approve(DB2, S0, None) == Db([ENDED], [R1], T0);
  }

  lemma {:induction false} FixSucceeds()
    ensures Next(HealerWaits(Db([ENDED], [R1], T0)), TaskChanges("t", DONE["t"])) == HealerWaits(DB_ENDED)
  {
    assert T0["t" := DONE["t"]] == DONE;
  }

  /** The state in which a review still holds an active copy of a session that an approval has ended, and
      the fix has succeeded. */
  lemma {:induction false} EndedSessionIsReached() returns (steps: seq<Step>)
    ensures After(steps) == HealerWaits(DB_ENDED)
  {
    hide After, Next, OpenRound, PersistFix, Approve, TotalOf, EnsureLatest;
    var s1 := [StartReview(0, "r", 1, 3, 1), StartApproval(1, "r", 1), Ensure(1, 0)];
    BothStart();
    ReviewReads(s1);
    var s2 := (((s1 + [Ensure(0, 0)]) + [Judge(0)]) + [Count(0)]) + [Compare(0)];
    var s3 := s2 + [Open(0, "t", All)];
    AfterOne(s2, Open(0, "t", All));
    ReviewOpensAlone();
    AfterOne(s3, StartReview(2, "r", 1, 3, 1));
    SecondReviewReads();
    var s4 := s3 + [StartReview(2, "r", 1, 3, 1)];
    AfterOne(s4, Finish(1));
    ApprovalEndsIt();
    var s5 := s4 + [Finish(1)];
    AfterOne(s5, TaskChanges("t", DONE["t"]));
    FixSucceeds();
    steps := s5 + [TaskChanges("t", DONE["t"])];
  }

  lemma {:induction false} ReviewOpensAlone()
    ensures Next(Both(Opening(S0, 1, None, false)), Open(0, "t", All)) ==
      State(DB2, map[1 := Approving(S0, None)], multiset{1})
  {
    hide OpenRound, Approve, EnsureLatest, PersistFix;
    ReviewOpens();
    assert Both(Opening(S0, 1, None, false)).calls - {0} == map[1 := Approving(S0, None)];
  }

  lemma {:induction false} TheJobIsOpen(steps: seq<Step>)
    requires After(steps) == HealerWaits(DB_ENDED)
    ensures Concerns(DB_ENDED, THE_JOB) && IsOpen(DB_ENDED, THE_JOB)
    ensures !IsRunning(DB_ENDED, THE_JOB) && !IsReplaced(DB_ENDED, THE_JOB)
    ensures CopiesOk(DB_ENDED, THE_JOB, [Heal(S2, 6), Persist(5)])
    ensures CopiesOk(DB_ENDED, THE_JOB, [Persist(5), Heal(S2, 6)])
    ensures TotalOf(DB_ENDED, 1) == 0 && CountFixed([Modified]) == 1
  {
    hide After;
    InvHolds(steps);
    assert ValidDb(DB_ENDED);
    hide ValidDb;
    OfOne(R1, 1);
    OneModified();
    assert [R1][..0] == [] && CompletedOf([]) == [] && CompletedOf([R1]) == [];
  }

  /** The two finishers as steps of the machine, in both orders. */
  lemma {:induction false} FinishersAreSteps(steps: seq<Step>)
    requires After(steps) == HealerWaits(DB_ENDED)
    ensures var heal, persist := Ensure(2, 6), FixPersisted(1, 1, "r", 1, "t", [Modified], 5);
      && After((steps + [heal]) + [persist]).db == ApplyAll(DB_ENDED, THE_JOB, [Heal(S2, 6), Persist(5)])
      && After((steps + [persist]) + [heal]).db == ApplyAll(DB_ENDED, THE_JOB, [Persist(5), Heal(S2, 6)])
  {
    hide After, EnsureLatest, PersistFix;
    var heal, persist := Ensure(2, 6), FixPersisted(1, 1, "r", 1, "t", [Modified], 5);
    AfterOne(steps, heal);
    AfterOne(steps + [heal], persist);
    AfterOne(steps, persist);
    AfterOne(steps + [persist], heal);
    TwoApplied(DB_ENDED, THE_JOB, Heal(S2, 6), Persist(5));
    TwoApplied(DB_ENDED, THE_JOB, Persist(5), Heal(S2, 6));
  }

  lemma {:induction false} TwoApplied(db: Db, job: Job, f: Finisher, g: Finisher)
    ensures ApplyAll(db, job, [f, g]) == Apply(Apply(db, job, f), job, g)
  {
    hide Apply;
    assert [f, g][..1] == [f] && [f][..0] == [];
    assert ApplyAll(db, job, []) == db && ApplyAll(db, job, [f]) == Apply(db, job, f);
  }

  /** One run, and the two steps that can follow it in either order: a worker that persists first leaves
      the session as it ended, with total 0 although one issue was fixed; a review that heals first
      writes 1 and revives the session. */
  lemma {:induction false} OrderCanMatter() returns (steps: seq<Step>, heal: Step, persist: Step)
    ensures heal.Ensure? && persist.FixPersisted?
    ensures var a, b := After((steps + [heal]) + [persist]).db, After((steps + [persist]) + [heal]).db;
      && |a.sessions| >= 1 && a.sessions[0].IsActive() && a.sessions[0].totalFixed == TotalOf(a, 1) == 1
      && |b.sessions| >= 1 && b.sessions[0] == ENDED && b.sessions[0].totalFixed == 0 && TotalOf(b, 1) == 1
  {
    hide After, ApplyAll, TotalOf, Concerns, CopiesOk, IsOpen, GetRound, IsReplaced;
    steps := EndedSessionIsReached();
    heal, persist := Ensure(2, 6), FixPersisted(1, 1, "r", 1, "t", [Modified], 5);
    TheJobIsOpen(steps);
    FinishersAreSteps(steps);
    HealAndPersistConverge(DB_ENDED, THE_JOB, [Heal(S2, 6), Persist(5)]);
    HealAndPersistConverge(DB_ENDED, THE_JOB, [Persist(5), Heal(S2, 6)]);
  }
}
