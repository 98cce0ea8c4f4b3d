/** What single steps of the iteration protocol come to, written out over rows and statuses
    (internal/queue/enqueue_iterate.go, processor_iterate.go, internal/iterate/service.go). */
module IterationOutcomes {
  import opened Wrappers
  import opened IterationModel
  import opened IterationTables
  import opened IterationProtocol
  import opened IterationLaws
  import opened IterationHandlers

  // ---- Counting ------------------------------------------------------------------------------

  /** Modified and alternative issues count as fixed, skipped ones do not. */
  lemma {:induction false} FixedAreModifiedOrAlternative(o: FixOutput)
    ensures CountFixed(o) == multiset(o)[Modified] + multiset(o)[AlternativeChosen]
  {
    if o != [] {
      FixedAreModifiedOrAlternative(o[..|o| - 1]);
      assert o == o[..|o| - 1] + [o[|o| - 1]];
    }
  }

  /** The positions of the rounds that are no recoveries. */
  function Regular(rs: seq<Round>): set<nat> { set k: nat | k < |rs| && !rs[k].isRecovery }

  lemma {:induction false} RegularAreCounted(rs: seq<Round>)
    ensures |NonRecovery(rs)| == |Regular(rs)|
  {
    if rs == [] {
      assert Regular(rs) == {};
    } else {
      var front, n := rs[..|rs| - 1], |rs| - 1;
      RegularAreCounted(front);
      if rs[n].isRecovery {
        assert Regular(rs) == Regular(front);
      } else {
        assert Regular(rs) == Regular(front) + {n} && n !in Regular(front);
      }
    }
  }

  // ---- Two rounds in a row that fixed nothing ------------------------------------------------

  /** The last two rounds that are no recoveries. */
  ghost predicate AreLastTwo(rs: seq<Round>, i: int, j: int) {
    && 0 <= i < j < |rs| && !rs[i].isRecovery && !rs[j].isRecovery
    && forall k :: i < k < |rs| && k != j ==> rs[k].isRecovery
  }

  /** There are two, and both fixed nothing. */
  ghost predicate FixedNothingTwice(rs: seq<Round>) {
    exists i, j :: AreLastTwo(rs, i, j) && rs[i].issuesFixed == 0 && rs[j].issuesFixed == 0
  }

  lemma {:induction false} LastOfRegular(rs: seq<Round>) returns (j: int)
    requires NonRecovery(rs) != []
    ensures 0 <= j < |rs| && !rs[j].isRecovery && (forall k :: j < k < |rs| ==> rs[k].isRecovery)
    ensures NonRecovery(rs) == NonRecovery(rs[..j]) + [rs[j]]
  {
    j := |rs| - 1;
    if rs[j].isRecovery {
      var front := rs[..j];
      j := LastOfRegular(front);
      assert front[..j] == rs[..j];
    }
  }

  lemma {:induction false} NoRegular(rs: seq<Round>)
    requires forall k :: 0 <= k < |rs| ==> rs[k].isRecovery
    ensures NonRecovery(rs) == []
  {
    if rs != [] { NoRegular(rs[..|rs| - 1]); }
  }

  lemma {:induction false} TwoZeroesIff(rs: seq<Round>)
    ensures TwoZeroes(rs) <==> FixedNothingTwice(rs)
  {
    hide NonRecovery;
    if NonRecovery(rs) == [] {
      forall i, j | AreLastTwo(rs, i, j) ensures false { RegularIsCounted(rs, j); }
    } else {
      var j := LastOfRegular(rs);
      var front := rs[..j];
      if NonRecovery(front) == [] {
        forall i, l | AreLastTwo(rs, i, l) ensures false { RegularIsCounted(front, i); }
      } else {
        var i := LastOfRegular(front);
        assert AreLastTwo(rs, i, j);
        forall a, b | AreLastTwo(rs, a, b) ensures a == i && b == j {}
      }
    }
  }

  lemma {:induction false} RegularIsCounted(rs: seq<Round>, k: nat)
    requires k < |rs| && !rs[k].isRecovery
    ensures NonRecovery(rs) != []
  {
    if k < |rs| - 1 { RegularIsCounted(rs[..|rs| - 1], k); }
  }

  /** When the last two rounds that are no recoveries both fixed nothing, the write phase inserts no round
      that is no recovery, whatever was read before. */
  lemma {:induction false} NoThirdAfterTwoZeroes(steps: seq<Step>, c: nat, taskId: string, progress: Progress,
      i: nat, j: nat)
    requires c in After(steps).calls && After(steps).calls[c].Opening?
    requires var rs := Of(After(steps).db.rounds, After(steps).calls[c].session.id);
      AreLastTwo(rs, i, j) && rs[i].issuesFixed == 0 && rs[j].issuesFixed == 0
    ensures var sid := After(steps).calls[c].session.id;
      var before, after := Of(After(steps).db.rounds, sid),
        Of(After(steps + [Open(c, taskId, progress)]).db.rounds, sid);
      |before| < |after| ==> after[|before|].isRecovery
  {
    hide After, Of, TwoZeroes, AreLastTwo;
    NoRoundAfterTwoZeroes(steps, c, taskId, progress);
    TwoZeroesIff(Of(After(steps).db.rounds, After(steps).calls[c].session.id));
  }

  // ---- When a session is exhausted -----------------------------------------------------------

  ghost predicate IsExhausted(db: Db, sid: nat) {
    1 <= sid <= |db.sessions| && db.sessions[sid - 1].status == Exhausted
  }

  lemma {:induction false} ExhaustWrites(db: Db, s: Session)
    requires 1 <= s.id <= |db.sessions|
    ensures IsExhausted(Exhaust(db, s), s.id) && Exhaust(db, s).rounds == db.rounds && Exhaust(db, s).tasks == db.tasks
  {}

  /** The check for two zero-fix rounds: it ends the call and exhausts the session exactly when the call is
      no recovery, counted at least two rounds, and the last two fixed nothing. */
  lemma {:induction false} CompareExact(st: State, c: nat)
    requires Inv(st) && c in st.calls && st.calls[c].Comparing?
    ensures var call, next := st.calls[c], Next(st, Compare(c));
      if !call.isRecovery && call.count >= 2 && FixedNothingTwice(Of(st.db.rounds, call.session.id))
      then c !in next.calls && IsExhausted(next.db, call.session.id) && next.db.rounds == st.db.rounds
      else next == st.(calls := st.calls[c := Opening(call.session, call.found, call.latest, call.isRecovery)])
  {
    hide TwoZeroes, FixedNothingTwice, Exhaust, Of, ValidDb;
    var call := st.calls[c];
    TwoZeroesIff(Of(st.db.rounds, call.session.id));
    assert CallOk(st.db, call);
    ExhaustWrites(st.db, call.session);
  }

  /** The check of the limit: exhausted exactly when the call is no recovery and as many rounds that are no
      recoveries are there as the session allows. */
  lemma {:induction false} CountExact(st: State, c: nat)
    requires Inv(st) && c in st.calls && st.calls[c].Counting?
    ensures var call, next := st.calls[c], Next(st, Count(c));
      var n := |Regular(Of(st.db.rounds, call.session.id))|;
      if !call.isRecovery && n >= call.session.maxRounds
      then c !in next.calls && IsExhausted(next.db, call.session.id) && next.db.rounds == st.db.rounds
      else next == st.(calls := st.calls[c := Comparing(call.session, call.found, call.latest, call.isRecovery, n)])
  {
    hide NonRecovery, Exhaust, Of, ValidDb;
    var call := st.calls[c];
    RegularAreCounted(Of(st.db.rounds, call.session.id));
    assert CallOk(st.db, call);
    ExhaustWrites(st.db, call.session);
  }

  /** The limit in every run, counted over the rows. */
  lemma {:induction false} RegularRoundsAreBounded(steps: seq<Step>, sid: nat)
    requires 1 <= sid <= |After(steps).db.sessions|
    ensures var db := After(steps).db;
      |Regular(Of(db.rounds, sid))| <= db.sessions[sid - 1].maxRounds || Regular(Of(db.rounds, sid)) == {}
  {
    hide After, Of, NonRecovery;
    RoundsAreBounded(steps, sid);
    RegularAreCounted(Of(After(steps).db.rounds, sid));
  }

  /** A call that goes on is a recovery exactly when the task of the latest round it read has failed. */
  lemma {:induction false} JudgeExact(st: State, c: nat)
    requires c in st.calls && st.calls[c].Judging?
    ensures var call, next := st.calls[c], Next(st, Judge(c));
      && next.db == st.db && c in next.calls && next.calls[c].Counting?
      && (next.calls[c].isRecovery <==>
            call.latest.Some? && call.latest.value.fixTaskId != "" && call.latest.value.fixTaskId in st.db.tasks &&
            st.db.tasks[call.latest.value.fixTaskId].status == Failed)
  {}

  /** A call that is not interrupted any more: unless it is a recovery, it exhausts the session and starts
      nothing exactly when the limit is reached or the last two rounds fixed nothing; otherwise it goes on
      to open a round. */
  lemma {:induction false} DecisionExact(db: Db, s: Session, latest: Option<Round>, found: int, taskId: string)
    requires ValidDb(db) && CopyOk(db, s) && LatestOk(db, s.id, latest) && taskId != "" && taskId !in db.tasks
    ensures var end := IterationHandlers.Run(Alone(db, Judging(s, found, latest)), Deciding(taskId));
      var rs := Of(db.rounds, s.id);
      var failed := latest.Some? && latest.value.fixTaskId != "" && latest.value.fixTaskId in db.tasks &&
        db.tasks[latest.value.fixTaskId].status == Failed;
      if !failed && (|Regular(rs)| >= s.maxRounds || FixedNothingTwice(rs))
      then end.started == multiset{} && IsExhausted(end.db, s.id) && end.db.rounds == db.rounds
      else
        var (db', ok) := OpenRound(db, s, latest, found, failed, taskId, All);
        end.db == db' && (end.started != multiset{} <==> ok)
  {
    hide Exhaust, OpenRound, Of, ValidDb, NonRecovery, FixedNothingTwice, Regular, CopyOk, LatestOk;
    var st := Alone(db, Judging(s, found, latest));
    DecidingUnrolled(st, taskId);
    RegularAreCounted(Of(db.rounds, s.id));
    TwoZeroesIff(Of(db.rounds, s.id));
    assert 1 <= s.id <= |db.sessions| by { CopyNamesRow(db, s); }
    ExhaustWrites(db, s);
  }

  lemma {:induction false} CopyNamesRow(db: Db, s: Session)
    requires CopyOk(db, s)
    ensures 1 <= s.id <= |db.sessions|
  {}

  // ---- The read phase ------------------------------------------------------------------------

  /** What the read phase makes of the latest round.  Without a task or completed, it is taken as it is; a
      failed or cancelled fix completes it with zero, a succeeded one with what its output says, or zero
      when the output cannot be decoded. */
  lemma {:induction false} ReadPhaseExact(db: Db, s: Session, now: int)
    requires ValidDb(db) && CopyOk(db, s) && Of(db.rounds, s.id) != []
    ensures var rs := Of(db.rounds, s.id);
      var r := rs[|rs| - 1];
      var (db', e) := EnsureLatest(db, s, now);
      var last := Of(db'.rounds, s.id);
      if r.fixTaskId == "" || r.completedAt.Some? then db' == db && e == Ready(s, Some(r))
      else if r.fixTaskId !in db.tasks then db' == db && e == MustWait(s, r.number)
      else
        var task := db.tasks[r.fixTaskId];
        match task.status
        case Failed => last == rs[|rs| - 1 := r.(completedAt := Some(now), issuesFixed := 0)] && e.Ready?
        case Cancelled => last == rs[|rs| - 1 := r.(completedAt := Some(now), issuesFixed := 0)] && e.Ready?
        case Succeeded =>
          var n := if task.result.Some?
            then multiset(task.result.value)[Modified] + multiset(task.result.value)[AlternativeChosen] else 0;
          last == rs[|rs| - 1 := r.(completedAt := Some(now), issuesFixed := n)] && !e.MustWait?
        case _ => db' == db && e == MustWait(s, r.number)
  {
    hide ValidDb, UpdateRound, UpdateSession, Recompute, CountFixed, LatestRound, CopyOk;
    CopyNamesRow(db, s);
    LatestIsLast(db, s.id);
    var rs := Of(db.rounds, s.id);
    var r := rs[|rs| - 1];
    if r.completedAt == None {
      Completing(db, s.id, r.(completedAt := Some(now), issuesFixed := 0));
      if r.fixTaskId in db.tasks && db.tasks[r.fixTaskId].result.Some? {
        var o := db.tasks[r.fixTaskId].result.value;
        FixedAreModifiedOrAlternative(o);
        Completing(db, s.id, r.(completedAt := Some(now), issuesFixed := CountFixed(o)));
      }
    }
    HealWritesRound(db, s, r, now);
  }

  lemma {:induction false} Completing(db: Db, sid: nat, done: Round)
    requires ValidDb(db) && Of(db.rounds, sid) != []
    requires var rs := Of(db.rounds, sid); Completes(rs[|rs| - 1], done)
    ensures Of(UpdateRound(db, done).rounds, sid) == Of(db.rounds, sid)[|Of(db.rounds, sid)| - 1 := done]
  {
    hide ValidDb, UpdateRound;
    CompleteLatest(db, sid, done);
  }

  lemma {:induction false} HealWritesRound(db: Db, s: Session, r: Round, now: int)
    ensures forall o :: var (db', e) := HealSucceeded(db, s, r, o, now);
      var n := if o.Some? then CountFixed(o.value) else 0;
      && db'.rounds == UpdateRound(db, r.(completedAt := Some(now), issuesFixed := n)).rounds
      && !e.MustWait?
  {
    hide Recompute, UpdateRound, CountFixed, BreaksIndex;
  }

  // ---- Sessions ------------------------------------------------------------------------------

  predicate IsOngoing(status: SessionStatus) { status == Idle || status == Reviewing || status == Fixing }

  ghost predicate IsOngoingFor(s: Session, repo: string, pr: int) {
    s.repo == repo && s.pr == pr && IsOngoing(s.status)
  }

  /** An active session of the pull request is idle, reviewing or fixing. */
  lemma {:induction false} FoundIff(db: Db, repo: string, pr: int)
    ensures var s := FindActive(db, repo, pr);
      && (s.Some? <==> exists k :: 0 <= k < |db.sessions| && IsOngoingFor(db.sessions[k], repo, pr))
      && (s.Some? ==> s.value in db.sessions && IsOngoingFor(s.value, repo, pr))
  {
    if FindActive(db, repo, pr).Some? {
      FoundIsRow(db.sessions, repo, pr);
    } else {
      NoneIsActive(db.sessions, repo, pr);
    }
  }

  /** A review goes on with the active session as it is, or inserts an idle one. */
  lemma {:induction false} StartExact(st: State, c: nat, repo: string, pr: int, maxRounds: int, found: int)
    requires c !in st.calls
    ensures var next := Next(st, StartReview(c, repo, pr, maxRounds, found));
      match FindActive(st.db, repo, pr)
      case Some(s) => next == st.(calls := st.calls[c := Found(ForReview(found), s)])
      case None =>
        var s := Session(|st.db.sessions| + 1, repo, pr, Idle, 0, maxRounds, 0, 0);
        next == st.(db := st.db.(sessions := st.db.sessions + [s]), calls := st.calls[c := Found(ForReview(found), s)])
  {
    hide FindActiveIn;
  }

  // ---- The fix worker ------------------------------------------------------------------------

  /** What a worker writes to its session when that is active: the total and, if it was fixing, that it is
      reviewing again. */
  ghost predicate SessionSettled(db: Db, db': Db, sid: nat) {
    && 1 <= sid <= |db.sessions| == |db'.sessions|
    && db'.sessions[sid - 1].status ==
         (if db.sessions[sid - 1].status == Fixing then Reviewing else db.sessions[sid - 1].status)
    && db'.sessions[sid - 1].currentRound == db.sessions[sid - 1].currentRound
    && db'.sessions[sid - 1].totalFound == db.sessions[sid - 1].totalFound
  }

  /** The job of a worker: a session, active, and an open round in it that is the worker's own. */
  ghost predicate OwnOpenRound(db: Db, sid: nat, number: int, repo: string, pr: int, taskId: string) {
    && ValidDb(db) && 1 <= sid <= |db.sessions| && db.sessions[sid - 1].IsActive()
    && db.sessions[sid - 1].repo == repo && db.sessions[sid - 1].pr == pr
    && 1 <= number <= |Of(db.rounds, sid)| && !Of(db.rounds, sid)[number - 1].IsCompleted()
    && (Of(db.rounds, sid)[number - 1].fixTaskId == "" || Of(db.rounds, sid)[number - 1].fixTaskId == taskId)
  }

  lemma {:induction false} OwnIsFound(db: Db, db1: Db, sid: nat, repo: string, pr: int)
    requires ValidDb(db) && 1 <= sid <= |db.sessions| && db.sessions[sid - 1].IsActive()
    requires db.sessions[sid - 1].repo == repo && db.sessions[sid - 1].pr == pr && db1.sessions == db.sessions
    ensures FindActive(db1, repo, pr) == Some(db.sessions[sid - 1]) && db.sessions[sid - 1].id == sid
    ensures forall s: Session :: s.id == sid && s.IsActive() ==> !BreaksIndex(db1, s)
  {
    hide ValidSession;
    ActiveRowIsFound(db.sessions, sid - 1);
  }

  lemma {:induction false} ActiveRowIsFound(sessions: seq<Session>, i: nat)
    requires i < |sessions| && sessions[i].IsActive() && OneActive(sessions)
    ensures FindActiveIn(sessions, sessions[i].repo, sessions[i].pr) == Some(sessions[i])
    decreases |sessions|
  {
    if i < |sessions| - 1 { ActiveRowIsFound(sessions[..|sessions| - 1], i); }
  }

  lemma {:induction false} OwnRound(db: Db, sid: nat, number: int, done: Round)
    requires ValidDb(db) && 1 <= sid <= |db.sessions| && 1 <= number <= |Of(db.rounds, sid)|
    requires Completes(Of(db.rounds, sid)[number - 1], done)
    ensures GetRound(db, sid, number) == Some(Of(db.rounds, sid)[number - 1])
    ensures UpdateRound(db, done).sessions == db.sessions
    ensures Of(UpdateRound(db, done).rounds, sid) == Of(db.rounds, sid)[number - 1 := done]
  {
    hide ValidDb, UpdateRound, GetRound;
    LatestIsLast(db, sid);
    CompleteRound(db, sid, number - 1, done);
  }

  /** A fix: the round gets the task, the count and the time, the session is settled. */
  lemma {:induction false} FixExact(db: Db, sid: nat, number: int, repo: string, pr: int, taskId: string, o: FixOutput,
      now: int)
    requires OwnOpenRound(db, sid, number, repo, pr, taskId)
    ensures var db' := PersistFix(db, sid, number, repo, pr, taskId, o, now);
      var rs := Of(db.rounds, sid);
      && Of(db'.rounds, sid) == rs[number - 1 := rs[number - 1].(fixTaskId := taskId, completedAt := Some(now),
           issuesFixed := multiset(o)[Modified] + multiset(o)[AlternativeChosen])]
      && SessionSettled(db, db', sid)
  {
    hide ValidDb, UpdateRound, GetRound, FindActive, BreaksIndex, Recompute, CountFixed;
    FixedAreModifiedOrAlternative(o);
    var done := Of(db.rounds, sid)[number - 1].(fixTaskId := taskId, issuesFixed := CountFixed(o),
                                                completedAt := Some(now));
    OwnRound(db, sid, number, done);
    OwnIsFound(db, UpdateRound(db, done), sid, repo, pr);
  }

  /** A zero-fix result: the same with zero, and the total stays. */
  lemma {:induction false} ZeroFixExact(db: Db, sid: nat, number: int, repo: string, pr: int, taskId: string, now: int)
    requires OwnOpenRound(db, sid, number, repo, pr, taskId)
    ensures var db' := PersistZeroFix(db, sid, number, repo, pr, taskId, now);
      var rs := Of(db.rounds, sid);
      && Of(db'.rounds, sid) ==
           rs[number - 1 := rs[number - 1].(fixTaskId := taskId, completedAt := Some(now), issuesFixed := 0)]
      && SessionSettled(db, db', sid) && db'.sessions[sid - 1].totalFixed == db.sessions[sid - 1].totalFixed
  {
    hide ValidDb, UpdateRound, GetRound, FindActive, BreaksIndex;
    var done := Of(db.rounds, sid)[number - 1].(fixTaskId := taskId, issuesFixed := 0, completedAt := Some(now));
    OwnRound(db, sid, number, done);
    OwnIsFound(db, UpdateRound(db, done), sid, repo, pr);
  }

  /** A failure: the round is completed with zero and keeps its task, and the session is idle. */
  lemma {:induction false} FailureExact(db: Db, sid: nat, number: int, repo: string, pr: int, taskId: string, now: int)
    requires OwnOpenRound(db, sid, number, repo, pr, taskId)
    ensures var db' := PersistFailure(db, sid, number, repo, pr, now);
      var rs := Of(db.rounds, sid);
      && Of(db'.rounds, sid) == rs[number - 1 := rs[number - 1].(completedAt := Some(now), issuesFixed := 0)]
      && |db'.sessions| == |db.sessions|
      && db'.sessions[sid - 1] == db.sessions[sid - 1].(status := Idle)
  {
    hide ValidDb, UpdateRound, GetRound, FindActive, BreaksIndex;
    var done := Of(db.rounds, sid)[number - 1].(issuesFixed := 0, completedAt := Some(now));
    OwnRound(db, sid, number, done);
    OwnIsFound(db, UpdateRound(db, done), sid, repo, pr);
  }

  /** A round of another task is left alone, whatever the worker brings. */
  lemma {:induction false} OthersRoundIsLeft(db: Db, sid: nat, number: int, repo: string, pr: int, taskId: string,
      o: FixOutput, now: int)
    requires ValidDb(db) && 1 <= sid <= |db.sessions| && 1 <= number <= |Of(db.rounds, sid)|
    requires var r := Of(db.rounds, sid)[number - 1]; r.fixTaskId != "" && r.fixTaskId != taskId
    ensures PersistFix(db, sid, number, repo, pr, taskId, o, now) == db
    ensures PersistZeroFix(db, sid, number, repo, pr, taskId, now) == db
  {
    hide ValidDb, UpdateRound, FindActive;
    LatestIsLast(db, sid);
  }

  /** When persisting a fix reports no error: the round is there and not another task's, and its session is an
      active one of the pull request. */
  lemma {:induction false} PersistsIff(db: Db, sid: nat, number: int, repo: string, pr: int, taskId: string)
    requires ValidDb(db)
    ensures Persists(db, sid, number, repo, pr, taskId) <==>
      && 1 <= sid <= |db.sessions| && IsOngoingFor(db.sessions[sid - 1], repo, pr)
      && 1 <= number <= |Of(db.rounds, sid)|
      && (Of(db.rounds, sid)[number - 1].fixTaskId == "" || Of(db.rounds, sid)[number - 1].fixTaskId == taskId)
  {
    hide ValidDb, GetRound, FindActive, BreaksIndex, Of;
    if 1 <= sid <= |db.sessions| {
      LatestIsLast(db, sid);
      if IsOngoingFor(db.sessions[sid - 1], repo, pr) { OwnIsFound(db, db, sid, repo, pr); }
    } else if GetRound(db, sid, number).Some? {
      SessionExists(db, sid, number);
    }
    FoundIff(db, repo, pr);
    FoundNamesRow(db, repo, pr);
  }

  lemma {:induction false} FoundNamesRow(db: Db, repo: string, pr: int)
    requires ValidDb(db)
    ensures var s := FindActive(db, repo, pr);
      s.Some? ==> 1 <= s.value.id <= |db.sessions| && db.sessions[s.value.id - 1] == s.value
  {
    hide ValidDb;
    if FindActive(db, repo, pr).Some? { FindActiveIsCopy(db, repo, pr); }
  }

  // ---- Opening a round, cut off --------------------------------------------------------------

  /** What the rows show when the write phase ends early: after the first write no round, after the second
      a round without a task, after the third the task as well, and only the last one links them. */
  lemma {:induction false} CutOpening(db: Db, s: Session, latest: Option<Round>, found: int, isRecovery: bool,
      taskId: string, progress: Progress)
    requires ValidDb(db) && CopyOk(db, s) && s.IsActive() && db.sessions[s.id - 1].IsActive()
    requires LatestOk(db, s.id, latest) && StillLatest(db, s.id, latest)
    ensures var (db', ok) := OpenRound(db, s, latest, found, isRecovery, taskId, progress);
      var number := NumberOf(latest) + 1;
      var r := Round(|db.rounds| + 1, s.id, number, "", found, 0, isRecovery, None);
      && (ok <==> progress == All)
      && |db'.sessions| == |db.sessions| && db'.sessions[s.id - 1].status == Fixing
      && db'.sessions[s.id - 1].currentRound == number && db'.sessions[s.id - 1].totalFound == s.totalFound + found
      && db'.rounds == (match progress
           case OnlySession => db.rounds
           case All => db.rounds + [r.(fixTaskId := taskId)]
           case _ => db.rounds + [r])
      && db'.tasks == (if progress == OnlyTask || progress == All then db.tasks[taskId := FixTask(Queued, None)]
                       else db.tasks)
  {
    hide ValidDb, GetRound, BreaksIndex, Of;
    OwnIsFound(db, db, s.id, db.sessions[s.id - 1].repo, db.sessions[s.id - 1].pr);
    LatestIsLast(db, s.id);
    var s1 := s.(status := Fixing, currentRound := NumberOf(latest) + 1, totalFound := s.totalFound + found);
    assert !BreaksIndex(db, s1);
    var db1 := UpdateSession(db, s1).value;
    assert db1.rounds == db.rounds;
    assert GetRound(db1, s.id, NumberOf(latest) + 1) == GetRound(db, s.id, NumberOf(latest) + 1) == None by {
      SameGetRound(db, db1, s.id, NumberOf(latest) + 1);
    }
  }

  lemma {:induction false} SameGetRound(a: Db, b: Db, sid: nat, number: int)
    requires a.rounds == b.rounds
    ensures GetRound(a, sid, number) == GetRound(b, sid, number)
  {}
}
