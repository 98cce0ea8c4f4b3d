/** What one handler of the iteration protocol leaves for the next one to find. */
module IterationHandovers {
  import opened Wrappers
  import opened IterationModel
  import opened IterationTables
  import opened IterationProtocol
  import opened IterationLaws
  import opened IterationConvergence

  // ---- From opening a round to waiting for it ------------------------------------------------

  /** The rows an opened round leaves: the session points to it, it is linked to its queued task. */
  ghost predicate Opened(db: Db, s: Session, number: int, found: int, isRecovery: bool, taskId: string) {
    && LatestRound(db, s.id) == Some(Round(|db.rounds|, s.id, number, taskId, found, 0, isRecovery, None))
    && TaskOf(db, taskId) == Some(FixTask(Queued, None))
    && 1 <= s.id <= |db.sessions|
    && db.sessions[s.id - 1].status == Fixing && db.sessions[s.id - 1].currentRound == number
    && db.sessions[s.id - 1].totalFound == s.totalFound + found
  }

  /** The tables after opening a round, written out. */
  lemma {:induction false} OpenedTables(db: Db, s: Session, latest: Option<Round>, found: int, isRecovery: bool,
      taskId: string)
    requires ValidDb(db) && CallOk(db, Opening(s, found, latest, isRecovery)) && taskId != ""
    requires OpenRound(db, s, latest, found, isRecovery, taskId, All).1
    ensures var number := NumberOf(latest) + 1;
      var written := UpdateSession(db,
        s.(status := Fixing, currentRound := number, totalFound := s.totalFound + found));
      && written.Some?
      && OpenRound(db, s, latest, found, isRecovery, taskId, All).0 ==
           written.value.(rounds := db.rounds +
             [Round(|db.rounds| + 1, s.id, number, taskId, found, 0, isRecovery, None)],
                          tasks := db.tasks[taskId := FixTask(Queued, None)])
  {
    hide Progresses, UpdateRound, CreateRound, ValidDb, UpdateSession, CallOk, CopyOk;
    var number := NumberOf(latest) + 1;
    var s1 := s.(status := Fixing, currentRound := number, totalFound := s.totalFound + found);
    var written := UpdateSession(db, s1);
    SessionOfCall(db, s, latest, found, isRecovery);
    WriteBack(db, s1, written.value);
    OnlySessions(db, s1);
    CallStaysOk(db, written.value, Opening(s, found, latest, isRecovery));
    CreatedOk(written.value, s, latest, found, isRecovery, taskId);
  }

  lemma {:induction false} SessionOfCall(db: Db, s: Session, latest: Option<Round>, found: int, isRecovery: bool)
    requires CallOk(db, Opening(s, found, latest, isRecovery))
    ensures CopyOk(db, s) && 1 <= s.id <= |db.sessions| && (Of(db.rounds, s.id) == [] ==> s.totalFixed == 0)
  {}

  lemma {:induction false} OnlySessions(db: Db, s: Session)
    ensures var written := UpdateSession(db, s);
      written.Some? ==> written.value.rounds == db.rounds && written.value.tasks == db.tasks
    ensures var written := UpdateSession(db, s);
      written.Some? && 1 <= s.id <= |db.sessions| ==>
        |written.value.sessions| == |db.sessions| && written.value.sessions[s.id - 1].status == s.status &&
        written.value.sessions[s.id - 1].currentRound == s.currentRound &&
          written.value.sessions[s.id - 1].totalFound == s.totalFound
  {
    hide BreaksIndex;
  }

  lemma {:induction false} RoundIsOpened(db: Db, s: Session, latest: Option<Round>, found: int, isRecovery: bool,
      taskId: string)
    requires ValidDb(db) && CallOk(db, Opening(s, found, latest, isRecovery)) && taskId != ""
    requires OpenRound(db, s, latest, found, isRecovery, taskId, All).1
    ensures ValidDb(OpenRound(db, s, latest, found, isRecovery, taskId, All).0)
    ensures Opened(OpenRound(db, s, latest, found, isRecovery, taskId, All).0, s, NumberOf(latest) + 1, found,
      isRecovery, taskId)
  {
    hide Progresses, OpenRound, ValidDb, LatestRound, UpdateSession, CallOk;
    OpenKeeps(db, s, latest, found, isRecovery, taskId, All);
    OpenedTables(db, s, latest, found, isRecovery, taskId);
    SessionOfCall(db, s, latest, found, isRecovery);
    var number := NumberOf(latest) + 1;
    OnlySessions(db, s.(status := Fixing, currentRound := number, totalFound := s.totalFound + found));
    var db' := OpenRound(db, s, latest, found, isRecovery, taskId, All).0;
    OfAppend(db.rounds, Round(|db.rounds| + 1, s.id, number, taskId, found, 0, isRecovery, None), s.id);
    LatestIsLast(db', s.id);
  }

  /** The task of a round is at an end, so that the read phase goes on instead of waiting. */
  predicate IsOver(db: Db, taskId: string) {
    var task := TaskOf(db, taskId);
    task.Some? && (task.value.status == Succeeded || task.value.status == Failed || task.value.status == Cancelled)
  }

  /** Which round the read phase waits for, if any. */
  lemma {:induction false} WaitsIff(db: Db, other: Session, number: int, now: int)
    requires ValidDb(db) && 1 <= other.id <= |db.sessions| && 1 <= number <= |Of(db.rounds, other.id)|
    requires Of(db.rounds, other.id)[number - 1].fixTaskId != ""
    ensures var r := Of(db.rounds, other.id)[number - 1];
      EnsureLatest(db, other, now) == (db, MustWait(other, number)) <==> !r.IsCompleted() && !IsOver(db, r.fixTaskId)
  {
    hide LatestRound, HealSucceeded, UpdateRound;
    LatestIsLast(db, other.id);
    assert ValidSession(db, other.id);
    HealingDoesNotWait(db, other, now);
  }

  lemma {:induction false} HealingDoesNotWait(db: Db, s: Session, now: int)
    ensures forall r, o :: !HealSucceeded(db, s, r, o, now).1.MustWait?
  {}

  /** As long as a round is not completed and its task is not at an end, all others wait for it. */
  lemma {:induction false} WaitsWhileOpen(before: Db, db: Db, other: Session, number: int, taskId: string, now: int)
    requires ValidDb(db) && Progresses(before, db) && 1 <= other.id <= |before.sessions| && taskId != ""
    requires 1 <= number <= |Of(before.rounds, other.id)|
    requires Of(before.rounds, other.id)[number - 1].fixTaskId == taskId
    ensures number <= |Of(db.rounds, other.id)| && Of(db.rounds, other.id)[number - 1].fixTaskId == taskId
    ensures EnsureLatest(db, other, now) == (db, MustWait(other, number)) <==>
      !Of(db.rounds, other.id)[number - 1].IsCompleted() && !IsOver(db, taskId)
  {
    var a, b := Of(before.rounds, other.id), Of(db.rounds, other.id);
    assert Grows(a, b) && |before.sessions| <= |db.sessions|;
    assert Evolves(a[number - 1], b[number - 1]);
    hide ValidDb, Progresses, EnsureLatest, Of;
    WaitsIff(db, other, number, now);
  }

  /** What opening leaves in the session's list of rounds. */
  lemma {:induction false} OpenedIsListed(db: Db, s: Session, number: int, found: int, isRecovery: bool, taskId: string)
    requires ValidDb(db) && Opened(db, s, number, found, isRecovery, taskId)
    ensures 1 <= number == |Of(db.rounds, s.id)| && Of(db.rounds, s.id)[number - 1].fixTaskId == taskId
  {
    hide LatestRound;
    LatestIsLast(db, s.id);
    assert ValidSession(db, s.id);
  }

  lemma {:induction false} OpenStep(steps: seq<Step>, c: nat, taskId: string)
    requires var st := After(steps);
      && c in st.calls && st.calls[c].Opening? && taskId != "" && taskId !in st.db.tasks
    ensures var call := After(steps).calls[c];
      After(steps + [Open(c, taskId, All)]).db ==
        OpenRound(After(steps).db, call.session, call.latest, call.found, call.isRecovery, taskId, All).0
  {
    hide OpenRound;
    AfterOne(steps, Open(c, taskId, All));
  }

  /** In every state of every run that goes on after a round was opened, any other review or approval
      of the session comes to wait for exactly that round if and only if the round is not completed and
      its task is not at an end. */
  lemma {:induction false} OthersWaitForIt(steps: seq<Step>, c: nat, taskId: string, more: seq<Step>, other: Session,
      now: int)
    requires var st := After(steps);
      && c in st.calls && st.calls[c].Opening? && taskId != "" && taskId !in st.db.tasks
      && other.id == st.calls[c].session.id
    requires var call := After(steps).calls[c];
      OpenRound(After(steps).db, call.session, call.latest, call.found, call.isRecovery, taskId, All).1
    ensures var number := NumberOf(After(steps).calls[c].latest) + 1;
      var db := After((steps + [Open(c, taskId, All)]) + more).db;
      && 1 <= number <= |Of(db.rounds, other.id)| && Of(db.rounds, other.id)[number - 1].fixTaskId == taskId
      && (EnsureLatest(db, other, now) == (db, MustWait(other, number)) <==>
            !Of(db.rounds, other.id)[number - 1].IsCompleted() && !IsOver(db, taskId))
  {
    hide After, OpenRound, EnsureLatest, ValidDb, Progresses, CallOk, LatestRound, Of, IsOver, Opened;
    var st, begun := After(steps), steps + [Open(c, taskId, All)];
    var call := st.calls[c];
    var number := NumberOf(call.latest) + 1;
    InvHolds(steps);
    RoundIsOpened(st.db, call.session, call.latest, call.found, call.isRecovery, taskId);
    OpenStep(steps, c, taskId);
    assert 1 <= other.id <= |After(begun).db.sessions| by {
      OpenedSession(After(begun).db, call.session, number, call.found, call.isRecovery, taskId);
    }
    OpenedIsListed(After(begun).db, call.session, number, call.found, call.isRecovery, taskId);
    InvHolds(begun + more);
    RunsProgress(begun, more);
    WaitsWhileOpen(After(begun).db, After(begun + more).db, other, number, taskId, now);
  }

  lemma {:induction false} OpenedSession(db: Db, s: Session, number: int, found: int, isRecovery: bool, taskId: string)
    requires Opened(db, s, number, found, isRecovery, taskId)
    ensures 1 <= s.id <= |db.sessions| && !IsOver(db, taskId)
  {}

  // ---- From a failed fix to a recovery -------------------------------------------------------

  /** The latest round of a session belongs to a fix that failed. */
  ghost predicate FixFailed(db: Db, sid: nat) {
    && ValidDb(db) && 1 <= sid <= |db.sessions| && Of(db.rounds, sid) != [] && LatestRound(db, sid).Some?
    && LatestRound(db, sid).value.fixTaskId != ""
    && TaskOf(db, LatestRound(db, sid).value.fixTaskId).Some?
    && TaskOf(db, LatestRound(db, sid).value.fixTaskId).value.status == Failed
  }

  /** A review that comes after a failed fix goes on with a completed round and takes itself for a
      recovery, whether the worker recorded the failure before it or not. */
  lemma {:induction false} FailureLeadsToRecovery(db: Db, s: Session, now: int)
    requires FixFailed(db, s.id)
    ensures var (db', e) := EnsureLatest(db, s, now);
      && e.Ready? && e.latest.Some? && e.latest.value.IsCompleted() && IsRecovery(db', e.latest)
      && (!LatestRound(db, s.id).value.IsCompleted() ==> e.latest.value.issuesFixed == 0)
  {
    hide HealSucceeded, ValidDb, LatestRound;
  }

  lemma {:induction false} FailureStaysVisible(db: Db, number: int, repo: string, pr: int, sid: nat, now: int)
    requires FixFailed(db, sid) && number == |Of(db.rounds, sid)|
    ensures var db' := PersistFailure(db, sid, number, repo, pr, now);
      FixFailed(db', sid) && LatestRound(db', sid).value.IsCompleted()
  {
    hide UpdateSession, ValidDb, UpdateRound;
    LatestIsLast(db, sid);
    PersistFailureKeeps(db, sid, number, repo, pr, now);
    var r := GetRound(db, sid, number).value;
    var db1 := CompleteOnFailure(db, sid, number, now);
    if !r.IsCompleted() { CompleteRound(db, sid, number - 1, r.(issuesFixed := 0, completedAt := Some(now))); }
    TasksStay(db, sid, number, repo, pr, now);
    LatestIsLast(PersistFailure(db, sid, number, repo, pr, now), sid);
  }

  lemma {:induction false} TasksStay(db: Db, sid: nat, number: int, repo: string, pr: int, now: int)
    ensures var db' := PersistFailure(db, sid, number, repo, pr, now);
      db'.tasks == db.tasks && db'.rounds == CompleteOnFailure(db, sid, number, now).rounds
    ensures |PersistFailure(db, sid, number, repo, pr, now).sessions| == |db.sessions|
  {
    hide FindActive, GetRound, BreaksIndex;
  }

  /** So a worker that records the failure first does not keep the next review from being a recovery. */
  lemma {:induction false} RecordedFailureLeadsToRecovery(db: Db, number: int, repo: string, pr: int, s: Session,
      now: int, later: int)
    requires FixFailed(db, s.id) && number == |Of(db.rounds, s.id)|
    ensures var (db', e) := EnsureLatest(PersistFailure(db, s.id, number, repo, pr, now), s, later);
      e.Ready? && e.latest.Some? && e.latest.value.IsCompleted() && IsRecovery(db', e.latest)
  {
    hide PersistFailure, FixFailed, EnsureLatest;
    FailureStaysVisible(db, number, repo, pr, s.id, now);
    FailureLeadsToRecovery(PersistFailure(db, s.id, number, repo, pr, now), s, later);
  }

  // ---- From the end of a session to the next one ---------------------------------------------

  /** Once its session is completed or exhausted, a pull request has no active session, and the next
      review starts a new one that has no round yet, hence the whole number of rounds to go. */
  lemma {:induction false} EndedSessionIsReplaced(db: Db, s: Session, latest: Option<Round>, maxRounds: int,
      approved: bool)
    requires ValidDb(db) && CopyOk(db, s) && db.sessions[s.id - 1].IsActive() && LatestOk(db, s.id, latest)
    ensures var db' := if approved then Approve(db, s, latest) else Exhaust(db, s);
      var (db2, next) := FindOrCreate(db', s.repo, s.pr, maxRounds);
      && FindActive(db', s.repo, s.pr) == None
      && next == Session(|db.sessions| + 1, s.repo, s.pr, Idle, 0, maxRounds, 0, 0)
      && Of(db2.rounds, next.id) == []
  {
    hide Recompute, ValidSession, LatestOk;
    var db' := if approved then Approve(db, s, latest) else Exhaust(db, s);
    if approved { ApproveKeeps(db, s, latest); } else { ExhaustKeeps(db, s); }
    NoOtherIsActive(db.sessions, db'.sessions, s.id - 1);
    NothingFound(db'.sessions, s.repo, s.pr);
    assert db'.rounds == db.rounds;
    NoRoundsYet(db.rounds, |db.sessions| + 1);
  }

  lemma {:induction false} NoOtherIsActive(a: seq<Session>, b: seq<Session>, i: nat)
    requires OneActive(a) && i < |a| == |b| && a[i].IsActive() && !b[i].IsActive() && SameSession(a[i], b[i])
    requires forall k :: 0 <= k < |a| && k != i ==> b[k] == a[k]
    ensures forall k :: 0 <= k < |b| && b[k].IsActive() ==> b[k].repo != a[i].repo || b[k].pr != a[i].pr
  {
    forall k | 0 <= k < |b| && b[k].IsActive() ensures b[k].repo != a[i].repo || b[k].pr != a[i].pr {
      assert k != i && a[k].IsActive();
    }
  }

  lemma {:induction false} NothingFound(sessions: seq<Session>, repo: string, pr: int)
    requires forall k :: 0 <= k < |sessions| && sessions[k].IsActive() ==>
      sessions[k].repo != repo || sessions[k].pr != pr
    ensures FindActiveIn(sessions, repo, pr) == None
  {
    if sessions != [] { NothingFound(sessions[..|sessions| - 1], repo, pr); }
  }
}
