/** The review/fix iteration protocol as a state machine: any number of review and approval calls,
    each interrupted between its database accesses, run beside fix workers that succeed, fail, are
    cancelled, retried or repaired. */
module IterationProtocol {
  import opened Wrappers
  import opened IterationModel
  import opened IterationTables

  datatype Purpose = ForReview(found: int) | ForApproval

  /** Where a call stands, with what it has read so far.  Sessions and rounds in here are copies and
      may be stale. */
  datatype Call =
    | Found(purpose: Purpose, session: Session)
    | Waiting(purpose: Purpose, session: Session, number: int)
    | Judging(session: Session, found: int, latest: Option<Round>)
    | Counting(session: Session, found: int, latest: Option<Round>, isRecovery: bool)
    | Comparing(session: Session, found: int, latest: Option<Round>, isRecovery: bool, count: nat)
    | Opening(session: Session, found: int, latest: Option<Round>, isRecovery: bool)
    | Approving(session: Session, latest: Option<Round>)

  /** `started` counts, per session, the calls of AfterReviewCompleted that returned true. */
  datatype State = State(db: Db, calls: map<nat, Call>, started: multiset<nat>)

  datatype Step =
    | StartReview(call: nat, repo: string, pr: int, maxRounds: int, found: int)
    | StartApproval(call: nat, repo: string, pr: int)
    | Ensure(call: nat, now: int)
    | Poll(call: nat)
    | Abandon(call: nat)
    | Judge(call: nat)
    | Count(call: nat)
    | Compare(call: nat)
    | Open(call: nat, taskId: string, progress: Progress)
    | Finish(call: nat)
    | TaskChanges(taskId: string, task: FixTask)
    | FixPersisted(sid: nat, number: int, repo: string, pr: int, taskId: string, o: FixOutput, now: int)
    | FailurePersisted(sid: nat, number: int, repo: string, pr: int, now: int)
    | ZeroPersisted(sid: nat, number: int, repo: string, pr: int, taskId: string, now: int)

  const INIT := State(Db([], [], map[]), map[], multiset{})

  function Proceed(p: Purpose, s: Session, latest: Option<Round>): Call {
    match p
    case ForReview(found) => Judging(s, found, latest)
    case ForApproval => Approving(s, latest)
  }

  function EndCall(st: State, c: nat, db: Db): State { st.(db := db, calls := st.calls - {c}) }

  function GoOn(st: State, c: nat, db: Db, call: Call): State { st.(db := db, calls := st.calls[c := call]) }

  function AfterEnsure(st: State, c: nat, purpose: Purpose, r: (Db, Ensured)): State {
    match r.1
    case Ready(s, latest) => GoOn(st, c, r.0, Proceed(purpose, s, latest))
    case MustWait(s, number) => GoOn(st, c, r.0, Waiting(purpose, s, number))
    case GivenUp => EndCall(st, c, r.0)
  }

  /** One step of a call that is under way. */
  function Advance(st: State, step: Step, c: nat, call: Call): State {
    match step
    case Ensure(_, now) =>
      if call.Found? then AfterEnsure(st, c, call.purpose, EnsureLatest(st.db, call.session, now)) else st
    case Poll(_) =>
      if !call.Waiting? then st
      else
        var r := GetRound(st.db, call.session.id, call.number);
        if r.Some? && r.value.IsCompleted() then GoOn(st, c, st.db, Proceed(call.purpose, call.session, r)) else st
    case Judge(_) =>
      if call.Judging?
      then GoOn(st, c, st.db, Counting(call.session, call.found, call.latest, IsRecovery(st.db, call.latest))) else st
    case Count(_) =>
      if !call.Counting? then st
      else
        var n := CountNonRecovery(st.db, call.session.id);
        if !call.isRecovery && n >= call.session.maxRounds then EndCall(st, c, Exhaust(st.db, call.session))
        else GoOn(st, c, st.db, Comparing(call.session, call.found, call.latest, call.isRecovery, n))
    case Compare(_) =>
      if !call.Comparing? then st
      else if !call.isRecovery && call.count >= 2 && TwoZeroes(Of(st.db.rounds, call.session.id))
      then EndCall(st, c, Exhaust(st.db, call.session))
      else GoOn(st, c, st.db, Opening(call.session, call.found, call.latest, call.isRecovery))
    case Open(_, taskId, progress) =>
      if !call.Opening? || taskId == "" || taskId in st.db.tasks then st
      else
        var (db, ok) := OpenRound(st.db, call.session, call.latest, call.found, call.isRecovery, taskId, progress);
        var ended := EndCall(st, c, db);
        if ok then ended.(started := st.started + multiset{call.session.id}) else ended
    case Finish(_) =>
      if call.Approving? then EndCall(st, c, Approve(st.db, call.session, call.latest)) else st
    case Abandon(_) => EndCall(st, c, st.db)
    case _ => st
  }

  function CallOf(step: Step): Option<nat> {
    match step
    case Ensure(c, _) => Some(c)
    case Poll(c) => Some(c)
    case Abandon(c) => Some(c)
    case Judge(c) => Some(c)
    case Count(c) => Some(c)
    case Compare(c) => Some(c)
    case Open(c, _, _) => Some(c)
    case Finish(c) => Some(c)
    case _ => None
  }

  /** A step that does not apply changes nothing. */
  function Next(st: State, step: Step): State {
    match step
    case StartReview(c, repo, pr, maxRounds, found) =>
      if c in st.calls then st
      else
        var (db, s) := FindOrCreate(st.db, repo, pr, maxRounds);
        GoOn(st, c, db, Found(ForReview(found), s))
    case StartApproval(c, repo, pr) =>
      if c in st.calls then st
      else
        var s := FindActive(st.db, repo, pr);
        if s.Some? then GoOn(st, c, st.db, Found(ForApproval, s.value)) else st
    case TaskChanges(id, task) =>
      if id in st.db.tasks then st.(db := st.db.(tasks := st.db.tasks[id := task])) else st
    case FixPersisted(sid, number, repo, pr, taskId, o, now) =>
      st.(db := PersistFix(st.db, sid, number, repo, pr, taskId, o, now))
    case FailurePersisted(sid, number, repo, pr, now) =>
      st.(db := PersistFailure(st.db, sid, number, repo, pr, now))
    case ZeroPersisted(sid, number, repo, pr, taskId, now) =>
      st.(db := PersistZeroFix(st.db, sid, number, repo, pr, taskId, now))
    case _ =>
      var c := CallOf(step).value;
      if c in st.calls then Advance(st, step, c, st.calls[c]) else st
  }

  function After(steps: seq<Step>): State {
    if steps == [] then INIT else Next(After(steps[..|steps| - 1]), steps[|steps| - 1])
  }

  // ---- What a call knows ---------------------------------------------------------------------

  function NumberOf(latest: Option<Round>): int { if latest.Some? then latest.value.number else 0 }

  /** The session copy names a row; its total is zero as long as there is no round. */
  ghost predicate CopyOk(db: Db, s: Session) {
    && 1 <= s.id <= |db.sessions|
    && SameSession(db.sessions[s.id - 1], s)
    && (Of(db.rounds, s.id) == [] ==> s.totalFixed == 0)
  }

  /** The round copy names a row that is completed if it has a fix task. */
  ghost predicate LatestOk(db: Db, sid: nat, latest: Option<Round>) {
    var rs := Of(db.rounds, sid);
    latest.Some? ==>
      var n := latest.value.number;
      && 1 <= n <= |rs|
      && rs[n - 1].id == latest.value.id
      && (rs[n - 1].fixTaskId != "" ==> rs[n - 1].IsCompleted())
      && (latest.value.IsCompleted() ==> rs[n - 1].IsCompleted())
  }

  /** No round was inserted since the latest one was read. */
  ghost predicate StillLatest(db: Db, sid: nat, latest: Option<Round>) {
    |Of(db.rounds, sid)| == NumberOf(latest)
  }

  ghost predicate CallOk(db: Db, call: Call) {
    CopyOk(db, call.session) &&
    var sid := call.session.id;
    var rs := Of(db.rounds, sid);
    match call
    case Found(_, _) => true
    case Waiting(_, _, _) => true
    case Judging(_, _, latest) => LatestOk(db, sid, latest)
    case Counting(_, _, latest, _) => LatestOk(db, sid, latest)
    case Comparing(s, _, latest, isRecovery, count) =>
      LatestOk(db, sid, latest) &&
      (!isRecovery && StillLatest(db, sid, latest) ==> |NonRecovery(rs)| == count < s.maxRounds)
    case Opening(s, _, latest, isRecovery) =>
      LatestOk(db, sid, latest) &&
      (!isRecovery && StillLatest(db, sid, latest) ==> |NonRecovery(rs)| < s.maxRounds && !TwoZeroes(rs))
    case Approving(s, latest) => LatestOk(db, sid, latest) && (latest == None ==> s.totalFixed == 0)
  }

  ghost predicate Inv(st: State) {
    && ValidDb(st.db)
    && (forall c :: c in st.calls ==> CallOk(st.db, st.calls[c]))
    && (forall sid :: st.started[sid] <= |Of(st.db.rounds, sid)|)
  }

  /** Whatever else happens to the tables, a call's knowledge stays true. */
  lemma {:induction false} CallStaysOk(db: Db, db': Db, call: Call)
    requires ValidDb(db) && Progresses(db, db') && CallOk(db, call)
    ensures CallOk(db', call)
  {
    var sid := call.session.id;
    var a, b := Of(db.rounds, sid), Of(db'.rounds, sid);
    assert Grows(a, b);
    assert ValidSession(db, sid);
    assert forall k :: 0 <= k < |a| ==> Evolves(a[k], b[k]);
    if |a| == |b| {
      NonRecoveryGrows(a, b);
      if TwoZeroes(b) { TwoZeroesBefore(a, b); }
    }
    if call.Judging? || call.Counting? || call.Comparing? || call.Opening? || call.Approving? {
      LatestStaysOk(db, db', sid, call.latest);
    }
  }

  lemma {:induction false} LatestStaysOk(db: Db, db': Db, sid: nat, latest: Option<Round>)
    requires Progresses(db, db') && LatestOk(db, sid, latest)
    ensures LatestOk(db', sid, latest) && (StillLatest(db', sid, latest) ==> StillLatest(db, sid, latest))
  {
    var a, b := Of(db.rounds, sid), Of(db'.rounds, sid);
    assert Grows(a, b);
    if latest.Some? { assert Evolves(a[latest.value.number - 1], b[latest.value.number - 1]); }
  }

  // ---- Every handler keeps the tables valid --------------------------------------------------

  lemma {:induction false} ProgressesSame(db: Db)
    ensures Progresses(db, db)
  {}

  lemma {:induction false} TasksDoNotMatter(db: Db, tasks: map<string, FixTask>)
    requires ValidDb(db)
    ensures ValidDb(db.(tasks := tasks)) && Progresses(db, db.(tasks := tasks))
  {
    forall sid | 1 <= sid <= |db.sessions| ensures ValidSession(db.(tasks := tasks), sid) {
      assert ValidSession(db, sid);
    }
  }

  /** A session row written back keeps everything valid; a refused write changes nothing. */
  lemma {:induction false} WriteBack(db: Db, s: Session, db': Db)
    requires ValidDb(db) && 1 <= s.id <= |db.sessions|
    requires Of(db.rounds, s.id) == [] ==> s.totalFixed == 0
    requires db' == match UpdateSession(db, s) case None => db case Some(d) => d
    ensures ValidDb(db') && Progresses(db, db') && db'.rounds == db.rounds
  {
    ProgressesSame(db);
    if UpdateSession(db, s).Some? { SessionWrite(db, s, db'); }
  }

  lemma {:induction false} LatestIsLast(db: Db, sid: nat)
    requires ValidDb(db) && 1 <= sid <= |db.sessions|
    ensures var rs := Of(db.rounds, sid); LatestRound(db, sid) == if rs == [] then None else Some(rs[|rs| - 1])
    ensures var rs := Of(db.rounds, sid);
      forall n :: GetRound(db, sid, n) == if 1 <= n <= |rs| then Some(rs[n - 1]) else None
  {
    assert ValidSession(db, sid);
    var rs := Of(db.rounds, sid);
    HighestOfNumbered(rs);
    forall n ensures GetRound(db, sid, n) == if 1 <= n <= |rs| then Some(rs[n - 1]) else None {
      WithNumberOfNumbered(rs, n);
    }
  }

  /** A round found in a session's list is the row its id names. */
  lemma {:induction false} RoundIsRow(db: Db, sid: nat, k: nat)
    requires ValidDb(db) && k < |Of(db.rounds, sid)|
    ensures var r := Of(db.rounds, sid)[k];
      1 <= r.id <= |db.rounds| && db.rounds[r.id - 1] == r && r.sessionId == sid && 1 <= sid <= |db.sessions|
  {
    OfBelongs(db.rounds, sid, k);
    var r := Of(db.rounds, sid)[k];
    var i :| 0 <= i < |db.rounds| && db.rounds[i] == r;
  }

  /** Completing the latest round of a session. */
  lemma {:induction false} CompleteLatest(db: Db, sid: nat, done: Round)
    requires ValidDb(db) && Of(db.rounds, sid) != []
    requires var rs := Of(db.rounds, sid); Completes(rs[|rs| - 1], done)
    ensures var db' := UpdateRound(db, done);
      ValidDb(db') && Progresses(db, db') && db'.sessions == db.sessions && LatestOk(db', sid, Some(done)) &&
      Of(db'.rounds, sid) == Of(db.rounds, sid)[|Of(db.rounds, sid)| - 1 := done]
  {
    var rs := Of(db.rounds, sid);
    CompleteRound(db, sid, |rs| - 1, done);
  }

  ghost predicate Completes(r: Round, done: Round) {
    !r.IsCompleted() && done.IsCompleted() && Evolves(r, done) && done.issuesFound == r.issuesFound
  }

  lemma {:induction false} CompleteRound(db: Db, sid: nat, k: nat, done: Round)
    requires ValidDb(db) && k < |Of(db.rounds, sid)| && Completes(Of(db.rounds, sid)[k], done)
    ensures var db' := UpdateRound(db, done);
      ValidDb(db') && Progresses(db, db') && db'.sessions == db.sessions && LatestOk(db', sid, Some(done)) &&
      Of(db'.rounds, sid) == Of(db.rounds, sid)[k := done]
  {
    RoundIsRow(db, sid, k);
    RoundWrite(db, done);
    var row' := UpdatedRow(db, done);
    assert row' == done;
    OfUpdate(db.rounds, done.id - 1, done, sid);
    assert ValidSession(db, sid);
    var rs := Of(db.rounds, sid);
    var p := Position(db.rounds, done.id - 1);
    assert rs[p].number == p + 1 && rs[k].number == k + 1;
  }

  ghost predicate EnsuredOk(db: Db, s: Session, db': Db, e: Ensured) {
    && ValidDb(db') && Progresses(db, db')
    && (e.Ready? ==> e.session.id == s.id && CopyOk(db', e.session) && LatestOk(db', s.id, e.latest))
    && (e.Ready? && e.latest == None ==> e.session.totalFixed == 0)
    && (e.MustWait? ==> db' == db && e.session == s)
  }

  lemma {:induction false} ReadyAsIs(db: Db, s: Session, latest: Option<Round>)
    requires ValidDb(db) && CopyOk(db, s) && latest == LatestRound(db, s.id)
    requires latest.Some? ==> latest.value.fixTaskId == "" || latest.value.IsCompleted()
    ensures EnsuredOk(db, s, db, Ready(s, latest))
  {
    ProgressesSame(db);
    LatestIsLast(db, s.id);
    assert ValidSession(db, s.id);
  }

  lemma {:induction false} EnsureKeeps(db: Db, s: Session, now: int)
    requires ValidDb(db) && CopyOk(db, s)
    ensures var (db', e) := EnsureLatest(db, s, now); EnsuredOk(db, s, db', e)
  {
    hide HealSucceeded, UpdateRound, Progresses, LatestRound, ValidDb, LatestOk;
    LatestIsLast(db, s.id);
    ProgressesSame(db);
    var latest := LatestRound(db, s.id);
    if latest == None || latest.value.fixTaskId == "" || latest.value.IsCompleted() {
      ReadyAsIs(db, s, latest);
    } else if TaskOf(db, latest.value.fixTaskId).Some? {
      var task, r := TaskOf(db, latest.value.fixTaskId).value, latest.value;
      if task.status == Succeeded {
        HealKeeps(db, s, r, task.result, now);
      } else if task.status == Failed || task.status == Cancelled {
        var done := r.(completedAt := Some(now), issuesFixed := 0);
        CompleteLatest(db, s.id, done);
        CopyStaysOk(db, UpdateRound(db, done), s);
      }
    }
  }

  lemma {:induction false} CopyStaysOk(db: Db, db': Db, s: Session)
    requires CopyOk(db, s) && Progresses(db, db')
    ensures CopyOk(db', s)
  {
    assert Grows(Of(db.rounds, s.id), Of(db'.rounds, s.id));
  }

  lemma {:induction false} HealKeeps(db: Db, s: Session, r: Round, o: Option<FixOutput>, now: int)
    requires ValidDb(db) && CopyOk(db, s) && Of(db.rounds, s.id) != []
    requires r == Of(db.rounds, s.id)[|Of(db.rounds, s.id)| - 1] && !r.IsCompleted()
    ensures var (db', e) := HealSucceeded(db, s, r, o, now);
      && ValidDb(db') && Progresses(db, db') && !e.MustWait?
      && (e.Ready? ==>
            e.latest.Some? && e.session.id == s.id && CopyOk(db', e.session) && LatestOk(db', s.id, e.latest))
  {
    hide Recompute, ValidDb, UpdateRound, UpdateSession, Progresses, LatestOk, CountFixed;
    var done := r.(completedAt := Some(now), issuesFixed := if o.Some? then CountFixed(o.value) else 0);
    CompleteLatest(db, s.id, done);
    var db1 := UpdateRound(db, done);
    var s1 := Settle(s, Recompute(db1, s.id, Some(done)));
    var db2 := HealSucceeded(db, s, r, o, now).0;
    WriteBack(db1, s1, db2);
    ProgressesChain(db, db1, db2);
    CopyStaysOk(db, db2, s1);
    LatestStaysOk(db1, db2, s.id, Some(done));
  }

  lemma {:induction false} ExhaustKeeps(db: Db, s: Session)
    requires ValidDb(db) && CopyOk(db, s)
    ensures ValidDb(Exhaust(db, s)) && Progresses(db, Exhaust(db, s))
  {
    WriteBack(db, s.(status := Exhausted), Exhaust(db, s));
  }

  lemma {:induction false} ApproveKeeps(db: Db, s: Session, latest: Option<Round>)
    requires ValidDb(db) && CopyOk(db, s) && LatestOk(db, s.id, latest)
    ensures ValidDb(Approve(db, s, latest)) && Progresses(db, Approve(db, s, latest))
  {
    hide Recompute;
    var total := if latest.Some? then Recompute(db, s.id, latest) else s.totalFixed;
    WriteBack(db, s.(totalFixed := total, status := Completed), Approve(db, s, latest));
  }

  lemma {:induction false} FindOrCreateKeeps(db: Db, repo: string, pr: int, maxRounds: int)
    requires ValidDb(db)
    ensures var (db', s) := FindOrCreate(db, repo, pr, maxRounds);
      ValidDb(db') && Progresses(db, db') && CopyOk(db', s)
  {
    ProgressesSame(db);
    var (db', s) := FindOrCreate(db, repo, pr, maxRounds);
    if FindActive(db, repo, pr) == None {
      SessionAppend(db, s, db');
    } else {
      FindActiveIsCopy(db, repo, pr);
    }
  }

  lemma {:induction false} FindActiveIsCopy(db: Db, repo: string, pr: int)
    requires ValidDb(db) && FindActive(db, repo, pr).Some?
    ensures var s := FindActive(db, repo, pr).value; CopyOk(db, s) && db.sessions[s.id - 1] == s
  {
    FoundIsRow(db.sessions, repo, pr);
    var s := FindActive(db, repo, pr).value;
    var i :| 0 <= i < |db.sessions| && db.sessions[i] == s;
    assert ValidSession(db, s.id);
  }

  // ---- The fix worker ------------------------------------------------------------------------

  /** The end of a worker's persistence: the session it finds is written back with some changes. */
  lemma {:induction false} WorkerWritesBack(db: Db, repo: string, pr: int, s': Session, db': Db)
    requires ValidDb(db) && FindActive(db, repo, pr).Some? && s'.id == FindActive(db, repo, pr).value.id
    requires Of(db.rounds, s'.id) == [] ==> s'.totalFixed == 0
    requires db' == match UpdateSession(db, s') case None => db case Some(d) => d
    ensures ValidDb(db') && Progresses(db, db')
  {
    FindActiveIsCopy(db, repo, pr);
    WriteBack(db, s', db');
  }

  /** A worker's round, read and perhaps completed. */
  lemma {:induction false} WorkerCompletes(db: Db, sid: nat, number: int, done: Round)
    requires ValidDb(db) && GetRound(db, sid, number).Some?
    requires done == GetRound(db, sid, number).value || Completes(GetRound(db, sid, number).value, done)
    ensures var r := GetRound(db, sid, number).value;
      var db1 := if r.IsCompleted() then db else UpdateRound(db, done);
      done.IsCompleted() ==>
        ValidDb(db1) && Progresses(db, db1) && db1.sessions == db.sessions &&
        |Of(db1.rounds, sid)| == |Of(db.rounds, sid)| > 0 && 1 <= sid <= |db.sessions| &&
        1 <= number <= |Of(db1.rounds, sid)| && Of(db1.rounds, sid)[number - 1] == done
  {
    ProgressesSame(db);
    SessionExists(db, sid, number);
    LatestIsLast(db, sid);
    var r := GetRound(db, sid, number).value;
    if done.IsCompleted() && !r.IsCompleted() { CompleteRound(db, sid, number - 1, done); }
  }

  lemma {:induction false} SessionExists(db: Db, sid: nat, number: int)
    requires ValidDb(db) && GetRound(db, sid, number).Some?
    ensures 1 <= sid <= |db.sessions|
  {
    if Of(db.rounds, sid) != [] { RoundIsRow(db, sid, 0); }
  }

  lemma {:induction false} PersistFixKeeps(db: Db, sid: nat, number: int, repo: string, pr: int, taskId: string,
                                           o: FixOutput, now: int)
    requires ValidDb(db)
    ensures var db' := PersistFix(db, sid, number, repo, pr, taskId, o, now); ValidDb(db') && Progresses(db, db')
  {
    hide Recompute, UpdateSession, CountFixed;
    ProgressesSame(db);
    var found := GetRound(db, sid, number);
    if sid != 0 && number != 0 && found.Some? && !Mismatch(found.value, taskId) {
      var r := found.value;
      var done := if r.IsCompleted() then r
                  else r.(fixTaskId := taskId, issuesFixed := CountFixed(o), completedAt := Some(now));
      WorkerCompletes(db, sid, number, done);
      var db1 := if r.IsCompleted() then db else UpdateRound(db, done);
      var db2 := PersistFix(db, sid, number, repo, pr, taskId, o, now);
      var s := FindActive(db1, repo, pr);
      if s.Some? && s.value.id == sid {
        WorkerWritesBack(db1, repo, pr, Settle(s.value, Recompute(db1, sid, Some(done))), db2);
        ProgressesChain(db, db1, db2);
      }
    }
  }

  lemma {:induction false} PersistZeroFixKeeps(db: Db, sid: nat, number: int, repo: string, pr: int, taskId: string,
                                               now: int)
    requires ValidDb(db)
    ensures var db' := PersistZeroFix(db, sid, number, repo, pr, taskId, now); ValidDb(db') && Progresses(db, db')
  {
    hide UpdateSession;
    ProgressesSame(db);
    var found := GetRound(db, sid, number);
    if sid != 0 && number != 0 && found.Some? && !Mismatch(found.value, taskId) {
      var r := found.value;
      var done := if r.IsCompleted() then r else r.(fixTaskId := taskId, issuesFixed := 0, completedAt := Some(now));
      WorkerCompletes(db, sid, number, done);
      var db1 := if r.IsCompleted() then db else UpdateRound(db, done);
      var db2 := PersistZeroFix(db, sid, number, repo, pr, taskId, now);
      var s := FindActive(db1, repo, pr);
      if s.Some? && s.value.id == sid {
        WorkerWritesBack(db1, repo, pr, Settle(s.value, s.value.totalFixed), db2);
        ProgressesChain(db, db1, db2);
      }
    }
  }

  lemma {:induction false} PersistFailureKeeps(db: Db, sid: nat, number: int, repo: string, pr: int, now: int)
    requires ValidDb(db)
    ensures var db' := PersistFailure(db, sid, number, repo, pr, now); ValidDb(db') && Progresses(db, db')
  {
    hide UpdateSession;
    ProgressesSame(db);
    if sid != 0 {
      var found := GetRound(db, sid, number);
      var db1 := CompleteOnFailure(db, sid, number, now);
      if number != 0 && found.Some? && !found.value.IsCompleted() {
        WorkerCompletes(db, sid, number, found.value.(issuesFixed := 0, completedAt := Some(now)));
      }
      var db2 := PersistFailure(db, sid, number, repo, pr, now);
      var s := FindActive(db1, repo, pr);
      if s.Some? && s.value.id == sid {
        FindActiveIsCopy(db1, repo, pr);
        WorkerWritesBack(db1, repo, pr, s.value.(status := Idle), db2);
        ProgressesChain(db, db1, db2);
      }
    }
  }

  // ---- Opening a round -----------------------------------------------------------------------

  /** The list of the session's rounds after an attempt to open a round. */
  ghost predicate OpenedOk(db: Db, sid: nat, latest: Option<Round>, isRecovery: bool, db': Db, ok: bool) {
    var rs, rs' := Of(db.rounds, sid), Of(db'.rounds, sid);
    && (rs' == rs || (StillLatest(db, sid, latest) && |rs'| == |rs| + 1 && rs'[|rs|].isRecovery == isRecovery))
    && (ok ==> |rs'| == |rs| + 1)
  }

  /** A round is inserted only if the latest round read is still the latest. */
  lemma {:induction false} OpenKeeps(db: Db, s: Session, latest: Option<Round>, found: int, isRecovery: bool,
                                     taskId: string, progress: Progress)
    requires ValidDb(db) && CallOk(db, Opening(s, found, latest, isRecovery))
    ensures var (db', ok) := OpenRound(db, s, latest, found, isRecovery, taskId, progress);
      ValidDb(db') && Progresses(db, db') && OpenedOk(db, s.id, latest, isRecovery, db', ok)
  {
    hide UpdateSession, Progresses, ValidDb, InsertRound;
    ProgressesSame(db);
    var number := NumberOf(latest) + 1;
    var s1 := s.(status := Fixing, currentRound := number, totalFound := s.totalFound + found);
    var written := UpdateSession(db, s1);
    if written.Some? {
      var db1 := written.value;
      WriteBack(db, s1, db1);
      CallStaysOk(db, db1, Opening(s, found, latest, isRecovery));
      InsertKeeps(db1, s, latest, found, isRecovery, taskId, progress);
      ProgressesChain(db, db1, InsertRound(db1, s.id, number, found, isRecovery, taskId, progress).0);
    }
  }

  lemma {:induction false} InsertKeeps(db: Db, s: Session, latest: Option<Round>, found: int, isRecovery: bool,
                                       taskId: string, progress: Progress)
    requires ValidDb(db) && CallOk(db, Opening(s, found, latest, isRecovery))
    ensures var (db', ok) := InsertRound(db, s.id, NumberOf(latest) + 1, found, isRecovery, taskId, progress);
      ValidDb(db') && Progresses(db, db') && OpenedOk(db, s.id, latest, isRecovery, db', ok)
  {
    hide UpdateRound, Progresses, ValidDb, CreateRound, CallOk;
    ProgressesSame(db);
    var created := CreateRound(db, s.id, NumberOf(latest) + 1, found, isRecovery);
    if created.Some? {
      var (db2, round) := created.value;
      CreatedOk(db, s, latest, found, isRecovery, taskId);
      var final := if progress == OnlyRound || progress == OnlyTask then round else round.(fixTaskId := taskId);
      Inserted(db, s, latest, found, isRecovery, final,
        InsertRound(db, s.id, NumberOf(latest) + 1, found, isRecovery, taskId, progress).0);
    }
  }

  lemma {:induction false} CreatedOk(db: Db, s: Session, latest: Option<Round>, found: int, isRecovery: bool,
      taskId: string)
    requires ValidDb(db) && CallOk(db, Opening(s, found, latest, isRecovery))
    requires CreateRound(db, s.id, NumberOf(latest) + 1, found, isRecovery).Some?
    ensures var (db2, round) := CreateRound(db, s.id, NumberOf(latest) + 1, found, isRecovery).value;
      && StillLatest(db, s.id, latest)
      && round == Round(|db.rounds| + 1, s.id, NumberOf(latest) + 1, "", found, 0, isRecovery, None)
      && db2 == db.(rounds := db.rounds + [round])
      && var db3 := db2.(tasks := db2.tasks[taskId := FixTask(Queued, None)]);
      UpdateRound(db3, round.(fixTaskId := taskId)) == db3.(rounds := db.rounds + [round.(fixTaskId := taskId)])
  {
    hide UpdateRound;
    LatestIsLast(db, s.id);
    var (db2, round) := CreateRound(db, s.id, NumberOf(latest) + 1, found, isRecovery).value;
    LinkNewRound(db, db2.(tasks := db2.tasks[taskId := FixTask(Queued, None)]), round, taskId);
  }

  lemma {:induction false} Inserted(db: Db, s: Session, latest: Option<Round>, found: int, isRecovery: bool,
      r: Round, db': Db)
    requires ValidDb(db) && CallOk(db, Opening(s, found, latest, isRecovery)) && StillLatest(db, s.id, latest)
    requires r.id == |db.rounds| + 1 && r.sessionId == s.id && r.number == NumberOf(latest) + 1
    requires r.issuesFixed == 0 && r.isRecovery == isRecovery && r.completedAt == None
    requires db' == db.(rounds := db.rounds + [r], tasks := db'.tasks)
    ensures ValidDb(db') && Progresses(db, db')
    ensures Of(db'.rounds, s.id) == Of(db.rounds, s.id) + [r]
  {
    var dbr := db.(rounds := db.rounds + [r]);
    RoundAppend(db, s.id, r);
    TasksDoNotMatter(dbr, db'.tasks);
    ProgressesChain(db, dbr, db');
  }

  /** The last write of the phase touches the row that was just inserted. */
  lemma {:induction false} LinkNewRound(db1: Db, db3: Db, round: Round, taskId: string)
    requires db3.rounds == db1.rounds + [round] && round.id == |db1.rounds| + 1
    ensures UpdateRound(db3, round.(fixTaskId := taskId)) == db3.(rounds := db1.rounds + [round.(fixTaskId := taskId)])
  {
    assert db3.rounds[|db1.rounds| := round.(fixTaskId := taskId)] == db1.rounds + [round.(fixTaskId := taskId)];
  }
}
