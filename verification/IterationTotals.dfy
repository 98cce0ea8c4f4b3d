/** The total of issues fixed: when it is right, and that both sides that write it agree. */
module IterationTotals {
  import opened Wrappers
  import opened IterationModel
  import opened IterationTables
  import opened IterationProtocol
  import opened IterationLaws

  // ---- Recomputing ---------------------------------------------------------------------------

  lemma {:induction false} CompletedAreListed(rs: seq<Round>, j: nat)
    requires j < |rs| && rs[j].IsCompleted()
    ensures exists k :: 0 <= k < |CompletedOf(rs)| && CompletedOf(rs)[k] == rs[j]
  {
    var front := rs[..|rs| - 1];
    if j < |front| {
      CompletedAreListed(front, j);
      var k :| 0 <= k < |CompletedOf(front)| && CompletedOf(front)[k] == front[j];
      assert CompletedOf(rs)[k] == rs[j];
    } else {
      assert CompletedOf(rs)[|CompletedOf(rs)| - 1] == rs[j];
    }
  }

  /** The fallback never adds anything: a completed copy is already among the completed rows. */
  lemma {:induction false} RecomputeIsTotal(db: Db, sid: nat, latest: Option<Round>)
    requires LatestOk(db, sid, latest)
    ensures Recompute(db, sid, latest) == TotalOf(db, sid)
  {
    if latest.Some? && latest.value.IsCompleted() {
      CompletedAreListed(Of(db.rounds, sid), latest.value.number - 1);
    }
  }

  /** When an approval marks a session completed, its total is the sum over its completed rounds,
      however often fixes were retried, healed or persisted twice, and whatever stale totals were
      written before; only an approval that had read that there was no round at all takes over the
      total it read before, and is then right exactly when no round fixed anything since. */
  lemma {:induction false} ApprovalTotals(steps: seq<Step>, c: nat)
    requires c in After(steps).calls && After(steps).calls[c].Approving?
    ensures var call := After(steps).calls[c];
      var db := After(steps + [Finish(c)]).db;
      var sid := call.session.id;
      && 1 <= sid <= |db.sessions|
      && db.sessions[sid - 1].status == Completed
      && (db.sessions[sid - 1].totalFixed == TotalOf(db, sid) <==> call.latest.Some? || TotalOf(db, sid) == 0)
  {
    hide After, Approve, ValidDb, CopyOk, LatestOk, TotalOf;
    var st := After(steps);
    var call := st.calls[c];
    AfterOne(steps, Finish(c));
    InvHolds(steps);
    ApproveWrites(st.db, call.session, call.latest);
  }

  lemma {:induction false} ApproveWrites(db: Db, s: Session, latest: Option<Round>)
    requires ValidDb(db) && CopyOk(db, s) && LatestOk(db, s.id, latest)
    ensures var db' := Approve(db, s, latest);
      && 1 <= s.id <= |db'.sessions| == |db.sessions|
      && db'.sessions[s.id - 1].status == Completed
      && db'.sessions[s.id - 1].totalFixed == (if latest.Some? then TotalOf(db, s.id) else s.totalFixed)
      && TotalOf(db', s.id) == TotalOf(db, s.id)
  {
    hide Recompute, ValidDb, LatestOk;
    RecomputeIsTotal(db, s.id, latest);
  }

  // ---- A run in which the total is missed ----------------------------------------------------

  const S0 := Session(1, "r", 1, Idle, 0, 3, 0, 0)
  const S2 := S0.(status := Fixing, currentRound := 1, totalFound := 1)
  const R0 := Round(1, 1, 1, "", 1, 0, false, None)
  const R1 := R0.(fixTaskId := "t")
  const R2 := R1.(issuesFixed := 1, completedAt := Some(5))
  const T0 := map["t" := FixTask(Queued, None)]
  const DB1 := Db([S0], [], map[])
  const DB2 := Db([S2], [R1], T0)
  const DB3 := Db([S2.(status := Reviewing, totalFixed := 1)], [R2], T0)

  function Both(review: Call): State { State(DB1, map[0 := review, 1 := Approving(S0, None)], multiset{}) }

  lemma {:induction false} OfOne(r: Round, sid: nat)
    ensures Of([r], sid) == if r.sessionId == sid then [r] else []
  {
    assert [r][..0] == [];
    assert Of([], sid) == [];
  }

  lemma {:induction false} OneSession(s: Session, repo: string, pr: int)
    ensures FindActiveIn([s], repo, pr) == if s.repo == repo && s.pr == pr && s.IsActive() then Some(s) else None
  {
    assert [s][..0] == [];
    assert FindActiveIn([], repo, pr) == None;
  }

  lemma {:induction false} BothStart()
    ensures After([StartReview(0, "r", 1, 3, 1), StartApproval(1, "r", 1), Ensure(1, 0)])
      == Both(Found(ForReview(1), S0))
  {
    var a, b, c := StartReview(0, "r", 1, 3, 1), StartApproval(1, "r", 1), Ensure(1, 0);
    AfterOne([], a);
    assert [] + [a] == [a];
    assert After([a]) == State(DB1, map[0 := Found(ForReview(1), S0)], multiset{});
    AfterOne([a], b);
    assert [a] + [b] == [a, b];
    OneSession(S0, "r", 1);
    AfterOne([a, b], c);
    assert [a, b] + [c] == [a, b, c];
  }

  lemma {:induction false} NoLatest(db: Db)
    ensures !IsRecovery(db, None)
  {}

  lemma {:induction false} ReviewReads(steps: seq<Step>)
    requires After(steps) == Both(Found(ForReview(1), S0))
    ensures After((((steps + [Ensure(0, 0)]) + [Judge(0)]) + [Count(0)]) + [Compare(0)])
      == Both(Opening(S0, 1, None, false))
  {
    hide After, Next, Both;
    ReviewSteps();
    var s1 := steps + [Ensure(0, 0)];
    AfterOne(steps, Ensure(0, 0));
    var s2 := s1 + [Judge(0)];
    AfterOne(s1, Judge(0));
    var s3 := s2 + [Count(0)];
    AfterOne(s2, Count(0));
    AfterOne(s3, Compare(0));
  }

  lemma {:induction false} ReviewSteps()
    ensures Next(Both(Found(ForReview(1), S0)), Ensure(0, 0)) == Both(Judging(S0, 1, None))
    ensures Next(Both(Judging(S0, 1, None)), Judge(0)) == Both(Counting(S0, 1, None, false))
    ensures Next(Both(Counting(S0, 1, None, false)), Count(0)) == Both(Comparing(S0, 1, None, false, 0))
    ensures Next(Both(Comparing(S0, 1, None, false, 0)), Compare(0)) == Both(Opening(S0, 1, None, false))
  {
    hide Advance, Both, EnsureLatest, CountNonRecovery, IsRecovery;
    NothingYet();
    OneStep(Found(ForReview(1), S0), Ensure(0, 0), Judging(S0, 1, None));
    OneStep(Judging(S0, 1, None), Judge(0), Counting(S0, 1, None, false));
    OneStep(Counting(S0, 1, None, false), Count(0), Comparing(S0, 1, None, false, 0));
    OneStep(Comparing(S0, 1, None, false, 0), Compare(0), Opening(S0, 1, None, false));
  }

  /** What the review's next step is to make of its call, as long as the tables stay as they are. */
  predicate Leads(call: Call, step: Step, next: Call) {
    match step
    case Ensure(_, now) =>
      call.Found? && call.purpose.ForReview? &&
        EnsureLatest(DB1, call.session, now) == (DB1, Ready(call.session, None)) &&
      next == Judging(call.session, call.purpose.found, None)
    case Judge(_) => call.Judging? &&
      next == Counting(call.session, call.found, call.latest, IsRecovery(DB1, call.latest))
    case Count(_) =>
      call.Counting? && CountNonRecovery(DB1, call.session.id) == 0 && call.session.maxRounds > 0 &&
      next == Comparing(call.session, call.found, call.latest, call.isRecovery, 0)
    case Compare(_) => call.Comparing? && call.count == 0 &&
      next == Opening(call.session, call.found, call.latest, call.isRecovery)
    case _ => false
  }

  lemma {:induction false} OneStep(call: Call, step: Step, next: Call)
    requires CallOf(step) == Some(0) && Leads(call, step, next)
    ensures Next(Both(call), step) == Both(next)
  {
    hide EnsureLatest, OpenRound, Approve, Exhaust, TwoZeroes, IsRecovery, FindOrCreate, FindActive, PersistFix,
      PersistFailure, PersistZeroFix, CountNonRecovery, GetRound;
  }

  lemma {:induction false} NothingYet()
    ensures EnsureLatest(DB1, S0, 0) == (DB1, Ready(S0, None))
    ensures !IsRecovery(DB1, None) && CountNonRecovery(DB1, 1) == 0
  {
    hide HealSucceeded, UpdateRound;
    assert Of([], 1) == [] && LatestRound(DB1, 1) == None;
    NoLatest(DB1);
  }

  lemma {:induction false} ReviewOpens()
    ensures OpenRound(DB1, S0, None, 1, false, "t", All) == (DB2, true)
  {
    assert [S0][0 := S2] == [S2] && [] + [R0] == [R0] && Of([], 1) == [];
    assert UpdateSession(DB1, S2) == Some(DB1.(sessions := [S2]));
    var db := DB1.(sessions := [S2]);
    assert CreateRound(db, 1, 1, 1, false) == Some((db.(rounds := [R0]), R0));
    assert UpdateRound(Db([S2], [R0], T0), R1) == DB2;
  }

  lemma {:induction false} WorkerPersists()
    ensures PersistFix(DB2, 1, 1, "r", 1, "t", [Modified], 5) == DB3
  {
    hide Recompute, FindActiveIn, CountFixed;
    OfOne(R1, 1);
    OfOne(R2, 1);
    assert [R1][..0] == [] && WithNumber([R1], 1) == Some(R1);
    OneModified();
    assert CountFixed([Modified]) == 1;
    var db := Db([S2], [R2], T0);
    assert GetRound(DB2, 1, 1) == Some(R1);
    assert UpdateRound(DB2, R2) == db;
    OneSession(S2, "r", 1);
    RecomputeOne(db);
  }

  lemma {:induction false} OneModified()
    ensures CountFixed([Modified]) == 1
  {
    assert [Modified][..0] == [] && CountFixed([]) == 0;
  }

  lemma {:induction false} RecomputeOne(db: Db)
    requires db.rounds == [R2]
    ensures Recompute(db, 1, Some(R2)) == 1
  {
    OfOne(R2, 1);
    TotalIsOne();
    assert CompletedOf([R2])[0].id == R2.id;
  }

  lemma {:induction false} TotalIsOne()
    ensures CompletedOf([R2]) == [R2] && SumFixed([R2]) == 1
  {
    assert [R2][..0] == [];
    assert CompletedOf([]) == [] && SumFixed([]) == 0;
  }

  /** An approval reads that there is no round; before it writes, a review opens one and its fix is
      persisted.  The session ends as completed with total 0, though one issue was fixed. */
  lemma {:induction false} ApprovalCanMiss() returns (steps: seq<Step>)
    ensures var db := After(steps + [Finish(1)]).db;
      |db.sessions| == 1 && db.sessions[0].status == Completed && db.sessions[0].totalFixed == 0 && TotalOf(db, 1) == 1
  {
    hide After, OpenRound, PersistFix, Approve, TotalOf, EnsureLatest, Exhaust, FindOrCreate, FindActive,
      PersistFailure, PersistZeroFix, GetRound, CountNonRecovery, TwoZeroes, IsRecovery;
    var s1 := [StartReview(0, "r", 1, 3, 1), StartApproval(1, "r", 1), Ensure(1, 0)];
    BothStart();
    ReviewReads(s1);
    var s2 := (((s1 + [Ensure(0, 0)]) + [Judge(0)]) + [Count(0)]) + [Compare(0)];
    var open, fix := Open(0, "t", All), FixPersisted(1, 1, "r", 1, "t", [Modified], 5);
    AfterOne(s2, open);
    ReviewOpens();
    var s3 := s2 + [open];
    AfterOne(s3, fix);
    WorkerPersists();
    steps := s3 + [fix];
    AfterOne(steps, Finish(1));
    ApprovalEnds();
  }

  lemma {:induction false} ApprovalEnds()
    ensures var st := State(DB3, map[1 := Approving(S0, None)], multiset{1});
      var db := Next(st, Finish(1)).db;
      |db.sessions| == 1 && db.sessions[0].status == Completed && db.sessions[0].totalFixed == 0 && TotalOf(db, 1) == 1
  {
    hide Recompute, OpenRound, EnsureLatest, Exhaust, PersistFix, PersistFailure, PersistZeroFix, FindOrCreate,
      FindActive;
    OfOne(R2, 1);
    TotalIsOne();
  }
}
