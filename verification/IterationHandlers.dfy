/** The iteration store and the handlers that read and write it in place, each proved to do to the
    tables exactly what its function in IterationModel says (internal/store/iterate_session.go,
    internal/queue/enqueue_iterate.go, internal/queue/processor_iterate.go). */
module IterationHandlers {
  import opened Wrappers
  import opened IterationModel
  import opened IterationProtocol
  import opened IterationLaws

  // ---- Pure loops ----------------------------------------------------------------------------

  method CountFixedIssues(output: FixOutput) returns (count: nat)
    ensures count == CountFixed(output)
  {
    count := 0;
    for i := 0 to |output|
      invariant count == CountFixed(output[..i])
    {
      assert output[..i + 1][..i] == output[..i];
      if output[i] == Modified || output[i] == AlternativeChosen { count := count + 1; }
    }
    assert output[..|output|] == output;
  }

  /** The set of identities already added keeps a fallback round from being added twice. */
  method SumOnce(rounds: seq<Round>, fallback: Option<Round>) returns (total: int)
    requires forall k :: 0 <= k < |rounds| ==> rounds[k].IsCompleted()
    ensures total == SumFixed(rounds) +
      (if fallback.Some? && fallback.value.IsCompleted() &&
          !exists k :: 0 <= k < |rounds| && rounds[k].id == fallback.value.id
       then fallback.value.issuesFixed else 0)
  {
    total := 0;
    var seen: set<nat> := {};
    for i := 0 to |rounds|
      invariant total == SumFixed(rounds[..i])
      invariant forall id :: id in seen <==> exists k :: 0 <= k < i && rounds[k].id == id
    {
      assert rounds[..i + 1][..i] == rounds[..i];
      if rounds[i].IsCompleted() {
        seen := seen + {rounds[i].id};
        total := total + rounds[i].issuesFixed;
      }
    }
    assert rounds[..|rounds|] == rounds;
    if fallback.Some? && fallback.value.IsCompleted() && fallback.value.id !in seen {
      total := total + fallback.value.issuesFixed;
    }
  }

  lemma {:induction false} ListedAreCompleted(rs: seq<Round>)
    ensures forall k :: 0 <= k < |CompletedOf(rs)| ==> CompletedOf(rs)[k].IsCompleted()
  {
    if rs != [] { ListedAreCompleted(rs[..|rs| - 1]); }
  }

  // ---- The store -----------------------------------------------------------------------------

  class IterationStore {
    var sessions: seq<Session>
    var rounds: seq<Round>
    var tasks: map<string, FixTask>

    ghost function Contents(): Db
      reads this
    {
      Db(sessions, rounds, tasks)
    }

    constructor ()
      ensures Contents() == INIT.db
    {
      sessions, rounds, tasks := [], [], map[];
    }

    method FindActiveIterationSession(repo: string, pr: int) returns (s: Option<Session>)
      ensures s == FindActive(Contents(), repo, pr)
    {
      s := FindActiveIn(sessions, repo, pr);
    }

    method FindOrCreateIterationSession(repo: string, pr: int, maxRounds: int) returns (s: Session)
      modifies this
      ensures (Contents(), s) == FindOrCreate(old(Contents()), repo, pr, maxRounds)
    {
      var existing := FindActiveIterationSession(repo, pr);
      if existing.Some? { return existing.value; }
      s := Session(|sessions| + 1, repo, pr, Idle, 0, maxRounds, 0, 0);
      sessions := sessions + [s];
    }

    /** Only the four columns the statement sets are written; the index may refuse the row. */
    method UpdateIterationSession(s: Session) returns (ok: bool)
      modifies this
      ensures match UpdateSession(old(Contents()), s)
        case None => !ok && Contents() == old(Contents())
        case Some(db) => ok && Contents() == db
    {
      var db := Db(sessions, rounds, tasks);
      if s.IsActive() && 1 <= s.id <= |sessions| {
        var k := 0;
        while k < |sessions|
          invariant 0 <= k <= |sessions|
          invariant forall j :: 0 <= j < k && j != s.id - 1 ==>
            !(sessions[j].IsActive() && sessions[j].repo == sessions[s.id - 1].repo &&
              sessions[j].pr == sessions[s.id - 1].pr)
        {
          if k != s.id - 1 && sessions[k].IsActive() && sessions[k].repo == sessions[s.id - 1].repo &&
             sessions[k].pr == sessions[s.id - 1].pr
          {
            return false;
          }
          k := k + 1;
        }
      }
      if 1 <= s.id <= |sessions| {
        sessions := sessions[s.id - 1 := sessions[s.id - 1].(status := s.status, currentRound := s.currentRound,
                                                            totalFound := s.totalFound, totalFixed := s.totalFixed)];
      }
      return true;
    }

    method CreateIterationRound(sid: nat, number: int, found: int, isRecovery: bool) returns (created: Option<Round>)
      modifies this
      ensures match CreateRound(old(Contents()), sid, number, found, isRecovery)
        case None => created == None && Contents() == old(Contents())
        case Some(p) => created == Some(p.1) && Contents() == p.0
    {
      if WithNumber(Of(rounds, sid), number).Some? { return None; }
      var r := Round(|rounds| + 1, sid, number, "", found, 0, isRecovery, None);
      rounds := rounds + [r];
      return Some(r);
    }

    method UpdateIterationRound(r: Round)
      modifies this
      ensures Contents() == UpdateRound(old(Contents()), r)
    {
      if 1 <= r.id <= |rounds| {
        rounds := rounds[r.id - 1 := rounds[r.id - 1].(fixTaskId := r.fixTaskId, issuesFound := r.issuesFound,
                                                      issuesFixed := r.issuesFixed, completedAt := r.completedAt)];
      }
    }
  }

  // ---- The review side -----------------------------------------------------------------------

  method RecomputeTotal(store: IterationStore, sid: nat, fallback: Option<Round>) returns (total: int)
    ensures total == Recompute(store.Contents(), sid, fallback)
  {
    var completed := CompletedOf(Of(store.rounds, sid));
    ListedAreCompleted(Of(store.rounds, sid));
    total := SumOnce(completed, fallback);
  }

  /** tryCompleteSucceededFixReviewRound, once the task is known to have succeeded. */
  method CompleteSucceededRound(store: IterationStore, session: Session, latest: Round, o: Option<FixOutput>, now: int)
    returns (e: Ensured)
    modifies store
    ensures (store.Contents(), e) == HealSucceeded(old(store.Contents()), session, latest, o, now)
  {
    var issuesFixed := 0;
    if o.Some? { issuesFixed := CountFixedIssues(o.value); }
    var round := latest.(completedAt := Some(now), issuesFixed := issuesFixed);
    store.UpdateIterationRound(round);
    var s := session;
    var total := RecomputeTotal(store, s.id, Some(round));
    s := s.(totalFixed := total);
    if s.status == Fixing { s := s.(status := Reviewing); }
    var ok := store.UpdateIterationSession(s);
    e := if ok then Ready(s, Some(round)) else GivenUp;
  }

  method EnsureLatestFixReviewRoundCompleted(store: IterationStore, session: Session, now: int) returns (e: Ensured)
    modifies store
    ensures (store.Contents(), e) == EnsureLatest(old(store.Contents()), session, now)
  {
    hide HealSucceeded;
    var latest := Highest(Of(store.rounds, session.id));
    if latest == None || latest.value.fixTaskId == "" || latest.value.IsCompleted() {
      return Ready(session, latest);
    }
    var round := latest.value;
    if round.fixTaskId in store.tasks {
      var task := store.tasks[round.fixTaskId];
      if task.status == Succeeded {
        e := CompleteSucceededRound(store, session, round, task.result, now);
        return;
      }
      if task.status == Failed || task.status == Cancelled {
        round := round.(completedAt := Some(now), issuesFixed := 0);
        store.UpdateIterationRound(round);
        return Ready(session, Some(round));
      }
    }
    return MustWait(session, round.number);
  }

  method MarkExhausted(store: IterationStore, session: Session)
    modifies store
    ensures store.Contents() == Exhaust(old(store.Contents()), session)
  {
    var _ := store.UpdateIterationSession(session.(status := Exhausted));
  }

  method OpenNextRound(store: IterationStore, session: Session, latest: Option<Round>, found: int, isRecovery: bool,
                       taskId: string, progress: Progress) returns (ok: bool)
    modifies store
    ensures (store.Contents(), ok) ==
      OpenRound(old(store.Contents()), session, latest, found, isRecovery, taskId, progress)
  {
    hide UpdateSession, CreateRound, UpdateRound;
    var number := 1;
    if latest.Some? { number := latest.value.number + 1; }
    var s := session.(status := Fixing, currentRound := number, totalFound := session.totalFound + found);
    var written := store.UpdateIterationSession(s);
    if !written || progress == OnlySession { return false; }
    var created := store.CreateIterationRound(s.id, number, found, isRecovery);
    if created == None || progress == OnlyRound { return false; }
    var round := created.value;
    store.tasks := store.tasks[taskId := FixTask(Queued, None)];
    if progress == OnlyTask { return false; }
    round := round.(fixTaskId := taskId);
    store.UpdateIterationRound(round);
    return true;
  }

  /** The machine running several steps from a given state. */
  function Run(st: State, steps: seq<Step>): State
    decreases |steps|
  {
    if steps == [] then st else Run(Next(st, steps[0]), steps[1..])
  }

  lemma {:induction false} RunsAreRuns(before: seq<Step>, steps: seq<Step>)
    ensures Run(After(before), steps) == After(before + steps)
    decreases |steps|
  {
    if steps == [] {
      assert before + steps == before;
    } else {
      assert (before + [steps[0]])[..|before|] == before;
      assert (before + [steps[0]]) + steps[1..] == before + steps;
      RunsAreRuns(before + [steps[0]], steps[1..]);
    }
  }

  lemma {:induction false} RunConcat(st: State, a: seq<Step>, b: seq<Step>)
    ensures Run(st, a + b) == Run(Run(st, a), b)
    decreases |a|
  {
    hide Next;
    if a == [] {
      assert a + b == b;
    } else {
      assert (a + b)[1..] == a[1..] + b;
      RunConcat(Next(st, a[0]), a[1..], b);
    }
  }

  lemma {:induction false} FirstStep(st: State, a: Step, rest: seq<Step>)
    ensures Run(st, [a] + rest) == Run(Next(st, a), rest)
  {
    hide Next;
    assert ([a] + rest)[1..] == rest;
  }

  lemma {:induction false} TwoSteps(st: State, a: Step, b: Step)
    ensures Run(st, [a, b]) == Next(Next(st, a), b)
  {
    hide Next;
    assert [a] + [b] == [a, b] && [b] + [] == [b];
    FirstStep(st, a, [b]);
    FirstStep(Next(st, a), b, []);
  }

  /** Up to the point where the call has a round to go on with, or has to wait for one. */
  function Reading(repo: string, pr: int, maxRounds: int, found: int, now: int): seq<Step> {
    [StartReview(0, repo, pr, maxRounds, found), Ensure(0, now)]
  }

  /** From there to the end. */
  function Deciding(taskId: string): seq<Step> { [Judge(0), Count(0)] + [Compare(0), Open(0, taskId, All)] }

  function Alone(db: Db, call: Call): State { State(db, map[0 := call], multiset{}) }

  lemma {:induction false} DecidingUnrolled(st: State, taskId: string)
    ensures Run(st, Deciding(taskId)) ==
      Next(Next(Next(Next(st, Judge(0)), Count(0)), Compare(0)), Open(0, taskId, All))
  {
    hide Next, Run;
    RunConcat(st, [Judge(0), Count(0)], [Compare(0), Open(0, taskId, All)]);
    TwoSteps(st, Judge(0), Count(0));
    TwoSteps(Run(st, [Judge(0), Count(0)]), Compare(0), Open(0, taskId, All));
  }

  /** A call that is over or still waits does not decide anything. */
  lemma {:induction false} NothingToDecide(st: State, taskId: string)
    requires 0 !in st.calls || st.calls[0].Waiting?
    ensures Run(st, Deciding(taskId)) == st
  {
    hide Run;
    DecidingUnrolled(st, taskId);
  }

  /** The part of AfterReviewCompleted behind the wait: limits, then the write phase. */
  method DecideOnNextRound(store: IterationStore, session: Session, latest: Option<Round>, found: int, taskId: string)
    returns (triggered: bool)
    requires taskId != "" && taskId !in store.tasks
    modifies store
    ensures var end := Run(Alone(old(store.Contents()), Judging(session, found, latest)), Deciding(taskId));
      store.Contents() == end.db && (triggered <==> end.started != multiset{}) && end.calls == map[]
  {
    hide FindOrCreate, EnsureLatest, OpenRound, Exhaust, Run, IsRecovery, TwoZeroes, CountNonRecovery, GetRound,
      FindActive, PersistFix, PersistFailure, PersistZeroFix, Approve;
    DecidingUnrolled(Alone(store.Contents(), Judging(session, found, latest)), taskId);
    var isRecovery := IsRecovery(Db(store.sessions, store.rounds, store.tasks), latest);
    var nonRecovery := CountNonRecovery(Db(store.sessions, store.rounds, store.tasks), session.id);
    if !isRecovery && nonRecovery >= session.maxRounds {
      MarkExhausted(store, session);
      return false;
    }
    if !isRecovery && nonRecovery >= 2 && TwoZeroes(Of(store.rounds, session.id)) {
      MarkExhausted(store, session);
      return false;
    }
    triggered := OpenNextRound(store, session, latest, found, isRecovery, taskId, All);
  }

  /** AfterReviewCompleted up to its end, or up to the wait: then `waiting` says with which session and
      for which round, and ResumeAfterWait goes on.  It is the machine taking the steps of one call. */
  method AfterReviewCompleted(store: IterationStore, repo: string, pr: int, maxRounds: int, found: int, now: int,
                              taskId: string) returns (triggered: bool, waiting: Option<Call>)
    requires taskId != "" && taskId !in store.tasks
    modifies store
    ensures var start := State(old(store.Contents()), map[], multiset{});
      var end := Run(start, Reading(repo, pr, maxRounds, found, now) + Deciding(taskId));
      && store.Contents() == end.db && (triggered <==> end.started != multiset{})
      && end.calls == (if waiting.Some? then map[0 := waiting.value] else map[])
      && (waiting.Some? ==> waiting.value.Waiting? && waiting.value.purpose == ForReview(found))
  {
    hide FindOrCreate, EnsureLatest, Run, Deciding, FindActive;
    ghost var start := State(store.Contents(), map[], multiset{});
    RunConcat(start, Reading(repo, pr, maxRounds, found, now), Deciding(taskId));
    TwoSteps(start, StartReview(0, repo, pr, maxRounds, found), Ensure(0, now));
    ghost var read := Run(start, Reading(repo, pr, maxRounds, found, now));
    CreatingInsertsNoRound(store.Contents(), repo, pr, maxRounds);
    var session := store.FindOrCreateIterationSession(repo, pr, maxRounds);
    CallsInsertNoRound(store.Contents(), Found(ForReview(found), session), Ensure(0, now));
    var e := EnsureLatestFixReviewRoundCompleted(store, session, now);
    match e
    case GivenUp =>
      NothingToDecide(read, taskId);
      return false, None;
    case MustWait(s, number) =>
      NothingToDecide(read, taskId);
      return false, Some(Waiting(ForReview(found), s, number));
    case Ready(s, latest) =>
      assert read == Alone(store.Contents(), Judging(s, found, latest));
      triggered := DecideOnNextRound(store, s, latest, found, taskId);
      waiting := None;
  }

  /** Looking again after other handlers had their turn: with the round completed the call goes on with
      the row as it is now and with the session it read before; otherwise it gives up for good. */
  method ResumeAfterWait(store: IterationStore, call: Call, taskId: string) returns (triggered: bool)
    requires call.Waiting? && call.purpose.ForReview? && taskId != "" && taskId !in store.tasks
    modifies store
    ensures var end := Run(Alone(old(store.Contents()), call), [Poll(0)] + Deciding(taskId));
      store.Contents() == end.db && (triggered <==> end.started != multiset{})
  {
    hide Run, Deciding, FindOrCreate, EnsureLatest, FindActive;
    ghost var st := Alone(store.Contents(), call);
    FirstStep(st, Poll(0), Deciding(taskId));
    var round := WithNumber(Of(store.rounds, call.session.id), call.number);
    if round == None || !round.value.IsCompleted() {
      assert Next(st, Poll(0)) == st;
      NothingToDecide(st, taskId);
      return false;
    }
    assert Next(st, Poll(0)) == Alone(store.Contents(), Judging(call.session, call.purpose.found, round));
    triggered := DecideOnNextRound(store, call.session, round, call.purpose.found, taskId);
  }

  /** The write phase of AfterIterationApproved. */
  method CompleteIteration(store: IterationStore, session: Session, latest: Option<Round>)
    modifies store
    ensures store.Contents() == Approve(old(store.Contents()), session, latest)
  {
    var s := session;
    if latest.Some? {
      var total := RecomputeTotal(store, s.id, latest);
      s := s.(totalFixed := total);
    }
    s := s.(status := Completed);
    var _ := store.UpdateIterationSession(s);
  }

  // ---- The fix worker ------------------------------------------------------------------------

  /** Whether the index refuses a row depends on the sessions, the row's id and its being active. */
  lemma {:induction false} RefusedIff(db: Db, db': Db, s: Session, s': Session)
    requires db'.sessions == db.sessions && s'.id == s.id && (s'.IsActive() <==> s.IsActive())
    ensures UpdateSession(db', s') == None <==> BreaksIndex(db, s)
  {}

  lemma {:induction false} FoundIsActive(sessions: seq<Session>, repo: string, pr: int)
    ensures var s := FindActiveIn(sessions, repo, pr); s.Some? ==> s.value.IsActive()
  {
    if sessions != [] { FoundIsActive(sessions[..|sessions| - 1], repo, pr); }
  }

  lemma {:induction false} SessionsStay(db: Db, r: Round)
    ensures UpdateRound(db, r).sessions == db.sessions
  {}

  method PersistIterationFixResult(store: IterationStore, sid: nat, number: int, repo: string, pr: int, taskId: string,
                                   o: FixOutput, now: int) returns (ok: bool)
    modifies store
    ensures store.Contents() == PersistFix(old(store.Contents()), sid, number, repo, pr, taskId, o, now)
    ensures ok <==> Persists(old(store.Contents()), sid, number, repo, pr, taskId)
  {
    hide UpdateSession, UpdateRound, Recompute, CountFixed, BreaksIndex;
    ghost var before := store.Contents();
    if sid == 0 || number == 0 { return false; }
    var found := WithNumber(Of(store.rounds, sid), number);
    if found == None { return false; }
    var round := found.value;
    if round.fixTaskId != "" && round.fixTaskId != taskId { return false; }
    var issuesFixed := CountFixedIssues(o);
    if !round.IsCompleted() {
      round := round.(fixTaskId := taskId, issuesFixed := issuesFixed, completedAt := Some(now));
      SessionsStay(before, round);
      store.UpdateIterationRound(round);
    }
    var active := store.FindActiveIterationSession(repo, pr);
    if active == None || active.value.id != sid { return false; }
    var session := active.value;
    var total := RecomputeTotal(store, sid, Some(round));
    session := session.(totalFixed := total);
    if session.status == Fixing { session := session.(status := Reviewing); }
    FoundIsActive(store.sessions, repo, pr);
    RefusedIff(before, store.Contents(), active.value, session);
    ok := store.UpdateIterationSession(session);
  }

  method CompleteIterationRoundOnFailure(store: IterationStore, sid: nat, number: int, now: int)
    modifies store
    ensures store.Contents() == CompleteOnFailure(old(store.Contents()), sid, number, now)
  {
    if sid == 0 || number == 0 { return; }
    var found := WithNumber(Of(store.rounds, sid), number);
    if found == None || found.value.IsCompleted() { return; }
    store.UpdateIterationRound(found.value.(issuesFixed := 0, completedAt := Some(now)));
  }

  method PersistIterationFixFailure(store: IterationStore, sid: nat, number: int, repo: string, pr: int, now: int)
    modifies store
    ensures store.Contents() == PersistFailure(old(store.Contents()), sid, number, repo, pr, now)
  {
    hide CompleteOnFailure, UpdateSession;
    if sid == 0 { return; }
    CompleteIterationRoundOnFailure(store, sid, number, now);
    var active := store.FindActiveIterationSession(repo, pr);
    if active == None || active.value.id != sid { return; }
    var _ := store.UpdateIterationSession(active.value.(status := Idle));
  }

  method PersistIterationZeroFixResult(store: IterationStore, sid: nat, number: int, repo: string, pr: int,
                                       taskId: string, now: int)
    modifies store
    ensures store.Contents() == PersistZeroFix(old(store.Contents()), sid, number, repo, pr, taskId, now)
  {
    hide UpdateSession, UpdateRound;
    if sid == 0 || number == 0 { return; }
    var found := WithNumber(Of(store.rounds, sid), number);
    if found == None { return; }
    var round := found.value;
    if round.fixTaskId != "" && round.fixTaskId != taskId { return; }
    if !round.IsCompleted() {
      store.UpdateIterationRound(round.(fixTaskId := taskId, issuesFixed := 0, completedAt := Some(now)));
    }
    var active := store.FindActiveIterationSession(repo, pr);
    if active == None || active.value.id != sid { return; }
    var session := active.value;
    if session.status == Fixing { session := session.(status := Reviewing); }
    var _ := store.UpdateIterationSession(session);
  }

  /** A task that already succeeded is not run again; its stored result is persisted once more. */
  method RepairSucceededIterationState(store: IterationStore, sid: nat, number: int, repo: string, pr: int,
      taskId: string, result: Option<FixOutput>, now: int) returns (ok: bool)
    modifies store
    ensures result == None ==> !ok && store.Contents() == old(store.Contents())
    ensures result.Some? ==>
      store.Contents() == PersistFix(old(store.Contents()), sid, number, repo, pr, taskId, result.value, now) &&
      (ok <==> Persists(old(store.Contents()), sid, number, repo, pr, taskId))
  {
    if result == None { return false; }
    ok := PersistIterationFixResult(store, sid, number, repo, pr, taskId, result.value, now);
  }
}
