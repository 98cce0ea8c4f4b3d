/** The tables of the review/fix iteration protocol and the handlers as functions on them
    (internal/store/iterate_session.go, internal/queue/enqueue_iterate.go, processor_iterate.go).

    Every function here is one step that nothing interrupts.  Free text columns are left out. */
module IterationModel {
  import opened Wrappers

  // ---- Rows ----------------------------------------------------------------------------------

  datatype SessionStatus = Idle | Reviewing | Fixing | Completed | Exhausted

  datatype Session = Session(id: nat, repo: string, pr: int, status: SessionStatus, currentRound: int,
                             maxRounds: int, totalFound: int, totalFixed: int)
  {
    predicate IsActive() { status != Completed && status != Exhausted }
  }

  datatype Round = Round(id: nat, sessionId: nat, number: int, fixTaskId: string, issuesFound: int,
                         issuesFixed: int, isRecovery: bool, completedAt: Option<int>)
  {
    predicate IsCompleted() { completedAt.Some? }
  }

  datatype Action = Modified | AlternativeChosen | Skipped

  /** What the structured output of a fix says about each issue. */
  type FixOutput = seq<Action>

  datatype TaskStatus = Pending | Queued | Running | Succeeded | Failed | Retrying | Cancelled

  /** `result` is what decoding the stored output gives; None when it cannot be decoded. */
  datatype FixTask = FixTask(status: TaskStatus, result: Option<FixOutput>)

  /** Rows are never deleted, so row number k has id k + 1. */
  datatype Db = Db(sessions: seq<Session>, rounds: seq<Round>, tasks: map<string, FixTask>)

  function CountFixed(o: FixOutput): nat {
    if o == [] then 0
    else CountFixed(o[..|o| - 1]) + if o[|o| - 1] != Skipped then 1 else 0
  }

  // ---- Queries -------------------------------------------------------------------------------

  /** The rounds of a session in the order in which they were inserted. */
  function Of(rounds: seq<Round>, sid: nat): (r: seq<Round>)
    ensures |r| <= |rounds|
  {
    if rounds == [] then []
    else
      Of(rounds[..|rounds| - 1], sid) +
      (if rounds[|rounds| - 1].sessionId == sid then [rounds[|rounds| - 1]] else [])
  }

  /** ORDER BY round_number DESC LIMIT 1 over the rounds of one session. */
  function Highest(rs: seq<Round>): Option<Round> {
    if rs == [] then None
    else match Highest(rs[..|rs| - 1])
      case None => Some(rs[|rs| - 1])
      case Some(r) => if r.number < rs[|rs| - 1].number then Some(rs[|rs| - 1]) else Some(r)
  }

  function LatestRound(db: Db, sid: nat): Option<Round> { Highest(Of(db.rounds, sid)) }

  function WithNumber(rs: seq<Round>, number: int): Option<Round> {
    if rs == [] then None
    else if rs[|rs| - 1].number == number then Some(rs[|rs| - 1])
    else WithNumber(rs[..|rs| - 1], number)
  }

  function GetRound(db: Db, sid: nat, number: int): Option<Round> { WithNumber(Of(db.rounds, sid), number) }

  function NonRecovery(rs: seq<Round>): (r: seq<Round>)
    ensures |r| <= |rs|
  {
    if rs == [] then []
    else NonRecovery(rs[..|rs| - 1]) + if rs[|rs| - 1].isRecovery then [] else [rs[|rs| - 1]]
  }

  function CountNonRecovery(db: Db, sid: nat): nat { |NonRecovery(Of(db.rounds, sid))| }

  /** The two most recent non-recovery rounds both fixed nothing. */
  predicate TwoZeroes(rs: seq<Round>) {
    var n := NonRecovery(rs);
    |n| >= 2 && n[|n| - 1].issuesFixed == 0 && n[|n| - 2].issuesFixed == 0
  }

  function CompletedOf(rs: seq<Round>): seq<Round> {
    if rs == [] then []
    else CompletedOf(rs[..|rs| - 1]) + if rs[|rs| - 1].IsCompleted() then [rs[|rs| - 1]] else []
  }

  function SumFixed(rs: seq<Round>): int {
    if rs == [] then 0 else SumFixed(rs[..|rs| - 1]) + rs[|rs| - 1].issuesFixed
  }

  /** What a session's total should be. */
  function TotalOf(db: Db, sid: nat): int { SumFixed(CompletedOf(Of(db.rounds, sid))) }

  function FindActiveIn(sessions: seq<Session>, repo: string, pr: int): Option<Session> {
    if sessions == [] then None
    else
      var s := sessions[|sessions| - 1];
      if s.repo == repo && s.pr == pr && s.IsActive() then Some(s)
      else FindActiveIn(sessions[..|sessions| - 1], repo, pr)
  }

  function FindActive(db: Db, repo: string, pr: int): Option<Session> { FindActiveIn(db.sessions, repo, pr) }

  function TaskOf(db: Db, id: string): Option<FixTask> { if id in db.tasks then Some(db.tasks[id]) else None }

  // ---- Writes --------------------------------------------------------------------------------

  function FindOrCreate(db: Db, repo: string, pr: int, maxRounds: int): (Db, Session) {
    match FindActive(db, repo, pr)
    case Some(s) => (db, s)
    case None =>
      var s := Session(|db.sessions| + 1, repo, pr, Idle, 0, maxRounds, 0, 0);
      (db.(sessions := db.sessions + [s]), s)
  }

  /** The partial unique index: writing `s` would make a second active session for its PR. */
  predicate BreaksIndex(db: Db, s: Session) {
    && 1 <= s.id <= |db.sessions| && s.IsActive()
    && exists k :: 0 <= k < |db.sessions| && k != s.id - 1 && db.sessions[k].IsActive() &&
         db.sessions[k].repo == db.sessions[s.id - 1].repo && db.sessions[k].pr == db.sessions[s.id - 1].pr
  }

  /** None when the unique index refuses the row.  Only four columns are written. */
  function UpdateSession(db: Db, s: Session): Option<Db> {
    if BreaksIndex(db, s) then None
    else if !(1 <= s.id <= |db.sessions|) then Some(db)
    else
      var row := db.sessions[s.id - 1].(status := s.status, currentRound := s.currentRound,
                                        totalFound := s.totalFound, totalFixed := s.totalFixed);
      Some(db.(sessions := db.sessions[s.id - 1 := row]))
  }

  /** None when the session already has a round with this number. */
  function CreateRound(db: Db, sid: nat, number: int, found: int, isRecovery: bool): Option<(Db, Round)> {
    if GetRound(db, sid, number).Some? then None
    else
      var r := Round(|db.rounds| + 1, sid, number, "", found, 0, isRecovery, None);
      Some((db.(rounds := db.rounds + [r]), r))
  }

  /** The session, the number and the recovery flag are never written. */
  function UpdateRound(db: Db, r: Round): Db {
    if !(1 <= r.id <= |db.rounds|) then db
    else
      var row := db.rounds[r.id - 1].(fixTaskId := r.fixTaskId, issuesFound := r.issuesFound,
                                      issuesFixed := r.issuesFixed, completedAt := r.completedAt);
      db.(rounds := db.rounds[r.id - 1 := row])
  }

  // ---- The review side -----------------------------------------------------------------------

  /** recomputeIterationTotalIssuesFixed: completed rounds, and the fallback if it is not among them. */
  function Recompute(db: Db, sid: nat, fallback: Option<Round>): int {
    var rs := CompletedOf(Of(db.rounds, sid));
    SumFixed(rs) +
      match fallback
      case None => 0
      case Some(r) => if r.IsCompleted() && !exists k :: 0 <= k < |rs| && rs[k].id == r.id then r.issuesFixed else 0
  }

  /** What ensureLatestFixReviewRoundCompleted can come to before it starts waiting. */
  datatype Ensured = Ready(session: Session, latest: Option<Round>) | MustWait(session: Session, number: int) | GivenUp

  function Settle(s: Session, total: int): Session {
    s.(totalFixed := total, status := if s.status == Fixing then Reviewing else s.status)
  }

  function HealSucceeded(db: Db, s: Session, r: Round, o: Option<FixOutput>, now: int): (Db, Ensured) {
    var done := r.(completedAt := Some(now), issuesFixed := if o.Some? then CountFixed(o.value) else 0);
    var db1 := UpdateRound(db, done);
    var s1 := Settle(s, Recompute(db1, s.id, Some(done)));
    match UpdateSession(db1, s1)
    case None => (db1, GivenUp)
    case Some(db2) => (db2, Ready(s1, Some(done)))
  }

  function EnsureLatest(db: Db, s: Session, now: int): (Db, Ensured) {
    match LatestRound(db, s.id)
    case None => (db, Ready(s, None))
    case Some(r) =>
      if r.fixTaskId == "" || r.IsCompleted() then (db, Ready(s, Some(r)))
      else match TaskOf(db, r.fixTaskId)
        case None => (db, MustWait(s, r.number))
        case Some(task) =>
          if task.status == Succeeded then HealSucceeded(db, s, r, task.result, now)
          else if task.status == Failed || task.status == Cancelled then
            var done := r.(completedAt := Some(now), issuesFixed := 0);
            (UpdateRound(db, done), Ready(s, Some(done)))
          else (db, MustWait(s, r.number))
  }

  /** Whether the latest round's fix failed, so that the next round is a recovery. */
  predicate IsRecovery(db: Db, latest: Option<Round>) {
    latest.Some? && latest.value.fixTaskId != "" &&
    var task := TaskOf(db, latest.value.fixTaskId);
    task.Some? && task.value.status == Failed
  }

  function Exhaust(db: Db, s: Session): Db {
    match UpdateSession(db, s.(status := Exhausted))
    case None => db
    case Some(db') => db'
  }

  /** How far opening a round gets; a crash or an error can end it after each write. */
  datatype Progress = OnlySession | OnlyRound | OnlyTask | All

  /** The round, its task in the queue and the link between them. */
  function InsertRound(db: Db, sid: nat, number: int, found: int, isRecovery: bool, taskId: string,
                       progress: Progress): (Db, bool)
  {
    match CreateRound(db, sid, number, found, isRecovery)
    case None => (db, false)
    case Some((db2, round)) =>
      if progress == OnlyRound then (db2, false)
      else
        var db3 := db2.(tasks := db2.tasks[taskId := FixTask(Queued, None)]);
        if progress == OnlyTask then (db3, false)
        else (UpdateRound(db3, round.(fixTaskId := taskId)), true)
  }

  /** The write phase of AfterReviewCompleted; the second result is what the call returns. */
  function OpenRound(db: Db, s: Session, latest: Option<Round>, found: int, isRecovery: bool, taskId: string,
                     progress: Progress): (Db, bool)
  {
    var number := if latest.Some? then latest.value.number + 1 else 1;
    match UpdateSession(db, s.(status := Fixing, currentRound := number, totalFound := s.totalFound + found))
    case None => (db, false)
    case Some(db1) =>
      if progress == OnlySession then (db1, false)
      else InsertRound(db1, s.id, number, found, isRecovery, taskId, progress)
  }

  /** The write phase of AfterIterationApproved. */
  function Approve(db: Db, s: Session, latest: Option<Round>): Db {
    var total := if latest.Some? then Recompute(db, s.id, latest) else s.totalFixed;
    match UpdateSession(db, s.(totalFixed := total, status := Completed))
    case None => db
    case Some(db') => db'
  }

  // ---- The fix worker ------------------------------------------------------------------------

  /** A round that belongs to another fix task is left alone. */
  predicate Mismatch(r: Round, taskId: string) { r.fixTaskId != "" && r.fixTaskId != taskId }

  function PersistFix(db: Db, sid: nat, number: int, repo: string, pr: int, taskId: string, o: FixOutput,
      now: int): Db {
    if sid == 0 || number == 0 then db
    else match GetRound(db, sid, number)
      case None => db
      case Some(r) =>
        if Mismatch(r, taskId) then db
        else
          var done := if r.IsCompleted() then r
                      else r.(fixTaskId := taskId, issuesFixed := CountFixed(o), completedAt := Some(now));
          var db1 := if r.IsCompleted() then db else UpdateRound(db, done);
          match FindActive(db1, repo, pr)
          case None => db1
          case Some(s) =>
            if s.id != sid then db1
            else match UpdateSession(db1, Settle(s, Recompute(db1, sid, Some(done))))
              case None => db1
              case Some(db2) => db2
  }

  /** When persisting a fix reports no error: the round exists and is the task's own, and the session is
      the active one of its pull request. */
  predicate Persists(db: Db, sid: nat, number: int, repo: string, pr: int, taskId: string) {
    && sid != 0 && number != 0
    && GetRound(db, sid, number).Some? && !Mismatch(GetRound(db, sid, number).value, taskId)
    && FindActive(db, repo, pr).Some? && FindActive(db, repo, pr).value.id == sid
    && !BreaksIndex(db, FindActive(db, repo, pr).value)
  }

  function CompleteOnFailure(db: Db, sid: nat, number: int, now: int): Db {
    if sid == 0 || number == 0 then db
    else match GetRound(db, sid, number)
      case None => db
      case Some(r) =>
        if r.IsCompleted() then db else UpdateRound(db, r.(issuesFixed := 0, completedAt := Some(now)))
  }

  function PersistFailure(db: Db, sid: nat, number: int, repo: string, pr: int, now: int): Db {
    if sid == 0 then db
    else
      var db1 := CompleteOnFailure(db, sid, number, now);
      match FindActive(db1, repo, pr)
      case None => db1
      case Some(s) =>
        if s.id != sid then db1
        else match UpdateSession(db1, s.(status := Idle))
          case None => db1
          case Some(db2) => db2
  }

  function PersistZeroFix(db: Db, sid: nat, number: int, repo: string, pr: int, taskId: string, now: int): Db {
    if sid == 0 || number == 0 then db
    else match GetRound(db, sid, number)
      case None => db
      case Some(r) =>
        if Mismatch(r, taskId) then db
        else
          var db1 := if r.IsCompleted() then db
                     else UpdateRound(db, r.(fixTaskId := taskId, issuesFixed := 0, completedAt := Some(now)));
          match FindActive(db1, repo, pr)
          case None => db1
          case Some(s) =>
            if s.id != sid then db1
            else match UpdateSession(db1, Settle(s, s.totalFixed))
              case None => db1
              case Some(db2) => db2
  }
}
