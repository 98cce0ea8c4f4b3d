/** What every write of the iteration handlers keeps true of the tables, and how rows may change. */
module IterationTables {
  import opened Wrappers
  import opened IterationModel

  // ---- Invariants of the tables --------------------------------------------------------------

  ghost predicate Numbered(rs: seq<Round>) { forall k :: 0 <= k < |rs| ==> rs[k].number == k + 1 }

  /** Only the latest round can have a fix task and still be open. */
  ghost predicate OnlyLatestOpen(rs: seq<Round>) {
    forall k :: 0 <= k < |rs| - 1 ==> rs[k].fixTaskId != "" ==> rs[k].IsCompleted()
  }

  ghost predicate OpenHasZero(rs: seq<Round>) {
    forall k :: 0 <= k < |rs| ==> !rs[k].IsCompleted() ==> rs[k].issuesFixed == 0
  }

  /** At most `maxRounds` rounds that are no recoveries; none at all for a negative limit. */
  ghost predicate WithinCap(rs: seq<Round>, maxRounds: int) { |NonRecovery(rs)| <= maxRounds || NonRecovery(rs) == [] }

  ghost predicate SessionOk(row: Session, rs: seq<Round>) {
    && Numbered(rs) && OnlyLatestOpen(rs) && OpenHasZero(rs)
    && WithinCap(rs, row.maxRounds)
    && (rs == [] ==> row.totalFixed == 0)
  }

  ghost predicate IdsOk(db: Db) {
    && (forall i :: 0 <= i < |db.sessions| ==> db.sessions[i].id == i + 1)
    && (forall i :: 0 <= i < |db.rounds| ==> db.rounds[i].id == i + 1 && 1 <= db.rounds[i].sessionId <= |db.sessions|)
  }

  ghost predicate OneActive(sessions: seq<Session>) {
    forall i, j :: 0 <= i < j < |sessions| && sessions[i].IsActive() && sessions[j].IsActive() ==>
      sessions[i].repo != sessions[j].repo || sessions[i].pr != sessions[j].pr
  }

  ghost predicate ValidSession(db: Db, sid: nat)
    requires 1 <= sid <= |db.sessions|
  {
    SessionOk(db.sessions[sid - 1], Of(db.rounds, sid))
  }

  ghost predicate ValidDb(db: Db) {
    && IdsOk(db)
    && OneActive(db.sessions)
    && forall sid :: 1 <= sid <= |db.sessions| ==> ValidSession(db, sid)
  }

  // ---- How rows may change -------------------------------------------------------------------

  /** A round keeps its identity; it changes at most once, when it is completed. */
  ghost predicate Evolves(a: Round, b: Round) {
    && b.id == a.id && b.sessionId == a.sessionId && b.number == a.number && b.isRecovery == a.isRecovery
    && (a == b || (!a.IsCompleted() && b.IsCompleted() && (a.fixTaskId != "" ==> b.fixTaskId == a.fixTaskId)))
  }

  ghost predicate Grows(a: seq<Round>, b: seq<Round>) {
    |a| <= |b| && forall k :: 0 <= k < |a| ==> Evolves(a[k], b[k])
  }

  ghost predicate SameSession(a: Session, b: Session) {
    b.id == a.id && b.repo == a.repo && b.pr == a.pr && b.maxRounds == a.maxRounds
  }

  ghost predicate Progresses(db: Db, db': Db) {
    && |db.sessions| <= |db'.sessions|
    && (forall i :: 0 <= i < |db.sessions| ==> SameSession(db.sessions[i], db'.sessions[i]))
    && Grows(db.rounds, db'.rounds)
    && (forall sid :: Grows(Of(db.rounds, sid), Of(db'.rounds, sid)))
  }

  lemma {:induction false} ProgressesChain(a: Db, b: Db, c: Db)
    requires Progresses(a, b) && Progresses(b, c)
    ensures Progresses(a, c)
  {
    forall sid ensures Grows(Of(a.rounds, sid), Of(c.rounds, sid)) {
      assert Grows(Of(a.rounds, sid), Of(b.rounds, sid)) && Grows(Of(b.rounds, sid), Of(c.rounds, sid));
    }
  }

  // ---- Lists of rounds -----------------------------------------------------------------------

  lemma {:induction false} OfAppend(rounds: seq<Round>, r: Round, sid: nat)
    ensures Of(rounds + [r], sid) == if r.sessionId == sid then Of(rounds, sid) + [r] else Of(rounds, sid)
  {
    assert (rounds + [r])[..|rounds|] == rounds;
  }

  lemma {:induction false} OfBelongs(rounds: seq<Round>, sid: nat, k: nat)
    requires k < |Of(rounds, sid)|
    ensures Of(rounds, sid)[k].sessionId == sid && Of(rounds, sid)[k] in rounds
  {
    if k < |Of(rounds[..|rounds| - 1], sid)| { OfBelongs(rounds[..|rounds| - 1], sid, k); }
  }

  /** Position of row `i` in the list of its session. */
  function Position(rounds: seq<Round>, i: nat): nat
    requires i < |rounds|
  {
    |Of(rounds[..i], rounds[i].sessionId)|
  }

  lemma {:induction false} OfUpdate(rounds: seq<Round>, i: nat, r: Round, sid: nat)
    requires i < |rounds| && r.sessionId == rounds[i].sessionId
    ensures sid != r.sessionId ==> Of(rounds[i := r], sid) == Of(rounds, sid)
    ensures sid == r.sessionId ==>
      var p := Position(rounds, i);
      p < |Of(rounds, sid)| && Of(rounds, sid)[p] == rounds[i] && Of(rounds[i := r], sid) == Of(rounds, sid)[p := r]
    decreases |rounds|
  {
    var n := |rounds| - 1;
    if i == n {
      assert rounds[i := r][..n] == rounds[..n];
    } else {
      assert rounds[i := r][..n] == rounds[..n][i := r];
      assert rounds[..n][..i] == rounds[..i];
      OfUpdate(rounds[..n], i, r, sid);
    }
  }

  lemma {:induction false} HighestOfNumbered(rs: seq<Round>)
    requires Numbered(rs)
    ensures Highest(rs) == if rs == [] then None else Some(rs[|rs| - 1])
  {
    if rs != [] { HighestOfNumbered(rs[..|rs| - 1]); }
  }

  lemma {:induction false} WithNumberOfNumbered(rs: seq<Round>, number: int)
    requires Numbered(rs)
    ensures WithNumber(rs, number) == if 1 <= number <= |rs| then Some(rs[number - 1]) else None
  {
    if rs != [] { WithNumberOfNumbered(rs[..|rs| - 1], number); }
  }

  lemma {:induction false} NonRecoveryGrows(a: seq<Round>, b: seq<Round>)
    requires Grows(a, b) && |a| == |b|
    ensures |NonRecovery(a)| == |NonRecovery(b)|
    ensures Grows(NonRecovery(a), NonRecovery(b))
  {
    if a != [] {
      assert Evolves(a[|a| - 1], b[|b| - 1]);
      NonRecoveryGrows(a[..|a| - 1], b[..|b| - 1]);
    }
  }

  lemma {:induction false} NonRecoveryIsZero(rs: seq<Round>)
    requires OpenHasZero(rs)
    ensures OpenHasZero(NonRecovery(rs))
  {
    if rs != [] { NonRecoveryIsZero(rs[..|rs| - 1]); }
  }

  /** Rounds that fixed nothing now fixed nothing before either. */
  lemma {:induction false} TwoZeroesBefore(a: seq<Round>, b: seq<Round>)
    requires Grows(a, b) && |a| == |b| && OpenHasZero(a) && TwoZeroes(b)
    ensures TwoZeroes(a)
  {
    NonRecoveryGrows(a, b);
    NonRecoveryIsZero(a);
    var n, m := NonRecovery(a), NonRecovery(b);
    assert Evolves(n[|n| - 1], m[|m| - 1]) && Evolves(n[|n| - 2], m[|m| - 2]);
  }

  // ---- The three kinds of writes -------------------------------------------------------------

  lemma {:induction false} SessionWrite(db: Db, s: Session, db': Db)
    requires ValidDb(db) && 1 <= s.id <= |db.sessions| && UpdateSession(db, s) == Some(db')
    requires Of(db.rounds, s.id) == [] ==> s.totalFixed == 0
    ensures ValidDb(db') && Progresses(db, db') && db'.rounds == db.rounds
  {
    forall sid | 1 <= sid <= |db'.sessions| ensures ValidSession(db', sid) {
      assert ValidSession(db, sid);
    }
  }

  lemma {:induction false} SessionAppend(db: Db, s: Session, db': Db)
    requires ValidDb(db) && s.id == |db.sessions| + 1 && s.totalFixed == 0
    requires FindActive(db, s.repo, s.pr) == None
    requires db' == db.(sessions := db.sessions + [s])
    ensures ValidDb(db') && Progresses(db, db') && Of(db'.rounds, s.id) == []
  {
    NoRoundsYet(db.rounds, s.id);
    NoneIsActive(db.sessions, s.repo, s.pr);
    forall sid | 1 <= sid <= |db'.sessions| ensures ValidSession(db', sid) {
      if sid <= |db.sessions| { assert ValidSession(db, sid); }
    }
  }

  lemma {:induction false} NoRoundsYet(rounds: seq<Round>, sid: nat)
    requires forall i :: 0 <= i < |rounds| ==> rounds[i].sessionId < sid
    ensures Of(rounds, sid) == []
  {
    if rounds != [] { NoRoundsYet(rounds[..|rounds| - 1], sid); }
  }

  lemma {:induction false} NoneIsActive(sessions: seq<Session>, repo: string, pr: int)
    requires FindActiveIn(sessions, repo, pr) == None
    ensures forall i :: 0 <= i < |sessions| && sessions[i].IsActive() ==>
      sessions[i].repo != repo || sessions[i].pr != pr
  {
    if sessions != [] { NoneIsActive(sessions[..|sessions| - 1], repo, pr); }
  }

  lemma {:induction false} FoundIsRow(sessions: seq<Session>, repo: string, pr: int)
    requires FindActiveIn(sessions, repo, pr).Some?
    ensures var s := FindActiveIn(sessions, repo, pr).value;
      s.IsActive() && s.repo == repo && s.pr == pr && exists i :: 0 <= i < |sessions| && sessions[i] == s
  {
    var n := |sessions| - 1;
    var s := sessions[n];
    if !(s.repo == repo && s.pr == pr && s.IsActive()) {
      FoundIsRow(sessions[..n], repo, pr);
      var i :| 0 <= i < n && sessions[..n][i] == FindActiveIn(sessions, repo, pr).value;
      assert sessions[i] == FindActiveIn(sessions, repo, pr).value;
    }
  }

  lemma {:induction false} OkAfterUpdate(row: Session, rs: seq<Round>, p: nat, r: Round)
    requires SessionOk(row, rs) && p < |rs| && Evolves(rs[p], r) && r.IsCompleted()
    ensures SessionOk(row, rs[p := r]) && Grows(rs, rs[p := r])
  {
    NonRecoveryGrows(rs, rs[p := r]);
  }

  lemma {:induction false} OkAfterAppend(row: Session, rs: seq<Round>, r: Round)
    requires SessionOk(row, rs) && r.number == |rs| + 1 && !r.IsCompleted() && r.issuesFixed == 0
    requires rs != [] && rs[|rs| - 1].fixTaskId != "" ==> rs[|rs| - 1].IsCompleted()
    requires !r.isRecovery ==> |NonRecovery(rs)| < row.maxRounds
    ensures SessionOk(row, rs + [r]) && Grows(rs, rs + [r])
  {
    assert (rs + [r])[..|rs|] == rs;
  }

  lemma {:induction false} RoundWrite(db: Db, r: Round)
    requires ValidDb(db) && 1 <= r.id <= |db.rounds|
    requires var row := db.rounds[r.id - 1];
      !row.IsCompleted() && r.IsCompleted() && (row.fixTaskId != "" ==> r.fixTaskId == row.fixTaskId)
    ensures ValidDb(UpdateRound(db, r)) && Progresses(db, UpdateRound(db, r))
    ensures UpdateRound(db, r).sessions == db.sessions
  {
    hide SessionOk, UpdateRound, ValidSession;
    var db' := UpdateRound(db, r);
    var row' := UpdatedRow(db, r);
    forall sid ensures Grows(Of(db.rounds, sid), Of(db'.rounds, sid)) {
      OfUpdate(db.rounds, r.id - 1, row', sid);
    }
    forall sid | 1 <= sid <= |db'.sessions| ensures ValidSession(db', sid) {
      RoundWriteOne(db, r.id - 1, row', sid);
    }
  }

  lemma {:induction false} RoundWriteOne(db: Db, i: nat, row': Round, sid: nat)
    requires i < |db.rounds| && 1 <= sid <= |db.sessions| && ValidSession(db, sid)
    requires Evolves(db.rounds[i], row') && row'.IsCompleted()
    ensures ValidSession(db.(rounds := db.rounds[i := row']), sid)
  {
    hide SessionOk;
    OfUpdate(db.rounds, i, row', sid);
    if sid == row'.sessionId {
      OkAfterUpdate(db.sessions[sid - 1], Of(db.rounds, sid), Position(db.rounds, i), row');
    }
  }

  lemma {:induction false} UpdatedRow(db: Db, r: Round) returns (row': Round)
    requires 1 <= r.id <= |db.rounds|
    ensures row' == db.rounds[r.id - 1].(fixTaskId := r.fixTaskId, issuesFound := r.issuesFound,
                                         issuesFixed := r.issuesFixed, completedAt := r.completedAt)
    ensures UpdateRound(db, r) == db.(rounds := db.rounds[r.id - 1 := row'])
  {
    row' := db.rounds[r.id - 1].(fixTaskId := r.fixTaskId, issuesFound := r.issuesFound,
                                 issuesFixed := r.issuesFixed, completedAt := r.completedAt);
  }

  lemma {:induction false} RoundAppend(db: Db, sid: nat, r: Round)
    requires ValidDb(db) && 1 <= sid <= |db.sessions| && r.sessionId == sid && r.id == |db.rounds| + 1
    requires r.number == |Of(db.rounds, sid)| + 1 && !r.IsCompleted() && r.issuesFixed == 0
    requires var rs := Of(db.rounds, sid);
      (rs != [] && rs[|rs| - 1].fixTaskId != "" ==> rs[|rs| - 1].IsCompleted()) &&
      (!r.isRecovery ==> |NonRecovery(rs)| < db.sessions[sid - 1].maxRounds)
    ensures var db' := db.(rounds := db.rounds + [r]);
      ValidDb(db') && Progresses(db, db') && Of(db'.rounds, sid) == Of(db.rounds, sid) + [r]
  {
    hide SessionOk, ValidSession, Progresses, NonRecovery;
    var db' := db.(rounds := db.rounds + [r]);
    AppendProgresses(db, r);
    forall t | 1 <= t <= |db'.sessions| ensures ValidSession(db', t) {
      assert ValidSession(db, t);
      RoundAppendOne(db, r, t);
    }
    OfAppend(db.rounds, r, sid);
  }

  lemma {:induction false} AppendProgresses(db: Db, r: Round)
    ensures Progresses(db, db.(rounds := db.rounds + [r]))
  {
    forall t ensures Grows(Of(db.rounds, t), Of(db.rounds + [r], t)) {
      OfAppend(db.rounds, r, t);
    }
  }

  lemma {:induction false} RoundAppendOne(db: Db, r: Round, sid: nat)
    requires 1 <= sid <= |db.sessions| && ValidSession(db, sid)
    requires var rs := Of(db.rounds, sid);
      sid == r.sessionId ==>
        r.number == |rs| + 1 && !r.IsCompleted() && r.issuesFixed == 0 &&
        (rs != [] && rs[|rs| - 1].fixTaskId != "" ==> rs[|rs| - 1].IsCompleted()) &&
        (!r.isRecovery ==> |NonRecovery(rs)| < db.sessions[sid - 1].maxRounds)
    ensures ValidSession(db.(rounds := db.rounds + [r]), sid)
  {
    hide SessionOk;
    OfAppend(db.rounds, r, sid);
    if sid == r.sessionId { OkAfterAppend(db.sessions[sid - 1], Of(db.rounds, sid), r); }
  }
}
