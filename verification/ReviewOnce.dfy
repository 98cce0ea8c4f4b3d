/** The review after a code_from_doc run: enqueued at most once per task, however often the task runs
    (internal/code/service.go, internal/store/code_result.go). */
module ReviewOnce {
  datatype Row = Row(success: bool, prNumber: int, reviewEnqueued: bool)

  /** What a run found out, and what enqueueing its review would answer.  `GaveUp` covers missing
      information and infrastructure failures, after which no pull request is made.  `cut` says that the
      process dies before it marks a review as enqueued. */
  datatype Run =
    | GaveUp(task: nat, success: bool)
    | Built(task: nat, success: bool, testFailure: bool, reviewOnFailure: bool, prNumber: int, works: bool, cut: bool)

  datatype Review = Review(task: nat, prNumber: int)

  /** `rows` is the result table; `log` lists the reviews that were enqueued. */
  datatype World = World(rows: map<nat, Row>, log: seq<Review>)

  const EMPTY := World(map[], [])

  /** SaveCodeFromDocResult: an update leaves the flag as it is. */
  function Save(rows: map<nat, Row>, task: nat, row: Row): map<nat, Row> {
    if task in rows then rows[task := row.(reviewEnqueued := rows[task].reviewEnqueued)] else rows[task := row]
  }

  predicate ShouldEnqueue(rows: map<nat, Row>, task: nat, prNumber: int) {
    task in rows ==> !(rows[task].reviewEnqueued && rows[task].prNumber == prNumber)
  }

  predicate WantsReview(r: Run) {
    r.Built? && r.prNumber > 0 && (r.success || (r.testFailure && r.reviewOnFailure))
  }

  function Execute(w: World, r: Run): World {
    var rows := Save(w.rows, r.task, Row(r.success, if r.Built? then r.prNumber else 0, false));
    if WantsReview(r) && ShouldEnqueue(rows, r.task, r.prNumber) && r.works
    then World(if r.cut then rows else rows[r.task := rows[r.task].(reviewEnqueued := true)],
               w.log + [Review(r.task, r.prNumber)])
    else World(rows, w.log)
  }

  function AfterRuns(runs: seq<Run>): World {
    if runs == [] then EMPTY else Execute(AfterRuns(runs[..|runs| - 1]), runs[|runs| - 1])
  }

  ghost predicate OncePerTask(log: seq<Review>) {
    forall i, j :: 0 <= i < j < |log| ==> log[i].task != log[j].task
  }

  /** The flag says exactly whether a review was enqueued. */
  ghost predicate Flagged(w: World) {
    forall t :: (t in w.rows && w.rows[t].reviewEnqueued) <==> exists i :: 0 <= i < |w.log| && w.log[i].task == t
  }

  /** The result was saved with this very pull request just before, so comparing numbers decides nothing. */
  lemma {:induction false} OnlyTheFlagDecides(rows: map<nat, Row>, task: nat, success: bool, prNumber: int)
    ensures ShouldEnqueue(Save(rows, task, Row(success, prNumber, false)), task, prNumber) <==>
      !(task in rows && rows[task].reviewEnqueued)
  {}

  /** A run enqueues a review exactly when it wants one, the queue can be reached, and none was enqueued
      before for its task, not even for another pull request. */
  lemma {:induction false} EnqueuesIffFirst(w: World, r: Run)
    requires Flagged(w)
    ensures Execute(w, r).log ==
      if WantsReview(r) && r.works && (forall i :: 0 <= i < |w.log| ==> w.log[i].task != r.task)
      then w.log + [Review(r.task, r.prNumber)] else w.log
  {
    if r.Built? { OnlyTheFlagDecides(w.rows, r.task, r.success, r.prNumber); }
    assert (exists i :: 0 <= i < |w.log| && w.log[i].task == r.task) <==>
      (r.task in w.rows && w.rows[r.task].reviewEnqueued);
  }

  /** The run enqueues a review. */
  predicate Enqueues(w: World, r: Run) {
    WantsReview(r) && r.works && !(r.task in w.rows && w.rows[r.task].reviewEnqueued)
  }

  ghost predicate Ok(w: World) { Flagged(w) && OncePerTask(w.log) }

  /** A run keeps the flag right exactly when it is not cut off after enqueueing a review. */
  lemma {:induction false} RunExact(w: World, r: Run)
    requires Ok(w)
    ensures Ok(Execute(w, r)) <==> !(r.Built? && r.cut && Enqueues(w, r))
    ensures OncePerTask(Execute(w, r).log)
  {
    var w' := Execute(w, r);
    EnqueuesIffFirst(w, r);
    NoneLogged(w, r.task);
    if r.Built? && r.cut && Enqueues(w, r) {
      assert w'.log[|w.log|].task == r.task && !w'.rows[r.task].reviewEnqueued;
    } else {
      forall t ensures (t in w'.rows && w'.rows[t].reviewEnqueued) <==>
        exists i :: 0 <= i < |w'.log| && w'.log[i].task == t {
        FlagAfter(w, r, t);
      }
    }
  }

  lemma {:induction false} NoneLogged(w: World, task: nat)
    requires Flagged(w)
    ensures (forall i :: 0 <= i < |w.log| ==> w.log[i].task != task) <==>
      !(task in w.rows && w.rows[task].reviewEnqueued)
  {
    assert (exists i :: 0 <= i < |w.log| && w.log[i].task == task) <==> (task in w.rows && w.rows[task].reviewEnqueued);
  }

  lemma {:induction false} FlagAfter(w: World, r: Run, t: nat)
    requires Flagged(w) && !(r.Built? && r.cut && Enqueues(w, r))
    ensures var w' := Execute(w, r);
      (t in w'.rows && w'.rows[t].reviewEnqueued) <==> exists i :: 0 <= i < |w'.log| && w'.log[i].task == t
  {
    var w' := Execute(w, r);
    assert (t in w.rows && w.rows[t].reviewEnqueued) <==> exists i :: 0 <= i < |w.log| && w.log[i].task == t;
    assert forall i :: 0 <= i < |w.log| ==> w'.log[i] == w.log[i];
    if exists i :: 0 <= i < |w.log| && w.log[i].task == t {
      var i :| 0 <= i < |w.log| && w.log[i].task == t;
      assert w'.log[i].task == t;
    }
    if |w'.log| > |w.log| { assert w'.log[|w.log|].task == r.task; }
  }

  /** A run that is cut off after enqueueing is followed by a second review. */
  lemma {:induction false} CutRunRepeats(w: World, r: Run, next: Run)
    requires r.Built? && r.cut && Enqueues(w, r) && WantsReview(next) && next.works && next.task == r.task
    ensures Execute(Execute(w, r), next).log == w.log + [Review(r.task, r.prNumber), Review(r.task, next.prNumber)]
  {
    OnlyTheFlagDecides(w.rows, r.task, r.success, r.prNumber);
    var w1 := Execute(w, r);
    OnlyTheFlagDecides(w1.rows, r.task, next.success, next.prNumber);
    assert w1.log == w.log + [Review(r.task, r.prNumber)];
  }

  /** No run is cut off after it enqueued a review. */
  ghost predicate NoneForgotten(runs: seq<Run>) {
    forall k :: 0 <= k < |runs| && runs[k].Built? && runs[k].cut ==> !Enqueues(AfterRuns(runs[..k]), runs[k])
  }

  /** The flag is right before the first run and after each one. */
  ghost predicate AlwaysFlagged(runs: seq<Run>) { forall k :: 0 <= k <= |runs| ==> Flagged(AfterRuns(runs[..k])) }

  lemma {:induction false} OneMoreRun(front: seq<Run>, r: Run)
    ensures AlwaysFlagged(front + [r]) <==> AlwaysFlagged(front) && Flagged(AfterRuns(front + [r]))
    ensures NoneForgotten(front + [r]) <==>
      NoneForgotten(front) && !(r.Built? && r.cut && Enqueues(AfterRuns(front), r))
  {
    hide AfterRuns, Flagged, Enqueues;
    var runs := front + [r];
    assert runs[..|runs|] == runs && runs[..|front|] == front[..|front|] == front && runs[|front|] == r;
    assert forall k :: 0 <= k <= |front| ==> runs[..k] == front[..k];
    assert forall k :: 0 <= k < |front| ==> runs[k] == front[k];
    if AlwaysFlagged(runs) {
      forall k | 0 <= k <= |front| ensures Flagged(AfterRuns(front[..k])) { assert runs[..k] == front[..k]; }
    }
    if NoneForgotten(runs) {
      forall k | 0 <= k < |front| && front[k].Built? && front[k].cut
        ensures !Enqueues(AfterRuns(front[..k]), front[k])
      {
        assert runs[..k] == front[..k] && runs[k] == front[k];
      }
    }
  }

  /** In any number of runs of any tasks, wherever processes die: the flag is right all along if and only
      if no run is cut off between enqueueing and marking; and then no task gets two reviews. */
  lemma {:induction false} AlwaysFlaggedIff(runs: seq<Run>)
    ensures AlwaysFlagged(runs) <==> NoneForgotten(runs)
    ensures NoneForgotten(runs) ==> Ok(AfterRuns(runs))
  {
    hide Execute, Flagged, Enqueues, OncePerTask;
    if runs == [] {
      NoRunYet(runs);
    } else {
      var front, r := runs[..|runs| - 1], runs[|runs| - 1];
      assert runs == front + [r];
      AlwaysFlaggedIff(front);
      OneMoreRun(front, r);
      if NoneForgotten(front) { RunExact(AfterRuns(front), r); }
    }
  }

  lemma {:induction false} NoRunYet(runs: seq<Run>)
    requires runs == []
    ensures AlwaysFlagged(runs) && NoneForgotten(runs) && Ok(AfterRuns(runs))
  {
    assert runs[..0] == runs;
  }

  /** In any number of runs of any tasks: at most one review per task, and the flag says whether, as long
      as no run is cut off between enqueueing and marking. */
  lemma {:induction false} AtMostOneReview(runs: seq<Run>)
    requires NoneForgotten(runs)
    ensures OncePerTask(AfterRuns(runs).log) && Flagged(AfterRuns(runs))
  {
    hide Flagged, OncePerTask, AfterRuns;
    AlwaysFlaggedIff(runs);
  }

  // ---- When a task gets two reviews ----------------------------------------------------------

  /** The run wants a review and can reach the queue. */
  predicate Reaching(r: Run) { WantsReview(r) && r.works }

  predicate IsFlagged(w: World, task: nat) { task in w.rows && w.rows[task].reviewEnqueued }

  ghost predicate AnyReached(runs: seq<Run>, task: nat) {
    exists i :: 0 <= i < |runs| && runs[i].task == task && Reaching(runs[i])
  }

  /** Some run of the task wanted a review, could reach the queue and was not cut off. */
  ghost predicate AnyMarked(runs: seq<Run>, task: nat) {
    exists i :: 0 <= i < |runs| && runs[i].task == task && Reaching(runs[i]) && !runs[i].cut
  }

  ghost predicate IsLogged(log: seq<Review>, task: nat) { exists i :: 0 <= i < |log| && log[i].task == task }

  /** The run is cut off although it wants a review and can reach the queue, and no run of its task was
      marked before. */
  ghost predicate Forgets(runs: seq<Run>, j: int)
    requires 0 <= j < |runs|
  {
    Reaching(runs[j]) && runs[j].cut && !AnyMarked(runs[..j], runs[j].task)
  }

  /** No run that forgets its review is followed by one of the same task that wants a review and can reach
      the queue. */
  ghost predicate NoneRepeated(runs: seq<Run>) {
    forall j, k :: 0 <= j < k < |runs| && Forgets(runs, j) && Reaching(runs[k]) ==> runs[j].task != runs[k].task
  }

  lemma {:induction false} RunEffect(w: World, r: Run)
    ensures forall t :: IsFlagged(Execute(w, r), t) <==>
      IsFlagged(w, t) || (t == r.task && Reaching(r) && !r.cut)
    ensures Execute(w, r).log ==
      if Reaching(r) && !IsFlagged(w, r.task) then w.log + [Review(r.task, r.prNumber)] else w.log
  {
    if r.Built? { OnlyTheFlagDecides(w.rows, r.task, r.success, r.prNumber); }
  }

  lemma {:induction false} OnceAppend(log: seq<Review>, r: Review)
    ensures OncePerTask(log + [r]) <==> OncePerTask(log) && !IsLogged(log, r.task)
    ensures forall t :: IsLogged(log + [r], t) <==> IsLogged(log, t) || t == r.task
  {
    var all := log + [r];
    assert forall i :: 0 <= i < |log| ==> all[i] == log[i];
    assert all[|log|] == r;
    if OncePerTask(all) {
      forall i, j | 0 <= i < j < |log| ensures log[i].task != log[j].task { assert all[i].task != all[j].task; }
    }
    forall t | IsLogged(log, t) ensures IsLogged(all, t) {
      var i :| 0 <= i < |log| && log[i].task == t;
      assert all[i].task == t;
    }
  }

  lemma {:induction false} AnyAppend(front: seq<Run>, r: Run, t: nat)
    ensures AnyReached(front + [r], t) <==> AnyReached(front, t) || (r.task == t && Reaching(r))
    ensures AnyMarked(front + [r], t) <==> AnyMarked(front, t) || (r.task == t && Reaching(r) && !r.cut)
  {
    var runs := front + [r];
    assert runs[|front|] == r && forall i :: 0 <= i < |front| ==> runs[i] == front[i];
    if AnyReached(front, t) {
      var i :| 0 <= i < |front| && front[i].task == t && Reaching(front[i]);
      assert runs[i].task == t && Reaching(runs[i]);
    }
    if AnyMarked(front, t) {
      var i :| 0 <= i < |front| && front[i].task == t && Reaching(front[i]) && !front[i].cut;
      assert runs[i].task == t && Reaching(runs[i]) && !runs[i].cut;
    }
  }

  /** A run forgets its task's review. */
  ghost predicate AnyForgets(runs: seq<Run>, task: nat) {
    exists j :: 0 <= j < |runs| && Forgets(runs, j) && runs[j].task == task
  }

  lemma {:induction false} RepeatedAppend(front: seq<Run>, r: Run)
    ensures NoneRepeated(front + [r]) <==> NoneRepeated(front) && !(Reaching(r) && AnyForgets(front, r.task))
  {
    hide Reaching, AnyMarked;
    var runs, n := front + [r], |front|;
    assert runs[n] == r && forall i :: 0 <= i < n ==> runs[i] == front[i] && runs[..i] == front[..i];
    forall j | 0 <= j < n ensures Forgets(runs, j) <==> Forgets(front, j) { assert runs[..j] == front[..j]; }
    if NoneRepeated(runs) {
      forall j, k | 0 <= j < k < n && Forgets(front, j) && Reaching(front[k]) ensures front[j].task != front[k].task {
        assert Forgets(runs, j) && Reaching(runs[k]);
      }
      forall j | 0 <= j < n && Forgets(front, j) && Reaching(r) ensures front[j].task != r.task {
        assert Forgets(runs, j) && Reaching(runs[n]);
      }
    }
  }

  /** Among the runs of a task that want a review and can reach the queue, the first is marked or
      forgets. */
  lemma {:induction false} ReachedIff(runs: seq<Run>, t: nat)
    ensures AnyForgets(runs, t) ==> AnyReached(runs, t)
    ensures AnyReached(runs, t) ==> AnyMarked(runs, t) || AnyForgets(runs, t)
  {
    hide Reaching;
    if AnyReached(runs, t) && !AnyMarked(runs, t) {
      var i :| 0 <= i < |runs| && runs[i].task == t && Reaching(runs[i]);
      assert !AnyMarked(runs[..i], t);
      assert Forgets(runs, i);
    }
  }

  /** Without a repetition, a task with a run that was marked has none that forgot. */
  lemma {:induction false} MarkedForgetsNothing(runs: seq<Run>, t: nat)
    requires NoneRepeated(runs) && AnyMarked(runs, t)
    ensures !AnyForgets(runs, t)
  {
    var i :| 0 <= i < |runs| && runs[i].task == t && Reaching(runs[i]) && !runs[i].cut;
    forall j | 0 <= j < |runs| && runs[j].task == t ensures !Forgets(runs, j) {
      if i < j {
        assert runs[..j][i] == runs[i];
        assert AnyMarked(runs[..j], t);
      }
    }
  }

  /** In any number of runs of any tasks, wherever processes die: no task gets two reviews if and only if
      no run that forgets its review is followed by another one of its task that wants a review and can
      reach the queue. */
  lemma {:induction false} AtMostOneIff(runs: seq<Run>)
    ensures forall t :: IsFlagged(AfterRuns(runs), t) <==> AnyMarked(runs, t)
    ensures forall t :: IsLogged(AfterRuns(runs).log, t) <==> AnyReached(runs, t)
    ensures OncePerTask(AfterRuns(runs).log) <==> NoneRepeated(runs)
  {
    if runs != [] {
      hide Execute, WantsReview, IsFlagged, IsLogged, AnyMarked, AnyReached, OncePerTask, NoneRepeated, AnyForgets,
        Reaching;
      var front, r := runs[..|runs| - 1], runs[|runs| - 1];
      assert runs == front + [r];
      AtMostOneIff(front);
      var w := AfterRuns(front);
      RunEffect(w, r);
      forall t ensures IsFlagged(AfterRuns(runs), t) <==> AnyMarked(runs, t) { AnyAppend(front, r, t); }
      RepeatedAppend(front, r);
      ReachedIff(front, r.task);
      if Reaching(r) && AnyMarked(front, r.task) && NoneRepeated(front) { MarkedForgetsNothing(front, r.task); }
      if Reaching(r) { OnceAppend(w.log, Review(r.task, r.prNumber)); }
      forall t ensures IsLogged(AfterRuns(runs).log, t) <==> AnyReached(runs, t) {
        AnyAppend(front, r, t);
        if Reaching(r) && IsFlagged(w, r.task) { MarkedIsReached(front, r.task); }
      }
    }
  }

  lemma {:induction false} MarkedIsReached(runs: seq<Run>, t: nat)
    requires AnyMarked(runs, t)
    ensures AnyReached(runs, t)
  {}

  // ---- Which runs get a review ---------------------------------------------------------------

  /** What a run does, written out.  Its review is enqueued exactly when it made a pull request, succeeded
      or failed only in its tests while reviews of failures are wanted, the queue is reached and the flag
      was not set; its row shows how it ended, with which pull request, and the flag. */
  lemma {:induction false} RunExactly(w: World, r: Run)
    ensures var w' := Execute(w, r);
      var flagged := r.task in w.rows && w.rows[r.task].reviewEnqueued;
      var enqueued := r.Built? && r.prNumber > 0 && (r.success || (r.testFailure && r.reviewOnFailure)) &&
        r.works && !flagged;
      && w'.log == (if enqueued then w.log + [Review(r.task, r.prNumber)] else w.log)
      && w'.rows == w.rows[r.task := Row(r.success, if r.Built? then r.prNumber else 0,
                                         flagged || (enqueued && !r.cut))]
  {}

  class CodeService {
    var rows: map<nat, Row>
    var log: seq<Review>

    constructor ()
      ensures Contents() == EMPTY
    {
      rows, log := map[], [];
    }

    ghost function Contents(): World
      reads this
    {
      World(rows, log)
    }

    method SaveCodeFromDocResult(task: nat, row: Row)
      modifies this`rows
      ensures rows == Save(old(rows), task, row)
    {
      var flag := row.reviewEnqueued;
      if task in rows { flag := rows[task].reviewEnqueued; }
      rows := rows[task := row.(reviewEnqueued := flag)];
    }

    method UpdateReviewEnqueued(task: nat) returns (ok: bool)
      modifies this`rows
      ensures ok <==> task in old(rows)
      ensures rows == if task in old(rows) then old(rows)[task := old(rows)[task].(reviewEnqueued := true)]
        else old(rows)
    {
      ok := task in rows;
      if ok { rows := rows[task := rows[task].(reviewEnqueued := true)]; }
    }

    /** The steps of Execute from persisting on.  The call fails exactly when the run wants a review, none
        was enqueued before, and the queue cannot be reached; a run that is cut off does not return. */
    method FinishRun(r: Run) returns (ok: bool)
      modifies this
      ensures Contents() == Execute(old(Contents()), r)
      ensures !(r.Built? && r.cut) ==>
        (ok <==> !(WantsReview(r) && !r.works && !(r.task in old(rows) && old(rows)[r.task].reviewEnqueued)))
    {
      if r.GaveUp? {
        SaveCodeFromDocResult(r.task, Row(r.success, 0, false));
        return true;
      }
      SaveCodeFromDocResult(r.task, Row(r.success, r.prNumber, false));
      if r.prNumber > 0 && (r.success || (r.testFailure && r.reviewOnFailure)) {
        if ShouldEnqueue(rows, r.task, r.prNumber) {
          if !r.works { return false; }
          log := log + [Review(r.task, r.prNumber)];
          if r.cut { return false; }
          var _ := UpdateReviewEnqueued(r.task);
        }
      }
      return true;
    }
  }
}
