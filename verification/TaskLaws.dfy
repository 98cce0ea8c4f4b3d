/** What holds in every run of the task lifecycle. */
module TaskLaws {
  import opened Wrappers
  import opened TaskModel
  import opened TaskProtocol

  // ---- Records, entries and handlers ---------------------------------------------------------

  /** At most one record per delivery id and kind, whatever is delivered how often. */
  lemma {:induction false} OneRecordPerDelivery(steps: seq<Step>, i: nat, j: nat)
    requires i < |After(steps).sys.tasks| && j < |After(steps).sys.tasks|
    ensures var tasks := After(steps).sys.tasks;
      tasks[i].deliveryId == tasks[j].deliveryId && tasks[i].kind == tasks[j].kind ==> i == j
  {
    InvHolds(steps);
  }

  /** Every live entry is for exactly one record, no record has two, and none is processed twice at a time. */
  lemma {:induction false} OneEntryPerRecord(steps: seq<Step>)
    ensures var s := After(steps).sys;
      && (forall a :: a in s.queue ==> exists i :: 0 <= i < |s.tasks| && Owns(s.tasks[i], a, s.queue[a]))
      && (forall a, i, j | a in s.queue && 0 <= i < |s.tasks| && 0 <= j < |s.tasks| ::
            Owns(s.tasks[i], a, s.queue[a]) && Owns(s.tasks[j], a, s.queue[a]) ==> i == j)
      && (forall a, b :: a in s.queue && b in s.queue && s.queue[a] == s.queue[b] ==> a == b)
      && (forall a, b :: a in s.handlers && b in s.handlers && s.handlers[a].id == s.handlers[b].id ==> a == b)
  {
    InvHolds(steps);
    var s := After(steps).sys;
    assert SysOk(s);
    forall a, b | a in s.queue && b in s.queue && s.queue[a] == s.queue[b] ensures a == b {
      KeyOfEntry(s, a);
      KeyOfEntry(s, b);
    }
    forall a, b | a in s.handlers && b in s.handlers && s.handlers[a].id == s.handlers[b].id ensures a == b {
      assert Fits(s, s.handlers[a]) && Fits(s, s.handlers[b]);
    }
    forall a, i, j | a in s.queue && 0 <= i < |s.tasks| && 0 <= j < |s.tasks| &&
      Owns(s.tasks[i], a, s.queue[a]) && Owns(s.tasks[j], a, s.queue[a]) ensures i == j {
      OneOwner(s, i, j);
    }
  }

  lemma {:induction false} KeyOfEntry(s: Sys, a: string)
    requires EntriesOwned(s) && a in s.queue
    ensures a == BuildAsynqTaskId(s.queue[a].deliveryId, s.queue[a].kind)
  {
    hide BuildAsynqTaskId;
    var i :| 0 <= i < |s.tasks| && Owns(s.tasks[i], a, s.queue[a]);
  }

  /** A record that is not at its end has a live entry or is pending; and a pending record that is old
      enough is listed for recovery exactly when fewer of its kind precede it than the list takes. */
  lemma {:induction false} NobodyIsStranded(steps: seq<Step>, i: nat)
    requires i < |After(steps).sys.tasks|
    ensures var s := After(steps).sys;
      var t := s.tasks[i];
      && (t.status.IsTerminal() || KeyOf(t) in s.queue || t.status.Pending?)
      && (t.status.Pending? ==> forall aged: Task -> bool :: aged(t) ==>
            (t in ListOrphans(s, aged) <==> |Select(s.tasks[..i], Waiting(aged))| < MAX_LIMIT))
  {
    hide Waiting;
    InvHolds(steps);
    var s := After(steps).sys;
    var t := s.tasks[i];
    forall aged: Task -> bool | t.status.Pending? && aged(t)
      ensures t in ListOrphans(s, aged) <==> |Select(s.tasks[..i], Waiting(aged))| < MAX_LIMIT
    {
      ListedIff(s, aged, i);
    }
  }

  lemma {:induction false} SelectAppend(front: seq<Task>, t: Task, p: Task -> bool)
    ensures Select(front + [t], p) == if p(t) then Select(front, p) + [t] else Select(front, p)
  {
    assert (front + [t])[..|front|] == front;
  }

  lemma {:induction false} SelectAt(tasks: seq<Task>, p: Task -> bool, i: nat)
    requires i < |tasks| && p(tasks[i])
    ensures var c := |Select(tasks[..i], p)|; c < |Select(tasks, p)| && Select(tasks, p)[c] == tasks[i]
    decreases |tasks|
  {
    hide Select;
    var front, last := tasks[..|tasks| - 1], tasks[|tasks| - 1];
    assert tasks == front + [last];
    SelectAppend(front, last, p);
    if i < |front| {
      assert front[..i] == tasks[..i];
      SelectAt(front, p, i);
    }
  }

  lemma {:induction false} ListedIff(s: Sys, aged: Task -> bool, i: nat)
    requires RowsOk(s) && i < |s.tasks| && s.tasks[i].status.Pending? && aged(s.tasks[i])
    ensures s.tasks[i] in ListOrphans(s, aged) <==> |Select(s.tasks[..i], Waiting(aged))| < MAX_LIMIT
  {
    var p := Waiting(aged);
    var all, c := Select(s.tasks, p), |Select(s.tasks[..i], p)|;
    SelectAt(s.tasks, p, i);
    SelectedAreDistinct(s.tasks, p);
    var list := First(all, MAX_LIMIT);
    if s.tasks[i] in list {
      var k :| 0 <= k < |list| && list[k] == s.tasks[i];
      assert all[k].id == all[c].id;
    }
    if c < MAX_LIMIT { assert list[c] == s.tasks[i]; }
  }

  /** The id of a record that was just created is not live, so its first enqueue cannot conflict. */
  lemma {:induction false} FirstEnqueueNeverConflicts(steps: seq<Step>, kind: Kind, subject: Subject, d: string)
    requires d != "" && CreateTask(After(steps).sys, NewTask(After(steps).sys, kind, subject, d)).Some?
    ensures var t := NewTask(After(steps).sys, kind, subject, d);
      Enqueue(After(steps + [Persist(kind, subject, d)]).sys, t, true).1 == Accepted
  {
    var st := After(steps);
    InvHolds(steps);
    CreateKeeps(st.sys, NewTask(st.sys, kind, subject, d));
    assert (steps + [Persist(kind, subject, d)])[..|steps|] == steps;
  }

  // ---- Repeated deliveries -------------------------------------------------------------------

  lemma {:induction false} RunsFollow(steps: seq<Step>, more: seq<Step>)
    ensures Follows(After(steps).sys, After(steps + more).sys)
  {
    if more == [] {
      assert steps + more == steps;
      SelfFollows(After(steps).sys);
    } else {
      var front, last := more[..|more| - 1], more[|more| - 1];
      assert (steps + more)[..|steps + more| - 1] == steps + front;
      RunsFollow(steps, front);
      InvHolds(steps + front);
      StepKeeps(After(steps + front), last);
      FollowsChain(After(steps).sys, After(steps + front).sys, After(steps + more).sys);
    }
  }

  /** Once a delivery is recorded, delivering it again never changes anything. */
  lemma {:induction false} RedeliveryChangesNothing(steps: seq<Step>, more: seq<Step>, i: nat, subject: Subject)
    requires i < |After(steps).sys.tasks|
    ensures var t := After(steps).sys.tasks[i];
      Next(After(steps + more), Persist(t.kind, subject, t.deliveryId)) == After(steps + more)
  {
    RunsFollow(steps, more);
    var t := After(steps).sys.tasks[i];
    var s := After(steps + more).sys;
    assert s.tasks[i].kind == t.kind && s.tasks[i].deliveryId == t.deliveryId;
  }

  // ---- A recovery pass -----------------------------------------------------------------------

  ghost predicate Distinct(list: seq<Task>) { forall i, j :: 0 <= i < j < |list| ==> list[i].id != list[j].id }

  /** What a pass leaves of a listed record: given up if it was requeued often enough since the process
      started, and back in the queue otherwise. */
  ghost predicate Recovered(s: Sys, attempts: Attempts, t: Task) {
    t.id < |s.tasks| &&
    if AttemptsOf(attempts, t.id) >= t.maxRetry then s.tasks[t.id] == t.(status := Failed)
    else s.tasks[t.id] == t.(status := Queued, asynqId := KeyOf(t)) && KeyOf(t) in s.queue
  }

  /** When every enqueue reaches the queue, a pass moves every listed record on and touches no other. */
  lemma {:induction false} PassRecovers(s: Sys, attempts: Attempts, list: seq<Task>)
    requires Distinct(list) && forall t :: t in list ==> t.id < |s.tasks|
    ensures var (s', a') := RequeueAll(s, attempts, list, _ => true);
      && |s'.tasks| == |s.tasks|
      && (forall t :: t in list ==> Recovered(s', attempts, t))
      && (forall i :: 0 <= i < |s.tasks| && (forall t :: t in list ==> t.id != i) ==>
            s'.tasks[i] == s.tasks[i] && AttemptsOf(a', i) == AttemptsOf(attempts, i))
      && (forall a :: a in s.queue ==> a in s'.queue)
  {
    hide BuildAsynqTaskId;
    if list != [] {
      var front, t := list[..|list| - 1], list[|list| - 1];
      PassRecovers(s, attempts, front);
      var (s1, a1) := RequeueAll(s, attempts, front, _ => true);
      var (s2, a2) := Requeue(s1, a1, t, true);
      assert RequeueAll(s, attempts, list, _ => true) == (s2, a2);
      assert t in list && AttemptsOf(a1, t.id) == AttemptsOf(attempts, t.id);
      RequeueMoves(s1, a1, t);
      forall u | u in list ensures Recovered(s2, attempts, u) {
        if u != t { assert u in front && u.id != t.id; assert Recovered(s1, attempts, u); }
      }
      forall i | 0 <= i < |s.tasks| && (forall u :: u in list ==> u.id != i)
        ensures s2.tasks[i] == s.tasks[i] && AttemptsOf(a2, i) == AttemptsOf(attempts, i)
      {
        assert forall u :: u in front ==> u in list;
      }
    }
  }

  lemma {:induction false} RequeueMoves(s: Sys, attempts: Attempts, t: Task)
    requires t.id < |s.tasks|
    ensures var (s', a') := Requeue(s, attempts, t, true);
      && |s'.tasks| == |s.tasks| && Recovered(s', attempts, t)
      && (forall i :: 0 <= i < |s.tasks| && i != t.id ==>
            s'.tasks[i] == s.tasks[i] && AttemptsOf(a', i) == AttemptsOf(attempts, i))
      && (forall a :: a in s.queue ==> a in s'.queue)
  {
    hide BuildAsynqTaskId;
  }

  lemma {:induction false} SelectedAreDistinct(tasks: seq<Task>, p: Task -> bool)
    requires forall i :: 0 <= i < |tasks| ==> tasks[i].id == i
    ensures Distinct(Select(tasks, p))
    ensures forall t :: t in Select(tasks, p) ==> t.id < |tasks| && tasks[t.id] == t
  {
    if tasks != [] { SelectedAreDistinct(tasks[..|tasks| - 1], p); }
  }

  /** After a pass that reaches the queue, none of the orphans it handled is pending any more. */
  lemma {:induction false} OrphansMoveOn(steps: seq<Step>, aged: Task -> bool, i: nat)
    requires var st := After(steps); i < |First(ListOrphans(st.sys, aged), MAX_BATCH)|
    ensures var st := After(steps);
      var list := First(ListOrphans(st.sys, aged), MAX_BATCH);
      Recovered(RequeueAll(st.sys, st.attempts, list, _ => true).0, st.attempts, list[i])
  {
    hide RequeueAll, Recovered;
    InvHolds(steps);
    var st := After(steps);
    SelectedAreDistinct(st.sys.tasks, Waiting(aged));
    var list := First(ListOrphans(st.sys, aged), MAX_BATCH);
    PassRecovers(st.sys, st.attempts, list);
    assert list[i] in list;
  }

  // ---- Enough passes -------------------------------------------------------------------------

  /** Several passes in a row, each over what it lists itself, when every enqueue reaches the queue. */
  function Passes(s: Sys, attempts: Attempts, aged: Task -> bool, n: nat): (Sys, Attempts) {
    if n == 0 then (s, attempts)
    else
      var (s1, a1) := Passes(s, attempts, aged, n - 1);
      RequeueAll(s1, a1, First(ListOrphans(s1, aged), MAX_BATCH), _ => true)
  }

  function Drop<T>(s: seq<T>, n: nat): seq<T> { if |s| <= n then [] else s[n..] }

  lemma {:induction false} DropAppend<T>(front: seq<T>, x: T, n: nat)
    ensures Drop(front + [x], n) == if |front| < n then Drop(front, n) else Drop(front, n) + [x]
  {}

  /** The first `m` selected rows leave the selection, the others stay as they are. */
  ghost predicate Leaves(a: seq<Task>, b: seq<Task>, p: Task -> bool, m: nat) {
    |a| == |b| && forall j :: 0 <= j < |a| ==> LeavesAt(a, b, p, m, j)
  }

  ghost predicate LeavesAt(a: seq<Task>, b: seq<Task>, p: Task -> bool, m: nat, j: nat)
    requires j < |a| == |b|
  {
    if p(a[j]) && |Select(a[..j], p)| < m then !p(b[j]) else b[j] == a[j]
  }

  lemma {:induction false} SelectDrops(a: seq<Task>, b: seq<Task>, p: Task -> bool, m: nat)
    requires Leaves(a, b, p, m)
    ensures Select(b, p) == Drop(Select(a, p), m)
  {
    if a == [] {
      assert b == [];
    } else {
      hide Select, Drop;
      var n := |a| - 1;
      forall j | 0 <= j < n ensures LeavesAt(a[..n], b[..n], p, m, j) {
        assert LeavesAt(a, b, p, m, j) && a[..n][..j] == a[..j];
      }
      SelectDrops(a[..n], b[..n], p, m);
      assert LeavesAt(a, b, p, m, n) && a == a[..n] + [a[n]] && b == b[..n] + [b[n]];
      SelectAppend(a[..n], a[n], p);
      SelectAppend(b[..n], b[n], p);
      DropAppend(Select(a[..n], p), a[n], m);
    }
  }

  lemma {:induction false} PassKeeps(s: Sys, attempts: Attempts, list: seq<Task>, works: Task -> bool)
    requires SysOk(s) && forall t :: t in list ==> Fits(s, t)
    ensures Keeps(s, RequeueAll(s, attempts, list, works).0)
  {
    hide SysOk, Requeue;
    SelfFollows(s);
    if list != [] {
      var front, t := list[..|list| - 1], list[|list| - 1];
      PassKeeps(s, attempts, front, works);
      var (s1, a1) := RequeueAll(s, attempts, front, works);
      assert t in list;
      FitsStays(s, s1, t);
      RequeueKeeps(s1, a1, t, works(t));
      FollowsChain(s, s1, Requeue(s1, a1, t, works(t)).0);
    }
  }

  /** A pass that reaches the queue takes exactly the oldest batch out of the waiting records. */
  lemma {:induction false} PassTakesBatch(s: Sys, attempts: Attempts, aged: Task -> bool)
    requires SysOk(s)
    ensures var s' := RequeueAll(s, attempts, First(ListOrphans(s, aged), MAX_BATCH), _ => true).0;
      SysOk(s') && Select(s'.tasks, Waiting(aged)) == Drop(Select(s.tasks, Waiting(aged)), MAX_BATCH)
  {
    hide RequeueAll, SysOk, Select, Recovered;
    var p := Waiting(aged);
    var all, list := Select(s.tasks, p), First(ListOrphans(s, aged), MAX_BATCH);
    assert list == First(all, MAX_BATCH);
    RowsOfSys(s);
    SelectedAreDistinct(s.tasks, p);
    assert forall t :: t in list ==> t in all;
    PassRecovers(s, attempts, list);
    SelectedFit(s, p);
    PassKeeps(s, attempts, list, _ => true);
    var s' := RequeueAll(s, attempts, list, _ => true).0;
    forall j | 0 <= j < |s.tasks| ensures LeavesAt(s.tasks, s'.tasks, p, MAX_BATCH, j) {
      BatchRow(s, attempts, p, list, s', j);
    }
    SelectDrops(s.tasks, s'.tasks, p, MAX_BATCH);
  }

  lemma {:induction false} RowsOfSys(s: Sys)
    requires SysOk(s)
    ensures forall i :: 0 <= i < |s.tasks| ==> s.tasks[i].id == i
  {}

  lemma {:induction false} SelectedFit(s: Sys, p: Task -> bool)
    requires SysOk(s)
    ensures forall t :: t in Select(s.tasks, p) ==> Fits(s, t)
  {
    hide Select, BuildAsynqTaskId, OneRowEach, EntriesOwned, HandlersOk, NoneStranded;
  }

  lemma {:induction false} BatchRow(s: Sys, attempts: Attempts, p: Task -> bool, list: seq<Task>, s': Sys, j: nat)
    requires j < |s.tasks| == |s'.tasks| && list == First(Select(s.tasks, p), MAX_BATCH)
    requires (forall i :: 0 <= i < |s.tasks| ==> s.tasks[i].id == i) && forall t :: p(t) ==> t.status.Pending?
    requires Distinct(Select(s.tasks, p))
    requires forall t :: t in Select(s.tasks, p) ==> t.id < |s.tasks| && s.tasks[t.id] == t
    requires forall t :: t in list ==> Recovered(s', attempts, t)
    requires forall i :: 0 <= i < |s.tasks| && (forall t :: t in list ==> t.id != i) ==> s'.tasks[i] == s.tasks[i]
    ensures LeavesAt(s.tasks, s'.tasks, p, MAX_BATCH, j)
  {
    hide BuildAsynqTaskId, AttemptsOf, Select;
    var all, t, c := Select(s.tasks, p), s.tasks[j], |Select(s.tasks[..j], p)|;
    if p(t) { SelectAt(s.tasks, p, j); }
    if p(t) && c < MAX_BATCH {
      assert list[c] == t && t in list;
    } else {
      forall u | u in list ensures u.id != j {
        var k :| 0 <= k < |list| && list[k] == u;
        assert all[k] in all && p(all[k]) && s.tasks[u.id] == u;
        if p(t) { assert all[k].id != all[c].id; }
      }
    }
  }

  /** Every record that is waiting moves on: `n` passes take the `n` oldest batches, so enough of them
      leave nothing waiting. */
  lemma {:induction false} PassesDrain(s: Sys, attempts: Attempts, aged: Task -> bool, n: nat)
    requires SysOk(s)
    ensures var s' := Passes(s, attempts, aged, n).0;
      var waiting := Select(s.tasks, Waiting(aged));
      && SysOk(s') && Select(s'.tasks, Waiting(aged)) == Drop(waiting, MAX_BATCH * n)
      && (|waiting| <= MAX_BATCH * n ==> forall t :: t in s'.tasks && t.status.Pending? ==> !aged(t))
  {
    hide RequeueAll, SysOk, ListOrphans, Select, Waiting;
    var waiting := Select(s.tasks, Waiting(aged));
    if n > 0 {
      PassesDrain(s, attempts, aged, n - 1);
      var (s1, a1) := Passes(s, attempts, aged, n - 1);
      PassTakesBatch(s1, a1, aged);
    }
    var s' := Passes(s, attempts, aged, n).0;
    if |waiting| <= MAX_BATCH * n { NoneIsWaiting(s'.tasks, aged); }
  }

  lemma {:induction false} NoneIsWaiting(tasks: seq<Task>, aged: Task -> bool)
    requires Select(tasks, Waiting(aged)) == []
    ensures forall t :: t in tasks && t.status.Pending? ==> !aged(t)
  {
    forall t | t in tasks && t.status.Pending? ensures !aged(t) {
      assert t !in Select(tasks, Waiting(aged));
    }
  }

  // ---- Why two steps must not be torn apart --------------------------------------------------

  lemma {:induction false} OrphansArePending(s: Sys, aged: Task -> bool)
    ensures forall t :: t in ListOrphans(s, aged) ==> t.status.Pending?
  {
    var all := Select(s.tasks, Waiting(aged));
    assert forall t :: t in First(all, MAX_LIMIT) ==> t in all;
  }

  lemma {:induction false} LiveIdIsKey(s: Sys, t: Task)
    requires EntriesOwned(s) && RowsOk(s) && Fits(s, t) && t.asynqId in s.queue
    ensures t.asynqId == KeyOf(t) == KeyOf(s.tasks[t.id])
  {
    var i :| 0 <= i < |s.tasks| && Owns(s.tasks[i], t.asynqId, s.queue[t.asynqId]);
  }

  /** Cancelling deletes the queue entry before it writes the record.  A crash between the two strands
      somebody exactly when the record, as it is by then, is under way: it keeps its status, has no
      entry, and no recovery pass lists it.  The copy the cancellation acts on may be of any age. */
  lemma {:induction false} CrashInsideCancelStrands(s: Sys, t: Task)
    requires SysOk(s) && Fits(s, t) && Delete(s, t.asynqId, true).Some?
    ensures var half := Delete(s, t.asynqId, true).value;
      && (NoneStranded(half) <==> !s.tasks[t.id].status.IsUnderWay())
      && (s.tasks[t.id].status.IsUnderWay() ==>
            && KeyOf(s.tasks[t.id]) !in half.queue
            && forall aged: Task -> bool :: s.tasks[t.id] !in ListOrphans(half, aged))
  {
    hide OneRowEach, EntriesOwned, HandlersOk, BuildAsynqTaskId, ListOrphans;
    LiveIdIsKey(s, t);
    var half, row := Delete(s, t.asynqId, true).value, s.tasks[t.id];
    assert half.tasks[t.id] == row && KeyOf(row) !in half.queue;
    if !row.status.IsUnderWay() {
      forall i | 0 <= i < |half.tasks| && half.tasks[i].status.IsUnderWay() ensures KeyOf(half.tasks[i]) in half.queue {
        OneOwner(s, i, t.id);
      }
    }
    forall aged: Task -> bool | row.status.IsUnderWay() ensures row !in ListOrphans(half, aged) {
      OrphansArePending(half, aged);
    }
  }

  lemma {:induction false} AfterOne(steps: seq<Step>, step: Step)
    ensures After(steps + [step]) == Next(After(steps), step)
  {
    hide Next;
    assert (steps + [step])[..|steps|] == steps;
  }

  /** Such a state is reached: a record is created and enqueued, and its cancellation is cut in two. */
  lemma {:induction false} CancelCanStrand() returns (steps: seq<Step>)
    ensures var s := After(steps).sys;
      && |s.tasks| == 1 && s.tasks[0].status.Queued?
      && Delete(s, s.tasks[0].asynqId, true).Some?
      && !NoneStranded(Delete(s, s.tasks[0].asynqId, true).value)
  {
    hide BuildAsynqTaskId, SysOk;
    var subject := Subject("r", "", 1, 0);
    var t := Task(0, ReviewPR, Pending, "", subject, "d", MAX_RETRY);
    var a, b := Persist(ReviewPR, subject, "d"), Mark(t, true);
    AfterOne([], a);
    assert [] + [a] == [a];
    assert After([a]).sys == Sys([t], map[], map[]) && t in After([a]).seen;
    AfterOne([a], b);
    assert [a] + [b] == [a, b];
    steps := [a, b];
    var s := After(steps).sys;
    var q := t.(status := Queued, asynqId := KeyOf(t));
    assert s == Sys([q], map[KeyOf(t) := Job("d", ReviewPR)], map[]);
    InvHolds(steps);
    assert Fits(s, q);
    CrashInsideCancelStrands(s, q);
  }
}
