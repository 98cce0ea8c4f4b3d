/** Task records, the queue and the steps that change them (internal/store/sqlite.go,
    internal/queue/enqueue.go, processor.go, processor_adapt.go, recovery.go, retry.go). */
module TaskModel {
  import opened Wrappers

  // ---- Records -------------------------------------------------------------------------------

  datatype Kind =
    | ReviewPR | AnalyzeIssue | FixIssue | GenTests | GenDailyReport | RunE2E | TriageE2E | FixReview | CodeFromDoc

  function KindName(k: Kind): string {
    match k
    case ReviewPR => "review_pr"
    case AnalyzeIssue => "analyze_issue"
    case FixIssue => "fix_issue"
    case GenTests => "gen_tests"
    case GenDailyReport => "gen_daily_report"
    case RunE2E => "run_e2e"
    case TriageE2E => "triage_e2e"
    case FixReview => "fix_review"
    case CodeFromDoc => "code_from_doc"
  }

  datatype Status = Pending | Queued | Running | Succeeded | Failed | Retrying | Cancelled
  {
    predicate IsTerminal() { Succeeded? || Failed? || Cancelled? }
    /** Beyond pending and not yet at an end: somebody has to be going to work on it. */
    predicate IsUnderWay() { Queued? || Running? || Retrying? }
    predicate IsActive() { Pending? || IsUnderWay() }
  }

  /** What a task is about; `target` is the module, the branch, or empty. */
  datatype Subject = Subject(repo: string, target: string, pr: int, issue: int)

  const MAX_RETRY: nat := 3

  /** A fresh record id is the next row number. */
  datatype Task = Task(id: nat, kind: Kind, status: Status, asynqId: string, subject: Subject, deliveryId: string,
                       maxRetry: nat)

  function BuildAsynqTaskId(deliveryId: string, kind: Kind): string {
    if deliveryId != "" then deliveryId + [':'] + KindName(kind) else ""
  }

  function KeyOf(t: Task): string { BuildAsynqTaskId(t.deliveryId, t.kind) }

  lemma {:induction false} NamesHaveNoColon(k: Kind)
    ensures ':' !in KindName(k)
  {}

  lemma {:induction false} NamesDiffer(a: Kind, b: Kind)
    requires KindName(a) == KindName(b)
    ensures a == b
  {}

  lemma {:induction false} LastColon(d: string, n: string, e: string, m: string)
    requires ':' !in n && ':' !in m && d + [':'] + n == e + [':'] + m
    ensures d == e && n == m
  {
    var s := d + [':'] + n;
    assert s[|d|] == ':' && s[|e|] == ':';
    assert forall i :: |d| < i < |s| ==> s[i] == n[i - |d| - 1];
    assert forall i :: |e| < i < |s| ==> s[i] == m[i - |e| - 1];
    assert |d| == |e|;
    assert d == s[..|d|] == e;
    assert n == s[|d| + 1..] == m;
  }

  /** Different tasks never share a queue id, because no kind's name holds a colon. */
  lemma {:induction false} AsynqIdIsInjective(d: string, k: Kind, e: string, l: Kind)
    requires d != "" && e != ""
    ensures BuildAsynqTaskId(d, k) == BuildAsynqTaskId(e, l) <==> d == e && k == l
  {
    if BuildAsynqTaskId(d, k) == BuildAsynqTaskId(e, l) {
      NamesHaveNoColon(k);
      NamesHaveNoColon(l);
      LastColon(d, KindName(k), e, KindName(l));
      NamesDiffer(k, l);
    }
  }

  // ---- The store and the queue ---------------------------------------------------------------

  datatype Job = Job(deliveryId: string, kind: Kind)

  /** `queue` holds the live entries by their id.  `handlers` holds the entries being processed, each
      with the copy of the record its handler works on. */
  datatype Sys = Sys(tasks: seq<Task>, queue: map<string, Job>, handlers: map<string, Task>)

  function RowFor(tasks: seq<Task>, deliveryId: string, kind: Kind): (r: Option<Task>)
    ensures r == None <==> forall i :: 0 <= i < |tasks| ==>
      !(tasks[i].deliveryId == deliveryId && tasks[i].kind == kind)
    ensures r.Some? ==> r.value in tasks && r.value.deliveryId == deliveryId && r.value.kind == kind
  {
    if tasks == [] then None
    else if tasks[0].deliveryId == deliveryId && tasks[0].kind == kind then Some(tasks[0])
    else RowFor(tasks[1..], deliveryId, kind)
  }

  function FindByDeliveryId(s: Sys, deliveryId: string, kind: Kind): Option<Task> {
    if deliveryId == "" then None else RowFor(s.tasks, deliveryId, kind)
  }

  /** Rows in the order in which they were created. */
  function Select(tasks: seq<Task>, p: Task -> bool): (r: seq<Task>)
    ensures forall t :: t in r <==> t in tasks && p(t)
    ensures |r| <= |tasks|
  {
    if tasks == [] then []
    else Select(tasks[..|tasks| - 1], p) + if p(tasks[|tasks| - 1]) then [tasks[|tasks| - 1]] else []
  }

  /** None when the unique index on delivery id and kind refuses the row. */
  function CreateTask(s: Sys, t: Task): Option<Sys> {
    if FindByDeliveryId(s, t.deliveryId, t.kind).Some? then None else Some(s.(tasks := s.tasks + [t]))
  }

  /** The whole row is overwritten with the caller's copy. */
  function UpdateTask(s: Sys, t: Task): Sys {
    if t.id < |s.tasks| then s.(tasks := s.tasks[t.id := t]) else s
  }

  datatype Answer = Accepted | Conflict | Unreachable

  /** An enqueue conflicts exactly when its id is live. */
  function Enqueue(s: Sys, t: Task, works: bool): (Sys, Answer) {
    if !works then (s, Unreachable)
    else if KeyOf(t) in s.queue then (s, Conflict)
    else (s.(queue := s.queue[KeyOf(t) := Job(t.deliveryId, t.kind)]), Accepted)
  }

  // ---- Steps of the enqueue handler ----------------------------------------------------------

  function NewTask(s: Sys, kind: Kind, subject: Subject, deliveryId: string): Task {
    Task(|s.tasks|, kind, Pending, "", subject, deliveryId, MAX_RETRY)
  }

  /** The second half of enqueueTask: the record is already persisted; any error leaves it pending. */
  function EnqueueAndMark(s: Sys, t: Task, works: bool): Sys {
    var (s', answer) := Enqueue(s, t, works);
    if answer.Accepted? then UpdateTask(s', t.(status := Queued, asynqId := KeyOf(t))) else s'
  }

  /** Deleting fails for an entry that is not live or is being processed. */
  function Delete(s: Sys, asynqId: string, works: bool): Option<Sys> {
    if works && asynqId in s.queue && asynqId !in s.handlers then Some(s.(queue := s.queue - {asynqId})) else None
  }

  function CancelTask(s: Sys, t: Task, works: bool): (Sys, bool) {
    if t.asynqId != "" && (t.status.Pending? || t.status.Queued?) then
      match Delete(s, t.asynqId, works)
      case None => (s, false)
      case Some(s') => (UpdateTask(s', t.(status := Cancelled)), true)
    else if t.asynqId != "" && t.status.Running? && !works then (s, false)
    else (UpdateTask(s, t.(status := Cancelled)), true)
  }

  // ---- Steps of the processor ----------------------------------------------------------------

  /** The queue's record of an entry goes or stays when its handler returns. */
  function Leave(s: Sys, asynqId: string, kept: bool): Sys {
    s.(queue := if kept then s.queue else s.queue - {asynqId}, handlers := s.handlers - {asynqId})
  }

  /** The start of ProcessTask with its two short cuts; one handler at a time per entry. */
  function StartTask(s: Sys, asynqId: string, kept: bool): Sys {
    if asynqId !in s.queue || asynqId in s.handlers then s
    else
      var job := s.queue[asynqId];
      match FindByDeliveryId(s, job.deliveryId, job.kind)
      case None => s
      case Some(t) =>
        if t.status.Cancelled? || (t.status.Succeeded? && t.kind.FixReview?) then Leave(s, asynqId, kept)
        else
          var running := t.(status := Running);
          UpdateTask(s, running).(handlers := s.handlers[asynqId := running])
  }

  datatype Outcome = Success | Failure | Retry | Cancellation

  function StatusAfter(o: Outcome): Status {
    match o
    case Success => Succeeded
    case Failure => Failed
    case Retry => Retrying
    case Cancellation => Cancelled
  }

  /** The end of ProcessTask: the handler's own copy is written; a retry stays in the queue. */
  function FinishTask(s: Sys, asynqId: string, o: Outcome, kept: bool): Sys {
    if asynqId !in s.handlers then s
    else Leave(UpdateTask(s, s.handlers[asynqId].(status := StatusAfter(o))), asynqId, kept || o.Retry?)
  }

  // ---- Recovery and manual retry -------------------------------------------------------------

  type Attempts = map<nat, nat>

  function AttemptsOf(a: Attempts, id: nat): nat { if id in a then a[id] else 0 }

  function Requeue(s: Sys, attempts: Attempts, t: Task, works: bool): (Sys, Attempts) {
    if AttemptsOf(attempts, t.id) >= t.maxRetry then
      (UpdateTask(s, t.(status := Failed)), attempts - {t.id})
    else
      var (s', answer) := Enqueue(s, t, works);
      if answer.Unreachable? then (s', attempts)
      else
        (UpdateTask(s', t.(status := Queued, asynqId := KeyOf(t))), attempts[t.id := AttemptsOf(attempts, t.id) + 1])
  }

  const MAX_BATCH: nat := 100
  const MAX_LIMIT: nat := 1000

  function First<T>(s: seq<T>, n: nat): seq<T> { if |s| <= n then s else s[..n] }

  /** `aged` tells which records were created long enough ago. */
  function Waiting(aged: Task -> bool): Task -> bool { (t: Task) => t.status.Pending? && aged(t) }

  function ListOrphans(s: Sys, aged: Task -> bool): seq<Task> { First(Select(s.tasks, Waiting(aged)), MAX_LIMIT) }

  /** A recovery pass over a list that was read before; `works` tells which enqueues reach the queue. */
  function RequeueAll(s: Sys, attempts: Attempts, list: seq<Task>, works: Task -> bool): (Sys, Attempts) {
    if list == [] then (s, attempts)
    else
      var (s', a') := RequeueAll(s, attempts, list[..|list| - 1], works);
      Requeue(s', a', list[|list| - 1], works(list[|list| - 1]))
  }

  /** None when the task cannot be retried or the queue cannot be reached. */
  function RetryTask(s: Sys, t: Task, works: bool): Option<Sys> {
    if !t.status.Failed? && !t.status.Cancelled? then None
    else
      var (s', answer) := Enqueue(s, t, works);
      if answer.Unreachable? then None
      else Some(UpdateTask(s', t.(status := Queued, asynqId := KeyOf(t))))
  }
}
