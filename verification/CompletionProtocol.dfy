/**
 The completion protocol of src/vkexec/completion_waiter.cpp as an interleaved
 step system: client threads, shutdown, the one worker thread, callbacks that
 may enqueue again, and a GPU that retires work whenever it likes.

 Each action is one critical section or one call out of the worker; a run is
 any sequence of enabled actions.
 */
module CompletionProtocol {
  import opened Optional

  type JobId = nat
  type Handle = nat
  const NULL: Handle := 0

  /** One enqueue call. `destroySync` separates enqueue (owned sync objects) from enqueue_borrowed. */
  datatype Job = Job(id: JobId, semaphore: Handle, fence: Handle, hasStop: bool, notifies: bool,
                     destroySync: bool, stopSeen: bool)

  datatype Event =
    | Retired(id: JobId)
    | SemaphoreDestroyed(id: JobId, semaphore: Handle)
    | FenceDestroyed(id: JobId, fence: Handle)
    | Callback(id: JobId, failed: bool, stopped: bool)
    | StopSeen(id: JobId)

  /** A job being completed: by the worker, or by the client whose enqueue was rejected. */
  datatype Completion = Completion(job: Job, rejected: bool, failed: bool, progress: nat)

  /**
   Everything completing a job does, in order. A rejected borrowed job is
   called back without any wait; every other job with a fence waits first.
   */
  function Script(c: Completion): seq<Event> {
    var j := c.job;
    (if j.destroySync || (!c.rejected && j.fence != NULL) then [Retired(j.id)] else [])
    + (if j.destroySync && j.semaphore != NULL then [SemaphoreDestroyed(j.id, j.semaphore)] else [])
    + (if j.destroySync && j.fence != NULL then [FenceDestroyed(j.id, j.fence)] else [])
    + (if j.notifies then [Callback(j.id, c.failed, j.stopSeen)] else [])
  }

  /** Where the worker's loop stands, with the jobs it holds. */
  datatype Worker =
    | Waiting(active: seq<Job>)
    | Polling(active: seq<Job>, next: nat)
    | Choosing(active: seq<Job>)
    | Reaping(todo: seq<Job>, kept: seq<Job>)
    | FinishingAll(todo: seq<Job>, error: bool)
    | Exited

  datatype State = State(
    shuttingDown: bool,
    pending: seq<Job>,
    worker: Worker,
    busy: Option<JobId>,               // the job whose completion the worker is inside
    completing: map<JobId, Completion>,
    finished: map<JobId, Completion>,
    calls: map<JobId, Job>,            // every enqueue call ever made, as passed in
    log: seq<Event>,
    retired: set<JobId>,               // GPU: calls whose work has retired
    lost: bool,                        // GPU: device lost
    nested: seq<JobId>,                // rejected calls made inside the worker's callback, innermost last
    shutdowns: map<nat, ShutdownCall>) // every shutdown call ever made

  /** A shutdown call: past its critical section, or returned. It waits for the worker unless it found the flag set. */
  datatype ShutdownCall = Entered(foundSet: bool) | Returned(foundSet: bool)

  datatype FenceStatus = Signalled | NotReady | FenceError

  datatype Action =
    | Enqueue(job: Job)
    | EnqueueInside(job: Job)          // from the callback the worker is running
    | ShutdownEnter(caller: nat)
    | ShutdownReturn(caller: nat)
    | GpuRetire(id: JobId)
    | GpuLost
    | Take
    | Poll(requested: bool)
    | Choose(waitFailed: bool)
    | Reap(status: FenceStatus)
    | FinishNext
    | Advance(id: JobId, waitFailed: bool)
    | Return(id: JobId)

  function Initial(): State {
    State(false, [], Waiting([]), None, map[], map[], map[], [], {}, false, [], map[])
  }

  function WorkerJobs(w: Worker): seq<Job> {
    match w
    case Waiting(active) => active
    case Polling(active, _) => active
    case Choosing(active) => active
    case Reaping(todo, kept) => todo + kept
    case FinishingAll(todo, _) => todo
    case Exited => []
  }

  /** A completion has begun its callback, which has not returned. */
  predicate CallingBack(s: State, id: JobId) {
    id in s.completing && s.completing[id].job.notifies && s.completing[id].progress == |Script(s.completing[id])|
  }

  /** The worker is inside a callback: its job's, or that of a call made inside it. */
  predicate InCallback(s: State) {
    s.busy.Some? && CallingBack(s, if s.nested == [] then s.busy.value else s.nested[|s.nested| - 1])
  }

  predicate Enabled(s: State, a: Action) {
    match a
    case Enqueue(job) => job.id !in s.calls && !job.stopSeen
    case EnqueueInside(job) => job.id !in s.calls && !job.stopSeen && InCallback(s)
    case ShutdownEnter(k) => k !in s.shutdowns
    case ShutdownReturn(k) => k in s.shutdowns && s.shutdowns[k].Entered? && (s.shutdowns[k].foundSet || s.worker.Exited?)
    case GpuRetire(_) => true
    case GpuLost => true
    case Take => s.worker.Waiting? && (s.shuttingDown || s.pending != [] || s.worker.active != [])
    case Poll(_) => s.worker.Polling?
    case Choose(_) => s.worker.Choosing?
    case Reap(status) =>
      && s.worker.Reaping? && s.busy.None?
      && (status.Signalled? && s.worker.todo != [] ==> s.worker.todo[0].id in s.retired)
    case FinishNext => s.worker.FinishingAll? && s.busy.None?
    case Advance(id, _) =>
      && id in s.completing && s.completing[id].progress < |Script(s.completing[id])|
      && (Script(s.completing[id])[s.completing[id].progress].Retired? ==> id in s.retired || s.lost)
    case Return(id) =>
      && id in s.completing && s.completing[id].progress == |Script(s.completing[id])|
      && (s.busy == Some(id) || id in s.nested ==> Innermost(s, id))
  }

  /** No call made inside this one is still under way. */
  predicate Innermost(s: State, id: JobId) {
    if s.nested == [] then s.busy == Some(id) else s.nested[|s.nested| - 1] == id
  }

  /** The worker takes `job` out of its list and enters finish_job. */
  function StartFinish(s: State, job: Job, failed: bool, worker: Worker): State {
    s.(worker := worker, busy := Some(job.id), completing := s.completing[job.id := Completion(job, false, failed, 0)])
  }

  function Polled(job: Job, requested: bool): Job {
    if job.hasStop && !job.stopSeen && requested then job.(stopSeen := true) else job
  }

  /** enqueue: under the lock, accepted into pending or rejected because of shutdown. */
  function DoEnqueue(s: State, job: Job): State {
    var t := s.(calls := s.calls[job.id := job]);
    if !s.shuttingDown then t.(pending := s.pending + [job])
    else t.(completing := s.completing[job.id := Completion(job, true, true, 0)])
  }

  /** enqueue from the worker's own callback, which goes on only when the call has returned. */
  function DoEnqueueInside(s: State, job: Job): State {
    DoEnqueue(s, job).(nested := if s.shuttingDown then s.nested + [job.id] else s.nested)
  }

  /** The worker's critical section: take all of pending, or leave. */
  function DoTake(s: State): State
    requires s.worker.Waiting?
  {
    var active := s.worker.active + s.pending;
    s.(pending := [], worker := if s.shuttingDown && active == [] then Exited else Polling(active, 0))
  }

  function DoPoll(s: State, requested: bool): State
    requires s.worker.Polling?
  {
    var Polling(active, i) := s.worker;
    if i >= |active| then s.(worker := Choosing(active))
    else
      var job := Polled(active[i], requested);
      s.(worker := Polling(active[i := job], i + 1),
         log := if job.stopSeen && !active[i].stopSeen then s.log + [StopSeen(job.id)] else s.log)
  }

  /** No fence at all, a failed wait, or a wait that ended: which of the three completions comes next. */
  function DoChoose(s: State, waitFailed: bool): State
    requires s.worker.Choosing?
  {
    var active := s.worker.active;
    if forall k | 0 <= k < |active| :: active[k].fence == NULL then
      s.(worker := if active == [] then Waiting([]) else FinishingAll(active, waitFailed))
    else if waitFailed then s.(worker := FinishingAll(active, true))
    else s.(worker := Reaping(active, []))
  }

  function DoReap(s: State, status: FenceStatus): State
    requires s.worker.Reaping?
  {
    var Reaping(todo, kept) := s.worker;
    if todo == [] then s.(worker := Waiting(kept))
    else if todo[0].fence != NULL && status.NotReady? then s.(worker := Reaping(todo[1..], kept + [todo[0]]))
    else StartFinish(s, todo[0], todo[0].fence != NULL && status.FenceError?, Reaping(todo[1..], kept))
  }

  function DoFinishNext(s: State): State
    requires s.worker.FinishingAll?
  {
    var FinishingAll(todo, error) := s.worker;
    if todo == [] then s.(worker := Waiting([]))
    else StartFinish(s, todo[0], error, FinishingAll(todo[1..], error))
  }

  /** The next event of a completion's script; a failed wait adds an error when there is none. */
  function DoAdvance(s: State, id: JobId, waitFailed: bool): State
    requires id in s.completing && s.completing[id].progress < |Script(s.completing[id])|
  {
    var c := s.completing[id];
    var e := Script(c)[c.progress];
    s.(completing := s.completing[id := Advanced(c, e, waitFailed)], log := s.log + [e])
  }

  function Advanced(c: Completion, e: Event, waitFailed: bool): Completion {
    c.(failed := c.failed || (e.Retired? && waitFailed), progress := c.progress + 1)
  }

  function DoReturn(s: State, id: JobId): State
    requires id in s.completing
  {
    s.(completing := s.completing - {id}, finished := s.finished[id := s.completing[id]],
       busy := if s.busy == Some(id) then None else s.busy,
       nested := if s.nested != [] && s.nested[|s.nested| - 1] == id then s.nested[..|s.nested| - 1] else s.nested)
  }

  function Apply(s: State, a: Action): State
    requires Enabled(s, a)
  {
    match a
    case Enqueue(job) => DoEnqueue(s, job)
    case EnqueueInside(job) => DoEnqueueInside(s, job)
    case ShutdownEnter(k) => s.(shuttingDown := true, shutdowns := s.shutdowns[k := Entered(s.shuttingDown)])
    case ShutdownReturn(k) => s.(shutdowns := s.shutdowns[k := Returned(s.shutdowns[k].foundSet)])
    case GpuRetire(id) => s.(retired := s.retired + {id})
    case GpuLost => s.(lost := true)
    case Take => DoTake(s)
    case Poll(requested) => DoPoll(s, requested)
    case Choose(waitFailed) => DoChoose(s, waitFailed)
    case Reap(status) => DoReap(s, status)
    case FinishNext => DoFinishNext(s)
    case Advance(id, waitFailed) => DoAdvance(s, id, waitFailed)
    case Return(id) => DoReturn(s, id)
  }

  /** The actions lead, each enabled where it is taken, from the initial state to s. */
  ghost predicate Run(actions: seq<Action>, s: State)
    decreases |actions|, 1
  {
    if actions == [] then s == Initial() else exists before :: Extends(actions, before, s)
  }

  ghost predicate Extends(actions: seq<Action>, before: State, s: State)
    requires actions != []
    decreases |actions|, 0
  {
    var last := |actions| - 1;
    Run(actions[..last], before) && Enabled(before, actions[last]) && s == Apply(before, actions[last])
  }

  lemma RunExtends(actions: seq<Action>, before: State, a: Action)
    requires Run(actions, before) && Enabled(before, a)
    ensures Run(actions + [a], Apply(before, a))
  {
    assert (actions + [a])[..|actions|] == actions;
    assert Extends(actions + [a], before, Apply(before, a));
  }

  // ----------------------------------------------------------- invariant

  /** The completion events of one call, in log order. */
  function Project(log: seq<Event>, id: JobId): seq<Event> {
    if log == [] then []
    else
      var last := log[|log| - 1];
      Project(log[..|log| - 1], id) + if last.id == id && !last.StopSeen? then [last] else []
  }

  lemma ProjectAppend(log: seq<Event>, e: Event, id: JobId)
    ensures Project(log + [e], id) == Project(log, id) + if e.id == id && !e.StopSeen? then [e] else []
  {
    assert (log + [e])[..|log|] == log;
  }

  /** How often a call's job occurs in a list. */
  datatype Copies = Absent | One(job: Job) | Many

  function Join(a: Copies, b: Copies): Copies {
    if a.Absent? then b else if b.Absent? then a else Many
  }

  function Only(job: Job, id: JobId): Copies {
    if job.id == id then One(job) else Absent
  }

  function Held(q: seq<Job>, id: JobId): Copies {
    if q == [] then Absent else Join(Only(q[0], id), Held(q[1..], id))
  }

  lemma {:induction false} HeldConcat(a: seq<Job>, b: seq<Job>, id: JobId)
    ensures Held(a + b, id) == Join(Held(a, id), Held(b, id))
  {
    if a == [] {
      assert a + b == b;
    } else {
      HeldConcat(a[1..], b, id);
      assert (a + b)[1..] == a[1..] + b;
    }
  }

  /** Call id's job across pending and the worker's lists. */
  function Queued(s: State, id: JobId): Copies {
    Join(Held(s.pending, id), Held(WorkerJobs(s.worker), id))
  }

  /** Everything the state says about one call. */
  datatype View = View(
    call: Option<Job>,
    queued: Copies,
    completing: Option<Completion>,
    finished: Option<Completion>,
    busy: bool,
    events: seq<Event>,
    stopLogged: bool,
    retiredLogged: bool,
    retired: bool,
    shuttingDown: bool)

  function Lookup<K, V>(m: map<K, V>, k: K): Option<V> {
    if k in m then Some(m[k]) else None
  }

  function ViewOf(s: State, id: JobId): View {
    View(Lookup(s.calls, id), Queued(s, id), Lookup(s.completing, id), Lookup(s.finished, id), s.busy == Some(id),
         Project(s.log, id), StopSeen(id) in s.log, Retired(id) in s.log, id in s.retired || s.lost, s.shuttingDown)
  }

  /** The job is the one passed in, its stop flag set exactly when a poll has seen the stop. */
  predicate Carries(v: View, job: Job) {
    v.call == Some(job.(stopSeen := false)) && job.stopSeen == v.stopLogged
  }

  /** A call is in exactly one place: not made yet, queued, being completed, or finished. */
  predicate Placed(v: View, id: JobId) {
    && (v.retiredLogged ==> v.retired)
    && (if v.completing.Some? then
          var c := v.completing.value;
          && v.queued.Absent? && v.finished.None? && c.job.id == id && Carries(v, c.job)
          && (if c.rejected then c.failed && v.shuttingDown else v.busy)
        else if v.finished.Some? then
          var c := v.finished.value;
          && v.queued.Absent? && !v.busy && c.job.id == id && Carries(v, c.job)
          && (c.rejected ==> c.failed && v.shuttingDown)
        else
          && !v.busy
          && (if v.call.None? then v.queued.Absent? && !v.stopLogged
              else v.queued.One? && v.queued.job.id == id && Carries(v, v.queued.job)))
  }

  /** The log holds exactly the part of the call's script done so far. */
  predicate Logged(completing: Option<Completion>, finished: Option<Completion>, events: seq<Event>) {
    match (completing, finished)
    case (Some(c), _) => c.progress <= |Script(c)| && events == Script(c)[..c.progress]
    case (None, Some(c)) => events == Script(c)
    case (None, None) => events == []
  }

  predicate Good(v: View, id: JobId) {
    Placed(v, id) && Logged(v.completing, v.finished, v.events)
  }

  ghost predicate Control(s: State) {
    && (s.busy.Some? ==>
          && s.busy.value in s.completing && !s.completing[s.busy.value].rejected
          && (s.worker.Reaping? || s.worker.FinishingAll?))
    && (s.worker.Exited? ==> s.shuttingDown && s.pending == [])
  }

  /** Calls made inside the worker's callback: each but the innermost is in its own callback. */
  ghost predicate Nesting(s: State) {
    && (s.nested != [] ==> s.busy.Some? && CallingBack(s, s.busy.value))
    && (forall k | 0 <= k < |s.nested| :: NestedCall(s, k))
    && (forall i, j | 0 <= i < j < |s.nested| :: s.nested[i] != s.nested[j])
  }

  ghost predicate NestedCall(s: State, k: nat)
    requires k < |s.nested|
  {
    s.nested[k] in s.completing && s.completing[s.nested[k]].rejected && (k < |s.nested| - 1 ==> CallingBack(s, s.nested[k]))
  }

  /** Shutdown: who found the flag set has it set, and who did not returns when the worker has left. */
  ghost predicate Shutdowns(s: State) {
    forall k | k in s.shutdowns :: s.shuttingDown && (s.shutdowns[k] == Returned(false) ==> s.worker.Exited?)
  }

  ghost predicate Inv(s: State) {
    Control(s) && Nesting(s) && Shutdowns(s) && forall id :: Good(ViewOf(s, id), id)
  }

  // ------------------------------------------------------- preservation

  lemma EnqueueView(s: State, job: Job, id: JobId)
    requires job.id !in s.calls
    ensures var v, w := ViewOf(s, id), ViewOf(DoEnqueue(s, job), id);
            w == if id != job.id then v
                 else if s.shuttingDown then v.(call := Some(job), completing := Some(Completion(job, true, true, 0)))
                 else v.(call := Some(job), queued := Join(v.queued, One(job)))
  {
    HeldConcat(s.pending, [job], id);
  }

  lemma TakeView(s: State, id: JobId)
    requires s.worker.Waiting? && !Queued(s, id).Many?
    ensures ViewOf(DoTake(s), id) == ViewOf(s, id)
  {
    HeldConcat(s.worker.active, s.pending, id);
  }

  lemma HeldUpdate(q: seq<Job>, at: nat, job: Job, id: JobId)
    requires at < |q| && job.id == q[at].id
    ensures id != job.id ==> Held(q[at := job], id) == Held(q, id)
    ensures id == job.id && !Held(q, id).Many? ==> Held(q, id) == One(q[at]) && Held(q[at := job], id) == One(job)
  {
    assert q == q[..at] + ([q[at]] + q[at + 1..]);
    assert q[at := job] == q[..at] + ([job] + q[at + 1..]);
    HeldConcat(q[..at], [q[at]] + q[at + 1..], id);
    HeldConcat(q[..at], [job] + q[at + 1..], id);
  }

  lemma StopView(s: State, i: nat, job: Job, id: JobId)
    requires s.worker.Polling? && i < |s.worker.active| && !Queued(s, id).Many?
    requires job == s.worker.active[i].(stopSeen := true)
    ensures var v, active := ViewOf(s, id), s.worker.active;
            var w := ViewOf(s.(worker := Polling(active[i := job], i + 1), log := s.log + [StopSeen(job.id)]), id);
            if job.id == id then v.queued == One(active[i]) && w == v.(queued := One(job), stopLogged := true) else w == v
  {
    var active := s.worker.active;
    HeldUpdate(active, i, job, id);
    ProjectAppend(s.log, StopSeen(job.id), id);
    assert WorkerJobs(Polling(active[i := job], i + 1)) == active[i := job];
  }

  lemma PollView(s: State, requested: bool, id: JobId)
    requires s.worker.Polling? && !Queued(s, id).Many?
    ensures var v, w := ViewOf(s, id), ViewOf(DoPoll(s, requested), id);
            var Polling(active, i) := s.worker;
            if i < |active| && active[i].id == id && active[i].hasStop && !active[i].stopSeen && requested
            then v.queued == One(active[i]) && w == v.(queued := One(active[i].(stopSeen := true)), stopLogged := true)
            else w == v
  {
    var Polling(active, i) := s.worker;
    var t := DoPoll(s, requested);
    if i < |active| && Polled(active[i], requested) != active[i] {
      var job := Polled(active[i], requested);
      assert t == s.(worker := Polling(active[i := job], i + 1), log := s.log + [StopSeen(job.id)]);
      StopView(s, i, job, id);
    } else {
      assert WorkerJobs(t.worker) == active;
      assert t == s.(worker := t.worker);
      assert ViewOf(t, id) == ViewOf(s, id);
    }
  }

  /** The view after the worker has taken the queued job into finish_job. */
  function Started(v: View, failed: bool): View
    requires v.queued.One?
  {
    v.(queued := Absent, busy := true, completing := Some(Completion(v.queued.job, false, failed, 0)))
  }

  lemma HeldRotate(todo: seq<Job>, kept: seq<Job>, id: JobId)
    requires todo != []
    ensures Held(todo + kept, id) == Join(Only(todo[0], id), Held(todo[1..] + kept, id))
    ensures !Held(todo + kept, id).Many? ==> Held(todo[1..] + (kept + [todo[0]]), id) == Held(todo + kept, id)
  {
    assert (todo + kept)[1..] == todo[1..] + kept;
    assert todo[1..] + (kept + [todo[0]]) == (todo[1..] + kept) + [todo[0]];
    HeldConcat(todo[1..] + kept, [todo[0]], id);
  }

  predicate Reapable(job: Job, status: FenceStatus) {
    job.fence == NULL || !status.NotReady?
  }

  lemma ReapQueue(s: State, status: FenceStatus, id: JobId)
    requires s.worker.Reaping? && !Held(WorkerJobs(s.worker), id).Many?
    ensures var todo, q, r := s.worker.todo, Held(WorkerJobs(s.worker), id), Held(WorkerJobs(DoReap(s, status).worker), id);
            if todo != [] && Reapable(todo[0], status) then q == Join(Only(todo[0], id), r) else r == q
  {
    var Reaping(todo, kept) := s.worker;
    var after := WorkerJobs(DoReap(s, status).worker);
    if todo == [] {
      assert after == kept == todo + kept;
    } else {
      HeldRotate(todo, kept, id);
      assert after == if Reapable(todo[0], status) then todo[1..] + kept else todo[1..] + (kept + [todo[0]]);
    }
  }

  lemma ReapView(s: State, status: FenceStatus, id: JobId)
    requires s.worker.Reaping? && s.busy.None? && !Queued(s, id).Many?
    ensures var v, w, todo := ViewOf(s, id), ViewOf(DoReap(s, status), id), s.worker.todo;
            if todo != [] && todo[0].id == id && Reapable(todo[0], status)
            then v.queued == One(todo[0]) && w == Started(v, todo[0].fence != NULL && status.FenceError?)
            else w == v
  {
    var todo, t := s.worker.todo, DoReap(s, status);
    ReapQueue(s, status, id);
    if todo != [] && Reapable(todo[0], status) {
      assert t == StartFinish(s, todo[0], todo[0].fence != NULL && status.FenceError?, t.worker);
      StartView(s, todo[0], todo[0].fence != NULL && status.FenceError?, t.worker, id);
    } else {
      assert t == s.(worker := t.worker);
      assert ViewOf(t, id) == ViewOf(s, id);
    }
  }

  lemma StartView(s: State, job: Job, failed: bool, worker: Worker, id: JobId)
    requires s.busy.None? && !Queued(s, id).Many?
    requires Held(WorkerJobs(s.worker), id) == Join(Only(job, id), Held(WorkerJobs(worker), id))
    ensures var v, w := ViewOf(s, id), ViewOf(StartFinish(s, job, failed, worker), id);
            if job.id == id then v.queued == One(job) && w == Started(v, failed) else w == v
  {
  }

  lemma FinishNextView(s: State, id: JobId)
    requires s.worker.FinishingAll? && s.busy.None? && !Queued(s, id).Many?
    ensures var v, w, todo := ViewOf(s, id), ViewOf(DoFinishNext(s), id), s.worker.todo;
            if todo != [] && todo[0].id == id then v.queued == One(todo[0]) && w == Started(v, s.worker.error)
            else w == v
  {
    var FinishingAll(todo, error) := s.worker;
    if todo != [] {
      StartView(s, todo[0], error, FinishingAll(todo[1..], error), id);
    }
  }

  lemma ScriptAdvances(c: Completion, waitFailed: bool)
    requires c.progress < |Script(c)|
    ensures var e := Script(c)[c.progress];
            var next := Advanced(c, e, waitFailed);
            && e.id == c.job.id && !e.StopSeen?
            && next.progress <= |Script(next)| && Script(next)[..next.progress] == Script(c)[..c.progress] + [e]
  {
    var e := Script(c)[c.progress];
    OnlyCallbackTellsFailure(c, Advanced(c, e, waitFailed));
    assert Script(c)[..c.progress + 1] == Script(c)[..c.progress] + [e];
    hide Script;
    assert Script(Advanced(c, e, waitFailed))[..c.progress + 1] == Script(c)[..c.progress + 1];
  }

  /** Scripts that differ in failing alone are as long, retire first if at all, and differ in the callback at most. */
  lemma OnlyCallbackTellsFailure(c: Completion, d: Completion)
    requires d.job == c.job && d.rejected == c.rejected
    ensures |Script(d)| == |Script(c)| && (forall i | 0 <= i < |Script(c)| :: Script(c)[i].id == c.job.id && !Script(c)[i].StopSeen?)
    ensures forall i | 0 <= i < |Script(c)| ::
              && (Script(c)[i].Retired? ==> i == 0)
              && (i < |Script(c)| - 1 || d.failed == c.failed || Script(c)[i].Retired? ==> Script(d)[i] == Script(c)[i])
  {
  }

  lemma AdvanceView(s: State, at: JobId, waitFailed: bool, id: JobId)
    requires at in s.completing && s.completing[at].progress < |Script(s.completing[at])| && s.completing[at].job.id == at
    ensures var v, w := ViewOf(s, id), ViewOf(DoAdvance(s, at, waitFailed), id);
            var c := s.completing[at];
            var e := Script(c)[c.progress];
            w == if id != at then v
                 else v.(completing := Some(Advanced(c, e, waitFailed)), events := v.events + [e],
                         retiredLogged := v.retiredLogged || e.Retired?)
  {
    var c := s.completing[at];
    ScriptAdvances(c, waitFailed);
    ProjectAppend(s.log, Script(c)[c.progress], id);
  }

  lemma EnqueueKeeps(s: State, job: Job, id: JobId)
    requires job.id !in s.calls && !job.stopSeen && Good(ViewOf(s, id), id)
    ensures Good(ViewOf(DoEnqueue(s, job), id), id)
  {
    EnqueueView(s, job, id);
  }

  lemma EnqueueInsideKeeps(s: State, job: Job, id: JobId)
    requires job.id !in s.calls && !job.stopSeen && Good(ViewOf(s, id), id)
    ensures Good(ViewOf(DoEnqueueInside(s, job), id), id)
  {
    EnqueueKeeps(s, job, id);
    hide Good, DoEnqueue;
    assert ViewOf(DoEnqueueInside(s, job), id) == ViewOf(DoEnqueue(s, job), id);
  }

  lemma TakeKeeps(s: State, id: JobId)
    requires s.worker.Waiting? && Good(ViewOf(s, id), id)
    ensures Good(ViewOf(DoTake(s), id), id)
  {
    TakeView(s, id);
  }

  lemma PollKeeps(s: State, requested: bool, id: JobId)
    requires s.worker.Polling? && Good(ViewOf(s, id), id)
    ensures Good(ViewOf(DoPoll(s, requested), id), id)
  {
    PollView(s, requested, id);
  }

  lemma ReapKeeps(s: State, status: FenceStatus, id: JobId)
    requires s.worker.Reaping? && s.busy.None? && Good(ViewOf(s, id), id)
    ensures Good(ViewOf(DoReap(s, status), id), id)
  {
    ReapView(s, status, id);
  }

  lemma FinishNextKeeps(s: State, id: JobId)
    requires s.worker.FinishingAll? && s.busy.None? && Good(ViewOf(s, id), id)
    ensures Good(ViewOf(DoFinishNext(s), id), id)
  {
    FinishNextView(s, id);
  }

  lemma AdvanceKeeps(s: State, at: JobId, waitFailed: bool, id: JobId)
    requires Enabled(s, Advance(at, waitFailed)) && s.completing[at].job.id == at && Good(ViewOf(s, id), id)
    ensures Good(ViewOf(DoAdvance(s, at, waitFailed), id), id)
  {
    AdvanceView(s, at, waitFailed, id);
    ScriptAdvances(s.completing[at], waitFailed);
  }

  lemma ReturnKeeps(s: State, at: JobId, id: JobId)
    requires Enabled(s, Return(at)) && Good(ViewOf(s, id), id)
    ensures Good(ViewOf(DoReturn(s, at), id), id)
  {
  }

  lemma ChooseKeeps(s: State, waitFailed: bool, id: JobId)
    requires s.worker.Choosing? && Good(ViewOf(s, id), id)
    ensures Good(ViewOf(DoChoose(s, waitFailed), id), id)
  {
    var t := DoChoose(s, waitFailed);
    ChooseQueue(s, waitFailed);
    assert Queued(t, id) == Queued(s, id);
    assert ViewOf(t, id) == ViewOf(s, id);
  }

  lemma ChooseQueue(s: State, waitFailed: bool)
    requires s.worker.Choosing?
    ensures WorkerJobs(DoChoose(s, waitFailed).worker) == WorkerJobs(s.worker)
    ensures DoChoose(s, waitFailed) == s.(worker := DoChoose(s, waitFailed).worker)
  {
  }

  lemma SignalKeeps(s: State, t: State, id: JobId)
    requires Good(ViewOf(s, id), id)
    requires t == s.(shuttingDown := t.shuttingDown, retired := t.retired, lost := t.lost, shutdowns := t.shutdowns)
    requires (s.shuttingDown ==> t.shuttingDown) && s.retired <= t.retired && (s.lost ==> t.lost)
    ensures Good(ViewOf(t, id), id)
  {
  }

  lemma ActionKeepsGood(s: State, a: Action, id: JobId)
    requires Enabled(s, a) && Good(ViewOf(s, id), id)
    requires a.Advance? ==> s.completing[a.id].job.id == a.id
    ensures Good(ViewOf(Apply(s, a), id), id)
  {
    match a
    case Enqueue(job) => EnqueueKeeps(s, job, id);
    case Take => TakeKeeps(s, id);
    case Poll(requested) => PollKeeps(s, requested, id);
    case Reap(status) => ReapKeeps(s, status, id);
    case FinishNext => FinishNextKeeps(s, id);
    case Advance(at, waitFailed) => AdvanceKeeps(s, at, waitFailed, id);
    case Return(at) => ReturnKeeps(s, at, id);
    case Choose(waitFailed) => ChooseKeeps(s, waitFailed, id);
    case EnqueueInside(job) => EnqueueInsideKeeps(s, job, id);
    case ShutdownEnter(_) => SignalKeeps(s, Apply(s, a), id);
    case ShutdownReturn(_) => SignalKeeps(s, Apply(s, a), id);
    case GpuRetire(_) => SignalKeeps(s, Apply(s, a), id);
    case GpuLost => SignalKeeps(s, Apply(s, a), id);
  }

  predicate IsLoopStep(a: Action) {
    a.Take? || a.Poll? || a.Choose? || a.Reap? || a.FinishNext?
  }

  lemma LoopStepKeeps(s: State, a: Action)
    requires Enabled(s, a) && IsLoopStep(a) && Control(s) && Nesting(s) && Shutdowns(s)
    ensures Control(Apply(s, a)) && Nesting(Apply(s, a)) && Shutdowns(Apply(s, a))
  {
    hide Control, Nesting, Shutdowns, DoTake, DoPoll, DoChoose, DoReap, DoFinishNext;
    match a
    case Take => TakeKeepsControl(s);
    case Poll(requested) => PollKeepsControl(s, requested);
    case Choose(waitFailed) => ChooseKeepsControl(s, waitFailed);
    case Reap(status) => ReapKeepsControl(s, status);
    case FinishNext => FinishNextKeepsControl(s);
  }

  lemma TakeKeepsControl(s: State)
    requires s.worker.Waiting? && Control(s) && Nesting(s) && Shutdowns(s)
    ensures Control(DoTake(s)) && Nesting(DoTake(s)) && Shutdowns(DoTake(s))
  {
  }

  lemma PollKeepsControl(s: State, requested: bool)
    requires s.worker.Polling? && Control(s) && Nesting(s) && Shutdowns(s)
    ensures Control(DoPoll(s, requested)) && Nesting(DoPoll(s, requested)) && Shutdowns(DoPoll(s, requested))
  {
  }

  lemma ChooseKeepsControl(s: State, waitFailed: bool)
    requires s.worker.Choosing? && Control(s) && Nesting(s) && Shutdowns(s)
    ensures Control(DoChoose(s, waitFailed)) && Nesting(DoChoose(s, waitFailed)) && Shutdowns(DoChoose(s, waitFailed))
  {
  }

  lemma ReapKeepsControl(s: State, status: FenceStatus)
    requires s.worker.Reaping? && s.busy.None? && Control(s) && Nesting(s) && Shutdowns(s)
    ensures Control(DoReap(s, status)) && Nesting(DoReap(s, status)) && Shutdowns(DoReap(s, status))
  {
    hide Script;
  }

  lemma FinishNextKeepsControl(s: State)
    requires s.worker.FinishingAll? && s.busy.None? && Control(s) && Nesting(s) && Shutdowns(s)
    ensures Control(DoFinishNext(s)) && Nesting(DoFinishNext(s)) && Shutdowns(DoFinishNext(s))
  {
    hide Script;
  }

  lemma CallStepKeeps(s: State, a: Action)
    requires Enabled(s, a) && !IsLoopStep(a) && Control(s) && Shutdowns(s)
    requires s.busy.Some? ==> s.busy.value in s.calls
    ensures Control(Apply(s, a)) && Shutdowns(Apply(s, a))
  {
    hide Script, InCallback, Innermost;
  }

  lemma CallStepNesting(s: State, a: Action)
    requires Enabled(s, a) && !IsLoopStep(a) && Nesting(s)
    requires s.busy.Some? ==> s.busy.value in s.calls
    requires forall k | 0 <= k < |s.nested| :: s.nested[k] in s.calls && s.busy != Some(s.nested[k])
    ensures Nesting(Apply(s, a))
  {
    var t := Apply(s, a);
    forall k | 0 <= k < |t.nested|
      ensures NestedCall(t, k)
    {
      if k < |s.nested| { assert NestedCall(s, k); }
    }
  }

  lemma ActionKeeps(s: State, a: Action)
    requires Inv(s) && Enabled(s, a)
    ensures Inv(Apply(s, a))
  {
    if s.busy.Some? {
      assert Good(ViewOf(s, s.busy.value), s.busy.value);
    }
    forall k | 0 <= k < |s.nested|
      ensures s.nested[k] in s.calls && s.busy != Some(s.nested[k])
    {
      assert NestedCall(s, k) && Good(ViewOf(s, s.nested[k]), s.nested[k]);
    }
    if IsLoopStep(a) {
      LoopStepKeeps(s, a);
    } else {
      CallStepKeeps(s, a);
      CallStepNesting(s, a);
    }
    forall id: JobId
      ensures Good(ViewOf(Apply(s, a), id), id)
    {
      assert Good(ViewOf(s, id), id);
      if a.Advance? {
        assert Good(ViewOf(s, a.id), a.id);
      }
      ActionKeepsGood(s, a, id);
    }
  }

  lemma {:induction false} RunsKeepInvariant(actions: seq<Action>, s: State)
    requires Run(actions, s)
    ensures Inv(s)
    decreases |actions|
  {
    if actions != [] {
      var last := |actions| - 1;
      var before :| Extends(actions, before, s);
      RunsKeepInvariant(actions[..last], before);
      ActionKeeps(before, actions[last]);
    }
  }

  // ------------------------------------------- what every run guarantees

  function Callbacks(events: seq<Event>, id: JobId): nat {
    if events == [] then 0
    else
      var last := events[|events| - 1];
      Callbacks(events[..|events| - 1], id) + if last.Callback? && last.id == id then 1 else 0
  }

  lemma {:induction false} CallbacksOfProjection(log: seq<Event>, id: JobId)
    ensures Callbacks(Project(log, id), id) == Callbacks(log, id)
  {
    if log != [] {
      var last, rest := log[|log| - 1], Project(log[..|log| - 1], id);
      CallbacksOfProjection(log[..|log| - 1], id);
      if last.id == id && !last.StopSeen? {
        assert (rest + [last])[..|rest|] == rest;
      } else {
        assert rest + [] == rest;
      }
    }
  }

  lemma {:induction false} CallbackCounts(log: seq<Event>, e: Event)
    requires e.Callback? && e in log
    ensures Callbacks(log, e.id) > 0
  {
    var last := log[|log| - 1];
    if e != last { CallbackCounts(log[..|log| - 1], e); }
  }

  /** A script holds its callback at most once, and only as its last event. */
  lemma {:induction false} CallbacksOfScript(c: Completion, k: nat)
    requires k <= |Script(c)|
    ensures Callbacks(Script(c)[..k], c.job.id) == if c.job.notifies && k == |Script(c)| then 1 else 0
  {
    if k > 0 {
      CallbacksOfScript(c, k - 1);
      assert Script(c)[..k][..k - 1] == Script(c)[..k - 1];
    }
  }

  /** Whether call id has been called back yet: its completion has run to the end of its script. */
  predicate CalledBack(s: State, id: JobId) {
    id in s.finished || (id in s.completing && s.completing[id].progress == |Script(s.completing[id])|)
  }

  /** Every enqueue call, accepted or rejected, gets exactly one callback, and gets it by the time it is finished. */
  lemma ExactlyOneCallback(actions: seq<Action>, s: State, id: JobId)
    requires Run(actions, s) && id in s.calls && s.calls[id].notifies
    ensures Callbacks(s.log, id) == if CalledBack(s, id) then 1 else 0
  {
    RunsKeepInvariant(actions, s);
    assert Good(ViewOf(s, id), id);
    CallbacksOfProjection(s.log, id);
    if id in s.completing {
      CallbacksOfScript(s.completing[id], s.completing[id].progress);
    } else if id in s.finished {
      CallbacksOfScript(s.finished[id], |Script(s.finished[id])|);
      assert Script(s.finished[id])[..|Script(s.finished[id])|] == Script(s.finished[id]);
    }
  }

  /** No call is lost or duplicated: it is queued once, being completed, or finished, never two of these. */
  lemma ExactlyOnePlace(actions: seq<Action>, s: State, id: JobId)
    requires Run(actions, s)
    ensures id in s.calls ==>
              (Queued(s, id).One? && id !in s.completing && id !in s.finished)
              || (Queued(s, id).Absent? && (id in s.completing <==> id !in s.finished))
    ensures id !in s.calls ==> Queued(s, id).Absent? && id !in s.completing && id !in s.finished
  {
    RunsKeepInvariant(actions, s);
    assert Good(ViewOf(s, id), id);
  }

  /** The completion record of a call that has been called back. */
  function Record(s: State, id: JobId): Completion
    requires CalledBack(s, id)
  {
    if id in s.finished then s.finished[id] else s.completing[id]
  }

  /**
   The log of a called-back call is its whole script: retirement, destruction of
   each owned object once (borrowed ones never), and the callback last, reporting
   stopped exactly when some poll saw the stop, and failed whenever it was rejected.
   */
  lemma CompletionOrder(actions: seq<Action>, s: State, id: JobId)
    requires Run(actions, s) && CalledBack(s, id)
    ensures var c := Record(s, id);
            && id in s.calls && c.job.id == id && c.job == s.calls[id].(stopSeen := StopSeen(id) in s.log)
            && Project(s.log, id) == Script(c)
            && (c.rejected ==> c.failed && s.shuttingDown)
    ensures Retired(id) in s.log ==> id in s.retired || s.lost
  {
    RunsKeepInvariant(actions, s);
    assert Good(ViewOf(s, id), id);
    var c := Record(s, id);
    assert Script(c)[..|Script(c)|] == Script(c);
  }

  lemma {:induction false} ProjectionIsFromLog(log: seq<Event>, id: JobId, e: Event)
    requires e in Project(log, id)
    ensures e in log
  {
    var last := log[|log| - 1];
    if e != last {
      ProjectionIsFromLog(log[..|log| - 1], id, e);
    }
  }

  lemma {:induction false} LoggedInProjection(log: seq<Event>, e: Event)
    requires e in log && !e.StopSeen?
    ensures e in Project(log, e.id)
  {
    if e != log[|log| - 1] {
      LoggedInProjection(log[..|log| - 1], e);
    }
  }

  /**
   When is GPU retirement known before the callback? Exactly when the call owns
   its sync objects, or was accepted with a fence: a rejected borrowed call is
   called back without waiting for its fence.
   */
  lemma RetiredBeforeCallback(actions: seq<Action>, s: State, id: JobId)
    requires Run(actions, s) && id in s.calls && CalledBack(s, id)
    ensures Retired(id) in s.log <==>
            s.calls[id].destroySync || (!Record(s, id).rejected && s.calls[id].fence != NULL)
  {
    CompletionOrder(actions, s, id);
    RetiredInLog(s.log, Record(s, id));
  }

  lemma RetiredInLog(log: seq<Event>, c: Completion)
    requires Project(log, c.job.id) == Script(c)
    ensures Retired(c.job.id) in log <==> c.job.destroySync || (!c.rejected && c.job.fence != NULL)
  {
    RetiredInScript(c);
    ProjectionHolds(log, Retired(c.job.id));
  }

  lemma ProjectionHolds(log: seq<Event>, e: Event)
    requires !e.StopSeen?
    ensures e in log <==> e in Project(log, e.id)
  {
    if e in log {
      LoggedInProjection(log, e);
    }
    if e in Project(log, e.id) {
      ProjectionIsFromLog(log, e.id, e);
    }
  }

  lemma RetiredInScript(c: Completion)
    ensures Retired(c.job.id) in Script(c) <==> c.job.destroySync || (!c.rejected && c.job.fence != NULL)
  {
    if c.job.destroySync || (!c.rejected && c.job.fence != NULL) {
      assert Script(c)[0] == Retired(c.job.id);
    }
  }

  /** The failing case is reachable: a borrowed fence enqueued after shutdown is reported while its work is still running. */
  lemma RejectedBorrowedIsReportedEarly() returns (actions: seq<Action>, s: State)
    ensures Run(actions, s) && CalledBack(s, 1) && 1 !in s.retired && !s.lost
    ensures 1 in s.calls && s.calls[1].fence != NULL
  {
    var job := Job(1, NULL, 7, true, true, false, false);
    var s1 := Apply(Initial(), ShutdownEnter(0));
    var s2 := Apply(s1, Enqueue(job));
    s := Apply(s2, Advance(1, false));
    actions := [] + [ShutdownEnter(0)] + [Enqueue(job)] + [Advance(1, false)];
    RunExtends([], Initial(), ShutdownEnter(0));
    RunExtends([] + [ShutdownEnter(0)], s1, Enqueue(job));
    RunExtends([] + [ShutdownEnter(0)] + [Enqueue(job)], s2, Advance(1, false));
  }

  /** When the worker has left, every accepted call is finished and nothing is pending. */
  lemma ExitedMeansDrained(actions: seq<Action>, s: State, id: JobId)
    requires Run(actions, s) && s.worker.Exited? && id in s.calls
    ensures s.shuttingDown && s.pending == []
    ensures id in s.finished || (id in s.completing && s.completing[id].rejected)
  {
    RunsKeepInvariant(actions, s);
    assert Good(ViewOf(s, id), id);
  }

  // --------------------------------------------------- what a callback tells

  /** The state these actions lead to, if each is enabled where it is taken. */
  function StateAfter(actions: seq<Action>): Option<State> {
    if actions == [] then Some(Initial())
    else
      var last := |actions| - 1;
      var before := StateAfter(actions[..last]);
      if before.Some? && Enabled(before.value, actions[last]) then Some(Apply(before.value, actions[last])) else None
  }

  lemma {:induction false} RunIsStateAfter(actions: seq<Action>, s: State)
    requires Run(actions, s)
    ensures StateAfter(actions) == Some(s)
    decreases |actions|
  {
    if actions != [] {
      var last := |actions| - 1;
      var before :| Extends(actions, before, s);
      RunIsStateAfter(actions[..last], before);
    }
  }

  lemma {:induction false} StateAfterIsRun(actions: seq<Action>)
    requires StateAfter(actions).Some?
    ensures Run(actions, StateAfter(actions).value)
    decreases |actions|
  {
    if actions != [] {
      var last := |actions| - 1;
      StateAfterIsRun(actions[..last]);
      assert Extends(actions, StateAfter(actions[..last]).value, StateAfter(actions).value);
    }
  }

  /**
   What makes a call fail: it is rejected, the wait of its turn fails, its fence
   answers with an error, or the wait for its own retirement fails.
   */
  ghost predicate FailsCall(s: State, a: Action, id: JobId) {
    match a
    case Enqueue(job) => job.id == id && s.shuttingDown
    case EnqueueInside(job) => job.id == id && s.shuttingDown
    case Choose(waitFailed) => waitFailed && s.worker.Choosing? && exists k :: 0 <= k < |s.worker.active| && s.worker.active[k].id == id
    case Reap(status) => status.FenceError? && s.worker.Reaping? && s.worker.todo != [] && s.worker.todo[0].id == id && s.worker.todo[0].fence != NULL
    case Advance(at, waitFailed) => waitFailed && at == id && id in s.completing && WaitsNext(s.completing[id])
    case _ => false
  }

  /** The next thing its completion does is wait for the call's own work. */
  predicate WaitsNext(c: Completion) {
    c.progress == 0 && (c.job.destroySync || (!c.rejected && c.job.fence != NULL))
  }

  /** What stops a call: its turn's poll of its stop token finds the stop requested. */
  predicate StopsCall(s: State, a: Action, id: JobId) {
    a == Poll(true) && s.worker.Polling? && s.worker.next < |s.worker.active|
    && s.worker.active[s.worker.next].id == id && s.worker.active[s.worker.next].hasStop
  }

  ghost predicate FailedIn(actions: seq<Action>, id: JobId) {
    exists k :: 0 <= k < |actions| && FailedAt(actions, k, id)
  }

  ghost predicate FailedAt(actions: seq<Action>, k: nat, id: JobId)
    requires k < |actions|
  {
    StateAfter(actions[..k]).Some? && FailsCall(StateAfter(actions[..k]).value, actions[k], id)
  }

  ghost predicate StoppedIn(actions: seq<Action>, id: JobId) {
    exists k :: 0 <= k < |actions| && StoppedAt(actions, k, id)
  }

  ghost predicate StoppedAt(actions: seq<Action>, k: nat, id: JobId)
    requires k < |actions|
  {
    StateAfter(actions[..k]).Some? && StopsCall(StateAfter(actions[..k]).value, actions[k], id)
  }

  /** Whether the call will be, or was, reported as failed. */
  predicate Doomed(s: State, id: JobId) {
    if id in s.completing then s.completing[id].failed
    else if id in s.finished then s.finished[id].failed
    else s.worker.FinishingAll? && s.worker.error && !Held(s.worker.todo, id).Absent?
  }

  lemma {:induction false} HeldIsThere(q: seq<Job>, id: JobId)
    ensures !Held(q, id).Absent? <==> exists k :: 0 <= k < |q| && q[k].id == id
  {
    if q != [] {
      HeldIsThere(q[1..], id);
      assert forall k | 0 < k < |q| :: q[k] == q[1..][k - 1];
      assert forall k | 0 <= k < |q[1..]| :: q[1..][k] == q[k + 1];
    }
  }

  lemma EnqueueDooms(s: State, job: Job, id: JobId)
    requires job.id !in s.calls && Good(ViewOf(s, id), id) && Good(ViewOf(s, job.id), job.id)
    ensures Doomed(DoEnqueue(s, job), id) <==> Doomed(s, id) || (job.id == id && s.shuttingDown)
  {
  }

  lemma ChooseDooms(s: State, waitFailed: bool, id: JobId)
    requires s.worker.Choosing? && Good(ViewOf(s, id), id)
    ensures Doomed(DoChoose(s, waitFailed), id) <==> Doomed(s, id) || FailsCall(s, Choose(waitFailed), id)
  {
    var active := s.worker.active;
    HeldIsThere(active, id);
    ChosenQueue(s, waitFailed);
    ChooseQueue(s, waitFailed);
    hide Script, Project, DoChoose, Held, Carries, Logged;
  }

  lemma ChosenQueue(s: State, waitFailed: bool)
    requires s.worker.Choosing?
    ensures var active, w := s.worker.active, DoChoose(s, waitFailed).worker;
            if waitFailed && active != [] then w == FinishingAll(active, true) else w.FinishingAll? ==> !w.error
  {
  }

  lemma ReapDooms(s: State, status: FenceStatus, id: JobId)
    requires s.worker.Reaping? && s.busy.None? && Good(ViewOf(s, id), id)
    ensures Doomed(DoReap(s, status), id) <==> Doomed(s, id) || FailsCall(s, Reap(status), id)
  {
    ReapView(s, status, id);
    ReapGoesOn(s, status);
    hide DoReap, Script;
  }

  /** Reaping goes on, or the turn is over. */
  lemma ReapGoesOn(s: State, status: FenceStatus)
    requires s.worker.Reaping?
    ensures DoReap(s, status).worker.Reaping? || DoReap(s, status).worker.Waiting?
    ensures DoReap(s, status).log == s.log
  {
    var Reaping(todo, kept) := s.worker;
    if todo != [] { StartGoesOn(s, todo[0], todo[0].fence != NULL && status.FenceError?, Reaping(todo[1..], kept)); }
    hide StartFinish;
  }

  lemma StartGoesOn(s: State, job: Job, failed: bool, worker: Worker)
    ensures StartFinish(s, job, failed, worker).worker == worker && StartFinish(s, job, failed, worker).log == s.log
  {
  }

  lemma FinishNextDooms(s: State, id: JobId)
    requires s.worker.FinishingAll? && s.busy.None? && Good(ViewOf(s, id), id)
    ensures Doomed(DoFinishNext(s), id) <==> Doomed(s, id)
  {
    FinishNextView(s, id);
    var todo := s.worker.todo;
    hide Script;
    if todo != [] { assert Held(todo, id) == Join(Only(todo[0], id), Held(todo[1..], id)); }
  }

  lemma AdvanceDooms(s: State, at: JobId, waitFailed: bool, id: JobId)
    requires Enabled(s, Advance(at, waitFailed))
    ensures Doomed(DoAdvance(s, at, waitFailed), id) <==> Doomed(s, id) || FailsCall(s, Advance(at, waitFailed), id)
  {
    RetiredComesFirst(s.completing[at]);
    hide Script, WaitsNext;
  }

  lemma RetiredComesFirst(c: Completion)
    requires c.progress < |Script(c)|
    ensures Script(c)[c.progress].Retired? <==> WaitsNext(c)
  {
  }

  lemma ActionDooms(s: State, a: Action, id: JobId)
    requires Inv(s) && Enabled(s, a)
    ensures Doomed(Apply(s, a), id) <==> Doomed(s, id) || FailsCall(s, a, id)
  {
    assert Good(ViewOf(s, id), id);
    hide DoChoose, DoReap, DoFinishNext, DoPoll, DoTake, DoAdvance, DoEnqueue, DoReturn, Good, FailsCall, Doomed, Inv;
    match a
    case Enqueue(job) => CallDooms(s, a, job, id);
    case EnqueueInside(job) => CallDooms(s, a, job, id);
    case Choose(waitFailed) => ChooseDooms(s, waitFailed, id);
    case Reap(status) => ReapDooms(s, status, id);
    case FinishNext => FinishNextDooms(s, id); NothingFails(s, a, id);
    case Advance(at, waitFailed) => InvIsGood(s, at); AdvanceDooms(s, at, waitFailed, id);
    case _ => NothingFails(s, a, id); OtherActionDooms(s, a, id);
  }

  lemma InvIsGood(s: State, id: JobId)
    requires Inv(s)
    ensures Good(ViewOf(s, id), id)
  {
  }

  lemma CallDooms(s: State, a: Action, job: Job, id: JobId)
    requires Inv(s) && Enabled(s, a) && (a == Enqueue(job) || a == EnqueueInside(job))
    ensures Doomed(Apply(s, a), id) <==> Doomed(s, id) || FailsCall(s, a, id)
  {
    InvIsGood(s, id);
    InvIsGood(s, job.id);
    EnqueueDooms(s, job, id);
    hide DoEnqueue, Good;
  }

  lemma NothingFails(s: State, a: Action, id: JobId)
    requires !a.Enqueue? && !a.EnqueueInside? && !a.Choose? && !a.Reap? && !a.Advance?
    ensures !FailsCall(s, a, id)
  {
  }

  lemma OtherActionDooms(s: State, a: Action, id: JobId)
    requires Enabled(s, a) && Good(ViewOf(s, id), id)
    requires !a.Enqueue? && !a.EnqueueInside? && !a.Choose? && !a.Reap? && !a.Advance? && !a.FinishNext?
    ensures Doomed(Apply(s, a), id) <==> Doomed(s, id)
  {
    hide DoTake, DoPoll, DoReturn, Good, Script;
    match a
    case Take => TakeDooms(s, id);
    case Poll(requested) => PollDooms(s, requested, id);
    case Return(at) => ReturnDooms(s, at, id);
    case _ =>
  }

  lemma TakeDooms(s: State, id: JobId)
    requires s.worker.Waiting?
    ensures Doomed(DoTake(s), id) <==> Doomed(s, id)
  {
  }

  lemma PollDooms(s: State, requested: bool, id: JobId)
    requires s.worker.Polling?
    ensures Doomed(DoPoll(s, requested), id) <==> Doomed(s, id)
  {
  }

  lemma ReturnDooms(s: State, at: JobId, id: JobId)
    requires at in s.completing && Good(ViewOf(s, id), id)
    ensures Doomed(DoReturn(s, at), id) <==> Doomed(s, id)
  {
    hide Script;
  }

  lemma ActionStops(s: State, a: Action, id: JobId)
    requires Inv(s) && Enabled(s, a)
    ensures StopSeen(id) in Apply(s, a).log <==> StopSeen(id) in s.log || StopsCall(s, a, id)
  {
    InvIsGood(s, id);
    hide DoChoose, DoReap, DoFinishNext, DoPoll, DoTake, DoAdvance, DoEnqueue, DoReturn, Good, Inv;
    match a
    case Poll(requested) => PollStops(s, requested, id);
    case Advance(at, _) => AdvanceStopsNothing(s, a, id);
    case _ => OtherActionsLogNothing(s, a);
  }

  lemma PollStops(s: State, requested: bool, id: JobId)
    requires s.worker.Polling? && Good(ViewOf(s, id), id)
    ensures StopSeen(id) in DoPoll(s, requested).log <==> StopSeen(id) in s.log || StopsCall(s, Poll(requested), id)
  {
    PollView(s, requested, id);
    var Polling(active, i) := s.worker;
    if i < |active| && active[i].id == id {
      HeldUpdate(active, i, active[i], id);
    }
  }

  lemma AdvanceStopsNothing(s: State, a: Action, id: JobId)
    requires a.Advance? && Enabled(s, a)
    ensures StopSeen(id) in Apply(s, a).log <==> StopSeen(id) in s.log
  {
    OnlyCallbackTellsFailure(s.completing[a.id], s.completing[a.id]);
    hide Script;
  }

  lemma OtherActionsLogNothing(s: State, a: Action)
    requires Enabled(s, a) && !a.Poll? && !a.Advance?
    ensures Apply(s, a).log == s.log
  {
    hide Script, InCallback, Innermost, DoReap, DoFinishNext;
    match a
    case Reap(status) => ReapGoesOn(s, status);
    case FinishNext => FinishLogsNothing(s);
    case _ =>
  }

  lemma FinishLogsNothing(s: State)
    requires s.worker.FinishingAll?
    ensures DoFinishNext(s).log == s.log
  {
  }

  lemma {:induction false} RunsAccount(actions: seq<Action>, s: State, id: JobId)
    requires Run(actions, s)
    ensures Doomed(s, id) <==> FailedIn(actions, id)
    ensures StopSeen(id) in s.log <==> StoppedIn(actions, id)
    decreases |actions|
  {
    if actions != [] {
      var last := |actions| - 1;
      var before :| Extends(actions, before, s);
      var a := actions[last];
      RunsAccount(actions[..last], before, id);
      RunsKeepInvariant(actions[..last], before);
      RunIsStateAfter(actions[..last], before);
      ActionDooms(before, a, id);
      ActionStops(before, a, id);
      hide Inv, Doomed, FailsCall, StopsCall, Apply, Enabled;
      PrefixAccounts(actions, id);
      assert FailedAt(actions, last, id) == FailsCall(before, a, id);
      assert StoppedAt(actions, last, id) == StopsCall(before, a, id);
    }
  }

  /** What happened in a run happened in all but its last action, or in that. */
  lemma PrefixAccounts(actions: seq<Action>, id: JobId)
    requires actions != []
    ensures FailedIn(actions, id) <==> FailedIn(actions[..|actions| - 1], id) || FailedAt(actions, |actions| - 1, id)
    ensures StoppedIn(actions, id) <==> StoppedIn(actions[..|actions| - 1], id) || StoppedAt(actions, |actions| - 1, id)
  {
    var rest := actions[..|actions| - 1];
    forall k | 0 <= k < |rest|
      ensures FailedAt(rest, k, id) == FailedAt(actions, k, id) && StoppedAt(rest, k, id) == StoppedAt(actions, k, id)
    {
      assert rest[..k] == actions[..k] && rest[k] == actions[k];
      hide StateAfter, FailsCall, StopsCall;
    }
    hide FailedAt, StoppedAt;
  }

  /**
   What a callback says is what happened: failed exactly if the call was
   rejected, a wait of its turn, its fence or its own retirement failed; stopped
   exactly if a poll of its token found a stop.
   */
  lemma CallbackTells(actions: seq<Action>, s: State, id: JobId, failed: bool, stopped: bool)
    requires Run(actions, s) && Callback(id, failed, stopped) in s.log
    ensures failed <==> FailedIn(actions, id)
    ensures stopped <==> StoppedIn(actions, id)
  {
    RunsKeepInvariant(actions, s);
    RunsAccount(actions, s, id);
    LoggedInProjection(s.log, Callback(id, failed, stopped));
    InvIsGood(s, id);
    CallbackIsOfRecord(s, id, failed, stopped);
  }

  lemma CallbackIsOfRecord(s: State, id: JobId, failed: bool, stopped: bool)
    requires Good(ViewOf(s, id), id) && Callback(id, failed, stopped) in Project(s.log, id)
    ensures CalledBack(s, id) && Record(s, id).failed == failed && stopped == (StopSeen(id) in s.log)
    ensures Doomed(s, id) == failed
  {
    if id in s.completing {
      CallbackOfScript(s.completing[id], s.completing[id].progress, id, failed, stopped);
    } else {
      var c := s.finished[id];
      CallbackOfScript(c, |Script(c)|, id, failed, stopped);
      assert Script(c)[..|Script(c)|] == Script(c);
    }
  }

  lemma CallbackOfScript(c: Completion, n: nat, id: JobId, failed: bool, stopped: bool)
    requires n <= |Script(c)| && Callback(id, failed, stopped) in Script(c)[..n]
    ensures n == |Script(c)| && c.failed == failed && c.job.stopSeen == stopped
  {
  }

  /**
   What else happens for a call, once it has been called back: what it owns is
   destroyed once, and nothing else; before that its work has retired, and the
   callback comes last.
   */
  lemma OwnedAreDestroyed(actions: seq<Action>, s: State, id: JobId)
    requires Run(actions, s) && id in s.calls && CalledBack(s, id)
    ensures var events, call := Project(s.log, id), s.calls[id];
            && (forall i, j | 0 <= i < j < |events| :: events[i] != events[j])
            && (forall h :: SemaphoreDestroyed(id, h) in events <==> call.destroySync && h == call.semaphore != NULL)
            && (forall h :: FenceDestroyed(id, h) in events <==> call.destroySync && h == call.fence != NULL)
            && (forall i | 0 <= i < |events| && !events[i].Callback? :: events[0].Retired? && (i > 0 ==> !events[i].Retired?))
            && (forall i | 0 <= i < |events| && events[i].Callback? :: call.notifies && i == |events| - 1)
            && (call.notifies ==> events != [] && events[|events| - 1].Callback?)
  {
    CompletionOrder(actions, s, id);
    ScriptIs(Record(s, id), Project(s.log, id));
  }

  lemma ScriptIs(c: Completion, events: seq<Event>)
    requires events == Script(c)
    ensures forall i, j | 0 <= i < j < |events| :: events[i] != events[j]
    ensures forall h :: SemaphoreDestroyed(c.job.id, h) in events <==> c.job.destroySync && h == c.job.semaphore != NULL
    ensures forall h :: FenceDestroyed(c.job.id, h) in events <==> c.job.destroySync && h == c.job.fence != NULL
    ensures forall i | 0 <= i < |events| && !events[i].Callback? :: events[0].Retired? && (i > 0 ==> !events[i].Retired?)
    ensures forall i | 0 <= i < |events| && events[i].Callback? :: c.job.notifies && i == |events| - 1
    ensures c.job.notifies ==> events != [] && events[|events| - 1].Callback?
  {
  }
}
