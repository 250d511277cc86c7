/**
 After shutdown the completion waiter's worker leaves: a bound on its actions,
 that it is never stuck, and that it finishes jobs turn by turn.
 */
module CompletionTermination {
  import opened Optional
  import opened CompletionProtocol
  import opened CompletionShutdown

  /** Actions still needed to complete the jobs of a list once they are taken up. */
  function Work(q: seq<Job>): nat {
    if q == [] then 0 else |Script(Completion(q[0], false, false, 0))| + 2 + Work(q[1..])
  }

  lemma {:induction false} WorkConcat(a: seq<Job>, b: seq<Job>)
    ensures Work(a + b) == Work(a) + Work(b)
  {
    if a == [] {
      assert a + b == b;
    } else {
      WorkConcat(a[1..], b);
      assert (a + b)[1..] == a[1..] + b;
    }
  }

  lemma WorkUpdate(q: seq<Job>, at: nat, job: Job)
    requires at < |q| && job == q[at].(stopSeen := job.stopSeen)
    ensures Work(q[at := job]) == Work(q)
  {
    assert q == q[..at] + ([q[at]] + q[at + 1..]);
    assert q[at := job] == q[..at] + ([job] + q[at + 1..]);
    WorkConcat(q[..at], [q[at]] + q[at + 1..]);
    WorkConcat(q[..at], [job] + q[at + 1..]);
  }

  /** Cost of a loop iteration that starts with these jobs: take, a poll for each and one more, choose, and the closing step. */
  function Round(q: seq<Job>): nat {
    if q == [] then 0 else |q| + 4 + Work(q)
  }

  function LoopCost(w: Worker, pending: seq<Job>): nat {
    match w
    case Waiting(active) => Round(active + pending) + 1
    case Polling(active, i) => (if i <= |active| then |active| - i else 0) + 3 + Work(active) + Round(pending) + 1
    case Choosing(active) => 2 + Work(active) + Round(pending) + 1
    case Reaping(todo, kept) => 1 + Work(todo) + Round(kept + pending) + 1
    case FinishingAll(todo, _) => 1 + Work(todo) + Round(pending) + 1
    case Exited => 0
  }

  function CompletionCost(c: Completion): nat {
    if c.progress <= |Script(c)| then |Script(c)| - c.progress + 1 else 0
  }

  function CostAt(completing: map<JobId, Completion>, id: JobId): nat {
    if id in completing then CompletionCost(completing[id]) else 0
  }

  /** What the calls made inside the worker's callback still need. */
  function NestedCost(completing: map<JobId, Completion>, nested: seq<JobId>): nat {
    if nested == [] then 0
    else NestedCost(completing, nested[..|nested| - 1]) + CostAt(completing, nested[|nested| - 1])
  }

  /** An upper bound on the worker's actions before it leaves, if every fence it asks about answers and its callbacks enqueue nothing more. */
  function Cost(s: State): nat {
    LoopCost(s.worker, s.pending) + (if s.busy.Some? then CostAt(s.completing, s.busy.value) else 0) + NestedCost(s.completing, s.nested)
  }

  /** What the worker's thread does, calls made inside its callbacks included. */
  predicate IsWorkers(s: State, a: Action) {
    IsLoopStep(a) || ((a.Advance? || a.Return?) && (s.busy == Some(a.id) || a.id in s.nested))
  }

  /** The fence query is answered: a job without a fence needs none, and neither does the end of the list. */
  predicate Answered(s: State, a: Action) {
    a.Reap? && s.worker.Reaping? && s.worker.todo != [] && s.worker.todo[0].fence != NULL ==> !a.status.NotReady?
  }

  lemma {:induction false} NestedCostElsewhere(completing: map<JobId, Completion>, nested: seq<JobId>, more: map<JobId, Completion>)
    requires forall k | 0 <= k < |nested| :: CostAt(more, nested[k]) == CostAt(completing, nested[k])
    ensures NestedCost(more, nested) == NestedCost(completing, nested)
  {
    if nested != [] {
      NestedCostElsewhere(completing, nested[..|nested| - 1], more);
    }
  }

  lemma TakeCosts(s: State)
    requires s.shuttingDown && s.worker.Waiting? && s.busy.None? && s.nested == []
    ensures Cost(DoTake(s)) < Cost(s)
  {
  }

  lemma ChooseCosts(s: State, waitFailed: bool)
    requires s.worker.Choosing? && s.busy.None? && s.nested == []
    ensures Cost(DoChoose(s, waitFailed)) < Cost(s)
  {
    ChooseQueue(s, waitFailed);
    ChosenWorker(s, waitFailed);
    hide Script, Work, Round, DoChoose;
    assert [] + s.pending == s.pending;
  }

  lemma ChosenWorker(s: State, waitFailed: bool)
    requires s.worker.Choosing?
    ensures var active, w := s.worker.active, DoChoose(s, waitFailed).worker;
            w == Waiting([]) || w == FinishingAll(active, waitFailed) || w == Reaping(active, [])
  {
  }

  lemma PollCosts(s: State, requested: bool)
    requires s.worker.Polling? && s.busy.None? && s.nested == []
    ensures Cost(DoPoll(s, requested)) < Cost(s)
  {
    var Polling(active, i) := s.worker;
    if i < |active| {
      WorkUpdate(active, i, Polled(active[i], requested));
    }
    PollShape(s, requested);
    hide Script, Work, Round, Polled;
  }

  /** A job taken up costs what was set aside for it, and one action less. */
  lemma StartCosts(todo: seq<Job>, failed: bool)
    requires todo != []
    ensures CompletionCost(Completion(todo[0], false, failed, 0)) + 1 + Work(todo[1..]) == Work(todo)
  {
    OnlyCallbackTellsFailure(Completion(todo[0], false, false, 0), Completion(todo[0], false, failed, 0));
  }

  lemma FinishNextCosts(s: State)
    requires s.worker.FinishingAll? && s.busy.None? && s.nested == []
    ensures Cost(DoFinishNext(s)) < Cost(s)
  {
    var FinishingAll(todo, error) := s.worker;
    if todo != [] { StartCosts(todo, error); }
    hide Script, Work, CompletionCost;
    assert [] + s.pending == s.pending;
  }

  lemma ReapCosts(s: State, status: FenceStatus)
    requires s.worker.Reaping? && s.busy.None? && s.nested == [] && Answered(s, Reap(status))
    ensures Cost(DoReap(s, status)) < Cost(s)
  {
    var todo := s.worker.todo;
    if todo == [] {
      assert Work(todo) == 0;
    } else {
      StartCosts(todo, todo[0].fence != NULL && status.FenceError?);
    }
    hide Script, Work, CompletionCost, Round;
  }

  lemma AdvanceCosts(s: State, id: JobId, waitFailed: bool)
    requires Inv(s) && Enabled(s, Advance(id, waitFailed)) && (s.busy == Some(id) || id in s.nested)
    ensures Cost(DoAdvance(s, id, waitFailed)) < Cost(s)
  {
    var c, t := s.completing[id], DoAdvance(s, id, waitFailed);
    OnlyCallbackTellsFailure(c, t.completing[id]);
    OwnTurn(s, id);
    if s.nested == [] {
    } else {
      NestedCostElsewhere(s.completing, s.nested[..|s.nested| - 1], t.completing);
    }
  }

  /** Only the innermost call under way on the worker's thread can go on. */
  lemma OwnTurn(s: State, id: JobId)
    requires Inv(s) && (s.busy == Some(id) || id in s.nested)
    requires id in s.completing && (s.completing[id].progress < |Script(s.completing[id])| || Innermost(s, id))
    ensures Innermost(s, id) && (s.nested != [] ==> s.busy.Some? && s.busy.value != id)
    ensures forall k | 0 <= k < |s.nested| - 1 :: s.nested[k] != id
  {
    hide Script, ViewOf, Good;
    if id in s.nested {
      var k :| 0 <= k < |s.nested| && s.nested[k] == id;
      assert NestedCall(s, k);
    }
    if s.nested != [] {
      assert NestedCall(s, |s.nested| - 1);
    }
    forall m | 0 <= m < |s.nested| - 1
      ensures s.nested[m] != id
    {
      assert NestedCall(s, m);
    }
  }

  lemma ReturnCosts(s: State, id: JobId)
    requires Inv(s) && Enabled(s, Return(id)) && (s.busy == Some(id) || id in s.nested)
    ensures Cost(DoReturn(s, id)) < Cost(s)
  {
    var t := DoReturn(s, id);
    OwnTurn(s, id);
    if s.nested != [] {
      NestedCostElsewhere(s.completing, s.nested[..|s.nested| - 1], t.completing);
    }
  }

  lemma LoopStepIsIdle(s: State, a: Action)
    requires Inv(s) && Enabled(s, a) && IsLoopStep(a)
    ensures s.busy.None? && s.nested == []
  {
  }

  /** Every answered action of the worker after shutdown lowers the bound. */
  lemma AnsweredActionsDecrease(s: State, a: Action)
    requires Inv(s) && s.shuttingDown && Enabled(s, a) && IsWorkers(s, a) && Answered(s, a)
    ensures Cost(Apply(s, a)) < Cost(s)
  {
    if IsLoopStep(a) { LoopStepIsIdle(s, a); }
    hide Cost, Inv, DoTake, DoPoll, DoChoose, DoReap, DoFinishNext, DoAdvance, DoReturn;
    match a
    case Take => TakeCosts(s);
    case Poll(requested) => PollCosts(s, requested);
    case Choose(waitFailed) => ChooseCosts(s, waitFailed);
    case Reap(status) => ReapCosts(s, status);
    case FinishNext => FinishNextCosts(s);
    case Advance(id, waitFailed) => AdvanceCosts(s, id, waitFailed);
    case Return(id) => ReturnCosts(s, id);
  }

  /** What a call made inside the worker's callback adds. */
  function InsideCost(a: Action): nat {
    if a.EnqueueInside? then CompletionCost(Completion(a.job, true, true, 0)) else 0
  }

  /** Nothing a client, a late shutdown or the GPU does after shutdown raises it; a call from inside the callback adds what it takes. */
  lemma OtherActionsKeepCost(s: State, a: Action)
    requires Inv(s) && s.shuttingDown && Enabled(s, a) && !IsWorkers(s, a)
    ensures Cost(Apply(s, a)) == Cost(s) + InsideCost(a)
  {
    var t := Apply(s, a);
    OthersLeaveWorker(s, a);
    forall k | 0 <= k < |s.nested|
      ensures CostAt(t.completing, s.nested[k]) == CostAt(s.completing, s.nested[k])
    {
      assert NestedCall(s, k) && Good(ViewOf(s, s.nested[k]), s.nested[k]);
      OthersLeaveCall(s, a, s.nested[k]);
    }
    if s.busy.Some? {
      assert Good(ViewOf(s, s.busy.value), s.busy.value);
      OthersLeaveCall(s, a, s.busy.value);
    }
    NestedCostElsewhere(s.completing, s.nested, t.completing);
    if a.EnqueueInside? {
      assert t.nested[..|s.nested|] == s.nested && t.completing[a.job.id] == Completion(a.job, true, true, 0);
    }
    hide LoopCost, CompletionCost, Apply, Enabled, Inv, IsWorkers;
  }

  lemma OthersLeaveCall(s: State, a: Action, id: JobId)
    requires Enabled(s, a) && !IsWorkers(s, a) && id in s.calls && id in s.completing && (s.busy == Some(id) || id in s.nested)
    ensures id in Apply(s, a).completing && Apply(s, a).completing[id] == s.completing[id]
  {
    hide Script, CallingBack, InCallback, Innermost;
  }

  lemma OthersLeaveWorker(s: State, a: Action)
    requires Inv(s) && s.shuttingDown && Enabled(s, a) && !IsWorkers(s, a)
    ensures Apply(s, a).worker == s.worker && Apply(s, a).pending == s.pending && Apply(s, a).busy == s.busy
    ensures Apply(s, a).nested == if a.EnqueueInside? then s.nested + [a.job.id] else s.nested
  {
    hide Script, CallingBack, InCallback;
  }

  // -------------------------------------------------- what follows shutdown

  /** Fences answer truthfully: not ready is only said of work that has not retired. */
  predicate Truthful(s: State, a: Action) {
    a.Reap? && a.status.NotReady? && s.worker.Reaping? && s.worker.todo != [] && s.worker.todo[0].fence != NULL ==>
      s.worker.todo[0].id !in s.retired
  }

  /** The state after these actions, if each is enabled and truthful where it is taken. */
  function After(s: State, more: seq<Action>): Option<State>
    decreases |more|
  {
    if more == [] then Some(s)
    else if Enabled(s, more[0]) && Truthful(s, more[0]) then After(Apply(s, more[0]), more[1..])
    else None
  }

  lemma {:induction false} RunGoesOn(actions: seq<Action>, s: State, more: seq<Action>)
    requires Run(actions, s) && After(s, more).Some?
    ensures Run(actions + more, After(s, more).value)
    decreases |more|
  {
    if more == [] {
      assert actions + more == actions;
    } else {
      RunExtends(actions, s, more[0]);
      RunGoesOn(actions + [more[0]], Apply(s, more[0]), more[1..]);
      assert actions + [more[0]] + more[1..] == actions + more;
    }
  }

  /** A call the worker's thread has still to complete: an accepted one, or one made inside its callback. */
  predicate Unfinished(s: State, id: JobId) {
    id in s.calls && id !in s.finished && (id in s.completing && s.completing[id].rejected ==> id in s.nested)
  }

  /** Completing it waits for the device. */
  predicate Waits(s: State, id: JobId)
    requires id in s.calls
  {
    s.calls[id].destroySync || (s.calls[id].fence != NULL && !(id in s.completing && s.completing[id].rejected))
  }

  /** All the work the worker's thread will wait for has retired. */
  ghost predicate Settled(s: State) {
    forall id | Unfinished(s, id) && Waits(s, id) :: id in s.retired
  }

  lemma SettledStays(s: State, a: Action)
    requires Inv(s) && Enabled(s, a) && IsWorkers(s, a) && Settled(s)
    ensures Settled(Apply(s, a))
  {
    var t := Apply(s, a);
    forall id | Unfinished(t, id) && Waits(t, id)
      ensures id in t.retired
    {
      WorkersFrame(s, a, id);
    }
    hide Apply, Enabled;
  }

  lemma WorkersFrame(s: State, a: Action, id: JobId)
    requires Inv(s) && Enabled(s, a) && IsWorkers(s, a)
    ensures var t := Apply(s, a);
            t.retired == s.retired && t.calls == s.calls && (Unfinished(t, id) && Waits(t, id) ==> Unfinished(s, id) && Waits(s, id))
  {
    hide DoTake, DoPoll, DoChoose, DoReap, DoFinishNext, DoAdvance, DoReturn, Inv, Unfinished, Waits;
    match a
    case Take => TakeFrame(s, id);
    case Poll(requested) => PollFrame(s, requested, id);
    case Choose(waitFailed) => ChooseFrame(s, waitFailed, id);
    case Reap(status) => ReapFrame(s, status, id);
    case FinishNext => FinishNextFrame(s, id);
    case Advance(at, waitFailed) => AdvanceFrame(s, at, waitFailed, id);
    case Return(at) => ReturnFrame(s, at, id);
  }

  lemma TakeFrame(s: State, id: JobId)
    requires s.worker.Waiting?
    ensures var t := DoTake(s);
            t.retired == s.retired && t.calls == s.calls && (Unfinished(t, id) && Waits(t, id) ==> Unfinished(s, id) && Waits(s, id))
  {
  }

  lemma PollFrame(s: State, requested: bool, id: JobId)
    requires s.worker.Polling?
    ensures var t := DoPoll(s, requested);
            t.retired == s.retired && t.calls == s.calls && (Unfinished(t, id) && Waits(t, id) ==> Unfinished(s, id) && Waits(s, id))
  {
    PollShape(s, requested);
    hide DoPoll;
  }

  lemma ChooseFrame(s: State, waitFailed: bool, id: JobId)
    requires s.worker.Choosing?
    ensures var t := DoChoose(s, waitFailed);
            t.retired == s.retired && t.calls == s.calls && (Unfinished(t, id) && Waits(t, id) ==> Unfinished(s, id) && Waits(s, id))
  {
  }

  lemma StartFrame(s: State, job: Job, failed: bool, worker: Worker, id: JobId)
    requires Inv(s) && job in WorkerJobs(s.worker) && s.busy.None?
    ensures var t := StartFinish(s, job, failed, worker);
            Unfinished(t, id) && Waits(t, id) ==> Unfinished(s, id) && Waits(s, id)
  {
    QueuedIsAccepted(s, job);
    assert Good(ViewOf(s, job.id), job.id);
  }

  lemma ReapFrame(s: State, status: FenceStatus, id: JobId)
    requires Inv(s) && Enabled(s, Reap(status))
    ensures var t := DoReap(s, status);
            t.retired == s.retired && t.calls == s.calls && (Unfinished(t, id) && Waits(t, id) ==> Unfinished(s, id) && Waits(s, id))
  {
    var Reaping(todo, kept) := s.worker;
    if todo != [] && !(todo[0].fence != NULL && status.NotReady?) {
      assert todo[0] in WorkerJobs(s.worker) by { assert (todo + kept)[0] == todo[0]; }
      StartFrame(s, todo[0], todo[0].fence != NULL && status.FenceError?, Reaping(todo[1..], kept), id);
    }
    hide Inv, Script;
  }

  lemma FinishNextFrame(s: State, id: JobId)
    requires Inv(s) && Enabled(s, FinishNext)
    ensures var t := DoFinishNext(s);
            t.retired == s.retired && t.calls == s.calls && (Unfinished(t, id) && Waits(t, id) ==> Unfinished(s, id) && Waits(s, id))
  {
    var FinishingAll(todo, error) := s.worker;
    if todo != [] {
      StartFrame(s, todo[0], error, FinishingAll(todo[1..], error), id);
    }
    hide Inv, Script;
  }

  lemma AdvanceFrame(s: State, at: JobId, waitFailed: bool, id: JobId)
    requires Enabled(s, Advance(at, waitFailed))
    ensures var t := DoAdvance(s, at, waitFailed);
            t.retired == s.retired && t.calls == s.calls && (Unfinished(t, id) && Waits(t, id) ==> Unfinished(s, id) && Waits(s, id))
  {
    hide Script;
  }

  lemma ReturnFrame(s: State, at: JobId, id: JobId)
    requires Enabled(s, Return(at)) && (s.busy == Some(at) || at in s.nested)
    ensures var t := DoReturn(s, at);
            t.retired == s.retired && t.calls == s.calls && (Unfinished(t, id) && Waits(t, id) ==> Unfinished(s, id) && Waits(s, id))
  {
    hide Script;
    var t := DoReturn(s, at);
    assert forall n | n in t.nested :: n in s.nested;
  }

  /** After shutdown, with the work it waits for retired, the worker always has an answered action to take until it has left. */
  lemma WorkerNeverStuck(s: State) returns (a: Action)
    requires Inv(s) && s.shuttingDown && !s.worker.Exited? && Settled(s)
    ensures Enabled(s, a) && IsWorkers(s, a) && Truthful(s, a) && Answered(s, a)
  {
    if s.busy.Some? {
      a := CallNeverStuck(s);
    } else {
      match s.worker
      case Waiting(_) => a := Take;
      case Polling(_, _) => a := Poll(false);
      case Choosing(_) => a := Choose(false);
      case Reaping(todo, kept) =>
        if todo == [] || todo[0].fence == NULL {
          a := Reap(NotReady);
        } else {
          a := Reap(Signalled);
          assert todo[0] in WorkerJobs(s.worker) by { assert (todo + kept)[0] == todo[0]; }
          QueuedIsAccepted(s, todo[0]);
          assert Good(ViewOf(s, todo[0].id), todo[0].id);
        }
      case FinishingAll(_, _) => a := FinishNext;
    }
  }

  /** The innermost call under way goes on, or returns. */
  lemma CallNeverStuck(s: State) returns (a: Action)
    requires Inv(s) && Settled(s) && s.busy.Some?
    ensures Enabled(s, a) && IsWorkers(s, a) && Truthful(s, a) && Answered(s, a)
  {
    var id := if s.nested == [] then s.busy.value else s.nested[|s.nested| - 1];
    if s.nested != [] { assert NestedCall(s, |s.nested| - 1); }
    assert Good(ViewOf(s, id), id);
    if s.completing[id].progress == |Script(s.completing[id])| {
      a := Return(id);
    } else {
      a := Advance(id, false);
      RetiredInScript(s.completing[id]);
    }
  }

  /** From any moment after shutdown, once the work it waits for has retired, the worker can leave within its bound. */
  lemma WorkerCanLeave(s: State) returns (more: seq<Action>)
    requires Inv(s) && s.shuttingDown && Settled(s)
    ensures After(s, more).Some? && After(s, more).value.worker.Exited? && |more| <= Cost(s)
    decreases Cost(s)
  {
    if s.worker.Exited? {
      more := [];
    } else {
      var a := WorkerNeverStuck(s);
      AnsweredActionsDecrease(s, a);
      ActionKeeps(s, a);
      SettledStays(s, a);
      ShutdownLasts(s, a);
      var rest := WorkerCanLeave(Apply(s, a));
      more := [a] + rest;
      assert more[1..] == rest;
      hide Cost, Inv, Apply, Enabled, Settled;
    }
  }

  lemma ShutdownLasts(s: State, a: Action)
    requires Enabled(s, a) && s.shuttingDown
    ensures Apply(s, a).shuttingDown && s.retired <= Apply(s, a).retired
  {
    hide DoTake, DoPoll, DoChoose, DoReap, DoFinishNext, DoAdvance, DoReturn, DoEnqueue;
    match a
    case Enqueue(job) => EnqueueSignals(s, job);
    case EnqueueInside(job) => EnqueueSignals(s, job);
    case Take => TakeSignals(s);
    case Poll(requested) => PollSignals(s, requested);
    case Choose(waitFailed) => ChooseSignals(s, waitFailed);
    case Reap(status) => ReapSignals(s, status);
    case FinishNext => FinishNextSignals(s);
    case Advance(at, waitFailed) => AdvanceSignals(s, at, waitFailed);
    case Return(at) => ReturnSignals(s, at);
    case _ =>
  }

  lemma PollShape(s: State, requested: bool)
    requires s.worker.Polling?
    ensures DoPoll(s, requested) == s.(worker := DoPoll(s, requested).worker, log := DoPoll(s, requested).log)
  {
    var Polling(active, i) := s.worker;
    if i < |active| {
      hide Polled;
    }
  }

  lemma ReapShape(s: State, status: FenceStatus)
    requires s.worker.Reaping?
    ensures var t := DoReap(s, status);
            t == s.(worker := t.worker, busy := t.busy, completing := t.completing) && (Starts(s, Reap(status)) ==> t.busy.Some?)
            && (!Starts(s, Reap(status)) ==> t.busy == s.busy)
  {
    var Reaping(todo, kept) := s.worker;
    if todo == [] {
    } else if todo[0].fence != NULL && status.NotReady? {
    } else {
      hide StartFinish;
      StartShape(s, todo[0], todo[0].fence != NULL && status.FenceError?, Reaping(todo[1..], kept));
    }
  }

  lemma StartShape(s: State, job: Job, failed: bool, worker: Worker)
    ensures var t := StartFinish(s, job, failed, worker);
            t == s.(worker := worker, busy := Some(job.id), completing := t.completing)
  {
  }

  lemma EnqueueSignals(s: State, job: Job)
    ensures DoEnqueue(s, job).shuttingDown == s.shuttingDown && DoEnqueue(s, job).retired == s.retired
  {
  }

  lemma TakeSignals(s: State)
    requires s.worker.Waiting?
    ensures DoTake(s).shuttingDown == s.shuttingDown && DoTake(s).retired == s.retired
  {
  }

  lemma PollSignals(s: State, requested: bool)
    requires s.worker.Polling?
    ensures DoPoll(s, requested).shuttingDown == s.shuttingDown && DoPoll(s, requested).retired == s.retired
  {
    PollShape(s, requested);
    hide DoPoll;
  }

  lemma ChooseSignals(s: State, waitFailed: bool)
    requires s.worker.Choosing?
    ensures DoChoose(s, waitFailed).shuttingDown == s.shuttingDown && DoChoose(s, waitFailed).retired == s.retired
  {
  }

  lemma ReapSignals(s: State, status: FenceStatus)
    requires s.worker.Reaping?
    ensures DoReap(s, status).shuttingDown == s.shuttingDown && DoReap(s, status).retired == s.retired
  {
    ReapShape(s, status);
    hide DoReap;
  }

  lemma FinishNextSignals(s: State)
    requires s.worker.FinishingAll?
    ensures DoFinishNext(s).shuttingDown == s.shuttingDown && DoFinishNext(s).retired == s.retired
  {
  }

  lemma AdvanceSignals(s: State, at: JobId, waitFailed: bool)
    requires at in s.completing && s.completing[at].progress < |Script(s.completing[at])|
    ensures DoAdvance(s, at, waitFailed).shuttingDown == s.shuttingDown && DoAdvance(s, at, waitFailed).retired == s.retired
  {
    hide Script;
  }

  lemma ReturnSignals(s: State, at: JobId)
    requires at in s.completing
    ensures DoReturn(s, at).shuttingDown == s.shuttingDown && DoReturn(s, at).retired == s.retired
  {
  }

  /** Jobs not yet taken up. */
  function Unstarted(s: State): nat {
    |s.pending| + |WorkerJobs(s.worker)|
  }

  /** Jobs not yet finished. */
  function Left(s: State): nat {
    Unstarted(s) + if s.busy.Some? then 1 else 0
  }

  /** The worker takes a job up to finish it. */
  predicate Starts(s: State, a: Action) {
    || (a.Reap? && s.worker.Reaping? && s.worker.todo != [] && (s.worker.todo[0].fence == NULL || !a.status.NotReady?))
    || (a.FinishNext? && s.worker.FinishingAll? && s.worker.todo != [])
  }

  predicate JobIn(s: State, job: Job) {
    job in s.pending || job in WorkerJobs(s.worker)
  }

  /** What is asked of the fences in the worker's hands: their work has retired. */
  ghost predicate JobsRetired(s: State) {
    forall job | JobIn(s, job) && job.fence != NULL :: job.id in s.retired
  }

  lemma SettledJobs(s: State)
    requires Inv(s) && Settled(s)
    ensures JobsRetired(s)
  {
    forall job | JobIn(s, job) && job.fence != NULL
      ensures job.id in s.retired
    {
      QueuedIsAccepted(s, job);
      assert Good(ViewOf(s, job.id), job.id);
    }
  }

  /** How many of these actions are the worker's. */
  function WorkersActions(s: State, more: seq<Action>): nat
    decreases |more|
  {
    if more == [] || !Enabled(s, more[0]) then 0
    else (if IsWorkers(s, more[0]) then 1 else 0) + WorkersActions(Apply(s, more[0]), more[1..])
  }

  /** What the calls made inside its callbacks meanwhile add. */
  function InsideCosts(more: seq<Action>): nat {
    if more == [] then 0 else InsideCost(more[0]) + InsideCosts(more[1..])
  }

  lemma JobsStayRetired(s: State, a: Action)
    requires Inv(s) && s.shuttingDown && Enabled(s, a) && JobsRetired(s)
    ensures JobsRetired(Apply(s, a))
  {
    ShutdownLasts(s, a);
    ListsShrink(s, a);
    hide Apply, Enabled, Inv, JobIn;
  }

  /** The same job, whatever its stop flag. */
  predicate WasIn(s: State, job: Job) {
    JobIn(s, job.(stopSeen := false)) || JobIn(s, job.(stopSeen := true))
  }

  ghost predicate Shrunk(s: State, t: State, started: nat) {
    Unstarted(t) + started == Unstarted(s) && forall job | JobIn(t, job) :: WasIn(s, job)
  }

  /** After shutdown jobs only leave the worker's lists. */
  lemma ListsShrink(s: State, a: Action)
    requires Inv(s) && s.shuttingDown && Enabled(s, a)
    ensures Shrunk(s, Apply(s, a), if Starts(s, a) then 1 else 0)
  {
    hide DoTake, DoPoll, DoChoose, DoReap, DoFinishNext, DoAdvance, DoReturn, DoEnqueue, Shrunk;
    match a
    case Take => TakeShrinks(s);
    case Poll(requested) => PollShrinks(s, requested);
    case Choose(waitFailed) => ChooseQueue(s, waitFailed); SameLists(s, Apply(s, a));
    case Reap(status) => ReapShrinks(s, status);
    case FinishNext => FinishNextShrinks(s);
    case Advance(at, waitFailed) => AdvanceLeavesLists(s, at, waitFailed); SameLists(s, Apply(s, a));
    case Return(at) => ReturnLeavesLists(s, at); SameLists(s, Apply(s, a));
    case _ => OthersLeaveWorker(s, a); SameLists(s, Apply(s, a));
  }

  lemma SameLists(s: State, t: State)
    requires t.pending == s.pending && WorkerJobs(t.worker) == WorkerJobs(s.worker)
    ensures Shrunk(s, t, 0)
  {
    forall job | JobIn(t, job)
      ensures WasIn(s, job)
    {
      assert job == job.(stopSeen := job.stopSeen);
    }
  }

  lemma TakeShrinks(s: State)
    requires s.worker.Waiting?
    ensures Shrunk(s, DoTake(s), 0)
  {
    var t := DoTake(s);
    assert WorkerJobs(t.worker) == s.worker.active + s.pending;
    forall job | JobIn(t, job)
      ensures WasIn(s, job)
    {
      assert job == job.(stopSeen := job.stopSeen);
    }
  }

  lemma PollShrinks(s: State, requested: bool)
    requires s.worker.Polling?
    ensures Shrunk(s, DoPoll(s, requested), 0)
  {
    var Polling(active, i) := s.worker;
    var t := DoPoll(s, requested);
    forall job | JobIn(t, job)
      ensures WasIn(s, job)
    {
      assert job == job.(stopSeen := job.stopSeen);
      if i < |active| && job == Polled(active[i], requested) {
        assert active[i] in WorkerJobs(s.worker) && active[i] == job.(stopSeen := active[i].stopSeen);
      }
    }
  }

  lemma ReapShrinks(s: State, status: FenceStatus)
    requires s.worker.Reaping?
    ensures Shrunk(s, DoReap(s, status), if Starts(s, Reap(status)) then 1 else 0)
  {
    var t := DoReap(s, status);
    ReapShape(s, status);
    ReapLists(s, status);
    hide DoReap;
    forall job | JobIn(t, job)
      ensures WasIn(s, job)
    {
      assert job == job.(stopSeen := job.stopSeen);
    }
  }

  lemma ReapLists(s: State, status: FenceStatus)
    requires s.worker.Reaping?
    ensures var jobs := WorkerJobs(DoReap(s, status).worker);
            && |jobs| + (if Starts(s, Reap(status)) then 1 else 0) == |WorkerJobs(s.worker)|
            && forall job | job in jobs :: job in WorkerJobs(s.worker)
  {
    var Reaping(todo, kept) := s.worker;
    if todo != [] && !(todo[0].fence != NULL && status.NotReady?) {
      hide StartFinish;
      StartShape(s, todo[0], todo[0].fence != NULL && status.FenceError?, Reaping(todo[1..], kept));
    }
  }

  lemma FinishNextShrinks(s: State)
    requires s.worker.FinishingAll?
    ensures Shrunk(s, DoFinishNext(s), if Starts(s, FinishNext) then 1 else 0)
  {
    hide Script;
    var t := DoFinishNext(s);
    forall job | JobIn(t, job)
      ensures WasIn(s, job)
    {
      assert job == job.(stopSeen := job.stopSeen);
    }
  }

  lemma AdvanceLeavesLists(s: State, at: JobId, waitFailed: bool)
    requires at in s.completing && s.completing[at].progress < |Script(s.completing[at])|
    ensures var t := DoAdvance(s, at, waitFailed); t.worker == s.worker && t.pending == s.pending && t.busy == s.busy
  {
    hide Script;
  }

  lemma ReturnLeavesLists(s: State, at: JobId)
    requires at in s.completing
    ensures var t := DoReturn(s, at);
            t.worker == s.worker && t.pending == s.pending && t.busy == if s.busy == Some(at) then None else s.busy
  {
  }

  /** Whatever else happens, the worker takes no more actions than its bound and what its own callbacks add. */
  lemma {:induction false} WorkersActionsAreBounded(s: State, more: seq<Action>)
    requires Inv(s) && s.shuttingDown && JobsRetired(s) && After(s, more).Some?
    ensures WorkersActions(s, more) + Cost(After(s, more).value) <= Cost(s) + InsideCosts(more)
    decreases |more|
  {
    if more != [] {
      var a := more[0];
      ActionKeeps(s, a);
      ShutdownLasts(s, a);
      JobsStayRetired(s, a);
      WorkersActionsAreBounded(Apply(s, a), more[1..]);
      if IsWorkers(s, a) {
        TruthfulIsAnswered(s, a);
        AnsweredActionsDecrease(s, a);
      } else {
        OtherActionsKeepCost(s, a);
      }
      hide Inv, Cost, Apply, Enabled, JobsRetired, IsWorkers, InsideCost, Truthful;
    }
  }

  lemma TruthfulIsAnswered(s: State, a: Action)
    requires JobsRetired(s) && Truthful(s, a)
    ensures Answered(s, a)
  {
    if s.worker.Reaping? && s.worker.todo != [] {
      assert (s.worker.todo + s.worker.kept)[0] == s.worker.todo[0];
    }
  }

  /** Nothing is left for the worker's thread to do. */
  ghost predicate WorkerStopped(s: State) {
    forall a | IsWorkers(s, a) && Truthful(s, a) :: !Enabled(s, a)
  }

  /**
   After shutdown the worker leaves: once the work it waits for has retired, it
   takes no more actions than the bound, whatever the others do, and when it can
   take none it has left, with every accepted call called back.
   */
  lemma WorkerLeaves(actions: seq<Action>, s: State, more: seq<Action>)
    requires Run(actions, s) && s.shuttingDown && Settled(s) && After(s, more).Some?
    ensures var t := After(s, more).value;
            && Run(actions + more, t)
            && WorkersActions(s, more) <= Cost(s) + InsideCosts(more)
            && (WorkerStopped(t) && Settled(t) ==> t.worker.Exited? && Drained(t))
  {
    RunsKeepInvariant(actions, s);
    SettledJobs(s);
    WorkersActionsAreBounded(s, more);
    RunGoesOn(actions, s, more);
    var t := After(s, more).value;
    RunsKeepInvariant(actions + more, t);
    StillShuttingDown(s, more);
    if WorkerStopped(t) && Settled(t) {
      if !t.worker.Exited? {
        var a := WorkerNeverStuck(t);
      }
      DrainedIsIdle(actions + more, t);
    }
  }

  lemma {:induction false} StillShuttingDown(s: State, more: seq<Action>)
    requires s.shuttingDown && After(s, more).Some?
    ensures After(s, more).value.shuttingDown
    decreases |more|
  {
    if more != [] {
      ShutdownLasts(s, more[0]);
      StillShuttingDown(Apply(s, more[0]), more[1..]);
    }
  }

  // -------------------------------------------------------- turn by turn

  /** After shutdown the unfinished jobs never increase: one is less exactly when the worker returns from it. */
  lemma UnfinishedNeverIncrease(s: State, a: Action)
    requires Inv(s) && s.shuttingDown && Enabled(s, a)
    ensures Unstarted(Apply(s, a)) + (if Starts(s, a) then 1 else 0) == Unstarted(s)
    ensures Left(Apply(s, a)) + (if a.Return? && s.busy == Some(a.id) then 1 else 0) == Left(s)
  {
    ListsShrink(s, a);
    BusyFollows(s, a);
    hide Apply, Enabled, Inv, Unstarted;
  }

  lemma BusyFollows(s: State, a: Action)
    requires Inv(s) && s.shuttingDown && Enabled(s, a)
    ensures Starts(s, a) ==> s.busy.None?
    ensures Apply(s, a).busy.Some? <==> Starts(s, a) || (s.busy.Some? && !(a.Return? && s.busy == Some(a.id)))
  {
    hide DoTake, DoPoll, DoChoose, DoReap, DoFinishNext, DoAdvance, DoReturn, DoEnqueue;
    if IsLoopStep(a) { LoopStepIsIdle(s, a); }
    match a
    case Take => TakeBusy(s);
    case Poll(requested) => PollBusy(s, requested);
    case Choose(waitFailed) => ChooseQueue(s, waitFailed);
    case Reap(status) => ReapBusy(s, status);
    case FinishNext => FinishNextBusy(s);
    case Advance(at, waitFailed) => AdvanceLeavesLists(s, at, waitFailed);
    case Return(at) => ReturnLeavesLists(s, at);
    case _ => OthersLeaveWorker(s, a);
  }

  lemma TakeBusy(s: State)
    requires s.worker.Waiting?
    ensures DoTake(s).busy == s.busy
  {
  }

  lemma PollBusy(s: State, requested: bool)
    requires s.worker.Polling?
    ensures DoPoll(s, requested).busy == s.busy
  {
    PollShape(s, requested);
    hide DoPoll;
  }

  lemma ReapBusy(s: State, status: FenceStatus)
    requires s.worker.Reaping? && s.busy.None?
    ensures DoReap(s, status).busy.Some? <==> Starts(s, Reap(status))
  {
    ReapShape(s, status);
    hide DoReap;
  }

  lemma FinishNextBusy(s: State)
    requires s.worker.FinishingAll? && s.busy.None?
    ensures DoFinishNext(s).busy.Some? <==> Starts(s, FinishNext)
  {
  }

  /** A job is taken up somewhere in these actions. */
  predicate StartsOneIn(s: State, more: seq<Action>)
    decreases |more|
  {
    more != [] && Enabled(s, more[0]) && (Starts(s, more[0]) || StartsOneIn(Apply(s, more[0]), more[1..]))
  }

  lemma {:induction false} UnstartedShrink(s: State, more: seq<Action>)
    requires Inv(s) && s.shuttingDown && After(s, more).Some?
    ensures Unstarted(After(s, more).value) + (if StartsOneIn(s, more) then 1 else 0) <= Unstarted(s) && Inv(After(s, more).value)
    decreases |more|
  {
    if more != [] {
      ActionKeeps(s, more[0]);
      ShutdownLasts(s, more[0]);
      UnfinishedNeverIncrease(s, more[0]);
      UnstartedShrink(Apply(s, more[0]), more[1..]);
      hide Inv, Apply, Enabled, Starts, Unstarted, Truthful;
    }
  }

  /** A job the worker need not wait for: it has no fence, or its fence is signalled. */
  predicate Ready(s: State, jobs: seq<Job>) {
    exists k :: 0 <= k < |jobs| && (jobs[k].fence == NULL || jobs[k].id in s.retired)
  }

  /** In the turn under way a job will be taken up. */
  predicate Due(s: State) {
    match s.worker
    case Waiting(_) => false
    case Polling(active, _) => Ready(s, active)
    case Choosing(active) => Ready(s, active)
    case Reaping(todo, _) => Ready(s, todo)
    case FinishingAll(todo, _) => todo != []
    case Exited => false
  }

  lemma DueStays(s: State, a: Action)
    requires Inv(s) && s.shuttingDown && Enabled(s, a) && Truthful(s, a) && Due(s) && !Starts(s, a)
    ensures Due(Apply(s, a))
  {
    ShutdownLasts(s, a);
    hide DoTake, DoPoll, DoChoose, DoReap, DoFinishNext, DoAdvance, DoReturn, DoEnqueue, Ready;
    match a
    case Poll(requested) => PollKeepsDue(s, requested);
    case Choose(waitFailed) => ChooseKeepsDue(s, waitFailed);
    case Reap(status) => ReapKeepsDue(s, status);
    case Advance(at, waitFailed) => AdvanceLeavesLists(s, at, waitFailed); SameListsStayDue(s, Apply(s, a));
    case Return(at) => ReturnLeavesLists(s, at); SameListsStayDue(s, Apply(s, a));
    case Take => assert false;
    case FinishNext => assert false;
    case _ => OthersLeaveWorker(s, a); SameListsStayDue(s, Apply(s, a));
  }

  lemma ChooseKeepsDue(s: State, waitFailed: bool)
    requires s.worker.Choosing? && Due(s)
    ensures Due(DoChoose(s, waitFailed))
  {
  }

  lemma SameListsStayDue(s: State, t: State)
    requires Due(s) && t.worker == s.worker && s.retired <= t.retired
    ensures Due(t)
  {
  }

  lemma PollKeepsDue(s: State, requested: bool)
    requires s.worker.Polling? && Due(s)
    ensures Due(DoPoll(s, requested))
  {
    var Polling(active, i) := s.worker;
    var k :| 0 <= k < |active| && (active[k].fence == NULL || active[k].id in s.retired);
    if i < |active| {
      var now := active[i := Polled(active[i], requested)];
      assert now[k].fence == active[k].fence && now[k].id == active[k].id;
    }
  }

  lemma ReapKeepsDue(s: State, status: FenceStatus)
    requires s.worker.Reaping? && Due(s) && Truthful(s, Reap(status)) && !Starts(s, Reap(status))
    ensures Due(DoReap(s, status))
  {
    var Reaping(todo, kept) := s.worker;
    var k :| 0 <= k < |todo| && (todo[k].fence == NULL || todo[k].id in s.retired);
    assert k > 0 && todo[1..][k - 1] == todo[k];
  }

  lemma {:induction false} DueIsTakenUp(s: State, more: seq<Action>)
    requires Inv(s) && s.shuttingDown && Due(s) && After(s, more).Some? && After(s, more).value.worker.Waiting?
    ensures StartsOneIn(s, more)
    decreases |more|
  {
    if !Starts(s, more[0]) {
      ActionKeeps(s, more[0]);
      ShutdownLasts(s, more[0]);
      DueStays(s, more[0]);
      DueIsTakenUp(Apply(s, more[0]), more[1..]);
      hide Inv, Apply, Enabled, Due, Starts, Truthful;
    }
  }

  /** Turns after shutdown in which some job is taken up, an erring fence's for one, end with fewer jobs unfinished. */
  lemma StartedIsFinished(s: State, more: seq<Action>)
    requires Inv(s) && s.shuttingDown && StartsOneIn(s, more)
    requires After(s, more).Some? && After(s, more).value.worker.Waiting?
    ensures Left(After(s, more).value) < Left(s)
  {
    UnstartedShrink(s, more);
  }

  /** A turn after shutdown that begins with a job without a fence, or with a signalled one, ends with fewer jobs unfinished. */
  lemma TurnFinishesReadyJobs(s: State, more: seq<Action>)
    requires Inv(s) && s.shuttingDown && s.worker.Waiting? && Ready(s, s.worker.active + s.pending)
    requires more != [] && more[0].Take? && After(s, more).Some? && After(s, more).value.worker.Waiting?
    ensures Left(After(s, more).value) < Left(s)
  {
    ActionKeeps(s, Take);
    DueIsTakenUp(DoTake(s), more[1..]);
    StartedIsFinished(s, more);
  }
}
