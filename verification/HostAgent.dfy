/**
 The host agent of src/vkexec/host_agent.cpp, and schedule() of
 include/vkexec/scheduler.hpp on top of it, as an interleaved step system:
 client threads enqueue and shut down, one thread swaps the queue for a batch
 and runs it, and tasks enqueue further tasks, which run inline.
 */
module HostAgent {
  import opened Optional

  /** A task, by its id, with the tasks it enqueues while it runs on the agent thread. */
  datatype Task = Task(id: nat, inner: seq<Task>)

  datatype Event = Begin(id: nat) | End(id: nat)

  /** A task in progress on the agent thread, with what it will still enqueue. */
  datatype Frame = Frame(id: nat, rest: seq<Task>)

  /** The agent thread: waiting, running a batch with a stack of tasks in progress (innermost first), or gone. */
  datatype Thread = Waiting | Running(batch: seq<Task>, stack: seq<Frame>) | Exited

  /** How a schedule() receiver is completed by start itself. */
  datatype Completion = SetStopped(id: nat) | SetError(id: nat)

  /** A shutdown call: past its critical section, or returned. It joins the thread unless it found the flag set. */
  datatype ShutdownCall = Entered(foundSet: bool) | Returned(foundSet: bool)

  datatype State = State(shuttingDown: bool, pending: seq<Task>, thread: Thread, log: seq<Event>,
                         accepted: seq<Task>, inline: seq<Completion>, shutdowns: map<nat, ShutdownCall>)

  datatype Action =
    | Enqueue(task: Task)
    | Start(id: nat, stopRequested: bool, hasContext: bool)
    | ShutdownEnter(caller: nat)
    | ShutdownReturn(caller: nat)
    | Take
    | BeginTask
    | EndTask
    | EndBatch

  function Initial(): State {
    State(false, [], Waiting, [], [], [], map[])
  }

  predicate Enabled(s: State, a: Action) {
    match a
    case Enqueue(_) => true
    case Start(_, _, _) => true
    case ShutdownEnter(k) => k !in s.shutdowns
    case ShutdownReturn(k) => k in s.shutdowns && s.shutdowns[k].Entered? && (s.shutdowns[k].foundSet || s.thread.Exited?)
    case Take => s.thread.Waiting? && (s.shuttingDown || s.pending != [])
    case BeginTask => s.thread.Running? && if s.thread.stack == [] then s.thread.batch != [] else s.thread.stack[0].rest != []
    case EndTask => s.thread.Running? && s.thread.stack != [] && s.thread.stack[0].rest == []
    case EndBatch => s.thread == Running([], [])
  }

  /** enqueue from another thread: accepted in order, until shutdown. */
  function DoEnqueue(s: State, task: Task): State {
    if s.shuttingDown then s else s.(pending := s.pending + [task], accepted := s.accepted + [task])
  }

  /** start of a schedule sender: a stop wins, then a missing context, then a refused enqueue. */
  function DoStart(s: State, id: nat, stopRequested: bool, hasContext: bool): State {
    if stopRequested then s.(inline := s.inline + [SetStopped(id)])
    else if !hasContext || s.shuttingDown then s.(inline := s.inline + [SetError(id)])
    else DoEnqueue(s, Task(id, []))
  }

  /** The agent thread swaps the queue for an empty one, or leaves. */
  function DoTake(s: State): State {
    if s.shuttingDown && s.pending == [] then s.(thread := Exited)
    else s.(pending := [], thread := Running(s.pending, []))
  }

  /** The next task of the batch, or, inside a task, the next one it enqueues, starts at once. */
  function DoBegin(s: State): State
    requires Enabled(s, BeginTask)
  {
    var Running(batch, stack) := s.thread;
    if stack == [] then
      s.(thread := Running(batch[1..], [Frame(batch[0].id, batch[0].inner)]), log := s.log + [Begin(batch[0].id)])
    else
      var next := stack[0].rest[0];
      s.(thread := Running(batch, [Frame(next.id, next.inner), stack[0].(rest := stack[0].rest[1..])] + stack[1..]),
         log := s.log + [Begin(next.id)])
  }

  function DoEnd(s: State): State
    requires Enabled(s, EndTask)
  {
    var Running(batch, stack) := s.thread;
    s.(thread := Running(batch, stack[1..]), log := s.log + [End(stack[0].id)])
  }

  function Apply(s: State, a: Action): State
    requires Enabled(s, a)
  {
    match a
    case Enqueue(task) => DoEnqueue(s, task)
    case Start(id, stopRequested, hasContext) => DoStart(s, id, stopRequested, hasContext)
    case ShutdownEnter(k) => s.(shuttingDown := true, shutdowns := s.shutdowns[k := Entered(s.shuttingDown)])
    case ShutdownReturn(k) => s.(shutdowns := s.shutdowns[k := Returned(s.shutdowns[k].foundSet)])
    case Take => DoTake(s)
    case BeginTask => DoBegin(s)
    case EndTask => DoEnd(s)
    case EndBatch => s.(thread := Waiting)
  }

  ghost predicate Run(actions: seq<Action>, s: State)
    decreases |actions|, 1
  {
    if actions == [] then s == Initial() else exists before :: Extends(actions, before, s)
  }

  ghost predicate Extends(actions: seq<Action>, before: State, s: State)
    requires actions != []
    decreases |actions|, 0
  {
    var last := |actions| - 1;
    Run(actions[..last], before) && Enabled(before, actions[last]) && s == Apply(before, actions[last])
  }

  lemma RunExtends(actions: seq<Action>, before: State, a: Action)
    requires Run(actions, before) && Enabled(before, a)
    ensures Run(actions + [a], Apply(before, a))
  {
    assert (actions + [a])[..|actions|] == actions;
    assert Extends(actions + [a], before, Apply(before, a));
  }

  // ---------------------------------------------- the queue it should be

  /** What running a task does: everything it enqueues happens inside it. */
  function Trace(t: Task): seq<Event> {
    [Begin(t.id)] + TraceAll(t.inner) + [End(t.id)]
  }

  /** One queue, first in first out. */
  function TraceAll(ts: seq<Task>): seq<Event> {
    if ts == [] then [] else Trace(ts[0]) + TraceAll(ts[1..])
  }

  /** What the tasks in progress still have to do. */
  function Future(stack: seq<Frame>): seq<Event> {
    if stack == [] then [] else TraceAll(stack[0].rest) + [End(stack[0].id)] + Future(stack[1..])
  }

  function Remaining(t: Thread): seq<Event> {
    match t
    case Running(batch, stack) => Future(stack) + TraceAll(batch)
    case _ => []
  }

  /** What has run, is running and is queued is what was accepted, in that order. */
  predicate Inv(s: State) {
    && s.log + (Remaining(s.thread) + TraceAll(s.pending)) == TraceAll(s.accepted)
    && (s.thread.Exited? ==> s.shuttingDown && s.pending == [])
    && (forall k | k in s.shutdowns :: s.shuttingDown && (s.shutdowns[k] == Returned(false) ==> s.thread.Exited?))
  }

  lemma {:induction false} TraceAppend(ts: seq<Task>, t: Task)
    ensures TraceAll(ts + [t]) == TraceAll(ts) + Trace(t)
  {
    if ts == [] {
      assert [t][1..] == [];
    } else {
      TraceAppend(ts[1..], t);
      assert (ts + [t])[1..] == ts[1..] + [t];
    }
  }

  lemma EnqueueKeeps(s: State, task: Task)
    requires Inv(s) && !s.shuttingDown
    ensures Inv(DoEnqueue(s, task))
  {
    hide Remaining, Trace;
    TraceAppend(s.pending, task);
    TraceAppend(s.accepted, task);
    hide TraceAll;
    var r, p := Remaining(s.thread), TraceAll(s.pending);
    assert s.log + (r + (p + Trace(task))) == s.log + (r + p) + Trace(task);
  }

  lemma TakeKeeps(s: State)
    requires Inv(s) && Enabled(s, Take)
    ensures Inv(DoTake(s))
  {
    assert Future([]) == [] && TraceAll([]) == [];
  }

  lemma Regroup<T>(x: seq<T>, y: seq<T>, z: seq<T>)
    ensures x + (y + z) == x + y + z
  {
  }

  lemma BeginNested(next: Task, below: Frame, stack: seq<Frame>, batch: seq<Task>)
    requires stack != [] && stack[0].rest != [] && next == stack[0].rest[0] && below == stack[0].(rest := stack[0].rest[1..])
    ensures [Begin(next.id)] + Remaining(Running(batch, [Frame(next.id, next.inner), below] + stack[1..])) == Remaining(Running(batch, stack))
  {
    var top, deep := Frame(next.id, next.inner), [below] + stack[1..];
    FutureCons(below, stack[1..]);
    FutureCons(top, deep);
    assert [top, below] + stack[1..] == [top] + deep;
    assert TraceAll(stack[0].rest) == Trace(next) + TraceAll(below.rest);
    var begin, body := [Begin(next.id)], TraceAll(next.inner) + [End(next.id)];
    var after, tail, all := TraceAll(below.rest) + [End(below.id)], Future(stack[1..]), TraceAll(batch);
    assert Trace(next) == begin + body by { Regroup(begin, TraceAll(next.inner), [End(next.id)]); }
    assert Future(stack) == begin + body + after + tail by { Regroup(begin + body, TraceAll(below.rest), [End(below.id)]); }
    assert Future([top] + deep) == body + (after + tail);
    hide Future, TraceAll, Trace;
    Regroup(body, after, tail);
    Regroup(begin, body + after + tail, all);
    Regroup(begin, body + after, tail);
    Regroup(begin, body, after);
  }

  lemma FutureCons(f: Frame, stack: seq<Frame>)
    ensures Future([f] + stack) == TraceAll(f.rest) + [End(f.id)] + Future(stack)
  {
    assert ([f] + stack)[1..] == stack;
  }

  lemma BeginFromBatch(first: Task, rest: seq<Task>)
    ensures [Begin(first.id)] + Remaining(Running(rest, [Frame(first.id, first.inner)])) == Remaining(Running([first] + rest, []))
  {
    var frame, begin, body := Frame(first.id, first.inner), [Begin(first.id)], TraceAll(first.inner) + [End(first.id)];
    FutureCons(frame, []);
    assert [frame] == [frame] + [] && Future([]) == [] && body + [] == body;
    assert ([first] + rest)[1..] == rest;
    assert TraceAll([first] + rest) == Trace(first) + TraceAll(rest);
    assert Trace(first) == begin + body by { Regroup(begin, TraceAll(first.inner), [End(first.id)]); }
    assert [] + TraceAll([first] + rest) == TraceAll([first] + rest);
    hide Future, TraceAll, Trace;
    Regroup(begin, body, TraceAll(rest));
  }

  lemma BeginRemaining(s: State)
    requires Enabled(s, BeginTask)
    ensures var t := DoBegin(s);
            |t.log| == |s.log| + 1 && t.log[..|s.log|] == s.log && [t.log[|s.log|]] + Remaining(t.thread) == Remaining(s.thread)
  {
    var Running(batch, stack) := s.thread;
    if stack == [] {
      BeginFromBatch(batch[0], batch[1..]);
      assert [batch[0]] + batch[1..] == batch;
    } else {
      BeginNested(stack[0].rest[0], stack[0].(rest := stack[0].rest[1..]), stack, batch);
    }
    hide Remaining;
  }

  lemma BeginKeeps(s: State)
    requires Inv(s) && Enabled(s, BeginTask)
    ensures Inv(DoBegin(s))
  {
    BeginRemaining(s);
    var t := DoBegin(s);
    hide Remaining, TraceAll, DoBegin;
    var e, r, p := [t.log[|s.log|]], Remaining(t.thread), TraceAll(s.pending);
    assert t.log == s.log + e;
    assert s.log + e + (r + p) == s.log + (e + r + p);
  }

  lemma EndKeeps(s: State)
    requires Inv(s) && Enabled(s, EndTask)
    ensures Inv(DoEnd(s))
  {
    var t, stack := DoEnd(s), s.thread.stack;
    assert Future(stack) == [End(stack[0].id)] + Future(stack[1..]);
    var e, f, b, p := [End(stack[0].id)], Future(stack[1..]), TraceAll(s.thread.batch), TraceAll(s.pending);
    assert s.log + e + (f + b + p) == s.log + (e + f + b + p);
  }

  lemma ActionKeeps(s: State, a: Action)
    requires Inv(s) && Enabled(s, a)
    ensures Inv(Apply(s, a))
  {
    match a
    case Enqueue(task) => if !s.shuttingDown { EnqueueKeeps(s, task); }
    case Start(id, stopRequested, hasContext) =>
      if !stopRequested && hasContext && !s.shuttingDown { EnqueueKeeps(s, Task(id, [])); }
    case Take => TakeKeeps(s);
    case BeginTask => BeginKeeps(s);
    case EndTask => EndKeeps(s);
    case EndBatch => assert Future([]) == [] && TraceAll([]) == [];
    case _ =>
  }

  lemma {:induction false} RunsKeepInvariant(actions: seq<Action>, s: State)
    requires Run(actions, s)
    ensures Inv(s)
  {
    if actions == [] {
      assert TraceAll([]) == [];
    } else {
      var before :| Extends(actions, before, s);
      RunsKeepInvariant(actions[..|actions| - 1], before);
      ActionKeeps(before, actions[|actions| - 1]);
    }
  }

  // ------------------------------------------- what every run guarantees

  /** At any moment what has run is a beginning of what one FIFO queue of the accepted tasks would do. */
  lemma RunsInAcceptanceOrder(actions: seq<Action>, s: State)
    requires Run(actions, s)
    ensures s.log <= TraceAll(s.accepted)
    ensures s.thread.Exited? ==> s.log == TraceAll(s.accepted)
  {
    RunsKeepInvariant(actions, s);
    assert TraceAll([]) == [];
  }

  /** Some shutdown call has been made. */
  predicate ShutDown(actions: seq<Action>) {
    exists i :: 0 <= i < |actions| && actions[i].ShutdownEnter?
  }

  /** The tasks enqueued from other threads before the first shutdown, in order. */
  function Accepted(actions: seq<Action>): seq<Task> {
    if actions == [] then []
    else
      var rest, last := actions[..|actions| - 1], actions[|actions| - 1];
      if ShutDown(rest) then Accepted(rest)
      else match last
        case Enqueue(task) => Accepted(rest) + [task]
        case Start(id, false, true) => Accepted(rest) + [Task(id, [])]
        case _ => Accepted(rest)
  }

  /** Exactly the calls before shutdown are accepted, in the order they were made. */
  lemma {:induction false} AcceptedInOrder(actions: seq<Action>, s: State)
    requires Run(actions, s)
    ensures s.accepted == Accepted(actions) && (s.shuttingDown <==> ShutDown(actions))
  {
    if actions != [] {
      var before :| Extends(actions, before, s);
      var rest, last := actions[..|actions| - 1], actions[|actions| - 1];
      AcceptedInOrder(rest, before);
      if i :| 0 <= i < |rest| && rest[i].ShutdownEnter? { assert actions[i].ShutdownEnter?; }
      if i :| 0 <= i < |actions| && actions[i].ShutdownEnter? && i < |rest| { assert rest[i].ShutdownEnter?; }
    }
  }

  function Count<T(==)>(s: seq<T>, x: T): nat {
    multiset(s)[x]
  }

  /** How often an id occurs among the tasks and everything they enqueue. */
  function Occurs(ts: seq<Task>, id: nat): nat {
    if ts == [] then 0 else (if ts[0].id == id then 1 else 0) + Occurs(ts[0].inner, id) + Occurs(ts[1..], id)
  }

  lemma CountConcat<T>(s: seq<T>, t: seq<T>, x: T)
    ensures Count(s + t, x) == Count(s, x) + Count(t, x)
  {
    assert multiset(s + t) == multiset(s) + multiset(t);
  }

  lemma CountTrace(t: Task, e: Event)
    ensures Count(Trace(t), e) == (if e == Begin(t.id) || e == End(t.id) then 1 else 0) + Count(TraceAll(t.inner), e)
  {
    CountConcat([Begin(t.id)], TraceAll(t.inner), e);
    CountConcat([Begin(t.id)] + TraceAll(t.inner), [End(t.id)], e);
    hide TraceAll;
  }

  lemma {:induction false} EachRunsOnce(ts: seq<Task>, id: nat)
    ensures Count(TraceAll(ts), Begin(id)) == Occurs(ts, id)
    ensures Count(TraceAll(ts), End(id)) == Occurs(ts, id)
  {
    if ts != [] {
      EachRunsOnce(ts[0].inner, id);
      EachRunsOnce(ts[1..], id);
      CountTrace(ts[0], Begin(id));
      CountTrace(ts[0], End(id));
      CountConcat(Trace(ts[0]), TraceAll(ts[1..]), Begin(id));
      CountConcat(Trace(ts[0]), TraceAll(ts[1..]), End(id));
      hide Trace, Count;
    }
  }

  /** When the thread has left, every accepted task, and every task enqueued inside one, has run as often as it was enqueued. */
  lemma ExitedHasRunEverything(actions: seq<Action>, s: State, id: nat)
    requires Run(actions, s) && s.thread.Exited?
    ensures Count(s.log, Begin(id)) == Count(s.log, End(id)) == Occurs(Accepted(actions), id)
    ensures ShutDown(actions) && s.pending == []
  {
    RunsInAcceptanceOrder(actions, s);
    AcceptedInOrder(actions, s);
    EachRunsOnce(s.accepted, id);
    RunsKeepInvariant(actions, s);
  }

  // --------------------------------------------------------- shutdown

  /** Everything accepted has run. */
  predicate Drained(s: State) {
    s.log == TraceAll(s.accepted)
  }

  /** Nothing is queued, in the batch, or in progress. */
  predicate Idle(s: State) {
    s.pending == [] && (s.thread.Running? ==> s.thread.batch == [] && s.thread.stack == [])
  }

  lemma DrainedIsIdle(s: State)
    requires Inv(s)
    ensures Drained(s) <==> Idle(s)
  {
    if s.pending != [] { assert TraceAll(s.pending) == Trace(s.pending[0]) + TraceAll(s.pending[1..]); }
    match s.thread
    case Running(batch, stack) =>
      if batch != [] { assert TraceAll(batch) == Trace(batch[0]) + TraceAll(batch[1..]); }
      assert |s.log| + |Future(stack)| + |TraceAll(batch)| + |TraceAll(s.pending)| == |TraceAll(s.accepted)|;
    case _ =>
      assert |s.log| + |TraceAll(s.pending)| == |TraceAll(s.accepted)|;
  }

  /** A shutdown call that has returned has run everything accepted if it set the flag itself, or else exactly when the thread has nothing left. */
  lemma ShutdownHasDrained(actions: seq<Action>, s: State, k: nat)
    requires Run(actions, s) && k in s.shutdowns && s.shutdowns[k].Returned?
    ensures Drained(s) <==> s.shutdowns[k] == Returned(false) || Idle(s)
  {
    RunsKeepInvariant(actions, s);
    DrainedIsIdle(s);
  }

  /** Drained after shutdown is drained for good. */
  lemma DrainedStays(s: State, a: Action)
    requires Inv(s) && s.shuttingDown && Drained(s) && Enabled(s, a)
    ensures Drained(Apply(s, a))
  {
    DrainedIsIdle(s);
  }

  /** A run where a second shutdown has returned and an accepted task has not begun. */
  lemma SecondShutdownReturnsUndrained() returns (actions: seq<Action>, s: State)
    ensures Run(actions, s) && 1 in s.shutdowns && s.shutdowns[1] == Returned(true)
    ensures !Drained(s) && s.accepted == [Task(1, [])] && s.log == []
  {
    var s1 := Apply(Initial(), Enqueue(Task(1, [])));
    var s2 := Apply(s1, ShutdownEnter(0));
    var s3 := Apply(s2, ShutdownEnter(1));
    s := Apply(s3, ShutdownReturn(1));
    actions := [] + [Enqueue(Task(1, []))] + [ShutdownEnter(0)] + [ShutdownEnter(1)] + [ShutdownReturn(1)];
    RunExtends([], Initial(), Enqueue(Task(1, [])));
    RunExtends([] + [Enqueue(Task(1, []))], s1, ShutdownEnter(0));
    RunExtends([] + [Enqueue(Task(1, []))] + [ShutdownEnter(0)], s2, ShutdownEnter(1));
    RunExtends([] + [Enqueue(Task(1, []))] + [ShutdownEnter(0)] + [ShutdownEnter(1)], s3, ShutdownReturn(1));
    RunsKeepInvariant(actions, s);
    DrainedIsIdle(s);
  }

  /** In this run, if call k has returned having found this flag, everything accepted has run. */
  ghost predicate Tells(actions: seq<Action>, s: State, k: nat, found: bool) {
    Run(actions, s) && k in s.shutdowns && s.shutdowns[k] == Returned(found) ==> Drained(s)
  }

  /** What a caller can tell from its shutdown having returned: that everything has run, in every run, exactly if it did not find the flag set. */
  lemma OnlyTheFirstShutdownTells(found: bool)
    ensures (forall actions, s, k :: Tells(actions, s, k, found)) <==> !found
  {
    if found {
      var actions, s := SecondShutdownReturnsUndrained();
      assert !Tells(actions, s, 1, found);
    } else {
      forall actions, s, k
        ensures Tells(actions, s, k, found)
      {
        if Run(actions, s) && k in s.shutdowns && s.shutdowns[k] == Returned(found) {
          ShutdownHasDrained(actions, s, k);
        }
      }
    }
  }

  // --------------------------------------------------------- schedule()

  /** How often schedule() was started with this receiver. */
  function Starts(actions: seq<Action>, id: nat): nat {
    if actions == [] then 0
    else Starts(actions[..|actions| - 1], id)
         + if actions[|actions| - 1].Start? && actions[|actions| - 1].id == id then 1 else 0
  }

  /** No enqueued task uses the id: it belongs to a schedule() receiver. */
  predicate OnlyScheduled(actions: seq<Action>, id: nat) {
    forall i | 0 <= i < |actions| && actions[i].Enqueue? :: Occurs([actions[i].task], id) == 0
  }

  lemma {:induction false} OccursAppend(ts: seq<Task>, t: Task, id: nat)
    ensures Occurs(ts + [t], id) == Occurs(ts, id) + Occurs([t], id)
  {
    if ts == [] {
      assert ts + [t] == [t];
    } else {
      OccursAppend(ts[1..], t, id);
      assert (ts + [t])[1..] == ts[1..] + [t];
    }
  }

  /** Each start completes its receiver inline or puts exactly one task for it in the queue. */
  lemma {:induction false} StartsAreAccountedFor(actions: seq<Action>, s: State, id: nat)
    requires Run(actions, s) && OnlyScheduled(actions, id)
    ensures Starts(actions, id) == Count(s.inline, SetStopped(id)) + Count(s.inline, SetError(id)) + Occurs(s.accepted, id)
  {
    if actions != [] {
      var before :| Extends(actions, before, s);
      var rest, last := actions[..|actions| - 1], actions[|actions| - 1];
      assert forall i | 0 <= i < |rest| :: rest[i] == actions[i];
      StartsAreAccountedFor(rest, before, id);
      StepIsAccountedFor(before, last, id);
    }
  }

  /** A start adds one completion or one task; an unrelated enqueue adds nothing. */
  lemma StepIsAccountedFor(s: State, a: Action, id: nat)
    requires Enabled(s, a) && (a.Enqueue? ==> Occurs([a.task], id) == 0)
    ensures var t := Apply(s, a);
            Count(t.inline, SetStopped(id)) + Count(t.inline, SetError(id)) + Occurs(t.accepted, id)
            == Count(s.inline, SetStopped(id)) + Count(s.inline, SetError(id)) + Occurs(s.accepted, id)
               + if a.Start? && a.id == id then 1 else 0
  {
    match a
    case Enqueue(task) => OccursAppend(s.accepted, task, id);
    case Start(other, _, _) =>
      OccursAppend(s.accepted, Task(other, []), id);
      assert [Task(other, [])][1..] == [];
      assert Occurs([Task(other, [])], id) == if other == id then 1 else 0;
      hide Occurs;
    case _ =>
  }

  /** Starts with this receiver whose stop was requested by then. */
  function StoppedStarts(actions: seq<Action>, id: nat): nat {
    if actions == [] then 0
    else
      var last := actions[|actions| - 1];
      StoppedStarts(actions[..|actions| - 1], id) + if last.Start? && last.id == id && last.stopRequested then 1 else 0
  }

  /** Starts with it that were not stopped, but without a context or after shutdown. */
  function RefusedStarts(actions: seq<Action>, id: nat): nat {
    if actions == [] then 0
    else
      var rest, last := actions[..|actions| - 1], actions[|actions| - 1];
      RefusedStarts(rest, id) + if last.Start? && last.id == id && !last.stopRequested && (!last.hasContext || ShutDown(rest)) then 1 else 0
  }

  /** What a start answers at once: stopped if its stop was requested, and an error if it was not but cannot be enqueued. */
  lemma {:induction false} StartsAreAnswered(actions: seq<Action>, s: State, id: nat)
    requires Run(actions, s)
    ensures Count(s.inline, SetStopped(id)) == StoppedStarts(actions, id)
    ensures Count(s.inline, SetError(id)) == RefusedStarts(actions, id)
  {
    if actions != [] {
      var before :| Extends(actions, before, s);
      var rest, last := actions[..|actions| - 1], actions[|actions| - 1];
      StartsAreAnswered(rest, before, id);
      AcceptedInOrder(rest, before);
      StartAnswers(before, last, id);
      hide Apply, Enabled;
    }
  }

  lemma StartAnswers(s: State, a: Action, id: nat)
    requires Enabled(s, a)
    ensures var t := Apply(s, a);
            && Count(t.inline, SetStopped(id)) == Count(s.inline, SetStopped(id)) + (if a.Start? && a.id == id && a.stopRequested then 1 else 0)
            && Count(t.inline, SetError(id)) == Count(s.inline, SetError(id))
                                                + (if a.Start? && a.id == id && !a.stopRequested && (!a.hasContext || s.shuttingDown) then 1 else 0)
  {
  }

  /** Once the agent thread has left, every start has had exactly one completion: inline, or in its task. */
  lemma EveryStartCompletesOnce(actions: seq<Action>, s: State, id: nat)
    requires Run(actions, s) && s.thread.Exited? && OnlyScheduled(actions, id)
    ensures Count(s.inline, SetStopped(id)) + Count(s.inline, SetError(id)) + Count(s.log, Begin(id)) == Starts(actions, id)
  {
    StartsAreAccountedFor(actions, s, id);
    RunsInAcceptanceOrder(actions, s);
    EachRunsOnce(s.accepted, id);
  }

  // --------------------------------------------------------- progress

  predicate IsThreadStep(a: Action) {
    a.Take? || a.BeginTask? || a.EndTask? || a.EndBatch?
  }

  function Cost(s: State): nat {
    2 * |TraceAll(s.pending)| + |Remaining(s.thread)| + match s.thread { case Waiting => 1 case Running(_, _) => 2 case Exited => 0 }
  }

  /** Every step of the agent thread brings its end nearer; after shutdown nothing moves it away. */
  lemma StepsDecreaseCost(s: State, a: Action)
    requires Inv(s) && Enabled(s, a)
    ensures IsThreadStep(a) ==> Cost(Apply(s, a)) < Cost(s)
    ensures !IsThreadStep(a) && s.shuttingDown ==> Cost(Apply(s, a)) <= Cost(s)
  {
    match a
    case Take =>
      if s.pending != [] {
        assert |TraceAll(s.pending)| >= 2 by { assert TraceAll(s.pending) == Trace(s.pending[0]) + TraceAll(s.pending[1..]); }
      }
      assert Future([]) == [] && TraceAll([]) == [];
    case BeginTask =>
      BeginRemaining(s);
      hide Remaining;
    case EndTask => assert Future(s.thread.stack) == [End(s.thread.stack[0].id)] + Future(s.thread.stack[1..]);
    case EndBatch => assert Future([]) == [] && TraceAll([]) == [];
    case _ =>
  }

  /** After shutdown the agent thread always has a step until it has left. */
  lemma ThreadNeverStuck(s: State) returns (a: Action)
    requires s.shuttingDown && !s.thread.Exited?
    ensures Enabled(s, a) && IsThreadStep(a)
  {
    if s.thread.Waiting? {
      a := Take;
    } else if s.thread.stack == [] {
      a := if s.thread.batch == [] then EndBatch else BeginTask;
    } else {
      a := if s.thread.stack[0].rest == [] then EndTask else BeginTask;
    }
  }

  /** The state after these actions, if each is enabled where it is taken. */
  function After(s: State, more: seq<Action>): Option<State>
    decreases |more|
  {
    if more == [] then Some(s) else if Enabled(s, more[0]) then After(Apply(s, more[0]), more[1..]) else None
  }

  function ThreadSteps(more: seq<Action>): nat {
    if more == [] then 0 else (if IsThreadStep(more[0]) then 1 else 0) + ThreadSteps(more[1..])
  }

  lemma {:induction false} RunGoesOn(actions: seq<Action>, s: State, more: seq<Action>)
    requires Run(actions, s) && After(s, more).Some?
    ensures Run(actions + more, After(s, more).value)
    decreases |more|
  {
    if more == [] {
      assert actions + more == actions;
    } else {
      RunExtends(actions, s, more[0]);
      RunGoesOn(actions + [more[0]], Apply(s, more[0]), more[1..]);
      assert actions + [more[0]] + more[1..] == actions + more;
    }
  }

  lemma {:induction false} ThreadStepsAreBounded(s: State, more: seq<Action>)
    requires Inv(s) && s.shuttingDown && After(s, more).Some?
    ensures var t := After(s, more).value; ThreadSteps(more) + Cost(t) <= Cost(s) && t.shuttingDown
    decreases |more|
  {
    if more != [] {
      ActionKeeps(s, more[0]);
      StepsDecreaseCost(s, more[0]);
      ThreadStepsAreBounded(Apply(s, more[0]), more[1..]);
      hide Inv, Cost;
    }
  }

  /**
   After shutdown the agent thread leaves: it takes no more steps than the
   bound, whatever other threads do meanwhile, and when it can take none it has
   left, with everything accepted run.
   */
  lemma ThreadLeaves(actions: seq<Action>, s: State, more: seq<Action>, id: nat)
    requires Run(actions, s) && s.shuttingDown && After(s, more).Some?
    ensures var t := After(s, more).value;
            && Run(actions + more, t) && ThreadSteps(more) <= Cost(s)
            && ((forall a | IsThreadStep(a) :: !Enabled(t, a)) ==>
                  t.thread.Exited? && Count(t.log, End(id)) == Occurs(Accepted(actions + more), id))
  {
    RunsKeepInvariant(actions, s);
    RunGoesOn(actions, s, more);
    ThreadStepsAreBounded(s, more);
    var t := After(s, more).value;
    if !t.thread.Exited? {
      var a := ThreadNeverStuck(t);
    } else {
      ExitedHasRunEverything(actions + more, t, id);
    }
  }

  /** By itself it leaves within the bound. */
  lemma {:induction false} ThreadCanLeave(s: State) returns (more: seq<Action>)
    requires Inv(s) && s.shuttingDown
    ensures After(s, more).Some? && After(s, more).value.thread.Exited? && |more| <= Cost(s)
    ensures forall i | 0 <= i < |more| :: IsThreadStep(more[i])
    decreases Cost(s)
  {
    if s.thread.Exited? {
      more := [];
    } else {
      var a := ThreadNeverStuck(s);
      StepsDecreaseCost(s, a);
      ActionKeeps(s, a);
      var rest := ThreadCanLeave(Apply(s, a));
      more := [a] + rest;
      assert more[1..] == rest;
      hide Cost, Inv;
    }
  }

  // ------------------------------------------------------ the statements

  lemma NoTrace()
    ensures TraceAll([]) == []
  {
  }

  /** What other threads may have done meanwhile. */
  ghost predicate OthersOnly(s: State, t: State) {
    t.thread == s.thread && t.log == s.log && s.pending <= t.pending && (s.shuttingDown ==> t.shuttingDown)
  }

  /** The agent's methods, each statement of which takes the matching step of the system above. */
  class Agent {
    var pending: seq<Task>
    var shuttingDown: bool
    var log: seq<Event>
    ghost var history: seq<Action>
    ghost var protocol: State

    ghost predicate Valid()
      reads this
    {
      Run(history, protocol) && protocol.pending == pending && protocol.shuttingDown == shuttingDown && protocol.log == log
    }

    constructor ()
      ensures Valid() && protocol == Initial()
      ensures pending == [] && !shuttingDown && log == [] && protocol.thread == Waiting
    {
      pending, shuttingDown, log := [], false, [];
      history, protocol := [], Initial();
    }

    ghost method Step(a: Action)
      requires Run(history, protocol) && Enabled(protocol, a)
      modifies `history, `protocol
      ensures Run(history, protocol) && protocol == Apply(old(protocol), a)
    {
      RunExtends(history, protocol, a);
      history := history + [a];
      protocol := Apply(protocol, a);
    }

    /** A point where the lock is free: other threads may run. Callers know only this contract. */
    method Others()
      requires Valid()
      modifies this
      ensures Valid() && OthersOnly(old(protocol), protocol)
    {
    }

    /** enqueue from another thread: a batch being run is not touched. */
    method Enqueue(task: Task) returns (ok: bool)
      requires Valid()
      modifies this
      ensures Valid() && protocol == DoEnqueue(old(protocol), task)
      ensures ok <==> !old(shuttingDown)
      ensures pending == if ok then old(pending) + [task] else old(pending)
    {
      Step(Action.Enqueue(task));
      if shuttingDown { return false; }
      pending := pending + [task];
      ok := true;
    }

    /** start of a schedule operation from another thread: what it completes its receiver with at once, if it does. */
    method Start(id: nat, stopRequested: bool, hasContext: bool) returns (completed: Option<Completion>)
      requires Valid()
      modifies this
      ensures Valid() && shuttingDown == old(shuttingDown) && log == old(log) && protocol.thread == old(protocol.thread)
      ensures completed == if stopRequested then Some(SetStopped(id)) else if !hasContext || old(shuttingDown) then Some(SetError(id)) else None
      ensures pending == old(pending) + if completed.None? then [Task(id, [])] else []
      ensures protocol.inline == old(protocol.inline) + if completed.Some? then [completed.value] else []
    {
      hide Run;
      Step(Action.Start(id, stopRequested, hasContext));
      if stopRequested { return Some(SetStopped(id)); }
      if !hasContext { return Some(SetError(id)); }
      if shuttingDown { return Some(SetError(id)); }
      pending := pending + [Task(id, [])];
      completed := None;
    }

    /** shutdown up to the join: only the call that sets the flag waits for the thread, any other returns at once. */
    method RequestShutdown(ghost caller: nat) returns (joins: bool)
      requires Valid() && caller !in protocol.shutdowns
      modifies this
      ensures Valid() && shuttingDown && pending == old(pending) && log == old(log) && joins == !old(shuttingDown)
      ensures var call := if joins then Entered(false) else Returned(true);
              protocol == old(protocol).(shuttingDown := true, shutdowns := old(protocol.shutdowns)[caller := call])
    {
      hide Run;
      Step(ShutdownEnter(caller));
      if shuttingDown {
        Step(ShutdownReturn(caller));
        return false;
      }
      shuttingDown := true;
      joins := true;
    }

    /** The join, once the thread has left: everything accepted has run. */
    method Join(ghost caller: nat)
      requires Valid() && caller in protocol.shutdowns && protocol.shutdowns[caller] == Entered(false) && protocol.thread.Exited?
      modifies this
      ensures Valid() && protocol == old(protocol).(shutdowns := old(protocol.shutdowns)[caller := Returned(false)])
      ensures log == TraceAll(Accepted(history)) && pending == []
    {
      hide Run;
      Step(ShutdownReturn(caller));
      RunsKeepInvariant(history, protocol);
      RunsInAcceptanceOrder(history, protocol);
      AcceptedInOrder(history, protocol);
    }

    /** A task about to run: next in the batch, or next to be enqueued by the innermost task. */
    ghost predicate IsNext(t: Task)
      reads this
    {
      protocol.thread.Running? &&
      if protocol.thread.stack == [] then protocol.thread.batch != [] && protocol.thread.batch[0] == t
      else protocol.thread.stack[0].rest != [] && protocol.thread.stack[0].rest[0] == t
    }

    /** The thread once the next task is done. */
    ghost function Past(thread: Thread): Thread
      requires thread.Running? && if thread.stack == [] then thread.batch != [] else thread.stack[0].rest != []
    {
      if thread.stack == [] then Running(thread.batch[1..], [])
      else Running(thread.batch, [thread.stack[0].(rest := thread.stack[0].rest[1..])] + thread.stack[1..])
    }

    /** A task starts: it leaves the batch, or the list of what the innermost task enqueues. */
    method BeginT(t: Task)
      requires Valid() && IsNext(t)
      modifies this
      ensures Valid() && log == old(log) + [Begin(t.id)] && (old(shuttingDown) ==> shuttingDown)
      ensures var past := Past(old(protocol.thread)); protocol.thread == Running(past.batch, [Frame(t.id, t.inner)] + past.stack)
    {
      hide Run;
      Step(BeginTask);
      log := log + [Begin(t.id)];
      assert [Frame(t.id, t.inner)] + [] == [Frame(t.id, t.inner)];
      Others();
    }

    method EndT(ghost batch: seq<Task>, ghost below: seq<Frame>, id: nat)
      requires Valid() && protocol.thread == Running(batch, [Frame(id, [])] + below)
      modifies this
      ensures Valid() && log == old(log) + [End(id)] && (old(shuttingDown) ==> shuttingDown) && protocol.thread == Running(batch, below)
    {
      hide Run;
      assert ([Frame(id, [])] + below)[1..] == below;
      Step(EndTask);
      log := log + [End(id)];
      Others();
    }

    /** A task runs to its end; what it enqueues runs inline where it is enqueued. */
    method RunTask(t: Task)
      requires Valid() && IsNext(t)
      modifies this
      ensures Valid() && protocol.thread == Past(old(protocol.thread)) && log == old(log) + Trace(t)
      ensures old(shuttingDown) ==> shuttingDown
      decreases t
    {
      hide Run, TraceAll;
      ghost var past := Past(protocol.thread);
      BeginT(t);
      assert t.inner[..0] == [] && t.inner[0..] == t.inner && TraceAll([]) == [] by { NoTrace(); }
      for i := 0 to |t.inner|
        invariant Valid() && (old(shuttingDown) ==> shuttingDown)
        invariant protocol.thread == Running(past.batch, [Frame(t.id, t.inner[i..])] + past.stack)
        invariant log == old(log) + ([Begin(t.id)] + TraceAll(t.inner[..i]))
      {
        assert t.inner[i..][1..] == t.inner[i + 1..] && t.inner[..i + 1] == t.inner[..i] + [t.inner[i]];
        TraceAppend(t.inner[..i], t.inner[i]);
        assert ([Frame(t.id, t.inner[i..])] + past.stack)[1..] == past.stack;
        RunTask(t.inner[i]);
      }
      assert t.inner[..|t.inner|] == t.inner && t.inner[|t.inner|..] == [];
      EndT(past.batch, past.stack, t.id);
    }

    /**
     One turn of the thread's loop: the whole queue, with everything enqueued so
     far, is swapped out under the lock and then run in order; the thread leaves
     only if it is empty, and goes on waiting only if nothing asks it to leave.
     */
    method RunOnce() returns (exited: bool)
      requires Valid() && protocol.thread == Waiting
      modifies this
      ensures Valid() && protocol.thread == if exited then Exited else Waiting
      ensures exited ==> shuttingDown && pending == [] && old(pending) == [] && log == old(log)
      ensures !exited ==> exists taken :: old(pending) <= taken && (taken == [] ==> !old(shuttingDown)) && log == old(log) + TraceAll(taken)
    {
      hide Run, Trace, TraceAll;
      NoTrace();
      Others();
      if !shuttingDown && pending == [] {
        assert log == old(log) + TraceAll([]);
        return false;     // the condition variable keeps waiting
      }
      Step(Take);
      if shuttingDown && pending == [] { return true; }
      var local := pending;
      pending := [];
      Others();
      assert local[..0] == [] && local[0..] == local && log == old(log) + TraceAll([]);
      for i := 0 to |local|
        invariant Valid() && protocol.thread == Running(local[i..], [])
        invariant log == old(log) + TraceAll(local[..i])
      {
        assert local[i..][1..] == local[i + 1..] && local[..i + 1] == local[..i] + [local[i]];
        TraceAppend(local[..i], local[i]);
        RunTask(local[i]);
      }
      assert local[|local|..] == [] && local[..|local|] == local;
      Step(EndBatch);
      exited := false;
    }

    /**
     The thread, watched for a number of turns: what was pending at first has been
     run, in order, by the first of them; if it has left, one FIFO queue of all
     accepted tasks has been run.
     */
    method RunAgent(turns: nat) returns (exited: bool)
      requires Valid() && protocol.thread == Waiting
      modifies this
      ensures Valid() && (exited <==> protocol.thread.Exited?)
      ensures turns > 0 ==> old(log) + TraceAll(old(pending)) <= log
      ensures exited ==> shuttingDown && pending == [] && log == TraceAll(Accepted(history))
    {
      hide Run, Trace, TraceAll;
      NoTrace();
      for turn := 0 to turns
        invariant Valid() && protocol.thread == Waiting
        invariant if turn == 0 then pending == old(pending) && log == old(log) else old(log) + TraceAll(old(pending)) <= log
      {
        ghost var queued, so := pending, log;
        exited := RunOnce();
        if exited {
          RunsInAcceptanceOrder(history, protocol);
          AcceptedInOrder(history, protocol);
          return true;
        }
        ghost var taken :| queued <= taken && log == so + TraceAll(taken);
        TracePrefix(queued, taken);
      }
      return false;
    }
  }

  lemma TracePrefix(first: seq<Task>, all: seq<Task>)
    requires first <= all
    ensures TraceAll(first) <= TraceAll(all)
  {
    if |first| < |all| {
      TracePrefix(first, all[..|all| - 1]);
      TraceAppend(all[..|all| - 1], all[|all| - 1]);
      assert all == all[..|all| - 1] + [all[|all| - 1]];
    } else {
      assert first == all;
    }
  }
}
