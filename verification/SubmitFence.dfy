/**
 submit_fence of include/vkexec/submit_scope.hpp, from start to the receiver's
 signal: submit_async of src/vkexec/context_runtime.cpp, then the completion
 protocol, then release_scope_and_complete.
 */
module SubmitFence {
  import opened Optional
  import CP = CompletionProtocol
  import SS = SubmitScope
  import DC = DescriptorCache

  type Handle = nat
  const NULL: Handle := 0

  /** How a receiver is completed. */
  datatype Outcome = Value | Error | Stopped

  /** The one right outcome: an error wins over a stop, and there is a value only without either. */
  predicate Tells(o: Outcome, failed: bool, stopped: bool) {
    (o == Error <==> failed) && (o == Stopped <==> !failed && stopped) && (o == Value <==> !failed && !stopped)
  }

  /** What happens to one submission, seen from outside. */
  datatype Act =
    | SemaphoreMade(semaphore: Handle)
    | FenceMade(fence: Handle)
    | Submitted
    | QueueDrained
    | Retired
    | SemaphoreGone(semaphore: Handle)
    | FenceGone(fence: Handle)
    | Returned(effect: SS.Effect)
    | Signal(outcome: Outcome)

  /** How far submit_async gets: no semaphore, no fence, refused by the queue, or submitted. */
  datatype Answer = NoSemaphore | NoFence(semaphore: Handle) | Refused(semaphore: Handle, fence: Handle) | Accepted(semaphore: Handle, fence: Handle)

  /** A failed submission leaves neither object behind, and names neither. */
  method SubmitAsync(answer: Answer) returns (ok: bool, semaphore: Handle, fence: Handle, acts: seq<Act>)
    ensures ok <==> answer.Accepted?
    ensures ok ==> semaphore == answer.semaphore && fence == answer.fence
                   && acts == [SemaphoreMade(semaphore), FenceMade(fence), Submitted]
    ensures !ok ==> semaphore == NULL && fence == NULL && Undone(acts)
  {
    hide Undone;
    semaphore, fence, acts := NULL, NULL, [];
    if answer.NoSemaphore? {
      UndoneSubmissions(NULL, NULL);
      return false, semaphore, fence, acts;
    }
    var made := answer.semaphore;
    acts := acts + [SemaphoreMade(made)];
    if answer.NoFence? {
      acts := acts + [SemaphoreGone(made)];
      UndoneSubmissions(made, NULL);
      assert acts == [SemaphoreMade(made), SemaphoreGone(made)];
      return false, semaphore, fence, acts;
    }
    fence := answer.fence;
    acts := acts + [FenceMade(fence)];
    if answer.Refused? {
      acts := acts + [SemaphoreGone(made), FenceGone(fence)];
      UndoneSubmissions(made, fence);
      assert acts == [SemaphoreMade(made), FenceMade(fence), SemaphoreGone(made), FenceGone(fence)];
      fence := NULL;
      return false, semaphore, fence, acts;
    }
    acts := acts + [Submitted];
    semaphore := made;
    ok := true;
  }

  /** Each object is destroyed exactly as often as it was made. */
  ghost predicate EverythingMadeIsGone(acts: seq<Act>) {
    forall h: Handle :: Balanced(acts, SemaphoreMade(h), SemaphoreGone(h)) && Balanced(acts, FenceMade(h), FenceGone(h))
  }

  ghost predicate Balanced(acts: seq<Act>, made: Act, gone: Act) {
    multiset(acts)[made] == multiset(acts)[gone]
  }

  /** A failed submission: nothing was submitted, and what was made is gone. */
  ghost predicate Undone(acts: seq<Act>) {
    EverythingMadeIsGone(acts) && forall a | a in acts :: a.SemaphoreMade? || a.FenceMade? || a.SemaphoreGone? || a.FenceGone?
  }

  lemma UndoneSubmissions(semaphore: Handle, fence: Handle)
    ensures Undone([]) && Undone([SemaphoreMade(semaphore), SemaphoreGone(semaphore)])
    ensures Undone([SemaphoreMade(semaphore), FenceMade(fence), SemaphoreGone(semaphore), FenceGone(fence)])
  {
  }

  predicate GivesBack(a: Act) {
    a.SemaphoreGone? || a.FenceGone? || a.Returned?
  }

  /**
   A whole submission as it should be: one signal, last; nothing submitted is
   given back before it retired; every object made is destroyed once; and the
   command buffer, pool and descriptor sets are returned once, before the signal.
   */
  ghost predicate Complete(acts: seq<Act>, returned: seq<SS.Effect>) {
    OneSignal(acts) && GivenBackRetired(acts) && EverythingMadeIsGone(acts) && ReturnedIn(acts) == returned
  }

  predicate OneSignal(acts: seq<Act>) {
    acts != [] && acts[|acts| - 1].Signal? && forall i | 0 <= i < |acts| - 1 :: !acts[i].Signal?
  }

  predicate GivenBackRetired(acts: seq<Act>) {
    && (Submitted in acts <==> Retired in acts)
    && (Submitted in acts ==> forall i | 0 <= i < |acts| && GivesBack(acts[i]) :: exists j :: 0 <= j < i && acts[j] == Retired)
  }

  function ReturnedIn(acts: seq<Act>): seq<SS.Effect> {
    if acts == [] then [] else (if acts[0].Returned? then [acts[0].effect] else []) + ReturnedIn(acts[1..])
  }

  lemma {:induction false} ReturnedConcat(s: seq<Act>, t: seq<Act>)
    ensures ReturnedIn(s + t) == ReturnedIn(s) + ReturnedIn(t)
  {
    if s == [] {
      assert s + t == t;
    } else {
      ReturnedConcat(s[1..], t);
      assert (s + t)[1..] == s[1..] + t && (s + t)[0] == s[0];
      var first := if s[0].Returned? then [s[0].effect] else [];
      assert ReturnedIn(s + t) == first + (ReturnedIn(s[1..]) + ReturnedIn(t));
      assert ReturnedIn(s) == first + ReturnedIn(s[1..]);
    }
  }

  function AsActs(done: seq<SS.Effect>): (acts: seq<Act>)
    ensures |acts| == |done| && forall i | 0 <= i < |acts| :: acts[i] == Returned(done[i])
  {
    seq(|done|, i requires 0 <= i < |done| => Returned(done[i]))
  }

  lemma {:induction false} ReturnsAreAll(done: seq<SS.Effect>)
    ensures ReturnedIn(AsActs(done)) == done
  {
    if done != [] {
      ReturnsAreAll(done[1..]);
      assert AsActs(done)[1..] == AsActs(done[1..]);
    }
  }

  // ------------------------------------------------------- the receiver

  /** An error wins over a stop, and a stop over the value. */
  function OutcomeOf(failed: bool, stopped: bool): Outcome {
    if failed then Error else if stopped then Stopped else Value
  }

  class OpState {
    const scope: SS.Scope

    constructor (s: SS.Scope)
      ensures scope == s
    {
      scope := s;
    }

    /** complete_after_reclaim: one signal. */
    method CompleteAfterReclaim(failed: bool, stopped: bool) returns (acts: seq<Act>)
      ensures acts == [Signal(OutcomeOf(failed, stopped))]
      ensures |acts| == 1 && acts[0].Signal?
      ensures acts[0].outcome == Error <==> failed
      ensures acts[0].outcome == Stopped <==> !failed && stopped
      ensures acts[0].outcome == Value <==> !failed && !stopped
    {
      if failed { return [Signal(Error)]; }
      if stopped { return [Signal(Stopped)]; }
      acts := [Signal(Value)];
    }

    /** release_scope_and_complete: the scope is returned, then the receiver is signalled. */
    method ReleaseScopeAndComplete(failed: bool, stopped: bool, reset: bool) returns (acts: seq<Act>, ghost done: seq<SS.Effect>)
      requires scope.Valid()
      modifies scope, scope.cleanup, if scope.host != null then {scope.host.context, scope.host.device} else {}
      ensures scope.Valid() && scope.host == null
      ensures acts == AsActs(done) + [Signal(OutcomeOf(failed, stopped))] && |acts| == |done| + 1
      ensures Tells(acts[|done|].outcome, failed, stopped)
      ensures old(scope.host) != null ==>
                done == SS.GivenBack(old(scope.cmd), old(scope.pool), old(scope.cleanup.tracked))
    {
      var effects := scope.Release(reset);
      done := effects;
      acts := CompleteAfterReclaim(failed, stopped);
      acts := AsActs(effects) + acts;
    }

    /**
     start: what it does itself, and the job it leaves with the completion
     waiter. Without a job the submission is over, and Complete.
     */
    method Start(id: CP.JobId, stopRequested: bool, hasStop: bool, answer: Answer, reset: bool)
      returns (acts: seq<Act>, job: Option<CP.Job>, ghost done: seq<SS.Effect>)
      requires scope.Valid() && scope.host != null
      modifies scope, scope.cleanup, scope.host.context, scope.host.device
      ensures scope.Valid()
      ensures job.Some? <==> !stopRequested && answer.Accepted?
      ensures job.Some? ==>
                && job.value == CP.Job(id, answer.semaphore, answer.fence, hasStop, true, true, false)
                && acts == [SemaphoreMade(answer.semaphore), FenceMade(answer.fence), Submitted]
                && unchanged(scope) && unchanged(scope.cleanup) && scope.host != null
      ensures job.None? ==> Complete(acts, done) && scope.host == null && acts[|acts| - 1] == Signal(if stopRequested then Stopped else Error)
      ensures job.None? ==>
                done == SS.GivenBack(old(scope.cmd), old(scope.pool), old(scope.cleanup.tracked))
    {
      hide SS.Scope.Valid, Complete;
      if stopRequested {
        acts, done := ReleaseScopeAndComplete(false, true, reset);
        RefusedIsComplete([], done, Stopped);
        assert acts == [] + AsActs(done) + [Signal(Stopped)];
        job := None;
        return;
      }
      var ok, semaphore, fence, made := SubmitAsync(answer);
      if !ok {
        ghost var before := made;
        made := made + [QueueDrained];      // reclaim_submission_sync with no fence drains the queue
        acts, done := ReleaseScopeAndComplete(true, false, reset);
        acts := made + acts;
        DrainedIsGone(before);
        RefusedIsComplete(before + [QueueDrained], done, Error);
        assert acts == made + AsActs(done) + [Signal(Error)];
        job := None;
        return;
      }
      acts, done := made, [];
      job := Some(CP.Job(id, semaphore, fence, hasStop, true, true, false));
    }

    /**
     The callback of the job start left with the waiter, in any run in which it
     is made and reports these values, and whatever became of the scope's host
     meanwhile. All that happened to the submission is Complete.
     */
    method CompleteSubmitted(id: CP.JobId, semaphore: Handle, fence: Handle, hasStop: bool, failed: bool, stopped: bool, reset: bool,
                             ghost actions: seq<CP.Action>, ghost s: CP.State)
      returns (ghost acts: seq<Act>, ghost done: seq<SS.Effect>)
      requires scope.Valid() && scope.host != null && semaphore != NULL && fence != NULL
      requires CP.Run(actions, s) && CP.Callback(id, failed, stopped) in s.log
      requires id in s.calls && s.calls[id] == CP.Job(id, semaphore, fence, hasStop, true, true, false)
      modifies scope, scope.cleanup, scope.host.context, scope.host.device
      ensures scope.Valid() && scope.host == null
      ensures done == SS.GivenBack(old(scope.cmd), old(scope.pool), old(scope.cleanup.tracked)) && Complete(acts, done)
      ensures acts == Lived(semaphore, fence, CP.Project(s.log, id), done)
      ensures acts[|acts| - 1].Signal? && Tells(acts[|acts| - 1].outcome, failed, stopped)
      ensures Tells(acts[|acts| - 1].outcome, CP.FailedIn(actions, id), CP.StoppedIn(actions, id))
    {
      hide *;
      CallbackCompletes(actions, s, id, semaphore, fence, hasStop, failed, stopped, scope.cmd, scope.pool, scope.cleanup.tracked);
      var last;
      last, done := ReleaseScopeAndComplete(failed, stopped, reset);
      acts := Made(semaphore, fence) + last;
    }

    /** From start to the signal, when nothing else uses the scope's host between the two. */
    method SubmitAndComplete(id: CP.JobId, stopRequested: bool, hasStop: bool, answer: Answer, failed: bool, stopped: bool, reset: bool,
                             ghost actions: seq<CP.Action>, ghost s: CP.State)
      returns (ghost acts: seq<Act>)
      requires scope.Valid() && scope.host != null
      requires !stopRequested && answer.Accepted? ==>
                 && answer.semaphore != NULL && answer.fence != NULL
                 && CP.Run(actions, s) && CP.Callback(id, failed, stopped) in s.log
                 && id in s.calls && s.calls[id] == CP.Job(id, answer.semaphore, answer.fence, hasStop, true, true, false)
      modifies scope, scope.cleanup, scope.host.context, scope.host.device
      ensures scope.Valid() && scope.host == null
      ensures Complete(acts, SS.GivenBack(old(scope.cmd), old(scope.pool), old(scope.cleanup.tracked)))
      ensures acts[|acts| - 1].Signal?
      ensures var o := acts[|acts| - 1].outcome;
              if stopRequested then o == Stopped else if !answer.Accepted? then o == Error
              else Tells(o, failed, stopped) && Tells(o, CP.FailedIn(actions, id), CP.StoppedIn(actions, id))
    {
      hide SS.Scope.Valid, Complete, Lived, CP.Project, CP.Run, OutcomeOf;
      var started, job, done := Start(id, stopRequested, hasStop, answer, reset);
      acts := started;
      if job.Some? {
        acts, done := CompleteSubmitted(id, job.value.semaphore, job.value.fence, hasStop, failed, stopped, reset, actions, s);
      }
    }
  }

  lemma DrainedIsGone(made: seq<Act>)
    requires EverythingMadeIsGone(made)
    ensures EverythingMadeIsGone(made + [QueueDrained])
  {
    forall h: Handle
      ensures Balanced(made + [QueueDrained], SemaphoreMade(h), SemaphoreGone(h))
      ensures Balanced(made + [QueueDrained], FenceMade(h), FenceGone(h))
    {
      assert Balanced(made, SemaphoreMade(h), SemaphoreGone(h)) && Balanced(made, FenceMade(h), FenceGone(h));
    }
  }

  /** A list without signals or returns, balanced, then the returns and a signal. */
  lemma RefusedIsComplete(made: seq<Act>, done: seq<SS.Effect>, o: Outcome)
    requires EverythingMadeIsGone(made) && Submitted !in made && Retired !in made
    requires forall a | a in made :: !a.Signal? && !a.Returned?
    ensures Complete(made + AsActs(done) + [Signal(o)], done)
  {
    hide EverythingMadeIsGone, ReturnedIn, GivenBackRetired;
    TailKeepsBalance(made, done, o);
    ReturnsOf(made, done, o);
    RefusedOrder(made, done, o);
  }

  lemma RefusedOrder(made: seq<Act>, done: seq<SS.Effect>, o: Outcome)
    requires Submitted !in made && Retired !in made && forall a | a in made :: !a.Signal? && !a.Returned?
    ensures OneSignal(made + AsActs(done) + [Signal(o)]) && GivenBackRetired(made + AsActs(done) + [Signal(o)])
  {
    assert Submitted !in AsActs(done) && Retired !in AsActs(done);
  }

  lemma ReturnsOf(made: seq<Act>, done: seq<SS.Effect>, o: Outcome)
    requires forall a | a in made :: !a.Returned?
    ensures ReturnedIn(made + AsActs(done) + [Signal(o)]) == done
  {
    NoReturns(made);
    ReturnsAreAll(done);
    ReturnedConcat(made, AsActs(done));
    ReturnedConcat(made + AsActs(done), [Signal(o)]);
    assert ReturnedIn([Signal(o)]) == [];
    hide ReturnedIn, AsActs;
  }

  lemma {:induction false} NoReturns(made: seq<Act>)
    requires forall a | a in made :: !a.Returned?
    ensures ReturnedIn(made) == []
  {
    if made != [] {
      assert made[0] in made;
      NoReturns(made[1..]);
    }
  }

  lemma TailKeepsBalance(made: seq<Act>, done: seq<SS.Effect>, o: Outcome)
    requires EverythingMadeIsGone(made)
    ensures EverythingMadeIsGone(made + AsActs(done) + [Signal(o)])
  {
    var all := made + AsActs(done) + [Signal(o)];
    forall a: Act | !a.Returned? && !a.Signal?
      ensures multiset(all)[a] == multiset(made)[a]
    {
      assert a !in AsActs(done);
      assert multiset(all) == multiset(made) + multiset(AsActs(done)) + multiset([Signal(o)]);
    }
    forall h: Handle
      ensures Balanced(all, SemaphoreMade(h), SemaphoreGone(h)) && Balanced(all, FenceMade(h), FenceGone(h))
    {
      assert Balanced(made, SemaphoreMade(h), SemaphoreGone(h)) && Balanced(made, FenceMade(h), FenceGone(h));
    }
  }

  // -------------------------------------------------- the whole submission

  /** A completion event as an act; the callback is release_scope_and_complete. */
  function Expanded(e: CP.Event, done: seq<SS.Effect>): seq<Act> {
    match e
    case Retired(_) => [Retired]
    case SemaphoreDestroyed(_, semaphore) => [SemaphoreGone(semaphore)]
    case FenceDestroyed(_, fence) => [FenceGone(fence)]
    case Callback(_, failed, stopped) => AsActs(done) + [Signal(OutcomeOf(failed, stopped))]
    case StopSeen(_) => []
  }

  function ExpandAll(log: seq<CP.Event>, done: seq<SS.Effect>): seq<Act> {
    if log == [] then [] else Expanded(log[0], done) + ExpandAll(log[1..], done)
  }

  /**
   In every interleaving, once a fence submission's call has been called back,
   what happened to it is Complete: retirement, then destruction of its
   semaphore and fence, then its command buffer, its pool and its descriptor
   sets, then one signal. An error wins; otherwise a stop that some poll saw is
   reported.
   */
  lemma SubmissionIsComplete(actions: seq<CP.Action>, s: CP.State, id: CP.JobId, semaphore: Handle, fence: Handle, hasStop: bool,
                             cmd: Handle, pool: Handle, tracked: seq<DC.AllocatedSet>)
    requires CP.Run(actions, s) && CP.CalledBack(s, id) && id in s.calls
    requires s.calls[id] == CP.Job(id, semaphore, fence, hasStop, true, true, false) && semaphore != NULL && fence != NULL
    ensures var done := SS.GivenBack(cmd, pool, tracked);
            var acts := Lived(semaphore, fence, CP.Project(s.log, id), done);
            && Complete(acts, done)
            && acts == Expected(semaphore, fence, done, OutcomeOf(CP.Record(s, id).failed, CP.StopSeen(id) in s.log))
            && acts[|acts| - 1].Signal? && Tells(acts[|acts| - 1].outcome, CP.FailedIn(actions, id), CP.StoppedIn(actions, id))
  {
    CP.RunsAccount(actions, s, id);
    CP.CompletionOrder(actions, s, id);
    var c := CP.Record(s, id);
    var stopped := CP.StopSeen(id) in s.log;
    var done := SS.GivenBack(cmd, pool, tracked);
    ScriptOfSubmission(c, semaphore, fence);
    RecordIsDoomed(actions, s, id);
    OutcomeTells(c.failed, stopped);
    hide *;
    ExpectedEnds(semaphore, fence, done, OutcomeOf(c.failed, stopped));
    LivedAsExpected(id, semaphore, fence, c.failed, stopped, done);
    ExpectedIsComplete(semaphore, fence, done, OutcomeOf(c.failed, stopped));
  }

  /** The callback in the log is the one call of its kind, and reports what the completion's record holds. */
  lemma CallbackReports(actions: seq<CP.Action>, s: CP.State, id: CP.JobId, failed: bool, stopped: bool)
    requires CP.Run(actions, s) && id in s.calls && s.calls[id].notifies && CP.Callback(id, failed, stopped) in s.log
    ensures CP.CalledBack(s, id) && CP.Record(s, id).failed == failed && stopped == (CP.StopSeen(id) in s.log)
  {
    var e := CP.Callback(id, failed, stopped);
    CP.LoggedInProjection(s.log, e);
    CP.CallbackCounts(s.log, e);
    CP.ExactlyOneCallback(actions, s, id);
    CP.CompletionOrder(actions, s, id);
    assert e in CP.Script(CP.Record(s, id));
  }

  lemma CallbackCompletes(actions: seq<CP.Action>, s: CP.State, id: CP.JobId, semaphore: Handle, fence: Handle, hasStop: bool,
                          failed: bool, stopped: bool, cmd: Handle, pool: Handle, tracked: seq<DC.AllocatedSet>)
    requires CP.Run(actions, s) && CP.Callback(id, failed, stopped) in s.log && semaphore != NULL && fence != NULL
    requires id in s.calls && s.calls[id] == CP.Job(id, semaphore, fence, hasStop, true, true, false)
    ensures var done := SS.GivenBack(cmd, pool, tracked);
            var acts := Made(semaphore, fence) + (AsActs(done) + [Signal(OutcomeOf(failed, stopped))]);
            && Complete(acts, done) && acts == Lived(semaphore, fence, CP.Project(s.log, id), done)
            && acts[|acts| - 1] == Signal(OutcomeOf(failed, stopped)) && Tells(OutcomeOf(failed, stopped), failed, stopped)
            && (failed <==> CP.FailedIn(actions, id)) && (stopped <==> CP.StoppedIn(actions, id))
  {
    hide *;
    OutcomeTells(failed, stopped);
    CP.CallbackTells(actions, s, id, failed, stopped);
    CallbackReports(actions, s, id, failed, stopped);
    SubmissionIsComplete(actions, s, id, semaphore, fence, hasStop, cmd, pool, tracked);
    ExpectedEnds(semaphore, fence, SS.GivenBack(cmd, pool, tracked), OutcomeOf(failed, stopped));
  }

  lemma ExpectedEnds(semaphore: Handle, fence: Handle, done: seq<SS.Effect>, o: Outcome)
    ensures var acts := Expected(semaphore, fence, done, o);
            acts == Made(semaphore, fence) + (AsActs(done) + [Signal(o)]) && acts[|acts| - 1] == Signal(o)
  {
    hide Made, AsActs;
  }

  /** A submission with everything that happened to it. */
  function Lived(semaphore: Handle, fence: Handle, events: seq<CP.Event>, done: seq<SS.Effect>): seq<Act> {
    [SemaphoreMade(semaphore), FenceMade(fence), Submitted] + ExpandAll(events, done)
  }

  /** The one order there is. */
  function Expected(semaphore: Handle, fence: Handle, done: seq<SS.Effect>, o: Outcome): seq<Act> {
    Made(semaphore, fence) + AsActs(done) + [Signal(o)]
  }

  function Made(semaphore: Handle, fence: Handle): seq<Act> {
    [SemaphoreMade(semaphore), FenceMade(fence), Submitted, Retired, SemaphoreGone(semaphore), FenceGone(fence)]
  }

  lemma LivedAsExpected(id: CP.JobId, semaphore: Handle, fence: Handle, failed: bool, stopped: bool, done: seq<SS.Effect>)
    ensures Lived(semaphore, fence, SubmissionScript(id, semaphore, fence, failed, stopped), done)
            == Expected(semaphore, fence, done, OutcomeOf(failed, stopped))
  {
    ExpandScript(id, semaphore, fence, failed, stopped, done);
    var made := [SemaphoreMade(semaphore), FenceMade(fence), Submitted];
    var gone := [Retired, SemaphoreGone(semaphore), FenceGone(fence)];
    hide ExpandAll, SubmissionScript, OutcomeOf;
    assert made + gone == Made(semaphore, fence);
    Regroup(made, gone, AsActs(done), [Signal(OutcomeOf(failed, stopped))]);
  }

  function SubmissionScript(id: CP.JobId, semaphore: Handle, fence: Handle, failed: bool, stopped: bool): seq<CP.Event> {
    [CP.Retired(id), CP.SemaphoreDestroyed(id, semaphore), CP.FenceDestroyed(id, fence), CP.Callback(id, failed, stopped)]
  }

  lemma OutcomeTells(failed: bool, stopped: bool)
    ensures Tells(OutcomeOf(failed, stopped), failed, stopped)
  {
  }

  lemma RecordIsDoomed(actions: seq<CP.Action>, s: CP.State, id: CP.JobId)
    requires CP.Run(actions, s) && CP.CalledBack(s, id)
    ensures CP.Record(s, id).failed == CP.Doomed(s, id)
  {
    CP.ExactlyOnePlace(actions, s, id);
  }

  lemma Regroup(a: seq<Act>, b: seq<Act>, c: seq<Act>, d: seq<Act>)
    ensures a + (b + c + d) == a + b + c + d
  {
  }

  lemma ScriptOfSubmission(c: CP.Completion, semaphore: Handle, fence: Handle)
    requires c.job.destroySync && c.job.notifies && semaphore != NULL && fence != NULL
    requires c.job.semaphore == semaphore && c.job.fence == fence
    ensures CP.Script(c) == SubmissionScript(c.job.id, semaphore, fence, c.failed, c.job.stopSeen)
  {
  }

  lemma ExpandCons(e: CP.Event, rest: seq<CP.Event>, done: seq<SS.Effect>)
    ensures ExpandAll([e] + rest, done) == Expanded(e, done) + ExpandAll(rest, done)
  {
    assert ([e] + rest)[1..] == rest;
  }

  lemma ExpandScript(id: CP.JobId, semaphore: Handle, fence: Handle, failed: bool, stopped: bool, done: seq<SS.Effect>)
    ensures ExpandAll(SubmissionScript(id, semaphore, fence, failed, stopped), done)
            == [Retired, SemaphoreGone(semaphore), FenceGone(fence)] + AsActs(done) + [Signal(OutcomeOf(failed, stopped))]
  {
    var a, b, c, d := CP.Retired(id), CP.SemaphoreDestroyed(id, semaphore), CP.FenceDestroyed(id, fence), CP.Callback(id, failed, stopped);
    assert [a, b, c, d] == [a] + [b, c, d] && [b, c, d] == [b] + [c, d] && [c, d] == [c] + [d] && [d] == [d] + [];
    ExpandCons(a, [b, c, d], done);
    ExpandCons(b, [c, d], done);
    ExpandCons(c, [d], done);
    ExpandCons(d, [], done);
    var o := [Signal(OutcomeOf(failed, stopped))];
    assert ExpandAll([d], done) == AsActs(done) + o;
    hide ExpandAll, Expanded;
    assert [Retired] + ([SemaphoreGone(semaphore)] + ([FenceGone(fence)] + (AsActs(done) + o)))
           == [Retired, SemaphoreGone(semaphore), FenceGone(fence)] + AsActs(done) + o;
  }

  lemma ExpectedIsComplete(semaphore: Handle, fence: Handle, done: seq<SS.Effect>, o: Outcome)
    ensures Complete(Expected(semaphore, fence, done, o), done)
  {
    hide EverythingMadeIsGone, OneSignal, GivenBackRetired, AsActs;
    MadeIsGone(semaphore, fence);
    TailKeepsBalance(Made(semaphore, fence), done, o);
    ReturnsOf(Made(semaphore, fence), done, o);
    ExpectedOrder(semaphore, fence, done, o);
  }

  lemma ExpectedOrder(semaphore: Handle, fence: Handle, done: seq<SS.Effect>, o: Outcome)
    ensures OneSignal(Expected(semaphore, fence, done, o)) && GivenBackRetired(Expected(semaphore, fence, done, o))
  {
    var made := Made(semaphore, fence);
    var all := Expected(semaphore, fence, done, o);
    assert all[..6] == made && made[2] == Submitted && made[3] == Retired;
    assert all[2] == Submitted && all[3] == Retired;
    assert forall i | 0 <= i < 4 :: all[i] == made[i] && !GivesBack(made[i]);
  }

  lemma TallyMade(semaphore: Handle, fence: Handle, a: Act)
    ensures multiset(Made(semaphore, fence))[a]
            == if a == SemaphoreMade(semaphore) || a == FenceMade(fence) || a == Submitted || a == Retired
                  || a == SemaphoreGone(semaphore) || a == FenceGone(fence) then 1 else 0
  {
  }

  lemma MadeIsGone(semaphore: Handle, fence: Handle)
    ensures EverythingMadeIsGone(Made(semaphore, fence))
  {
    hide Made;
    forall h: Handle
      ensures Balanced(Made(semaphore, fence), SemaphoreMade(h), SemaphoreGone(h)) && Balanced(Made(semaphore, fence), FenceMade(h), FenceGone(h))
    {
      TallyMade(semaphore, fence, SemaphoreMade(h));
      TallyMade(semaphore, fence, SemaphoreGone(h));
      TallyMade(semaphore, fence, FenceMade(h));
      TallyMade(semaphore, fence, FenceGone(h));
    }
  }
}
