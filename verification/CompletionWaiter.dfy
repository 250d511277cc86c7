/**
 The statements of src/vkexec/completion_waiter.cpp over mutable state. Every
 statement with an effect outside the worker's own variables also takes the
 matching step of CompletionProtocol, so each method is shown to produce only
 protocol runs, and what is proved of all runs holds of the code.
 */
module CompletionWaiter {
  import opened Optional
  import opened CompletionProtocol

  /** What the other threads, and callbacks that enqueue again, may have done meanwhile. */
  ghost predicate OthersOnly(s: State, t: State, mine: set<JobId>) {
    && t.worker == s.worker && t.busy == s.busy && t.nested == s.nested
    && (s.shuttingDown ==> t.shuttingDown) && s.pending <= t.pending
    && s.log <= t.log && s.calls.Keys <= t.calls.Keys && s.retired <= t.retired && (s.lost ==> t.lost)
    && (forall id | id in mine && id in s.completing :: id in t.completing && t.completing[id] == s.completing[id])
  }

  /**
   What the calls of one turn of the loop answer: each stop token, the wait of the
   turn (for the queue if no job has a fence), and for each job its fence's status
   and whether the wait for its own retirement fails.
   */
  datatype Answers = Answers(stop: JobId -> bool, waitFails: bool, status: JobId -> FenceStatus, ownFails: JobId -> bool)

  function NonNullFences(jobs: seq<Job>): seq<Handle> {
    if jobs == [] then [] else (if jobs[0].fence != NULL then [jobs[0].fence] else []) + NonNullFences(jobs[1..])
  }

  lemma {:induction false} NoFences(jobs: seq<Job>)
    ensures NonNullFences(jobs) == [] <==> forall k | 0 <= k < |jobs| :: jobs[k].fence == NULL
  {
    if jobs != [] {
      NoFences(jobs[1..]);
      assert jobs == [jobs[0]] + jobs[1..];
    }
  }

  /** Those of the jobs whose fences are not ready, in order. */
  predicate Kept(jobs: seq<Job>, kept: seq<Job>, status: JobId -> FenceStatus) {
    && |kept| <= |jobs|
    && (forall job | job in kept :: job in jobs && job.fence != NULL && status(job.id).NotReady?)
    && (forall job | job in jobs && job.fence != NULL && status(job.id).NotReady? :: job in kept)
  }

  lemma KeptMore(jobs: seq<Job>, k: nat, kept: seq<Job>, status: JobId -> FenceStatus)
    requires k < |jobs| && Kept(jobs[..k], kept, status)
    ensures Kept(jobs[..k + 1], if jobs[k].fence != NULL && status(jobs[k].id).NotReady? then kept + [jobs[k]] else kept, status)
  {
    assert jobs[..k + 1] == jobs[..k] + [jobs[k]];
  }

  /**
   A turn's outcome for the jobs it took. If none has a fence, or the wait for
   any fence fails, all are called back; otherwise those whose fences are not
   ready are kept, each with its stop token asked, and the others called back.
   What a callback says is what was answered.
   */
  ghost predicate TurnOf(active: seq<Job>, next: seq<Job>, answers: Answers, effects: seq<Event>) {
    var all := answers.waitFails || forall k | 0 <= k < |active| :: active[k].fence == NULL;
    && (all ==> next == [])
    && (!all ==> |next| <= |active| && forall job | job in next :: job.fence != NULL && answers.status(job.id).NotReady?)
    && forall k | 0 <= k < |active| ::
         var waits := !all && active[k].fence != NULL && answers.status(active[k].id).NotReady?;
         var stopped := active[k].stopSeen || (active[k].hasStop && answers.stop(active[k].id));
         var failed := || answers.waitFails || (!all && active[k].fence != NULL && answers.status(active[k].id).FenceError?)
                       || (answers.ownFails(active[k].id) && (active[k].destroySync || active[k].fence != NULL));
         && (waits ==> active[k].(stopSeen := stopped) in next)
         && (!waits && active[k].notifies ==> Callback(active[k].id, failed, stopped) in effects)
  }

  /** These answers call the job back. */
  predicate Due(job: Job, answers: Answers) {
    job.fence == NULL || answers.waitFails || !answers.status(job.id).NotReady?
  }

  ghost predicate Told(effects: seq<Event>, id: JobId) {
    exists failed, stopped :: Callback(id, failed, stopped) in effects
  }

  /** The job, whatever its stop token has answered. */
  ghost predicate Among(job: Job, jobs: seq<Job>) {
    exists seen :: job.(stopSeen := seen) in jobs
  }

  lemma TurnDecides(taken: seq<Job>, next: seq<Job>, answers: Answers, effects: seq<Event>, job: Job)
    requires TurnOf(taken, next, answers, effects) && Among(job, taken) && job.notifies
    ensures if Due(job, answers) then Told(effects, job.id) else Among(job, next)
  {
    var seen :| job.(stopSeen := seen) in taken;
    var k :| 0 <= k < |taken| && taken[k] == job.(stopSeen := seen);
    var stopped := taken[k].stopSeen || (taken[k].hasStop && answers.stop(taken[k].id));
    assert taken[k].(stopSeen := stopped) == job.(stopSeen := stopped);
  }

  class Waiter {
    var pending: seq<Job>
    var shuttingDown: bool
    var effects: seq<Event>          // waits, destructions, callbacks and observed stops, in order
    ghost var history: seq<Action>
    ghost var protocol: State

    ghost predicate Valid()
      reads this
    {
      && CompletionProtocol.Run(history, protocol)
      && protocol.pending == pending && protocol.shuttingDown == shuttingDown && protocol.log == effects
    }

    constructor ()
      ensures Valid() && protocol == Initial()
      ensures pending == [] && !shuttingDown && effects == [] && protocol.worker == Waiting([])
    {
      pending, shuttingDown, effects := [], false, [];
      history, protocol := [], Initial();
    }

    /** One step of the protocol. */
    ghost method Step(a: Action)
      requires CompletionProtocol.Run(history, protocol) && Enabled(protocol, a)
      modifies `history, `protocol
      ensures CompletionProtocol.Run(history, protocol) && protocol == Apply(old(protocol), a)
    {
      RunExtends(history, protocol, a);
      history := history + [a];
      protocol := Apply(protocol, a);
    }

    /** A point where the lock is free: other threads may run. Callers know only this contract. */
    method Others(ghost mine: set<JobId>)
      requires Valid()
      modifies this
      ensures Valid() && OthersOnly(old(protocol), protocol, mine)
    {
    }

    /** wait_for_retirement, or the fallback queue wait: returns once the work has retired. */
    method WaitForRetirement(id: JobId, fails: bool) returns (waitFailed: bool)
      requires Valid() && id in protocol.completing && protocol.completing[id].progress < |Script(protocol.completing[id])|
      requires Script(protocol.completing[id])[protocol.completing[id].progress] == Retired(id)
      modifies this
      ensures Valid() && protocol.worker == old(protocol.worker) && protocol.busy == old(protocol.busy) && protocol.nested == old(protocol.nested)
      ensures id in protocol.completing && old(protocol.calls).Keys <= protocol.calls.Keys && old(effects) <= effects
      ensures var c := old(protocol.completing[id]);
              waitFailed == fails && protocol.completing[id] == c.(failed := c.failed || fails, progress := c.progress + 1)
    {
      Others({id});
      Step(GpuRetire(id));
      waitFailed := fails;
      Step(Advance(id, waitFailed));
      effects := effects + [Retired(id)];
    }

    /** An effect of completing job id: its next event happens. */
    method Effect(id: JobId, e: Event)
      requires Valid() && id in protocol.completing && protocol.completing[id].progress < |Script(protocol.completing[id])|
      requires Script(protocol.completing[id])[protocol.completing[id].progress] == e && !e.Retired?
      modifies this
      ensures Valid() && protocol.worker == old(protocol.worker) && protocol.busy == old(protocol.busy) && protocol.nested == old(protocol.nested)
      ensures id in protocol.completing && old(protocol.calls).Keys <= protocol.calls.Keys && old(effects) <= effects && e in effects
      ensures protocol.completing[id] == old(protocol.completing[id]).(progress := old(protocol.completing[id]).progress + 1)
    {
      effects := effects + [e];
      assert effects[|effects| - 1] == e;
      Step(Advance(id, false));
      ghost var so := effects;
      Others({id});
      assert effects[|so| - 1] == so[|so| - 1];
    }

    /** reclaim_sync: wait, then destroy the owned semaphore and fence; the answer of the wait is given back. */
    method ReclaimSync(item: Job, fails: bool) returns (waitFailed: bool)
      requires Valid() && item.destroySync && item.id in protocol.completing
      requires protocol.completing[item.id].job == item && protocol.completing[item.id].progress == 0
      modifies this
      ensures Valid() && protocol.worker == old(protocol.worker) && protocol.busy == old(protocol.busy) && protocol.nested == old(protocol.nested)
      ensures item.id in protocol.completing && old(protocol.calls).Keys <= protocol.calls.Keys && old(effects) <= effects
      ensures var c, d := old(protocol.completing[item.id]), protocol.completing[item.id];
              && waitFailed == fails
              && d == c.(failed := c.failed || fails, progress := |Script(c)| - if item.notifies then 1 else 0)
    {
      waitFailed := WaitForRetirement(item.id, fails);
      if item.semaphore != NULL {
        Effect(item.id, SemaphoreDestroyed(item.id, item.semaphore));
      }
      if item.fence != NULL {
        Effect(item.id, FenceDestroyed(item.id, item.fence));
      }
    }

    /** enqueue and enqueue_borrowed. */
    method Enqueue(job: Job, fails: bool) returns (accepted: bool)
      requires Valid() && job.id !in protocol.calls && !job.stopSeen
      modifies this
      ensures Valid() && job.id in protocol.calls && protocol.worker == old(protocol.worker)
      ensures accepted == !old(shuttingDown)
      ensures accepted ==> pending == old(pending) + [job] && effects == old(effects)
      ensures !accepted ==> job.id in protocol.finished && protocol.finished[job.id].rejected && old(effects) <= effects
      ensures !accepted && job.notifies ==> Callback(job.id, true, false) in effects
    {
      FreshIsNotUnderWay(history, protocol, job.id);
      Step(CompletionProtocol.Enqueue(job));
      if !shuttingDown {
        pending := pending + [job];
        return true;
      }
      FinishRejected(job, fails);
      return false;
    }

    /** A rejected call is reclaimed if it owns anything, and called back with the error of the rejection. */
    method FinishRejected(job: Job, fails: bool)
      requires Valid() && job.id in protocol.completing && protocol.completing[job.id] == Completion(job, true, true, 0) && !job.stopSeen
      requires protocol.busy != Some(job.id) && job.id !in protocol.nested
      modifies this
      ensures Valid() && protocol.worker == old(protocol.worker) && old(effects) <= effects && old(protocol.calls).Keys <= protocol.calls.Keys
      ensures job.id in protocol.finished && protocol.finished[job.id].rejected
      ensures job.notifies ==> Callback(job.id, true, false) in effects
    {
      if job.destroySync {
        var _ := ReclaimSync(job, fails);
      }
      if job.notifies {
        Effect(job.id, Callback(job.id, true, false));
      }
      Step(Return(job.id));
    }

    /** The first half of finish_job: everything before the callback. */
    method ReclaimJob(item: Job, failed: bool, fails: bool) returns (failure: bool)
      requires Valid() && protocol.busy == Some(item.id) && item.id in protocol.completing
      requires protocol.completing[item.id] == Completion(item, false, failed, 0)
      modifies this
      ensures Valid() && protocol.worker == old(protocol.worker) && protocol.busy == old(protocol.busy) && protocol.nested == old(protocol.nested)
      ensures item.id in protocol.completing && old(effects) <= effects
      ensures failure <==> failed || (fails && (item.destroySync || item.fence != NULL))
      ensures var c := Completion(item, false, failed, 0);
              protocol.completing[item.id] == Completion(item, false, failure, |Script(c)| - if item.notifies then 1 else 0)
    {
      failure := failed;
      if item.destroySync {
        var waitFailed := ReclaimSync(item, fails);
        if waitFailed && !failure {
          failure := true;
        }
      } else if item.fence != NULL {
        var waitFailed := WaitForRetirement(item.id, fails);
        if waitFailed && !failure {
          failure := true;
        }
      }
    }

    /** finish_job: reclaim before the callback; a failed wait becomes the error only when there is none yet. */
    method FinishJob(item: Job, failed: bool, fails: bool)
      requires Valid() && protocol.busy == Some(item.id) && item.id in protocol.completing
      requires protocol.completing[item.id] == Completion(item, false, failed, 0) && protocol.nested == []
      modifies this
      ensures Valid() && protocol.worker == old(protocol.worker) && protocol.busy == None && protocol.nested == [] && old(effects) <= effects
      ensures item.notifies ==> Callback(item.id, failed || (fails && (item.destroySync || item.fence != NULL)), item.stopSeen) in effects
    {
      var failure := ReclaimJob(item, failed, fails);
      if item.notifies {
        Effect(item.id, Callback(item.id, failure, item.stopSeen));
      }
      Step(Return(item.id));
    }

    /** finish_all. */
    method FinishAll(jobs: seq<Job>, error: bool, ownFails: JobId -> bool)
      requires Valid() && protocol.worker == FinishingAll(jobs, error) && protocol.busy == None && protocol.nested == []
      modifies this
      ensures Valid() && protocol.worker == Waiting([]) && protocol.busy == None && protocol.nested == [] && old(effects) <= effects
      ensures forall m | 0 <= m < |jobs| && jobs[m].notifies ::
                Callback(jobs[m].id, error || (ownFails(jobs[m].id) && (jobs[m].destroySync || jobs[m].fence != NULL)), jobs[m].stopSeen) in effects
    {
      for k := 0 to |jobs|
        invariant Valid() && protocol.worker == FinishingAll(jobs[k..], error) && protocol.busy == None && protocol.nested == []
        invariant old(effects) <= effects
        invariant forall m | 0 <= m < k && jobs[m].notifies ::
                    Callback(jobs[m].id, error || (ownFails(jobs[m].id) && (jobs[m].destroySync || jobs[m].fence != NULL)), jobs[m].stopSeen) in effects
      {
        ghost var before := effects;
        Step(FinishNext);
        assert jobs[k..][1..] == jobs[k + 1..];
        FinishJob(jobs[k], error, ownFails(jobs[k].id));
        assert forall e | e in before :: e in effects;
      }
      Step(FinishNext);
    }

    /** poll_stop_flags: each stop token is asked once, and a flag once set stays set. */
    method PollStopFlags(active: seq<Job>, stop: JobId -> bool) returns (jobs: seq<Job>)
      requires Valid() && protocol.worker == Polling(active, 0)
      modifies this
      ensures Valid() && protocol.worker == Choosing(jobs) && protocol.busy == old(protocol.busy) && protocol.nested == old(protocol.nested)
      ensures |jobs| == |active| && old(effects) <= effects
      ensures forall k | 0 <= k < |jobs| :: jobs[k] == active[k].(stopSeen := active[k].stopSeen || (active[k].hasStop && stop(active[k].id)))
    {
      jobs := active;
      for k := 0 to |active|
        invariant |jobs| == |active| && forall m | k <= m < |jobs| :: jobs[m] == active[m]
        invariant Valid() && protocol.worker == Polling(jobs, k) && protocol.busy == old(protocol.busy) && protocol.nested == old(protocol.nested)
        invariant old(effects) <= effects
        invariant forall m | 0 <= m < k :: jobs[m] == active[m].(stopSeen := active[m].stopSeen || (active[m].hasStop && stop(active[m].id)))
      {
        var item := PollStopFlag(jobs, k, stop(jobs[k].id));
        jobs := jobs[k := item];
      }
      Step(Poll(false));
    }

    method PollStopFlag(jobs: seq<Job>, k: nat, requested: bool) returns (item: Job)
      requires Valid() && k < |jobs| && protocol.worker == Polling(jobs, k)
      modifies this
      ensures Valid() && protocol.worker == Polling(jobs[k := item], k + 1) && old(effects) <= effects
      ensures protocol.busy == old(protocol.busy) && protocol.nested == old(protocol.nested)
      ensures item == jobs[k].(stopSeen := jobs[k].stopSeen || (jobs[k].hasStop && requested))
    {
      hide CompletionProtocol.Run;
      item := jobs[k];
      Step(Poll(requested));
      if item.hasStop {
        if !item.stopSeen && requested {
          effects := effects + [StopSeen(item.id)];
        }
        item := item.(stopSeen := item.stopSeen || requested);
      }
      Others({});
    }

    /** collect_fences. */
    method CollectFences(jobs: seq<Job>) returns (fences: seq<Handle>)
      ensures fences == NonNullFences(jobs)
    {
      fences := [];
      for k := 0 to |jobs|
        invariant fences + NonNullFences(jobs[k..]) == NonNullFences(jobs)
      {
        if jobs[k].fence != NULL {
          fences := fences + [jobs[k].fence];
        }
        assert jobs[k..][1..] == jobs[k + 1..];
      }
    }

    /** reap_ready_jobs: answered and failed fences are finished, the others kept in order. */
    method ReapReadyJobs(jobs: seq<Job>, answers: Answers) returns (stillWaiting: seq<Job>)
      requires Valid() && protocol.worker == Reaping(jobs, []) && protocol.busy == None && protocol.nested == []
      modifies this
      ensures Valid() && protocol.worker == Waiting(stillWaiting) && protocol.busy == None && protocol.nested == [] && old(effects) <= effects
      ensures Kept(jobs, stillWaiting, answers.status)
      ensures forall m | 0 <= m < |jobs| && jobs[m].notifies && !(jobs[m].fence != NULL && answers.status(jobs[m].id).NotReady?) ::
                Callback(jobs[m].id, (jobs[m].fence != NULL && answers.status(jobs[m].id).FenceError?)
                                     || (answers.ownFails(jobs[m].id) && (jobs[m].destroySync || jobs[m].fence != NULL)),
                         jobs[m].stopSeen) in effects
    {
      stillWaiting := [];
      for k := 0 to |jobs|
        invariant Valid() && protocol.worker == Reaping(jobs[k..], stillWaiting) && protocol.busy == None && protocol.nested == []
        invariant old(effects) <= effects && Kept(jobs[..k], stillWaiting, answers.status)
        invariant forall m | 0 <= m < k && jobs[m].notifies && !(jobs[m].fence != NULL && answers.status(jobs[m].id).NotReady?) ::
                    Callback(jobs[m].id, (jobs[m].fence != NULL && answers.status(jobs[m].id).FenceError?)
                                         || (answers.ownFails(jobs[m].id) && (jobs[m].destroySync || jobs[m].fence != NULL)),
                             jobs[m].stopSeen) in effects
      {
        ghost var before := effects;
        KeptMore(jobs, k, stillWaiting, answers.status);
        stillWaiting := ReapJob(jobs, k, stillWaiting, answers);
        assert forall e | e in before :: e in effects;
      }
      assert jobs[..|jobs|] == jobs;
      Step(Reap(NotReady));
    }

    /** One job of the list: finished, or kept. */
    method ReapJob(jobs: seq<Job>, k: nat, stillWaiting: seq<Job>, answers: Answers) returns (kept: seq<Job>)
      requires k < |jobs|
      requires Valid() && protocol.worker == Reaping(jobs[k..], stillWaiting) && protocol.busy == None && protocol.nested == []
      modifies this
      ensures Valid() && protocol.worker == Reaping(jobs[k + 1..], kept) && protocol.busy == None && protocol.nested == [] && old(effects) <= effects
      ensures kept == if jobs[k].fence != NULL && answers.status(jobs[k].id).NotReady? then stillWaiting + [jobs[k]] else stillWaiting
      ensures jobs[k].notifies && !(jobs[k].fence != NULL && answers.status(jobs[k].id).NotReady?) ==>
                Callback(jobs[k].id, (jobs[k].fence != NULL && answers.status(jobs[k].id).FenceError?)
                                     || (answers.ownFails(jobs[k].id) && (jobs[k].destroySync || jobs[k].fence != NULL)),
                         jobs[k].stopSeen) in effects
    {
      hide Enabled, Apply, DoReap;
      var item := jobs[k];
      kept := stillWaiting;
      var status := NotReady;
      if item.fence != NULL {
        status := GetFenceStatus(item.id, answers.status(item.id));
      }
      ReapTakesUp(protocol, jobs, k, stillWaiting, status);
      Step(Reap(status));
      if item.fence == NULL {
        FinishJob(item, false, answers.ownFails(item.id));
      } else {
        match status
        case Signalled => FinishJob(item, false, answers.ownFails(item.id));
        case NotReady => kept := kept + [item];
        case FenceError => FinishJob(item, true, answers.ownFails(item.id));
      }
    }

    /** vkGetFenceStatus: signalled only when the work has retired. */
    method GetFenceStatus(ghost id: JobId, answer: FenceStatus) returns (status: FenceStatus)
      requires Valid()
      modifies this
      ensures Valid() && protocol.worker == old(protocol.worker) && protocol.busy == old(protocol.busy) && protocol.nested == old(protocol.nested)
      ensures status == answer && (status.Signalled? ==> id in protocol.retired) && old(effects) <= effects
    {
      Others({});
      status := answer;
      if status.Signalled? {
        Step(GpuRetire(id));
      }
    }

    /** The critical section of run: move all of pending over, and decide whether to leave. */
    method TakePending(active: seq<Job>) returns (next: seq<Job>, exited: bool)
      requires Valid() && protocol.worker == Waiting(active) && Enabled(protocol, Take)
      modifies this
      ensures Valid() && protocol.busy == old(protocol.busy) && protocol.nested == old(protocol.nested)
      ensures next == active + old(pending) && exited == (shuttingDown && next == [])
      ensures shuttingDown == old(shuttingDown) && effects == old(effects) && pending == []
      ensures protocol.worker == if exited then Exited else Polling(next, 0)
    {
      next := active;
      Step(Take);
      if pending != [] {
        next := next + pending;
        pending := [];
      } else {
        assert next + pending == next;
      }
      exited := shuttingDown && next == [];
    }

    /**
     One turn of the loop in run. The thread leaves, or takes up what it was
     waiting for and everything enqueued so far; it goes on waiting only if there
     was nothing to wake it.
     */
    method RunOnce(active: seq<Job>, answers: Answers) returns (next: seq<Job>, exited: bool)
      requires Valid() && protocol.worker == Waiting(active) && protocol.busy == None
      modifies this
      ensures Valid() && protocol.busy == None && old(effects) <= effects
      ensures if exited then protocol.worker.Exited? else protocol.worker == Waiting(next)
      ensures exited ==> active == [] && old(pending) == [] && shuttingDown
      ensures !exited ==>
                || (active == [] && next == [] && old(pending) == [] && !old(shuttingDown))
                || exists taken :: taken != [] && active + old(pending) <= taken && TurnOf(taken, next, answers, effects)
    {
      hide TurnOf;
      Others({});
      if !(shuttingDown || pending != [] || active != []) {
        return active, false;                         // the condition variable keeps waiting
      }
      IdleIsUnnested(history, protocol);
      var taken;
      taken, exited := TakePending(active);
      next := taken;
      if !exited {
        next := RestOfTurn(taken, answers);
      }
    }

    /** The turn after its critical section: every stop token is asked first. */
    method RestOfTurn(active: seq<Job>, answers: Answers) returns (next: seq<Job>)
      requires Valid() && protocol.worker == Polling(active, 0) && protocol.busy == None && protocol.nested == []
      modifies this
      ensures Valid() && protocol.worker == Waiting(next) && protocol.busy == None && old(effects) <= effects
      ensures TurnOf(active, next, answers, effects)
    {
      var jobs := PollStopFlags(active, answers.stop);
      var fences := CollectFences(jobs);
      NoFences(jobs);
      assert fences == [] <==> forall k | 0 <= k < |active| :: active[k].fence == NULL by {
        assert forall k | 0 <= k < |active| :: jobs[k].fence == active[k].fence;
      }
      next := FinishTurn(jobs, fences == [], answers);
    }

    method FinishTurn(jobs: seq<Job>, noFences: bool, answers: Answers) returns (next: seq<Job>)
      requires Valid() && protocol.worker == Choosing(jobs) && protocol.busy == None && protocol.nested == []
      requires noFences <==> forall k | 0 <= k < |jobs| :: jobs[k].fence == NULL
      modifies this
      ensures Valid() && protocol.worker == Waiting(next) && protocol.busy == None && old(effects) <= effects
      ensures if answers.waitFails || noFences then next == [] else Kept(jobs, next, answers.status)
      ensures forall m | 0 <= m < |jobs| && jobs[m].notifies ::
                (answers.waitFails || noFences || !(jobs[m].fence != NULL && answers.status(jobs[m].id).NotReady?)) ==>
                Callback(jobs[m].id, || answers.waitFails || (!noFences && jobs[m].fence != NULL && answers.status(jobs[m].id).FenceError?)
                                     || (answers.ownFails(jobs[m].id) && (jobs[m].destroySync || jobs[m].fence != NULL)),
                         jobs[m].stopSeen) in effects
    {
      var waitFailed := answers.waitFails;            // the queue idle wait, or vkWaitForFences for any fence
      hide Apply, Enabled, Kept;
      ChooseLeads(protocol, jobs, noFences, waitFailed);
      Step(Choose(waitFailed));
      if noFences {
        if jobs != [] {
          FinishAll(jobs, waitFailed, answers.ownFails);
        }
        return [];
      }
      if waitFailed {
        FinishAll(jobs, true, answers.ownFails);
        return [];
      }
      next := ReapReadyJobs(jobs, answers);
    }

    /**
     The worker thread, watched for a number of turns of its loop. What was
     pending is called back by the first turn whose answers allow it; and if the
     thread has returned, every accepted call has been called back exactly once.
     */
    method Run(turns: nat, answers: nat -> Answers) returns (exited: bool)
      requires Valid() && protocol.worker == Waiting([]) && protocol.busy == None
      modifies this
      ensures Valid() && (exited <==> protocol.worker.Exited?)
      ensures forall job, t | job in old(pending) && job.notifies && 0 <= t < turns && Due(job, answers(t)) :: Told(effects, job.id)
      ensures exited ==> shuttingDown && pending == []
      ensures exited ==> forall id | id in protocol.calls ::
                           id in protocol.finished || (id in protocol.completing && protocol.completing[id].rejected)
      ensures exited ==> forall id | id in protocol.finished ::
                           id in protocol.calls && (protocol.calls[id].notifies ==> Callbacks(effects, id) == 1)
    {
      hide TurnOf, Due, Told;
      var active: seq<Job> := [];
      for turn := 0 to turns
        invariant Valid() && protocol.worker == Waiting(active) && protocol.busy == None
        invariant turn == 0 ==> pending == old(pending)
        invariant turn > 0 ==> Outstanding(old(pending), turn, answers, active, effects)
      {
        ghost var before, so, was := active, effects, pending;
        active, exited := RunOnce(active, answers(turn));
        OutstandingAfter(old(pending), turn, answers, before, was, so, active, effects, exited);
        if exited {
          ExitedCalledBack();
          return true;
        }
      }
      return false;
    }

    /** What the protocol says of the thread's having left. */
    lemma ExitedCalledBack()
      requires Valid() && protocol.worker.Exited?
      ensures forall id | id in protocol.calls ::
                id in protocol.finished || (id in protocol.completing && protocol.completing[id].rejected)
      ensures shuttingDown && pending == []
      ensures forall id | id in protocol.finished ::
                id in protocol.calls && (protocol.calls[id].notifies ==> Callbacks(effects, id) == 1)
    {
      forall id | id in protocol.calls
        ensures shuttingDown && pending == []
        ensures id in protocol.finished || (id in protocol.completing && protocol.completing[id].rejected)
      {
        ExitedMeansDrained(history, protocol, id);
      }
      forall id | id in protocol.calls && protocol.calls[id].notifies
        ensures Callbacks(effects, id) == if CalledBack(protocol, id) then 1 else 0
      {
        ExactlyOneCallback(history, protocol, id);
      }
      FinishedWereCalled(history, protocol);
    }
  }

  lemma StillTold(so: seq<Event>, effects: seq<Event>, id: JobId)
    requires so <= effects && Told(so, id)
    ensures Told(effects, id)
  {
    var failed, stopped :| Callback(id, failed, stopped) in so;
    assert Callback(id, failed, stopped) in effects;
  }

  lemma StillAmong(job: Job, active: seq<Job>, pending: seq<Job>, taken: seq<Job>)
    requires active + pending <= taken && (Among(job, active) || job in pending)
    ensures Among(job, taken)
  {
    if job in pending {
      assert job.(stopSeen := job.stopSeen) in active + pending;
    } else {
      var seen :| job.(stopSeen := seen) in active;
      assert job.(stopSeen := seen) in active + pending;
    }
  }

  /** Of what was pending at first, each job that notifies has been told, or is still held and no turn so far could have told it. */
  ghost predicate Outstanding(first: seq<Job>, turn: nat, answers: nat -> Answers, active: seq<Job>, effects: seq<Event>) {
    forall job | job in first && job.notifies ::
      Told(effects, job.id) || (Among(job, active) && forall t | 0 <= t < turn :: !Due(job, answers(t)))
  }

  lemma OutstandingAfter(first: seq<Job>, turn: nat, answers: nat -> Answers, active: seq<Job>, pending: seq<Job>, so: seq<Event>,
                         next: seq<Job>, effects: seq<Event>, exited: bool)
    requires so <= effects && if turn == 0 then pending == first else Outstanding(first, turn, answers, active, so)
    requires exited ==> active == [] && pending == []
    requires !exited ==>
               || (active == [] && next == [] && pending == [])
               || exists taken :: taken != [] && active + pending <= taken && TurnOf(taken, next, answers(turn), effects)
    ensures Outstanding(first, turn + 1, answers, next, effects)
    ensures exited ==> forall job | job in first && job.notifies :: Told(effects, job.id)
  {
    hide TurnOf, Due, Told, Among;
    NotAmongNone();
    forall job | job in first && job.notifies && !Told(effects, job.id)
      ensures !exited && Among(job, next) && forall t | 0 <= t < turn + 1 :: !Due(job, answers(t))
    {
      if Told(so, job.id) { StillTold(so, effects, job.id); }
      assert Among(job, active) || job in pending;
      var taken :| taken != [] && active + pending <= taken && TurnOf(taken, next, answers(turn), effects);
      StillAmong(job, active, pending, taken);
      TurnDecides(taken, next, answers(turn), effects, job);
    }
  }

  lemma NotAmongNone()
    ensures forall job :: !Among(job, [])
  {
  }

  lemma ChooseLeads(s: State, jobs: seq<Job>, noFences: bool, waitFailed: bool)
    requires s.worker == Choosing(jobs) && (noFences <==> forall k | 0 <= k < |jobs| :: jobs[k].fence == NULL)
    ensures Enabled(s, Choose(waitFailed))
    ensures Apply(s, Choose(waitFailed)) ==
            s.(worker := if noFences then (if jobs == [] then Waiting([]) else FinishingAll(jobs, waitFailed))
                         else if waitFailed then FinishingAll(jobs, true) else Reaping(jobs, []))
  {
  }

  /** What the protocol does with the next job of the list. */
  lemma ReapTakesUp(s: State, jobs: seq<Job>, k: nat, kept: seq<Job>, status: FenceStatus)
    requires k < |jobs| && s.worker == Reaping(jobs[k..], kept) && s.busy.None?
    requires status.Signalled? ==> jobs[k].id in s.retired
    ensures Enabled(s, Reap(status))
    ensures var t, job := Apply(s, Reap(status)), jobs[k];
            && t.pending == s.pending && t.shuttingDown == s.shuttingDown && t.log == s.log && t.nested == s.nested
            && if job.fence != NULL && status.NotReady? then t.worker == Reaping(jobs[k + 1..], kept + [job]) && t.busy.None?
               else && t.worker == Reaping(jobs[k + 1..], kept) && t.busy == Some(job.id) && job.id in t.completing
                    && t.completing[job.id] == Completion(job, false, job.fence != NULL && status.FenceError?, 0)
  {
    assert jobs[k..][1..] == jobs[k + 1..];
    hide Script;
  }

  lemma IdleIsUnnested(actions: seq<Action>, s: State)
    requires CompletionProtocol.Run(actions, s) && s.busy.None?
    ensures s.nested == []
  {
    RunsKeepInvariant(actions, s);
  }

  lemma FreshIsNotUnderWay(actions: seq<Action>, s: State, id: JobId)
    requires CompletionProtocol.Run(actions, s) && id !in s.calls
    ensures s.busy != Some(id) && id !in s.nested
  {
    RunsKeepInvariant(actions, s);
    assert Good(ViewOf(s, id), id);
    forall k | 0 <= k < |s.nested|
      ensures s.nested[k] != id
    {
      assert NestedCall(s, k);
    }
  }

  lemma FinishedWereCalled(actions: seq<Action>, s: State)
    requires CompletionProtocol.Run(actions, s)
    ensures s.finished.Keys <= s.calls.Keys
    ensures s.worker.Exited? ==> s.shuttingDown && s.pending == []
  {
    RunsKeepInvariant(actions, s);
    forall id | id in s.finished
      ensures id in s.calls
    {
      assert Good(ViewOf(s, id), id);
    }
  }
}
