/**
 Shutting the completion waiter down: when a shutdown call that has returned
 leaves nothing undone.
 */
module CompletionShutdown {
  import opened Optional
  import opened CompletionProtocol

  /** A call that was accepted, as far as it has got. */
  predicate Accepted(s: State, id: JobId) {
    id in s.calls && !(id in s.completing && s.completing[id].rejected) && !(id in s.finished && s.finished[id].rejected)
  }

  /** Nothing is pending, and every accepted call is finished. */
  ghost predicate Drained(s: State) {
    s.pending == [] && forall id | Accepted(s, id) :: id in s.finished
  }

  /** The worker holds no job. */
  predicate Idle(s: State) {
    s.pending == [] && WorkerJobs(s.worker) == [] && s.busy.None?
  }

  lemma DrainedIsIdle(actions: seq<Action>, s: State)
    requires Run(actions, s)
    ensures Drained(s) <==> Idle(s)
  {
    RunsKeepInvariant(actions, s);
    if Idle(s) {
      forall id | Accepted(s, id)
        ensures id in s.finished
      {
        assert Good(ViewOf(s, id), id);
      }
    }
    if Drained(s) {
      if s.busy.Some? {
        assert Good(ViewOf(s, s.busy.value), s.busy.value);
        assert Accepted(s, s.busy.value);
      }
      var jobs := WorkerJobs(s.worker);
      if jobs != [] {
        QueuedIsAccepted(s, jobs[0]);
      }
    }
  }

  lemma QueuedIsAccepted(s: State, job: Job)
    requires Inv(s) && (job in s.pending || job in WorkerJobs(s.worker))
    ensures Accepted(s, job.id) && job.id !in s.finished && Queued(s, job.id) == One(job)
  {
    assert Good(ViewOf(s, job.id), job.id);
    if job in s.pending { HeldMember(s.pending, job); }
    if job in WorkerJobs(s.worker) { HeldMember(WorkerJobs(s.worker), job); }
  }

  lemma {:induction false} HeldMember(q: seq<Job>, job: Job)
    requires job in q
    ensures Held(q, job.id) == One(job) || Held(q, job.id).Many?
  {
    if job != q[0] {
      HeldMember(q[1..], job);
    }
  }

  /** Drained after shutdown is drained for good. */
  lemma DrainedStays(actions: seq<Action>, s: State, a: Action)
    requires Run(actions, s) && s.shuttingDown && Drained(s) && Enabled(s, a)
    ensures Drained(Apply(s, a))
  {
    DrainedIsIdle(actions, s);
    RunExtends(actions, s, a);
    RunsKeepInvariant(actions, s);
    IdleStays(s, a);
    DrainedIsIdle(actions + [a], Apply(s, a));
  }

  lemma IdleStays(s: State, a: Action)
    requires s.shuttingDown && Idle(s) && Enabled(s, a) && Control(s)
    ensures Idle(Apply(s, a))
  {
    hide Script, CallingBack, InCallback, Innermost;
  }

  /** A shutdown call that has returned has drained the waiter if it set the flag itself, or else exactly when the worker holds no job. */
  lemma ShutdownHasDrained(actions: seq<Action>, s: State, k: nat)
    requires Run(actions, s) && k in s.shutdowns && s.shutdowns[k].Returned?
    ensures Drained(s) <==> s.shutdowns[k] == Returned(false) || Idle(s)
    ensures s.shutdowns[k] == Returned(false) ==>
              forall id | Accepted(s, id) && s.calls[id].notifies :: Callbacks(s.log, id) == 1
  {
    RunsKeepInvariant(actions, s);
    DrainedIsIdle(actions, s);
    forall id | Accepted(s, id) && s.calls[id].notifies
      ensures s.shutdowns[k] == Returned(false) ==> Callbacks(s.log, id) == 1
    {
      ExactlyOneCallback(actions, s, id);
    }
  }

  /** A run where a second shutdown has returned and an accepted job is untouched. */
  lemma SecondShutdownReturnsUndrained() returns (actions: seq<Action>, s: State)
    ensures Run(actions, s) && 1 in s.shutdowns && s.shutdowns[1] == Returned(true)
    ensures !Drained(s) && Accepted(s, 1) && Queued(s, 1).One? && Callbacks(s.log, 1) == 0
  {
    var job := Job(1, NULL, 7, false, true, true, false);
    var s1 := Apply(Initial(), Enqueue(job));
    var s2 := Apply(s1, ShutdownEnter(0));
    var s3 := Apply(s2, ShutdownEnter(1));
    s := Apply(s3, ShutdownReturn(1));
    actions := [] + [Enqueue(job)] + [ShutdownEnter(0)] + [ShutdownEnter(1)] + [ShutdownReturn(1)];
    RunExtends([], Initial(), Enqueue(job));
    RunExtends([] + [Enqueue(job)], s1, ShutdownEnter(0));
    RunExtends([] + [Enqueue(job)] + [ShutdownEnter(0)], s2, ShutdownEnter(1));
    RunExtends([] + [Enqueue(job)] + [ShutdownEnter(0)] + [ShutdownEnter(1)], s3, ShutdownReturn(1));
    assert Held([job], 1) == One(job);
  }

  /** In this run, if call k has returned having found this flag, all is drained. */
  ghost predicate Tells(actions: seq<Action>, s: State, k: nat, found: bool) {
    Run(actions, s) && k in s.shutdowns && s.shutdowns[k] == Returned(found) ==> Drained(s)
  }

  /** What a caller can tell from its shutdown having returned: that all is drained, in every run, exactly if it did not find the flag set. */
  lemma OnlyTheFirstShutdownTells(found: bool)
    ensures (forall actions, s, k :: Tells(actions, s, k, found)) <==> !found
  {
    if found {
      var actions, s := SecondShutdownReturnsUndrained();
      assert !Tells(actions, s, 1, found);
    } else {
      forall actions, s, k
        ensures Tells(actions, s, k, found)
      {
        if Run(actions, s) && k in s.shutdowns && s.shutdowns[k] == Returned(found) {
          ShutdownHasDrained(actions, s, k);
        }
      }
    }
  }
}
