/**
 A graph made ready to run, include/vkexec/detail/pass_execution.hpp: its batches
 are checked, every step declares its resources, and the dependencies found are
 added to the batches.
 */
module PreparedGraph {
  import opened Optional
  import opened Fallible
  import R = ResourceRanges
  import P = PassOrder
  import opened PassGraph
  import opened Dependencies
  import opened ExecutionPlan
  import opened BufferHazards
  import opened TrackedBuffers
  import opened ResourceStateTracker

  /** What a step declares about buffers. */
  datatype Resources = Resources(extents: seq<Extent>, buffers: seq<Declaration>)

  /** Offsets and sizes are 64 bits wide. */
  predicate Wide(resources: Resources) {
    AllWide(resources.buffers)
  }

  /** The number of uses the first n steps declare. */
  function Total(steps: seq<Resources>, n: nat): nat
    requires n <= |steps|
  {
    if n == 0 then 0 else Total(steps, n - 1) + |steps[n - 1].buffers|
  }

  /** Step i's declarations are the uses from place Total(steps, i) on, made from the queue of the batch that holds it. */
  ghost predicate Declared(history: seq<Use>, plan: Plan, steps: seq<Resources>, i: nat)
    requires i < |steps|
  {
    forall b: nat, d: nat | Holds(plan, b, i) && d < |steps[i].buffers| :: DeclaredUse(history, steps, i, d, plan[b].queue)
  }

  predicate DeclaredUse(history: seq<Use>, steps: seq<Resources>, i: nat, d: nat, queue: Queue)
    requires i < |steps| && d < |steps[i].buffers|
  {
    var k := Total(steps, i) + d;
    k < |history| && Stands(history[k], steps[i].buffers[d], i, queue.family, queue.handle)
  }

  lemma StillDeclared(history: seq<Use>, more: seq<Use>, plan: Plan, steps: seq<Resources>, i: nat)
    requires i < |steps| && Declared(history, plan, steps, i) && history <= more
    ensures Declared(more, plan, steps, i)
  {
    forall b: nat, d: nat | Holds(plan, b, i) && d < |steps[i].buffers|
      ensures DeclaredUse(more, steps, i, d, plan[b].queue)
    {
      assert DeclaredUse(history, steps, i, d, plan[b].queue);
    }
  }

  /** The queue of the batch that holds a step. */
  function QueueOfStep(plan: Plan, i: nat): Queue {
    if plan == [] then Queue(0, 0) else if i < plan[0].end then plan[0].queue else QueueOfStep(plan[1..], i)
  }

  lemma {:induction false} QueueOfHeld(plan: Plan, b: nat, i: nat)
    requires Holds(plan, b, i) && forall c | 0 <= c < b :: plan[c].end <= i
    ensures QueueOfStep(plan, i) == plan[b].queue
    decreases b
  {
    if b > 0 { QueueOfHeld(plan[1..], b - 1, i); }
  }

  /** From step i on, each step's extents and declarations are accepted after all before them, on its batch's queue. */
  ghost predicate StepsAccepted(bare: seq<TrackedBuffer>, history: seq<Use>, plan: Plan, steps: seq<Resources>, i: nat)
    requires forall n | 0 <= n < |steps| :: Wide(steps[n])
    decreases |steps| - i
  {
    i >= |steps| || (Wide(steps[i]) &&
    var known, q := AfterExtents(bare, steps[i].extents), QueueOfStep(plan, i);
    && ExtentsAccepted(bare, steps[i].extents)
    && AllAccepted(history, known, |steps|, steps[i].buffers, i, q.family, q.handle)
    && StepsAccepted(AfterUses(known, steps[i].buffers), history + AllUses(known, steps[i].buffers, i, q.family, q.handle), plan, steps, i + 1))
  }

  /** plan_resource_sync: every step declares its resources, in order; one refusal refuses the graph. */
  method PlanResourceSync(plan: Plan, steps: seq<Resources>) returns (ok: bool, tracker: Tracker)
    requires Partition(plan, |steps|) && forall i | 0 <= i < |steps| :: Wide(steps[i])
    ensures fresh(tracker) && tracker.Valid() && |tracker.before| == |steps|
    ensures ok <==> StepsAccepted([], [], plan, steps, 0)
    ensures ok ==> |tracker.history| == Total(steps, |steps|) && forall i | 0 <= i < |steps| :: Declared(tracker.history, plan, steps, i)
  {
    hide Declared, Sound, Recorded, AllAccepted, ExtentsAccepted, AfterExtents, AfterUses, AllUses;
    tracker := new Tracker(|steps|);
    ghost var done := 0;
    for b := 0 to |plan|
      invariant fresh(tracker) && tracker.Valid() && tracker.journal.None? && |tracker.before| == |steps|
      invariant done == (if b == 0 then 0 else plan[b - 1].end) && done <= |steps| && (done > 0 ==> tracker.last < done) && (done == 0 ==> tracker.last == 0)
      invariant StepsAccepted([], [], plan, steps, 0) <==> StepsAccepted(Bare(tracker.buffers), tracker.history, plan, steps, done)
      invariant |tracker.history| == Total(steps, done) && forall i | 0 <= i < done :: Declared(tracker.history, plan, steps, i)
    {
      for index := plan[b].first to plan[b].end
        invariant fresh(tracker) && tracker.Valid() && tracker.journal.None? && |tracker.before| == |steps|
        invariant done == index && (done > 0 ==> tracker.last < done) && (done == 0 ==> tracker.last == 0)
        invariant StepsAccepted([], [], plan, steps, 0) <==> StepsAccepted(Bare(tracker.buffers), tracker.history, plan, steps, done)
        invariant |tracker.history| == Total(steps, done) && forall i | 0 <= i < done :: Declared(tracker.history, plan, steps, i)
      {
        EarlierBatchesAreOver(plan, |steps|, b, index);
        QueueOfHeld(plan, b, index);
        ghost var history := tracker.history;
        var declared := tracker.UseAll(steps[index].extents, steps[index].buffers, index, plan[b].queue.family, plan[b].queue.handle);
        if !declared { return false, tracker; }
        forall i | 0 <= i < index
          ensures Declared(tracker.history, plan, steps, i)
        {
          StillDeclared(history, tracker.history, plan, steps, i);
        }
        NowDeclared(history, tracker.history, plan, steps, b, index);
        done := done + 1;
      }
    }
    ok := true;
  }

  lemma EarlierBatchesAreOver(plan: Plan, n: nat, b: nat, i: nat)
    requires Partition(plan, n) && Holds(plan, b, i)
    ensures forall c | 0 <= c < b :: plan[c].end <= i
  {
    forall c | 0 <= c < b
      ensures plan[c].end <= i
    {
      EarlierBatchesEndEarlier(plan, n, c, b);
    }
  }

  lemma NowDeclared(history: seq<Use>, more: seq<Use>, plan: Plan, steps: seq<Resources>, b: nat, i: nat)
    requires Partition(plan, |steps|) && i < |steps| && Holds(plan, b, i) && |history| == Total(steps, i)
    requires |more| == |history| + |steps[i].buffers|
    requires forall d | 0 <= d < |steps[i].buffers| ::
               Stands(more[|history| + d], steps[i].buffers[d], i, plan[b].queue.family, plan[b].queue.handle)
    ensures Declared(more, plan, steps, i)
  {
    hide Stands;
    var only := OneBatchAStep(plan, |steps|, i);
  }

  /** Two uses of a byte that may not run side by side: one after the other in one batch, or in batches that wait for one another. */
  ghost predicate Ordered(plan: Plan, u: Use, w: Use)
    requires P.Topological(Predecessors(plan))
  {
    u.access.step < w.access.step
    && forall b: nat, c: nat | Holds(plan, b, u.access.step) && Holds(plan, c, w.access.step) :: b == c || P.Before(Predecessors(plan), b, c)
  }

  ghost predicate Hazard(u: Use, w: Use) {
    u.buffer == w.buffer && Conflict(u.access, w.access, w.exclusive) && exists b: nat :: R.Has(u.range, b) && R.Has(w.range, b)
  }

  /** Steps of the two batches use some byte in common. */
  ghost predicate Needed(plan: Plan, history: seq<Use>, b: nat, a: nat) {
    exists i, j :: 0 <= i < |history| && 0 <= j < |history| && ShareByte(history[i], history[j])
                   && Holds(plan, a, history[i].access.step) && Holds(plan, b, history[j].access.step)
  }

  lemma AddedIsNeeded(plan: Plan, r: Plan, batchOf: seq<nat>, deps: seq<Edge>, history: seq<Use>, b: nat, a: nat)
    requires Justified(history, deps) && OnlyCalledFor(plan, r, batchOf, deps) && b < |plan| && b < |r| && a in r[b].predecessors && a !in plan[b].predecessors
    requires forall i | 0 <= i < |batchOf| :: Holds(r, batchOf[i], i)
    ensures Needed(r, history, b, a)
  {
    assert CalledFor(b, a, batchOf, deps);
    var k :| 0 <= k < |deps| && Between(deps[k], b, a, batchOf);
    assert Joined(deps[k], history);
    var i, j :| 0 <= i < |history| && 0 <= j < |history| && JoinedBy(deps[k], history[i], history[j]);
  }

  /**
   prepare_graph: the plan that will run orders every hazard between the
   declared uses, on whatever queues their batches run, and keeps every wait it
   was given; what it adds is for a byte that both batches use.
   */
  method PrepareGraph(plan: Plan, steps: seq<Resources>) returns (r: Result<Plan>, tracker: Tracker?)
    requires forall i | 0 <= i < |steps| :: Wide(steps[i])
    ensures r.Ok? ==>
              && Partition(r.value, |steps|) && P.Topological(Predecessors(r.value)) && Waits(plan, r.value)
              && tracker != null && |tracker.history| == Total(steps, |steps|)
              && (forall i | 0 <= i < |steps| :: Declared(tracker.history, plan, steps, i))
              && forall i, j | 0 <= i < j < |tracker.history| && Hazard(tracker.history[i], tracker.history[j]) ::
                   Ordered(r.value, tracker.history[i], tracker.history[j])
    ensures r.Ok? && tracker != null ==>
              forall b, a | 0 <= b < |plan| && b < |r.value| && a in r.value[b].predecessors :: a in plan[b].predecessors || Needed(r.value, tracker.history, b, a)
    ensures r.Ok? <==> Partition(plan, |steps|) && P.Topological(Predecessors(plan)) && StepsAccepted([], [], plan, steps, 0)
  {
    hide Declared, StepsAccepted, Needed, OnlyCalledFor;
    tracker := null;
    var valid := ValidateExecutionBatches(plan, |steps|);
    if !valid { return Err, tracker; }
    var planned;
    planned, tracker := PlanResourceSync(plan, steps);
    if !planned { return Err, tracker; }
    var prepared, batchOf := AddResourceDependencies(plan, tracker.dependencies, |steps|);
    forall i, j | 0 <= i < j < |tracker.history| && Hazard(tracker.history[i], tracker.history[j])
      ensures Ordered(prepared, tracker.history[i], tracker.history[j])
    {
      HazardIsPlanned(prepared, batchOf, tracker.buffers, tracker.dependencies, tracker.history, tracker.last, |steps|, i, j);
    }
    forall b, a | 0 <= b < |plan| && b < |prepared| && a in prepared[b].predecessors && a !in plan[b].predecessors
      ensures Needed(prepared, tracker.history, b, a)
    {
      AddedIsNeeded(plan, prepared, batchOf, tracker.dependencies, tracker.history, b, a);
    }
    r := Ok(prepared);
  }

  /** What the tracker's dependencies order, the batches order. */
  lemma HazardIsPlanned(plan: Plan, batchOf: seq<nat>, buffers: seq<TrackedBuffer>, deps: seq<Edge>, history: seq<Use>, last: nat, n: nat, i: nat, j: nat)
    requires Sound(buffers, deps, history, last, n) && i < j < |history| && Hazard(history[i], history[j])
    requires Partition(plan, n) && P.Topological(Predecessors(plan))
    requires |batchOf| == n && forall s | 0 <= s < n :: batchOf[s] < |plan| && Holds(plan, batchOf[s], s)
    requires forall k | 0 <= k < |deps| :: deps[k].1 < n && Met(plan, batchOf, deps[k])
    ensures Ordered(plan, history[i], history[j])
  {
    hide P.Before;
    var u, w := history[i], history[j];
    var b: nat :| R.Has(u.range, b) && R.Has(w.range, b);
    HazardIsOrdered(buffers, deps, history, last, n, i, j, b);
    LastEdge(deps, u.access.step, w.access.step, n);
    DependenciesOrderBatches(plan, n, deps, batchOf, u.access.step, w.access.step);
    var atU := OneBatchAStep(plan, n, u.access.step);
    var atW := OneBatchAStep(plan, n, w.access.step);
  }

  lemma LastEdge(deps: seq<Edge>, i: nat, j: nat, n: nat)
    requires Forward(deps) && BelowStep(deps, n) && Leads(deps, i, j)
    ensures i < j < n
  {
    LeadsForward(deps, i, j);
  }
}
