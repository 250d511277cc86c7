/** Step dependencies, as the resource tracker records them: pairs of an earlier and a later step. */
module Dependencies {
  type Edge = (nat, nat)

  predicate Forward(deps: seq<Edge>) {
    forall k | 0 <= k < |deps| :: deps[k].0 < deps[k].1
  }

  /** A chain of dependencies leads from step i to step j. */
  ghost predicate Leads(deps: seq<Edge>, i: nat, j: nat)
    requires Forward(deps)
    decreases j
  {
    exists k :: 0 <= k < |deps| && deps[k].1 == j && (deps[k].0 == i || Leads(deps, i, deps[k].0))
  }

  lemma {:induction false} LeadsForward(deps: seq<Edge>, i: nat, j: nat)
    requires Forward(deps) && Leads(deps, i, j)
    ensures i < j
    decreases j
  {
    var k :| 0 <= k < |deps| && deps[k].1 == j && (deps[k].0 == i || Leads(deps, i, deps[k].0));
    if deps[k].0 != i {
      LeadsForward(deps, i, deps[k].0);
    }
  }

  lemma {:induction false} LeadsOn(deps: seq<Edge>, h: nat, i: nat, j: nat)
    requires Forward(deps) && Leads(deps, h, i) && Leads(deps, i, j)
    ensures Leads(deps, h, j)
    decreases j
  {
    var k :| 0 <= k < |deps| && deps[k].1 == j && (deps[k].0 == i || Leads(deps, i, deps[k].0));
    if deps[k].0 != i {
      LeadsOn(deps, h, i, deps[k].0);
    }
    assert Leads(deps, h, deps[k].0);
  }

  lemma EdgeLeads(deps: seq<Edge>, i: nat, j: nat)
    requires Forward(deps) && (i, j) in deps
    ensures Leads(deps, i, j)
  {
    var k :| 0 <= k < |deps| && deps[k] == (i, j);
  }

  /** Dependencies added later take nothing away. */
  lemma {:induction false} LeadsMore(deps: seq<Edge>, more: seq<Edge>, i: nat, j: nat)
    requires Forward(deps) && Forward(more) && deps <= more && Leads(deps, i, j)
    ensures Leads(more, i, j)
    decreases j
  {
    var k :| 0 <= k < |deps| && deps[k].1 == j && (deps[k].0 == i || Leads(deps, i, deps[k].0));
    assert more[k] == deps[k];
    if deps[k].0 != i {
      LeadsMore(deps, more, i, deps[k].0);
    }
  }
}

/** Execution batches: runs of steps recorded into one command buffer, with the batches they wait for. */
module ExecutionPlan {
  import opened Optional
  import opened Fallible
  import opened PassOrder
  import opened PassGraph
  import opened Dependencies

  datatype Batch = Batch(queue: Queue, first: nat, end: nat, predecessors: seq<nat>)

  type Plan = seq<Batch>

  function Predecessors(plan: Plan): (g: seq<seq<nat>>)
    ensures |g| == |plan| && forall b | 0 <= b < |plan| :: g[b] == plan[b].predecessors
  {
    seq(|plan|, b requires 0 <= b < |plan| => plan[b].predecessors)
  }

  /** The batches cut the steps below n into consecutive, nonempty runs. */
  predicate Partition(plan: Plan, n: nat) {
    && (plan == [] ==> n == 0)
    && (plan != [] ==> plan[0].first == 0 && plan[|plan| - 1].end == n)
    && (forall b | 0 <= b < |plan| :: plan[b].first < plan[b].end <= n)
    && (forall b | 0 < b < |plan| :: plan[b].first == plan[b - 1].end)
  }

  /** Step i is recorded by batch b. */
  predicate Holds(plan: Plan, b: nat, i: nat) {
    b < |plan| && plan[b].first <= i < plan[b].end
  }

  lemma {:induction false} EarlierBatchesEndEarlier(plan: Plan, n: nat, a: nat, b: nat)
    requires Partition(plan, n) && a < b < |plan|
    ensures plan[a].end <= plan[b].first
  {
    if a < b - 1 {
      EarlierBatchesEndEarlier(plan, n, a, b - 1);
    }
  }

  /** Every step is recorded once. */
  lemma {:induction false} OneBatchAStep(plan: Plan, n: nat, i: nat) returns (b: nat)
    requires Partition(plan, n) && i < n
    ensures Holds(plan, b, i) && forall c: nat | Holds(plan, c, i) :: c == b
  {
    b := 0;
    while plan[b].end <= i
      invariant b < |plan| && plan[b].first <= i
      decreases |plan| - b
    {
      b := b + 1;
    }
    forall c: nat | Holds(plan, c, i)
      ensures c == b
    {
      if c < b {
        EarlierBatchesEndEarlier(plan, n, c, b);
      } else if b < c {
        EarlierBatchesEndEarlier(plan, n, b, c);
      }
    }
  }

  // ------------------------------------------------------------ planning

  function QueueOf(a: Affinity, default_: Queue): Queue {
    if a.Some? then a.value else default_
  }

  /** The chain planned as far as step n: runs of steps on one queue, each batch after the one before it. */
  ghost predicate Grouped(plan: Plan, queues: seq<Affinity>, default_: Queue, n: nat)
    requires n <= |queues|
  {
    && Partition(plan, n)
    && (forall b | 0 <= b < |plan| :: plan[b].predecessors == if b == 0 then [] else [b - 1])
    && (forall b: nat, i: nat | Holds(plan, b, i) && i < n :: plan[b].queue == QueueOf(queues[i], default_))
    && (forall b | 0 < b < |plan| :: plan[b].queue != plan[b - 1].queue)
  }

  lemma NewBatchKeepsGrouped(plan: Plan, queues: seq<Affinity>, default_: Queue, n: nat)
    requires n < |queues| && Grouped(plan, queues, default_, n)
    requires plan == [] || plan[|plan| - 1].queue != QueueOf(queues[n], default_)
    ensures Grouped(plan + [Batch(QueueOf(queues[n], default_), n, n + 1, if plan == [] then [] else [|plan| - 1])], queues, default_, n + 1)
  {
    hide QueueOf;
    var more := plan + [Batch(QueueOf(queues[n], default_), n, n + 1, if plan == [] then [] else [|plan| - 1])];
    forall b: nat, i: nat | Holds(more, b, i) && i < n + 1
      ensures more[b].queue == QueueOf(queues[i], default_)
    {
      if b < |plan| {
        assert more[b] == plan[b] && Holds(plan, b, i);
      }
    }
  }

  lemma LongerBatchKeepsGrouped(plan: Plan, queues: seq<Affinity>, default_: Queue, n: nat)
    requires n < |queues| && Grouped(plan, queues, default_, n)
    requires plan != [] && plan[|plan| - 1].queue == QueueOf(queues[n], default_)
    ensures Grouped(plan[|plan| - 1 := plan[|plan| - 1].(end := n + 1)], queues, default_, n + 1)
  {
    hide QueueOf;
    var longer := plan[|plan| - 1 := plan[|plan| - 1].(end := n + 1)];
    forall b: nat, i: nat | Holds(longer, b, i) && i < n + 1
      ensures longer[b].queue == QueueOf(queues[i], default_)
    {
      if i < n {
        assert Holds(plan, b, i);
      }
    }
  }

  /** The implicit chain: steps in a row on one queue share a batch, and each batch waits for the one before it. */
  method PlanBatches(queues: seq<Affinity>, default_: Queue) returns (plan: Plan)
    ensures Partition(plan, |queues|) && Predecessors(plan) == Chain(|plan|)
    ensures forall b: nat, i: nat | Holds(plan, b, i) && i < |queues| ::
              plan[b].queue == if queues[i].Some? then queues[i].value else default_
    ensures forall b | 0 < b < |plan| :: plan[b].queue != plan[b - 1].queue
  {
    plan := [];
    for index := 0 to |queues|
      invariant Grouped(plan, queues, default_, index)
    {
      var queue := QueueOf(queues[index], default_);
      if plan == [] || plan[|plan| - 1].queue != queue {
        NewBatchKeepsGrouped(plan, queues, default_, index);
        hide Grouped;
        var batch := Batch(queue, index, index + 1, []);
        if |plan| > 0 { batch := batch.(predecessors := [|plan| - 1]); }
        plan := plan + [batch];
      } else {
        LongerBatchKeepsGrouped(plan, queues, default_, index);
        hide Grouped;
        plan := plan[|plan| - 1 := plan[|plan| - 1].(end := index + 1)];
      }
    }
  }

  predicate NoDuplicates(s: seq<nat>) {
    forall i, j | 0 <= i < j < |s| :: s[i] != s[j]
  }

  /** Whether the list is free of repetitions and names only nodes before this one. */
  method AcceptsIncoming(incoming: seq<nat>, index: nat) returns (ok: bool)
    ensures ok <==> NoDuplicates(incoming) && forall k | 0 <= k < |incoming| :: incoming[k] < index
  {
    for k := 0 to |incoming|
      invariant forall j | 0 <= j < k :: incoming[j] < index
      invariant forall i, j | 0 <= i < k && 0 <= j < |incoming| && i != j :: incoming[i] != incoming[j]
    {
      if incoming[k] >= index { return false; }
      for j := 0 to |incoming|
        invariant forall i | 0 <= i < j && i != k :: incoming[i] != incoming[k]
      {
        if j != k && incoming[j] == incoming[k] {
          return false;
        }
      }
    }
    ok := true;
  }

  /** A graph with explicit predecessors: one batch a node, refused exactly when the lists are misaligned, point forward or repeat. */
  method PlanDag(queues: seq<Affinity>, predecessors: seq<seq<nat>>, default_: Queue) returns (r: Result<Plan>)
    ensures r.Ok? <==> |queues| == |predecessors| && Topological(predecessors)
                       && forall j | 0 <= j < |predecessors| :: NoDuplicates(predecessors[j])
    ensures r.Ok? ==>
              && Partition(r.value, |queues|) && |r.value| == |queues| && Predecessors(r.value) == predecessors
              && forall i | 0 <= i < |queues| ::
                   r.value[i] == Batch(if queues[i].Some? then queues[i].value else default_, i, i + 1, predecessors[i])
  {
    if |queues| != |predecessors| { return Err; }
    var plan: Plan := [];
    for index := 0 to |queues|
      invariant |plan| == index
      invariant forall i | 0 <= i < index :: plan[i] == Batch(QueueOf(queues[i], default_), i, i + 1, predecessors[i])
      invariant forall i | 0 <= i < index :: NoDuplicates(predecessors[i])
      invariant forall i, k | 0 <= i < index && 0 <= k < |predecessors[i]| :: predecessors[i][k] < i
    {
      var ok := AcceptsIncoming(predecessors[index], index);
      if !ok { return Err; }
      plan := plan + [Batch(QueueOf(queues[index], default_), index, index + 1, predecessors[index])];
    }
    r := Ok(plan);
  }

  /**
   A graph that append_after has extended can be planned exactly if its queues
   were aligned before; those of a graph whose queues were left implicit are not.
   */
  method PlanAfterAppend(graph: DynamicPassGraph, predecessors: seq<nat>, step: Step, default_: Queue) returns (r: Result<Plan>)
    requires graph.Valid() && NoDuplicates(predecessors) && forall k | 0 <= k < |predecessors| :: predecessors[k] < |graph.steps|
    requires forall j | 0 <= j < |graph.stepPredecessors| :: NoDuplicates(graph.stepPredecessors[j])
    modifies graph
    ensures graph.Valid() && graph.steps == old(graph.steps) + [step] && graph.stepQueues == old(graph.stepQueues) + [old(graph.currentQueue)]
    ensures graph.Order() == old(graph.Order()) + [predecessors]
    ensures r.Ok? <==> old(graph.Aligned())
    ensures r.Ok? ==> |r.value| == |graph.steps| && Predecessors(r.value) == graph.Order()
  {
    var _ := graph.AppendAfter(predecessors, step);
    r := PlanDag(graph.stepQueues, graph.stepPredecessors, default_);
  }

  /**
   The input that fails: one step with its queue left implicit, and one more
   after it. Both appends fill the queues in, so a graph comes to this only by
   being built from its fields, which are public, with no queues given.
   */
  method ImplicitQueuesAreRefused(first: Step, second: Step, default_: Queue) returns (graph: DynamicPassGraph, r: Result<Plan>)
    ensures fresh(graph) && graph.Valid() && graph.steps == [first, second] && graph.Order() == [[], [0]]
    ensures graph.stepQueues == [None] && r.Err?
  {
    graph := new DynamicPassGraph();
    graph.steps := [first];
    assert graph.Order() == [[]];
    r := PlanAfterAppend(graph, [0], second, default_);
  }

  /** What is accepted: nonempty runs, each beginning where the one before ends, from step 0 to n, that wait for earlier ones. */
  lemma ValidPlansAre(plan: Plan, n: nat)
    ensures Partition(plan, n) && Topological(Predecessors(plan)) <==> Consecutive(plan, n) && forall b, c | 0 <= b < |plan| && c in plan[b].predecessors :: c < b
  {
    var g := Predecessors(plan);
    forall b, c | Topological(g) && 0 <= b < |plan| && c in plan[b].predecessors
      ensures c < b
    {
      var k :| 0 <= k < |g[b]| && g[b][k] == c;
    }
    assert forall b, k | 0 <= b < |plan| && 0 <= k < |g[b]| :: g[b][k] in plan[b].predecessors;
    if Consecutive(plan, n) { LastEndIsGreatest(plan, 0); }
  }

  predicate Consecutive(plan: Plan, n: nat) {
    && (if plan == [] then n == 0 else plan[0].first == 0 && plan[|plan| - 1].end == n)
    && (forall b | 0 <= b < |plan| :: plan[b].first < plan[b].end && (b > 0 ==> plan[b].first == plan[b - 1].end))
  }

  lemma {:induction false} LastEndIsGreatest(plan: Plan, b: nat)
    requires forall b | 0 <= b < |plan| :: plan[b].first < plan[b].end && (b > 0 ==> plan[b].first == plan[b - 1].end)
    ensures forall c | b <= c < |plan| :: plan[c].end <= plan[|plan| - 1].end
    decreases |plan| - b
  {
    if b + 1 < |plan| {
      LastEndIsGreatest(plan, b + 1);
      assert plan[b + 1 - 1].end == plan[b + 1].first;
    }
  }

  /** validate_execution_batches. */
  method ValidateExecutionBatches(plan: Plan, n: nat) returns (ok: bool)
    ensures ok <==> Partition(plan, n) && Topological(Predecessors(plan))
  {
    if plan == [] && n != 0 { return false; }
    var validated := 0;
    for b := 0 to |plan|
      invariant validated == (if b == 0 then 0 else plan[b - 1].end) && validated <= n
      invariant b > 0 ==> plan[0].first == 0
      invariant forall c | 0 <= c < b :: plan[c].first < plan[c].end <= n
      invariant forall c | 0 < c < b :: plan[c].first == plan[c - 1].end
      invariant forall c, k | 0 <= c < b && 0 <= k < |plan[c].predecessors| :: plan[c].predecessors[k] < c
    {
      if plan[b].first != validated || plan[b].end <= plan[b].first || plan[b].end > n { return false; }
      validated := plan[b].end;
      for k := 0 to |plan[b].predecessors|
        invariant forall j | 0 <= j < k :: plan[b].predecessors[j] < b
      {
        if plan[b].predecessors[k] >= b {
          assert !Topological(Predecessors(plan)) by { assert Predecessors(plan)[b] == plan[b].predecessors; }
          return false;
        }
      }
    }
    ok := validated == n;
    assert Topological(Predecessors(plan));
    assert plan != [] ==> plan[0].first == 0 && validated == plan[|plan| - 1].end;
  }

  // --------------------------------------------- dependencies of resources

  /** The same batches, with at least the predecessors they had. */
  predicate Waits(before: Plan, after: Plan) {
    && |after| == |before|
    && (forall b | 0 <= b < |before| :: after[b].(predecessors := before[b].predecessors) == before[b])
    && (forall b, p | 0 <= b < |before| && p in before[b].predecessors :: p in after[b].predecessors)
  }

  /** Some dependency leads from a step of batch a to one of batch b. */
  predicate CalledFor(b: nat, a: nat, batchOf: seq<nat>, deps: seq<Edge>) {
    exists k :: 0 <= k < |deps| && Between(deps[k], b, a, batchOf)
  }

  predicate Between(dep: Edge, b: nat, a: nat, batchOf: seq<nat>) {
    dep.0 < |batchOf| && dep.1 < |batchOf| && batchOf[dep.0] == a && batchOf[dep.1] == b
  }

  /** A batch waits for another only if it did before, or a dependency calls for it. */
  predicate OnlyCalledFor(before: Plan, after: Plan, batchOf: seq<nat>, deps: seq<Edge>) {
    forall b, p | 0 <= b < |after| && p in after[b].predecessors ::
      (b < |before| && p in before[b].predecessors) || CalledFor(b, p, batchOf, deps)
  }

  /** The batch of each step. */
  method StepToBatch(plan: Plan, n: nat) returns (batchOf: seq<nat>)
    requires Partition(plan, n)
    ensures |batchOf| == n && forall i | 0 <= i < n :: Holds(plan, batchOf[i], i)
  {
    batchOf := seq(n, _ => 0);
    for b := 0 to |plan|
      invariant |batchOf| == n
      invariant forall i | 0 <= i < (if b == 0 then 0 else plan[b - 1].end) :: Holds(plan, batchOf[i], i)
    {
      var step := plan[b].first;
      while step < plan[b].end
        invariant plan[b].first <= step <= plan[b].end && |batchOf| == n
        invariant forall i | 0 <= i < step :: Holds(plan, batchOf[i], i)
      {
        batchOf := batchOf[step := b];
        step := step + 1;
      }
    }
  }

  /** A dependency is met: the steps share a batch, or the later step's batch waits for the earlier one's. */
  predicate Met(plan: Plan, batchOf: seq<nat>, dep: Edge)
    requires dep.0 < |batchOf| && dep.1 < |batchOf|
  {
    var source, destination := batchOf[dep.0], batchOf[dep.1];
    source == destination || (destination < |plan| && source in plan[destination].predecessors)
  }

  /** add_resource_dependencies: every dependency is met, no wait is dropped, and no cycle appears. */
  method AddResourceDependencies(plan: Plan, deps: seq<Edge>, n: nat) returns (r: Plan, batchOf: seq<nat>)
    requires Partition(plan, n) && Topological(Predecessors(plan)) && Forward(deps) && forall k | 0 <= k < |deps| :: deps[k].1 < n
    ensures Partition(r, n) && Topological(Predecessors(r)) && Waits(plan, r)
    ensures |batchOf| == n && forall i | 0 <= i < n :: Holds(r, batchOf[i], i)
    ensures forall k | 0 <= k < |deps| :: Met(r, batchOf, deps[k])
    ensures OnlyCalledFor(plan, r, batchOf, deps)
  {
    hide Waits, Met, Partition, Topological, OnlyCalledFor;
    batchOf := StepToBatch(plan, n);
    r := plan;
    WaitsAsBefore(plan, batchOf, deps);
    for k := 0 to |deps|
      invariant Partition(r, n) && Topological(Predecessors(r)) && Waits(plan, r) && OnlyCalledFor(plan, r, batchOf, deps)
      invariant forall i | 0 <= i < n :: Holds(r, batchOf[i], i)
      invariant forall j | 0 <= j < k :: Met(r, batchOf, deps[j])
    {
      var source, destination := batchOf[deps[k].0], batchOf[deps[k].1];
      ghost var before := r;
      if source != destination {
        LaterStepLaterBatch(r, n, deps[k].0, deps[k].1, source, destination);
        if source !in r[destination].predecessors {
          AddedWait(plan, r, n, source, destination);
          AddedIsCalledFor(plan, r, batchOf, deps, k);
          r := r[destination := r[destination].(predecessors := r[destination].predecessors + [source])];
        }
      }
      assert Met(r, batchOf, deps[k]) by { MetNow(r, batchOf, deps[k]); }
      forall j | 0 <= j < k
        ensures Met(r, batchOf, deps[j])
      {
        if r != before {
          StillMet(before, r, batchOf, deps[j]);
        }
      }
    }
  }

  lemma WaitsAsBefore(plan: Plan, batchOf: seq<nat>, deps: seq<Edge>)
    ensures Waits(plan, plan) && OnlyCalledFor(plan, plan, batchOf, deps)
  {
  }

  lemma AddedIsCalledFor(start: Plan, plan: Plan, batchOf: seq<nat>, deps: seq<Edge>, k: nat)
    requires OnlyCalledFor(start, plan, batchOf, deps) && k < |deps| && deps[k].0 < |batchOf| && deps[k].1 < |batchOf|
    requires batchOf[deps[k].1] < |plan|
    ensures var a, b := batchOf[deps[k].0], batchOf[deps[k].1];
            OnlyCalledFor(start, plan[b := plan[b].(predecessors := plan[b].predecessors + [a])], batchOf, deps)
  {
    var a, b := batchOf[deps[k].0], batchOf[deps[k].1];
    assert CalledFor(b, a, batchOf, deps);
  }

  lemma MetNow(plan: Plan, batchOf: seq<nat>, dep: Edge)
    requires dep.0 < |batchOf| && dep.1 < |batchOf| && batchOf[dep.1] < |plan|
    requires batchOf[dep.0] == batchOf[dep.1] || batchOf[dep.0] in plan[batchOf[dep.1]].predecessors
    ensures Met(plan, batchOf, dep)
  {
  }

  lemma StillMet(before: Plan, after: Plan, batchOf: seq<nat>, dep: Edge)
    requires dep.0 < |batchOf| && dep.1 < |batchOf| && Waits(before, after) && Met(before, batchOf, dep)
    ensures Met(after, batchOf, dep)
  {
  }

  lemma LaterStepLaterBatch(plan: Plan, n: nat, i: nat, j: nat, a: nat, b: nat)
    requires Partition(plan, n) && i < j && Holds(plan, a, i) && Holds(plan, b, j)
    ensures a <= b
  {
    if b < a {
      EarlierBatchesEndEarlier(plan, n, b, a);
    }
  }

  lemma AddedWait(start: Plan, plan: Plan, n: nat, a: nat, b: nat)
    requires Partition(plan, n) && Topological(Predecessors(plan)) && a < b < |plan| && Waits(start, plan)
    ensures var more := plan[b := plan[b].(predecessors := plan[b].predecessors + [a])];
            && Partition(more, n) && Topological(Predecessors(more)) && Waits(start, more) && Waits(plan, more)
            && forall c: nat, i: nat | Holds(plan, c, i) :: Holds(more, c, i)
  {
    var more := plan[b := plan[b].(predecessors := plan[b].predecessors + [a])];
    forall j, k | 0 <= j < |more| && 0 <= k < |Predecessors(more)[j]|
      ensures Predecessors(more)[j][k] < j
    {
      if j != b || k < |plan[b].predecessors| {
        assert Predecessors(more)[j][k] == Predecessors(plan)[j][k];
      }
    }
  }

  /**
   What the dependencies order, the batches order: a chain of dependencies from
   one step to another stays in one batch, where steps are recorded in order, or
   leads along batches that wait for one another.
   */
  lemma {:induction false} DependenciesOrderBatches(plan: Plan, n: nat, deps: seq<Edge>, batchOf: seq<nat>, i: nat, j: nat)
    requires Partition(plan, n) && Topological(Predecessors(plan)) && Forward(deps)
    requires |batchOf| == n && forall s | 0 <= s < n :: batchOf[s] < |plan| && Holds(plan, batchOf[s], s)
    requires forall k | 0 <= k < |deps| :: deps[k].1 < n && Met(plan, batchOf, deps[k])
    requires i < n && j < n && Leads(deps, i, j)
    ensures i < j && (batchOf[i] == batchOf[j] || Before(Predecessors(plan), batchOf[i], batchOf[j]))
    decreases j
  {
    LeadsForward(deps, i, j);
    var k :| 0 <= k < |deps| && deps[k].1 == j && (deps[k].0 == i || Leads(deps, i, deps[k].0));
    var s := deps[k].0;
    assert Met(plan, batchOf, deps[k]);
    var g, a, b := Predecessors(plan), batchOf[s], batchOf[j];
    if a != b {
      var p :| 0 <= p < |plan[b].predecessors| && plan[b].predecessors[p] == a;
      assert g[b][p] == a;
      assert Before(g, a, b);
    }
    if s != i {
      DependenciesOrderBatches(plan, n, deps, batchOf, i, s);
      if a != b && batchOf[i] != a {
        BeforeIsTransitive(g, batchOf[i], a, b);
      }
    }
  }

  /** No batch waits for it. */
  predicate IsTerminal(plan: Plan, b: nat) {
    b < |plan| && forall c | 0 <= c < |plan| :: b !in plan[c].predecessors
  }

  /** The batches nothing waits for. */
  method TerminalBatches(plan: Plan) returns (terminals: seq<nat>)
    requires Topological(Predecessors(plan))
    ensures forall b: nat :: b in terminals <==> IsTerminal(plan, b)
    ensures forall j, k | 0 <= j < k < |terminals| :: terminals[j] < terminals[k]
  {
    var hasSuccessor := seq(|plan|, _ => false);
    for c := 0 to |plan|
      invariant |hasSuccessor| == |plan|
      invariant forall b: nat | b < |plan| :: hasSuccessor[b] <==> exists d :: 0 <= d < c && b in plan[d].predecessors
    {
      for k := 0 to |plan[c].predecessors|
        invariant |hasSuccessor| == |plan|
        invariant forall b: nat | b < |plan| ::
                    hasSuccessor[b] <==> (exists d :: 0 <= d < c && b in plan[d].predecessors) || b in plan[c].predecessors[..k]
      {
        assert Predecessors(plan)[c][k] < c;
        assert plan[c].predecessors[..k + 1] == plan[c].predecessors[..k] + [plan[c].predecessors[k]];
        hasSuccessor := hasSuccessor[plan[c].predecessors[k] := true];
      }
      assert plan[c].predecessors[..|plan[c].predecessors|] == plan[c].predecessors;
    }
    terminals := [];
    for b := 0 to |plan|
      invariant forall c: nat :: c in terminals <==> c < b && !hasSuccessor[c]
      invariant forall j, k | 0 <= j < k < |terminals| :: terminals[j] < terminals[k]
    {
      assert forall k | 0 <= k < |terminals| :: terminals[k] in terminals;
      if !hasSuccessor[b] { terminals := terminals + [b]; }
    }
  }

  /** Every batch is terminal or before one that is, so whoever waits for the terminal batches has waited for all. */
  lemma {:induction false} TerminalsCoverAll(plan: Plan, b: nat) returns (t: nat)
    requires Topological(Predecessors(plan)) && b < |plan|
    ensures IsTerminal(plan, t)
    ensures t == b || Before(Predecessors(plan), b, t)
    decreases |plan| - b
  {
    if c :| 0 <= c < |plan| && b in plan[c].predecessors {
      var k :| 0 <= k < |plan[c].predecessors| && plan[c].predecessors[k] == b;
      assert Predecessors(plan)[c][k] == b;
      assert Before(Predecessors(plan), b, c);
      t := TerminalsCoverAll(plan, c);
      if t != c {
        BeforeIsTransitive(Predecessors(plan), b, c, t);
      }
    } else {
      t := b;
    }
  }
}
