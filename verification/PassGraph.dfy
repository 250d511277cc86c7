/**
 Pass graphs and their execution plans: the builder of include/vkexec/pass.hpp
 and the planner of include/vkexec/detail/pass_execution.hpp.
 */
module PassOrder {
  /** Each node's predecessors; a node comes after its predecessors in the list. */
  type Predecessors = seq<seq<nat>>

  predicate Topological(g: Predecessors) {
    forall j, k | 0 <= j < |g| && 0 <= k < |g[j]| :: g[j][k] < j
  }

  /** Node i is ordered before node j by some chain of predecessors. */
  ghost predicate Before(g: Predecessors, i: nat, j: nat)
    requires Topological(g) && j < |g|
    decreases j
  {
    exists k :: 0 <= k < |g[j]| && (g[j][k] == i || Before(g, i, g[j][k]))
  }

  /** There are no cycles. */
  lemma {:induction false} BeforeIsEarlier(g: Predecessors, i: nat, j: nat)
    requires Topological(g) && j < |g| && Before(g, i, j)
    ensures i < j
    decreases j
  {
    var k :| 0 <= k < |g[j]| && (g[j][k] == i || Before(g, i, g[j][k]));
    if g[j][k] != i {
      BeforeIsEarlier(g, i, g[j][k]);
    }
  }

  lemma {:induction false} BeforeIsTransitive(g: Predecessors, h: nat, i: nat, j: nat)
    requires Topological(g) && i < |g| && j < |g| && Before(g, h, i) && Before(g, i, j)
    ensures Before(g, h, j)
    decreases j
  {
    var k :| 0 <= k < |g[j]| && (g[j][k] == i || Before(g, i, g[j][k]));
    if g[j][k] != i {
      BeforeIsTransitive(g, h, i, g[j][k]);
    }
    assert Before(g, h, g[j][k]);
  }

  /** More predecessors of the same nodes order at least as much. */
  lemma {:induction false} MorePredecessorsOrderMore(g: Predecessors, g': Predecessors, i: nat, j: nat)
    requires Topological(g) && Topological(g') && |g| == |g'| && j < |g| && Before(g, i, j)
    requires forall n, p | 0 <= n < |g| && p in g[n] :: p in g'[n]
    ensures Before(g', i, j)
    decreases j
  {
    var k :| 0 <= k < |g[j]| && (g[j][k] == i || Before(g, i, g[j][k]));
    assert g[j][k] in g[j];
    var k' :| 0 <= k' < |g'[j]| && g'[j][k'] == g[j][k];
    if g[j][k] != i {
      MorePredecessorsOrderMore(g, g', i, g[j][k]);
    }
  }

  // ------------------------------------------------------------ chains

  /** The predecessors an implicit chain stands for. */
  function Chain(n: nat): (g: Predecessors)
    ensures |g| == n && Topological(g) && forall j | 0 <= j < n :: g[j] == if j == 0 then [] else [j - 1]
  {
    seq(n, j => if j == 0 then [] else [j - 1])
  }

  /** A chain orders everything. */
  lemma {:induction false} ChainOrdersAll(n: nat, i: nat, j: nat)
    requires j < n
    ensures Before(Chain(n), i, j) <==> i < j
    decreases j
  {
    if i < j {
      if i < j - 1 {
        ChainOrdersAll(n, i, j - 1);
      }
      assert Chain(n)[j][0] == j - 1;
    } else if Before(Chain(n), i, j) {
      BeforeIsEarlier(Chain(n), i, j);
    }
  }

  /** A node added at the end changes no order among the others. */
  lemma {:induction false} ExtensionKeepsOrder(g: Predecessors, ps: seq<nat>, i: nat, j: nat)
    requires Topological(g) && Topological(g + [ps]) && j < |g|
    ensures Before(g + [ps], i, j) <==> Before(g, i, j)
    decreases j
  {
    assert (g + [ps])[j] == g[j];
    forall k | 0 <= k < |g[j]|
      ensures Before(g + [ps], i, g[j][k]) <==> Before(g, i, g[j][k])
    {
      ExtensionKeepsOrder(g, ps, i, g[j][k]);
    }
  }

  /** The new node is after its predecessors and whatever is before them, and nothing else. */
  lemma NewNodeOrder(g: Predecessors, ps: seq<nat>, i: nat)
    requires Topological(g) && forall k | 0 <= k < |ps| :: ps[k] < |g|
    ensures Topological(g + [ps])
    ensures Before(g + [ps], i, |g|) <==> exists k :: 0 <= k < |ps| && (ps[k] == i || Before(g, i, ps[k]))
  {
    var h := g + [ps];
    assert h[|g|] == ps;
    assert Topological(h) by {
      forall j, k | 0 <= j < |h| && 0 <= k < |h[j]|
        ensures h[j][k] < j
      {
        assert j < |g| ==> h[j] == g[j];
      }
    }
    forall k | 0 <= k < |ps|
      ensures Before(h, i, ps[k]) <==> Before(g, i, ps[k])
    {
      ExtensionKeepsOrder(g, ps, i, ps[k]);
    }
  }
}

module PassGraph {
  import opened Optional
  import opened PassOrder

  datatype Queue = Queue(handle: nat, family: nat)

  type Affinity = Option<Queue>

  /** A step, as far as the builder looks at it. */
  type Step = nat

  class DynamicPassGraph {
    var steps: seq<Step>
    var stepQueues: seq<Affinity>
    var stepPredecessors: Predecessors
    var currentQueue: Affinity

    constructor ()
      ensures Valid() && steps == [] && stepQueues == [] && currentQueue == None
    {
      steps, stepQueues, stepPredecessors, currentQueue := [], [], [], None;
    }

    /** Explicit predecessors, if there are any, are one list per step, of earlier steps. */
    ghost predicate Valid()
      reads this
    {
      Topological(stepPredecessors) && (stepPredecessors == [] || |stepPredecessors| == |steps|)
    }

    ghost predicate Aligned()
      reads this
    {
      |stepQueues| == |steps|
    }

    /** The order the graph stands for: the lists, or the implicit chain. */
    ghost function Order(): (g: Predecessors)
      requires Valid()
      reads this
      ensures |g| == |steps| && Topological(g)
    {
      if stepPredecessors == [] then Chain(|steps|) else stepPredecessors
    }

    /** The new step comes after the last one; queues that were left implicit are filled in. */
    method Append(step: Step)
      requires Valid() && (stepQueues == [] || Aligned())
      modifies this
      ensures Valid() && Aligned() && steps == old(steps) + [step] && currentQueue == old(currentQueue)
      ensures stepQueues == (if old(stepQueues) == [] then Nones(|old(steps)|) else old(stepQueues)) + [currentQueue]
      ensures Order() == old(Order()) + [if old(steps) == [] then [] else [|old(steps)| - 1]]
      ensures old(stepPredecessors) == [] ==> stepPredecessors == []
    {
      if stepQueues == [] { stepQueues := Nones(|steps|); }
      if stepPredecessors != [] {
        var predecessors: seq<nat> := [];
        if steps != [] { predecessors := predecessors + [|steps| - 1]; }
        assert predecessors == [|steps| - 1];
        AppendedIsTopological(stepPredecessors, predecessors);
        stepPredecessors := stepPredecessors + [predecessors];
      } else {
        assert Chain(|steps| + 1) == Chain(|steps|) + [if steps == [] then [] else [|steps| - 1]];
      }
      steps := steps + [step];
      stepQueues := stepQueues + [currentQueue];
    }

    /** The lists of an implicit chain, written out. */
    method ExplicitChain() returns (g: Predecessors)
      ensures g == Chain(|steps|)
    {
      g := seq(|steps|, _ => []);
      var index := 1;
      while index < |steps|
        invariant |g| == |steps| && index >= 1
        invariant forall j | 0 <= j < |g| :: g[j] == if 0 < j < index then [j - 1] else []
      {
        g := g[index := g[index] + [index - 1]];
        index := index + 1;
      }
    }

    /**
     The new step comes after the given ones. A chain is written out first, in
     the same order. The queues get one more entry, whether or not they were
     aligned: a graph whose queues were left implicit becomes misaligned.
     */
    method AppendAfter(predecessors: seq<nat>, step: Step) returns (node: nat)
      requires Valid() && forall k | 0 <= k < |predecessors| :: predecessors[k] < |steps|
      modifies this
      ensures Valid() && steps == old(steps) + [step] && node == |old(steps)| && currentQueue == old(currentQueue)
      ensures stepQueues == old(stepQueues) + [currentQueue]
      ensures Order() == old(Order()) + [predecessors] && stepPredecessors == Order()
      ensures Aligned() <==> old(Aligned())
    {
      var g := stepPredecessors;
      if stepPredecessors == [] {
        g := ExplicitChain();
      }
      AppendedIsTopological(g, predecessors);
      node := |steps|;
      steps := steps + [step];
      stepQueues := stepQueues + [currentQueue];
      stepPredecessors := g + [predecessors];
    }
  }

  function Nones(n: nat): seq<Affinity> {
    seq(n, _ => None)
  }

  lemma AppendedIsTopological(g: Predecessors, ps: seq<nat>)
    requires Topological(g) && forall k | 0 <= k < |ps| :: ps[k] < |g|
    ensures Topological(g + [ps])
  {
    NewNodeOrder(g, ps, 0);
  }

  /** What a build does: a list of appends. */
  datatype Build = Then(step: Step) | After(predecessors: seq<nat>, step: Step)

  predicate BuildOk(builds: seq<Build>) {
    forall n | 0 <= n < |builds| && builds[n].After? :: forall k | 0 <= k < |builds[n].predecessors| :: builds[n].predecessors[k] < n
  }

  /** The order a build asks for. */
  function Asked(builds: seq<Build>): (g: Predecessors)
    requires BuildOk(builds)
    ensures |g| == |builds| && Topological(g)
  {
    seq(|builds|, n requires 0 <= n < |builds| =>
      if builds[n].After? then builds[n].predecessors else if n == 0 then [] else [n - 1])
  }

  /** Any mix of appends gives an aligned, acyclic graph whose order is the one asked for, even where the chain was written out midway. */
  method BuildGraph(builds: seq<Build>) returns (graph: DynamicPassGraph)
    requires BuildOk(builds)
    ensures fresh(graph) && graph.Valid() && graph.Aligned() && |graph.steps| == |builds|
    ensures graph.Order() == Asked(builds)
    ensures forall n | 0 <= n < |builds| :: graph.steps[n] == builds[n].step
  {
    graph := new DynamicPassGraph();
    for n := 0 to |builds|
      invariant fresh(graph) && graph.Valid() && graph.Aligned() && |graph.steps| == n
      invariant graph.Order() == Asked(builds)[..n]
      invariant forall m | 0 <= m < n :: graph.steps[m] == builds[m].step
    {
      match builds[n] {
        case Then(step) => graph.Append(step);
        case After(predecessors, step) =>
          var _ := graph.AppendAfter(predecessors, step);
      }
      assert Asked(builds)[..n + 1] == Asked(builds)[..n] + [Asked(builds)[n]];
    }
  }

  /** Writing the chain out changes no order between the steps that are there, and orders the new step exactly after what it names. */
  lemma SwitchKeepsOrder(n: nat, predecessors: seq<nat>, i: nat, j: nat)
    requires j < n && forall k | 0 <= k < |predecessors| :: predecessors[k] < n
    ensures Topological(Chain(n) + [predecessors])
    ensures Before(Chain(n) + [predecessors], i, j) <==> i < j
    ensures Before(Chain(n) + [predecessors], i, n) <==> exists k :: 0 <= k < |predecessors| && i <= predecessors[k]
  {
    NewNodeOrder(Chain(n), predecessors, i);
    ExtensionKeepsOrder(Chain(n), predecessors, i, j);
    ChainOrdersAll(n, i, j);
    forall k | 0 <= k < |predecessors|
      ensures Before(Chain(n), i, predecessors[k]) <==> i < predecessors[k]
    {
      ChainOrdersAll(n, i, predecessors[k]);
    }
  }
}
