/**
 The end of a graph, include/vkexec/detail/pass_graph_submit.hpp: the last batch
 joins all others, so that its fence stands for the graph, and what the plan
 orders does not overlap on the device.
 */
module GraphRun {
  import P = PassOrder
  import opened PassGraph
  import opened ExecutionPlan
  import opened GraphSync
  import PreparedGraph
  import BufferHazards
  import opened Fallible

  /** Every batch comes before the last one. */
  ghost predicate JoinsAll(g: seq<seq<nat>>)
    requires P.Topological(g)
  {
    forall b: nat | b + 1 < |g| :: Joined(g, b)
  }

  ghost predicate Joined(g: seq<seq<nat>>, b: nat)
    requires P.Topological(g) && b + 1 < |g|
  {
    P.Before(g, b, |g| - 1)
  }

  /** The same batches with at least the waits they had, and perhaps more batches. */
  predicate Extends(plan: Plan, more: Plan) {
    && |plan| <= |more|
    && (forall b | 0 <= b < |plan| :: more[b].(predecessors := plan[b].predecessors) == plan[b])
    && forall b, p | 0 <= b < |plan| && p in plan[b].predecessors :: p in more[b].predecessors
  }

  lemma {:induction false} ExtendedKeepsOrder(plan: Plan, more: Plan, i: nat, j: nat)
    requires Extends(plan, more) && P.Topological(Predecessors(plan)) && P.Topological(Predecessors(more)) && j < |plan| && P.Before(Predecessors(plan), i, j)
    ensures P.Before(Predecessors(more), i, j)
    decreases j
  {
    var g, g' := Predecessors(plan), Predecessors(more);
    var k :| 0 <= k < |g[j]| && (g[j][k] == i || P.Before(g, i, g[j][k]));
    assert g[j][k] in plan[j].predecessors;
    var k' :| 0 <= k' < |g'[j]| && g'[j][k'] == g[j][k];
    if g[j][k] != i {
      ExtendedKeepsOrder(plan, more, i, g[j][k]);
    }
  }

  /** A chain of batches joins at its end. */
  lemma {:induction false} ChainJoinsAll(g: seq<seq<nat>>, b: nat, last: nat)
    requires P.Topological(g) && (forall c | 0 < c < |g| :: c - 1 in g[c]) && b < last < |g|
    ensures P.Before(g, b, last)
  {
    assert last - 1 in g[last];
    var k :| 0 <= k < |g[last]| && g[last][k] == last - 1;
    if b < last - 1 {
      ChainJoinsAll(g, b, last - 1);
    }
  }

  /** A graph with explicit predecessors that is not presented ends in several batches. */
  ghost predicate NeedsJoin(plan: Plan, isDag: bool, presented: bool) {
    isDag && !presented && exists a: nat, b: nat :: a < b && IsTerminal(plan, a) && IsTerminal(plan, b)
  }

  /**
   prepare_terminal: a graph with explicit predecessors may end in several
   batches; the presented one, or an empty batch made for it, waits for exactly
   those. The scope of that batch may fail to open.
   */
  method PrepareTerminal(plan: Plan, isDag: bool, presented: bool, queue: Queue, steps: nat, scopeOpens: bool) returns (answer: Result<Plan>)
    requires P.Topological(Predecessors(plan)) && (presented ==> plan != [])
    ensures answer.Ok? <==> !NeedsJoin(plan, isDag, presented) || scopeOpens
    ensures answer.Ok? ==> var r := answer.value; P.Topological(Predecessors(r)) && Extends(plan, r) && (isDag ==> JoinsAll(Predecessors(r)))
    ensures answer.Ok? && NeedsJoin(plan, isDag, presented) ==>
              var r := answer.value;
              && |r| == |plan| + 1 && r[..|plan|] == plan
              && r[|plan|].queue == queue && r[|plan|].first == steps == r[|plan|].end && NoDuplicates(r[|plan|].predecessors)
              && forall b: nat :: b in r[|plan|].predecessors <==> IsTerminal(plan, b)
    ensures answer.Ok? && !NeedsJoin(plan, isDag, presented) && !(isDag && presented) ==> answer.value == plan
    ensures answer.Ok? && isDag && presented ==>
              var r, final := answer.value, |plan| - 1;
              && |r| == |plan| && r[..final] == plan[..final] && r[final].(predecessors := plan[final].predecessors) == plan[final]
              && plan[final].predecessors <= r[final].predecessors
              && var added := r[final].predecessors[|plan[final].predecessors|..];
                 NoDuplicates(added) && forall b: nat :: b in added <==> b != final && IsTerminal(plan, b)
    ensures answer.Ok? ==> forall b: nat, i: nat :: Holds(answer.value, b, i) <==> Holds(plan, b, i)
  {
    if !isDag { return Ok(plan); }
    var sinks := TerminalBatches(plan);
    if presented {
      var r := WaitForSinks(plan, sinks);
      return Ok(r);
    }
    assert |sinks| > 1 ==> sinks[0] in sinks && sinks[1] in sinks;
    if |sinks| <= 1 {
      assert forall s | s in sinks :: s == sinks[0];
      OneSinkIsLast(plan, sinks);
      return Ok(plan);
    }
    if !scopeOpens { return Err; }
    var r := plan + [Batch(queue, steps, steps, sinks)];
    JoinWaitsForAll(plan, r, sinks);
    answer := Ok(r);
  }

  /** The presented batch waits for the other sinks as well. */
  method WaitForSinks(plan: Plan, sinks: seq<nat>) returns (r: Plan)
    requires P.Topological(Predecessors(plan)) && plan != [] && AreSinks(plan, sinks)
    requires forall j, k | 0 <= j < k < |sinks| :: sinks[j] < sinks[k]
    ensures P.Topological(Predecessors(r)) && Extends(plan, r) && JoinsAll(Predecessors(r))
    ensures var final := |plan| - 1;
            && |r| == |plan| && r[..final] == plan[..final] && r[final].(predecessors := plan[final].predecessors) == plan[final]
            && plan[final].predecessors <= r[final].predecessors
            && var added := r[final].predecessors[|plan[final].predecessors|..];
               NoDuplicates(added) && forall b: nat :: b in added <==> b != final && b in sinks
  {
    r := plan;
    var final := |plan| - 1;
    ghost var added: seq<nat> := [];
    assert plan[final].predecessors + added == plan[final].predecessors;
    for k := 0 to |sinks|
      invariant |r| == |plan| && P.Topological(Predecessors(r)) && Extends(plan, r)
      invariant r == plan[final := plan[final].(predecessors := plan[final].predecessors + added)]
      invariant NoDuplicates(added) && forall b: nat :: b in added <==> b != final && b in sinks[..k]
    {
      assert sinks[..k + 1] == sinks[..k] + [sinks[k]];
      if sinks[k] != final {
        assert sinks[k] in sinks;
        PushedWait(plan, r, sinks[k]);
        assert forall b | b in sinks[..k] :: b < sinks[k];
        assert sinks[k] !in added && forall i | 0 <= i < |added| :: added[i] in added;
        assert plan[final].predecessors + added + [sinks[k]] == plan[final].predecessors + (added + [sinks[k]]);
        added := added + [sinks[k]];
        r := r[final := r[final].(predecessors := r[final].predecessors + [sinks[k]])];
      }
    }
    assert sinks[..|sinks|] == sinks;
    AllReachLast(plan, r, sinks);
  }

  lemma PushedWait(plan: Plan, r: Plan, sink: nat)
    requires plan != [] && |r| == |plan| && P.Topological(Predecessors(r)) && Extends(plan, r) && sink < |plan| - 1
    ensures var final := |plan| - 1;
            var more := r[final := r[final].(predecessors := r[final].predecessors + [sink])];
            P.Topological(Predecessors(more)) && Extends(plan, more)
  {
    var final := |plan| - 1;
    var more := r[final := r[final].(predecessors := r[final].predecessors + [sink])];
    var g, g' := Predecessors(r), Predecessors(more);
    forall j, k | 0 <= j < |g'| && 0 <= k < |g'[j]|
      ensures g'[j][k] < j
    {
      assert j != final ==> g'[j] == g[j];
      assert j == final ==> g'[j] == g[j] + [sink];
    }
  }

  ghost predicate AreSinks(plan: Plan, sinks: seq<nat>) {
    forall b: nat :: b in sinks <==> IsTerminal(plan, b)
  }

  lemma AllReachLast(plan: Plan, r: Plan, sinks: seq<nat>)
    requires P.Topological(Predecessors(plan)) && P.Topological(Predecessors(r)) && Extends(plan, r) && |r| == |plan| && AreSinks(plan, sinks)
    requires forall b | b in sinks && b != |r| - 1 :: b in r[|r| - 1].predecessors
    ensures JoinsAll(Predecessors(r))
  {
    var g := Predecessors(r);
    forall b: nat | b + 1 < |g|
      ensures Joined(g, b)
    {
      var t := TerminalsCoverAll(plan, b);
      if t != b { ExtendedKeepsOrder(plan, r, b, t); }
      if t != |g| - 1 {
        assert t in sinks;
        ListedIsBefore(g, t, |g| - 1);
        if t != b { P.BeforeIsTransitive(g, b, t, |g| - 1); }
      }
    }
  }

  lemma ListedIsBefore(g: seq<seq<nat>>, i: nat, j: nat)
    requires P.Topological(g) && j < |g| && i in g[j]
    ensures P.Before(g, i, j)
  {
    var k :| 0 <= k < |g[j]| && g[j][k] == i;
  }

  /** Nothing follows the last batch, so a single sink is the last. */
  lemma OneSinkIsLast(plan: Plan, sinks: seq<nat>)
    requires P.Topological(Predecessors(plan)) && AreSinks(plan, sinks) && |sinks| <= 1
    ensures JoinsAll(Predecessors(plan))
  {
    if plan != [] {
      var last := |plan| - 1;
      forall c | 0 <= c < |plan|
        ensures last !in plan[c].predecessors
      {
        assert Predecessors(plan)[c] == plan[c].predecessors;
      }
      assert last in sinks;
      assert forall s | s in sinks :: s == last;
    }
    AllReachLast(plan, plan, sinks);
  }

  lemma JoinWaitsForAll(plan: Plan, r: Plan, sinks: seq<nat>)
    requires P.Topological(Predecessors(plan)) && AreSinks(plan, sinks) && |r| == |plan| + 1 && r[..|plan|] == plan && r[|plan|].predecessors == sinks
    ensures P.Topological(Predecessors(r)) && Extends(plan, r) && JoinsAll(Predecessors(r))
  {
    var g := Predecessors(r);
    forall j, k | 0 <= j < |g| && 0 <= k < |g[j]|
      ensures g[j][k] < j
    {
      assert j < |plan| ==> r[..|plan|][j] == plan[j] && g[j] == Predecessors(plan)[j];
      assert g[j][k] in g[j];
      assert j == |plan| ==> g[j] == sinks && IsTerminal(plan, g[j][k]);
    }
    forall b | 0 <= b < |plan|
      ensures r[b] == plan[b]
    {
      assert r[..|plan|][b] == plan[b];
    }
    forall b: nat | b + 1 < |g|
      ensures Joined(g, b)
    {
      var t := TerminalsCoverAll(plan, b);
      ListedIsBefore(g, t, |g| - 1);
      if t != b {
        ExtendedKeepsOrder(plan, r, b, t);
        P.BeforeIsTransitive(g, b, t, |g| - 1);
      }
    }
  }

  /** The fence of the last batch stands for the graph: when it signals, every batch has finished. */
  lemma LastBatchFinishesLast(plan: Plan, setup: Setup, t: Times, b: nat)
    requires var g := Predecessors(plan); P.Topological(g) && Enough(g, setup) && Own(setup) && Runs(g, setup, t) && JoinsAll(g)
    requires b < |plan|
    ensures t.finish[b] <= t.finish[|plan| - 1]
  {
    if b + 1 < |plan| {
      assert Joined(Predecessors(plan), b);
      OrderedBatchesDoNotOverlap(Predecessors(plan), setup, t, b, |plan| - 1);
    }
  }

  /**
   From declarations to the device: two uses of a byte that may not run side by
   side are in one batch, recorded in order, or in batches of which one has
   finished before the other starts.
   */
  lemma HazardsDoNotOverlap(plan: Plan, submitted: Plan, setup: Setup, t: Times, u: BufferHazards.Use, w: BufferHazards.Use, b: nat, c: nat)
    requires P.Topological(Predecessors(plan)) && PreparedGraph.Ordered(plan, u, w) && Extends(plan, submitted)
    requires var g := Predecessors(submitted); P.Topological(g) && Enough(g, setup) && Own(setup) && Runs(g, setup, t)
    requires Holds(plan, b, u.access.step) && Holds(plan, c, w.access.step)
    ensures u.access.step < w.access.step && (b == c || t.finish[b] <= t.start[c])
  {
    if b != c {
      ExtendedKeepsOrder(plan, submitted, b, c);
      OrderedBatchesDoNotOverlap(Predecessors(submitted), setup, t, b, c);
    }
  }
}
