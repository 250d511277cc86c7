/**
 The semaphores between the batches of a graph,
 include/vkexec/detail/graph_submission_sync.hpp: every edge of the plan has a
 signal where it starts and a wait where it ends.
 */
module GraphEdges {
  import opened PassOrder

  type Edge = (nat, nat)

  /** Edges are counted by destination, and within it by place. */
  function EdgesBelow(g: Predecessors, d: nat): nat
    requires d <= |g|
  {
    if d == 0 then 0 else EdgesBelow(g, d - 1) + |g[d - 1]|
  }

  predicate IsEdge(g: Predecessors, e: Edge) {
    e.0 < |g| && e.1 < |g[e.0]|
  }

  predicate Reached(g: Predecessors, d: nat, k: nat) {
    d <= |g| && k <= if d < |g| then |g[d]| else 0
  }

  /** The edges out of s among those before place k of destination d, in order. */
  function OutEdges(g: Predecessors, s: nat, d: nat, k: nat): seq<Edge>
    requires Reached(g, d, k)
    decreases d, k
  {
    if k > 0 then OutEdges(g, s, d, k - 1) + if g[d][k - 1] == s then [(d, k - 1)] else []
    else if d > 0 then OutEdges(g, s, d - 1, |g[d - 1]|)
    else []
  }

  function AllOut(g: Predecessors, s: nat): seq<Edge> {
    OutEdges(g, s, |g|, 0)
  }

  predicate Earlier(e: Edge, f: Edge) {
    e.0 < f.0 || (e.0 == f.0 && e.1 < f.1)
  }

  lemma {:induction false} OutEdgesGrow(g: Predecessors, s: nat, d: nat, k: nat, d': nat, k': nat)
    requires Reached(g, d, k) && Reached(g, d', k') && (Earlier((d, k), (d', k')) || (d, k) == (d', k'))
    ensures OutEdges(g, s, d, k) <= OutEdges(g, s, d', k')
    decreases d', k'
  {
    if (d, k) != (d', k') {
      if k' > 0 {
        OutEdgesGrow(g, s, d, k, d', k' - 1);
      } else {
        OutEdgesGrow(g, s, d, k, d' - 1, |g[d' - 1]|);
      }
    }
  }

  /** They are exactly the edges out of s, each once. */
  lemma {:induction false} OutEdgesAreExact(g: Predecessors, s: nat, d: nat, k: nat)
    requires Reached(g, d, k)
    ensures forall e: Edge :: e in OutEdges(g, s, d, k) <==> IsEdge(g, e) && Earlier(e, (d, k)) && g[e.0][e.1] == s
    ensures forall i, j | 0 <= i < j < |OutEdges(g, s, d, k)| :: Earlier(OutEdges(g, s, d, k)[i], OutEdges(g, s, d, k)[j])
    decreases d, k
  {
    if k > 0 {
      OutEdgesAreExact(g, s, d, k - 1);
      var before, now := OutEdges(g, s, d, k - 1), OutEdges(g, s, d, k);
      forall i, j | 0 <= i < j < |now|
        ensures Earlier(now[i], now[j])
      {
        assert now[i] in before;
      }
    } else if d > 0 {
      OutEdgesAreExact(g, s, d - 1, |g[d - 1]|);
    }
  }

  lemma {:induction false} EdgeNumbersGrow(g: Predecessors, d: nat, d': nat)
    requires d < d' <= |g|
    ensures EdgesBelow(g, d) + |g[d]| <= EdgesBelow(g, d')
  {
    if d < d' - 1 {
      EdgeNumbersGrow(g, d, d' - 1);
    }
  }
}

module GraphSync {
  import opened Optional
  import opened PassOrder
  import opened GraphEdges
  import opened Submission
  import LegacyMasks

  const TIMELINE_VALUE: nat := 1

  /** prepared_batch_sync: the lists of all batches end to end, and where each begins. */
  datatype BatchSync = BatchSync(waits: seq<SemaphoreSubmit>, signals: seq<SemaphoreSubmit>, waitOffsets: seq<nat>, signalOffsets: seq<nat>)

  /** What a graph is synchronized with: semaphores of its own, and a presenter's wait and signal for its last batch. */
  datatype Setup = Setup(semaphores: seq<nat>, timeline: bool, wait: Option<SemaphoreSubmit>, signal: Option<SemaphoreSubmit>)

  /** create_sync: a semaphore a batch when they count, a semaphore an edge when they do not. */
  predicate Enough(g: Predecessors, setup: Setup) {
    |setup.semaphores| == if setup.timeline then |g| else EdgesBelow(g, |g|)
  }

  function OnSemaphore(semaphore: nat, value: nat): SemaphoreSubmit {
    SemaphoreSubmit(semaphore, value, {LegacyMasks.ALL_COMMANDS})
  }

  /** What carries edge e. */
  function Carrier(g: Predecessors, setup: Setup, e: Edge): SemaphoreSubmit
    requires Topological(g) && Enough(g, setup) && IsEdge(g, e)
  {
    if setup.timeline then OnSemaphore(setup.semaphores[g[e.0][e.1]], TIMELINE_VALUE)
    else
      EdgeNumbersGrow(g, e.0, |g|);
      OnSemaphore(setup.semaphores[EdgesBelow(g, e.0) + e.1], 0)
  }

  function Extra(o: Option<SemaphoreSubmit>, isLast: bool): seq<SemaphoreSubmit> {
    if o.Some? && isLast then [o.value] else []
  }

  /** A batch waits for what carries each of its edges, and the last one for the image too. */
  function WaitsOf(g: Predecessors, setup: Setup, b: nat): seq<SemaphoreSubmit>
    requires Topological(g) && Enough(g, setup) && b < |g|
  {
    seq(|g[b]|, k requires 0 <= k < |g[b]| => Carrier(g, setup, (b, k))) + Extra(setup.wait, b == |g| - 1)
  }

  /** It signals what carries each edge out of it, once if the semaphores count; the last one also signals that it has rendered. */
  function SignalsOf(g: Predecessors, setup: Setup, b: nat): seq<SemaphoreSubmit>
    requires Topological(g) && Enough(g, setup) && b < |g|
  {
    EdgeSignals(g, setup, b) + Extra(setup.signal, b == |g| - 1)
  }

  function EdgeSignals(g: Predecessors, setup: Setup, b: nat): (r: seq<SemaphoreSubmit>)
    requires Topological(g) && Enough(g, setup) && b < |g|
    ensures |r| == SignalCount(setup.timeline, AllOut(g, b))
  {
    if setup.timeline then
      if AllOut(g, b) == [] then [] else [OnSemaphore(setup.semaphores[b], TIMELINE_VALUE)]
    else
      OutEdgesAreExact(g, b, |g|, 0);
      var out := AllOut(g, b);
      seq(|out|, j requires 0 <= j < |out| => assert out[j] in out; Carrier(g, setup, out[j]))
  }

  function SignalCount(timeline: bool, out: seq<Edge>): nat {
    if timeline && |out| > 1 then 1 else |out|
  }

  // ------------------------------------------------------------- offsets

  predicate Offsets(offsets: seq<nat>, n: nat) {
    |offsets| == n + 1 && offsets[0] == 0 && forall i, j | 0 <= i <= j <= n :: offsets[i] <= offsets[j]
  }

  /** accumulate_batch_sync_offsets. */
  method Accumulate(counts: seq<nat>) returns (offsets: seq<nat>)
    requires |counts| > 0 && counts[0] == 0
    ensures Offsets(offsets, |counts| - 1) && forall i | 0 <= i < |counts| - 1 :: offsets[i + 1] == offsets[i] + counts[i + 1]
  {
    offsets := counts;
    var total := 0;
    for i := 0 to |counts|
      invariant |offsets| == |counts| && offsets[i..] == counts[i..]
      invariant total == if i == 0 then 0 else offsets[i - 1]
      invariant i > 0 ==> offsets[0] == 0
      invariant forall j | 0 < j < i :: offsets[j] == offsets[j - 1] + counts[j]
      invariant forall j, k | 0 <= j <= k < i :: offsets[j] <= offsets[k]
    {
      assert offsets[i] == offsets[i..][0] == counts[i];
      total := total + offsets[i];
      offsets := offsets[i := total];
    }
  }

  /** prepare_batch_sync_storage: how much room each batch needs. */
  method PrepareStorage(g: Predecessors, setup: Setup) returns (waitOffsets: seq<nat>, signalOffsets: seq<nat>)
    requires Topological(g)
    ensures WaitRoom(g, setup, waitOffsets) && Room(g, setup, signalOffsets)
  {
    var n := |g|;
    var waits: seq<nat>, signals: seq<nat> := seq(n + 1, _ => 0), seq(n + 1, _ => 0);
    for d := 0 to n
      invariant |waits| == |signals| == n + 1 && waits[0] == signals[0] == 0
      invariant forall b | 0 <= b < d :: waits[b + 1] == |g[b]|
      invariant forall s: nat | s < n :: signals[s + 1] == SignalCount(setup.timeline, OutEdges(g, s, d, 0))
    {
      waits := waits[d + 1 := |g[d]|];
      for k := 0 to |g[d]|
        invariant |signals| == n + 1 && signals[0] == 0
        invariant forall s: nat | s < n :: signals[s + 1] == SignalCount(setup.timeline, OutEdges(g, s, d, k))
      {
        var source := g[d][k];
        signals := signals[source + 1 := if setup.timeline then 1 else signals[source + 1] + 1];
      }
    }
    if n != 0 {
      if setup.wait.Some? { waits := waits[n := waits[n] + 1]; }
      if setup.signal.Some? { signals := signals[n := signals[n] + 1]; }
    }
    waitOffsets := Accumulate(waits);
    signalOffsets := Accumulate(signals);
  }

  // -------------------------------------------------------------- filling

  /** The waits of the edges before place k of destination d are in place. */
  ghost predicate WaitsFilled(g: Predecessors, setup: Setup, waits: seq<SemaphoreSubmit>, offsets: seq<nat>, d: nat, k: nat)
    requires Topological(g) && Enough(g, setup) && Offsets(offsets, |g|)
  {
    |waits| == offsets[|g|]
    && forall e: Edge | IsEdge(g, e) && Earlier(e, (d, k)) :: offsets[e.0] + e.1 < |waits| && waits[offsets[e.0] + e.1] == Carrier(g, setup, e)
  }

  lemma NextWaitFilled(g: Predecessors, setup: Setup, waits: seq<SemaphoreSubmit>, offsets: seq<nat>, d: nat, k: nat)
    requires Topological(g) && Enough(g, setup) && Offsets(offsets, |g|) && WaitsFilled(g, setup, waits, offsets, d, k) && IsEdge(g, (d, k))
    requires forall b | 0 <= b < |g| :: offsets[b] + |g[b]| <= offsets[b + 1]
    ensures offsets[d] + k < |waits| && WaitsFilled(g, setup, waits[offsets[d] + k := Carrier(g, setup, (d, k))], offsets, d, k + 1)
  {
    hide Carrier;
    assert offsets[d + 1] <= offsets[|g|];
    var now := waits[offsets[d] + k := Carrier(g, setup, (d, k))];
    forall e: Edge | IsEdge(g, e) && Earlier(e, (d, k + 1))
      ensures offsets[e.0] + e.1 < |now| && now[offsets[e.0] + e.1] == Carrier(g, setup, e)
    {
      if e != (d, k) {
        assert Earlier(e, (d, k));
        if e.0 < d { assert offsets[e.0 + 1] <= offsets[d]; }
      }
    }
  }

  /** The first signals of a batch are in place: what carries these edges. */
  ghost predicate SegmentFilled(g: Predecessors, setup: Setup, signals: seq<SemaphoreSubmit>, at: nat, out: seq<Edge>)
    requires Topological(g) && Enough(g, setup)
  {
    at + |out| <= |signals| && forall j | 0 <= j < |out| :: IsEdge(g, out[j]) && signals[at + j] == Carrier(g, setup, out[j])
  }

  ghost predicate SignalsFilled(g: Predecessors, setup: Setup, signals: seq<SemaphoreSubmit>, offsets: seq<nat>, cursor: seq<nat>, d: nat, k: nat)
    requires Topological(g) && Enough(g, setup) && Offsets(offsets, |g|) && Reached(g, d, k)
  {
    |signals| == offsets[|g|] && |cursor| == |g| + 1
    && forall s | 0 <= s < |g| :: cursor[s] == offsets[s] + |OutEdges(g, s, d, k)| && SegmentFilled(g, setup, signals, offsets[s], OutEdges(g, s, d, k))
  }

  lemma NextSignalFilled(g: Predecessors, setup: Setup, signals: seq<SemaphoreSubmit>, offsets: seq<nat>, cursor: seq<nat>, d: nat, k: nat)
    requires Topological(g) && Enough(g, setup) && Offsets(offsets, |g|) && IsEdge(g, (d, k))
    requires SignalsFilled(g, setup, signals, offsets, cursor, d, k)
    requires forall b | 0 <= b < |g| :: offsets[b] + |AllOut(g, b)| <= offsets[b + 1]
    ensures var s := g[d][k];
            && cursor[s] < |signals|
            && SignalsFilled(g, setup, signals[cursor[s] := Carrier(g, setup, (d, k))], offsets, cursor[s := cursor[s] + 1], d, k + 1)
  {
    hide Carrier, OutEdges;
    var s := g[d][k];
    NextOutEdge(g, s, d, k);
    assert offsets[s + 1] <= offsets[|g|];
    var now, at := signals[cursor[s] := Carrier(g, setup, (d, k))], cursor[s := cursor[s] + 1];
    forall t | 0 <= t < |g|
      ensures at[t] == offsets[t] + |OutEdges(g, t, d, k + 1)| && SegmentFilled(g, setup, now, offsets[t], OutEdges(g, t, d, k + 1))
    {
      NextOutEdge(g, t, d, k);
      if t < s { assert offsets[t + 1] <= offsets[s]; }
      if s < t { assert offsets[s + 1] <= offsets[t]; }
    }
  }

  lemma NextOutEdge(g: Predecessors, s: nat, d: nat, k: nat)
    requires IsEdge(g, (d, k))
    ensures OutEdges(g, s, d, k + 1) == OutEdges(g, s, d, k) + if g[d][k] == s then [(d, k)] else []
    ensures |OutEdges(g, s, d, k + 1)| <= |AllOut(g, s)|
  {
    OutEdgesGrow(g, s, d, k + 1, |g|, 0);
  }

  lemma NextDestination(g: Predecessors, setup: Setup, signals: seq<SemaphoreSubmit>, offsets: seq<nat>, cursor: seq<nat>, d: nat)
    requires Topological(g) && Enough(g, setup) && Offsets(offsets, |g|) && d < |g|
    requires SignalsFilled(g, setup, signals, offsets, cursor, d, |g[d]|)
    ensures SignalsFilled(g, setup, signals, offsets, cursor, d + 1, 0)
  {
    forall s | 0 <= s < |g|
      ensures OutEdges(g, s, d + 1, 0) == OutEdges(g, s, d, |g[d]|)
    {
    }
  }

  lemma StartFilled(g: Predecessors, setup: Setup, waits: seq<SemaphoreSubmit>, waitOffsets: seq<nat>, signals: seq<SemaphoreSubmit>, signalOffsets: seq<nat>)
    requires Topological(g) && Enough(g, setup) && Offsets(waitOffsets, |g|) && Offsets(signalOffsets, |g|)
    requires |waits| == waitOffsets[|g|] && |signals| == signalOffsets[|g|]
    ensures WaitsFilled(g, setup, waits, waitOffsets, 0, 0) && SignalsFilled(g, setup, signals, signalOffsets, signalOffsets, 0, 0)
  {
    forall s | 0 <= s < |g|
      ensures SegmentFilled(g, setup, signals, signalOffsets[s], OutEdges(g, s, 0, 0))
    {
      assert signalOffsets[s] <= signalOffsets[|g|];
    }
  }

  function SemaphoreIndex(g: Predecessors, setup: Setup, e: Edge): nat
    requires IsEdge(g, e)
  {
    if setup.timeline then g[e.0][e.1] else EdgesBelow(g, e.0) + e.1
  }

  lemma EntryIsCarrier(g: Predecessors, setup: Setup, d: nat, k: nat)
    requires Topological(g) && Enough(g, setup) && IsEdge(g, (d, k))
    ensures SemaphoreIndex(g, setup, (d, k)) < |setup.semaphores|
    ensures Carrier(g, setup, (d, k)) == OnSemaphore(setup.semaphores[SemaphoreIndex(g, setup, (d, k))], if setup.timeline then TIMELINE_VALUE else 0)
  {
    EdgeNumbersGrow(g, d, |g|);
  }

  lemma NextDestinationWaits(g: Predecessors, setup: Setup, waits: seq<SemaphoreSubmit>, offsets: seq<nat>, d: nat)
    requires Topological(g) && Enough(g, setup) && Offsets(offsets, |g|) && d < |g| && WaitsFilled(g, setup, waits, offsets, d, |g[d]|)
    ensures WaitsFilled(g, setup, waits, offsets, d + 1, 0)
  {
    hide Carrier;
    forall e: Edge | IsEdge(g, e) && Earlier(e, (d + 1, 0))
      ensures offsets[e.0] + e.1 < |waits| && waits[offsets[e.0] + e.1] == Carrier(g, setup, e)
    {
      assert Earlier(e, (d, |g[d]|));
    }
  }

  /** The room there is for each batch's signals. */
  predicate Room(g: Predecessors, setup: Setup, offsets: seq<nat>) {
    Offsets(offsets, |g|)
    && forall b | 0 <= b < |g| :: offsets[b + 1] - offsets[b] == SignalCount(setup.timeline, AllOut(g, b)) + |Extra(setup.signal, b == |g| - 1)|
  }

  lemma RoomForEdges(g: Predecessors, setup: Setup, offsets: seq<nat>)
    requires Room(g, setup, offsets) && !setup.timeline
    ensures forall b | 0 <= b < |g| :: offsets[b] + |AllOut(g, b)| <= offsets[b + 1]
  {
  }

  /** The signals of batch s for its edges are where they belong. */
  ghost predicate EdgeSignalsAt(g: Predecessors, setup: Setup, signals: seq<SemaphoreSubmit>, offsets: seq<nat>, s: nat)
    requires Topological(g) && Enough(g, setup) && Offsets(offsets, |g|) && s < |g|
  {
    var own := EdgeSignals(g, setup, s);
    offsets[s] + |own| <= |signals| && signals[offsets[s]..offsets[s] + |own|] == own
  }

  /** On counting semaphores a batch signals once if anything waits for it, and room was made exactly then. */
  lemma OneSignal(g: Predecessors, setup: Setup, signals: seq<SemaphoreSubmit>, offsets: seq<nat>, source: nat) returns (now: seq<SemaphoreSubmit>)
    requires Topological(g) && Enough(g, setup) && Room(g, setup, offsets) && setup.timeline && source < |g| && |signals| == offsets[|g|]
    requires forall s | 0 <= s < source :: EdgeSignalsAt(g, setup, signals, offsets, s)
    ensures now == if offsets[source + 1] - offsets[source] > (if setup.signal.Some? && source + 1 == |g| then 1 else 0) then
                     signals[..offsets[source]] + [OnSemaphore(setup.semaphores[source], TIMELINE_VALUE)] + signals[offsets[source] + 1..]
                   else signals
    ensures forall s | 0 <= s < source + 1 :: EdgeSignalsAt(g, setup, now, offsets, s)
  {
    assert offsets[source + 1] <= offsets[|g|];
    now := signals;
    if AllOut(g, source) != [] {
      now := signals[..offsets[source]] + [OnSemaphore(setup.semaphores[source], TIMELINE_VALUE)] + signals[offsets[source] + 1..];
    }
    hide AllOut;
    forall s | 0 <= s < source
      ensures EdgeSignalsAt(g, setup, now, offsets, s)
    {
      var own := EdgeSignals(g, setup, s);
      assert EdgeSignalsAt(g, setup, signals, offsets, s);
      assert offsets[s] + |own| <= offsets[s + 1] <= offsets[source];
      assert now[offsets[s]..offsets[s] + |own|] == signals[offsets[s]..offsets[s] + |own|];
    }
  }

  lemma AllFilled(g: Predecessors, setup: Setup, signals: seq<SemaphoreSubmit>, offsets: seq<nat>, cursor: seq<nat>)
    requires Topological(g) && Enough(g, setup) && Offsets(offsets, |g|) && !setup.timeline
    requires SignalsFilled(g, setup, signals, offsets, cursor, |g|, 0)
    ensures forall s | 0 <= s < |g| :: EdgeSignalsAt(g, setup, signals, offsets, s)
  {
    hide Carrier, OutEdges;
    forall s | 0 <= s < |g|
      ensures EdgeSignalsAt(g, setup, signals, offsets, s)
    {
      var own, out := EdgeSignals(g, setup, s), AllOut(g, s);
      assert SegmentFilled(g, setup, signals, offsets[s], out);
      forall j | 0 <= j < |own|
        ensures signals[offsets[s]..offsets[s] + |own|][j] == own[j]
      {
      }
    }
  }

  function WithLast(s: seq<SemaphoreSubmit>, o: Option<SemaphoreSubmit>, any: bool): (r: seq<SemaphoreSubmit>)
    ensures |r| == |s|
  {
    if any && o.Some? && s != [] then s[..|s| - 1] + [o.value] else s
  }

  lemma LastHasRoom(g: Predecessors, setup: Setup, waitOffsets: seq<nat>, signalOffsets: seq<nat>)
    requires g != [] && Offsets(waitOffsets, |g|) && Room(g, setup, signalOffsets)
    requires forall b | 0 <= b < |g| :: waitOffsets[b + 1] - waitOffsets[b] == |g[b]| + |Extra(setup.wait, b == |g| - 1)|
    ensures (setup.wait.Some? ==> waitOffsets[|g|] > waitOffsets[|g| - 1]) && (setup.signal.Some? ==> signalOffsets[|g|] > signalOffsets[|g| - 1])
  {
    assert waitOffsets[|g| - 1 + 1] == waitOffsets[|g|] && signalOffsets[|g| - 1 + 1] == signalOffsets[|g|];
  }

  /** With the presenter's wait in the last place, every batch's waits are there. */
  lemma WaitsAreThere(g: Predecessors, setup: Setup, filled: seq<SemaphoreSubmit>, waits: seq<SemaphoreSubmit>, offsets: seq<nat>)
    requires Topological(g) && Enough(g, setup) && Offsets(offsets, |g|) && WaitsFilled(g, setup, filled, offsets, |g|, 0)
    requires forall b | 0 <= b < |g| :: offsets[b + 1] - offsets[b] == |g[b]| + |Extra(setup.wait, b == |g| - 1)|
    requires g != [] && setup.wait.Some? ==> offsets[|g|] > offsets[|g| - 1]
    requires waits == WithLast(filled, setup.wait, g != [])
    ensures forall b: nat | b < |g| :: waits[offsets[b]..offsets[b + 1]] == WaitsOf(g, setup, b)
  {
    hide Carrier;
    forall b: nat | b < |g|
      ensures waits[offsets[b]..offsets[b + 1]] == WaitsOf(g, setup, b)
    {
      var all := WaitsOf(g, setup, b);
      forall k | 0 <= k < |all|
        ensures waits[offsets[b] + k] == all[k]
      {
        WaitIsThere(g, setup, filled, waits, offsets, b, k);
      }
    }
  }

  lemma FilledWait(g: Predecessors, setup: Setup, filled: seq<SemaphoreSubmit>, offsets: seq<nat>, b: nat, k: nat)
    requires Topological(g) && Enough(g, setup) && Offsets(offsets, |g|) && WaitsFilled(g, setup, filled, offsets, |g|, 0) && IsEdge(g, (b, k))
    ensures |filled| == offsets[|g|] && offsets[b] + k < |filled| && filled[offsets[b] + k] == Carrier(g, setup, (b, k))
  {
    hide Carrier;
    var e: Edge := (b, k);
    assert IsEdge(g, e) && Earlier(e, (|g|, 0));
  }

  lemma WaitIsThere(g: Predecessors, setup: Setup, filled: seq<SemaphoreSubmit>, waits: seq<SemaphoreSubmit>, offsets: seq<nat>, b: nat, k: nat)
    requires Topological(g) && Enough(g, setup) && Offsets(offsets, |g|) && WaitsFilled(g, setup, filled, offsets, |g|, 0)
    requires b < |g| && offsets[b + 1] - offsets[b] == |g[b]| + |Extra(setup.wait, b == |g| - 1)|
    requires b < |g| - 1 && setup.wait.Some? ==> offsets[|g|] > offsets[|g| - 1]
    requires |filled| == offsets[|g|] && waits == WithLast(filled, setup.wait, g != []) && k < |WaitsOf(g, setup, b)|
    ensures offsets[b] + k < |waits| && waits[offsets[b] + k] == WaitsOf(g, setup, b)[k]
  {
    hide Carrier, Enough, Topological, WaitsFilled;
    assert offsets[b + 1] <= offsets[|g|];
    if k < |g[b]| {
      FilledWait(g, setup, filled, offsets, b, k);
      if b < |g| - 1 { assert offsets[b + 1] <= offsets[|g| - 1]; }
    }
  }

  lemma SignalsAreThere(g: Predecessors, setup: Setup, filled: seq<SemaphoreSubmit>, signals: seq<SemaphoreSubmit>, offsets: seq<nat>)
    requires Topological(g) && Enough(g, setup) && Room(g, setup, offsets) && |filled| == offsets[|g|]
    requires forall s | 0 <= s < |g| :: EdgeSignalsAt(g, setup, filled, offsets, s)
    requires g != [] && setup.signal.Some? ==> offsets[|g|] > offsets[|g| - 1]
    requires signals == WithLast(filled, setup.signal, g != [])
    ensures forall b: nat | b < |g| :: signals[offsets[b]..offsets[b + 1]] == SignalsOf(g, setup, b)
  {
    hide EdgeSignals, EdgeSignalsAt;
    forall b: nat | b < |g|
      ensures signals[offsets[b]..offsets[b + 1]] == SignalsOf(g, setup, b)
    {
      var all := SignalsOf(g, setup, b);
      assert EdgeSignalsAt(g, setup, filled, offsets, b);
      forall k | 0 <= k < |all|
        ensures signals[offsets[b] + k] == all[k]
      {
        SignalIsThere(g, setup, filled, signals, offsets, b, k);
      }
    }
  }

  lemma SignalIsThere(g: Predecessors, setup: Setup, filled: seq<SemaphoreSubmit>, signals: seq<SemaphoreSubmit>, offsets: seq<nat>, b: nat, k: nat)
    requires Topological(g) && Enough(g, setup) && Room(g, setup, offsets) && |filled| == offsets[|g|]
    requires b < |g| && EdgeSignalsAt(g, setup, filled, offsets, b)
    requires setup.signal.Some? ==> offsets[|g|] > offsets[|g| - 1]
    requires signals == WithLast(filled, setup.signal, g != []) && k < |SignalsOf(g, setup, b)|
    ensures offsets[b] + k < |signals| && signals[offsets[b] + k] == SignalsOf(g, setup, b)[k]
  {
    hide AllOut;
    var edges := EdgeSignals(g, setup, b);
    assert offsets[b + 1] == offsets[b] + |edges| + |Extra(setup.signal, b == |g| - 1)|;
    assert offsets[b + 1] <= offsets[|g|];
    if k < |edges| {
      assert filled[offsets[b]..offsets[b] + |edges|][k] == edges[k];
      if b < |g| - 1 { assert offsets[b + 1] <= offsets[|g| - 1]; }
    }
  }

  // ----------------------------------------------------------- the method

  predicate Matches(g: Predecessors, setup: Setup, sync: BatchSync)
    requires Topological(g) && Enough(g, setup)
  {
    && Offsets(sync.waitOffsets, |g|) && Offsets(sync.signalOffsets, |g|)
    && sync.waitOffsets[|g|] == |sync.waits| && sync.signalOffsets[|g|] == |sync.signals|
    && (forall b: nat | b < |g| :: sync.waits[sync.waitOffsets[b]..sync.waitOffsets[b + 1]] == WaitsOf(g, setup, b))
    && (forall b: nat | b < |g| :: sync.signals[sync.signalOffsets[b]..sync.signalOffsets[b + 1]] == SignalsOf(g, setup, b))
  }

  predicate WaitRoom(g: Predecessors, setup: Setup, offsets: seq<nat>) {
    Offsets(offsets, |g|) && forall b | 0 <= b < |g| :: offsets[b + 1] - offsets[b] == |g[b]| + |Extra(setup.wait, b == |g| - 1)|
  }

  /** The loop over destinations and their predecessors: binary semaphores are signalled here, one an edge. */
  method FillEdges(g: Predecessors, setup: Setup, waitOffsets: seq<nat>, signalOffsets: seq<nat>)
      returns (waits: seq<SemaphoreSubmit>, signals: seq<SemaphoreSubmit>)
    requires Topological(g) && Enough(g, setup) && WaitRoom(g, setup, waitOffsets) && Room(g, setup, signalOffsets)
    ensures WaitsFilled(g, setup, waits, waitOffsets, |g|, 0) && |waits| == waitOffsets[|g|] && |signals| == signalOffsets[|g|]
    ensures !setup.timeline ==> forall s | 0 <= s < |g| :: EdgeSignalsAt(g, setup, signals, signalOffsets, s)
  {
    hide WaitsFilled, SignalsFilled, Carrier, AllOut, OutEdges, SignalCount, EdgeSignalsAt, OnSemaphore;
    var n := |g|;
    var empty := SemaphoreSubmit(0, 0, {LegacyMasks.ALL_COMMANDS});
    waits, signals := seq(waitOffsets[n], _ => empty), seq(signalOffsets[n], _ => empty);
    var cursor := signalOffsets;
    StartFilled(g, setup, waits, waitOffsets, signals, signalOffsets);
    if !setup.timeline { RoomForEdges(g, setup, signalOffsets); }
    var edge := 0;
    for d := 0 to n
      invariant |waits| == waitOffsets[n] && |signals| == signalOffsets[n] && |cursor| == n + 1
      invariant edge == EdgesBelow(g, d) && WaitsFilled(g, setup, waits, waitOffsets, d, 0)
      invariant !setup.timeline ==> SignalsFilled(g, setup, signals, signalOffsets, cursor, d, 0)
    {
      for k := 0 to |g[d]|
        invariant |waits| == waitOffsets[n] && |signals| == signalOffsets[n] && |cursor| == n + 1
        invariant edge == EdgesBelow(g, d) + k && WaitsFilled(g, setup, waits, waitOffsets, d, k)
        invariant !setup.timeline ==> SignalsFilled(g, setup, signals, signalOffsets, cursor, d, k)
      {
        assert IsEdge(g, (d, k));
        var source := g[d][k];
        EntryIsCarrier(g, setup, d, k);
        var entry := OnSemaphore(setup.semaphores[if setup.timeline then source else edge], if setup.timeline then TIMELINE_VALUE else 0);
        NextWaitFilled(g, setup, waits, waitOffsets, d, k);
        waits := waits[waitOffsets[d] + k := entry];
        if !setup.timeline {
          NextSignalFilled(g, setup, signals, signalOffsets, cursor, d, k);
          signals := signals[cursor[source] := entry];
          cursor := cursor[source := cursor[source] + 1];
        }
        edge := edge + 1;
      }
      NextDestinationWaits(g, setup, waits, waitOffsets, d);
      if !setup.timeline { NextDestination(g, setup, signals, signalOffsets, cursor, d); }
    }
    if !setup.timeline { AllFilled(g, setup, signals, signalOffsets, cursor); }
  }

  /** prepare_batch_sync: each batch's waits and signals, side by side in two lists. */
  method PrepareBatchSync(g: Predecessors, setup: Setup) returns (sync: BatchSync)
    requires Topological(g) && Enough(g, setup)
    ensures Matches(g, setup, sync)
  {
    hide WaitsFilled, AllOut, EdgeSignalsAt, OnSemaphore, WaitsOf, SignalsOf, EdgeSignals;
    var n := |g|;
    var waitOffsets, signalOffsets := PrepareStorage(g, setup);
    var waits, signals := FillEdges(g, setup, waitOffsets, signalOffsets);
    if setup.timeline {
      for source := 0 to n
        invariant |signals| == signalOffsets[n]
        invariant forall s | 0 <= s < source :: EdgeSignalsAt(g, setup, signals, signalOffsets, s)
      {
        ghost var now := OneSignal(g, setup, signals, signalOffsets, source);
        if signalOffsets[source + 1] - signalOffsets[source] > (if setup.signal.Some? && source + 1 == n then 1 else 0) {
          assert signalOffsets[source + 1] <= signalOffsets[n];
          signals := signals[signalOffsets[source] := OnSemaphore(setup.semaphores[source], TIMELINE_VALUE)];
        }
        assert signals == now;
      }
    }
    ghost var filledWaits, filledSignals := waits, signals;
    if n != 0 {
      LastHasRoom(g, setup, waitOffsets, signalOffsets);
      if setup.wait.Some? { waits := waits[|waits| - 1 := setup.wait.value]; }
      if setup.signal.Some? { signals := signals[|signals| - 1 := setup.signal.value]; }
    }
    WaitsAreThere(g, setup, filledWaits, waits, waitOffsets);
    SignalsAreThere(g, setup, filledSignals, signals, signalOffsets);
    sync := BatchSync(waits, signals, waitOffsets, signalOffsets);
  }

  // -------------------------------------------------------------- running

  /** The graph's semaphores are its own, each made once. */
  predicate Own(setup: Setup) {
    && (forall i, j | 0 <= i < j < |setup.semaphores| :: setup.semaphores[i] != setup.semaphores[j])
    && (setup.signal.Some? ==> setup.signal.value.semaphore !in setup.semaphores)
  }

  lemma CarriersAreDistinct(g: Predecessors, setup: Setup, e: Edge, f: Edge)
    requires Topological(g) && Enough(g, setup) && Own(setup) && IsEdge(g, e) && IsEdge(g, f)
    requires Carrier(g, setup, e).semaphore == Carrier(g, setup, f).semaphore
    ensures g[e.0][e.1] == g[f.0][f.1] && (!setup.timeline ==> e == f)
  {
    EntryIsCarrier(g, setup, e.0, e.1);
    EntryIsCarrier(g, setup, f.0, f.1);
    var m, n := SemaphoreIndex(g, setup, e), SemaphoreIndex(g, setup, f);
    assert m == n;
    if e.0 < f.0 { EdgeNumbersGrow(g, e.0, f.0); }
    if f.0 < e.0 { EdgeNumbersGrow(g, f.0, e.0); }
  }

  /** Each wait on an edge is met by the batch at its other end. */
  lemma EdgeIsSignalled(g: Predecessors, setup: Setup, d: nat, k: nat)
    requires Topological(g) && Enough(g, setup) && IsEdge(g, (d, k))
    ensures WaitsOf(g, setup, d)[k] == Carrier(g, setup, (d, k)) && Carrier(g, setup, (d, k)) in SignalsOf(g, setup, g[d][k])
  {
    var s, e: Edge := g[d][k], (d, k);
    OutEdgesAreExact(g, s, |g|, 0);
    assert e in AllOut(g, s) by { assert Earlier(e, (|g|, 0)); }
    var j :| 0 <= j < |AllOut(g, s)| && AllOut(g, s)[j] == e;
    if setup.timeline {
      assert EdgeSignals(g, setup, s)[0] == Carrier(g, setup, e);
    } else {
      assert EdgeSignals(g, setup, s)[j] == Carrier(g, setup, e);
    }
  }

  /** And by no other batch; on binary semaphores no other edge even shares its semaphore. */
  lemma OnlyTheSourceSignals(g: Predecessors, setup: Setup, d: nat, k: nat, s: nat, j: nat)
    requires Topological(g) && Enough(g, setup) && Own(setup) && IsEdge(g, (d, k)) && s < |g| && j < |SignalsOf(g, setup, s)|
    requires SignalsOf(g, setup, s)[j].semaphore == WaitsOf(g, setup, d)[k].semaphore
    ensures s == g[d][k] && (!setup.timeline ==> j < |AllOut(g, s)| && AllOut(g, s)[j] == (d, k))
  {
    var e: Edge := (d, k);
    assert WaitsOf(g, setup, d)[k] == Carrier(g, setup, e);
    if j < |EdgeSignals(g, setup, s)| {
      assert SignalsOf(g, setup, s)[j] == EdgeSignals(g, setup, s)[j];
      OutEdgesAreExact(g, s, |g|, 0);
      if setup.timeline {
        assert setup.semaphores[s] == setup.semaphores[g[d][k]];
      } else {
        var f := AllOut(g, s)[j];
        assert f in AllOut(g, s);
        CarriersAreDistinct(g, setup, e, f);
      }
    } else {
      EntryIsCarrier(g, setup, d, k);
    }
  }

  /** When each batch starts and finishes on the device. */
  datatype Times = Times(start: seq<real>, finish: seq<real>)

  /** What a device promises: a batch starts when its waits are met, each by a batch that signals its semaphore on finishing. */
  ghost predicate Runs(g: Predecessors, setup: Setup, t: Times)
    requires Topological(g) && Enough(g, setup)
  {
    && |t.start| == |t.finish| == |g| && (forall b | 0 <= b < |g| :: t.start[b] <= t.finish[b])
    && forall d: nat, k: nat | IsEdge(g, (d, k)) :: WaitMet(g, setup, t, d, k)
  }

  ghost predicate WaitMet(g: Predecessors, setup: Setup, t: Times, d: nat, k: nat)
    requires Topological(g) && Enough(g, setup) && |t.start| == |t.finish| == |g| && IsEdge(g, (d, k))
  {
    exists s: nat, j: nat :: s < |g| && j < |SignalsOf(g, setup, s)| && t.finish[s] <= t.start[d]
                             && SignalsOf(g, setup, s)[j].semaphore == WaitsOf(g, setup, d)[k].semaphore
  }

  /** What the graph orders, the device runs one after the other. */
  lemma {:induction false} OrderedBatchesDoNotOverlap(g: Predecessors, setup: Setup, t: Times, i: nat, j: nat)
    requires Topological(g) && Enough(g, setup) && Own(setup) && Runs(g, setup, t) && j < |g| && Before(g, i, j)
    ensures i < j && t.finish[i] <= t.start[j]
    decreases j
  {
    hide SignalsOf;
    BeforeIsEarlier(g, i, j);
    var k :| 0 <= k < |g[j]| && (g[j][k] == i || Before(g, i, g[j][k]));
    assert IsEdge(g, (j, k));
    assert WaitMet(g, setup, t, j, k);
    var s: nat, n: nat :| s < |g| && n < |SignalsOf(g, setup, s)| && t.finish[s] <= t.start[j]
                          && SignalsOf(g, setup, s)[n].semaphore == WaitsOf(g, setup, j)[k].semaphore;
    OnlyTheSourceSignals(g, setup, j, k, s, n);
    if g[j][k] != i {
      OrderedBatchesDoNotOverlap(g, setup, t, i, g[j][k]);
    }
  }
}
