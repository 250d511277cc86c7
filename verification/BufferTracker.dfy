/**
 The resource tracker of include/vkexec/detail/resource_state_tracker.hpp, for
 buffers: what it keeps, what its dependencies guarantee, and how a failed
 batch of declarations is undone.
 */
module TrackedBuffers {
  import opened Optional
  import opened ResourceRanges
  import opened BufferRegions
  import opened BufferHazards
  import opened Dependencies

  datatype TrackedBuffer = TrackedBuffer(handle: nat, regions: seq<Region>, size: Option<nat>, exclusive: bool)

  predicate Distinct(buffers: seq<TrackedBuffer>) {
    forall i, j | 0 <= i < j < |buffers| :: buffers[i].handle != buffers[j].handle
  }

  predicate BelowStep(deps: seq<Edge>, steps: nat) {
    forall k | 0 <= k < |deps| :: deps[k].1 < steps
  }

  /** Uses of shared bytes that may not run side by side are ordered by the dependencies. */
  ghost predicate HazardsOrdered(history: seq<Use>, deps: seq<Edge>)
    requires Forward(deps)
  {
    forall i, j | 0 <= i < j < |history| :: PairOrdered(history[i], history[j], deps)
  }

  ghost predicate PairOrdered(u: Use, w: Use, deps: seq<Edge>)
    requires Forward(deps)
  {
    forall b: nat | Touches(u, w.buffer, b) && Has(w.range, b) && Conflict(u.access, w.access, w.exclusive) ::
      Leads(deps, u.access.step, w.access.step)
  }

  /** A use is of a tracked buffer, under its sharing mode, in a step that has come. */
  predicate UseKnown(u: Use, buffers: seq<TrackedBuffer>, last: nat) {
    u.access.step <= last && exists k :: 0 <= k < |buffers| && buffers[k].handle == u.buffer && buffers[k].exclusive == u.exclusive
  }

  ghost predicate BufferOk(history: seq<Use>, buffer: TrackedBuffer, deps: seq<Edge>, last: nat)
    requires Forward(deps)
  {
    Ordered(buffer.regions) && Unmergeable(buffer.regions)
    && forall b: nat :: ByteOk(history, buffer.handle, b, At(buffer.regions, b), buffer.exclusive, deps, last)
  }

  /** What the tracker keeps between any two declarations. */
  ghost predicate Sound(buffers: seq<TrackedBuffer>, deps: seq<Edge>, history: seq<Use>, last: nat, steps: nat) {
    && Forward(deps) && BelowStep(deps, steps) && Distinct(buffers)
    && (forall k | 0 <= k < |buffers| :: BufferOk(history, buffers[k], deps, last))
    && (forall i | 0 <= i < |history| :: UseKnown(history[i], buffers, last))
    && HazardsOrdered(history, deps)
  }

  /** The state of a byte with the range opened up. */
  function OpenState(regions: seq<Region>, b: nat): State {
    Opened(At(regions, b), true).value
  }

  /** The regions after a use: each byte of the range advanced, every other byte as it was, and every advance's dependencies recorded. */
  ghost predicate Used(before: seq<Region>, after: seq<Region>, u: Use, deps: seq<Edge>) {
    && Ordered(after) && Unmergeable(after)
    && (forall b: nat :: At(after, b) == if Has(u.range, b) then Some(Advance(OpenState(before, b), u.access, u.exclusive)) else At(before, b))
    && (forall b: nat | Has(u.range, b) :: ByteUsed(before, b, u, deps))
  }

  ghost predicate ByteUsed(before: seq<Region>, b: nat, u: Use, deps: seq<Edge>) {
    !Rejected(OpenState(before, b), u.access) && Added(EdgesOf(OpenState(before, b), u.access, u.exclusive), deps)
  }

  // ------------------------------------------------------ one declaration

  lemma UsedBufferIsOk(history: seq<Use>, buffer: TrackedBuffer, after: seq<Region>, u: Use, deps: seq<Edge>, more: seq<Edge>, last: nat)
    requires Forward(deps) && Forward(more) && deps <= more && last <= u.access.step
    requires BufferOk(history, buffer, deps, last) && u.buffer == buffer.handle && u.exclusive == buffer.exclusive
    requires Used(buffer.regions, after, u, more)
    ensures BufferOk(history + [u], buffer.(regions := after), more, u.access.step)
    ensures forall i | 0 <= i < |history| :: PairOrdered(history[i], u, more)
  {
    hide Advance, Rejected, EdgesOf, Added, ByteOk;
    forall b: nat
      ensures ByteOk(history + [u], buffer.handle, b, At(after, b), buffer.exclusive, more, u.access.step)
      ensures forall i | 0 <= i < |history| && Has(u.range, b) && Touches(history[i], u.buffer, b) && Conflict(history[i].access, u.access, u.exclusive) ::
                Leads(more, history[i].access.step, u.access.step)
    {
      assert ByteOk(history, buffer.handle, b, At(buffer.regions, b), buffer.exclusive, deps, last);
      if Has(u.range, b) {
        assert ByteUsed(buffer.regions, b, u, more);
        UseKeepsByte(history, u, b, At(buffer.regions, b), deps, more, last);
      } else {
        OtherUseKeepsByte(history, u, buffer.handle, b, At(buffer.regions, b), buffer.exclusive, deps, more, last, u.access.step);
      }
    }
  }

  lemma OtherBufferIsOk(history: seq<Use>, buffer: TrackedBuffer, u: Use, deps: seq<Edge>, more: seq<Edge>, last: nat)
    requires Forward(deps) && Forward(more) && deps <= more && last <= u.access.step
    requires BufferOk(history, buffer, deps, last) && u.buffer != buffer.handle
    ensures BufferOk(history + [u], buffer, more, u.access.step)
  {
    hide ByteOk;
    forall b: nat
      ensures ByteOk(history + [u], buffer.handle, b, At(buffer.regions, b), buffer.exclusive, more, u.access.step)
    {
      assert ByteOk(history, buffer.handle, b, At(buffer.regions, b), buffer.exclusive, deps, last);
      OtherUseKeepsByte(history, u, buffer.handle, b, At(buffer.regions, b), buffer.exclusive, deps, more, last, u.access.step);
    }
  }

  lemma MoreKeepsPair(u: Use, w: Use, deps: seq<Edge>, more: seq<Edge>)
    requires Forward(deps) && Forward(more) && deps <= more && PairOrdered(u, w, deps)
    ensures PairOrdered(u, w, more)
  {
    forall b: nat | Touches(u, w.buffer, b) && Has(w.range, b) && Conflict(u.access, w.access, w.exclusive)
      ensures Leads(more, u.access.step, w.access.step)
    {
      LeadsMore(deps, more, u.access.step, w.access.step);
    }
  }

  lemma HazardsStayOrdered(history: seq<Use>, u: Use, deps: seq<Edge>, more: seq<Edge>)
    requires Forward(deps) && Forward(more) && deps <= more && HazardsOrdered(history, deps)
    requires forall i | 0 <= i < |history| :: PairOrdered(history[i], u, more)
    ensures HazardsOrdered(history + [u], more)
  {
    hide PairOrdered;
    var after := history + [u];
    forall i, j | 0 <= i < j < |after|
      ensures PairOrdered(after[i], after[j], more)
    {
      if j < |history| {
        assert PairOrdered(history[i], history[j], deps);
        MoreKeepsPair(history[i], history[j], deps, more);
      }
    }
  }

  /** One more declaration: what is kept still accounts for every use, and every hazard is ordered. */
  lemma UseKeepsSound(buffers: seq<TrackedBuffer>, k: nat, after: seq<Region>, u: Use, deps: seq<Edge>, more: seq<Edge>,
                      history: seq<Use>, last: nat, steps: nat)
    requires Sound(buffers, deps, history, last, steps) && k < |buffers|
    requires Forward(more) && BelowStep(more, steps) && deps <= more && last <= u.access.step
    requires u.buffer == buffers[k].handle && u.exclusive == buffers[k].exclusive && Used(buffers[k].regions, after, u, more)
    ensures Sound(buffers[k := buffers[k].(regions := after)], more, history + [u], u.access.step, steps)
  {
    hide BufferOk, PairOrdered, HazardsOrdered, Used;
    var now := buffers[k := buffers[k].(regions := after)];
    UsedBufferIsOk(history, buffers[k], after, u, deps, more, last);
    HazardsStayOrdered(history, u, deps, more);
    forall n | 0 <= n < |now|
      ensures BufferOk(history + [u], now[n], more, u.access.step)
    {
      if n != k {
        assert buffers[n].handle != buffers[k].handle by { if n < k { assert buffers[n].handle != buffers[k].handle; } }
        OtherBufferIsOk(history, buffers[n], u, deps, more, last);
      }
    }
    forall i | 0 <= i < |history + [u]|
      ensures UseKnown((history + [u])[i], now, u.access.step)
    {
      if i < |history| {
        assert UseKnown(history[i], buffers, last);
        var n :| 0 <= n < |buffers| && buffers[n].handle == history[i].buffer && buffers[n].exclusive == history[i].exclusive;
        assert now[n].handle == history[i].buffer && now[n].exclusive == history[i].exclusive;
      } else {
        assert now[k].handle == u.buffer;
      }
    }
  }

  /** A buffer that has never been used is tracked by no regions. */
  lemma NewBufferKeepsSound(buffers: seq<TrackedBuffer>, buffer: TrackedBuffer, deps: seq<Edge>, history: seq<Use>, last: nat, steps: nat)
    requires Sound(buffers, deps, history, last, steps) && buffer.regions == []
    requires forall k | 0 <= k < |buffers| :: buffers[k].handle != buffer.handle
    ensures Sound(buffers + [buffer], deps, history, last, steps)
  {
    hide BufferOk, PairOrdered, HazardsOrdered;
    var now := buffers + [buffer];
    forall i | 0 <= i < |history|
      ensures UseKnown(history[i], now, last)
      ensures history[i].buffer != buffer.handle
    {
      assert UseKnown(history[i], buffers, last);
      var n :| 0 <= n < |buffers| && buffers[n].handle == history[i].buffer && buffers[n].exclusive == history[i].exclusive;
      assert now[n] == buffers[n];
    }
    UnusedBufferIsOk(history, buffer, deps, last);
    forall n | 0 <= n < |now|
      ensures BufferOk(history, now[n], deps, last)
    {
      assert n < |buffers| ==> now[n] == buffers[n];
    }
  }

  lemma UnusedBufferIsOk(history: seq<Use>, buffer: TrackedBuffer, deps: seq<Edge>, last: nat)
    requires Forward(deps) && buffer.regions == [] && forall i | 0 <= i < |history| :: history[i].buffer != buffer.handle
    ensures BufferOk(history, buffer, deps, last)
  {
    forall b: nat
      ensures ByteOk(history, buffer.handle, b, At(buffer.regions, b), buffer.exclusive, deps, last)
    {
      NoAccesses(history, buffer.handle, b);
    }
  }
}

module ResourceStateTracker {
  import opened Optional
  import opened Fallible
  import opened ResourceRanges
  import opened BufferRegions
  import opened BufferHazards
  import opened Dependencies
  import opened TrackedBuffers
  import opened BufferAcceptance

  const NULL: nat := 0
  const NOTHING := Scope({}, {})

  /** buffer_use: usageValid says whether usage and access go together, and scope is the usage's own. */
  datatype Declaration = Declaration(buffer: nat, kind: Kind, scope: Scope, usageValid: bool, offset: nat, size: nat)

  datatype Sharing = Exclusive | Concurrent | Unknown

  /** buffer_extent. */
  datatype Extent = Extent(buffer: nat, size: nat, sharing: Sharing)

  datatype Barrier = Barrier(buffer: nat, range: Interval, src: Scope, dst: Scope, srcFamily: nat, dstFamily: nat)

  // ------------------------------------------------------------ barriers

  function Union(a: Scope, b: Scope): Scope {
    Scope(a.stages + b.stages, a.accesses + b.accesses)
  }

  predicate Covers(a: Scope, b: Scope) {
    b.stages <= a.stages && b.accesses <= a.accesses
  }

  /** Accesses on another queue are made visible by semaphores, not by this barrier. */
  predicate SameQueue(a: Access, queue: nat) {
    a.queue == NULL || queue == NULL || a.queue == queue
  }

  function ScopesOf(readers: seq<Access>, queue: nat): Scope {
    if readers == [] then NOTHING
    else
      var last := readers[|readers| - 1];
      Union(ScopesOf(readers[..|readers| - 1], queue), if SameQueue(last, queue) then last.scope else NOTHING)
  }

  /** source_scope: the scopes of the readers, or of the anchor when there are none. */
  function SourceScope(f: Frontier, queue: nat): Scope {
    if f.readers != [] then ScopesOf(f.readers, queue)
    else if f.anchor.Some? && SameQueue(f.anchor.value, queue) then f.anchor.value.scope
    else NOTHING
  }

  lemma {:induction false} ScopesCoverReaders(readers: seq<Access>, queue: nat, i: nat)
    requires i < |readers| && SameQueue(readers[i], queue)
    ensures Covers(ScopesOf(readers, queue), readers[i].scope)
  {
    if i < |readers| - 1 {
      ScopesCoverReaders(readers[..|readers| - 1], queue, i);
    }
  }

  method SourceScopeOf(f: Frontier, queue: nat) returns (scope: Scope)
    ensures scope == SourceScope(f, queue)
  {
    scope := NOTHING;
    if f.readers == [] {
      if f.anchor.Some? && SameQueue(f.anchor.value, queue) { scope := f.anchor.value.scope; }
      return;
    }
    for i := 0 to |f.readers|
      invariant scope == ScopesOf(f.readers[..i], queue)
    {
      assert f.readers[..i + 1][..i] == f.readers[..i];
      scope := Union(scope, if SameQueue(f.readers[i], queue) then f.readers[i].scope else NOTHING);
    }
    assert f.readers[..|f.readers|] == f.readers;
  }

  /** The last access of a frontier, which hands an ownership transfer over. */
  function Handoff(f: Frontier): Option<Access> {
    if f.readers != [] then Some(f.readers[|f.readers| - 1]) else f.anchor
  }

  /** The barrier recorded before the step, if the use needs one. */
  function BarrierBefore(s: State, v: Access, exclusive: bool, buffer: nat, range: Interval): Option<Barrier> {
    var f := s.accesses;
    if IsUnused(s) then None
    else if JoinsReaders(s, v, exclusive) then
      if f.anchor.Some? && f.anchor.value.kind != Read then
        Some(Barrier(buffer, range, SourceScope(Frontier(f.anchor, []), v.queue), v.scope, IGNORED_FAMILY, IGNORED_FAMILY))
      else None
    else if Transfers(s, v, exclusive) then Some(Barrier(buffer, range, NOTHING, v.scope, s.family, v.family))
    else Some(Barrier(buffer, range, SourceScope(f, v.queue), v.scope, IGNORED_FAMILY, IGNORED_FAMILY))
  }

  /** The release recorded after the step that hands the range to another family. */
  function BarrierAfter(s: State, v: Access, exclusive: bool, buffer: nat, range: Interval): Option<Barrier> {
    if !IsUnused(s) && !JoinsReaders(s, v, exclusive) && Transfers(s, v, exclusive) then
      Some(Barrier(buffer, range, SourceScope(s.accesses, Handoff(s.accesses).value.queue), NOTHING, s.family, v.family))
    else None
  }

  /** The barriers recorded before a step that uses the overlapped ones of these regions. */
  function Barriers(parts: seq<Region>, u: Use): (barriers: seq<Barrier>) {
    if parts == [] then []
    else
      var part := parts[|parts| - 1];
      var barrier := BarrierBefore(part.state, u.access, u.exclusive, u.buffer, part.range);
      Barriers(parts[..|parts| - 1], u) + if Overlaps(part.range, u.range) && barrier.Some? then [barrier.value] else []
  }

  /** The barriers after each step once the overlapped regions are released as the use needs. */
  function Released(after: seq<seq<Barrier>>, parts: seq<Region>, u: Use): (r: seq<seq<Barrier>>)
    ensures |r| == |after|
  {
    if parts == [] then after
    else
      var part := parts[|parts| - 1];
      var so := Released(after, parts[..|parts| - 1], u);
      var barrier := BarrierAfter(part.state, u.access, u.exclusive, u.buffer, part.range);
      if !Overlaps(part.range, u.range) || barrier.None? then so
      else
        var step := Handoff(part.state.accesses).value.step;
        if step < |so| then so[step := so[step] + [barrier.value]] else so
  }

  function Appended(lists: seq<seq<Barrier>>, n: nat, more: seq<Barrier>): (r: seq<seq<Barrier>>)
    requires n < |lists|
    ensures |r| == |lists|
  {
    lists[n := lists[n] + more]
  }

  lemma AppendedNothing(lists: seq<seq<Barrier>>, n: nat)
    requires n < |lists|
    ensures Appended(lists, n, []) == lists
  {
    assert lists[n] + [] == lists[n];
  }

  lemma AppendNext(lists: seq<seq<Barrier>>, n: nat, more: seq<Barrier>, barrier: Option<Barrier>)
    requires n < |lists|
    ensures barrier.Some? ==>
              Appended(lists, n, more)[n := Appended(lists, n, more)[n] + [barrier.value]] == Appended(lists, n, more + [barrier.value])
    ensures more + [] == more
  {
    if barrier.Some? {
      assert (lists[n] + more) + [barrier.value] == lists[n] + (more + [barrier.value]);
    }
  }

  /** Every byte used that needs a barrier is under one with the scopes that byte needs. */
  lemma {:induction false} EveryByteHasItsBarrier(parts: seq<Region>, u: Use, i: nat, b: nat) returns (k: nat)
    requires i < |parts| && Has(parts[i].range, b) && Overlaps(parts[i].range, u.range)
    requires BarrierBefore(parts[i].state, u.access, u.exclusive, u.buffer, parts[i].range).Some?
    ensures k < |Barriers(parts, u)| && Has(Barriers(parts, u)[k].range, b)
    ensures Some(Barriers(parts, u)[k]) == BarrierBefore(parts[i].state, u.access, u.exclusive, u.buffer, parts[i].range)
  {
    if i == |parts| - 1 {
      k := |Barriers(parts[..i], u)|;
    } else {
      k := EveryByteHasItsBarrier(parts[..|parts| - 1], u, i, b);
    }
  }

  lemma {:induction false} ReleasedKeeps(after: seq<seq<Barrier>>, parts: seq<Region>, u: Use)
    ensures forall n | 0 <= n < |after| :: after[n] <= Released(after, parts, u)[n]
  {
    if parts != [] { ReleasedKeeps(after, parts[..|parts| - 1], u); }
  }

  /** Every byte used that changes hands is released under a barrier with the scopes that byte needs. */
  lemma {:induction false} EveryByteHasItsRelease(after: seq<seq<Barrier>>, parts: seq<Region>, u: Use, i: nat) returns (k: nat)
    requires i < |parts| && Overlaps(parts[i].range, u.range)
    requires BarrierAfter(parts[i].state, u.access, u.exclusive, u.buffer, parts[i].range).Some?
    requires Handoff(parts[i].state.accesses).value.step < |after|
    ensures var step := Handoff(parts[i].state.accesses).value.step;
            && k < |Released(after, parts, u)[step]|
            && Some(Released(after, parts, u)[step][k]) == BarrierAfter(parts[i].state, u.access, u.exclusive, u.buffer, parts[i].range)
  {
    var step := Handoff(parts[i].state.accesses).value.step;
    if i == |parts| - 1 {
      k := |Released(after, parts[..i], u)[step]|;
    } else {
      k := EveryByteHasItsRelease(after, parts[..|parts| - 1], u, i);
    }
  }

  /** The accesses a use has to wait for, on its own queue, are all in its barrier's source scope, and the use itself in the destination. */
  lemma BarrierSynchronizes(s: State, v: Access, exclusive: bool, buffer: nat, range: Interval)
    requires !IsUnused(s) && !Transfers(s, v, exclusive)
    ensures var barrier := BarrierBefore(s, v, exclusive, buffer, range);
            && (barrier.Some? ==> barrier.value.dst == v.scope && barrier.value.range == range)
            && (v.kind != Read ==> barrier.Some?)
            && (v.kind != Read ==> forall i | 0 <= i < |s.accesses.readers| && SameQueue(s.accesses.readers[i], v.queue) ::
                  Covers(barrier.value.src, s.accesses.readers[i].scope))
            && (s.accesses.anchor.Some? && s.accesses.anchor.value.kind != Read && SameQueue(s.accesses.anchor.value, v.queue)
                && (v.kind == Read || s.accesses.readers == []) ==>
                  barrier.Some? && Covers(barrier.value.src, s.accesses.anchor.value.scope))
  {
    if v.kind != Read {
      forall i | 0 <= i < |s.accesses.readers| && SameQueue(s.accesses.readers[i], v.queue)
        ensures Covers(SourceScope(s.accesses, v.queue), s.accesses.readers[i].scope)
      {
        ScopesCoverReaders(s.accesses.readers, v.queue, i);
      }
    }
  }

  /** A transfer's two halves name the same bytes and the same families, and the release covers the last use. */
  lemma TransferHalvesMatch(s: State, v: Access, exclusive: bool, buffer: nat, range: Interval)
    requires !IsUnused(s) && Transfers(s, v, exclusive)
    ensures var acquire, release := BarrierBefore(s, v, exclusive, buffer, range), BarrierAfter(s, v, exclusive, buffer, range);
            && acquire.Some? && release.Some? && Handoff(s.accesses).Some?
            && release.value.buffer == acquire.value.buffer && release.value.range == acquire.value.range
            && release.value.srcFamily == acquire.value.srcFamily == s.family && release.value.dstFamily == acquire.value.dstFamily == v.family
            && acquire.value.dst == v.scope && Covers(release.value.src, Handoff(s.accesses).value.scope)
  {
    var f := s.accesses;
    if f.readers != [] {
      ScopesCoverReaders(f.readers, f.readers[|f.readers| - 1].queue, |f.readers| - 1);
    }
  }

  // ------------------------------------------------------- what is recorded

  /** The barrier is that guard, perhaps over more bytes or fewer. */
  predicate IsGuard(barrier: Barrier, guard: Barrier, b: nat) {
    Has(barrier.range, b) && barrier.(range := guard.range) == guard
  }

  /**
   The barrier that the uses of the byte before it call for is recorded before
   the step of the n-th use, and the release, if the byte changes hands, after the
   last step that had it.
   */
  ghost predicate HasGuard(history: seq<Use>, before: seq<seq<Barrier>>, after: seq<seq<Barrier>>, n: nat, b: nat)
    requires n < |history|
  {
    var u := history[n];
    HasBarriers(Replay(Accesses(history[..n], u.buffer, b), u.exclusive), u, before, after, b)
  }

  ghost predicate HasBarriers(s: State, u: Use, before: seq<seq<Barrier>>, after: seq<seq<Barrier>>, b: nat) {
    var guard, release := BarrierBefore(s, u.access, u.exclusive, u.buffer, u.range), BarrierAfter(s, u.access, u.exclusive, u.buffer, u.range);
    && (guard.Some? ==> GuardedStep(before, u.access.step, guard.value, b))
    && (release.Some? ==> GuardedStep(after, Handoff(s.accesses).value.step, release.value, b))
  }

  ghost predicate GuardedStep(lists: seq<seq<Barrier>>, step: nat, guard: Barrier, b: nat) {
    step < |lists| && exists k :: 0 <= k < |lists[step]| && IsGuard(lists[step][k], guard, b)
  }

  ghost predicate Recorded(history: seq<Use>, before: seq<seq<Barrier>>, after: seq<seq<Barrier>>) {
    forall n, b: nat | 0 <= n < |history| && Has(history[n].range, b) :: HasGuard(history, before, after, n, b)
  }

  lemma UseIsRecorded(history: seq<Use>, before: seq<seq<Barrier>>, after: seq<seq<Barrier>>, u: Use, buffer: TrackedBuffer, parts: seq<Region>,
                      deps: seq<Edge>, last: nat)
    requires Forward(deps) && BufferOk(history, buffer, deps, last) && u.buffer == buffer.handle && u.exclusive == buffer.exclusive
    requires Cut(buffer.regions, parts, u.range) && SameBytes(buffer.regions, parts, u.range) && Proper(u.range)
    requires Recorded(history, before, after) && last <= u.access.step < |before| == |after|
    ensures Recorded(history + [u], Appended(before, u.access.step, Barriers(parts, u)), Released(after, parts, u))
  {
    var now, then_, all := Appended(before, u.access.step, Barriers(parts, u)), Released(after, parts, u), history + [u];
    assert forall n | 0 <= n < |before| :: before[n] <= now[n];
    ReleasedKeeps(after, parts, u);
    hide Cut, SameBytes, BufferOk, Barriers, BarrierBefore, BarrierAfter, Replay, Accesses, Appended, Released, GuardedStep;
    forall n, b: nat | 0 <= n < |all| && Has(all[n].range, b)
      ensures HasGuard(all, now, then_, n, b)
    {
      if n < |history| {
        assert all[..n] == history[..n];
        assert HasGuard(history, before, after, n, b);
        StillGuarded(before, now, b);
        StillGuarded(after, then_, b);
      } else {
        assert all[..n] == history;
        NewUseIsGuarded(history, before, after, u, buffer, parts, deps, last, b);
      }
    }
  }

  lemma StillGuarded(was: seq<seq<Barrier>>, now: seq<seq<Barrier>>, b: nat)
    requires |was| == |now| && forall n | 0 <= n < |was| :: was[n] <= now[n]
    ensures forall step: nat, guard :: GuardedStep(was, step, guard, b) ==> GuardedStep(now, step, guard, b)
  {
    forall step: nat, guard | GuardedStep(was, step, guard, b)
      ensures GuardedStep(now, step, guard, b)
    {
      var k :| 0 <= k < |was[step]| && IsGuard(was[step][k], guard, b);
      assert now[step][k] == was[step][k];
    }
  }

  lemma NewUseIsGuarded(history: seq<Use>, before: seq<seq<Barrier>>, after: seq<seq<Barrier>>, u: Use, buffer: TrackedBuffer, parts: seq<Region>,
                        deps: seq<Edge>, last: nat, b: nat)
    requires Forward(deps) && BufferOk(history, buffer, deps, last) && u.buffer == buffer.handle && u.exclusive == buffer.exclusive
    requires Cut(buffer.regions, parts, u.range) && SameBytes(buffer.regions, parts, u.range) && Proper(u.range)
    requires Has(u.range, b) && last <= u.access.step < |before| == |after|
    ensures HasBarriers(Replay(Accesses(history, u.buffer, b), u.exclusive), u, Appended(before, u.access.step, Barriers(parts, u)),
                        Released(after, parts, u), b)
  {
    var s := Replay(Accesses(history, u.buffer, b), u.exclusive);
    assert ByteOk(history, buffer.handle, b, At(buffer.regions, b), buffer.exclusive, deps, last);
    assert At(parts, b) == Some(s) by { assert At(parts, b) == Opened(At(buffer.regions, b), Has(u.range, b)); }
    assert IsUnused(s) || FrontierOk(s, u.exclusive, deps, last);
    var i := AtFound(parts, b);
    assert Proper(parts[i].range);
    OverlapIsSharedByte(parts[i].range, u.range);
    hide Replay, Accesses, At, ByteOk;
    NewGuard(before, parts, u, i, b);
    if BarrierAfter(s, u.access, u.exclusive, u.buffer, u.range).Some? {
      HandoffIsEarlier(s, u.exclusive, deps, last);
      NewRelease(after, parts, u, i, b);
    }
  }

  lemma NewGuard(before: seq<seq<Barrier>>, parts: seq<Region>, u: Use, i: nat, b: nat)
    requires i < |parts| && Overlaps(parts[i].range, u.range) && Has(parts[i].range, b) && u.access.step < |before|
    ensures var guard := BarrierBefore(parts[i].state, u.access, u.exclusive, u.buffer, u.range);
            guard.Some? ==> GuardedStep(Appended(before, u.access.step, Barriers(parts, u)), u.access.step, guard.value, b)
  {
    var guard := BarrierBefore(parts[i].state, u.access, u.exclusive, u.buffer, u.range);
    if guard.Some? {
      var k := EveryByteHasItsBarrier(parts, u, i, b);
      var barriers := Barriers(parts, u);
      var now := Appended(before, u.access.step, barriers)[u.access.step];
      assert now[|before[u.access.step]| + k] == barriers[k];
      assert IsGuard(now[|before[u.access.step]| + k], guard.value, b);
    }
  }

  lemma NewRelease(after: seq<seq<Barrier>>, parts: seq<Region>, u: Use, i: nat, b: nat)
    requires i < |parts| && Overlaps(parts[i].range, u.range) && Has(parts[i].range, b)
    requires BarrierAfter(parts[i].state, u.access, u.exclusive, u.buffer, u.range).Some?
    requires Handoff(parts[i].state.accesses).value.step < |after|
    ensures var release := BarrierAfter(parts[i].state, u.access, u.exclusive, u.buffer, u.range);
            GuardedStep(Released(after, parts, u), Handoff(parts[i].state.accesses).value.step, release.value, b)
  {
    var release := BarrierAfter(parts[i].state, u.access, u.exclusive, u.buffer, u.range);
    var k := EveryByteHasItsRelease(after, parts, u, i);
    assert IsGuard(Released(after, parts, u)[Handoff(parts[i].state.accesses).value.step][k], release.value, b);
  }

  lemma HandoffIsEarlier(s: State, exclusive: bool, deps: seq<Edge>, last: nat)
    requires Forward(deps) && FrontierOk(s, exclusive, deps, last) && !IsUnused(s)
    ensures Handoff(s.accesses).Some? && Handoff(s.accesses).value.step <= last
  {
    var readers := s.accesses.readers;
    if readers != [] { assert ReaderOk(readers[|readers| - 1], s, exclusive, deps, last); }
  }

  // -------------------------------------------------------------- undoing

  /** Everything a batch of declarations may change. */
  datatype Snapshot = Snapshot(buffers: seq<TrackedBuffer>, dependencies: seq<Edge>, before: seq<seq<Barrier>>, after: seq<seq<Barrier>>)

  /** What a batch journals: counts at its start, the buffers it touched as they were, and how many barriers each step it touched had. */
  datatype Journal = Journal(bufferCount: nat, dependencyCount: nat, buffers: map<nat, TrackedBuffer>, steps: map<nat, (nat, nat)>)

  predicate SameBuffers(i: Journal, j: Journal) {
    i.buffers == j.buffers && i.bufferCount == j.bufferCount
  }

  ghost predicate BufferRestorable(j: Journal, start: Snapshot, now: Snapshot, i: nat)
    requires i < |start.buffers| <= |now.buffers|
  {
    if i in j.buffers then j.buffers[i] == start.buffers[i] else now.buffers[i] == start.buffers[i]
  }

  ghost predicate StepRestorable(j: Journal, start: Snapshot, now: Snapshot, n: nat)
    requires n < |start.before| && |start.before| == |start.after| == |now.before| == |now.after|
  {
    if n in j.steps then
      j.steps[n] == (|start.before[n]|, |start.after[n]|) && start.before[n] <= now.before[n] && start.after[n] <= now.after[n]
    else now.before[n] == start.before[n] && now.after[n] == start.after[n]
  }

  /** The journal and the present hold enough to get the start back. */
  ghost predicate Restorable(j: Journal, start: Snapshot, now: Snapshot) {
    && j.bufferCount == |start.buffers| <= |now.buffers|
    && j.dependencyCount == |start.dependencies| && start.dependencies <= now.dependencies
    && |start.before| == |start.after| == |now.before| == |now.after|
    && (forall i | i in j.buffers :: i < |start.buffers|) && (forall n | n in j.steps :: n < |start.before|)
    && (forall i | 0 <= i < |start.buffers| :: BufferRestorable(j, start, now, i))
    && (forall n | 0 <= n < |start.before| :: StepRestorable(j, start, now, n))
  }

  // ------------------------------------------------- when it is accepted

  /** What is known of the buffers apart from their uses. */
  function Bare(buffers: seq<TrackedBuffer>): (bare: seq<TrackedBuffer>)
    ensures |bare| == |buffers| && forall i | 0 <= i < |bare| :: bare[i] == buffers[i].(regions := [])
  {
    seq(|buffers|, i requires 0 <= i < |buffers| => buffers[i].(regions := []))
  }

  /** An extent is in order, and agrees with what is known of its buffer. */
  predicate ExtentAccepted(buffers: seq<TrackedBuffer>, e: Extent) {
    && e.buffer != NULL && e.size != 0 && e.sharing != Unknown
    && forall k | 0 <= k < |buffers| && buffers[k].handle == e.buffer ::
         buffers[k].size == Some(e.size) && buffers[k].exclusive == (e.sharing == Exclusive)
  }

  function AfterExtent(bare: seq<TrackedBuffer>, e: Extent): seq<TrackedBuffer> {
    if IsTracked(bare, e.buffer) then bare else bare + [TrackedBuffer(e.buffer, [], Some(e.size), e.sharing == Exclusive)]
  }

  predicate ExtentsAccepted(bare: seq<TrackedBuffer>, extents: seq<Extent>)
    decreases |extents|
  {
    extents == [] || (ExtentAccepted(bare, extents[0]) && ExtentsAccepted(AfterExtent(bare, extents[0]), extents[1..]))
  }

  function AfterExtents(bare: seq<TrackedBuffer>, extents: seq<Extent>): seq<TrackedBuffer>
    decreases |extents|
  {
    if extents == [] then bare else AfterExtents(AfterExtent(bare, extents[0]), extents[1..])
  }

  /** A buffer that was not known is taken to be exclusive, and of any size. */
  function AfterUse(bare: seq<TrackedBuffer>, buffer: nat): seq<TrackedBuffer> {
    if IsTracked(bare, buffer) then bare else bare + [TrackedBuffer(buffer, [], None, true)]
  }

  /** A declaration is in order, and stands with the uses so far: nothing refuses it, and its bounds can be decided. */
  ghost predicate AcceptedUse(history: seq<Use>, bare: seq<TrackedBuffer>, steps: nat, d: Declaration, v: Access)
    requires d.offset <= MAX_SIZE && d.size <= MAX_SIZE
  {
    var tracked := BufferFor(bare, d.buffer);
    var range := RangeOf(d, tracked.size);
    && d.buffer != NULL && v.step < steps && d.usageValid && range.Ok?
    && !Refused(history, d.buffer, tracked.exclusive, range.value, v) && !Unbounded(history, d.buffer, tracked.exclusive, range.value)
  }

  predicate AllWide(declarations: seq<Declaration>) {
    forall i | 0 <= i < |declarations| :: declarations[i].offset <= MAX_SIZE && declarations[i].size <= MAX_SIZE
  }

  /** Each declaration is accepted after the ones before it. */
  ghost predicate AllAccepted(history: seq<Use>, bare: seq<TrackedBuffer>, steps: nat, declarations: seq<Declaration>, step: nat, family: nat, queue: nat)
    requires AllWide(declarations)
    decreases |declarations|
  {
    declarations == [] ||
    var d := declarations[0];
    var v := Access(d.kind, d.scope, step, family, queue);
    && AcceptedUse(history, bare, steps, d, v)
    && AllAccepted(history + [UseOf(d, BufferFor(bare, d.buffer), v)], AfterUse(bare, d.buffer), steps, declarations[1..], step, family, queue)
  }

  /** The uses they stand for. */
  function AllUses(bare: seq<TrackedBuffer>, declarations: seq<Declaration>, step: nat, family: nat, queue: nat): (uses: seq<Use>)
    requires AllWide(declarations)
    ensures |uses| == |declarations|
    decreases |declarations|
  {
    if declarations == [] then []
    else
      var d := declarations[0];
      var v := Access(d.kind, d.scope, step, family, queue);
      [UseOf(d, BufferFor(bare, d.buffer), v)] + AllUses(AfterUse(bare, d.buffer), declarations[1..], step, family, queue)
  }

  function AfterUses(bare: seq<TrackedBuffer>, declarations: seq<Declaration>): seq<TrackedBuffer>
    decreases |declarations|
  {
    if declarations == [] then bare else AfterUses(AfterUse(bare, declarations[0].buffer), declarations[1..])
  }

  lemma {:induction false} BufferForBare(buffers: seq<TrackedBuffer>, handle: nat)
    ensures var b, c := BufferFor(buffers, handle), BufferFor(Bare(buffers), handle); c == b.(regions := [])
    ensures IsTracked(Bare(buffers), handle) <==> IsTracked(buffers, handle)
  {
    var bare := Bare(buffers);
    forall k | 0 <= k < |buffers|
      ensures bare[k].handle == buffers[k].handle
    {
    }
    if buffers != [] {
      BufferForBare(buffers[1..], handle);
      assert Bare(buffers)[1..] == Bare(buffers[1..]);
    }
  }

  /** The regions decide as the uses do. */
  lemma AcceptsAsUses(buffers: seq<TrackedBuffer>, deps: seq<Edge>, history: seq<Use>, last: nat, steps: nat, d: Declaration, v: Access)
    requires Sound(buffers, deps, history, last, steps) && d.offset <= MAX_SIZE && d.size <= MAX_SIZE
    ensures Accepts(buffers, steps, d, v) <==> AcceptedUse(history, Bare(buffers), steps, d, v)
    ensures UseOf(d, BufferFor(buffers, d.buffer), v) == UseOf(d, BufferFor(Bare(buffers), d.buffer), v)
  {
    BufferForBare(buffers, d.buffer);
    var tracked := BufferFor(buffers, d.buffer);
    var range := RangeOf(d, tracked.size);
    TrackedIsMirrored(buffers, deps, history, last, steps, d.buffer);
    if range.Ok? {
      hide Sound, Mirrored, Refused, Unbounded, Undecided, RangeOf;
      RegionsRefuse(tracked.regions, history, d.buffer, tracked.exclusive, range.value, v);
      RegionsUndecided(tracked.regions, history, d.buffer, tracked.exclusive, range.value);
    }
  }

  lemma TrackedIsMirrored(buffers: seq<TrackedBuffer>, deps: seq<Edge>, history: seq<Use>, last: nat, steps: nat, handle: nat)
    requires Sound(buffers, deps, history, last, steps)
    ensures var tracked := BufferFor(buffers, handle); Mirrored(tracked.regions, history, handle, tracked.exclusive)
  {
    if k :| 0 <= k < |buffers| && buffers[k].handle == handle {
      BufferForFound(buffers, handle, k);
      assert BufferOk(history, buffers[k], deps, last);
      forall b: nat
        ensures At(buffers[k].regions, b) == ByteState(history, handle, buffers[k].exclusive, b)
      {
        assert ByteOk(history, handle, b, At(buffers[k].regions, b), buffers[k].exclusive, deps, last);
      }
    } else {
      BufferForFound(buffers, handle, |buffers|);
      forall b: nat
        ensures ByteState(history, handle, true, b) == None
      {
        forall i | 0 <= i < |history|
          ensures !Touches(history[i], handle, b)
        {
          assert UseKnown(history[i], buffers, last);
        }
        NoAccesses(history, handle, b);
      }
    }
  }

  /** Nothing is added but some of these. */
  ghost predicate OnlyWith(deps: seq<Edge>, more: seq<Edge>, edges: seq<Edge>) {
    forall e | e in more :: e in deps || e in edges
  }

  lemma EdgesToNext(readers: seq<Access>, step: nat, i: nat)
    requires i < |readers|
    ensures EdgesTo(readers[..i + 1], step) == EdgesTo(readers[..i], step) + [(readers[i].step, step)]
  {
  }

  /** Nothing is added but what the parts in the range call for. */
  ghost predicate OnlyFrom(deps: seq<Edge>, more: seq<Edge>, parts: seq<Region>, u: Use) {
    forall e | e in more :: e in deps || exists m :: 0 <= m < |parts| && CalledBy(e, parts[m], u)
  }

  ghost predicate CalledBy(e: Edge, part: Region, u: Use) {
    Overlaps(part.range, u.range) && e in EdgesOf(part.state, u.access, u.exclusive)
  }

  lemma NothingFrom(deps: seq<Edge>, parts: seq<Region>, u: Use)
    ensures OnlyFrom(deps, deps, parts, u)
  {
  }

  lemma OnlyFromNext(deps: seq<Edge>, now: seq<Edge>, more: seq<Edge>, parts: seq<Region>, u: Use, m: nat)
    requires OnlyFrom(deps, now, parts, u) && m < |parts| && Overlaps(parts[m].range, u.range)
    requires OnlyWith(now, more, EdgesOf(parts[m].state, u.access, u.exclusive))
    ensures OnlyFrom(deps, more, parts, u)
  {
    forall e | e in more && e !in deps
      ensures exists m :: 0 <= m < |parts| && CalledBy(e, parts[m], u)
    {
      if e !in now { assert CalledBy(e, parts[m], u); }
    }
  }

  /** What is added for a use joins it, or reads it gathers, to uses of a byte it shares with them. */
  lemma NewDependenciesAreJustified(history: seq<Use>, buffer: TrackedBuffer, parts: seq<Region>, u: Use, deps: seq<Edge>, more: seq<Edge>, last: nat)
    requires Forward(deps) && BufferOk(history, buffer, deps, last) && u.buffer == buffer.handle && u.exclusive == buffer.exclusive
    requires Cut(buffer.regions, parts, u.range) && SameBytes(buffer.regions, parts, u.range) && Proper(u.range)
    requires Justified(history, deps) && OnlyFrom(deps, more, parts, u)
    ensures Justified(history + [u], more)
  {
    hide Joined, EdgesOf, FrontierOk;
    forall e | e in more
      ensures Joined(e, history + [u])
    {
      if e in deps {
        JoinedMore(e, history, u);
      } else {
        var m :| 0 <= m < |parts| && CalledBy(e, parts[m], u);
        PartIsUsed(history, buffer, parts, u, deps, last, m, e);
      }
    }
  }

  lemma PartIsUsed(history: seq<Use>, buffer: TrackedBuffer, parts: seq<Region>, u: Use, deps: seq<Edge>, last: nat, m: nat, e: Edge)
    requires Forward(deps) && BufferOk(history, buffer, deps, last) && u.buffer == buffer.handle && u.exclusive == buffer.exclusive
    requires Cut(buffer.regions, parts, u.range) && SameBytes(buffer.regions, parts, u.range) && Proper(u.range)
    requires m < |parts| && CalledBy(e, parts[m], u)
    ensures Joined(e, history + [u])
  {
    hide Joined, EdgesOf, FrontierOk, CutAt;
    RegionIsProper(parts, m);
    OverlapIsSharedByte(parts[m].range, u.range);
    var b: nat :| Has(parts[m].range, b) && Has(u.range, b);
    AtRegion(parts, m, b);
    assert ByteOk(history, buffer.handle, b, At(buffer.regions, b), buffer.exclusive, deps, last);
    EdgeIsJoined(history, u, b, At(buffer.regions, b), deps, e);
  }

  class Tracker {
    var buffers: seq<TrackedBuffer>
    var dependencies: seq<Edge>
    var before: seq<seq<Barrier>>       // the barriers of each step, recorded before it
    var after: seq<seq<Barrier>>        // and after it
    var journal: Option<Journal>
    ghost var history: seq<Use>
    ghost var last: nat
    ghost var start: Snapshot

    ghost function Now(): Snapshot
      reads this
    {
      Snapshot(buffers, dependencies, before, after)
    }

    ghost predicate Journaled()
      reads this
    {
      |before| == |after| && (journal.Some? ==> Restorable(journal.value, start, Now()))
    }

    ghost predicate Valid()
      reads this
    {
      Sound(buffers, dependencies, history, last, |before|) && Recorded(history, before, after) && Justified(history, dependencies) && Journaled()
    }

    constructor (steps: nat)
      ensures Valid() && buffers == [] && dependencies == [] && history == [] && last == 0 && journal == None && |before| == steps
    {
      buffers, dependencies, journal := [], [], None;
      before := seq(steps, _ => []);
      after := seq(steps, _ => []);
      history, last, start := [], 0, Snapshot([], [], [], []);
    }

    /** add_dependency: each pair once, and no step after itself. */
    method AddDependency(source: nat, destination: nat)
      requires Forward(dependencies) && BelowStep(dependencies, |before|) && source <= destination < |before| && Journaled()
      modifies `dependencies
      ensures Forward(dependencies) && BelowStep(dependencies, |before|) && Journaled()
      ensures old(dependencies) <= dependencies && (source != destination ==> (source, destination) in dependencies)
      ensures var e := (source, destination);
              dependencies == if source == destination || e in old(dependencies) then old(dependencies) else old(dependencies) + [e]
    {
      hide Restorable;
      if source != destination && (source, destination) !in dependencies {
        if journal.Some? { MoreDependenciesRestorable((source, destination)); }
        dependencies := dependencies + [(source, destination)];
        assert dependencies[|dependencies| - 1] == (source, destination);
      }
    }

    lemma MoreDependenciesRestorable(e: Edge)
      requires journal.Some? && Restorable(journal.value, start, Now())
      ensures Restorable(journal.value, start, Now().(dependencies := dependencies + [e]))
    {
      var now, more := Now(), Now().(dependencies := dependencies + [e]);
      forall i | 0 <= i < |start.buffers|
        ensures BufferRestorable(journal.value, start, more, i)
      {
        assert BufferRestorable(journal.value, start, now, i);
      }
      forall n | 0 <= n < |start.before|
        ensures StepRestorable(journal.value, start, more, n)
      {
        assert StepRestorable(journal.value, start, now, n);
      }
    }

    /** remember_step: the step's barrier counts are journaled before the first barrier is added to it. */
    method RememberStep(step: nat)
      requires step < |before| && Journaled()
      modifies `journal
      ensures Journaled() && (journal.Some? <==> old(journal).Some?)
      ensures journal.Some? ==> step in journal.value.steps && SameBuffers(old(journal).value, journal.value)
    {
      if journal.None? || step in journal.value.steps { return; }
      RememberedStepRestorable(step);
      journal := Some(journal.value.(steps := journal.value.steps[step := (|before[step]|, |after[step]|)]));
    }

    lemma RememberedStepRestorable(step: nat)
      requires step < |before| && |before| == |after| && journal.Some? && Restorable(journal.value, start, Now()) && step !in journal.value.steps
      ensures Restorable(journal.value.(steps := journal.value.steps[step := (|before[step]|, |after[step]|)]), start, Now())
    {
      var j, now := journal.value, Now();
      var more := j.(steps := j.steps[step := (|before[step]|, |after[step]|)]);
      forall i | 0 <= i < |start.buffers|
        ensures BufferRestorable(more, start, now, i)
      {
        assert BufferRestorable(j, start, now, i);
      }
      forall n | 0 <= n < |start.before|
        ensures StepRestorable(more, start, now, n)
      {
        assert StepRestorable(j, start, now, n);
      }
    }

    /** A barrier joins the step's own, which are only ever added to. */
    method Emit(step: nat, barrier: Barrier, isAfter: bool)
      requires step < |before| && Journaled()
      modifies `before, `after, `journal
      ensures Journaled() && (journal.Some? <==> old(journal).Some?)
      ensures journal.Some? ==> SameBuffers(old(journal).value, journal.value)
      ensures if isAfter then before == old(before) && after == old(after)[step := old(after)[step] + [barrier]]
              else after == old(after) && before == old(before)[step := old(before)[step] + [barrier]]
    {
      RememberStep(step);
      if journal.Some? { EmittedRestorable(step, barrier, isAfter); }
      if isAfter {
        after := after[step := after[step] + [barrier]];
      } else {
        before := before[step := before[step] + [barrier]];
      }
    }

    lemma EmittedRestorable(step: nat, barrier: Barrier, isAfter: bool)
      requires step < |before| && |before| == |after| && journal.Some? && Restorable(journal.value, start, Now()) && step in journal.value.steps
      ensures Restorable(journal.value, start,
                         if isAfter then Now().(after := after[step := after[step] + [barrier]])
                         else Now().(before := before[step := before[step] + [barrier]]))
    {
      var j, now := journal.value, Now();
      var more := if isAfter then now.(after := after[step := after[step] + [barrier]]) else now.(before := before[step := before[step] + [barrier]]);
      forall i | 0 <= i < |start.buffers|
        ensures BufferRestorable(j, start, more, i)
      {
        assert BufferRestorable(j, start, now, i);
      }
      forall n | 0 <= n < |start.before|
        ensures StepRestorable(j, start, more, n)
      {
        assert StepRestorable(j, start, now, n);
      }
    }

    /** The edges from every reader to one step. */
    method DependOnReaders(readers: seq<Access>, step: nat)
      requires Forward(dependencies) && BelowStep(dependencies, |before|) && Journaled() && step < |before|
      requires forall i | 0 <= i < |readers| :: readers[i].step <= step
      modifies `dependencies
      ensures Forward(dependencies) && BelowStep(dependencies, |before|) && Journaled() && old(dependencies) <= dependencies
      ensures Added(EdgesTo(readers, step), dependencies) && OnlyWith(old(dependencies), dependencies, EdgesTo(readers, step))
    {
      hide Restorable;
      for i := 0 to |readers|
        invariant Forward(dependencies) && BelowStep(dependencies, |before|) && Journaled() && old(dependencies) <= dependencies
        invariant OnlyWith(old(dependencies), dependencies, EdgesTo(readers[..i], step))
        invariant forall k | 0 <= k < i && readers[k].step != step :: (readers[k].step, step) in dependencies
      {
        EdgesToNext(readers, step, i);
        AddDependency(readers[i].step, step);
      }
      assert readers[..|readers|] == readers;
    }

    /** advance_buffer_region: the region's next state, with the dependencies and barriers the use needs. */
    method AdvanceBufferRegion(region: Region, buffer: nat, v: Access, exclusive: bool) returns (r: Region)
      requires Forward(dependencies) && BelowStep(dependencies, |before|) && Journaled()
      requires FrontierOk(region.state, exclusive, dependencies, last) && last <= v.step < |before|
      modifies `dependencies, `before, `after, `journal
      ensures r == region.(state := Advance(region.state, v, exclusive))
      ensures |before| == old(|before|) && Forward(dependencies) && BelowStep(dependencies, |before|) && Journaled()
      ensures old(dependencies) <= dependencies && Added(EdgesOf(region.state, v, exclusive), dependencies)
      ensures OnlyWith(old(dependencies), dependencies, EdgesOf(region.state, v, exclusive))
      ensures journal.Some? <==> old(journal).Some?
      ensures journal.Some? ==> SameBuffers(old(journal).value, journal.value)
      ensures var barrier := BarrierBefore(region.state, v, exclusive, buffer, region.range);
              before == if barrier.Some? then old(before)[v.step := old(before)[v.step] + [barrier.value]] else old(before)
      ensures var barrier := BarrierAfter(region.state, v, exclusive, buffer, region.range);
              after == if barrier.Some? then
                         var step := Handoff(region.state.accesses).value.step;
                         if step < |old(after)| then old(after)[step := old(after)[step] + [barrier.value]] else old(after)
                       else old(after)
    {
      hide Restorable, ScopesOf, FrontierOk;
      var s := region.state;
      var f := s.accesses;
      if IsUnused(s) {
        return region.(state := State(v.family, if v.kind == Read then Frontier(None, [v]) else Frontier(Some(v), [])));
      }
      ReadersAreEarlier(s, exclusive, v.step);
      if JoinsReaders(s, v, exclusive) {
        FollowAnchor(region, buffer, v, exclusive);
        return region.(state := s.(accesses := f.(readers := if v in f.readers then f.readers else f.readers + [v])));
      }
      FollowFrontier(region, buffer, v, exclusive);
      r := region.(state := State(v.family, Frontier(Some(v), [])));
    }

    /** Any other use comes after the readers, or the anchor if there are none, and may take the buffer over from another family. */
    method FollowFrontier(region: Region, buffer: nat, v: Access, exclusive: bool)
      requires Forward(dependencies) && BelowStep(dependencies, |before|) && Journaled() && v.step < |before|
      requires !IsUnused(region.state) && !JoinsReaders(region.state, v, exclusive)
      requires var anchor := region.state.accesses.anchor; anchor.Some? ==> anchor.value.step <= v.step
      requires var readers := region.state.accesses.readers;
               forall i | 0 <= i < |readers| :: readers[i].step <= readers[|readers| - 1].step <= v.step
      modifies `dependencies, `before, `after, `journal
      ensures |before| == old(|before|) && Forward(dependencies) && BelowStep(dependencies, |before|) && Journaled()
      ensures old(dependencies) <= dependencies && Added(EdgesOf(region.state, v, exclusive), dependencies)
      ensures OnlyWith(old(dependencies), dependencies, EdgesOf(region.state, v, exclusive))
      ensures journal.Some? <==> old(journal).Some?
      ensures journal.Some? ==> SameBuffers(old(journal).value, journal.value)
      ensures var barrier := BarrierBefore(region.state, v, exclusive, buffer, region.range);
              before == if barrier.Some? then old(before)[v.step := old(before)[v.step] + [barrier.value]] else old(before)
      ensures var barrier := BarrierAfter(region.state, v, exclusive, buffer, region.range);
              after == if barrier.Some? then
                         var step := Handoff(region.state.accesses).value.step;
                         if step < |old(after)| then old(after)[step := old(after)[step] + [barrier.value]] else old(after)
                       else old(after)
    {
      hide Restorable, ScopesOf;
      var f := region.state.accesses;
      if f.readers == [] {
        AddDependency(f.anchor.value.step, v.step);
      } else {
        DependOnReaders(f.readers, v.step);
      }
      if Transfers(region.state, v, exclusive) {
        HandOver(region, buffer, v);
      } else {
        var source := SourceScopeOf(f, v.queue);
        Emit(v.step, Barrier(buffer, region.range, source, v.scope, IGNORED_FAMILY, IGNORED_FAMILY), false);
      }
    }

    /** A read that joins the readers comes after the anchor, and sees it if it wrote. */
    method FollowAnchor(region: Region, buffer: nat, v: Access, exclusive: bool)
      requires Forward(dependencies) && BelowStep(dependencies, |before|) && Journaled() && v.step < |before|
      requires !IsUnused(region.state) && JoinsReaders(region.state, v, exclusive)
      requires var anchor := region.state.accesses.anchor; anchor.Some? ==> anchor.value.step <= v.step
      modifies `dependencies, `before, `after, `journal
      ensures Forward(dependencies) && BelowStep(dependencies, |before|) && Journaled() && after == old(after)
      ensures old(dependencies) <= dependencies && Added(EdgesOf(region.state, v, exclusive), dependencies)
      ensures OnlyWith(old(dependencies), dependencies, EdgesOf(region.state, v, exclusive))
      ensures journal.Some? <==> old(journal).Some?
      ensures journal.Some? ==> SameBuffers(old(journal).value, journal.value)
      ensures var barrier := BarrierBefore(region.state, v, exclusive, buffer, region.range);
              before == if barrier.Some? then old(before)[v.step := old(before)[v.step] + [barrier.value]] else old(before)
    {
      hide Restorable, ScopesOf;
      var anchor := region.state.accesses.anchor;
      if anchor.None? { return; }
      AddDependency(anchor.value.step, v.step);
      if anchor.value.kind != Read {
        var source := SourceScopeOf(Frontier(anchor, []), v.queue);
        Emit(v.step, Barrier(buffer, region.range, source, v.scope, IGNORED_FAMILY, IGNORED_FAMILY), false);
      }
    }

    /** The halves of an ownership transfer, the release after the last reader, which follows every other. */
    method HandOver(region: Region, buffer: nat, v: Access)
      requires Forward(dependencies) && BelowStep(dependencies, |before|) && Journaled() && v.step < |before|
      requires Handoff(region.state.accesses).Some? && Handoff(region.state.accesses).value.step < |before|
      requires var readers := region.state.accesses.readers;
               forall i | 0 <= i < |readers| :: readers[i].step <= readers[|readers| - 1].step
      modifies `dependencies, `before, `after, `journal
      ensures Forward(dependencies) && BelowStep(dependencies, |before|) && Journaled()
      ensures var f := region.state.accesses;
              old(dependencies) <= dependencies && (f.readers != [] ==> Added(EdgesTo(f.readers, Handoff(f).value.step), dependencies))
              && OnlyWith(old(dependencies), dependencies, if f.readers != [] then EdgesTo(f.readers, Handoff(f).value.step) else [])
      ensures journal.Some? <==> old(journal).Some?
      ensures journal.Some? ==> SameBuffers(old(journal).value, journal.value)
      ensures var acquire := Barrier(buffer, region.range, NOTHING, v.scope, region.state.family, v.family);
              before == old(before)[v.step := old(before)[v.step] + [acquire]]
      ensures var last := Handoff(region.state.accesses).value;
              var release := Barrier(buffer, region.range, SourceScope(region.state.accesses, last.queue), NOTHING, region.state.family, v.family);
              after == old(after)[last.step := old(after)[last.step] + [release]]
    {
      hide Restorable, ScopesOf;
      var s := region.state;
      var f := s.accesses;
      var handoff := Handoff(f).value;
      var source := SourceScopeOf(f, handoff.queue);
      if f.readers != [] { DependOnReaders(f.readers, handoff.step); }
      Emit(handoff.step, Barrier(buffer, region.range, source, NOTHING, s.family, v.family), true);
      Emit(v.step, Barrier(buffer, region.range, NOTHING, v.scope, s.family, v.family), false);
    }

    lemma ReadersAreEarlier(s: State, exclusive: bool, step: nat)
      requires Forward(dependencies) && FrontierOk(s, exclusive, dependencies, last) && last <= step
      ensures s.accesses.anchor.Some? ==> s.accesses.anchor.value.step <= step
      ensures forall i | 0 <= i < |s.accesses.readers| ::
                s.accesses.readers[i].step <= s.accesses.readers[|s.accesses.readers| - 1].step <= step
    {
      var readers := s.accesses.readers;
      forall i | 0 <= i < |readers|
        ensures readers[i].step <= readers[|readers| - 1].step <= step
      {
        assert ReaderOk(readers[|readers| - 1], s, exclusive, dependencies, last);
        if i < |readers| - 1 {
          assert readers[i].step <= readers[|readers| - 1].step;
        }
      }
    }

    /** validate_buffer_use_conflicts. */
    method ValidateBufferUseConflicts(regions: seq<Region>, range: Interval, v: Access) returns (ok: bool)
      ensures ok <==> NoConflict(regions, range, v)
      ensures ok <==> forall i | 0 <= i < |regions| && Overlaps(regions[i].range, range) ::
                var f := regions[i].state.accesses;
                && (f.anchor.Some? ==> f.anchor.value.step != v.step)
                && forall r | r in f.readers && r.step == v.step :: r.kind == Read && v.kind == Read && r.family == v.family && r.queue == v.queue
    {
      for i := 0 to |regions|
        invariant forall j | 0 <= j < i && Overlaps(regions[j].range, range) :: !Rejected(regions[j].state, v)
      {
        if !Overlaps(regions[i].range, range) { continue; }
        var f := regions[i].state.accesses;
        if f.anchor.Some? && f.anchor.value.step == v.step { return false; }
        for k := 0 to |f.readers|
          invariant forall j | 0 <= j < k :: !Clashes(f.readers[j], v)
        {
          if Clashes(f.readers[k], v) {
            assert Rejected(regions[i].state, v);
            return false;
          }
        }
      }
      ok := true;
    }

    /** The loop of use() over the cut regions. */
    method AdvanceRegions(parts: seq<Region>, u: Use) returns (advanced: seq<Region>)
      requires Forward(dependencies) && BelowStep(dependencies, |before|) && Journaled() && last <= u.access.step < |before|
      requires forall i | 0 <= i < |parts| && Overlaps(parts[i].range, u.range) :: FrontierOk(parts[i].state, u.exclusive, dependencies, last)
      modifies `dependencies, `before, `after, `journal
      ensures Forward(dependencies) && BelowStep(dependencies, |before|) && Journaled() && |before| == old(|before|)
      ensures old(dependencies) <= dependencies && (journal.Some? <==> old(journal).Some?)
      ensures journal.Some? ==> SameBuffers(old(journal).value, journal.value)
      ensures AdvancedRegions(parts, advanced, u, dependencies) && OnlyFrom(old(dependencies), dependencies, parts, u)
      ensures before == Appended(old(before), u.access.step, Barriers(parts, u))
      ensures after == Released(old(after), parts, u)
    {
      hide Restorable, FrontierOk, Added, BarrierBefore, BarrierAfter, Handoff, AdvancedRegions, Appended, OnlyFrom, OnlyWith;
      NothingFrom(dependencies, parts, u);
      NoneAdvanced(parts, u, dependencies);
      AppendedNothing(before, u.access.step);
      advanced := [];
      for i := 0 to |parts|
        invariant Forward(dependencies) && BelowStep(dependencies, |before|) && Journaled() && |before| == old(|before|)
        invariant old(dependencies) <= dependencies && (journal.Some? <==> old(journal).Some?)
        invariant journal.Some? ==> SameBuffers(old(journal).value, journal.value)
        invariant AdvancedRegions(parts[..i], advanced, u, dependencies) && OnlyFrom(old(dependencies), dependencies, parts, u)
        invariant before == Appended(old(before), u.access.step, Barriers(parts[..i], u))
        invariant after == Released(old(after), parts[..i], u)
      {
        assert parts[..i + 1][..i] == parts[..i];
        var next := parts[i];
        ghost var deps := dependencies;
        AppendNext(old(before), u.access.step, Barriers(parts[..i], u), BarrierBefore(next.state, u.access, u.exclusive, u.buffer, next.range));
        if Overlaps(next.range, u.range) {
          FrontierStaysOk(next.state, u.exclusive, old(dependencies), dependencies, last);
          next := AdvanceBufferRegion(next, u.buffer, u.access, u.exclusive);
          OnlyFromNext(old(dependencies), deps, dependencies, parts, u, i);
        }
        OneMoreRegion(parts, i, advanced, next, u, deps, dependencies);
        advanced := advanced + [next];
      }
      assert parts[..|parts|] == parts;
    }

    /** The buffer is tracked from now on; a batch that fails will drop it again. */
    method Track(buffer: TrackedBuffer)
      requires Valid() && buffer.regions == [] && forall j | 0 <= j < |buffers| :: buffers[j].handle != buffer.handle
      modifies `buffers
      ensures Valid() && buffers == old(buffers) + [buffer]
    {
      NewBufferKeepsSound(buffers, buffer, dependencies, history, last, |before|);
      hide Sound, Recorded;
      if journal.Some? { TrackedRestorable(buffer); }
      buffers := buffers + [buffer];
    }

    lemma JournalCounts()
      requires journal.Some? && Restorable(journal.value, start, Now())
      ensures journal.value.bufferCount == |start.buffers| <= |buffers|
    {
    }

    lemma TrackedRestorable(buffer: TrackedBuffer)
      requires journal.Some? && Restorable(journal.value, start, Now())
      ensures Restorable(journal.value, start, Now().(buffers := buffers + [buffer]))
    {
      var j, now, more := journal.value, Now(), Now().(buffers := buffers + [buffer]);
      forall i | 0 <= i < |start.buffers|
        ensures BufferRestorable(j, start, more, i)
      {
        assert BufferRestorable(j, start, now, i);
      }
      forall n | 0 <= n < |start.before|
        ensures StepRestorable(j, start, more, n)
      {
        assert StepRestorable(j, start, now, n);
      }
    }

    /** remember_buffer: a buffer the batch found here is journaled as it was, once. */
    method RememberBuffer(index: nat)
      requires index < |buffers| && Journaled()
      modifies `journal
      ensures Journaled() && (journal.Some? <==> old(journal).Some?)
      ensures journal.Some? ==> journal.value.bufferCount == old(journal).value.bufferCount
      ensures journal.Some? ==> index in journal.value.buffers || index >= journal.value.bufferCount
    {
      if journal.None? || index >= journal.value.bufferCount || index in journal.value.buffers { return; }
      RememberedRestorable(index);
      journal := Some(journal.value.(buffers := journal.value.buffers[index := buffers[index]]));
    }

    lemma RememberedRestorable(index: nat)
      requires index < |buffers| && |before| == |after| && journal.Some? && Restorable(journal.value, start, Now())
      requires index < journal.value.bufferCount && index !in journal.value.buffers
      ensures Restorable(journal.value.(buffers := journal.value.buffers[index := buffers[index]]), start, Now())
    {
      var j, now := journal.value, Now();
      var more := j.(buffers := j.buffers[index := buffers[index]]);
      forall i | 0 <= i < |start.buffers|
        ensures BufferRestorable(more, start, now, i)
      {
        assert BufferRestorable(j, start, now, i);
      }
      forall n | 0 <= n < |start.before|
        ensures StepRestorable(more, start, now, n)
      {
        assert StepRestorable(j, start, now, n);
      }
    }

    lemma StoredRestorable(k: nat, regions: seq<Region>)
      requires journal.Some? && Restorable(journal.value, start, Now()) && k < |buffers|
      requires k in journal.value.buffers || k >= journal.value.bufferCount
      ensures Restorable(journal.value, start, Now().(buffers := buffers[k := buffers[k].(regions := regions)]))
    {
      var j, now, more := journal.value, Now(), Now().(buffers := buffers[k := buffers[k].(regions := regions)]);
      forall i | 0 <= i < |start.buffers|
        ensures BufferRestorable(j, start, more, i)
      {
        assert BufferRestorable(j, start, now, i);
      }
      forall n | 0 <= n < |start.before|
        ensures StepRestorable(j, start, more, n)
      {
        assert StepRestorable(j, start, now, n);
      }
    }

    /**
     use: a declaration of one buffer. Once accepted, everything it conflicts
     with leads to it; refused, it leaves no trace. Steps are declared in order.
     */
    method UseBuffer(d: Declaration, step: nat, family: nat, queue: nat) returns (ok: bool)
      requires Valid() && last <= step && d.offset <= MAX_SIZE && d.size <= MAX_SIZE
      modifies this
      ensures Valid() && |before| == old(|before|) && start == old(start) && (journal.Some? <==> old(journal).Some?)
      ensures ok <==> Accepts(old(buffers), old(|before|), d, Access(d.kind, d.scope, step, family, queue))
      ensures ok <==> AcceptedUse(old(history), Bare(old(buffers)), old(|before|), d, Access(d.kind, d.scope, step, family, queue))
      ensures ok ==> Bare(buffers) == AfterUse(Bare(old(buffers)), d.buffer)
      ensures !ok ==> unchanged(this)
      ensures SameIdentities(old(buffers), buffers) && old(dependencies) <= dependencies
      ensures ok ==>
                var u := UseOf(d, BufferFor(old(buffers), d.buffer), Access(d.kind, d.scope, step, family, queue));
                && last == step && history == old(history) + [u]
                && Synchronized(BufferFor(old(buffers), d.buffer).regions, u, old(before), before, old(after), after)
    {
      AcceptsAsUses(buffers, dependencies, history, last, |before|, d, Access(d.kind, d.scope, step, family, queue));
      BufferForBare(buffers, d.buffer);
      hide Sound, Recorded, Restorable, NoConflict, Undecided, Appended, Barriers, Released, AcceptedUse, Synchronized;
      var v := Access(d.kind, d.scope, step, family, queue);
      if d.buffer == NULL || step >= |before| { return false; }
      if !d.usageValid { return false; }
      var normal := Normalize(d.offset, d.size);
      if normal.Err? { return false; }
      var range := normal.value;
      var k := FindBuffer(d.buffer);
      BufferForFound(buffers, d.buffer, k);
      var created := false;
      if k < |buffers| {
        var clamped := Clamped(range, buffers[k].size);
        if clamped.Err? { return false; }
        range := clamped.value;
      } else {
        NothingRefused(range, v);
        if journal.Some? { JournalCounts(); }
        Track(TrackedBuffer(d.buffer, [], None, true));
        created := true;
      }
      ok := UseRange(k, range, v, created);
    }

    /** The buffer is found, and the range is within it. */
    method UseRange(k: nat, range: Interval, v: Access, created: bool) returns (ok: bool)
      requires Valid() && k < |buffers| && last <= v.step < |before| && Proper(range)
      requires created && journal.Some? ==> k >= journal.value.bufferCount
      modifies this
      ensures Valid() && |before| == old(|before|) && start == old(start) && (journal.Some? <==> old(journal).Some?)
      ensures ok <==> NoConflict(old(buffers)[k].regions, range, v) && !Undecided(old(buffers)[k].regions, range)
      ensures !ok ==> unchanged(this)
      ensures SameIdentities(old(buffers), buffers) && Bare(buffers) == Bare(old(buffers)) && old(dependencies) <= dependencies
      ensures ok ==>
                var u := Use(old(buffers)[k].handle, range, v, old(buffers)[k].exclusive);
                && last == v.step && history == old(history) + [u]
                && Synchronized(old(buffers)[k].regions, u, old(before), before, old(after), after)
    {
      hide Sound, Recorded, Restorable, NoConflict, Undecided, Appended, Barriers, Released;
      TrackedIsOrdered(k);
      var valid := ValidateBufferUseConflicts(buffers[k].regions, range, v);
      if !valid { return false; }
      var parts := PartitionBufferRegions(buffers[k].regions, range);
      if parts.Err? { return false; }
      var u := Use(buffers[k].handle, range, v, buffers[k].exclusive);
      assert CutFor(parts.value, buffers[k].regions, u);
      ApplyUse(k, parts.value, u, created);
      ok := true;
    }

    lemma TrackedIsOrdered(k: nat)
      requires Valid() && k < |buffers|
      ensures Ordered(buffers[k].regions) && BufferOk(history, buffers[k], dependencies, last) && Forward(dependencies) && BelowStep(dependencies, |before|)
    {
      assert BufferOk(history, buffers[k], dependencies, last);
    }

    /** The accepted declaration is applied to the buffer's regions. */
    method ApplyUse(k: nat, parts: seq<Region>, u: Use, created: bool)
      requires Valid() && k < |buffers| && last <= u.access.step < |before| && Proper(u.range)
      requires u.buffer == buffers[k].handle && u.exclusive == buffers[k].exclusive
      requires Cut(buffers[k].regions, parts, u.range) && SameBytes(buffers[k].regions, parts, u.range)
      requires NoConflict(buffers[k].regions, u.range, u.access)
      requires created && journal.Some? ==> k >= journal.value.bufferCount
      modifies this
      ensures Valid() && |before| == old(|before|) && start == old(start) && (journal.Some? <==> old(journal).Some?)
      ensures last == u.access.step && history == old(history) + [u] && old(dependencies) <= dependencies
      ensures before == Appended(old(before), u.access.step, Barriers(parts, u)) && after == Released(old(after), parts, u)
      ensures SameIdentities(old(buffers), buffers) && Bare(buffers) == Bare(old(buffers))
    {
      hide Sound, Recorded, Restorable, BufferOk, Used, FrontierOk, Appended, Barriers, Released, Justified, OnlyFrom;
      ghost var regions, deps := buffers[k].regions, dependencies;
      TrackedIsOrdered(k);
      UseIsRecorded(history, before, after, u, buffers[k], parts, dependencies, last);
      PartsAreOk(history, buffers[k], parts, u.range, dependencies, last);
      if !created { RememberBuffer(k); }
      var advanced := AdvanceRegions(parts, u);
      AdvancedIsOrdered(parts, advanced, u, dependencies);
      var merged := MergeBufferRegions(advanced);
      AdvancedIsUsed(regions, parts, advanced, merged, u, dependencies);
      UseKeepsSound(buffers, k, merged, u, deps, dependencies, history, last, |before|);
      NewDependenciesAreJustified(history, buffers[k], parts, u, deps, dependencies, last);
      if journal.Some? {
        StoredRestorable(k, merged);
      }
      buffers := buffers[k := buffers[k].(regions := merged)];
      history := history + [u];
      last := u.access.step;
    }

    /** register_extent: a buffer's size and sharing are settled before its first use, and once. */
    method RegisterExtent(extent: Extent) returns (ok: bool)
      requires Valid()
      modifies `buffers
      ensures Valid() && SameIdentities(old(buffers), buffers)
      ensures ok <==> ExtentAccepted(old(buffers), extent)
      ensures buffers == if ok && !IsTracked(old(buffers), extent.buffer)
                         then old(buffers) + [TrackedBuffer(extent.buffer, [], Some(extent.size), extent.sharing == Exclusive)] else old(buffers)
      ensures ok ==> IsRegistered(buffers, extent)
      ensures !ok || IsTracked(old(buffers), extent.buffer) ==> buffers == old(buffers)
    {
      hide Sound, Recorded, Restorable;
      if extent.buffer == NULL || extent.size == 0 || extent.sharing == Unknown { return false; }
      var k := FindBuffer(extent.buffer);
      if k == |buffers| {
        Track(TrackedBuffer(extent.buffer, [], Some(extent.size), extent.sharing == Exclusive));
        assert Registers(buffers[k], extent);
        return true;
      }
      HandlesAreDistinct(k);
      ok := Registers(buffers[k], extent);
    }

    lemma HandlesAreDistinct(k: nat)
      requires Valid() && k < |buffers|
      ensures forall j | 0 <= j < |buffers| && buffers[j].handle == buffers[k].handle :: j == k
    {
    }

    /** batch_transaction_guard: from here on changes are journaled. */
    method Begin()
      requires Valid() && journal == None
      modifies `journal, `start
      ensures Valid() && journal.Some? && start == Now()
    {
      start := Snapshot(buffers, dependencies, before, after);
      journal := Some(Journal(|buffers|, |dependencies|, map[], map[]));
    }

    /** rollback_batch: what the journal remembers is enough to be back at the start, exactly. */
    method Rollback(ghost uses: seq<Use>, ghost step: nat)
      requires Journaled() && journal.Some? && Sound(start.buffers, start.dependencies, uses, step, |start.before|)
      requires Recorded(uses, start.before, start.after) && Justified(uses, start.dependencies)
      modifies this
      ensures Valid() && journal == None && Now() == old(start) && start == old(start) && history == uses && last == step
    {
      hide Sound, Recorded, StepRestorable, BufferRestorable;
      var j := journal.value;
      journal := None;
      dependencies := dependencies[..j.dependencyCount];
      assert dependencies == start.dependencies;
      RollbackSteps(j, old(Now()));
      RollbackBuffers(j, old(Now()));
      history, last := uses, step;
    }

    /** Each step the batch touched is cut back to the barriers it had. */
    method RollbackSteps(j: Journal, ghost now: Snapshot)
      requires Restorable(j, start, now) && before == now.before && after == now.after
      modifies `before, `after
      ensures before == start.before && after == start.after
    {
      hide StepRestorable, BufferRestorable, StepRestored;
      var steps := j.steps.Keys;
      NoStepRestored(j, now);
      while steps != {}
        invariant steps <= j.steps.Keys && |before| == |after| == |now.before|
        invariant forall n | 0 <= n < |before| :: StepRestored(j, steps, now, Now(), n)
        decreases |steps|
      {
        var n :| n in steps;
        OneStepRestored(j, steps, now, n);
        steps := steps - {n};
        before := before[n := before[n][..j.steps[n].0]];
        after := after[n := after[n][..j.steps[n].1]];
      }
      StepsAreBack(j, now);
    }

    /** Each buffer the batch touched is back as it was, and those it brought are gone. */
    method RollbackBuffers(j: Journal, ghost now: Snapshot)
      requires Restorable(j, start, now) && buffers == now.buffers
      modifies `buffers
      ensures buffers == start.buffers
    {
      hide StepRestorable, BufferRestorable;
      var indices := j.buffers.Keys;
      while indices != {}
        invariant indices <= j.buffers.Keys && |buffers| == |now.buffers|
        invariant forall i | 0 <= i < |start.buffers| :: buffers[i] == if i in j.buffers && i !in indices then j.buffers[i] else now.buffers[i]
        decreases |indices|
      {
        var i :| i in indices;
        indices := indices - {i};
        buffers := buffers[i := j.buffers[i]];
      }
      BuffersAreBack(j, now);
      buffers := buffers[..j.bufferCount];
    }

    lemma NoStepRestored(j: Journal, now: Snapshot)
      requires |before| == |after| == |now.before| && before == now.before && after == now.after
      ensures forall n | 0 <= n < |before| :: StepRestored(j, j.steps.Keys, now, Now(), n)
    {
    }

    lemma OneStepRestored(j: Journal, left: set<nat>, now: Snapshot, n: nat)
      requires Restorable(j, start, now) && |before| == |after| == |now.before| && n in left && left <= j.steps.Keys
      requires forall k | 0 <= k < |before| :: StepRestored(j, left, now, Now(), k)
      ensures n < |before| && j.steps[n].0 <= |before[n]| && j.steps[n].1 <= |after[n]|
      ensures var at := Now().(before := before[n := before[n][..j.steps[n].0]], after := after[n := after[n][..j.steps[n].1]]);
              forall k | 0 <= k < |before| :: StepRestored(j, left - {n}, now, at, k)
    {
      assert StepRestorable(j, start, now, n) && StepRestored(j, left, now, Now(), n);
      var at := Now().(before := before[n := before[n][..j.steps[n].0]], after := after[n := after[n][..j.steps[n].1]]);
      forall k | 0 <= k < |before|
        ensures StepRestored(j, left - {n}, now, at, k)
      {
        assert StepRestored(j, left, now, Now(), k);
      }
    }

    lemma StepsAreBack(j: Journal, now: Snapshot)
      requires Restorable(j, start, now) && |before| == |after| == |now.before|
      requires forall n | 0 <= n < |before| :: StepRestored(j, {}, now, Now(), n)
      ensures before == start.before && after == start.after
    {
      forall n | 0 <= n < |before|
        ensures before[n] == start.before[n] && after[n] == start.after[n]
      {
        assert StepRestorable(j, start, now, n) && StepRestored(j, {}, now, Now(), n);
      }
    }

    lemma BuffersAreBack(j: Journal, now: Snapshot)
      requires Restorable(j, start, now) && |buffers| == |now.buffers|
      requires forall i | 0 <= i < |start.buffers| :: buffers[i] == if i in j.buffers then j.buffers[i] else now.buffers[i]
      ensures buffers[..j.bufferCount] == start.buffers
    {
      forall i | 0 <= i < |start.buffers|
        ensures buffers[i] == start.buffers[i]
      {
        assert BufferRestorable(j, start, now, i);
      }
    }

    /** The first half of use: the extents, until one is refused. */
    method RegisterExtents(extents: seq<Extent>) returns (ok: bool)
      requires Valid()
      modifies `buffers
      ensures Valid() && SameIdentities(old(buffers), buffers)
      ensures ok <==> ExtentsAccepted(Bare(old(buffers)), extents)
      ensures ok ==> Bare(buffers) == AfterExtents(Bare(old(buffers)), extents)
      ensures ok ==> forall e | e in extents :: Registrable(e) && IsRegistered(buffers, e)
    {
      hide Sound, Recorded, Restorable, IsRegistered, IsTracked;
      for i := 0 to |extents|
        invariant Valid() && SameIdentities(old(buffers), buffers)
        invariant ExtentsAccepted(Bare(old(buffers)), extents) <==> ExtentsAccepted(Bare(buffers), extents[i..])
        invariant AfterExtents(Bare(old(buffers)), extents) == AfterExtents(Bare(buffers), extents[i..])
        invariant forall n | 0 <= n < i :: Registrable(extents[n]) && IsRegistered(buffers, extents[n])
      {
        ghost var tracked := buffers;
        assert extents[i..][0] == extents[i] && extents[i..][1..] == extents[i + 1..];
        ExtentOfBare(buffers, extents[i]);
        var registered := RegisterExtent(extents[i]);
        if !registered { return false; }
        SameIdentitiesOn(old(buffers), tracked, buffers);
        StillRegistered(extents[..i], tracked, buffers);
      }
      ok := true;
    }

    /** The second half: the declarations, until one is refused. */
    method UseBuffers(declarations: seq<Declaration>, step: nat, family: nat, queue: nat) returns (ok: bool)
      requires Valid() && last <= step && AllWide(declarations)
      modifies this
      ensures Valid() && |before| == old(|before|) && start == old(start) && (journal.Some? <==> old(journal).Some?) && last <= step
      ensures SameIdentities(old(buffers), buffers) && old(dependencies) <= dependencies
      ensures ok <==> AllAccepted(old(history), Bare(old(buffers)), |before|, declarations, step, family, queue)
      ensures ok ==> history == old(history) + AllUses(Bare(old(buffers)), declarations, step, family, queue)
      ensures ok ==> Bare(buffers) == AfterUses(Bare(old(buffers)), declarations)
      ensures ok ==> forall i | 0 <= i < |declarations| :: Stands(history[|old(history)| + i], declarations[i], step, family, queue)
    {
      hide Sound, Recorded, Restorable, Accepts, AcceptedUse, Synchronized, BufferFor, UseOf, Stands;
      for i := 0 to |declarations|
        invariant Valid() && |before| == old(|before|) && start == old(start) && (journal.Some? <==> old(journal).Some?) && last <= step
        invariant SameIdentities(old(buffers), buffers) && old(dependencies) <= dependencies
        invariant AllAccepted(old(history), Bare(old(buffers)), |before|, declarations, step, family, queue)
                  <==> AllAccepted(history, Bare(buffers), |before|, declarations[i..], step, family, queue)
        invariant old(history) + AllUses(Bare(old(buffers)), declarations, step, family, queue)
                  == history + AllUses(Bare(buffers), declarations[i..], step, family, queue)
        invariant AfterUses(Bare(old(buffers)), declarations) == AfterUses(Bare(buffers), declarations[i..])
        invariant |history| == |old(history)| + i && old(history) <= history
        invariant forall n | 0 <= n < i :: Stands(history[|old(history)| + n], declarations[n], step, family, queue)
      {
        ghost var tracked, was := buffers, history;
        ghost var v := Access(declarations[i].kind, declarations[i].scope, step, family, queue);
        assert declarations[i..][0] == declarations[i] && declarations[i..][1..] == declarations[i + 1..];
        AcceptsAsUses(buffers, dependencies, history, last, |before|, declarations[i], v);
        var used := UseBuffer(declarations[i], step, family, queue);
        if !used { return false; }
        NextUse(was, history, Bare(tracked), declarations[i..], step, family, queue);
        AcceptedStands(tracked, |before|, declarations[i], step, family, queue);
        SameIdentitiesOn(old(buffers), tracked, buffers);
      }
      ok := true;
    }

    /**
     use of a whole step: its extents, then its buffers in order, all or nothing.
     It is accepted exactly if each extent and then each declaration is, after
     those before it. Refused, nothing at all has changed; accepted, every
     declaration is accounted for and all hazards, among them and with all before,
     are ordered.
     */
    method UseAll(extents: seq<Extent>, declarations: seq<Declaration>, step: nat, family: nat, queue: nat) returns (ok: bool)
      requires Valid() && journal == None && last <= step && AllWide(declarations)
      modifies this
      ensures Valid() && journal == None && last <= step
      ensures ok <==>
                && ExtentsAccepted(Bare(old(buffers)), extents)
                && AllAccepted(old(history), AfterExtents(Bare(old(buffers)), extents), |old(before)|, declarations, step, family, queue)
      ensures !ok ==> Now() == old(Now()) && history == old(history) && last == old(last)
      ensures ok ==> SameIdentities(old(buffers), buffers) && old(dependencies) <= dependencies && |before| == |old(before)|
      ensures ok ==> forall e | e in extents :: Registrable(e) && IsRegistered(buffers, e)
      ensures ok ==>
                var bare := AfterExtents(Bare(old(buffers)), extents);
                && history == old(history) + AllUses(bare, declarations, step, family, queue)
                && Bare(buffers) == AfterUses(bare, declarations)
      ensures ok ==> forall i | 0 <= i < |declarations| :: Stands(history[|old(history)| + i], declarations[i], step, family, queue)
    {
      hide Sound, Recorded, Restorable, AllAccepted, ExtentsAccepted, AfterExtents, AfterUses, AllUses, Stands;
      ghost var uses, then_ := history, last;
      Begin();
      var registered := RegisterExtents(extents);
      if !registered {
        Rollback(uses, then_);
        return false;
      }
      ghost var tracked := buffers;
      ok := UseBuffers(declarations, step, family, queue);
      if !ok {
        Rollback(uses, then_);
        return;
      }
      SameIdentitiesOn(start.buffers, tracked, buffers);
      StillRegistered(extents, tracked, buffers);
      journal := None;
    }

    method FindBuffer(handle: nat) returns (k: nat)
      ensures k <= |buffers| && (k < |buffers| ==> buffers[k].handle == handle)
      ensures forall j | 0 <= j < k :: buffers[j].handle != handle
    {
      for i := 0 to |buffers|
        invariant forall j | 0 <= j < i :: buffers[j].handle != handle
      {
        if buffers[i].handle == handle { return i; }
      }
      k := |buffers|;
    }
  }

  /** Where undoing a step stands: it is back to its counts, or still to be cut back. */
  ghost predicate StepRestored(j: Journal, left: set<nat>, now: Snapshot, at: Snapshot, n: nat)
    requires n < |at.before| == |at.after| && |at.before| == |now.before| == |now.after|
  {
    if n in j.steps && n !in left then
      && j.steps[n].0 <= |now.before[n]| && j.steps[n].1 <= |now.after[n]|
      && at.before[n] == now.before[n][..j.steps[n].0] && at.after[n] == now.after[n][..j.steps[n].1]
    else at.before[n] == now.before[n] && at.after[n] == now.after[n]
  }

  lemma ExtentOfBare(buffers: seq<TrackedBuffer>, e: Extent)
    ensures ExtentAccepted(Bare(buffers), e) <==> ExtentAccepted(buffers, e)
    ensures IsTracked(Bare(buffers), e.buffer) <==> IsTracked(buffers, e.buffer)
    ensures var added := TrackedBuffer(e.buffer, [], Some(e.size), e.sharing == Exclusive); Bare(buffers + [added]) == Bare(buffers) + [added]
  {
    assert forall i | 0 <= i < |buffers| :: Bare(buffers)[i].handle == buffers[i].handle;
    assert forall i | 0 <= i < |buffers| :: Bare(buffers)[i].size == buffers[i].size && Bare(buffers)[i].exclusive == buffers[i].exclusive;
  }

  /** One declaration of the list is done, and the rest follows. */
  lemma NextUse(history: seq<Use>, now: seq<Use>, bare: seq<TrackedBuffer>, declarations: seq<Declaration>, step: nat, family: nat, queue: nat)
    requires AllWide(declarations) && declarations != []
    requires var d := declarations[0];
             now == history + [UseOf(d, BufferFor(bare, d.buffer), Access(d.kind, d.scope, step, family, queue))]
    ensures var after := AfterUse(bare, declarations[0].buffer);
            history + AllUses(bare, declarations, step, family, queue) == now + AllUses(after, declarations[1..], step, family, queue)
  {
  }

  predicate Registrable(e: Extent) {
    e.buffer != NULL && e.size != 0 && e.sharing != Unknown
  }

  predicate Registers(b: TrackedBuffer, e: Extent) {
    b.size == Some(e.size) && b.exclusive == (e.sharing == Exclusive)
  }

  predicate IsTracked(buffers: seq<TrackedBuffer>, handle: nat) {
    exists k :: 0 <= k < |buffers| && buffers[k].handle == handle
  }

  predicate IsRegistered(buffers: seq<TrackedBuffer>, e: Extent) {
    exists k :: 0 <= k < |buffers| && buffers[k].handle == e.buffer && Registers(buffers[k], e)
  }

  lemma SameIdentitiesOn(a: seq<TrackedBuffer>, b: seq<TrackedBuffer>, c: seq<TrackedBuffer>)
    requires SameIdentities(a, b) && SameIdentities(b, c)
    ensures SameIdentities(a, c)
  {
  }

  lemma StillRegistered(extents: seq<Extent>, was: seq<TrackedBuffer>, now: seq<TrackedBuffer>)
    requires SameIdentities(was, now) && forall e | e in extents :: IsRegistered(was, e)
    ensures forall e | e in extents :: IsRegistered(now, e)
  {
    forall e | e in extents
      ensures IsRegistered(now, e)
    {
      var k :| 0 <= k < |was| && was[k].handle == e.buffer && Registers(was[k], e);
      assert now[k].handle == e.buffer && Registers(now[k], e);
    }
  }

  /** What the dependencies are for: every two uses of a byte that may not run side by side are a step apart or more, the earlier leading to the later. */
  lemma HazardIsOrdered(buffers: seq<TrackedBuffer>, deps: seq<Edge>, history: seq<Use>, last: nat, steps: nat, i: nat, j: nat, b: nat)
    requires Sound(buffers, deps, history, last, steps) && i < j < |history|
    requires Touches(history[i], history[j].buffer, b) && Has(history[j].range, b) && Conflict(history[i].access, history[j].access, history[j].exclusive)
    ensures Leads(deps, history[i].access.step, history[j].access.step) && history[i].access.step < history[j].access.step
  {
    assert PairOrdered(history[i], history[j], deps);
    LeadsForward(deps, history[i].access.step, history[j].access.step);
  }

  /** The use is the declaration's: of its buffer, in its step, of the bytes it names, which for the rest of a buffer is up to its registered end. */
  predicate Stands(u: Use, d: Declaration, step: nat, family: nat, queue: nat) {
    && u.buffer == d.buffer && u.access == Access(d.kind, d.scope, step, family, queue)
    && d.usageValid && u.range.begin == d.offset && Proper(u.range)
    && (d.size != WHOLE_SIZE ==> u.range.end == Some(d.offset + d.size))
  }

  lemma AcceptedStands(buffers: seq<TrackedBuffer>, steps: nat, d: Declaration, step: nat, family: nat, queue: nat)
    requires d.offset <= MAX_SIZE && d.size <= MAX_SIZE && Accepts(buffers, steps, d, Access(d.kind, d.scope, step, family, queue))
    ensures Stands(UseOf(d, BufferFor(buffers, d.buffer), Access(d.kind, d.scope, step, family, queue)), d, step, family, queue)
  {
  }

  /** An unused buffer refuses nothing. */
  lemma NothingRefused(range: Interval, v: Access)
    ensures NoConflict([], range, v) && !Undecided([], range)
  {
  }

  /** clamp_buffer_range: within the registered size, and ending at it when it has no end of its own. */
  function Clamped(range: Interval, size: Option<nat>): (r: Result<Interval>)
    requires Proper(range)
    ensures r.Err? <==> size.Some? && (range.begin >= size.value || (range.end.Some? && range.end.value > size.value))
    ensures r.Ok? ==> Proper(r.value) && forall b: nat :: Has(r.value, b) <==> Has(range, b) && (size.Some? ==> b < size.value)
  {
    if size.None? then Ok(range)
    else if range.begin >= size.value || (range.end.Some? && range.end.value > size.value) then Err
    else Ok(Interval(range.begin, if range.end.None? then size else range.end))
  }

  /** The range a declaration of this buffer stands for. */
  function RangeOf(d: Declaration, size: Option<nat>): (r: Result<Interval>)
    requires d.offset <= MAX_SIZE && d.size <= MAX_SIZE
    ensures r.Ok? ==> Proper(r.value)
  {
    var normal := Normalize(d.offset, d.size);
    if normal.Err? then Err else Clamped(normal.value, size)
  }

  /** The buffer as it is tracked, or as it would be from now on: without a size, and exclusive. */
  function BufferFor(buffers: seq<TrackedBuffer>, handle: nat): (b: TrackedBuffer)
    ensures b.handle == handle
  {
    if buffers == [] then TrackedBuffer(handle, [], None, true)
    else if buffers[0].handle == handle then buffers[0]
    else BufferFor(buffers[1..], handle)
  }

  lemma {:induction false} BufferForFound(buffers: seq<TrackedBuffer>, handle: nat, k: nat)
    requires k <= |buffers| && (forall j | 0 <= j < k :: buffers[j].handle != handle) && (k < |buffers| ==> buffers[k].handle == handle)
    ensures BufferFor(buffers, handle) == if k < |buffers| then buffers[k] else TrackedBuffer(handle, [], None, true)
  {
    if buffers != [] && k > 0 {
      BufferForFound(buffers[1..], handle, k - 1);
    }
  }

  /** The use an accepted declaration stands for. */
  function UseOf(d: Declaration, tracked: TrackedBuffer, v: Access): Use
    requires d.offset <= MAX_SIZE && d.size <= MAX_SIZE
  {
    var range := RangeOf(d, tracked.size);
    Use(d.buffer, if range.Ok? then range.value else Interval(0, None), v, tracked.exclusive)
  }

  /** Cut along the used range, each overlapped part got its barriers. */
  ghost predicate Synchronized(regions: seq<Region>, u: Use, before: seq<seq<Barrier>>, nowBefore: seq<seq<Barrier>>,
                               after: seq<seq<Barrier>>, nowAfter: seq<seq<Barrier>>)
  {
    u.access.step < |before| && exists parts :: CutFor(parts, regions, u) && nowBefore == Appended(before, u.access.step, Barriers(parts, u))
                                                && nowAfter == Released(after, parts, u)
  }

  ghost predicate CutFor(parts: seq<Region>, regions: seq<Region>, u: Use) {
    Cut(regions, parts, u.range) && SameBytes(regions, parts, u.range)
  }

  /** Tracked buffers stay where they are, with the size and sharing they had; only their regions change, and more may follow. */
  predicate SameIdentities(old_: seq<TrackedBuffer>, now: seq<TrackedBuffer>) {
    |old_| <= |now| && forall i | 0 <= i < |old_| :: now[i] == old_[i].(regions := now[i].regions)
  }

  /** When a declaration is accepted. */
  predicate Accepts(buffers: seq<TrackedBuffer>, steps: nat, d: Declaration, v: Access)
    requires d.offset <= MAX_SIZE && d.size <= MAX_SIZE
  {
    var tracked := BufferFor(buffers, d.buffer);
    var range := RangeOf(d, tracked.size);
    && d.buffer != NULL && v.step < steps && d.usageValid && range.Ok?
    && NoConflict(tracked.regions, range.value, v) && !Undecided(tracked.regions, range.value)
  }

  /** No overlapped region refuses the use. */
  predicate NoConflict(regions: seq<Region>, range: Interval, v: Access) {
    forall i | 0 <= i < |regions| && Overlaps(regions[i].range, range) :: !Rejected(regions[i].state, v)
  }

  /** The overlapped regions advanced, each with its dependencies recorded; the others untouched. */
  ghost predicate AdvancedRegions(parts: seq<Region>, advanced: seq<Region>, u: Use, deps: seq<Edge>) {
    |advanced| == |parts| && forall i | 0 <= i < |parts| :: AdvancedRegion(parts[i], advanced[i], u, deps)
  }

  ghost predicate AdvancedRegion(part: Region, advanced: Region, u: Use, deps: seq<Edge>) {
    if Overlaps(part.range, u.range) then
      advanced == part.(state := Advance(part.state, u.access, u.exclusive)) && Added(EdgesOf(part.state, u.access, u.exclusive), deps)
    else advanced == part
  }

  lemma NoneAdvanced(parts: seq<Region>, u: Use, deps: seq<Edge>)
    ensures AdvancedRegions(parts[..0], [], u, deps)
  {
  }

  lemma OneMoreRegion(parts: seq<Region>, i: nat, advanced: seq<Region>, next: Region, u: Use, deps: seq<Edge>, more: seq<Edge>)
    requires i < |parts| && AdvancedRegions(parts[..i], advanced, u, deps) && deps <= more
    requires AdvancedRegion(parts[i], next, u, more)
    ensures AdvancedRegions(parts[..i + 1], advanced + [next], u, more)
  {
    var now := advanced + [next];
    forall k | 0 <= k < i + 1
      ensures AdvancedRegion(parts[..i + 1][k], now[k], u, more)
    {
      if k < i {
        assert AdvancedRegion(parts[..i][k], advanced[k], u, deps);
        assert parts[..i + 1][k] == parts[k] == parts[..i][k];
      }
    }
  }

  lemma FrontierStaysOk(s: State, exclusive: bool, deps: seq<Edge>, more: seq<Edge>, last: nat)
    requires Forward(deps) && Forward(more) && deps <= more && FrontierOk(s, exclusive, deps, last)
    ensures FrontierOk(s, exclusive, more, last)
  {
    forall i | 0 <= i < |s.accesses.readers|
      ensures ReaderOk(s.accesses.readers[i], s, exclusive, more, last)
    {
      assert ReaderOk(s.accesses.readers[i], s, exclusive, deps, last);
      if s.accesses.anchor.Some? {
        LeadsMore(deps, more, s.accesses.anchor.value.step, s.accesses.readers[i].step);
      }
    }
  }

  /** The regions after partitioning, as the loop over them needs to know them. */
  predicate Cut(regions: seq<Region>, parts: seq<Region>, range: Interval)
  {
    Ordered(regions) && Ordered(parts) && CutAt(parts, range)
  }

  ghost predicate SameBytes(regions: seq<Region>, parts: seq<Region>, range: Interval) {
    forall b: nat :: At(parts, b) == Opened(At(regions, b), Has(range, b))
  }

  lemma PartsAreOk(history: seq<Use>, buffer: TrackedBuffer, parts: seq<Region>, range: Interval, deps: seq<Edge>, last: nat)
    requires Forward(deps) && BufferOk(history, buffer, deps, last) && Proper(range)
    requires Cut(buffer.regions, parts, range) && SameBytes(buffer.regions, parts, range)
    ensures forall i | 0 <= i < |parts| && Overlaps(parts[i].range, range) :: FrontierOk(parts[i].state, buffer.exclusive, deps, last)
  {
    forall i | 0 <= i < |parts| && Overlaps(parts[i].range, range)
      ensures FrontierOk(parts[i].state, buffer.exclusive, deps, last)
    {
      var b := parts[i].range.begin;
      assert Proper(parts[i].range);
      AtRegion(parts, i, b);
      assert At(parts, b) == Opened(At(buffer.regions, b), Has(range, b));
      assert ByteOk(history, buffer.handle, b, At(buffer.regions, b), buffer.exclusive, deps, last);
    }
  }

  lemma AdvancedIsOrdered(parts: seq<Region>, advanced: seq<Region>, u: Use, deps: seq<Edge>)
    requires Ordered(parts) && AdvancedRegions(parts, advanced, u, deps)
    ensures Ordered(advanced)
  {
    forall i | 0 <= i < |advanced|
      ensures advanced[i].range == parts[i].range && Proper(advanced[i].range)
    {
      assert AdvancedRegion(parts[i], advanced[i], u, deps) && Proper(parts[i].range);
    }
    forall i, j | 0 <= i < j < |advanced|
      ensures Precedes(advanced[i].range, advanced[j].range)
    {
      assert Precedes(parts[i].range, parts[j].range);
    }
  }

  /** Cutting, advancing and merging together are one use of every byte of the range. */
  lemma AdvancedIsUsed(regions: seq<Region>, parts: seq<Region>, advanced: seq<Region>, merged: seq<Region>, u: Use, deps: seq<Edge>)
    requires Cut(regions, parts, u.range) && SameBytes(regions, parts, u.range) && Proper(u.range)
    requires AdvancedRegions(parts, advanced, u, deps) && NoConflict(regions, u.range, u.access)
    requires Ordered(merged) && Unmergeable(merged) && forall b: nat :: At(merged, b) == At(advanced, b)
    ensures Used(regions, merged, u, deps)
  {
    hide Advance, EdgesOf, Added;
    AdvancedIsOrdered(parts, advanced, u, deps);
    forall b: nat
      ensures At(merged, b) == if Has(u.range, b) then Some(Advance(OpenState(regions, b), u.access, u.exclusive)) else At(regions, b)
      ensures Has(u.range, b) ==> ByteUsed(regions, b, u, deps)
    {
      AdvancedByte(regions, parts, advanced, u, deps, b);
    }
  }

  lemma AdvancedByte(regions: seq<Region>, parts: seq<Region>, advanced: seq<Region>, u: Use, deps: seq<Edge>, b: nat)
    requires Cut(regions, parts, u.range) && SameBytes(regions, parts, u.range) && Proper(u.range) && Ordered(advanced)
    requires AdvancedRegions(parts, advanced, u, deps) && NoConflict(regions, u.range, u.access)
    ensures At(advanced, b) == if Has(u.range, b) then Some(Advance(OpenState(regions, b), u.access, u.exclusive)) else At(regions, b)
    ensures Has(u.range, b) ==> ByteUsed(regions, b, u, deps)
  {
    hide Advance, EdgesOf, Added, Rejected;
    assert At(parts, b) == Opened(At(regions, b), Has(u.range, b));
    if At(parts, b).Some? {
      var i := AtFound(parts, b);
      assert AdvancedRegion(parts[i], advanced[i], u, deps);
      assert Inside(parts[i].range, u.range) || !Overlaps(parts[i].range, u.range);
      if Has(u.range, b) {
        OverlapIsSharedByte(parts[i].range, u.range);
        UnrejectedByte(regions, u, b);
      }
      AtRegion(advanced, i, b);
    } else {
      forall i | 0 <= i < |advanced|
        ensures !Has(advanced[i].range, b)
      {
        assert AdvancedRegion(parts[i], advanced[i], u, deps);
        if Has(parts[i].range, b) { AtRegion(parts, i, b); }
      }
      AtNowhere(advanced, b);
    }
  }

  lemma UnrejectedByte(regions: seq<Region>, u: Use, b: nat)
    requires Ordered(regions) && NoConflict(regions, u.range, u.access) && Has(u.range, b) && Proper(u.range)
    ensures !Rejected(OpenState(regions, b), u.access)
  {
    if At(regions, b).Some? {
      var i := AtFound(regions, b);
      assert Proper(regions[i].range);
      OverlapIsSharedByte(regions[i].range, u.range);
    }
  }
}
