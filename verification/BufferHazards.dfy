/**
 Why the frontier kept for a byte is enough: the buffer half of
 include/vkexec/detail/resource_state_tracker.hpp, one byte at a time.
 */
module BufferHazards {
  import opened Optional
  import opened ResourceRanges
  import opened BufferRegions
  import opened Dependencies

  /** A use of a range of a buffer, and whether the buffer is shared exclusively. */
  datatype Use = Use(buffer: nat, range: Interval, access: Access, exclusive: bool)

  predicate Touches(u: Use, buffer: nat, b: nat) {
    u.buffer == buffer && Has(u.range, b)
  }

  /** Two uses of a byte that may not run side by side: one writes, or ownership has to move between families. */
  predicate Conflict(a: Access, v: Access, exclusive: bool) {
    a.kind != Read || v.kind != Read || (exclusive && a.family != v.family)
  }

  predicate IsUnused(s: State) {
    s.accesses.anchor.None? && s.accesses.readers == []
  }

  predicate Transfers(s: State, v: Access, exclusive: bool) {
    exclusive && s.family != v.family
  }

  /** A read that joins the readers already there. */
  predicate JoinsReaders(s: State, v: Access, exclusive: bool) {
    v.kind == Read && !Transfers(s, v, exclusive)
  }

  /** advance_buffer_region: the state after one more use. */
  function Advance(s: State, v: Access, exclusive: bool): State {
    if IsUnused(s) then State(v.family, if v.kind == Read then Frontier(None, [v]) else Frontier(Some(v), []))
    else if JoinsReaders(s, v, exclusive) then
      s.(accesses := s.accesses.(readers := if v in s.accesses.readers then s.accesses.readers else s.accesses.readers + [v]))
    else State(v.family, Frontier(Some(v), []))
  }

  function EdgesTo(readers: seq<Access>, step: nat): (edges: seq<Edge>)
    ensures |edges| == |readers| && forall i | 0 <= i < |readers| :: edges[i] == (readers[i].step, step)
  {
    seq(|readers|, i requires 0 <= i < |readers| => (readers[i].step, step))
  }

  /** depend_on_frontier. */
  function DependOn(f: Frontier, step: nat): seq<Edge> {
    if f.readers != [] then EdgesTo(f.readers, step)
    else if f.anchor.Some? then [(f.anchor.value.step, step)]
    else []
  }

  /** The dependencies the use adds; an ownership transfer also gathers the readers at the last of them. */
  function EdgesOf(s: State, v: Access, exclusive: bool): seq<Edge> {
    var f := s.accesses;
    if IsUnused(s) then []
    else if JoinsReaders(s, v, exclusive) then
      if f.anchor.Some? then [(f.anchor.value.step, v.step)] else []
    else
      DependOn(f, v.step)
      + if Transfers(s, v, exclusive) && f.readers != [] then EdgesTo(f.readers, f.readers[|f.readers| - 1].step) else []
  }

  /** validate_buffer_use_conflicts, for one region: a second use in the same step that is not the same kind of read. */
  predicate Rejected(s: State, v: Access) {
    || (s.accesses.anchor.Some? && s.accesses.anchor.value.step == v.step)
    || exists i :: 0 <= i < |s.accesses.readers| && Clashes(s.accesses.readers[i], v)
  }

  predicate Clashes(r: Access, v: Access) {
    r.step == v.step && (r.kind != Read || v.kind != Read || r.family != v.family || r.queue != v.queue)
  }

  predicate Added(edges: seq<Edge>, deps: seq<Edge>) {
    forall k | 0 <= k < |edges| && edges[k].0 != edges[k].1 :: edges[k] in deps
  }

  // ------------------------------------------------------------ invariant

  ghost predicate Reaches(deps: seq<Edge>, i: nat, j: nat)
    requires Forward(deps)
  {
    i == j || Leads(deps, i, j)
  }

  /** The readers are reads of one family after the anchor, in step order. */
  ghost predicate FrontierOk(s: State, exclusive: bool, deps: seq<Edge>, last: nat)
    requires Forward(deps)
  {
    var f := s.accesses;
    && (forall i | 0 <= i < |f.readers| :: ReaderOk(f.readers[i], s, exclusive, deps, last))
    && (forall i, j | 0 <= i < j < |f.readers| :: f.readers[i].step <= f.readers[j].step)
    && (f.anchor.Some? ==> f.anchor.value.step <= last)
  }

  ghost predicate ReaderOk(r: Access, s: State, exclusive: bool, deps: seq<Edge>, last: nat)
    requires Forward(deps)
  {
    && r.kind == Read && r.step <= last && (exclusive ==> r.family == s.family)
    && (s.accesses.anchor.Some? ==> Leads(deps, s.accesses.anchor.value.step, r.step))
  }

  /** An earlier use is ordered before everything to come by the anchor, or is a read among the readers. */
  ghost predicate Known(a: Access, s: State, exclusive: bool, deps: seq<Edge>)
    requires Forward(deps)
  {
    || (s.accesses.anchor.Some? && Reaches(deps, a.step, s.accesses.anchor.value.step))
    || (a.kind == Read && (exclusive ==> a.family == s.family) && exists i :: 0 <= i < |s.accesses.readers| && s.accesses.readers[i].step == a.step)
  }

  /** The accesses to one byte, in order. */
  function Accesses(history: seq<Use>, buffer: nat, b: nat): seq<Access> {
    if history == [] then []
    else
      var u := history[|history| - 1];
      Accesses(history[..|history| - 1], buffer, b) + if Touches(u, buffer, b) then [u.access] else []
  }

  /** The state a byte is left in by these accesses. */
  function Replay(vs: seq<Access>, exclusive: bool): State {
    if vs == [] then UNUSED else Advance(Replay(vs[..|vs| - 1], exclusive), vs[|vs| - 1], exclusive)
  }

  /** Every access was accepted, with its dependencies. */
  ghost predicate Kept(vs: seq<Access>, exclusive: bool, deps: seq<Edge>) {
    forall k | 0 <= k < |vs| :: KeptAt(vs, exclusive, deps, k)
  }

  ghost predicate KeptAt(vs: seq<Access>, exclusive: bool, deps: seq<Edge>, k: nat)
    requires k < |vs|
  {
    var s := Replay(vs[..k], exclusive);
    !Rejected(s, vs[k]) && Added(EdgesOf(s, vs[k], exclusive), deps)
  }

  /** What is tracked for a byte is what its accesses leave. */
  ghost predicate Replays(history: seq<Use>, buffer: nat, b: nat, state: Option<State>, exclusive: bool, deps: seq<Edge>) {
    var vs := Accesses(history, buffer, b);
    state == (if vs == [] then None else Some(Replay(vs, exclusive))) && Kept(vs, exclusive, deps)
  }

  /** What is tracked for a byte accounts for every use of it so far. */
  ghost predicate ByteOk(history: seq<Use>, buffer: nat, b: nat, state: Option<State>, exclusive: bool, deps: seq<Edge>, last: nat)
    requires Forward(deps)
  {
    Replays(history, buffer, b, state, exclusive, deps) &&
    match state
    case None => forall i | 0 <= i < |history| :: !Touches(history[i], buffer, b)
    case Some(s) =>
      && FrontierOk(s, exclusive, deps, last)
      && forall i | 0 <= i < |history| && Touches(history[i], buffer, b) :: Known(history[i].access, s, exclusive, deps)
  }

  // ---------------------------------------------------------- one use more

  lemma ReachesMore(deps: seq<Edge>, more: seq<Edge>, i: nat, j: nat)
    requires Forward(deps) && Forward(more) && deps <= more && Reaches(deps, i, j)
    ensures Reaches(more, i, j)
  {
    if i != j {
      LeadsMore(deps, more, i, j);
    }
  }

  lemma ReachThenEdge(deps: seq<Edge>, h: nat, i: nat, j: nat)
    requires Forward(deps) && Reaches(deps, h, i) && (i, j) in deps
    ensures Leads(deps, h, j)
  {
    EdgeLeads(deps, i, j);
    if h != i {
      LeadsOn(deps, h, i, j);
    }
  }

  lemma MoreDependenciesReplay(vs: seq<Access>, exclusive: bool, deps: seq<Edge>, more: seq<Edge>)
    requires deps <= more && Kept(vs, exclusive, deps)
    ensures Kept(vs, exclusive, more)
  {
    forall k | 0 <= k < |vs|
      ensures KeptAt(vs, exclusive, more, k)
    {
      assert KeptAt(vs, exclusive, deps, k);
    }
  }

  /** One more access is one more advance. */
  lemma ReplayMore(vs: seq<Access>, v: Access, exclusive: bool, deps: seq<Edge>)
    requires Kept(vs, exclusive, deps)
    requires var s := Replay(vs, exclusive); !Rejected(s, v) && Added(EdgesOf(s, v, exclusive), deps)
    ensures Kept(vs + [v], exclusive, deps) && Replay(vs + [v], exclusive) == Advance(Replay(vs, exclusive), v, exclusive)
  {
    assert (vs + [v])[..|vs|] == vs;
    forall k | 0 <= k < |vs + [v]|
      ensures KeptAt(vs + [v], exclusive, deps, k)
    {
      if k < |vs| {
        assert KeptAt(vs, exclusive, deps, k);
        assert (vs + [v])[..k] == vs[..k];
      }
    }
  }

  lemma AccessesMore(history: seq<Use>, u: Use, buffer: nat, b: nat)
    ensures Accesses(history + [u], buffer, b) == Accesses(history, buffer, b) + if Touches(u, buffer, b) then [u.access] else []
  {
    assert (history + [u])[..|history|] == history;
  }

  lemma {:induction false} NoAccesses(history: seq<Use>, buffer: nat, b: nat)
    requires forall i | 0 <= i < |history| :: !Touches(history[i], buffer, b)
    ensures Accesses(history, buffer, b) == []
  {
    if history != [] { NoAccesses(history[..|history| - 1], buffer, b); }
  }

  /** The accesses of a byte are those of the uses that touch it. */
  lemma {:induction false} UseReplays(history: seq<Use>, u: Use, b: nat, state: Option<State>, deps: seq<Edge>)
    requires Replays(history, u.buffer, b, state, u.exclusive, deps) && Has(u.range, b)
    requires var s := Opened(state, true).value; !Rejected(s, u.access) && Added(EdgesOf(s, u.access, u.exclusive), deps)
    ensures Replays(history + [u], u.buffer, b, Some(Advance(Opened(state, true).value, u.access, u.exclusive)), u.exclusive, deps)
  {
    AccessesMore(history, u, u.buffer, b);
    ReplayMore(Accesses(history, u.buffer, b), u.access, u.exclusive, deps);
  }

  /** Dependencies added elsewhere, and time passing, take nothing away. */
  lemma MoreDependenciesKeepByte(history: seq<Use>, buffer: nat, b: nat, state: Option<State>, exclusive: bool,
                                 deps: seq<Edge>, more: seq<Edge>, last: nat, later: nat)
    requires Forward(deps) && Forward(more) && deps <= more && last <= later
    requires ByteOk(history, buffer, b, state, exclusive, deps, last)
    ensures ByteOk(history, buffer, b, state, exclusive, more, later)
  {
    MoreDependenciesReplay(Accesses(history, buffer, b), exclusive, deps, more);
    hide Kept, Replay, Accesses;
    if state.Some? {
      var s := state.value;
      forall i | 0 <= i < |s.accesses.readers|
        ensures ReaderOk(s.accesses.readers[i], s, exclusive, more, later)
      {
        assert ReaderOk(s.accesses.readers[i], s, exclusive, deps, last);
        if s.accesses.anchor.Some? {
          LeadsMore(deps, more, s.accesses.anchor.value.step, s.accesses.readers[i].step);
        }
      }
      forall i | 0 <= i < |history| && Touches(history[i], buffer, b)
        ensures Known(history[i].access, s, exclusive, more)
      {
        var a := history[i].access;
        assert Known(a, s, exclusive, deps);
        if s.accesses.anchor.Some? && Reaches(deps, a.step, s.accesses.anchor.value.step) {
          ReachesMore(deps, more, a.step, s.accesses.anchor.value.step);
        }
      }
    }
  }

  /** A conflicting earlier use leads to the new one. */
  lemma ConflictIsOrdered(a: Access, s: State, v: Access, exclusive: bool, deps: seq<Edge>, last: nat)
    requires Forward(deps) && FrontierOk(s, exclusive, deps, last) && Known(a, s, exclusive, deps)
    requires Added(EdgesOf(s, v, exclusive), deps) && !Rejected(s, v)
    requires Conflict(a, v, exclusive) || !JoinsReaders(s, v, exclusive)
    ensures Leads(deps, a.step, v.step)
  {
    var f, edges := s.accesses, EdgesOf(s, v, exclusive);
    if f.anchor.Some? && Reaches(deps, a.step, f.anchor.value.step) {
      var anchor := f.anchor.value;
      if JoinsReaders(s, v, exclusive) || f.readers == [] {
        assert edges[0] == (anchor.step, v.step);
        ReachThenEdge(deps, a.step, anchor.step, v.step);
      } else {
        var r := f.readers[0];
        assert ReaderOk(r, s, exclusive, deps, last);
        ReaderLeads(s, v, exclusive, deps, 0);
        if a.step != anchor.step { LeadsOn(deps, a.step, anchor.step, r.step); }
        LeadsOn(deps, a.step, r.step, v.step);
      }
    } else {
      var i :| 0 <= i < |f.readers| && f.readers[i].step == a.step;
      assert ReaderOk(f.readers[i], s, exclusive, deps, last);
      ReaderLeads(s, v, exclusive, deps, i);
    }
  }

  lemma ReaderLeads(s: State, v: Access, exclusive: bool, deps: seq<Edge>, i: nat)
    requires Forward(deps) && Added(EdgesOf(s, v, exclusive), deps) && !Rejected(s, v) && !JoinsReaders(s, v, exclusive)
    requires i < |s.accesses.readers| && s.accesses.readers[i].kind == Read && (exclusive ==> s.accesses.readers[i].family == s.family)
    ensures Leads(deps, s.accesses.readers[i].step, v.step)
  {
    var r := s.accesses.readers[i];
    assert !Clashes(r, v);
    assert r.step != v.step;
    assert EdgesOf(s, v, exclusive)[i] == (r.step, v.step);
    EdgeLeads(deps, r.step, v.step);
  }

  /** After the use the frontier is in order again. */
  lemma AdvanceKeepsFrontier(s: State, v: Access, exclusive: bool, deps: seq<Edge>, last: nat)
    requires Forward(deps) && FrontierOk(s, exclusive, deps, last) && last <= v.step
    requires Added(EdgesOf(s, v, exclusive), deps) && !Rejected(s, v)
    ensures FrontierOk(Advance(s, v, exclusive), exclusive, deps, v.step)
  {
    var t := Advance(s, v, exclusive);
    if !IsUnused(s) && JoinsReaders(s, v, exclusive) {
      var f := s.accesses;
      if f.anchor.Some? {
        assert EdgesOf(s, v, exclusive)[0] == (f.anchor.value.step, v.step);
        EdgeLeads(deps, f.anchor.value.step, v.step);
      }
      forall i | 0 <= i < |t.accesses.readers|
        ensures ReaderOk(t.accesses.readers[i], t, exclusive, deps, v.step)
      {
        if i < |f.readers| {
          assert ReaderOk(f.readers[i], s, exclusive, deps, last);
        }
      }
      forall i, j | 0 <= i < j < |t.accesses.readers|
        ensures t.accesses.readers[i].step <= t.accesses.readers[j].step
      {
        assert ReaderOk(f.readers[i], s, exclusive, deps, last);
      }
    }
  }

  /** An earlier use is still accounted for. */
  lemma AdvanceKeepsKnown(a: Access, s: State, v: Access, exclusive: bool, deps: seq<Edge>, last: nat)
    requires Forward(deps) && FrontierOk(s, exclusive, deps, last) && last <= v.step && !IsUnused(s)
    requires Added(EdgesOf(s, v, exclusive), deps) && !Rejected(s, v) && Known(a, s, exclusive, deps)
    ensures Known(a, Advance(s, v, exclusive), exclusive, deps)
  {
    var t := Advance(s, v, exclusive);
    if JoinsReaders(s, v, exclusive) {
      if !(s.accesses.anchor.Some? && Reaches(deps, a.step, s.accesses.anchor.value.step)) {
        var i :| 0 <= i < |s.accesses.readers| && s.accesses.readers[i].step == a.step;
        assert t.accesses.readers[i].step == a.step;
      }
    } else {
      ConflictIsOrdered(a, s, v, exclusive, deps, last);
    }
  }

  /** The new use is accounted for by the state it leaves. */
  lemma AdvanceKnowsNewUse(s: State, v: Access, exclusive: bool, deps: seq<Edge>)
    requires Forward(deps)
    ensures Known(v, Advance(s, v, exclusive), exclusive, deps)
  {
    var t := Advance(s, v, exclusive);
    if v.kind == Read && (IsUnused(s) || JoinsReaders(s, v, exclusive)) {
      var readers := t.accesses.readers;
      assert v in readers by { if v !in s.accesses.readers { assert readers[|readers| - 1] == v; } }
      var i :| 0 <= i < |readers| && readers[i] == v;
    }
  }

  lemma KnownIsUsed(a: Access, s: State, exclusive: bool, deps: seq<Edge>)
    requires Forward(deps) && Known(a, s, exclusive, deps)
    ensures !IsUnused(s)
  {
  }

  lemma NothingKnown(exclusive: bool, deps: seq<Edge>, last: nat)
    requires Forward(deps)
    ensures FrontierOk(UNUSED, exclusive, deps, last)
  {
  }

  lemma EarlierUseStaysKnown(a: Access, s: State, v: Access, exclusive: bool, deps: seq<Edge>, last: nat)
    requires Forward(deps) && FrontierOk(s, exclusive, deps, last) && last <= v.step
    requires Added(EdgesOf(s, v, exclusive), deps) && !Rejected(s, v) && Known(a, s, exclusive, deps)
    ensures Known(a, Advance(s, v, exclusive), exclusive, deps)
    ensures Conflict(a, v, exclusive) ==> Leads(deps, a.step, v.step)
  {
    KnownIsUsed(a, s, exclusive, deps);
    AdvanceKeepsKnown(a, s, v, exclusive, deps, last);
    if Conflict(a, v, exclusive) {
      ConflictIsOrdered(a, s, v, exclusive, deps, last);
    }
  }

  /**
   One more use of a byte: what is tracked still accounts for every use, and
   every earlier use in conflict with the new one leads to it.
   */
  lemma UseKeepsByte(history: seq<Use>, u: Use, b: nat, state: Option<State>, deps: seq<Edge>, more: seq<Edge>, last: nat)
    requires Forward(deps) && Forward(more) && deps <= more && last <= u.access.step && Has(u.range, b)
    requires ByteOk(history, u.buffer, b, state, u.exclusive, deps, last)
    requires var s := Opened(state, true).value;
             !Rejected(s, u.access) && Added(EdgesOf(s, u.access, u.exclusive), more)
    ensures ByteOk(history + [u], u.buffer, b, Some(Advance(Opened(state, true).value, u.access, u.exclusive)), u.exclusive, more, u.access.step)
    ensures forall i | 0 <= i < |history| && Touches(history[i], u.buffer, b) && Conflict(history[i].access, u.access, u.exclusive) ::
              Leads(more, history[i].access.step, u.access.step)
  {
    hide Accesses, Replay, Kept, Replays, Known, FrontierOk, Advance, Conflict, Rejected, EdgesOf, Added, Forward, Leads, Has;
    var s, v := Opened(state, true).value, u.access;
    MoreDependenciesKeepByte(history, u.buffer, b, state, u.exclusive, deps, more, last, last);
    UseReplays(history, u, b, state, more);
    NothingKnown(u.exclusive, more, last);
    AdvanceKeepsFrontier(s, v, u.exclusive, more, last);
    AdvanceKnowsNewUse(s, v, u.exclusive, more);
    forall i | 0 <= i < |history| && Touches(history[i], u.buffer, b)
      ensures Known(history[i].access, Advance(s, v, u.exclusive), u.exclusive, more)
      ensures Conflict(history[i].access, v, u.exclusive) ==> Leads(more, history[i].access.step, v.step)
    {
      var a := history[i].access;
      assert state.Some? && Known(a, s, u.exclusive, more);
      EarlierUseStaysKnown(a, s, v, u.exclusive, more, last);
    }
    var after := history + [u];
    forall i | 0 <= i < |after| && Touches(after[i], u.buffer, b)
      ensures Known(after[i].access, Advance(s, v, u.exclusive), u.exclusive, more)
    {
      assert i < |history| ==> after[i] == history[i];
    }
  }

  /** A use of other bytes leaves this byte's account as it is. */
  lemma OtherUseKeepsByte(history: seq<Use>, u: Use, buffer: nat, b: nat, state: Option<State>, exclusive: bool,
                          deps: seq<Edge>, more: seq<Edge>, last: nat, later: nat)
    requires Forward(deps) && Forward(more) && deps <= more && last <= later && !Touches(u, buffer, b)
    requires ByteOk(history, buffer, b, state, exclusive, deps, last)
    ensures ByteOk(history + [u], buffer, b, state, exclusive, more, later)
  {
    MoreDependenciesKeepByte(history, buffer, b, state, exclusive, deps, more, last, later);
    AccessesMore(history, u, buffer, b);
    assert Accesses(history, buffer, b) + [] == Accesses(history, buffer, b);
    hide Known, FrontierOk, Accesses, Replay, Kept;
    var after := history + [u];
    assert forall i | 0 <= i < |after| && Touches(after[i], buffer, b) :: i < |history| && after[i] == history[i];
  }

  // ------------------------------------------- no dependency without cause

  ghost predicate ShareByte(u: Use, w: Use) {
    u.buffer == w.buffer && exists b: nat :: Has(u.range, b) && Has(w.range, b)
  }

  /** The dependency is from the step of one use to that of another, and both use some byte. */
  ghost predicate JoinedBy(e: Edge, u: Use, w: Use) {
    u.access.step == e.0 && w.access.step == e.1 && ShareByte(u, w)
  }

  ghost predicate Joined(e: Edge, history: seq<Use>) {
    exists i, j :: 0 <= i < |history| && 0 <= j < |history| && JoinedBy(e, history[i], history[j])
  }

  /** Steps depend on one another only for a byte they both use. */
  ghost predicate Justified(history: seq<Use>, deps: seq<Edge>) {
    forall e | e in deps :: Joined(e, history)
  }

  lemma JoinedMore(e: Edge, history: seq<Use>, u: Use)
    requires Joined(e, history)
    ensures Joined(e, history + [u])
  {
    var i, j :| 0 <= i < |history| && 0 <= j < |history| && JoinedBy(e, history[i], history[j]);
    assert (history + [u])[i] == history[i] && (history + [u])[j] == history[j];
  }

  lemma {:induction false} ReplayedAre(vs: seq<Access>, exclusive: bool)
    ensures var f := Replay(vs, exclusive).accesses;
            (f.anchor.Some? ==> f.anchor.value in vs) && forall r | r in f.readers :: r in vs
  {
    if vs != [] {
      ReplayedAre(vs[..|vs| - 1], exclusive);
      assert vs == vs[..|vs| - 1] + [vs[|vs| - 1]];
    }
  }

  lemma {:induction false} AccessIsOfUse(history: seq<Use>, buffer: nat, b: nat, a: Access)
    requires a in Accesses(history, buffer, b)
    ensures exists i :: 0 <= i < |history| && Touches(history[i], buffer, b) && history[i].access == a
  {
    var n := |history| - 1;
    if Touches(history[n], buffer, b) && history[n].access == a {
    } else {
      AccessIsOfUse(history[..n], buffer, b, a);
      var i :| 0 <= i < n && Touches(history[..n][i], buffer, b) && history[..n][i].access == a;
      assert history[i] == history[..n][i];
    }
  }

  lemma EdgeEnds(s: State, v: Access, exclusive: bool, e: Edge) returns (from: Access, to: Access)
    requires e in EdgesOf(s, v, exclusive)
    ensures from.step == e.0 && (from in s.accesses.readers || s.accesses.anchor == Some(from))
    ensures to.step == e.1 && (to in s.accesses.readers || to == v)
  {
    var f := s.accesses;
    to := if e.1 == v.step then v else f.readers[|f.readers| - 1];
    if f.anchor.Some? && f.anchor.value.step == e.0 {
      from := f.anchor.value;
    } else {
      var i :| 0 <= i < |f.readers| && f.readers[i].step == e.0;
      from := f.readers[i];
    }
  }

  /** What a use depends on used the byte before it. */
  lemma EdgeIsJoined(history: seq<Use>, u: Use, b: nat, state: Option<State>, deps: seq<Edge>, e: Edge)
    requires Replays(history, u.buffer, b, state, u.exclusive, deps) && Has(u.range, b)
    requires e in EdgesOf(Opened(state, true).value, u.access, u.exclusive)
    ensures Joined(e, history + [u])
  {
    var vs, after := Accesses(history, u.buffer, b), history + [u];
    ReplayedAre(vs, u.exclusive);
    var from, to := EdgeEnds(Opened(state, true).value, u.access, u.exclusive, e);
    hide EdgesOf, Accesses, Replay, Kept;
    AccessIsOfUse(history, u.buffer, b, from);
    var i :| 0 <= i < |history| && Touches(history[i], u.buffer, b) && history[i].access == from;
    assert after[i] == history[i] && after[|history|] == u;
    if to != u.access {
      AccessIsOfUse(history, u.buffer, b, to);
      var j :| 0 <= j < |history| && Touches(history[j], u.buffer, b) && history[j].access == to;
      assert after[j] == history[j] && JoinedBy(e, after[i], after[j]);
    } else {
      assert JoinedBy(e, after[i], after[|history|]);
    }
  }
}
