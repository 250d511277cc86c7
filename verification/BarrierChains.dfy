/**
 Whether the barriers recorded for a byte of a buffer are enough: between two
 conflicting uses there has to be a chain of barriers, of transfers of ownership
 that reach both sides, and of semaphores between queues.
 */
module BarrierChains {
  import opened Optional
  import opened ResourceRanges
  import opened BufferRegions
  import opened BufferHazards
  import opened Dependencies
  import opened TrackedBuffers
  import opened ResourceStateTracker

  /** The barrier the k-th access to a byte got before its step: it waits for earlier ones, or acquires the byte. */
  function Guard(vs: seq<Access>, exclusive: bool, k: nat): Option<Barrier>
    requires k < |vs|
  {
    BarrierBefore(Replay(vs[..k], exclusive), vs[k], exclusive, NULL, Interval(0, None))
  }

  /** The release that goes with it if it acquires the byte. */
  function Release(vs: seq<Access>, exclusive: bool, k: nat): Option<Barrier>
    requires k < |vs|
  {
    BarrierAfter(Replay(vs[..k], exclusive), vs[k], exclusive, NULL, Interval(0, None))
  }

  predicate Joins(vs: seq<Access>, exclusive: bool, k: nat)
    requires k < |vs|
  {
    JoinsReaders(Replay(vs[..k], exclusive), vs[k], exclusive)
  }

  /** The k-th access takes the byte over from another family. */
  predicate Moves(vs: seq<Access>, exclusive: bool, k: nat)
    requires k < |vs|
  {
    Transfers(Replay(vs[..k], exclusive), vs[k], exclusive)
  }

  /** Nothing but a barrier comes between two accesses on one queue in one family. */
  predicate Together(a: Access, v: Access, exclusive: bool) {
    SameQueue(a, v.queue) && (exclusive ==> a.family == v.family)
  }

  /**
   What is recorded for the t-th access waits for the i-th. If that is of another
   family, the step after which the byte is released is reached by it, and the
   release covers it if they share a queue.
   */
  ghost predicate WaitsFor(vs: seq<Access>, exclusive: bool, deps: seq<Edge>, i: nat, t: nat)
    requires i < t < |vs| && Forward(deps)
  {
    if exclusive && vs[i].family != vs[t].family then
      var release, handoff := Release(vs, exclusive, t), Handoff(Replay(vs[..t], exclusive).accesses);
      && release.Some? && release.value.srcFamily == vs[i].family && handoff.Some?
      && Reaches(deps, vs[i].step, handoff.value.step)
      && (SameQueue(vs[i], handoff.value.queue) ==> Covers(release.value.src, vs[i].scope))
    else
      var guard := Guard(vs, exclusive, t);
      SameQueue(vs[i], vs[t].queue) && guard.Some? && Covers(guard.value.src, vs[i].scope)
  }

  /** What is recorded for the t-th access waits for the i-th, and its barrier, which stands before the m-th as well, covers that. */
  ghost predicate Barred(vs: seq<Access>, exclusive: bool, deps: seq<Edge>, i: nat, t: nat, m: nat)
    requires i < t <= m < |vs| && Forward(deps)
  {
    var guard := Guard(vs, exclusive, t);
    && guard.Some? && Covers(guard.value.dst, vs[m].scope) && WaitsFor(vs, exclusive, deps, i, t)
    && (t == m || (Together(vs[t], vs[m], exclusive) && Leads(deps, vs[t].step, vs[m].step)))
  }

  /** A dependency orders the two, by a barrier, by a transfer that reaches both, or by a semaphore between queues of one family. */
  ghost predicate Hop(vs: seq<Access>, exclusive: bool, deps: seq<Edge>, i: nat, m: nat)
    requires i < m < |vs| && Forward(deps)
  {
    && Leads(deps, vs[i].step, vs[m].step)
    && ((!SameQueue(vs[i], vs[m].queue) && (exclusive ==> vs[i].family == vs[m].family))
        || exists t :: i < t <= m && Barred(vs, exclusive, deps, i, t, m))
  }

  ghost predicate Chained(vs: seq<Access>, exclusive: bool, deps: seq<Edge>, i: nat, j: nat)
    requires i < j < |vs| && Forward(deps)
    decreases j
  {
    Hop(vs, exclusive, deps, i, j) || exists m :: i < m < j && Chained(vs, exclusive, deps, i, m) && Hop(vs, exclusive, deps, m, j)
  }

  lemma {:induction false} ChainsJoin(vs: seq<Access>, exclusive: bool, deps: seq<Edge>, h: nat, i: nat, j: nat)
    requires h < i < j < |vs| && Forward(deps) && Chained(vs, exclusive, deps, h, i) && Chained(vs, exclusive, deps, i, j)
    ensures Chained(vs, exclusive, deps, h, j)
    decreases j
  {
    if !Hop(vs, exclusive, deps, i, j) {
      var m :| i < m < j && Chained(vs, exclusive, deps, i, m) && Hop(vs, exclusive, deps, m, j);
      ChainsJoin(vs, exclusive, deps, h, i, m);
    }
  }

  // ------------------------------------------------ what a frontier stands for

  /** The access adds to the frontier instead of replacing it. */
  predicate Adds(s: State, v: Access, exclusive: bool) {
    if IsUnused(s) then v.kind == Read else JoinsReaders(s, v, exclusive)
  }

  /** The access that is the anchor, or -1. */
  function AnchorAt(vs: seq<Access>, exclusive: bool): (c: int)
    ensures -1 <= c < |vs|
  {
    if vs == [] then -1
    else
      var n := |vs| - 1;
      var s := Replay(vs[..n], exclusive);
      if Adds(s, vs[n], exclusive) then AnchorAt(vs[..n], exclusive) else n
  }

  /** The frontier is the anchor and the accesses since, which are reads of its family. */
  ghost predicate Frontiered(vs: seq<Access>, exclusive: bool, s: State, c: int)
    requires -1 <= c < |vs|
  {
    && s.accesses.anchor == (if c >= 0 then Some(vs[c]) else None)
    && (c >= 0 ==> s.family == vs[c].family && (vs[c].kind == Read ==> exclusive))
    && (forall k | c < k < |vs| :: vs[k] in s.accesses.readers)
    && (forall r | r in s.accesses.readers :: r.kind == Read && (exclusive ==> r.family == s.family) && exists k :: c < k < |vs| && vs[k] == r)
  }

  lemma AddedFrontier(vs: seq<Access>, v: Access, exclusive: bool, s: State, c: int)
    requires -1 <= c < |vs| && Frontiered(vs, exclusive, s, c) && Adds(s, v, exclusive) && (IsUnused(s) ==> vs == [])
    ensures Frontiered(vs + [v], exclusive, Advance(s, v, exclusive), c)
  {
    var all, t := vs + [v], Advance(s, v, exclusive);
    assert v in t.accesses.readers && forall r | r in s.accesses.readers :: r in t.accesses.readers;
    forall r | r in t.accesses.readers
      ensures r.kind == Read && (exclusive ==> r.family == t.family) && exists k :: c < k < |all| && all[k] == r
    {
      if r in s.accesses.readers {
        var k :| c < k < |vs| && vs[k] == r;
        assert all[k] == r;
      } else {
        assert all[|vs|] == r;
      }
    }
  }

  lemma {:induction false} FrontierIs(vs: seq<Access>, exclusive: bool)
    ensures Frontiered(vs, exclusive, Replay(vs, exclusive), AnchorAt(vs, exclusive))
    ensures IsUnused(Replay(vs, exclusive)) <==> vs == []
  {
    if vs != [] {
      var n := |vs| - 1;
      var s := Replay(vs[..n], exclusive);
      FrontierIs(vs[..n], exclusive);
      assert vs[..n] + [vs[n]] == vs;
      if Adds(s, vs[n], exclusive) {
        AddedFrontier(vs[..n], vs[n], exclusive, s, AnchorAt(vs[..n], exclusive));
      }
    }
  }

  /** Since the anchor every access has joined the readers. */
  lemma {:induction false} AnchorSince(vs: seq<Access>, exclusive: bool, k: nat)
    requires AnchorAt(vs, exclusive) < k < |vs| && k > 0
    ensures AnchorAt(vs[..k], exclusive) == AnchorAt(vs, exclusive) && JoinsReaders(Replay(vs[..k], exclusive), vs[k], exclusive)
  {
    hide Replay, JoinsReaders;
    var n := |vs| - 1;
    if k < n {
      AnchorSince(vs[..n], exclusive, k);
      assert vs[..n][..k] == vs[..k];
    } else {
      FrontierIs(vs[..n], exclusive);
    }
  }

  lemma LastAnchorIsAlone(vs: seq<Access>, exclusive: bool)
    requires AnchorAt(vs, exclusive) == |vs| - 1
    ensures Replay(vs, exclusive).accesses.readers == []
  {
    if vs != [] { FrontierIs(vs[..|vs| - 1], exclusive); }
  }

  /** What became the anchor did not join readers, unless it came first. */
  lemma {:induction false} AnchorDidNotJoin(vs: seq<Access>, exclusive: bool)
    requires AnchorAt(vs, exclusive) > 0
    ensures !Joins(vs, exclusive, AnchorAt(vs, exclusive))
  {
    var n := |vs| - 1;
    var c := AnchorAt(vs, exclusive);
    if c < n {
      AnchorDidNotJoin(vs[..n], exclusive);
      assert vs[..n][..c] == vs[..c];
    } else {
      FrontierIs(vs[..n], exclusive);
    }
  }

  // ------------------------------------------------------------------ hops

  /** A reader hops to the write or transfer that ends its group. */
  lemma ReaderHops(vs: seq<Access>, exclusive: bool, deps: seq<Edge>, i: nat, j: nat)
    requires Forward(deps) && Kept(vs, exclusive, deps) && i < j < |vs| && AnchorAt(vs[..j], exclusive) < i
    requires !Joins(vs, exclusive, j)
    ensures Hop(vs, exclusive, deps, i, j) && (Moves(vs, exclusive, j) ==> Barred(vs, exclusive, deps, i, j, j))
  {
    var s, v := Replay(vs[..j], exclusive), vs[j];
    FrontierIs(vs[..j], exclusive);
    assert KeptAt(vs, exclusive, deps, j);
    assert vs[..j][i] == vs[i] && vs[i] in s.accesses.readers;
    var n :| 0 <= n < |s.accesses.readers| && s.accesses.readers[n] == vs[i];
    ReaderLeads(s, v, exclusive, deps, n);
    if Moves(vs, exclusive, j) {
      ReaderIsReleased(s, v, exclusive, deps, n);
      assert Barred(vs, exclusive, deps, i, j, j);
    } else if SameQueue(vs[i], v.queue) {
      ScopesCoverReaders(s.accesses.readers, v.queue, n);
      assert Barred(vs, exclusive, deps, i, j, j);
    }
  }

  /** A transfer gathers the readers at the last of them, and its release covers those of that queue. */
  lemma ReaderIsReleased(s: State, v: Access, exclusive: bool, deps: seq<Edge>, n: nat)
    requires Forward(deps) && Added(EdgesOf(s, v, exclusive), deps) && n < |s.accesses.readers| && Transfers(s, v, exclusive)
    ensures var r, handoff := s.accesses.readers[n], Handoff(s.accesses).value;
            && Reaches(deps, r.step, handoff.step)
            && (SameQueue(r, handoff.queue) ==> Covers(SourceScope(s.accesses, handoff.queue), r.scope))
  {
    var readers := s.accesses.readers;
    var r, handoff := readers[n], readers[|readers| - 1];
    if r.step != handoff.step {
      assert EdgesOf(s, v, exclusive)[|readers| + n] == (r.step, handoff.step);
      EdgeLeads(deps, r.step, handoff.step);
    }
    if SameQueue(r, handoff.queue) { ScopesCoverReaders(readers, handoff.queue, n); }
  }

  /** A read is led to by its anchor, and guarded from it unless that is a read itself. */
  lemma AnchorLeads(vs: seq<Access>, exclusive: bool, deps: seq<Edge>, k: nat)
    requires Forward(deps) && Kept(vs, exclusive, deps) && k < |vs| && AnchorAt(vs[..k], exclusive) >= 0 && Joins(vs, exclusive, k)
    ensures var c := AnchorAt(vs[..k], exclusive);
            && Leads(deps, vs[c].step, vs[k].step) && (exclusive ==> vs[c].family == vs[k].family)
            && (vs[c].kind != Read || !SameQueue(vs[c], vs[k].queue) ==> Hop(vs, exclusive, deps, c, k))
            && (vs[c].kind == Read ==> exclusive && Guard(vs, exclusive, k).None?)
  {
    var s, v, c := Replay(vs[..k], exclusive), vs[k], AnchorAt(vs[..k], exclusive);
    FrontierIs(vs[..k], exclusive);
    assert KeptAt(vs, exclusive, deps, k);
    assert vs[..k][c] == vs[c];
    assert EdgesOf(s, v, exclusive)[0] == (vs[c].step, v.step);
    EdgeLeads(deps, vs[c].step, v.step);
    if vs[c].kind != Read && SameQueue(vs[c], v.queue) {
      assert Barred(vs, exclusive, deps, c, k, k);
    }
  }

  /** An anchor without readers hops to the next write or transfer. */
  lemma AnchorHops(vs: seq<Access>, exclusive: bool, deps: seq<Edge>, j: nat)
    requires Forward(deps) && Kept(vs, exclusive, deps) && 0 < j < |vs| && AnchorAt(vs[..j], exclusive) == j - 1
    requires !Joins(vs, exclusive, j)
    ensures Hop(vs, exclusive, deps, j - 1, j) && (Moves(vs, exclusive, j) ==> Barred(vs, exclusive, deps, j - 1, j, j))
  {
    var s, v := Replay(vs[..j], exclusive), vs[j];
    FrontierIs(vs[..j], exclusive);
    assert KeptAt(vs, exclusive, deps, j);
    assert vs[..j][j - 1] == vs[j - 1];
    LastAnchorIsAlone(vs[..j], exclusive);
    assert EdgesOf(s, v, exclusive)[0] == (vs[j - 1].step, v.step);
    EdgeLeads(deps, vs[j - 1].step, v.step);
    if Moves(vs, exclusive, j) || SameQueue(vs[j - 1], v.queue) {
      assert Barred(vs, exclusive, deps, j - 1, j, j);
    }
  }

  // ------------------------------------------------------- what goes wrong

  /**
   What the read that took the byte over, the c-th access, has acquired reaches
   a later reader: through a semaphore, because the acquire covers it too, or by
   a semaphore from a reader it reaches.
   */
  ghost predicate Acquired(vs: seq<Access>, exclusive: bool, deps: seq<Edge>, c: nat, k: nat)
    requires c < k < |vs| && Forward(deps)
    decreases k
  {
    || !Together(vs[c], vs[k], exclusive) || Covers(vs[c].scope, vs[k].scope)
    || exists m :: c < m < k && ReaderLeadsTo(vs, exclusive, deps, m, k) && Acquired(vs, exclusive, deps, c, m)
  }

  ghost predicate ReaderLeadsTo(vs: seq<Access>, exclusive: bool, deps: seq<Edge>, m: nat, k: nat)
    requires m < k < |vs| && Forward(deps)
  {
    !Together(vs[m], vs[k], exclusive) && Leads(deps, vs[m].step, vs[k].step)
  }

  /** The k-th access joins a read that took the byte over, and what that acquired does not reach it. */
  ghost predicate Stranded(vs: seq<Access>, exclusive: bool, deps: seq<Edge>, k: nat)
    requires k < |vs| && Forward(deps)
  {
    var c := AnchorAt(vs[..k], exclusive);
    c >= 0 && vs[c].kind == Read && Joins(vs, exclusive, k) && !Acquired(vs, exclusive, deps, c, k)
  }

  /**
   The i-th access is a read that took the byte over, only reads of its queue
   have followed, and the write or the release that ends them waits for scopes
   of those that do not cover it.
   */
  predicate CutOff(vs: seq<Access>, exclusive: bool, i: nat, j: nat)
    requires i < j < |vs|
  {
    var f := Replay(vs[..j], exclusive).accesses;
    && AnchorAt(vs[..j], exclusive) == i && vs[i].kind == Read && !Joins(vs, exclusive, j)
    && i + 1 < j && (forall k | i < k < j :: Together(vs[i], vs[k], exclusive))
    && if Moves(vs, exclusive, j) then !Covers(ScopesOf(f.readers, Handoff(f).value.queue), vs[i].scope)
       else SameQueue(vs[i], vs[j].queue) && !Covers(ScopesOf(f.readers, vs[j].queue), vs[i].scope)
  }

  ghost predicate NothingStranded(vs: seq<Access>, exclusive: bool, deps: seq<Edge>)
    requires Forward(deps)
  {
    forall k | 0 <= k < |vs| :: !Stranded(vs, exclusive, deps, k)
  }

  ghost predicate NothingCutOff(vs: seq<Access>, exclusive: bool) {
    forall i, j | 0 <= i < j < |vs| :: !CutOff(vs, exclusive, i, j)
  }

  // ------------------------------------------------------- chains, if not

  /** A chain whose last hop is to a write or transfer, and reaches the acquire of a transfer. */
  ghost predicate Arrives(vs: seq<Access>, exclusive: bool, deps: seq<Edge>, i: nat, j: nat)
    requires i < j < |vs| && Forward(deps)
  {
    exists m :: i <= m < j && (m == i || Chained(vs, exclusive, deps, i, m)) && HopsOver(vs, exclusive, deps, m, j)
  }

  ghost predicate HopsOver(vs: seq<Access>, exclusive: bool, deps: seq<Edge>, m: nat, j: nat)
    requires m < j < |vs| && Forward(deps)
  {
    Hop(vs, exclusive, deps, m, j) && (Moves(vs, exclusive, j) ==> Barred(vs, exclusive, deps, m, j, j))
  }

  lemma ArrivesIsChain(vs: seq<Access>, exclusive: bool, deps: seq<Edge>, i: nat, j: nat)
    requires i < j < |vs| && Forward(deps) && Arrives(vs, exclusive, deps, i, j)
    ensures Chained(vs, exclusive, deps, i, j)
  {
  }

  lemma ChainArrives(vs: seq<Access>, exclusive: bool, deps: seq<Edge>, i: nat, c: nat, j: nat)
    requires i < c < j < |vs| && Forward(deps) && Chained(vs, exclusive, deps, i, c) && Arrives(vs, exclusive, deps, c, j)
    ensures Arrives(vs, exclusive, deps, i, j)
  {
    hide Chained, HopsOver;
    var m :| c <= m < j && (m == c || Chained(vs, exclusive, deps, c, m)) && HopsOver(vs, exclusive, deps, m, j);
    if m != c { ChainsJoin(vs, exclusive, deps, i, c, m); }
  }

  /** The last anchor is chained to a write or transfer, unless it is cut off. */
  lemma AnchorArrives(vs: seq<Access>, exclusive: bool, deps: seq<Edge>, j: nat)
    requires Forward(deps) && Kept(vs, exclusive, deps) && 0 < j < |vs| && AnchorAt(vs[..j], exclusive) >= 0
    requires !Joins(vs, exclusive, j) && !CutOff(vs, exclusive, AnchorAt(vs[..j], exclusive), j)
    ensures Arrives(vs, exclusive, deps, AnchorAt(vs[..j], exclusive), j)
  {
    hide Hop, Barred, Moves, Joins, CutOff, Replay, AnchorAt;
    var c := AnchorAt(vs[..j], exclusive);
    if c == j - 1 {
      AnchorHops(vs, exclusive, deps, j);
      assert HopsOver(vs, exclusive, deps, c, j);
    } else {
      forall k | c < k < j
        ensures AnchorAt(vs[..k], exclusive) == c && Joins(vs, exclusive, k) && HopsOver(vs, exclusive, deps, k, j)
        ensures Leads(deps, vs[c].step, vs[k].step) && (exclusive ==> vs[c].family == vs[k].family)
        ensures vs[c].kind != Read || !SameQueue(vs[c], vs[k].queue) ==> Hop(vs, exclusive, deps, c, k)
      {
        ReaderOfAnchor(vs, exclusive, j, k);
        AnchorLeads(vs, exclusive, deps, k);
        ReaderHops(vs, exclusive, deps, k, j);
      }
      if k :| c < k < j && (vs[c].kind != Read || !SameQueue(vs[c], vs[k].queue)) {
        assert Hop(vs, exclusive, deps, c, k) && Chained(vs, exclusive, deps, c, k) && HopsOver(vs, exclusive, deps, k, j);
      } else {
        assert HopsOver(vs, exclusive, deps, c + 1, j) && vs[c].kind == Read;
        UncutAnchorHops(vs, exclusive, deps, c, j);
        assert HopsOver(vs, exclusive, deps, c, j);
      }
    }
  }

  /** Between an anchor and the next write or transfer there are its readers. */
  lemma ReaderOfAnchor(vs: seq<Access>, exclusive: bool, j: nat, k: nat)
    requires k < j < |vs| && 0 <= AnchorAt(vs[..j], exclusive) < k
    ensures AnchorAt(vs[..k], exclusive) == AnchorAt(vs[..j], exclusive) && Joins(vs, exclusive, k)
  {
    AnchorSince(vs[..j], exclusive, k);
    assert vs[..j][..k] == vs[..k] && vs[..j][k] == vs[k];
  }

  lemma UncutAnchorHops(vs: seq<Access>, exclusive: bool, deps: seq<Edge>, c: nat, j: nat)
    requires Forward(deps) && Kept(vs, exclusive, deps) && c + 1 < j < |vs| && c == AnchorAt(vs[..j], exclusive)
    requires !Joins(vs, exclusive, j) && !CutOff(vs, exclusive, c, j) && vs[c].kind == Read
    requires forall k | c < k < j :: Leads(deps, vs[c].step, vs[k].step) && Together(vs[c], vs[k], exclusive)
    requires Hop(vs, exclusive, deps, c + 1, j)
    ensures HopsOver(vs, exclusive, deps, c, j)
  {
    var f := Replay(vs[..j], exclusive).accesses;
    FrontierIs(vs[..j], exclusive);
    assert vs[..j][c] == vs[c] && vs[..j][c + 1] == vs[c + 1] && vs[c + 1] in f.readers;
    LeadsOn(deps, vs[c].step, vs[c + 1].step, vs[j].step);
    var handoff := f.readers[|f.readers| - 1];
    assert handoff in f.readers;
    var k :| c < k < j && vs[..j][k] == handoff;
    assert vs[k] == handoff;
    if Moves(vs, exclusive, j) || SameQueue(vs[c], vs[j].queue) {
      assert Barred(vs, exclusive, deps, c, j, j);
    }
  }

  /** Unless something is cut off, everything before a write or transfer is chained to it. */
  lemma {:induction false} AllArrive(vs: seq<Access>, exclusive: bool, deps: seq<Edge>, i: nat, j: nat)
    requires Forward(deps) && Kept(vs, exclusive, deps) && NothingCutOff(vs, exclusive) && i < j < |vs| && !Joins(vs, exclusive, j)
    ensures Arrives(vs, exclusive, deps, i, j)
    decreases j
  {
    hide Replay, AnchorAt, CutOff, Hop, Kept, Chained, Moves, Barred, Joins;
    var c := AnchorAt(vs[..j], exclusive);
    if c < i {
      ReaderHops(vs, exclusive, deps, i, j);
      assert HopsOver(vs, exclusive, deps, i, j);
    } else {
      AnchorArrives(vs, exclusive, deps, j);
      if i < c {
        EarlierAnchor(vs, exclusive, j);
        AllArrive(vs, exclusive, deps, i, c);
        ArrivesIsChain(vs, exclusive, deps, i, c);
        ChainArrives(vs, exclusive, deps, i, c, j);
      }
    }
  }

  lemma EarlierAnchor(vs: seq<Access>, exclusive: bool, j: nat)
    requires j < |vs| && AnchorAt(vs[..j], exclusive) > 0
    ensures var c := AnchorAt(vs[..j], exclusive); !Joins(vs, exclusive, c) && (vs[c].kind == Read ==> Moves(vs, exclusive, c))
  {
    var c := AnchorAt(vs[..j], exclusive);
    AnchorDidNotJoin(vs[..j], exclusive);
    assert vs[..j][..c] == vs[..c] && vs[..j][c] == vs[c];
  }

  /** What arrives at a read that takes the byte over goes on to every reader that one reaches. */
  lemma {:induction false} AcquiredIsChained(vs: seq<Access>, exclusive: bool, deps: seq<Edge>, i: nat, k: nat)
    requires Forward(deps) && Kept(vs, exclusive, deps) && i < k < |vs| && Joins(vs, exclusive, k)
    requires i < AnchorAt(vs[..k], exclusive) && vs[AnchorAt(vs[..k], exclusive)].kind == Read
    requires Arrives(vs, exclusive, deps, i, AnchorAt(vs[..k], exclusive)) && Acquired(vs, exclusive, deps, AnchorAt(vs[..k], exclusive), k)
    ensures Chained(vs, exclusive, deps, i, k)
    decreases k
  {
    hide Replay, AnchorAt, Hop, Kept, Chained, Moves, Barred, Joins, Arrives, WaitsFor, Guard;
    var c := AnchorAt(vs[..k], exclusive);
    AnchorLeads(vs, exclusive, deps, k);
    if !Together(vs[c], vs[k], exclusive) {
      ArrivesIsChain(vs, exclusive, deps, i, c);
      HopIsChain(vs, exclusive, deps, c, k);
      ChainsJoin(vs, exclusive, deps, i, c, k);
    } else if Covers(vs[c].scope, vs[k].scope) {
      AcquireReaches(vs, exclusive, deps, i, k);
    } else {
      var m :| c < m < k && ReaderLeadsTo(vs, exclusive, deps, m, k) && Acquired(vs, exclusive, deps, c, m);
      ReaderOfAnchor(vs, exclusive, k, m);
      AcquiredIsChained(vs, exclusive, deps, i, m);
      AnchorLeads(vs, exclusive, deps, m);
      SemaphoreHops(vs, exclusive, deps, m, k);
      HopIsChain(vs, exclusive, deps, m, k);
      ChainsJoin(vs, exclusive, deps, i, m, k);
    }
  }

  /** A reader the acquire covers needs no barrier of its own. */
  lemma AcquireReaches(vs: seq<Access>, exclusive: bool, deps: seq<Edge>, i: nat, k: nat)
    requires Forward(deps) && Kept(vs, exclusive, deps) && i < k < |vs| && Joins(vs, exclusive, k)
    requires i < AnchorAt(vs[..k], exclusive) && vs[AnchorAt(vs[..k], exclusive)].kind == Read
    requires var c := AnchorAt(vs[..k], exclusive);
             && Arrives(vs, exclusive, deps, i, c) && Leads(deps, vs[c].step, vs[k].step)
             && Together(vs[c], vs[k], exclusive) && Covers(vs[c].scope, vs[k].scope)
    ensures Chained(vs, exclusive, deps, i, k)
  {
    hide Replay, AnchorAt, Kept, Moves, Joins, WaitsFor;
    var c := AnchorAt(vs[..k], exclusive);
    EarlierAnchor(vs, exclusive, k);
    var m :| i <= m < c && (m == i || Chained(vs, exclusive, deps, i, m)) && HopsOver(vs, exclusive, deps, m, c);
    GuardOfMove(vs, exclusive, c);
    assert Barred(vs, exclusive, deps, m, c, k);
    LeadsOn(deps, vs[m].step, vs[c].step, vs[k].step);
    assert Hop(vs, exclusive, deps, m, k);
  }

  lemma GuardOfMove(vs: seq<Access>, exclusive: bool, c: nat)
    requires c < |vs| && Moves(vs, exclusive, c)
    ensures Guard(vs, exclusive, c).Some? ==> Guard(vs, exclusive, c).value.dst == vs[c].scope
  {
  }

  lemma SemaphoreHops(vs: seq<Access>, exclusive: bool, deps: seq<Edge>, i: nat, j: nat)
    requires Forward(deps) && i < j < |vs| && Leads(deps, vs[i].step, vs[j].step) && !SameQueue(vs[i], vs[j].queue)
    requires exclusive ==> vs[i].family == vs[j].family
    ensures Hop(vs, exclusive, deps, i, j)
  {
  }

  lemma HopIsChain(vs: seq<Access>, exclusive: bool, deps: seq<Edge>, i: nat, j: nat)
    requires Forward(deps) && i < j < |vs| && Hop(vs, exclusive, deps, i, j)
    ensures Chained(vs, exclusive, deps, i, j)
  {
  }

  /** Unless a use is stranded or cut off, every conflict is chained. */
  lemma ConflictIsChained(vs: seq<Access>, exclusive: bool, deps: seq<Edge>, i: nat, j: nat)
    requires Forward(deps) && Kept(vs, exclusive, deps) && i < j < |vs| && Conflict(vs[i], vs[j], exclusive)
    requires NothingStranded(vs, exclusive, deps) && NothingCutOff(vs, exclusive)
    ensures Chained(vs, exclusive, deps, i, j)
  {
    hide Replay, AnchorAt, CutOff, Hop, Kept, Chained, Barred, Arrives, Acquired, Moves;
    if !Joins(vs, exclusive, j) {
      AllArrive(vs, exclusive, deps, i, j);
      ArrivesIsChain(vs, exclusive, deps, i, j);
    } else {
      var c := AnchorAt(vs[..j], exclusive);
      FrontierIs(vs[..j], exclusive);
      assert vs[..j][i] == vs[i] && i <= c;
      assert vs[..j][c] == vs[c];
      AnchorLeads(vs, exclusive, deps, j);
      if i < c {
        EarlierAnchor(vs, exclusive, j);
        AllArrive(vs, exclusive, deps, i, c);
        if vs[c].kind == Read {
          assert !Stranded(vs, exclusive, deps, j);
          AcquiredIsChained(vs, exclusive, deps, i, j);
        } else {
          ArrivesIsChain(vs, exclusive, deps, i, c);
          HopIsChain(vs, exclusive, deps, c, j);
          ChainsJoin(vs, exclusive, deps, i, c, j);
        }
      } else {
        HopIsChain(vs, exclusive, deps, c, j);
      }
    }
  }

  // ------------------------------------------------------- no chain, if so

  lemma {:induction false} FirstHop(vs: seq<Access>, exclusive: bool, deps: seq<Edge>, i: nat, j: nat) returns (m: nat)
    requires i < j < |vs| && Forward(deps) && Chained(vs, exclusive, deps, i, j)
    ensures i < m <= j && Hop(vs, exclusive, deps, i, m)
    decreases j
  {
    if Hop(vs, exclusive, deps, i, j) {
      m := j;
    } else {
      var k :| i < k < j && Chained(vs, exclusive, deps, i, k) && Hop(vs, exclusive, deps, k, j);
      m := FirstHop(vs, exclusive, deps, i, k);
    }
  }

  /** Among readers of a read that took the byte over, only semaphores make hops. */
  lemma ReaderHopIsSemaphore(vs: seq<Access>, exclusive: bool, deps: seq<Edge>, c: nat, m: nat, k: nat)
    requires Forward(deps) && c <= m < k < |vs| && vs[c].kind == Read && (exclusive ==> vs[m].family == vs[k].family)
    requires forall t | c < t <= k :: Guard(vs, exclusive, t).None?
    ensures Hop(vs, exclusive, deps, m, k) ==> ReaderLeadsTo(vs, exclusive, deps, m, k)
  {
  }

  /** The reads since a read that took the byte over have no barriers. */
  lemma ReadersAreUnguarded(vs: seq<Access>, exclusive: bool, deps: seq<Edge>, j: nat, k: nat)
    requires Forward(deps) && Kept(vs, exclusive, deps) && k < j <= |vs| && 0 <= AnchorAt(vs[..j], exclusive) < k
    requires vs[AnchorAt(vs[..j], exclusive)].kind == Read
    ensures Guard(vs, exclusive, k).None? && Joins(vs, exclusive, k) && exclusive
    ensures AnchorAt(vs[..k], exclusive) == AnchorAt(vs[..j], exclusive) && vs[k].family == vs[AnchorAt(vs[..j], exclusive)].family
  {
    AnchorSince(vs[..j], exclusive, k);
    assert vs[..j][..k] == vs[..k] && vs[..j][k] == vs[k];
    AnchorLeads(vs, exclusive, deps, k);
  }

  /** The use before a read that takes the byte over is of the other family, and does not reach a stranded reader. */
  lemma {:induction false} StrandedIsUnchained(vs: seq<Access>, exclusive: bool, deps: seq<Edge>, k: nat)
    requires Forward(deps) && Kept(vs, exclusive, deps) && k < |vs| && Stranded(vs, exclusive, deps, k)
    ensures var c := AnchorAt(vs[..k], exclusive);
            c > 0 && Conflict(vs[c - 1], vs[k], exclusive) && !Chained(vs, exclusive, deps, c - 1, k)
    decreases k
  {
    hide Replay, AnchorAt, Hop, Kept, Joins, Guard, Together;
    var c := AnchorAt(vs[..k], exclusive);
    TakenFrom(vs, exclusive, k);
    AnchorLeads(vs, exclusive, deps, k);
    NoHopAcross(vs, exclusive, deps, k);
    if Chained(vs, exclusive, deps, c - 1, k) {
      var m :| c - 1 < m < k && Chained(vs, exclusive, deps, c - 1, m) && Hop(vs, exclusive, deps, m, k);
      forall t | c < t < k
        ensures Guard(vs, exclusive, t).None? && (exclusive ==> vs[t].family == vs[k].family)
      {
        ReadersAreUnguarded(vs, exclusive, deps, k, t);
      }
      ReaderHopIsSemaphore(vs, exclusive, deps, c, m, k);
      assert m != c;
      ReadersAreUnguarded(vs, exclusive, deps, k, m);
      if !Acquired(vs, exclusive, deps, c, m) {
        StrandedIsUnchained(vs, exclusive, deps, m);
      }
    }
  }

  /** The one barrier before a stranded reader that waits for the other family is the acquire, which does not cover it. */
  lemma NoHopAcross(vs: seq<Access>, exclusive: bool, deps: seq<Edge>, k: nat)
    requires Forward(deps) && Kept(vs, exclusive, deps) && k < |vs| && Stranded(vs, exclusive, deps, k)
    requires var c := AnchorAt(vs[..k], exclusive); c > 0 && exclusive && vs[c - 1].family != vs[k].family
    ensures !Hop(vs, exclusive, deps, AnchorAt(vs[..k], exclusive) - 1, k)
  {
    hide Replay, AnchorAt, Kept, Moves, WaitsFor;
    var c := AnchorAt(vs[..k], exclusive);
    EarlierAnchor(vs, exclusive, k);
    GuardOfMove(vs, exclusive, c);
    AnchorLeads(vs, exclusive, deps, k);
    var h: nat := c - 1;
    forall t | h < t <= k
      ensures !Barred(vs, exclusive, deps, h, t, k)
    {
      if c < t < k { ReadersAreUnguarded(vs, exclusive, deps, k, t); }
    }
  }

  /** A read that took the byte over comes right after a use of another family. */
  lemma TakenFrom(vs: seq<Access>, exclusive: bool, j: nat)
    requires j < |vs| && AnchorAt(vs[..j], exclusive) >= 0 && vs[AnchorAt(vs[..j], exclusive)].kind == Read
    ensures var c := AnchorAt(vs[..j], exclusive); c > 0 && exclusive && vs[c - 1].family != vs[c].family
  {
    var pre, c := vs[..j], AnchorAt(vs[..j], exclusive);
    FrontierIs(pre, exclusive);
    assert pre[c] == vs[c];
    if c == 0 { FirstReadIsNoAnchor(pre, exclusive); }
    EarlierAnchor(vs, exclusive, j);
    FrontierIs(vs[..c], exclusive);
    assert vs[..c][c - 1] == vs[c - 1];
  }

  lemma CutOffIsUnchained(vs: seq<Access>, exclusive: bool, deps: seq<Edge>, i: nat, j: nat)
    requires Forward(deps) && Kept(vs, exclusive, deps) && i < j < |vs| && CutOff(vs, exclusive, i, j)
    ensures Conflict(vs[i], vs[j], exclusive) && !Chained(vs, exclusive, deps, i, j)
  {
    hide Kept, Hop, AnchorAt, Guard;
    forall t | i < t < j
      ensures Guard(vs, exclusive, t).None? && Together(vs[i], vs[t], exclusive)
    {
      ReadersAreUnguarded(vs, exclusive, deps, j, t);
    }
    CutOffHasNoHop(vs, exclusive, deps, i, j);
    if Chained(vs, exclusive, deps, i, j) {
      var m := FirstHop(vs, exclusive, deps, i, j);
      ReaderHopIsSemaphore(vs, exclusive, deps, i, i, m);
    }
  }

  lemma CutOffHasNoHop(vs: seq<Access>, exclusive: bool, deps: seq<Edge>, i: nat, j: nat)
    requires Forward(deps) && i < j < |vs| && CutOff(vs, exclusive, i, j)
    requires forall t | i < t < j :: Guard(vs, exclusive, t).None? && Together(vs[i], vs[t], exclusive)
    ensures Conflict(vs[i], vs[j], exclusive) && !Hop(vs, exclusive, deps, i, j)
  {
    var s := Replay(vs[..j], exclusive);
    FrontierIs(vs[..j], exclusive);
    assert vs[..j][i] == vs[i] && vs[..j][i + 1] == vs[i + 1] && vs[i + 1] in s.accesses.readers;
    var handoff := s.accesses.readers[|s.accesses.readers| - 1];
    assert handoff in s.accesses.readers;
    var k :| i < k < j && vs[..j][k] == handoff;
    assert vs[k] == handoff && SameQueue(vs[i], handoff.queue);
    assert !WaitsFor(vs, exclusive, deps, i, j);
    forall t | i < t <= j
      ensures !Barred(vs, exclusive, deps, i, t, j)
    {
    }
  }

  /**
   Whether the barriers are enough: every two conflicting uses of a byte are
   chained exactly if none is stranded or cut off.
   */
  lemma ConflictsAreChained(vs: seq<Access>, exclusive: bool, deps: seq<Edge>)
    requires Forward(deps) && Kept(vs, exclusive, deps)
    ensures (forall i, j | 0 <= i < j < |vs| && Conflict(vs[i], vs[j], exclusive) :: Chained(vs, exclusive, deps, i, j))
            <==> NothingStranded(vs, exclusive, deps) && NothingCutOff(vs, exclusive)
  {
    hide Kept, Chained, CutOff, Stranded;
    if NothingStranded(vs, exclusive, deps) && NothingCutOff(vs, exclusive) {
      forall i, j | 0 <= i < j < |vs| && Conflict(vs[i], vs[j], exclusive)
        ensures Chained(vs, exclusive, deps, i, j)
      {
        ConflictIsChained(vs, exclusive, deps, i, j);
      }
    } else if !NothingCutOff(vs, exclusive) {
      var i, j :| 0 <= i < j < |vs| && CutOff(vs, exclusive, i, j);
      CutOffIsUnchained(vs, exclusive, deps, i, j);
    } else {
      var k :| 0 <= k < |vs| && Stranded(vs, exclusive, deps, k);
      StrandedIsUnchained(vs, exclusive, deps, k);
    }
  }

  /** On a buffer that is shared by all families, or used in one, every conflict is chained. */
  lemma OneFamilyIsChained(vs: seq<Access>, exclusive: bool, deps: seq<Edge>)
    requires Forward(deps) && Kept(vs, exclusive, deps)
    requires exclusive ==> forall i, j | 0 <= i < j < |vs| :: vs[i].family == vs[j].family
    ensures forall i, j | 0 <= i < j < |vs| && Conflict(vs[i], vs[j], exclusive) :: Chained(vs, exclusive, deps, i, j)
  {
    forall j | 0 <= j < |vs|
      ensures !Stranded(vs, exclusive, deps, j)
    {
      if Stranded(vs, exclusive, deps, j) { TakenFrom(vs, exclusive, j); }
    }
    forall i, j | 0 <= i < j < |vs|
      ensures !CutOff(vs, exclusive, i, j)
    {
      if CutOff(vs, exclusive, i, j) { TakenFrom(vs, exclusive, j); }
    }
    hide *;
    ConflictsAreChained(vs, exclusive, deps);
  }

  lemma {:induction false} FirstReadIsNoAnchor(vs: seq<Access>, exclusive: bool)
    requires vs != [] && vs[0].kind == Read
    ensures AnchorAt(vs, exclusive) != 0
  {
    if |vs| > 1 { FirstReadIsNoAnchor(vs[..|vs| - 1], exclusive); }
  }

  /** Uses as storage_compute, uniform_fragment, uniform_vertex and transfer_destination, with the stages and accesses of those. */
  const WRITTEN := Access(Write, Scope({11}, {34}), 0, 0, 1)
  const BY_FRAGMENTS := Access(Read, Scope({7}, {3}), 1, 1, 2)
  const BY_VERTICES := Access(Read, Scope({3}, {3}), 2, 1, 2)
  const OVERWRITTEN := Access(Write, Scope({12}, {12}), 3, 1, 2)
  const TAKEN_AWAY := Access(Write, Scope({12}, {12}), 3, 2, 3)

  /** A buffer is written in one family, read twice in another, and then written there or in a third. */
  function Transferred(moves: bool): (vs: seq<Access>)
    ensures |vs| == 4
  {
    [WRITTEN, BY_FRAGMENTS, BY_VERTICES, if moves then TAKEN_AWAY else OVERWRITTEN]
  }

  lemma NextState(vs: seq<Access>, v: Access)
    ensures Replay(vs + [v], true) == Advance(Replay(vs, true), v, true)
    ensures AnchorAt(vs + [v], true) == if Adds(Replay(vs, true), v, true) then AnchorAt(vs, true) else |vs|
  {
    assert (vs + [v])[..|vs|] == vs;
  }

  lemma TransferredStates()
    ensures Replay([WRITTEN], true) == State(0, Frontier(Some(WRITTEN), []))
    ensures Replay([WRITTEN, BY_FRAGMENTS], true) == State(1, Frontier(Some(BY_FRAGMENTS), []))
    ensures Replay([WRITTEN, BY_FRAGMENTS, BY_VERTICES], true) == State(1, Frontier(Some(BY_FRAGMENTS), [BY_VERTICES]))
    ensures AnchorAt([WRITTEN, BY_FRAGMENTS, BY_VERTICES], true) == 1
  {
    assert Replay([], true) == UNUSED && AnchorAt([], true) == -1;
    hide Replay, AnchorAt;
    NextState([], WRITTEN);
    NextState([WRITTEN], BY_FRAGMENTS);
    NextState([WRITTEN, BY_FRAGMENTS], BY_VERTICES);
    assert [] + [WRITTEN] == [WRITTEN] && [WRITTEN] + [BY_FRAGMENTS] == [WRITTEN, BY_FRAGMENTS];
    assert [WRITTEN, BY_FRAGMENTS] + [BY_VERTICES] == [WRITTEN, BY_FRAGMENTS, BY_VERTICES];
  }

  lemma NotRejectedYet(moves: bool, n: nat)
    requires n < 4
    ensures var vs := Transferred(moves); !Rejected(Replay(vs[..n], true), vs[n])
  {
    TransferredStates();
    var vs := Transferred(moves);
    assert Replay([], true) == UNUSED;
    assert vs[..0] == [] && vs[..1] == [WRITTEN] && vs[..2] == [WRITTEN, BY_FRAGMENTS] && vs[..3] == [WRITTEN, BY_FRAGMENTS, BY_VERTICES];
    hide Replay;
  }

  /** The first read is left out of what the write, or the release to the third family, waits for. */
  lemma TransferredIsCut(moves: bool)
    ensures CutOff(Transferred(moves), true, 1, 3)
  {
    TransferredStates();
    var vs := Transferred(moves);
    assert vs[..3] == [WRITTEN, BY_FRAGMENTS, BY_VERTICES];
    assert [BY_VERTICES][..0] == [] && ScopesOf([BY_VERTICES], 2).stages == {3};
    hide Replay, AnchorAt, ScopesOf;
    assert 7 in BY_FRAGMENTS.scope.stages;
  }

  /** The second read is left out of what the first acquires. */
  lemma TransferredIsStranded(moves: bool, deps: seq<Edge>)
    requires Forward(deps)
    ensures Stranded(Transferred(moves), true, deps, 2) && AnchorAt(Transferred(moves)[..2], true) == 1
  {
    TransferredStates();
    NextState([WRITTEN], BY_FRAGMENTS);
    assert [WRITTEN] + [BY_FRAGMENTS] == [WRITTEN, BY_FRAGMENTS];
    var vs := Transferred(moves);
    assert vs[..2] == [WRITTEN, BY_FRAGMENTS];
    hide Replay, AnchorAt;
    assert 3 in BY_VERTICES.scope.stages && 3 !in BY_FRAGMENTS.scope.stages;
  }

  // ------------------------------------------------------------ the tracker

  /** The use of a byte that its m-th access is. */
  lemma {:induction false} UseOfAccess(history: seq<Use>, buffer: nat, b: nat, m: nat) returns (n: nat)
    requires m < |Accesses(history, buffer, b)|
    ensures n < |history| && Touches(history[n], buffer, b)
    ensures var vs := Accesses(history, buffer, b); history[n].access == vs[m] && Accesses(history[..n], buffer, b) == vs[..m]
  {
    var last := |history| - 1;
    var rest := Accesses(history[..last], buffer, b);
    if m < |rest| {
      n := UseOfAccess(history[..last], buffer, b, m);
      assert history[..last][..n] == history[..n];
    } else {
      n := last;
    }
  }

  /** The guard of the m-th access is recorded before its step, on its buffer and over the byte, and its release after the step that hands over. */
  ghost predicate GuardRecorded(before: seq<seq<Barrier>>, after: seq<seq<Barrier>>, vs: seq<Access>, exclusive: bool, buffer: nat, b: nat, m: nat)
    requires m < |vs|
  {
    var guard, release := Guard(vs, exclusive, m), Release(vs, exclusive, m);
    && (guard.Some? ==> GuardedStep(before, vs[m].step, guard.value.(buffer := buffer), b))
    && (release.Some? ==>
          GuardedStep(after, Handoff(Replay(vs[..m], exclusive).accesses).value.step, release.value.(buffer := buffer), b))
  }

  /**
   What the tracker records, in any state it reaches between two calls: the
   barriers of every byte's accesses are there, and they chain all conflicting
   ones exactly if none is stranded or cut off.
   */
  lemma HazardsAreGuarded(buffers: seq<TrackedBuffer>, deps: seq<Edge>, history: seq<Use>, last: nat,
                          before: seq<seq<Barrier>>, after: seq<seq<Barrier>>, k: nat, b: nat)
    requires Sound(buffers, deps, history, last, |before|) && Recorded(history, before, after) && k < |buffers|
    ensures var vs, exclusive := Accesses(history, buffers[k].handle, b), buffers[k].exclusive;
            && Kept(vs, exclusive, deps)
            && (forall m | 0 <= m < |vs| :: GuardRecorded(before, after, vs, exclusive, buffers[k].handle, b, m))
            && ((forall i, j | 0 <= i < j < |vs| && Conflict(vs[i], vs[j], exclusive) :: Chained(vs, exclusive, deps, i, j))
                <==> NothingStranded(vs, exclusive, deps) && NothingCutOff(vs, exclusive))
  {
    var vs, exclusive := Accesses(history, buffers[k].handle, b), buffers[k].exclusive;
    BytesAreKept(buffers, deps, history, last, |before|, k, b);
    hide Kept, NothingStranded, NothingCutOff, Chained, Conflict;
    ConflictsAreChained(vs, exclusive, deps);
    forall m | 0 <= m < |vs|
      ensures GuardRecorded(before, after, vs, exclusive, buffers[k].handle, b, m)
    {
      AccessIsGuarded(buffers, deps, history, last, before, after, k, b, m);
    }
  }

  lemma BytesAreKept(buffers: seq<TrackedBuffer>, deps: seq<Edge>, history: seq<Use>, last: nat, steps: nat, k: nat, b: nat)
    requires Sound(buffers, deps, history, last, steps) && k < |buffers|
    ensures Forward(deps) && Kept(Accesses(history, buffers[k].handle, b), buffers[k].exclusive, deps)
  {
    assert BufferOk(history, buffers[k], deps, last);
    assert ByteOk(history, buffers[k].handle, b, At(buffers[k].regions, b), buffers[k].exclusive, deps, last);
  }

  lemma AccessIsGuarded(buffers: seq<TrackedBuffer>, deps: seq<Edge>, history: seq<Use>, last: nat,
                        before: seq<seq<Barrier>>, after: seq<seq<Barrier>>, k: nat, b: nat, m: nat)
    requires Sound(buffers, deps, history, last, |before|) && Recorded(history, before, after) && k < |buffers|
    requires m < |Accesses(history, buffers[k].handle, b)|
    ensures GuardRecorded(before, after, Accesses(history, buffers[k].handle, b), buffers[k].exclusive, buffers[k].handle, b, m)
  {
    var buffer := buffers[k];
    var vs := Accesses(history, buffer.handle, b);
    var n := UseOfAccess(history, buffer.handle, b, m);
    SharingIsTheBuffers(buffers, deps, history, last, |before|, n, k);
    assert HasGuard(history, before, after, n, b);
    var s := Replay(vs[..m], buffer.exclusive);
    assert HasBarriers(s, history[n], before, after, b);
    hide Sound, Recorded, Replay, Accesses, SourceScope, HasGuard, GuardedStep;
    var guard, release := Guard(vs, buffer.exclusive, m), Release(vs, buffer.exclusive, m);
    if guard.Some? { RangeIsNoMatter(before, vs[m].step, guard.value.(buffer := buffer.handle), history[n].range, b); }
    if release.Some? {
      RangeIsNoMatter(after, Handoff(s.accesses).value.step, release.value.(buffer := buffer.handle), history[n].range, b);
    }
  }

  lemma RangeIsNoMatter(lists: seq<seq<Barrier>>, step: nat, guard: Barrier, range: Interval, b: nat)
    ensures GuardedStep(lists, step, guard.(range := range), b) ==> GuardedStep(lists, step, guard, b)
  {
    if GuardedStep(lists, step, guard.(range := range), b) {
      var k :| 0 <= k < |lists[step]| && IsGuard(lists[step][k], guard.(range := range), b);
      assert IsGuard(lists[step][k], guard, b);
    }
  }

  lemma SharingIsTheBuffers(buffers: seq<TrackedBuffer>, deps: seq<Edge>, history: seq<Use>, last: nat, steps: nat, n: nat, k: nat)
    requires Sound(buffers, deps, history, last, steps) && n < |history| && k < |buffers| && history[n].buffer == buffers[k].handle
    ensures history[n].exclusive == buffers[k].exclusive
  {
    assert UseKnown(history[n], buffers, last);
    var i :| 0 <= i < |buffers| && buffers[i].handle == history[n].buffer && buffers[i].exclusive == history[n].exclusive;
    assert buffers[i].handle == buffers[k].handle;
  }

  // ---------------------------------------------------------------- the run

  const SIZE: nat := 16
  const ALL := Interval(0, Some(SIZE))

  /** Every use so far is one of these accesses to the whole of the one buffer. */
  ghost predicate Whole(history: seq<Use>, vs: seq<Access>) {
    |history| == |vs| && forall n | 0 <= n < |vs| :: history[n] == Use(1, ALL, vs[n], true)
  }

  lemma {:induction false} WholeAccesses(history: seq<Use>, vs: seq<Access>, b: nat)
    requires Whole(history, vs)
    ensures Accesses(history, 1, b) == if b < SIZE then vs else []
  {
    if vs != [] {
      WholeAccesses(history[..|vs| - 1], vs[..|vs| - 1], b);
      assert vs[..|vs| - 1] + [vs[|vs| - 1]] == vs;
    }
  }

  /** The declaration of the whole buffer that such an access comes from. */
  function Declared(v: Access): Declaration {
    Declaration(1, v.kind, v.scope, true, 0, SIZE)
  }

  /** It is accepted unless the byte's state refuses it. */
  lemma WholeIsAccepted(buffers: seq<TrackedBuffer>, deps: seq<Edge>, history: seq<Use>, last: nat, steps: nat, k: nat, vs: seq<Access>, v: Access)
    requires Sound(buffers, deps, history, last, steps) && k < |buffers| && v.step < steps && Whole(history, vs)
    requires buffers[k].handle == 1 && buffers[k].size == Some(SIZE) && buffers[k].exclusive
    requires !Rejected(Replay(vs, true), v)
    ensures BufferFor(buffers, 1) == buffers[k] && Accepts(buffers, steps, Declared(v), v)
    ensures UseOf(Declared(v), buffers[k], v) == Use(1, ALL, v, true)
  {
    BufferForFound(buffers, 1, k);
    var regions := buffers[k].regions;
    assert BufferOk(history, buffers[k], deps, last);
    forall i | 0 <= i < |regions|
      ensures regions[i].range.end.Some? && (Overlaps(regions[i].range, ALL) ==> !Rejected(regions[i].state, v))
    {
      WholeRegion(history, buffers[k], deps, last, vs, i);
    }
  }

  lemma WholeRegion(history: seq<Use>, buffer: TrackedBuffer, deps: seq<Edge>, last: nat, vs: seq<Access>, i: nat)
    requires Forward(deps) && BufferOk(history, buffer, deps, last) && buffer.handle == 1 && buffer.exclusive
    requires Whole(history, vs) && i < |buffer.regions|
    ensures buffer.regions[i].range.end.Some? && buffer.regions[i].state == Replay(vs, true)
  {
    var range := buffer.regions[i].range;
    assert Proper(range);
    ByteOfWhole(history, buffer, deps, last, vs, i, range.begin);
    if range.end.None? {
      ByteOfWhole(history, buffer, deps, last, vs, i, range.begin + SIZE);
    }
  }

  lemma ByteOfWhole(history: seq<Use>, buffer: TrackedBuffer, deps: seq<Edge>, last: nat, vs: seq<Access>, i: nat, b: nat)
    requires Forward(deps) && BufferOk(history, buffer, deps, last) && buffer.handle == 1 && buffer.exclusive
    requires Whole(history, vs) && i < |buffer.regions| && Has(buffer.regions[i].range, b)
    ensures b < SIZE && buffer.regions[i].state == Replay(vs, true)
  {
    AtRegion(buffer.regions, i, b);
    assert ByteOk(history, 1, b, At(buffer.regions, b), true, deps, last);
    WholeAccesses(history, vs, b);
  }

  /** One access of the run, declared to the tracker. */
  method DeclareWhole(t: Tracker, ghost vs: seq<Access>, v: Access, ghost k: nat)
    requires t.Valid() && t.journal == None && t.last <= v.step < |t.before| && Whole(t.history, vs)
    requires k < |t.buffers| && t.buffers[k].handle == 1 && t.buffers[k].size == Some(SIZE) && t.buffers[k].exclusive
    requires !Rejected(Replay(vs, true), v)
    modifies t
    ensures t.Valid() && t.journal == None && t.last == v.step && |t.before| == |old(t.before)| && Whole(t.history, vs + [v])
    ensures k < |t.buffers| && t.buffers[k].handle == 1 && t.buffers[k].size == Some(SIZE) && t.buffers[k].exclusive
  {
    WholeIsAccepted(t.buffers, t.dependencies, t.history, t.last, |t.before|, k, vs, v);
    hide Sound, Recorded, Accepts, Replay, Rejected;
    var ok := t.UseBuffer(Declared(v), v.step, v.family, v.queue);
    assert ok;
  }

  method DeclareTransferred(t: Tracker, moves: bool, ghost k: nat)
    requires t.Valid() && t.journal == None && t.last == 0 && |t.before| == 4 && t.history == []
    requires k < |t.buffers| && t.buffers[k].handle == 1 && t.buffers[k].size == Some(SIZE) && t.buffers[k].exclusive
    modifies t
    ensures t.Valid() && |t.before| == 4 && Whole(t.history, Transferred(moves))
    ensures k < |t.buffers| && t.buffers[k].handle == 1 && t.buffers[k].size == Some(SIZE) && t.buffers[k].exclusive
  {
    hide Sound, Recorded, Replay, Rejected;
    var vs := Transferred(moves);
    for n := 0 to 4
      invariant t.Valid() && t.journal == None && |t.before| == 4 && t.last <= n && Whole(t.history, vs[..n])
      invariant k < |t.buffers| && t.buffers[k].handle == 1 && t.buffers[k].size == Some(SIZE) && t.buffers[k].exclusive
    {
      NotRejectedYet(moves, n);
      DeclareWhole(t, vs[..n], vs[n], k);
      assert vs[..n] + [vs[n]] == vs[..n + 1];
    }
    assert vs[..4] == vs;
  }

  /**
   The runs that fail: the tracker accepts the four uses, and nothing it has
   recorded leads from the write to the second read, or from the first read to
   the last write, be that in the family of the reads or in a third.
   */
  method TransferredRead(moves: bool) returns (t: Tracker, vs: seq<Access>)
    ensures fresh(t) && t.Valid() && vs == Transferred(moves)
    ensures forall b: nat | b < SIZE :: Accesses(t.history, 1, b) == vs
    ensures Forward(t.dependencies) && Conflict(vs[0], vs[2], true) && !Chained(vs, true, t.dependencies, 0, 2)
    ensures Conflict(vs[1], vs[3], true) && !Chained(vs, true, t.dependencies, 1, 3)
  {
    t := new Tracker(4);
    var registered := t.RegisterExtent(Extent(1, SIZE, Exclusive));
    ghost var k :| 0 <= k < |t.buffers| && t.buffers[k].handle == 1 && Registers(t.buffers[k], Extent(1, SIZE, Exclusive));
    hide Sound, Recorded, Replay, AnchorAt, Chained, CutOff, Stranded, Kept;
    vs := Transferred(moves);
    DeclareTransferred(t, moves, k);
    forall b: nat | b < SIZE
      ensures Accesses(t.history, 1, b) == vs
    {
      WholeAccesses(t.history, vs, b);
    }
    BytesAreKept(t.buffers, t.dependencies, t.history, t.last, |t.before|, k, 0);
    TransferredIsStranded(moves, t.dependencies);
    StrandedIsUnchained(vs, true, t.dependencies, 2);
    TransferredIsCut(moves);
    CutOffIsUnchained(vs, true, t.dependencies, 1, 3);
  }
}
