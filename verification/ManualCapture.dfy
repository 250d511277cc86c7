/**
 The capture lifecycle of src/vkexec_profiling/manual_capture.cpp: regions are
 recorded, the capture is submitted, and after the GPU it is resolved or
 discarded. What the source reports as a contract violation is a precondition.
 */
module ManualCapture {
  import opened ProfilerPages
  import opened Profiler
  import opened ProfileEvent
  import Utf8

  /** vkGetFenceStatus. */
  datatype FenceStatus = Success | NotReady | DeviceLost | Failed

  /** A recorded region: its queries and its name. */
  datatype Sample = Sample(allocation: Allocation, name: Utf8.Bytes)

  const NULL: nat := 0

  /** The allocation holds the slot, and the profiler knows it does. */
  ghost predicate Held(state: State, allocation: Allocation, slot: Slot)
    reads state, allocation
  {
    allocation.Holds(state, slot) && slot in state.holders && state.holders[slot] == allocation
  }

  /** The events are those of the samples, in order: valid ones carry the start tick that was read. */
  ghost predicate Describes(events: seq<Event>, samples: seq<Sample>, readings: seq<Reading>, id: nat) {
    && |events| == |samples| == |readings|
    && forall i | 0 <= i < |events| ::
         && events[i].name == samples[i].name && events[i].region == i && events[i].submission == id
         && (events[i].status == Status.Valid ==> readings[i].Read? && events[i].startTick == readings[i].start)
  }

  class Capture {
    var state: State?
    var commandBuffer: nat
    var queue: Queue
    var fence: nat
    var samples: seq<Sample>
    var activeRegions: nat
    var submitted: bool
    var resolved: bool
    var submissionId: nat
    ghost var slots: seq<Slot>          // the slot of each sample
    ghost var openRegions: set<nat>     // the regions begun and not ended

    ghost function Allocations(): set<object>
      reads this
    {
      set s | s in samples :: s.allocation
    }

    /** Each sample holds its own slot of the profiler. */
    ghost predicate Attached()
      reads this, state, Allocations()
    {
      && |slots| == |samples| && NoDuplicates(slots)
      && (state == null ==> samples == [])
      && (state != null ==> state.Valid() && forall i | 0 <= i < |samples| :: Held(state, samples[i].allocation, slots[i]))
    }

    ghost predicate Valid()
      reads this, state, Allocations()
    {
      && Attached()
      && activeRegions == |openRegions| && (forall i | i in openRegions :: i < |samples|)
      && (submitted ==> activeRegions == 0) && (resolved ==> submitted && state == null)
    }

    /** create, its arguments accepted. */
    constructor (s: State, buffer: nat, q: Queue)
      requires s.Valid() && buffer != NULL && q.handle != NULL
      ensures Valid() && state == s && commandBuffer == buffer && queue == q && samples == [] && !submitted && !resolved && activeRegions == 0
    {
      state, commandBuffer, queue, fence := s, buffer, q, NULL;
      samples, activeRegions, submitted, resolved, submissionId := [], 0, false, false, 0;
      slots, openRegions := [], {};
    }

    /** A region begins in a slot no other live region has, of this profiler or another capture of it. */
    method ScopedRegion(name: Utf8.Bytes, created: bool) returns (r: Result<nat>)
      requires Valid()
      modifies this, state
      ensures Valid() && state == old(state)
      ensures state == null || submitted ==> r == Err(InvalidArgument)
      ensures state != null && !submitted ==>
                if !state.Supported(queue) then r == Err(Unsupported)
                else if old(state.inFlight) >= state.options.maxInFlightRegions then r == Err(OutOfRange)
                else if (exists i :: 0 <= i < |old(state.pages)| && old(state.pages)[i].family == queue.family && old(state.pages)[i].free != []) || created then r.Ok?
                else r == Err(Vulkan)
      ensures r.Err? ==> unchanged(this) && (state != null ==> state.holders == old(state.holders) && state.inFlight == old(state.inFlight))
      ensures r.Ok? ==>
                && state != null && !submitted && r.value == |old(samples)| && |samples| == |old(samples)| + 1
                && samples[..r.value] == old(samples) && samples[r.value].name == name && slots[..r.value] == old(slots)
                && slots[r.value] !in old(state.holders) && slots[r.value] !in state.quarantined
                && state.holders == old(state.holders)[slots[r.value] := samples[r.value].allocation]
                && activeRegions == old(activeRegions) + 1 && openRegions == old(openRegions) + {r.value}
    {
      hide State.Valid;
      if state == null || submitted { return Err(InvalidArgument); }
      var reserved := state.Reserve(queue, created);
      if reserved.Err? { return Err(reserved.error); }
      var index := |samples|;
      samples := samples + [Sample(reserved.value, name)];
      slots := slots + [reserved.value.Slot()];
      activeRegions := activeRegions + 1;
      openRegions := openRegions + {index};
      r := Ok(index);
    }

    /** A region ends once: its second query is in the same slot. */
    method EndRegion(index: nat)
      requires Valid() && index in openRegions
      modifies `activeRegions, `openRegions
      ensures Valid() && activeRegions == old(activeRegions) - 1 && openRegions == old(openRegions) - {index}
    {
      hide State.Valid;
      activeRegions := activeRegions - 1;
      openRegions := openRegions - {index};
    }

    method MarkSubmitted(submissionFence: nat, id: nat) returns (ok: bool)
      requires Valid()
      modifies `submitted, `fence, `submissionId
      ensures Valid()
      ensures ok <==> state != null && !old(submitted) && activeRegions == 0 && submissionFence != NULL
      ensures if ok then submitted && fence == submissionFence && submissionId == id else unchanged(this)
    {
      hide State.Valid;
      if state == null || submitted || activeRegions != 0 || submissionFence == NULL { return false; }
      submitted, fence, submissionId := true, submissionFence, id;
      ok := true;
    }

    ghost function Given(n: nat): set<Slot>
      requires n <= |slots|
      reads this
    {
      set i | 0 <= i < n :: slots[i]
    }

    ghost predicate HeldFrom(n: nat)
      requires n <= |samples| == |slots| && state != null
      reads this, state, Allocations()
    {
      forall i | n <= i < |samples| :: Held(state, samples[i].allocation, slots[i])
    }

    method ReleaseSample(i: nat)
      requires state != null && state.Valid() && i < |samples| == |slots| && NoDuplicates(slots) && HeldFrom(i)
      modifies state, samples[i].allocation
      ensures state.Valid() && state.holders == old(state.holders) - {slots[i]} && HeldFrom(i + 1)
      ensures state.inFlight == old(state.inFlight) - 1
      ensures unchanged(state`quarantined, state`published, state`completed, state`taken, state`dropped)
    {
      hide State.Valid;
      assert Held(state, samples[i].allocation, slots[i]);
      samples[i].allocation.Release();
    }

    /** Every sample's slot goes back to the profiler. */
    method ReleaseSamples()
      requires Attached() && state != null
      modifies state, Allocations()
      ensures state.Valid() && state.holders == old(state.holders) - Given(|slots|)
      ensures state.inFlight == old(state.inFlight) - |samples|
      ensures unchanged(state`quarantined, state`published, state`completed, state`taken, state`dropped)
    {
      hide State.Valid;
      for i := 0 to |samples|
        invariant state.Valid() && state.inFlight == old(state.inFlight) - i
        invariant unchanged(state`quarantined, state`published, state`completed, state`taken, state`dropped)
        invariant state.holders == old(state.holders) - Given(i) && HeldFrom(i)
      {
        hide HeldFrom, NoDuplicates;
        ReleaseSample(i);
        assert Given(i + 1) == Given(i) + {slots[i]};
      }
    }

    /** The capture lets go of its profiler; one that is recording, or submitted and unresolved, may not. */
    method Release()
      requires Attached() && (state != null ==> activeRegions == 0 && (submitted ==> resolved))
      modifies this, state, Allocations()
      ensures state == null && samples == [] && slots == []
      ensures unchanged(`activeRegions, `openRegions, `submitted, `resolved, `submissionId, `fence, `queue, `commandBuffer)
      ensures old(state) != null ==>
                && old(state).Valid() && old(state).holders == old(state.holders) - old(Given(|slots|))
                && old(state).inFlight == old(state.inFlight) - old(|samples|)
                && unchanged(old(state)`quarantined, old(state)`published, old(state)`completed, old(state)`taken, old(state)`dropped)
    {
      hide State.Valid;
      if state == null { return; }
      ReleaseSamples();
      samples, slots := [], [];
      state := null;
    }

    /** After the device is lost no slot is given back: they stay out, and keep counting against the limit. */
    method Quarantine()
      requires Valid() && state != null && submitted
      modifies this, state, Allocations()
      ensures Valid() && state == null && resolved && samples == []
      ensures old(state).Valid() && old(state).quarantined == old(state.quarantined) + old(Given(|slots|))
      ensures old(state).holders == old(state.holders) - old(Given(|slots|)) && old(state).inFlight == old(state.inFlight)
      ensures unchanged(old(state)`pages, old(state)`published, old(state)`completed, old(state)`taken, old(state)`dropped)
    {
      hide State.Valid;
      for i := 0 to |samples|
        invariant unchanged(this) && state != null && state.Valid() && state.inFlight == old(state.inFlight)
        invariant unchanged(state`pages, state`published, state`completed, state`taken, state`dropped)
        invariant state.holders == old(state.holders) - Given(i) && state.quarantined == old(state.quarantined) + Given(i)
        invariant forall j | i <= j < |samples| :: Held(state, samples[j].allocation, slots[j])
      {
        samples[i].allocation.Quarantine();
        assert Given(i + 1) == Given(i) + {slots[i]};
      }
      resolved := true;
      samples, slots := [], [];             // the allocations hold nothing, so destroying them gives nothing back
      state := null;
    }

    /** The family each sample was recorded on. */
    ghost predicate Recorded()
      requires state != null
      reads this, state
    {
      forall i | 0 <= i < |slots| :: slots[i].page < |state.pages| && state.pages[slots[i].page].family < |state.families|
    }

    lemma SamplesAreRecorded()
      requires Attached() && state != null
      ensures Recorded()
    {
      forall i | 0 <= i < |slots|
        ensures slots[i].page < |state.pages| && state.pages[slots[i].page].family < |state.families|
      {
        assert Held(state, samples[i].allocation, slots[i]);
        state.HeldIsNotQuarantined(slots[i]);
      }
    }

    /** The events of the samples are published in order, each once. */
    method PublishSamples(readings: seq<Reading>)
      requires Attached() && state != null && |readings| == |samples|
      modifies state
      ensures Recorded() && state.Valid() && unchanged(state`pages, state`holders, state`inFlight, state`quarantined, state`taken)
      ensures |state.published| == old(|state.published|) + |samples| && state.published[..old(|state.published|)] == old(state.published)
      ensures Describes(state.published[old(|state.published|)..], samples, readings, submissionId)
    {
      hide Partitioned, KeptOf, Resolved;
      ghost var before := |state.published|;
      SamplesAreRecorded();
      for i := 0 to |samples|
        invariant state.Valid() && unchanged(state`pages, state`holders, state`inFlight, state`quarantined, state`taken)
        invariant |state.published| == before + i && state.published[..before] == old(state.published)
        invariant forall j | 0 <= j < i ::
                    state.published[before + j]
                    == EventOf(state.families, state.period, state.pages[slots[j].page].family, readings[j], samples[j].name, submissionId, j)
      {
        var allocation := samples[i].allocation;
        assert Held(state, allocation, slots[i]);
        var event := state.Resolve(Slot(allocation.page.value, allocation.first), readings[i], samples[i].name, submissionId, i);
        state.Publish(event);
      }
    }

    /**
     Only after the fence: every region is published once and every slot goes
     back. In flight or on an error the capture keeps its slots, except that a
     lost device quarantines them.
     */
    method ResolveAfterGpu(completion: FenceStatus, readings: seq<Reading>) returns (r: Result<()>)
      requires Valid() && |readings| == |samples|
      modifies this, state, Allocations()
      ensures Valid()
      ensures r.Ok? <==> old(state != null && submitted && !resolved) && completion == Success
      ensures r.Ok? ==>
                && state == null && resolved && old(state).Valid()
                && old(state).holders == old(state.holders) - old(Given(|slots|))
                && old(state).inFlight == old(state.inFlight) - old(|samples|)
                && |old(state).published| == old(|state.published|) + old(|samples|)
                && old(state).published[..old(|state.published|)] == old(state.published)
                && Describes(old(state).published[old(|state.published|)..], old(samples), readings, submissionId)
      ensures old(state == null || !submitted || resolved) ==> r == Err(InvalidArgument) && unchanged(this)
      ensures r.Err? && old(state != null && submitted && !resolved) ==> r == Err(if completion == NotReady then OutOfRange else Vulkan)
      ensures r.Err? && completion != DeviceLost ==> unchanged(this) && (state != null ==> unchanged(state))
      ensures r.Err? && completion == DeviceLost && old(state != null && submitted && !resolved) ==>
                && state == null && old(state).quarantined == old(state.quarantined) + old(Given(|slots|))
                && old(state).inFlight == old(state.inFlight) && old(state).published == old(state.published)
    {
      hide State.Valid, Describes;
      if state == null || !submitted || resolved { return Err(InvalidArgument); }
      if completion == NotReady { return Err(OutOfRange); }
      if completion != Success {
        if completion == DeviceLost { Quarantine(); }
        return Err(Vulkan);
      }
      PublishSamples(readings);
      resolved := true;
      Release();
      r := Ok(());
    }

    /** As ResolveAfterGpu, without publishing anything. */
    method DiscardAfterGpu(completion: FenceStatus) returns (r: Result<()>)
      requires Valid()
      modifies this, state, Allocations()
      ensures Valid()
      ensures r.Ok? <==> old(state != null && submitted && !resolved) && completion == Success
      ensures r.Ok? ==>
                && state == null && resolved && old(state).Valid()
                && old(state).holders == old(state.holders) - old(Given(|slots|))
                && old(state).inFlight == old(state.inFlight) - old(|samples|) && old(state).published == old(state.published)
      ensures old(state == null || !submitted || resolved) ==> r == Err(InvalidArgument) && unchanged(this)
      ensures r.Err? && old(state != null && submitted && !resolved) ==> r == Err(if completion == NotReady then OutOfRange else Vulkan)
      ensures r.Err? && completion != DeviceLost ==> unchanged(this) && (state != null ==> unchanged(state))
      ensures r.Err? && completion == DeviceLost && old(state != null && submitted && !resolved) ==>
                && state == null && old(state).quarantined == old(state.quarantined) + old(Given(|slots|))
                && old(state).inFlight == old(state.inFlight) && old(state).published == old(state.published)
    {
      hide State.Valid;
      if state == null || !submitted || resolved { return Err(InvalidArgument); }
      if completion == NotReady { return Err(OutOfRange); }
      if completion != Success {
        if completion == DeviceLost { Quarantine(); }
        return Err(Vulkan);
      }
      resolved := true;
      Release();
      r := Ok(());
    }

    /** Move assignment: this capture is released, then takes over the other, which is left empty. */
    method MoveFrom(other: Capture)
      requires Valid() && other.Valid() && other.activeRegions == 0
      requires state != null ==> activeRegions == 0 && (submitted ==> resolved)
      requires other != this ==> Allocations() !! other.Allocations()
      modifies this, other, state, Allocations()
      ensures other == this ==> unchanged(this)
      ensures other != this ==>
                && Valid() && other.Valid() && other.state == null && other.samples == []
                && state == old(other.state) && samples == old(other.samples) && slots == old(other.slots)
                && submitted == old(other.submitted) && resolved == old(other.resolved) && fence == old(other.fence)
                && submissionId == old(other.submissionId) && queue == old(other.queue) && commandBuffer == old(other.commandBuffer)
      ensures other != this && old(state) != null ==>
                old(state).Valid() && old(state).holders == old(state.holders) - old(Given(|slots|))
    {
      hide State.Valid;
      if other == this { return; }
      ghost var s, given := state, Given(|slots|);
      if s != null && s == other.state {
        forall i | 0 <= i < |other.samples|
          ensures other.slots[i] !in given
        {
          assert Held(s, other.samples[i].allocation, other.slots[i]);
          assert other.samples[i].allocation in other.Allocations();
          forall j | 0 <= j < |slots|
            ensures slots[j] != other.slots[i]
          {
            assert Held(s, samples[j].allocation, slots[j]);
            assert samples[j].allocation in Allocations();
          }
        }
      }
      Release();
      forall i | 0 <= i < |other.samples|
        ensures Held(other.state, other.samples[i].allocation, other.slots[i])
      {
        assert old(Held(other.state, other.samples[i].allocation, other.slots[i]));
        assert other.samples[i].allocation in old(other.Allocations());
      }
      TakeOver(other);
    }

    /** The move constructor's part. */
    method TakeOver(other: Capture)
      requires other != this && other.Valid() && other.activeRegions == 0
      modifies this, other
      ensures Valid() && other.Valid() && other.state == null && other.samples == []
      ensures state == old(other.state) && samples == old(other.samples) && slots == old(other.slots)
      ensures submitted == old(other.submitted) && resolved == old(other.resolved) && fence == old(other.fence)
      ensures submissionId == old(other.submissionId) && queue == old(other.queue) && commandBuffer == old(other.commandBuffer)
    {
      hide State.Valid, Held, NoDuplicates;
      state, commandBuffer, queue, fence := other.state, other.commandBuffer, other.queue, other.fence;
      samples, slots, submitted, resolved := other.samples, other.slots, other.submitted, other.resolved;
      submissionId, activeRegions, openRegions := other.submissionId, 0, {};
      other.Empty();
      if state != null {
        assert old(other.state.Valid());
        forall i | 0 <= i < |samples|
          ensures Held(state, samples[i].allocation, slots[i])
        {
          assert old(Held(other.state, other.samples[i].allocation, other.slots[i]));
        }
      }
    }

    static lemma NothingTwice()
      ensures NoDuplicates<Slot>([])
    {
    }

    /** What a moved-from capture is left with. */
    method Empty()
      modifies this
      ensures Valid() && state == null && samples == [] && !submitted && !resolved
    {
      hide State.Valid, Held, NoDuplicates;
      assert NoDuplicates<Slot>([]) by { NothingTwice(); }
      state, commandBuffer, fence, samples, slots := null, NULL, NULL, [], [];
      submitted, resolved, submissionId, activeRegions, openRegions := false, false, 0, 0, {};
    }
  }
}
