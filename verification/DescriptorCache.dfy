/**
 The descriptor sets of one submission: src/vkexec/submit_scope.cpp. A set is
 reused for a pipeline while the bindings stay the same; what is handed out is
 always what a fresh allocation would hold.
 */
module DescriptorCache {
  import opened Fallible

  type Handle = nat
  const NULL: Handle := 0

  /** A storage buffer bound at a slot. */
  datatype Binding = Binding(slot: nat, buffer: Handle, size: nat)

  /** A pipeline, known by its address. */
  datatype Pipeline = Pipeline(address: nat, pool: Handle)

  /** A live descriptor set: its pool and what each slot holds. */
  datatype Descriptors = Descriptors(pool: Handle, slots: map<nat, (Handle, nat)>)

  /** What writing the bindings in order leaves in the slots: a later binding of a slot wins. */
  function Written(bindings: seq<Binding>): map<nat, (Handle, nat)> {
    if bindings == [] then map[]
    else
      var last := bindings[|bindings| - 1];
      Written(bindings[..|bindings| - 1])[last.slot := (last.buffer, last.size)]
  }

  /** A slot holds what the last binding of it says, and nothing if there is none. */
  lemma {:induction false} WrittenHolds(bindings: seq<Binding>, slot: nat)
    ensures slot in Written(bindings) <==> exists i :: 0 <= i < |bindings| && bindings[i].slot == slot
    ensures forall i | 0 <= i < |bindings| && bindings[i].slot == slot && (forall j | i < j < |bindings| :: bindings[j].slot != slot) ::
              Written(bindings)[slot] == (bindings[i].buffer, bindings[i].size)
  {
    if bindings != [] {
      var n := |bindings| - 1;
      var rest := bindings[..n];
      WrittenHolds(rest, slot);
      assert forall i | 0 <= i < n :: rest[i] == bindings[i];
    }
  }

  /** The descriptor sets of a device. */
  class Device {
    var live: map<Handle, Descriptors>

    constructor ()
      ensures live == map[]
    {
      live := map[];
    }

    /** vkAllocateDescriptorSets: a new set, when the pool has room; a handle that is null or not new stands for a failure. */
    method Allocate(pool: Handle, made: Handle) returns (r: Result<Handle>)
      modifies this
      ensures r == if made != NULL && made !in old(live) then Ok(made) else Err
      ensures if r.Ok? then live == old(live)[made := Descriptors(pool, map[])] else unchanged(this)
    {
      if made == NULL || made in live { return Err; }
      live := live[made := Descriptors(pool, map[])];
      r := Ok(made);
    }

    /** write_storage_descriptors. */
    method WriteStorageDescriptors(handle: Handle, bindings: seq<Binding>)
      requires handle in live && live[handle].slots == map[]
      modifies this
      ensures handle in live && live == old(live)[handle := live[handle]]
      ensures live[handle] == Descriptors(old(live)[handle].pool, Written(bindings))
    {
      if bindings == [] { return; }
      var slots: map<nat, (Handle, nat)> := map[];
      for i := 0 to |bindings|
        invariant slots == Written(bindings[..i])
      {
        assert bindings[..i + 1][..i] == bindings[..i];
        slots := slots[bindings[i].slot := (bindings[i].buffer, bindings[i].size)];
      }
      assert bindings[..|bindings|] == bindings;
      live := live[handle := live[handle].(slots := slots)];
    }

    /** vkFreeDescriptorSets: a live set, into the pool it came from. */
    method Free(pool: Handle, handle: Handle)
      requires handle in live && live[handle].pool == pool
      modifies this
      ensures live == old(live) - {handle}
    {
      live := live - {handle};
    }
  }

  /** allocate_compute_set: the fresh allocation the cache has to agree with. */
  method AllocateComputeSet(d: Device, pipe: Pipeline, bindings: seq<Binding>, made: Handle) returns (r: Result<Handle>)
    modifies d
    ensures r == if made != NULL && made !in old(d.live) then Ok(made) else Err
    ensures if r.Ok? then d.live == old(d.live)[made := Descriptors(pipe.pool, Written(bindings))] else unchanged(d)
  {
    r := d.Allocate(pipe.pool, made);
    if r.Err? { return; }
    d.WriteStorageDescriptors(made, bindings);
  }

  datatype AllocatedSet = AllocatedSet(pool: Handle, handle: Handle)

  datatype Entry = Entry(pipeline: Pipeline, bindings: seq<Binding>, handle: Handle)

  class DescriptorCleanup {
    var sets: seq<Entry>
    var tracked: seq<AllocatedSet>

    constructor ()
      ensures sets == [] && tracked == []
    {
      sets, tracked := [], [];
    }

    /** Each tracked set is live, in its pool, and tracked once. */
    ghost predicate TracksLiveSets(d: Device)
      reads this, d
    {
      && (forall i, j | 0 <= i < j < |tracked| :: tracked[i].handle != tracked[j].handle)
      && (forall i | 0 <= i < |tracked| :: tracked[i].handle in d.live && d.live[tracked[i].handle].pool == tracked[i].pool)
    }

    /** One entry a pipeline, whose tracked set holds exactly the entry's bindings. */
    ghost predicate EntriesHold(d: Device)
      reads this, d
    {
      && (forall i, j | 0 <= i < j < |sets| :: sets[i].pipeline.address != sets[j].pipeline.address)
      && (forall i | 0 <= i < |sets| ::
            && AllocatedSet(sets[i].pipeline.pool, sets[i].handle) in tracked
            && sets[i].handle in d.live && d.live[sets[i].handle] == Descriptors(sets[i].pipeline.pool, Written(sets[i].bindings)))
    }

    ghost predicate Valid(d: Device)
      reads this, d
    {
      TracksLiveSets(d) && EntriesHold(d)
    }

    method FindEntry(pipe: Pipeline) returns (i: nat)
      ensures i <= |sets|
      ensures i < |sets| ==> sets[i].pipeline.address == pipe.address
      ensures i == |sets| ==> forall j | 0 <= j < |sets| :: sets[j].pipeline.address != pipe.address
    {
      for k := 0 to |sets|
        invariant forall j | 0 <= j < k :: sets[j].pipeline.address != pipe.address
      {
        if sets[k].pipeline.address == pipe.address { return k; }
      }
      i := |sets|;
    }

    /**
     The set returned holds exactly the requested bindings, is tracked, and no
     live set is rewritten; a set is reused only while its bindings are the same.
     */
    method BindOrAllocateSet(d: Device, pipe: Pipeline, bindings: seq<Binding>, made: Handle) returns (r: Result<Handle>)
      requires Valid(d) && forall i | 0 <= i < |sets| && sets[i].pipeline.address == pipe.address :: sets[i].pipeline == pipe
      modifies this, d
      ensures Valid(d)
      ensures r.Ok? ==> r.value in d.live && d.live[r.value] == Descriptors(pipe.pool, Written(bindings))
                        && AllocatedSet(pipe.pool, r.value) in tracked
      ensures forall s | s in old(d.live) :: s in d.live && d.live[s] == old(d.live)[s]
      ensures (exists e | e in old(sets) :: e.pipeline.address == pipe.address && e.bindings == bindings) ==>
                r.Ok? && unchanged(d) && unchanged(this) && Entry(pipe, bindings, r.value) in sets
      ensures (forall e | e in old(sets) :: e.pipeline.address != pipe.address || e.bindings != bindings) ==>
                && (r.Ok? <==> made != NULL && made !in old(d.live))
                && if r.Err? then unchanged(d) && unchanged(this)
                else && r.value !in old(d.live) && tracked == old(tracked) + [AllocatedSet(pipe.pool, r.value)]
                     && Entry(pipe, bindings, r.value) in sets
      ensures |sets| == |old(sets)| + if r.Ok? && (forall e | e in old(sets) :: e.pipeline.address != pipe.address) then 1 else 0
      ensures forall e | e in old(sets) && e.pipeline.address != pipe.address :: e in sets
    {
      var found := FindEntry(pipe);
      if found < |sets| && sets[found].bindings == bindings {
        assert sets[found] in sets;
        return Ok(sets[found].handle);
      }
      r := AllocateComputeSet(d, pipe, bindings, made);
      if r.Err? { return; }
      var entry := Entry(pipe, bindings, r.value);
      tracked := tracked + [AllocatedSet(pipe.pool, r.value)];
      assert AllocatedSet(pipe.pool, r.value) == tracked[|tracked| - 1];
      if found < |sets| {
        sets := sets[found := entry];
      } else {
        sets := sets + [entry];
      }
      OneMoreEntry(old(sets), sets, found, entry);
    }

    lemma OneMoreEntry(was: seq<Entry>, now: seq<Entry>, found: nat, entry: Entry)
      requires found <= |was| && now == if found < |was| then was[found := entry] else was + [entry]
      requires found < |was| ==> was[found].pipeline.address == entry.pipeline.address
      ensures entry in now && forall e | e in was && e.pipeline.address != entry.pipeline.address :: e in now
    {
      assert entry == now[found];
      assert forall i | 0 <= i < |was| && i != found :: now[i] == was[i];
    }

    /** Records a set allocated elsewhere. */
    method Track(d: Device, pool: Handle, handle: Handle)
      requires Valid(d) && handle in d.live && d.live[handle].pool == pool && forall a | a in tracked :: a.handle != handle
      modifies this
      ensures Valid(d) && tracked == old(tracked) + [AllocatedSet(pool, handle)] && sets == old(sets)
    {
      tracked := tracked + [AllocatedSet(pool, handle)];
      assert forall a | a in old(tracked) :: a in tracked;
    }

    /** Every tracked set is freed, once, and nothing else is. */
    method Release(d: Device)
      requires TracksLiveSets(d)
      modifies this, d
      ensures d.live == old(d.live) - (set a | a in old(tracked) :: a.handle)
      ensures tracked == [] && sets == [] && Valid(d)
    {
      ghost var freed: set<Handle> := {};
      for i := 0 to |tracked|
        invariant tracked == old(tracked) && freed == (set j | 0 <= j < i :: tracked[j].handle)
        invariant d.live == old(d.live) - freed
        invariant forall j | i <= j < |tracked| :: tracked[j].handle in d.live && d.live[tracked[j].handle].pool == tracked[j].pool
      {
        d.Free(tracked[i].pool, tracked[i].handle);
        freed := freed + {tracked[i].handle};
      }
      assert freed == (set a | a in tracked :: a.handle);
      tracked, sets := [], [];
    }

    /** Move assignment of the vectors. */
    method MoveFrom(other: DescriptorCleanup)
      requires other != this
      modifies this, other
      ensures sets == old(other.sets) && tracked == old(other.tracked) && other.sets == [] && other.tracked == []
    {
      sets, tracked := other.sets, other.tracked;
      other.sets, other.tracked := [], [];
    }
  }
}
