/**
 What a bound table tells the graph planner: src/vkexec/pass.cpp for compute and
 include/vkexec_graphics/graphics_pipeline_resources.hpp for graphics. The
 metadata is complete exactly when the table is a one-to-one match of the layout.
 */
module Bindings {
  import opened Optional

  const NULL: nat := 0

  datatype Kind = StorageBuffer | StorageImage | SampledImage | Sampler

  datatype BindingAccess = ReadOnly | WriteOnly | ReadWrite

  datatype Access = Read | Write | ReadAndWrite

  /** resource_ref; range stands for the subresource range apart from its aspects. */
  datatype Resource = Resource(kind: Kind, buffer: nat, byteSize: nat, image: nat, aspects: nat, range: nat, initialLayout: nat, layout: nat)

  datatype Entry = Entry(slot: nat, resource: Resource)

  datatype BufferUse = BufferUse(buffer: nat, size: nat, access: Access)

  datatype ImageUse = ImageUse(image: nat, aspects: nat, range: nat, sampled: bool, access: Access, initialLayout: nat, layout: nat)

  datatype Metadata = Nothing | Partial | Complete

  datatype Bind = Bind(images: seq<ImageUse>, buffers: seq<BufferUse>, metadata: Metadata)

  /** isOpaque: the layout has descriptors the pipeline knows nothing about. */
  datatype ComputePipeline = ComputePipeline(isOpaque: bool, bindingCount: nat, accesses: seq<BindingAccess>, slots: seq<nat>, kinds: seq<Kind>)

  datatype GraphicsPipeline = GraphicsPipeline(isOpaque: bool, bindingCount: nat, slots: seq<nat>, kinds: seq<Kind>)

  // ------------------------------------------------------------- matching

  /** The first place of a slot. */
  function Find(slots: seq<nat>, slot: nat): (r: Option<nat>)
    ensures r.Some? ==> r.value < |slots| && slots[r.value] == slot && slot !in slots[..r.value]
    ensures r.None? ==> slot !in slots
  {
    if slots == [] then None
    else if slots[0] == slot then Some(0)
    else match Find(slots[1..], slot) {
      case None => None
      case Some(i) => Some(i + 1)
    }
  }

  /** Every entry lands on a binding, no two on the same, and every binding has one. */
  predicate OneToOne(places: seq<Option<nat>>, n: nat) {
    && (forall e | 0 <= e < |places| :: places[e].Some? && places[e].value < n)
    && (forall e, f | 0 <= e < f < |places| :: places[e] != places[f])
    && (forall i: nat | i < n :: Some(i) in places)
  }

  predicate Fresh(places: seq<Option<nat>>, e: nat, n: nat)
    requires e < |places|
  {
    places[e].Some? && places[e].value < n && forall f | 0 <= f < e :: places[f] != places[e]
  }

  lemma {:induction false} FreshPlacesFill(places: seq<Option<nat>>, n: nat, k: nat) returns (taken: set<nat>)
    requires k <= |places| && forall e | 0 <= e < k :: Fresh(places, e, n)
    ensures |taken| == k && forall i :: i in taken <==> i < n && exists e :: 0 <= e < k && places[e] == Some(i)
  {
    taken := {};
    for m := 0 to k
      invariant |taken| == m && forall i :: i in taken <==> i < n && exists e :: 0 <= e < m && places[e] == Some(i)
    {
      assert Fresh(places, m, n);
      taken := taken + {places[m].value};
    }
  }

  lemma {:induction false} BelowAll(s: set<nat>, n: nat)
    requires |s| == n && forall i | i in s :: i < n
    ensures forall i: nat | i < n :: i in s
  {
    if n > 0 {
      var rest := s - {n - 1};
      if n - 1 !in s {
        var i :| i in s;
        AtMost(s, n - 1);
      } else {
        BelowAll(rest, n - 1);
      }
    }
  }

  lemma {:induction false} AtMost(s: set<nat>, n: nat)
    requires forall i | i in s :: i < n
    ensures |s| <= n
  {
    if n == 0 {
      assert s == {};
    } else {
      AtMost(s - {n - 1}, n - 1);
    }
  }

  /** As many entries as bindings, each landing on a fresh one, leave no binding over: the last scan for one can find nothing. */
  lemma FreshIsOneToOne(places: seq<Option<nat>>, n: nat)
    requires |places| == n
    ensures (forall e | 0 <= e < n :: Fresh(places, e, n)) <==> OneToOne(places, n)
  {
    if forall e | 0 <= e < n :: Fresh(places, e, n) {
      var taken := FreshPlacesFill(places, n, n);
      BelowAll(taken, n);
      forall i: nat | i < n
        ensures Some(i) in places
      {
        assert i in taken;
        var e :| 0 <= e < n && places[e] == Some(i);
      }
      forall e | 0 <= e < n
        ensures places[e].Some? && places[e].value < n
      {
        assert Fresh(places, e, n);
      }
      forall e, f | 0 <= e < f < n
        ensures places[e] != places[f]
      {
        assert Fresh(places, f, n);
      }
    }
    if OneToOne(places, n) {
      forall e | 0 <= e < n
        ensures Fresh(places, e, n)
      {
        forall f | 0 <= f < e
          ensures places[f] != places[e]
        {
        }
      }
    }
  }

  // ------------------------------------------- at most one use an entry

  /** The parts below k one after the other. */
  function Flat<T>(part: nat -> seq<T>, k: nat): seq<T> {
    if k == 0 then [] else Flat(part, k - 1) + part(k - 1)
  }

  lemma {:induction false} FlatCount<T>(part: nat -> seq<T>, k: nat)
    requires forall e: nat :: |part(e)| <= 1
    ensures |Flat(part, k)| == |set e: nat | e < k && part(e) != []|
  {
    if k > 0 {
      FlatCount(part, k - 1);
      var before := set e: nat | e < k - 1 && part(e) != [];
      assert (set e: nat | e < k && part(e) != []) == if part(k - 1) == [] then before else before + {k - 1};
    }
  }

  /** What entry e adds comes after what the entries before it add. */
  lemma {:induction false} FlatHolds<T>(part: nat -> seq<T>, k: nat, e: nat)
    requires (forall f: nat :: |part(f)| <= 1) && e < k && part(e) != []
    ensures var n := |set f: nat | f < e && part(f) != []|; n < |Flat(part, k)| && Flat(part, k)[n] == part(e)[0]
    decreases k
  {
    if e == k - 1 {
      FlatCount(part, e);
    } else {
      FlatHolds(part, k - 1, e);
    }
  }

  // -------------------------------------------------------------- compute

  /** binding_index: without slots of their own, bindings are numbered in order. */
  function BindingIndex(pipe: ComputePipeline, slot: nat): Option<nat> {
    if pipe.slots == [] then Some(slot) else Find(pipe.slots, slot)
  }

  function ComputePlaces(pipe: ComputePipeline, table: seq<Entry>): (places: seq<Option<nat>>)
    ensures |places| == |table| && forall e | 0 <= e < |table| :: places[e] == BindingIndex(pipe, table[e].slot)
  {
    seq(|table|, e requires 0 <= e < |table| => BindingIndex(pipe, table[e].slot))
  }

  function AccessFor(access: BindingAccess): Access {
    match access
    case ReadOnly => Read
    case WriteOnly => Write
    case ReadWrite => ReadAndWrite
  }

  /** A resource the planner can be told about, under the access its binding declares. */
  predicate Usable(r: Resource, access: BindingAccess) {
    match r.kind
    case Sampler => true
    case StorageBuffer => r.buffer != NULL && r.byteSize != 0
    case StorageImage => r.image != NULL && r.aspects != 0
    case SampledImage => access == ReadOnly && r.image != NULL && r.aspects != 0
  }

  function BuffersOf(r: Resource, access: Access): seq<BufferUse> {
    if r.kind == StorageBuffer then [BufferUse(r.buffer, r.byteSize, access)] else []
  }

  function ImagesOf(r: Resource, access: Access): seq<ImageUse> {
    if r.kind == SampledImage || r.kind == StorageImage then
      [ImageUse(r.image, r.aspects, r.range, r.kind == SampledImage, if r.kind == SampledImage then Read else access, r.initialLayout, r.layout)]
    else []
  }

  /** append_resource_use. */
  method AppendResourceUse(bind: Bind, r: Resource, access: BindingAccess) returns (now: Bind)
    ensures now.metadata == if Usable(r, access) then bind.metadata else Partial
    ensures now.buffers == bind.buffers + if Usable(r, access) then BuffersOf(r, AccessFor(access)) else []
    ensures now.images == bind.images + if Usable(r, access) then ImagesOf(r, AccessFor(access)) else []
    ensures Usable(r, access) <==>
              || r.kind == Sampler || (r.kind == StorageBuffer && r.buffer != 0 && r.byteSize != 0)
              || ((r.kind == StorageImage || (r.kind == SampledImage && access == ReadOnly)) && r.image != 0 && r.aspects != 0)
    ensures var declared := match access { case ReadOnly => Read case WriteOnly => Write case ReadWrite => ReadAndWrite };
            Usable(r, access) ==>
              match r.kind
              case Sampler => now == bind
              case StorageBuffer => now == bind.(buffers := bind.buffers + [BufferUse(r.buffer, r.byteSize, declared)])
              case StorageImage => now == bind.(images := bind.images + [ImageUse(r.image, r.aspects, r.range, false, declared, r.initialLayout, r.layout)])
              case SampledImage => now == bind.(images := bind.images + [ImageUse(r.image, r.aspects, r.range, true, Read, r.initialLayout, r.layout)])
  {
    if r.kind == Sampler { return bind; }
    if r.kind == SampledImage && access != ReadOnly { return bind.(metadata := Partial); }
    if r.kind == StorageBuffer {
      if r.buffer == NULL || r.byteSize == 0 { return bind.(metadata := Partial); }
      return bind.(buffers := bind.buffers + [BufferUse(r.buffer, r.byteSize, AccessFor(access))]);
    }
    if r.image == NULL || r.aspects == 0 { return bind.(metadata := Partial); }
    now := bind.(images := bind.images + [ImageUse(r.image, r.aspects, r.range, r.kind == SampledImage,
                                                   if r.kind == SampledImage then Read else AccessFor(access), r.initialLayout, r.layout)]);
  }

  function KindAt(pipe: ComputePipeline, i: nat): Kind {
    if pipe.kinds == [] || i >= |pipe.kinds| then StorageBuffer else pipe.kinds[i]
  }

  /** The lists of the layout and the table are of one length. */
  predicate ComputeShape(pipe: ComputePipeline, table: seq<Entry>) {
    && !pipe.isOpaque && pipe.bindingCount == |pipe.accesses| == |table|
    && (pipe.kinds == [] || |pipe.kinds| == |pipe.accesses|)
  }

  /** The resource is of the kind its binding declares, and usable under the binding's access. */
  predicate ComputeMatch(pipe: ComputePipeline, r: Resource, i: nat)
    requires i < |pipe.accesses|
  {
    (pipe.kinds == [] || i < |pipe.kinds|) && KindAt(pipe, i) == r.kind && Usable(r, pipe.accesses[i])
  }

  /** Entry e is the first on its binding and matches it. */
  predicate ComputeTaken(pipe: ComputePipeline, table: seq<Entry>, e: nat)
    requires e < |table|
  {
    var places := ComputePlaces(pipe, table);
    Fresh(places, e, |pipe.accesses|) && ComputeMatch(pipe, table[e].resource, places[e].value)
  }

  /** The buffers of the first k entries that are taken, each with its binding's access, in table order. */
  function ComputeBuffers(pipe: ComputePipeline, table: seq<Entry>, k: nat): seq<BufferUse>
    requires k <= |table|
  {
    if k == 0 then []
    else ComputeBuffers(pipe, table, k - 1)
         + if ComputeTaken(pipe, table, k - 1) then
             BuffersOf(table[k - 1].resource, AccessFor(pipe.accesses[BindingIndex(pipe, table[k - 1].slot).value]))
           else []
  }

  function ComputeImages(pipe: ComputePipeline, table: seq<Entry>, k: nat): seq<ImageUse>
    requires k <= |table|
  {
    if k == 0 then []
    else ComputeImages(pipe, table, k - 1)
         + if ComputeTaken(pipe, table, k - 1) then
             ImagesOf(table[k - 1].resource, AccessFor(pipe.accesses[BindingIndex(pipe, table[k - 1].slot).value]))
           else []
  }

  /** What complete metadata means: the table is a one-to-one match of the layout. */
  predicate ComputeComplete(pipe: ComputePipeline, table: seq<Entry>) {
    && ComputeShape(pipe, table) && OneToOne(ComputePlaces(pipe, table), |pipe.accesses|)
    && forall e | 0 <= e < |table| :: ComputeMatch(pipe, table[e].resource, ComputePlaces(pipe, table)[e].value)
  }

  lemma {:induction false} FindIsFirst(slots: seq<nat>, slot: nat, i: nat)
    requires i < |slots| && slots[i] == slot && forall j | 0 <= j < i :: slots[j] != slot
    ensures Find(slots, slot) == Some(i)
  {
    if i > 0 {
      assert slots[0] != slot;
      FindIsFirst(slots[1..], slot, i - 1);
    }
  }

  /** Binding i is the first with the slot. */
  predicate FirstWith(slots: seq<nat>, slot: nat, i: nat) {
    i < |slots| && slots[i] == slot && forall j | 0 <= j < i :: slots[j] != slot
  }

  lemma FoundIs(slots: seq<nat>, slot: nat)
    ensures forall i: nat :: Find(slots, slot) == Some(i) <==> FirstWith(slots, slot, i)
  {
    forall i: nat
      ensures Find(slots, slot) == Some(i) <==> FirstWith(slots, slot, i)
    {
      if FirstWith(slots, slot, i) { FindIsFirst(slots, slot, i); }
      if Find(slots, slot) == Some(i) {
        assert forall j | 0 <= j < i :: slots[..i][j] == slots[j];
      }
    }
  }

  /** The place is the i-th binding's: by number, or as the first with the slot. */
  predicate PlacedAt(pipe: ComputePipeline, slot: nat, i: nat) {
    if pipe.slots == [] then slot == i else FirstWith(pipe.slots, slot, i)
  }

  lemma PlaceIs(pipe: ComputePipeline, slot: nat)
    ensures forall i: nat :: BindingIndex(pipe, slot) == Some(i) <==> PlacedAt(pipe, slot, i)
  {
    FoundIs(pipe.slots, slot);
  }

  /** The entry is on the i-th binding, of the kind declared there, a storage buffer if none is, and there is something to use. */
  predicate FillsBinding(pipe: ComputePipeline, entry: Entry, i: nat) {
    && i < |pipe.accesses| && PlacedAt(pipe, entry.slot, i)
    && (if pipe.kinds == [] then entry.resource.kind == StorageBuffer else i < |pipe.kinds| && entry.resource.kind == pipe.kinds[i])
    && Usable(entry.resource, pipe.accesses[i])
  }

  ghost predicate Fills(pipe: ComputePipeline, entry: Entry) {
    exists i: nat :: FillsBinding(pipe, entry, i)
  }

  /** No two entries have one slot, and each fills a binding. */
  ghost predicate AllFill(pipe: ComputePipeline, table: seq<Entry>) {
    && (forall e, f | 0 <= e < f < |table| :: table[e].slot != table[f].slot)
    && forall e | 0 <= e < |table| :: Fills(pipe, table[e])
  }

  /** What complete means: a layout that is known, as many entries as bindings, and each binding filled by one. */
  lemma ComputeCompleteMeans(pipe: ComputePipeline, table: seq<Entry>)
    ensures ComputeComplete(pipe, table) <==>
              && !pipe.isOpaque && pipe.bindingCount == |pipe.accesses| && |pipe.accesses| == |table|
              && (pipe.kinds != [] ==> |pipe.kinds| == |pipe.accesses|) && AllFill(pipe, table)
  {
    hide AllFill;
    if ComputeComplete(pipe, table) { CompleteFills(pipe, table); }
    if ComputeShape(pipe, table) && AllFill(pipe, table) { FilledIsComplete(pipe, table); }
  }

  lemma CompleteFills(pipe: ComputePipeline, table: seq<Entry>)
    requires ComputeComplete(pipe, table)
    ensures AllFill(pipe, table)
  {
    var places := ComputePlaces(pipe, table);
    EachOnItsOwn(places, |pipe.accesses|);
    forall e | 0 <= e < |table|
      ensures Fills(pipe, table[e])
    {
      PlaceIs(pipe, table[e].slot);
      assert FillsBinding(pipe, table[e], places[e].value);
    }
    forall e, f | 0 <= e < f < |table|
      ensures table[e].slot != table[f].slot
    {
      assert places[e] != places[f];
    }
  }

  lemma FilledIsTaken(pipe: ComputePipeline, table: seq<Entry>, e: nat)
    requires ComputeShape(pipe, table) && AllFill(pipe, table) && e < |table|
    ensures ComputeTaken(pipe, table, e)
  {
    hide BindingIndex, PlacedAt, Usable;
    var places := ComputePlaces(pipe, table);
    assert Fills(pipe, table[e]);
    var i: nat :| FillsBinding(pipe, table[e], i);
    PlaceIs(pipe, table[e].slot);
    forall f | 0 <= f < e
      ensures places[f] != places[e]
    {
      PlaceIs(pipe, table[f].slot);
      if places[f] == places[e] { OnePlaceOneSlot(pipe, table[f].slot, table[e].slot, i); }
    }
  }

  lemma FilledIsComplete(pipe: ComputePipeline, table: seq<Entry>)
    requires ComputeShape(pipe, table) && AllFill(pipe, table)
    ensures ComputeComplete(pipe, table)
  {
    forall e | 0 <= e < |table|
      ensures ComputeTaken(pipe, table, e)
    {
      FilledIsTaken(pipe, table, e);
    }
    AllTakenIsComplete(pipe, table);
  }

  lemma EachOnItsOwn(places: seq<Option<nat>>, n: nat)
    requires OneToOne(places, n)
    ensures forall e | 0 <= e < |places| :: places[e].Some? && places[e].value < n
    ensures forall e, f | 0 <= e < f < |places| :: places[e] != places[f]
  {
  }

  lemma OnePlaceOneSlot(pipe: ComputePipeline, s: nat, t: nat, i: nat)
    requires PlacedAt(pipe, s, i) && PlacedAt(pipe, t, i)
    ensures s == t
  {
  }

  lemma AllTakenIsComplete(pipe: ComputePipeline, table: seq<Entry>)
    requires ComputeShape(pipe, table)
    ensures (forall e | 0 <= e < |table| :: ComputeTaken(pipe, table, e)) <==> ComputeComplete(pipe, table)
  {
    var places := ComputePlaces(pipe, table);
    FreshIsOneToOne(places, |table|);
    if forall e | 0 <= e < |table| :: ComputeTaken(pipe, table, e) {
      forall e | 0 <= e < |table|
        ensures Fresh(places, e, |table|) && ComputeMatch(pipe, table[e].resource, places[e].value)
      {
        assert ComputeTaken(pipe, table, e);
      }
    }
  }

  /** An entry is taken exactly if it fills a binding that none before it is on. */
  lemma ComputeTakenMeans(pipe: ComputePipeline, table: seq<Entry>, e: nat)
    requires e < |table|
    ensures ComputeTaken(pipe, table, e) <==>
            exists i: nat :: FillsBinding(pipe, table[e], i) && forall f | 0 <= f < e :: !PlacedAt(pipe, table[f].slot, i)
  {
    hide BindingIndex, PlacedAt, Usable;
    var places := ComputePlaces(pipe, table);
    PlaceIs(pipe, table[e].slot);
    forall f | 0 <= f < e
      ensures forall i: nat :: places[f] == Some(i) <==> PlacedAt(pipe, table[f].slot, i)
    {
      PlaceIs(pipe, table[f].slot);
    }
    if ComputeTaken(pipe, table, e) {
      assert FillsBinding(pipe, table[e], places[e].value);
    }
  }

  function ComputeBufferOf(pipe: ComputePipeline, table: seq<Entry>, e: nat): seq<BufferUse> {
    if e < |table| && ComputeTaken(pipe, table, e) then
      BuffersOf(table[e].resource, AccessFor(pipe.accesses[BindingIndex(pipe, table[e].slot).value]))
    else []
  }

  function ComputeImageOf(pipe: ComputePipeline, table: seq<Entry>, e: nat): seq<ImageUse> {
    if e < |table| && ComputeTaken(pipe, table, e) then
      ImagesOf(table[e].resource, AccessFor(pipe.accesses[BindingIndex(pipe, table[e].slot).value]))
    else []
  }

  lemma {:induction false} ComputeUsesAreFlat(pipe: ComputePipeline, table: seq<Entry>, k: nat)
    requires k <= |table|
    ensures ComputeBuffers(pipe, table, k) == Flat(e => ComputeBufferOf(pipe, table, e), k)
    ensures ComputeImages(pipe, table, k) == Flat(e => ComputeImageOf(pipe, table, e), k)
  {
    hide ComputeTaken, BuffersOf, ImagesOf, BindingIndex;
    if k > 0 { ComputeUsesAreFlat(pipe, table, k - 1); }
  }

  predicate IsBuffer(r: Resource) {
    r.kind == StorageBuffer
  }

  predicate IsImage(r: Resource) {
    r.kind == StorageImage || r.kind == SampledImage
  }

  /** The use of a buffer that is taken, with the access of the binding it is on, comes after those of the buffers taken before. */
  lemma ComputeBuffersAre(pipe: ComputePipeline, table: seq<Entry>, e: nat, i: nat)
    requires e < |table| && ComputeTaken(pipe, table, e) && PlacedAt(pipe, table[e].slot, i) && IsBuffer(table[e].resource)
    ensures i < |pipe.accesses|
    ensures var r, buffers := table[e].resource, ComputeBuffers(pipe, table, |table|);
            var n := |set f: nat | f < e && ComputeTaken(pipe, table, f) && IsBuffer(table[f].resource)|;
            n < |buffers| && buffers[n] == BufferUse(r.buffer, r.byteSize, match pipe.accesses[i] { case ReadOnly => Read case WriteOnly => Write case ReadWrite => ReadAndWrite })
  {
    PlaceIs(pipe, table[e].slot);
    ComputeUsesAreFlat(pipe, table, |table|);
    hide BindingIndex, PlacedAt, ComputeTaken;
    var part := f => ComputeBufferOf(pipe, table, f);
    FlatHolds(part, |table|, e);
    assert (set f: nat | f < e && part(f) != []) == set f: nat | f < e && ComputeTaken(pipe, table, f) && IsBuffer(table[f].resource);
  }

  lemma ComputeImagesAre(pipe: ComputePipeline, table: seq<Entry>, e: nat, i: nat)
    requires e < |table| && ComputeTaken(pipe, table, e) && PlacedAt(pipe, table[e].slot, i) && IsImage(table[e].resource)
    ensures i < |pipe.accesses|
    ensures var r, images := table[e].resource, ComputeImages(pipe, table, |table|);
            var n := |set f: nat | f < e && ComputeTaken(pipe, table, f) && IsImage(table[f].resource)|;
            var access := if r.kind == SampledImage then Read else match pipe.accesses[i] { case ReadOnly => Read case WriteOnly => Write case ReadWrite => ReadAndWrite };
            n < |images| && images[n] == ImageUse(r.image, r.aspects, r.range, r.kind == SampledImage, access, r.initialLayout, r.layout)
  {
    PlaceIs(pipe, table[e].slot);
    ComputeUsesAreFlat(pipe, table, |table|);
    hide BindingIndex, PlacedAt, ComputeTaken;
    var part := f => ComputeImageOf(pipe, table, f);
    FlatHolds(part, |table|, e);
    assert (set f: nat | f < e && part(f) != []) == set f: nat | f < e && ComputeTaken(pipe, table, f) && IsImage(table[f].resource);
  }

  /** The bindings the first k entries landed on. */
  predicate SeenBy(seen: seq<bool>, pipe: ComputePipeline, table: seq<Entry>, k: nat)
    requires k <= |table|
  {
    |seen| == |pipe.accesses| && forall i: nat | i < |seen| :: seen[i] <==> exists f :: 0 <= f < k && BindingIndex(pipe, table[f].slot) == Some(i)
  }

  predicate AllTaken(pipe: ComputePipeline, table: seq<Entry>, k: nat)
    requires k <= |table|
  {
    ComputeShape(pipe, table) && forall e | 0 <= e < k :: ComputeTaken(pipe, table, e)
  }

  lemma NextEntry(seen: seq<bool>, pipe: ComputePipeline, table: seq<Entry>, e: nat)
    requires e < |table| && SeenBy(seen, pipe, table, e)
    ensures AllTaken(pipe, table, e + 1) <==> AllTaken(pipe, table, e) && ComputeTaken(pipe, table, e)
    ensures var index := BindingIndex(pipe, table[e].slot);
            if index.None? || index.value >= |seen| || seen[index.value] then
              !ComputeTaken(pipe, table, e) && SeenBy(seen, pipe, table, e + 1)
            else
              && SeenBy(seen[index.value := true], pipe, table, e + 1)
              && (ComputeTaken(pipe, table, e) <==> ComputeMatch(pipe, table[e].resource, index.value))
  {
    hide BindingIndex, ComputeMatch, ComputeShape;
    var places := ComputePlaces(pipe, table);
    var index := BindingIndex(pipe, table[e].slot);
    if index.Some? && index.value < |seen| {
      assert seen[index.value] <==> exists f :: 0 <= f < e && places[f] == Some(index.value);
      assert BindingIndex(pipe, table[e].slot) == Some(index.value);
      var now := seen[index.value := true];
      forall i: nat | i < |now|
        ensures now[i] <==> exists f :: 0 <= f < e + 1 && BindingIndex(pipe, table[f].slot) == Some(i)
      {
        assert i != index.value ==> now[i] == seen[i];
      }
    }
  }

  /** bind_compute with a table. */
  method BindCompute(pipe: ComputePipeline, table: seq<Entry>) returns (bind: Bind)
    ensures bind.metadata == if ComputeComplete(pipe, table) then Complete else Partial
    ensures bind.buffers == ComputeBuffers(pipe, table, |table|) && bind.images == ComputeImages(pipe, table, |table|)
  {
    hide SeenBy, AllTaken, ComputeTaken, BuffersOf, ImagesOf, Usable, ComputeComplete, BindingIndex;
    var n := |pipe.accesses|;
    bind := Bind([], [], if !pipe.isOpaque && pipe.bindingCount == n && n == |table| && (pipe.kinds == [] || |pipe.kinds| == n) then Complete else Partial);
    var seen := seq(n, _ => false);
    NothingSeen(seen, pipe, table);
    for e := 0 to |table|
      invariant |seen| == n && SeenBy(seen, pipe, table, e)
      invariant bind.metadata == if AllTaken(pipe, table, e) then Complete else Partial
      invariant bind.buffers == ComputeBuffers(pipe, table, e) && bind.images == ComputeImages(pipe, table, e)
    {
      NextEntry(seen, pipe, table, e);
      var index := BindingIndex(pipe, table[e].slot);
      if index.None? || index.value >= n || seen[index.value] {
        bind := bind.(metadata := Partial);
        continue;
      }
      var i := index.value;
      seen := seen[i := true];
      if pipe.kinds != [] && i >= |pipe.kinds| {
        bind := bind.(metadata := Partial);
        continue;
      }
      if (if pipe.kinds == [] then StorageBuffer else pipe.kinds[i]) != table[e].resource.kind {
        bind := bind.(metadata := Partial);
        continue;
      }
      bind := AppendResourceUse(bind, table[e].resource, pipe.accesses[i]);
    }
    TakenIsComplete(seen, pipe, table);
    if false in seen { bind := bind.(metadata := Partial); }
  }

  lemma NothingSeen(seen: seq<bool>, pipe: ComputePipeline, table: seq<Entry>)
    requires |seen| == |pipe.accesses| && forall i | 0 <= i < |seen| :: !seen[i]
    ensures SeenBy(seen, pipe, table, 0) && (AllTaken(pipe, table, 0) <==> ComputeShape(pipe, table))
  {
  }

  lemma TakenIsComplete(seen: seq<bool>, pipe: ComputePipeline, table: seq<Entry>)
    requires SeenBy(seen, pipe, table, |table|)
    ensures AllTaken(pipe, table, |table|) <==> ComputeComplete(pipe, table)
    ensures AllTaken(pipe, table, |table|) ==> false !in seen
  {
    if ComputeShape(pipe, table) { AllTakenIsComplete(pipe, table); }
    if AllTaken(pipe, table, |table|) {
      forall i: nat | i < |seen|
        ensures seen[i]
      {
        CompleteLeavesNothingOver(pipe, table, i);
      }
    }
  }

  /** Complete, the last scan of the bindings seen finds none missing. */
  lemma CompleteLeavesNothingOver(pipe: ComputePipeline, table: seq<Entry>, i: nat)
    requires ComputeShape(pipe, table) && (forall e | 0 <= e < |table| :: ComputeTaken(pipe, table, e)) && i < |pipe.accesses|
    ensures exists e :: 0 <= e < |table| && BindingIndex(pipe, table[e].slot) == Some(i)
  {
    AllTakenIsComplete(pipe, table);
    var places := ComputePlaces(pipe, table);
    assert Some(i) in places;
    var e :| 0 <= e < |places| && places[e] == Some(i);
    assert BindingIndex(pipe, table[e].slot) == Some(i);
  }

  function NonSamplers(table: seq<Entry>): nat {
    if table == [] then 0
    else NonSamplers(table[..|table| - 1]) + if table[|table| - 1].resource.kind == Sampler then 0 else 1
  }

  lemma ComputeTakesAll(pipe: ComputePipeline, table: seq<Entry>, e: nat)
    requires ComputeComplete(pipe, table) && e < |table|
    ensures ComputeTaken(pipe, table, e)
  {
    AllTakenIsComplete(pipe, table);
  }

  lemma NoEntries(table: seq<Entry>)
    ensures NonSamplers(table[..0]) == 0
  {
  }

  lemma OneMoreEntry(table: seq<Entry>, k: nat)
    requires k < |table|
    ensures NonSamplers(table[..k + 1]) == NonSamplers(table[..k]) + if table[k].resource.kind == Sampler then 0 else 1
  {
    assert table[..k + 1][..k] == table[..k];
  }

  /** Complete metadata leaves out no resource: there is a use for every entry but the samplers. */
  lemma {:induction false} CompleteRecordsEveryResource(pipe: ComputePipeline, table: seq<Entry>, k: nat)
    requires ComputeComplete(pipe, table) && k <= |table|
    ensures |ComputeBuffers(pipe, table, k)| + |ComputeImages(pipe, table, k)| == NonSamplers(table[..k])
  {
    hide ComputeComplete, ComputeTaken, NonSamplers, BindingIndex;
    if k == 0 {
      NoEntries(table);
    } else {
      CompleteRecordsEveryResource(pipe, table, k - 1);
      ComputeTakesAll(pipe, table, k - 1);
      OneMoreEntry(table, k - 1);
    }
  }

  // ------------------------------------------------------------- graphics

  function GraphicsPlaces(pipe: GraphicsPipeline, table: seq<Entry>): (places: seq<Option<nat>>)
    ensures |places| == |table| && forall e | 0 <= e < |table| :: places[e] == Find(pipe.slots, table[e].slot)
  {
    seq(|table|, e requires 0 <= e < |table| => Find(pipe.slots, table[e].slot))
  }

  predicate GraphicsShape(pipe: GraphicsPipeline, table: seq<Entry>) {
    !pipe.isOpaque && |table| == |pipe.slots| == |pipe.kinds| == pipe.bindingCount
  }

  /** The entry lands on a binding of its kind. */
  predicate OfItsKind(pipe: GraphicsPipeline, entry: Entry) {
    var place := Find(pipe.slots, entry.slot);
    place.Some? && place.value < pipe.bindingCount && place.value < |pipe.kinds| && entry.resource.kind == pipe.kinds[place.value]
  }

  /** Entry e is of its binding's kind, and the first such on it. */
  predicate GraphicsSeen(pipe: GraphicsPipeline, table: seq<Entry>, e: nat)
    requires e < |table|
  {
    OfItsKind(pipe, table[e])
    && forall f | 0 <= f < e && OfItsKind(pipe, table[f]) :: Find(pipe.slots, table[f].slot) != Find(pipe.slots, table[e].slot)
  }

  predicate GraphicsTaken(pipe: GraphicsPipeline, table: seq<Entry>, e: nat)
    requires e < |table|
  {
    GraphicsSeen(pipe, table, e) && Usable(table[e].resource, ReadOnly)
  }

  /** Graphics bindings declare no access: storage is read and written. */
  function GraphicsBuffers(pipe: GraphicsPipeline, table: seq<Entry>, k: nat): seq<BufferUse>
    requires k <= |table|
  {
    if k == 0 then []
    else GraphicsBuffers(pipe, table, k - 1) + if GraphicsTaken(pipe, table, k - 1) then BuffersOf(table[k - 1].resource, ReadAndWrite) else []
  }

  function GraphicsImages(pipe: GraphicsPipeline, table: seq<Entry>, k: nat): seq<ImageUse>
    requires k <= |table|
  {
    if k == 0 then []
    else GraphicsImages(pipe, table, k - 1) + if GraphicsTaken(pipe, table, k - 1) then ImagesOf(table[k - 1].resource, ReadAndWrite) else []
  }

  predicate GraphicsComplete(pipe: GraphicsPipeline, table: seq<Entry>) {
    && GraphicsShape(pipe, table) && OneToOne(GraphicsPlaces(pipe, table), pipe.bindingCount)
    && forall e | 0 <= e < |table| :: OfItsKind(pipe, table[e]) && Usable(table[e].resource, ReadOnly)
  }

  lemma AllGraphicsTakenIsComplete(pipe: GraphicsPipeline, table: seq<Entry>)
    requires GraphicsShape(pipe, table)
    ensures (forall e | 0 <= e < |table| :: GraphicsTaken(pipe, table, e)) <==> GraphicsComplete(pipe, table)
  {
    var places := GraphicsPlaces(pipe, table);
    FreshIsOneToOne(places, |table|);
    if GraphicsComplete(pipe, table) {
      forall e | 0 <= e < |table|
        ensures GraphicsTaken(pipe, table, e)
      {
        forall f | 0 <= f < e
          ensures Find(pipe.slots, table[f].slot) != Find(pipe.slots, table[e].slot)
        {
          assert places[f] != places[e];
        }
      }
    }
    if forall e | 0 <= e < |table| :: GraphicsTaken(pipe, table, e) {
      forall e | 0 <= e < |table|
        ensures Fresh(places, e, |table|) && OfItsKind(pipe, table[e]) && Usable(table[e].resource, ReadOnly)
      {
        assert GraphicsTaken(pipe, table, e);
        forall f | 0 <= f < e
          ensures places[f] != places[e]
        {
          assert GraphicsTaken(pipe, table, f);
        }
      }
    }
  }

  /** The entry is of the kind declared for the i-th binding, the first with its slot. */
  predicate MatchesBinding(pipe: GraphicsPipeline, entry: Entry, i: nat) {
    i < pipe.bindingCount && i < |pipe.kinds| && FirstWith(pipe.slots, entry.slot, i) && entry.resource.kind == pipe.kinds[i]
  }

  /** Here an entry of another kind leaves its binding to those after it. */
  lemma GraphicsTakenMeans(pipe: GraphicsPipeline, table: seq<Entry>, e: nat)
    requires e < |table|
    ensures GraphicsTaken(pipe, table, e) <==>
              && Usable(table[e].resource, ReadOnly)
              && exists i: nat :: MatchesBinding(pipe, table[e], i) && forall f | 0 <= f < e :: !MatchesBinding(pipe, table[f], i)
  {
    hide Find, FirstWith, Usable;
    FoundIs(pipe.slots, table[e].slot);
    forall f | 0 <= f < e
      ensures forall i: nat :: (OfItsKind(pipe, table[f]) && Find(pipe.slots, table[f].slot) == Some(i)) <==> MatchesBinding(pipe, table[f], i)
    {
      FoundIs(pipe.slots, table[f].slot);
    }
    if GraphicsTaken(pipe, table, e) {
      assert MatchesBinding(pipe, table[e], Find(pipe.slots, table[e].slot).value);
    }
  }

  function GraphicsBufferOf(pipe: GraphicsPipeline, table: seq<Entry>, e: nat): seq<BufferUse> {
    if e < |table| && GraphicsTaken(pipe, table, e) then BuffersOf(table[e].resource, ReadAndWrite) else []
  }

  function GraphicsImageOf(pipe: GraphicsPipeline, table: seq<Entry>, e: nat): (images: seq<ImageUse>)
    ensures |images| <= 1 && (images != [] <==> e < |table| && GraphicsTaken(pipe, table, e) && IsImage(table[e].resource))
  {
    if e < |table| && GraphicsTaken(pipe, table, e) then ImagesOf(table[e].resource, ReadAndWrite) else []
  }

  lemma {:induction false} GraphicsUsesAreFlat(pipe: GraphicsPipeline, table: seq<Entry>, k: nat)
    requires k <= |table|
    ensures GraphicsBuffers(pipe, table, k) == Flat(e => GraphicsBufferOf(pipe, table, e), k)
    ensures GraphicsImages(pipe, table, k) == Flat(e => GraphicsImageOf(pipe, table, e), k)
  {
    hide GraphicsTaken, BuffersOf, ImagesOf;
    if k > 0 { GraphicsUsesAreFlat(pipe, table, k - 1); }
  }

  /** The uses of what is taken, in table order: storage read and written, sampled images read. */
  lemma GraphicsBuffersAre(pipe: GraphicsPipeline, table: seq<Entry>, e: nat)
    requires e < |table| && GraphicsTaken(pipe, table, e) && IsBuffer(table[e].resource)
    ensures var r, buffers := table[e].resource, GraphicsBuffers(pipe, table, |table|);
            var n := |set f: nat | f < e && GraphicsTaken(pipe, table, f) && IsBuffer(table[f].resource)|;
            n < |buffers| && buffers[n] == BufferUse(r.buffer, r.byteSize, ReadAndWrite)
  {
    GraphicsUsesAreFlat(pipe, table, |table|);
    hide GraphicsTaken;
    var part := f => GraphicsBufferOf(pipe, table, f);
    FlatHolds(part, |table|, e);
    assert (set f: nat | f < e && part(f) != []) == set f: nat | f < e && GraphicsTaken(pipe, table, f) && IsBuffer(table[f].resource);
  }

  lemma GraphicsImagesAre(pipe: GraphicsPipeline, table: seq<Entry>, e: nat)
    requires e < |table| && GraphicsTaken(pipe, table, e) && IsImage(table[e].resource)
    ensures var r, images := table[e].resource, GraphicsImages(pipe, table, |table|);
            var n := |set f: nat | f < e && GraphicsTaken(pipe, table, f) && IsImage(table[f].resource)|;
            n < |images| && images[n] == ImageUse(r.image, r.aspects, r.range, r.kind == SampledImage, if r.kind == SampledImage then Read else ReadAndWrite,
                                                  r.initialLayout, r.layout)
  {
    GraphicsUsesAreFlat(pipe, table, |table|);
    assert GraphicsImageOf(pipe, table, e) == ImagesOf(table[e].resource, ReadAndWrite);
    hide GraphicsTaken, Flat, GraphicsImages, GraphicsImageOf;
    var part := f => GraphicsImageOf(pipe, table, f);
    FlatHolds(part, |table|, e);
    assert (set f: nat | f < e && part(f) != []) == set f: nat | f < e && GraphicsTaken(pipe, table, f) && IsImage(table[f].resource);
  }

  predicate GraphicsSeenBy(seen: seq<bool>, pipe: GraphicsPipeline, table: seq<Entry>, k: nat)
    requires k <= |table|
  {
    |seen| == pipe.bindingCount && forall i: nat | i < |seen| :: seen[i] <==> exists f :: 0 <= f < k && LandsOn(pipe, table[f], i)
  }

  predicate LandsOn(pipe: GraphicsPipeline, entry: Entry, i: nat) {
    OfItsKind(pipe, entry) && Find(pipe.slots, entry.slot) == Some(i)
  }

  predicate AllGraphicsTaken(pipe: GraphicsPipeline, table: seq<Entry>, k: nat)
    requires k <= |table|
  {
    GraphicsShape(pipe, table) && forall e | 0 <= e < k :: GraphicsTaken(pipe, table, e)
  }

  lemma NextGraphicsEntry(seen: seq<bool>, pipe: GraphicsPipeline, table: seq<Entry>, e: nat)
    requires e < |table| && GraphicsSeenBy(seen, pipe, table, e)
    ensures AllGraphicsTaken(pipe, table, e + 1) <==> AllGraphicsTaken(pipe, table, e) && GraphicsTaken(pipe, table, e)
    ensures var place := Find(pipe.slots, table[e].slot);
            if !OfItsKind(pipe, table[e]) || seen[place.value] then
              !GraphicsTaken(pipe, table, e) && GraphicsSeenBy(seen, pipe, table, e + 1)
            else
              && GraphicsSeenBy(seen[place.value := true], pipe, table, e + 1)
              && (GraphicsTaken(pipe, table, e) <==> Usable(table[e].resource, ReadOnly))
  {
    var place := Find(pipe.slots, table[e].slot);
    if OfItsKind(pipe, table[e]) {
      assert LandsOn(pipe, table[e], place.value);
      assert seen[place.value] <==> exists f :: 0 <= f < e && LandsOn(pipe, table[f], place.value);
      if seen[place.value] {
        var f :| 0 <= f < e && LandsOn(pipe, table[f], place.value);
      } else {
        forall f | 0 <= f < e && OfItsKind(pipe, table[f])
          ensures Find(pipe.slots, table[f].slot) != place
        {
          assert !LandsOn(pipe, table[f], place.value);
        }
      }
      var now := seen[place.value := true];
      forall i: nat | i < |now|
        ensures now[i] <==> exists f :: 0 <= f < e + 1 && LandsOn(pipe, table[f], i)
      {
        assert i != place.value ==> now[i] == seen[i] && !LandsOn(pipe, table[e], i);
      }
    }
  }

  lemma NothingSeenYet(seen: seq<bool>, pipe: GraphicsPipeline, table: seq<Entry>)
    requires |seen| == pipe.bindingCount && forall i | 0 <= i < |seen| :: !seen[i]
    ensures GraphicsSeenBy(seen, pipe, table, 0) && (AllGraphicsTaken(pipe, table, 0) <==> GraphicsShape(pipe, table))
  {
  }

  lemma GraphicsTakenIsComplete(seen: seq<bool>, pipe: GraphicsPipeline, table: seq<Entry>)
    requires GraphicsSeenBy(seen, pipe, table, |table|)
    ensures AllGraphicsTaken(pipe, table, |table|) <==> GraphicsComplete(pipe, table)
    ensures AllGraphicsTaken(pipe, table, |table|) ==> false !in seen
  {
    if GraphicsShape(pipe, table) { AllGraphicsTakenIsComplete(pipe, table); }
    if AllGraphicsTaken(pipe, table, |table|) {
      forall i: nat | i < |seen|
        ensures seen[i]
      {
        GraphicsCompleteLeavesNothingOver(pipe, table, i);
      }
    }
  }

  lemma GraphicsCompleteLeavesNothingOver(pipe: GraphicsPipeline, table: seq<Entry>, i: nat)
    requires GraphicsComplete(pipe, table) && i < pipe.bindingCount
    ensures exists f :: 0 <= f < |table| && LandsOn(pipe, table[f], i)
  {
    var places := GraphicsPlaces(pipe, table);
    assert Some(i) in places;
    var f :| 0 <= f < |places| && places[f] == Some(i);
    assert LandsOn(pipe, table[f], i);
  }

  /** bind_graphics with a table. */
  method BindGraphics(pipe: GraphicsPipeline, table: seq<Entry>) returns (bind: Bind)
    ensures bind.metadata == if GraphicsComplete(pipe, table) then Complete else Partial
    ensures bind.buffers == GraphicsBuffers(pipe, table, |table|) && bind.images == GraphicsImages(pipe, table, |table|)
    ensures forall u | u in bind.buffers :: u.access == ReadAndWrite
    ensures forall u | u in bind.images :: u.access == if u.sampled then Read else ReadAndWrite
  {
    hide GraphicsSeenBy, AllGraphicsTaken, GraphicsTaken, GraphicsComplete, Find;
    var n := pipe.bindingCount;
    bind := Bind([], [], if !pipe.isOpaque && |table| == n && |pipe.slots| == n && |pipe.kinds| == n then Complete else Partial);
    var seen := seq(n, _ => false);
    NothingSeenYet(seen, pipe, table);
    for e := 0 to |table|
      invariant |seen| == n && GraphicsSeenBy(seen, pipe, table, e)
      invariant bind.metadata == if AllGraphicsTaken(pipe, table, e) then Complete else Partial
      invariant bind.buffers == GraphicsBuffers(pipe, table, e) && bind.images == GraphicsImages(pipe, table, e)
      invariant forall u | u in bind.buffers :: u.access == ReadAndWrite
      invariant forall u | u in bind.images :: u.access == if u.sampled then Read else ReadAndWrite
    {
      NextGraphicsEntry(seen, pipe, table, e);
      var resource := table[e].resource;
      var found := Find(pipe.slots, table[e].slot);
      if found.None? {
        bind := bind.(metadata := Partial);
        continue;
      }
      var index := found.value;
      if index >= n || seen[index] || index >= |pipe.kinds| || resource.kind != pipe.kinds[index] {
        bind := bind.(metadata := Partial);
        continue;
      }
      seen := seen[index := true];
      if resource.kind == Sampler { continue; }
      if resource.kind == StorageBuffer {
        if resource.buffer == NULL || resource.byteSize == 0 {
          bind := bind.(metadata := Partial);
          continue;
        }
        bind := bind.(buffers := bind.buffers + [BufferUse(resource.buffer, resource.byteSize, ReadAndWrite)]);
        continue;
      }
      if resource.image == NULL || resource.aspects == 0 {
        bind := bind.(metadata := Partial);
        continue;
      }
      bind := bind.(images := bind.images + [ImageUse(resource.image, resource.aspects, resource.range, resource.kind == SampledImage,
                                                      if resource.kind == SampledImage then Read else ReadAndWrite, resource.initialLayout, resource.layout)]);
    }
    GraphicsTakenIsComplete(seen, pipe, table);
    if false in seen { bind := bind.(metadata := Partial); }
  }

  lemma GraphicsTakesAll(pipe: GraphicsPipeline, table: seq<Entry>, e: nat)
    requires GraphicsComplete(pipe, table) && e < |table|
    ensures GraphicsTaken(pipe, table, e)
  {
    AllGraphicsTakenIsComplete(pipe, table);
  }

  /** Complete, a use for every entry but the samplers, here too. */
  lemma {:induction false} GraphicsCompleteRecordsEveryResource(pipe: GraphicsPipeline, table: seq<Entry>, k: nat)
    requires GraphicsComplete(pipe, table) && k <= |table|
    ensures |GraphicsBuffers(pipe, table, k)| + |GraphicsImages(pipe, table, k)| == NonSamplers(table[..k])
  {
    hide GraphicsComplete, GraphicsTaken, NonSamplers;
    if k == 0 {
      NoEntries(table);
    } else {
      GraphicsCompleteRecordsEveryResource(pipe, table, k - 1);
      GraphicsTakesAll(pipe, table, k - 1);
      OneMoreEntry(table, k - 1);
    }
  }
}
