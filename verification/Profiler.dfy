/**
 Query slots and completed events: src/vkexec_profiling/profiler.cpp. Pages of
 timestamp queries hand out pairs; a pair is free, held by one allocation, or
 quarantined for good. Completed events go into a bounded buffer.
 */
module ProfilerPages {
  /** A pair of queries: the page it is in and its first query. */
  datatype Slot = Slot(page: nat, first: nat)

  datatype Page = Page(family: nat, free: seq<nat>)

  const QUERIES_PER_REGION: nat := 2

  predicate IsPair(q: nat, size: nat) {
    q < size && q % QUERIES_PER_REGION == 0
  }

  predicate NoDuplicates<T(==)>(s: seq<T>) {
    forall i, j | 0 <= i < j < |s| :: s[i] != s[j]
  }

  /** On page p every pair is free or out, and not both. */
  ghost predicate PageSplit(p: nat, free: seq<nat>, out: set<Slot>, size: nat) {
    && NoDuplicates(free)
    && (forall q | q in free :: IsPair(q, size) && Slot(p, q) !in out)
    && (forall q: nat | IsPair(q, size) :: q in free || Slot(p, q) in out)
    && (forall s | s in out && s.page == p :: IsPair(s.first, size))
  }

  /** Free, held and quarantined pairs partition every page. */
  ghost predicate Partitioned(pages: seq<Page>, held: set<Slot>, quarantined: set<Slot>, size: nat) {
    && held !! quarantined
    && (forall s | s in held + quarantined :: s.page < |pages|)
    && (forall p | 0 <= p < |pages| :: PageSplit(p, pages[p].free, held + quarantined, size))
  }

  /** The last pair of a free list is taken from it. */
  function Taken(pages: seq<Page>, p: nat): (r: seq<Page>)
    requires p < |pages| && pages[p].free != []
    ensures |r| == |pages| && forall i | 0 <= i < |r| :: r[i].family == pages[i].family
  {
    pages[p := pages[p].(free := pages[p].free[..|pages[p].free| - 1])]
  }

  function LastFree(pages: seq<Page>, p: nat): nat
    requires p < |pages| && pages[p].free != []
  {
    pages[p].free[|pages[p].free| - 1]
  }

  lemma TakeKeepsPartition(pages: seq<Page>, held: set<Slot>, quarantined: set<Slot>, size: nat, p: nat)
    requires Partitioned(pages, held, quarantined, size) && p < |pages| && pages[p].free != []
    ensures var taken := Slot(p, LastFree(pages, p));
            taken !in held && taken !in quarantined && |held + {taken}| == |held| + 1 && Partitioned(Taken(pages, p), held + {taken}, quarantined, size)
  {
    var free := pages[p].free;
    var taken := Slot(p, free[|free| - 1]);
    assert PageSplit(p, free, held + quarantined, size);
    var after := Taken(pages, p);
    forall k | 0 <= k < |after|
      ensures PageSplit(k, after[k].free, held + {taken} + quarantined, size)
    {
      assert PageSplit(k, pages[k].free, held + quarantined, size);
      if k == p {
        assert free == free[..|free| - 1] + [taken.first];
      }
    }
  }

  lemma ReturnKeepsPartition(pages: seq<Page>, held: set<Slot>, quarantined: set<Slot>, size: nat, slot: Slot)
    requires Partitioned(pages, held, quarantined, size) && slot in held
    ensures slot.page < |pages|
    ensures Partitioned(pages[slot.page := pages[slot.page].(free := pages[slot.page].free + [slot.first])], held - {slot}, quarantined, size)
  {
    var p := slot.page;
    assert PageSplit(p, pages[p].free, held + quarantined, size);
    var after := pages[p := pages[p].(free := pages[p].free + [slot.first])];
    forall k | 0 <= k < |after|
      ensures PageSplit(k, after[k].free, held - {slot} + quarantined, size)
    {
      assert PageSplit(k, pages[k].free, held + quarantined, size);
    }
  }

  lemma QuarantineKeepsPartition(pages: seq<Page>, held: set<Slot>, quarantined: set<Slot>, size: nat, slot: Slot)
    requires Partitioned(pages, held, quarantined, size) && slot in held
    ensures Partitioned(pages, held - {slot}, quarantined + {slot}, size)
  {
    assert held - {slot} + (quarantined + {slot}) == held + quarantined;
  }

  /** The pairs of a new page, in order. */
  function Pairs(size: nat): (free: seq<nat>)
    ensures |free| == (size + 1) / 2 && forall i | 0 <= i < |free| :: free[i] == 2 * i
  {
    seq((size + 1) / 2, i => 2 * i)
  }

  lemma NewPageKeepsPartition(pages: seq<Page>, held: set<Slot>, quarantined: set<Slot>, size: nat, family: nat)
    requires Partitioned(pages, held, quarantined, size)
    ensures Partitioned(pages + [Page(family, Pairs(size))], held, quarantined, size)
  {
    var after := pages + [Page(family, Pairs(size))];
    forall k | 0 <= k < |after|
      ensures PageSplit(k, after[k].free, held + quarantined, size)
    {
      if k < |pages| {
        assert PageSplit(k, pages[k].free, held + quarantined, size);
      } else {
        forall q: nat | IsPair(q, size)
          ensures q in Pairs(size)
        {
          assert Pairs(size)[q / 2] == q;
        }
      }
    }
  }

  // ------------------------------------------------------- counting slots

  ghost function OnPage(slots: set<Slot>, p: nat): set<Slot> {
    set s | s in slots && s.page == p
  }

  lemma PairBelow(q: nat, size: nat)
    requires IsPair(q, size) && size >= 2 && size % 2 == 0 && q != size - 2
    ensures IsPair(q, size - 2)
  {
  }

  lemma DropLastPair(p: nat, free: seq<nat>, out: set<Slot>, size: nat, rest: seq<nat>)
    requires PageSplit(p, free, out, size) && size >= 2 && size % 2 == 0 && NoDuplicates(rest)
    requires forall q :: q in rest <==> q in free && q != size - 2
    ensures PageSplit(p, rest, out - {Slot(p, size - 2)}, size - 2)
  {
    forall q | IsPair(q, size) && q != size - 2
      ensures IsPair(q, size - 2)
    {
      PairBelow(q, size);
    }
  }

  lemma Without<T>(s: seq<T>, x: T) returns (rest: seq<T>)
    requires NoDuplicates(s) && x in s
    ensures |rest| == |s| - 1 && NoDuplicates(rest) && forall y :: y in rest <==> y in s && y != x
  {
    var i :| 0 <= i < |s| && s[i] == x;
    rest := s[..i] + s[i + 1..];
    forall y | y in s && y != x
      ensures y in rest
    {
      var j :| 0 <= j < |s| && s[j] == y;
      assert y == if j < i then rest[j] else rest[j - 1];
    }
  }

  lemma HasElement<T>(s: seq<T>)
    requires s != []
    ensures exists x :: x in s
  {
    assert s[0] in s;
  }

  /** Each page holds size / 2 pairs, free or out. */
  lemma {:induction false} CountPairs(p: nat, free: seq<nat>, out: set<Slot>, size: nat)
    requires PageSplit(p, free, out, size) && size % 2 == 0
    ensures |free| + |OnPage(out, p)| == size / 2
    decreases size
  {
    if size == 0 {
      if free != [] {
        HasElement(free);
        assert false;
      }
      assert forall s :: s !in OnPage(out, p);
    } else {
      var last := Slot(p, size - 2);
      var rest := free;
      if last.first in free {
        rest := Without(free, last.first);
        assert OnPage(out - {last}, p) == OnPage(out, p);
      } else {
        assert last in out;
        assert OnPage(out, p) == OnPage(out - {last}, p) + {last};
      }
      DropLastPair(p, free, out, size, rest);
      CountPairs(p, rest, out - {last}, size - 2);
    }
  }

  /** The free list never outgrows the capacity reserved for it. */
  lemma FreeListFits(pages: seq<Page>, held: set<Slot>, quarantined: set<Slot>, size: nat, p: nat)
    requires Partitioned(pages, held, quarantined, size) && size % 2 == 0 && p < |pages|
    ensures |pages[p].free| <= size / 2
    ensures (exists s :: s in held && s.page == p) ==> |pages[p].free| < size / 2
  {
    assert PageSplit(p, pages[p].free, held + quarantined, size);
    CountPairs(p, pages[p].free, held + quarantined, size);
    if s :| s in held && s.page == p {
      assert s in OnPage(held + quarantined, p);
    }
  }

  ghost function TotalFree(pages: seq<Page>): nat {
    if pages == [] then 0 else TotalFree(pages[..|pages| - 1]) + |pages[|pages| - 1].free|
  }

  /** No pair is lost or made: what is free, held and quarantined adds up to what the pages hold. */
  lemma {:induction false} PairsAreConserved(pages: seq<Page>, held: set<Slot>, quarantined: set<Slot>, size: nat)
    requires Partitioned(pages, held, quarantined, size) && size % 2 == 0
    ensures TotalFree(pages) + |held| + |quarantined| == |pages| * (size / 2)
  {
    if pages == [] {
      assert held == {} && quarantined == {};
    } else {
      var last := |pages| - 1;
      var h, q := OnPage(held, last), OnPage(quarantined, last);
      assert PageSplit(last, pages[last].free, held + quarantined, size);
      CountPairs(last, pages[last].free, held + quarantined, size);
      assert OnPage(held + quarantined, last) == h + q;
      DropPage(pages, held, quarantined, size);
      PairsAreConserved(pages[..last], held - h, quarantined - q, size);
      assert |held - h| == |held| - |h| && |quarantined - q| == |quarantined| - |q|;
      OneMore(last, size / 2);
    }
  }

  lemma OneMore(n: nat, k: nat)
    ensures (n + 1) * k == n * k + k
  {
  }

  lemma DropPage(pages: seq<Page>, held: set<Slot>, quarantined: set<Slot>, size: nat)
    requires Partitioned(pages, held, quarantined, size) && pages != []
    ensures var last := |pages| - 1;
            Partitioned(pages[..last], held - OnPage(held, last), quarantined - OnPage(quarantined, last), size)
  {
    var last := |pages| - 1;
    var h, q := OnPage(held, last), OnPage(quarantined, last);
    forall k | 0 <= k < last
      ensures PageSplit(k, pages[..last][k].free, held - h + (quarantined - q), size)
    {
      assert PageSplit(k, pages[k].free, held + quarantined, size);
    }
  }
}

module Profiler {
  import opened Optional
  import opened ProfilerPages
  import opened ProfileEvent
  import opened Ticks
  import Utf8

  datatype Error = InvalidArgument | Unsupported | OutOfRange | Vulkan

  datatype Result<+T> = Ok(value: T) | Err(error: Error)

  datatype Options = Options(queriesPerPool: nat, maxInFlightRegions: nat, maxCompletedEvents: nat)

  /** What a queue family offers: timestamp bits, and a queue that can reset queries. */
  datatype Family = Family(timestampValidBits: nat, resetsQueries: bool)

  datatype Queue = Queue(handle: nat, family: nat)

  /** What profiler::create checks of the options. */
  predicate Usable(o: Options) {
    o.queriesPerPool >= QUERIES_PER_REGION && o.queriesPerPool % QUERIES_PER_REGION == 0
    && o.maxInFlightRegions != 0 && o.maxCompletedEvents != 0
  }

  /** The events a keeps are those of b, in order, with some left out. */
  ghost predicate KeptOf(a: seq<Event>, b: seq<Event>) {
    if b == [] then a == []
    else KeptOf(a, b[..|b| - 1]) || (a != [] && a[|a| - 1] == b[|b| - 1] && KeptOf(a[..|a| - 1], b[..|b| - 1]))
  }

  lemma KeepNext(a: seq<Event>, b: seq<Event>, e: Event)
    requires KeptOf(a, b)
    ensures KeptOf(a + [e], b + [e]) && KeptOf(a, b + [e])
  {
    assert (b + [e])[..|b|] == b && (a + [e])[..|a|] == a;
  }

  /** What vkGetQueryPoolResults reported for a pair: ticks with their availability, or no ticks. */
  datatype Reading = ReadFailed | ReadNotReady | Read(start: nat, startAvailable: bool, finish: nat, finishAvailable: bool)

  function Nanoseconds(ticks: nat, period: real): real {
    ticks as real * period
  }

  /** duration_ns: the elapsed ticks in nanoseconds; with a positive finite period only the bit count can be wrong. */
  function DurationNs(start: nat, finish: nat, bits: nat, period: real): Option<real> {
    if 1 <= bits <= COUNTER_BITS then Some(Nanoseconds(Elapsed(start, finish, bits), period)) else None
  }

  /** The event of a region: valid exactly when both timestamps could be read and the family counts time. */
  function Resolved(bits: nat, period: real, reading: Reading, name: Utf8.Bytes, submission: nat, family: nat, region: nat): (e: Event)
    ensures e.name == name && e.submission == submission && e.family == family && e.region == region
    ensures e.status == Valid <==> reading.Read? && reading.startAvailable && reading.finishAvailable && 1 <= bits <= COUNTER_BITS
    ensures e.status == ReadbackError <==> reading.ReadFailed?
    ensures e.status == Unavailable <==> reading.ReadNotReady? || (reading.Read? && !(reading.startAvailable && reading.finishAvailable))
    ensures e.status == Valid ==>
              && e.startTick == reading.start && e.validBits == bits && e.periodNs == Finite(period)
              && e.durationNs == Finite(Elapsed(reading.start, reading.finish, bits) as real * period)
  {
    var event := Event(name, submission, family, region, Unavailable, 0, 0, Finite(0.0), Finite(0.0));
    match reading
    case ReadFailed => event.(status := ReadbackError)
    case ReadNotReady => event
    case Read(start, startAvailable, finish, finishAvailable) =>
      if !startAvailable || !finishAvailable then event
      else
        match DurationNs(start, finish, bits, period)
        case Some(duration) =>
          event.(status := Valid, startTick := start, validBits := bits, periodNs := Finite(period), durationNs := Finite(duration))
        case None => event.(status := InvalidTimestamp)
  }

  function EventOf(families: seq<Family>, period: real, family: nat, reading: Reading, name: Utf8.Bytes, submission: nat, region: nat): (e: Event)
    requires family < |families|
    ensures e == Resolved(families[family].timestampValidBits, period, reading, name, submission, family, region)
  {
    Resolved(families[family].timestampValidBits, period, reading, name, submission, family, region)
  }

  class State {
    const options: Options
    const families: seq<Family>
    const period: real                          // nanoseconds per tick
    var pages: seq<Page>
    var completed: seq<Event>
    var inFlight: nat
    var dropped: nat
    ghost var holders: map<Slot, Allocation>    // the allocation that holds each slot that is out
    ghost var quarantined: set<Slot>
    ghost var published: seq<Event>
    ghost var taken: seq<Event>

    ghost predicate Slots()
      reads this
    {
      && Partitioned(pages, holders.Keys, quarantined, options.queriesPerPool)
      && inFlight == |holders.Keys| + |quarantined|
      && inFlight <= options.maxInFlightRegions
    }

    /** Pages are made only for families the device has. */
    predicate Families()
      reads this
    {
      forall p | 0 <= p < |pages| :: pages[p].family < |families|
    }

    ghost predicate Events()
      reads this
    {
      && KeptOf(taken + completed, published)
      && |published| == |taken| + |completed| + dropped
      && |completed| <= options.maxCompletedEvents
    }

    ghost predicate Valid()
      reads this
    {
      Usable(options) && period > 0.0 && Slots() && Events() && Families()
    }

    constructor (o: Options, f: seq<Family>, nsPerTick: real)
      requires Usable(o) && nsPerTick > 0.0
      ensures Valid() && options == o && families == f && period == nsPerTick && holders == map[] && inFlight == 0 && published == [] && taken == []
    {
      options, families, period := o, f, nsPerTick;
      pages, completed, inFlight, dropped := [], [], 0, 0;
      holders, quarantined, published, taken := map[], {}, [], [];
    }

    predicate Supported(queue: Queue)
      reads this
    {
      queue.handle != 0 && queue.family < |families|
      && families[queue.family].timestampValidBits != 0 && families[queue.family].resetsQueries
    }

    /** The first page of the family with a free pair. */
    method FindPage(family: nat) returns (found: Option<nat>)
      ensures found.Some? ==>
                && found.value < |pages| && pages[found.value].family == family && pages[found.value].free != []
                && forall i | 0 <= i < found.value :: pages[i].family != family || pages[i].free == []
      ensures found.None? ==> forall i | 0 <= i < |pages| :: pages[i].family != family || pages[i].free == []
    {
      for i := 0 to |pages|
        invariant forall j | 0 <= j < i :: pages[j].family != family || pages[j].free == []
      {
        if pages[i].family == family && pages[i].free != [] { return Some(i); }
      }
      found := None;
    }

    static method FreePairs(size: nat) returns (free: seq<nat>)
      requires size % QUERIES_PER_REGION == 0
      ensures free == Pairs(size)
    {
      free := [];
      var query := 0;
      while query < size
        invariant query == 2 * |free| <= size
        invariant forall i | 0 <= i < |free| :: free[i] == 2 * i
      {
        free := free + [query];
        query := query + QUERIES_PER_REGION;
      }
    }

    /** A new page of free pairs. */
    method AddPage(family: nat)
      requires Valid() && family < |families|
      modifies `pages
      ensures Valid() && pages == old(pages) + [Page(family, Pairs(options.queriesPerPool))]
      ensures Pairs(options.queriesPerPool) != []
    {
      hide Partitioned, KeptOf;
      var free := FreePairs(options.queriesPerPool);
      NewPageKeepsPartition(pages, holders.Keys, quarantined, options.queriesPerPool, family);
      pages := pages + [Page(family, free)];
    }

    /** A pair goes out only if it was free; at capacity, or when no pool can be made, nothing changes. */
    method Reserve(queue: Queue, created: bool) returns (r: Result<Allocation>)
      requires Valid()
      modifies `pages, `inFlight, `holders
      ensures Valid()
      ensures if !Supported(queue) then r == Err(Unsupported)
              else if old(inFlight) >= options.maxInFlightRegions then r == Err(OutOfRange)
              else if (exists i :: 0 <= i < |old(pages)| && old(pages)[i].family == queue.family && old(pages)[i].free != []) || created then r.Ok?
              else r == Err(Vulkan)
      ensures r == Err(Unsupported) <==>
                !(queue.handle != 0 && queue.family < |families| && families[queue.family].timestampValidBits != 0 && families[queue.family].resetsQueries)
      ensures r.Err? ==> unchanged(`pages, `inFlight, `holders)
      ensures r.Ok? ==>
                && fresh(r.value) && r.value.owner == this && r.value.page.Some?
                && r.value.Slot() !in old(holders) && r.value.Slot() !in quarantined
                && holders == old(holders)[r.value.Slot() := r.value] && inFlight == old(inFlight) + 1
                && r.value.page.value < |pages| && pages[r.value.page.value].family == queue.family
                && |old(pages)| <= |pages|
    {
      hide Partitioned, KeptOf;
      if !Supported(queue) { return Err(Unsupported); }
      if inFlight >= options.maxInFlightRegions { return Err(OutOfRange); }
      var found := FindPage(queue.family);
      if found.None? {
        if !created { return Err(Vulkan); }
        AddPage(queue.family);
        found := Some(|pages| - 1);
      }
      var p := found.value;
      var allocation := new Allocation(this, p, LastFree(pages, p));
      TakePair(p, allocation);
      r := Ok(allocation);
    }

    /** The last pair of the page's free list goes out, into the hands of the allocation made for it. */
    method TakePair(p: nat, ghost allocation: Allocation)
      requires Valid() && p < |pages| && pages[p].free != [] && inFlight < options.maxInFlightRegions
      requires allocation.Holds(this, Slot(p, LastFree(pages, p)))
      modifies `pages, `inFlight, `holders
      ensures Valid()
      ensures allocation.Slot() !in old(holders) && allocation.Slot() !in quarantined
      ensures holders == old(holders)[allocation.Slot() := allocation] && inFlight == old(inFlight) + 1
      ensures |pages| == |old(pages)| && pages[p].family == old(pages)[p].family
    {
      hide Partitioned, KeptOf, LastFree, Taken;
      ghost var slot := Slot(p, LastFree(pages, p));
      ghost var held := holders.Keys;
      TakeKeepsPartition(pages, held, quarantined, options.queriesPerPool, p);
      pages := Taken(pages, p);
      inFlight := inFlight + 1;
      holders := holders[slot := allocation];
      assert holders.Keys == held + {slot};
    }

    /** release_slot; the allocation that held the slot lets go of it in the same step. */
    method ReleaseSlot(page: nat, first: nat)
      requires Valid() && Slot(page, first) in holders
      modifies `pages, `inFlight, `holders
      ensures Valid()
      ensures holders == old(holders) - {Slot(page, first)} && inFlight == old(inFlight) - 1
      ensures page < |old(pages)| && pages == old(pages)[page := old(pages)[page].(free := old(pages)[page].free + [first])]
    {
      hide Partitioned, KeptOf;
      ReturnKeepsPartition(pages, holders.Keys, quarantined, options.queriesPerPool, Slot(page, first));
      pages := pages[page := pages[page].(free := pages[page].free + [first])];
      inFlight := inFlight - 1;
      holders := holders - {Slot(page, first)};
      assert holders.Keys == old(holders.Keys) - {Slot(page, first)};
    }

    /** A slot whose work may never finish: it stays out for good, and keeps counting against the limit. */
    ghost method Lose(slot: Slot)
      requires Valid() && slot in holders
      modifies `holders, `quarantined
      ensures Valid() && holders == old(holders) - {slot} && quarantined == old(quarantined) + {slot}
    {
      hide Partitioned, KeptOf;
      QuarantineKeepsPartition(pages, holders.Keys, quarantined, options.queriesPerPool, slot);
      assert slot !in quarantined by { HeldIsNotQuarantined(slot); }
      holders := holders - {slot};
      quarantined := quarantined + {slot};
      assert holders.Keys == old(holders.Keys) - {slot};
    }

    /** The slot's holder changes hands. */
    ghost method Rehold(slot: Slot, from: Allocation, to: Allocation)
      requires Valid() && slot in holders && holders[slot] == from
      modifies `holders
      ensures Valid() && holders == old(holders)[slot := to]
    {
      hide Partitioned, KeptOf;
      holders := holders[slot := to];
      assert holders.Keys == old(holders.Keys);
    }

    lemma HeldIsNotQuarantined(slot: Slot)
      requires Valid() && slot in holders
      ensures slot !in quarantined && slot.page < |pages| && slot.first + 1 < options.queriesPerPool && slot.first % 2 == 0
    {
      assert PageSplit(slot.page, pages[slot.page].free, holders.Keys + quarantined, options.queriesPerPool);
    }

    /** The event of the region recorded in the slot. */
    function Resolve(slot: Slot, reading: Reading, name: Utf8.Bytes, submission: nat, region: nat): (e: Event)
      requires slot.page < |pages| && Families()
      reads this
    {
      EventOf(families, period, pages[slot.page].family, reading, name, submission, region)
    }

    /** A full buffer drops the event and counts it; otherwise it is kept after the earlier ones. */
    method Publish(event: Event)
      requires Valid()
      modifies `completed, `dropped, `published
      ensures Valid() && published == old(published) + [event]
      ensures if |old(completed)| >= options.maxCompletedEvents then
                completed == old(completed) && dropped == old(dropped) + 1
              else completed == old(completed) + [event] && dropped == old(dropped)
    {
      hide Partitioned, KeptOf;
      KeepNext(taken + completed, published, event);
      published := published + [event];
      if |completed| >= options.maxCompletedEvents {
        dropped := dropped + 1;
        return;
      }
      assert taken + (completed + [event]) == taken + completed + [event];
      completed := completed + [event];
    }

    method TakeCompleted() returns (events: seq<Event>)
      requires Valid()
      modifies `completed, `taken
      ensures Valid() && events == old(completed) && completed == [] && taken == old(taken) + events
    {
      hide Partitioned, KeptOf;
      events := completed;
      completed := [];
      taken := taken + events;
      assert taken + completed == taken;
    }
  }

  /** A move-only handle on one slot; without an owner it holds nothing. */
  class Allocation {
    var owner: State?
    var page: Option<nat>
    var first: nat

    constructor (o: State, p: nat, query: nat)
      ensures owner == o && page == Some(p) && first == query
    {
      owner, page, first := o, Some(p), query;
    }

    ghost predicate Holds(state: State, slot: Slot)
      reads this
    {
      owner == state && page == Some(slot.page) && first == slot.first
    }

    ghost function Slot(): Slot
      reads this
      requires page.Some?
    {
      ProfilerPages.Slot(page.value, first)
    }

    /** Nothing is held, or the owner knows this object as the holder of its slot. */
    ghost predicate Valid()
      reads this, owner
    {
      owner != null ==> owner.Valid() && page.Some? && Slot() in owner.holders && owner.holders[Slot()] == this
    }

    method Release()
      requires Valid()
      modifies this, if owner != null then {owner} else {}
      ensures owner == null
      ensures old(owner) == null ==> unchanged(this)
      ensures old(owner) != null ==>
                && page == None && old(owner).Valid() && old(owner).holders == old(owner.holders) - {old(Slot())}
                && old(owner).inFlight == old(owner.inFlight) - 1
                && old(owner).quarantined == old(owner.quarantined)
                && old(owner).completed == old(owner.completed) && old(owner).published == old(owner.published)
                && old(owner).taken == old(owner.taken) && old(owner).dropped == old(owner.dropped)
    {
      if owner == null { return; }
      owner.ReleaseSlot(page.value, first);
      page := None;
      owner := null;
    }

    /** The slot is never given back: the work that used it may still be running. */
    method Quarantine()
      requires Valid()
      modifies this, if owner != null then {owner} else {}
      ensures owner == null
      ensures old(owner) == null ==> old(owner) == owner && page == None
      ensures old(owner) != null ==>
                && old(owner).Valid() && old(owner).holders == old(owner.holders) - {old(Slot())}
                && old(owner).quarantined == old(owner.quarantined) + {old(Slot())}
                && old(owner).inFlight == old(owner.inFlight) && old(owner).pages == old(owner.pages)
                && old(owner).completed == old(owner.completed) && old(owner).published == old(owner.published)
                && old(owner).taken == old(owner.taken) && old(owner).dropped == old(owner.dropped)
    {
      if owner != null {
        owner.Lose(Slot());
      }
      page := None;
      owner := null;
    }

    /** Move assignment: what this held is released first, then it holds what the other held; the other holds nothing. */
    method MoveFrom(other: Allocation)
      requires Valid() && other.Valid()
      modifies this, other, if owner != null then {owner} else {}, if other.owner != null then {other.owner} else {}
      ensures Valid() && other.Valid()
      ensures other == this ==> unchanged(this)
      ensures other != this ==>
                && owner == old(other.owner) && other.owner == null && page == old(other.page) && first == old(other.first)
      ensures other != this && old(other.owner) != null ==>
                owner.holders == (if old(owner) != old(other.owner) then old(other.owner.holders)
                                  else old(other.owner.holders) - {old(Slot())})[old(other.Slot()) := this]
      ensures other != this && old(owner) != null && old(owner) != old(other.owner) ==>
                old(owner).Valid() && old(owner).holders == old(owner.holders) - {old(Slot())}
    {
      hide Partitioned, KeptOf, Usable;
      if other == this { return; }
      Release();
      TakeOver(other);
    }

    /** The move constructor's part. */
    method TakeOver(other: Allocation)
      requires owner == null && other != this && other.Valid()
      modifies this, other, if other.owner != null then {other.owner} else {}
      ensures Valid() && owner == old(other.owner) && page == old(other.page) && first == old(other.first)
      ensures other.owner == null && other.page == None
      ensures old(other.owner) != null ==>
                owner.holders == old(other.owner.holders)[old(other.Slot()) := this]
                && unchanged(owner`pages, owner`inFlight, owner`quarantined, owner`completed, owner`published, owner`taken, owner`dropped)
    {
      hide Partitioned, KeptOf, Usable;
      page, first, owner := other.page, other.first, other.owner;
      other.page, other.owner := None, null;
      if owner != null {
        owner.Rehold(Slot(), other, this);
      }
    }
  }
}
