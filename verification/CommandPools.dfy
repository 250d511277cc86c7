/**
 Command pools: the cache and the live command buffers of
 src/vkexec/context_runtime.cpp. Every pool the device made is in one place.
 */
module CommandPools {
  type Handle = nat
  const NULL: Handle := 0
  const IGNORED_FAMILY: nat := 0xFFFF_FFFF

  datatype Error = InvalidArgument | Vulkan

  datatype Result<+T> = Ok(value: T) | Err(error: Error)

  datatype Queue = Queue(handle: Handle, family: nat)

  /** A pool in the cache, under the family it was made for. */
  datatype Cached = Cached(family: nat, pool: Handle)

  /** Where a pool is. */
  datatype Place = InCache | WithBuffer(buffer: Handle) | Leased | Destroyed

  predicate UsableQueue(q: Queue) {
    q.handle != NULL && q.family != IGNORED_FAMILY
  }

  function Lookup<K, V>(m: map<K, V>, k: K, otherwise: V): V {
    if k in m then m[k] else otherwise
  }

  predicate Lists(available: seq<Cached>, pool: Handle) {
    exists i :: 0 <= i < |available| && available[i].pool == pool
  }

  /** The cache lists exactly the pools whose place is the cache, each once, under its own family. */
  ghost predicate CacheAgrees(available: seq<Cached>, place: map<Handle, Place>, family: map<Handle, nat>) {
    && (forall i | 0 <= i < |available| ::
          available[i].pool in place && place[available[i].pool] == InCache && available[i].pool in family
          && family[available[i].pool] == available[i].family)
    && (forall i, j | 0 <= i < j < |available| :: available[i].pool != available[j].pool)
    && (forall p | p in place && place[p] == InCache :: Lists(available, p))
  }

  /** The map of live command buffers names exactly the pools attached to one, under their own families. */
  ghost predicate BuffersAgree(buffers: map<Handle, Cached>, place: map<Handle, Place>, family: map<Handle, nat>) {
    && (forall c | c in buffers ::
          buffers[c].pool in place && place[buffers[c].pool] == WithBuffer(c) && buffers[c].pool in family
          && family[buffers[c].pool] == buffers[c].family)
    && (forall p | p in place && place[p].WithBuffer? :: place[p].buffer in buffers && buffers[place[p].buffer].pool == p)
  }

  /** A live command buffer is named in the map, or belongs to a leased pool. */
  ghost predicate CommandsAgree(commands: map<Handle, Handle>, buffers: map<Handle, Cached>, place: map<Handle, Place>) {
    && (forall c | c in commands :: commands[c] in place && (place[commands[c]] == Leased || place[commands[c]] == WithBuffer(c)))
    && (forall c | c in buffers :: c in commands && commands[c] == buffers[c].pool)
  }

  // ------------------------------------------------ one pool moves at a time

  function Without<T>(s: seq<T>, i: nat): seq<T>
    requires i < |s|
  {
    s[..i] + s[i + 1..]
  }

  lemma TakeKeepsCache(available: seq<Cached>, place: map<Handle, Place>, family: map<Handle, nat>, i: nat)
    requires CacheAgrees(available, place, family) && i < |available|
    ensures CacheAgrees(Without(available, i), place[available[i].pool := Leased], family)
  {
    var left := Without(available, i);
    forall p | p in place && place[p] == InCache && p != available[i].pool
      ensures Lists(left, p)
    {
      var k :| 0 <= k < |available| && available[k].pool == p;
      assert left[if k < i then k else k - 1].pool == p;
    }
  }

  lemma PutKeepsCache(available: seq<Cached>, place: map<Handle, Place>, family: map<Handle, nat>, pool: Handle)
    requires CacheAgrees(available, place, family) && pool in place && place[pool] != InCache && pool in family
    ensures CacheAgrees(available + [Cached(family[pool], pool)], place[pool := InCache], family)
  {
    var after := available + [Cached(family[pool], pool)];
    forall p | p in place[pool := InCache] && place[pool := InCache][p] == InCache
      ensures Lists(after, p)
    {
      if p == pool {
        assert after[|available|].pool == p;
      } else {
        var k :| 0 <= k < |available| && available[k].pool == p;
        assert after[k].pool == p;
      }
    }
  }

  /** A pool that is not in the cache moves to a place that is not the cache. */
  lemma MoveKeepsCache(available: seq<Cached>, place: map<Handle, Place>, family: map<Handle, nat>, pool: Handle, to: Place,
                       family': map<Handle, nat>)
    requires CacheAgrees(available, place, family) && (pool in place ==> place[pool] != InCache) && to != InCache
    requires forall p | p in family && p in place :: p in family' && family'[p] == family[p]
    ensures CacheAgrees(available, place[pool := to], family')
  {
  }

  lemma MoveKeepsBuffers(buffers: map<Handle, Cached>, place: map<Handle, Place>, family: map<Handle, nat>, pool: Handle, to: Place,
                         family': map<Handle, nat>)
    requires BuffersAgree(buffers, place, family) && (pool in place ==> !place[pool].WithBuffer?) && !to.WithBuffer?
    requires forall p | p in family && p in place :: p in family' && family'[p] == family[p]
    ensures BuffersAgree(buffers, place[pool := to], family')
  {
  }

  /** A pool without live command buffers may go anywhere. */
  lemma MoveKeepsCommands(commands: map<Handle, Handle>, buffers: map<Handle, Cached>, place: map<Handle, Place>, pool: Handle, to: Place)
    requires CommandsAgree(commands, buffers, place) && forall c | c in commands :: commands[c] != pool
    ensures CommandsAgree(commands, buffers, place[pool := to])
  {
  }

  class Context {
    var availablePools: seq<Cached>
    var bufferPools: map<Handle, Cached>
    var place: map<Handle, Place>               // the device's pools: every one ever created
    var madeFor: map<Handle, nat>               // and the family each was created for
    var commands: map<Handle, Handle>           // the device's live command buffers, by the pool they come from

    ghost predicate Valid()
      reads this
    {
      && place.Keys == madeFor.Keys && NULL !in place && NULL !in commands
      && CacheAgrees(availablePools, place, madeFor)
      && BuffersAgree(bufferPools, place, madeFor)
      && CommandsAgree(commands, bufferPools, place)
    }

    ghost predicate IsLeased(pool: Handle, family: nat)
      reads this
    {
      pool in place && place[pool] == Leased && pool in madeFor && madeFor[pool] == family
    }

    constructor ()
      ensures Valid() && place == map[] && commands == map[]
    {
      availablePools, bufferPools := [], map[];
      place, madeFor, commands := map[], map[], map[];
    }

    method FindPool(family: nat) returns (i: nat)
      ensures i <= |availablePools|
      ensures i < |availablePools| ==> availablePools[i].family == family
      ensures forall j | 0 <= j < i :: availablePools[j].family != family
    {
      for k := 0 to |availablePools|
        invariant forall j | 0 <= j < k :: availablePools[j].family != family
      {
        if availablePools[k].family == family { return k; }
      }
      i := |availablePools|;
    }

    /** A cached pool of the family, or else a new one; either way it was made for the family and is now out on lease. */
    method AcquireCommandPool(family: nat, created: Handle) returns (r: Result<Handle>)
      requires Valid()
      modifies `availablePools, `place, `madeFor
      ensures Valid()
      ensures r.Ok? ==>
                && IsLeased(r.value, family) && r.value != NULL
                && (r.value in old(place) ==> old(place)[r.value] == InCache)
                && place == old(place)[r.value := Leased]
                && (forall c | c in commands :: commands[c] != r.value)
      ensures (exists c | c in old(availablePools) :: c.family == family) ==>
                && r.Ok? && madeFor == old(madeFor)
                && exists i :: 0 <= i < |old(availablePools)| && old(availablePools)[i] == Cached(family, r.value) && availablePools == Without(old(availablePools), i)
      ensures (forall c | c in old(availablePools) :: c.family != family) ==>
                r == (if created != NULL && created !in old(place) then Ok(created) else Err(Vulkan)) && availablePools == old(availablePools)
      ensures r.Err? ==> unchanged(this)
      ensures forall p | p in old(madeFor) :: p in madeFor && madeFor[p] == old(madeFor)[p]
    {
      hide CacheAgrees, BuffersAgree, CommandsAgree;
      var i := FindPool(family);
      if i < |availablePools| {
        CachedIsIdle(i);
        var pool := availablePools[i].pool;
        assert availablePools[i] in availablePools && availablePools[i] == Cached(family, pool);
        TakeKeepsCache(availablePools, place, madeFor, i);
        MoveKeepsBuffers(bufferPools, place, madeFor, pool, Leased, madeFor);
        MoveKeepsCommands(commands, bufferPools, place, pool, Leased);
        availablePools := Without(availablePools, i);
        place := place[pool := Leased];
        return Ok(pool);
      }
      if created == NULL || created in place { return Err(Vulkan); }
      MoveKeepsCache(availablePools, place, madeFor, created, Leased, madeFor[created := family]);
      MoveKeepsBuffers(bufferPools, place, madeFor, created, Leased, madeFor[created := family]);
      CommandsAreOfKnownPools();
      MoveKeepsCommands(commands, bufferPools, place, created, Leased);
      place := place[created := Leased];
      madeFor := madeFor[created := family];
      r := Ok(created);
    }

    lemma CachedIsIdle(i: nat)
      requires Valid() && i < |availablePools|
      ensures var c := availablePools[i];
              && c.pool in place && place[c.pool] == InCache && madeFor[c.pool] == c.family && c.pool != NULL
              && forall b | b in commands :: commands[b] != c.pool
    {
    }

    lemma CommandsAreOfKnownPools()
      requires Valid()
      ensures forall c | c in commands :: commands[c] in place
    {
    }

    /** A leased pool goes back to the cache, or is destroyed when it cannot be reset. NULL is no pool. */
    method ReleaseCommandPool(family: nat, pool: Handle, reset: bool)
      requires Valid() && (pool != NULL ==> IsLeased(pool, family) && forall c | c in commands :: commands[c] != pool)
      modifies `availablePools, `place
      ensures Valid()
      ensures pool == NULL ==> unchanged(this)
      ensures pool != NULL ==>
                if reset then place == old(place)[pool := InCache] && availablePools == old(availablePools) + [Cached(family, pool)]
                else place == old(place)[pool := Destroyed] && availablePools == old(availablePools)
    {
      hide CacheAgrees, BuffersAgree, CommandsAgree;
      if pool == NULL { return; }
      if !reset {
        MoveKeepsCache(availablePools, place, madeFor, pool, Destroyed, madeFor);
        MoveKeepsBuffers(bufferPools, place, madeFor, pool, Destroyed, madeFor);
        MoveKeepsCommands(commands, bufferPools, place, pool, Destroyed);
        place := place[pool := Destroyed];
        return;
      }
      PutKeepsCache(availablePools, place, madeFor, pool);
      MoveKeepsBuffers(bufferPools, place, madeFor, pool, InCache, madeFor);
      MoveKeepsCommands(commands, bufferPools, place, pool, InCache);
      availablePools := availablePools + [Cached(family, pool)];
      place := place[pool := InCache];
    }

    /** vkAllocateCommandBuffers from a leased pool: a new handle, if there is one. */
    method AllocateFrom(pool: Handle, made: Handle) returns (r: Result<Handle>)
      requires Valid() && pool in place && place[pool] == Leased
      modifies `commands
      ensures Valid()
      ensures r.Err? ==> unchanged(this)
      ensures r == if made != NULL && made !in old(commands) then Ok(made) else Err(Vulkan)
      ensures r.Ok? ==> commands == old(commands)[made := pool]
    {
      hide CacheAgrees, BuffersAgree;
      if made == NULL || made in commands { return Err(Vulkan); }
      commands := commands[made := pool];
      r := Ok(made);
    }

    /** vkFreeCommandBuffers of a buffer of a leased pool. */
    method FreeFrom(pool: Handle, buffer: Handle)
      requires Valid() && pool in place && place[pool] == Leased && buffer in commands && commands[buffer] == pool
      modifies `commands
      ensures Valid() && commands == old(commands) - {buffer}
    {
      hide CacheAgrees;
      commands := commands - {buffer};
    }

    /** A command buffer with a pool of its own. */
    method AllocateCommandBuffer(queue: Queue, created: Handle, made: Handle, reset: bool) returns (r: Result<Handle>)
      requires Valid()
      modifies `availablePools, `bufferPools, `place, `madeFor, `commands
      ensures Valid()
      ensures queue.handle == 0 || queue.family == 0xFFFF_FFFF ==> r == Err(InvalidArgument) && unchanged(this)
      ensures r.Ok? <==>
                && queue.handle != NULL && queue.family != IGNORED_FAMILY && made != NULL && made !in old(commands)
                && ((exists c | c in old(availablePools) :: c.family == queue.family) || (created != NULL && created !in old(place)))
      ensures r.Err? ==> bufferPools == old(bufferPools) && commands == old(commands)
      ensures r.Ok? ==>
                && r.value == made && r.value !in old(bufferPools) && r.value in bufferPools && bufferPools == old(bufferPools)[r.value := bufferPools[r.value]]
                && bufferPools[r.value].family == queue.family
                && var pool := bufferPools[r.value].pool;
                   && place == old(place)[pool := WithBuffer(r.value)] && (pool in old(place) ==> old(place)[pool] == InCache)
                   && commands == old(commands)[r.value := pool]
      ensures forall p | p in old(place) && old(place)[p] == Leased :: p in place && place[p] == Leased
    {
      hide CacheAgrees, BuffersAgree, CommandsAgree;
      if !UsableQueue(queue) { return Err(InvalidArgument); }
      var acquired := AcquireCommandPool(queue.family, created);
      if acquired.Err? { return Err(acquired.error); }
      var pool := acquired.value;
      var buffer := AllocateFrom(pool, made);
      if buffer.Err? {
        ReleaseCommandPool(queue.family, pool, reset);
        return Err(buffer.error);
      }
      AttachKeepsValid(buffer.value, pool);
      bufferPools := bufferPools[buffer.value := Cached(queue.family, pool)];
      place := place[pool := WithBuffer(buffer.value)];
      r := Ok(buffer.value);
    }

    lemma AttachKeepsValid(buffer: Handle, pool: Handle)
      requires Valid() && pool in place && place[pool] == Leased && buffer in commands && commands[buffer] == pool
      requires forall c | c in commands && c != buffer :: commands[c] != pool
      ensures buffer !in bufferPools
      ensures var b, w := bufferPools[buffer := Cached(madeFor[pool], pool)], place[pool := WithBuffer(buffer)];
              CacheAgrees(availablePools, w, madeFor) && BuffersAgree(b, w, madeFor) && CommandsAgree(commands, b, w)
    {
      MoveKeepsCache(availablePools, place, madeFor, pool, WithBuffer(buffer), madeFor);
    }

    /** Frees a command buffer that came from here, and returns its pool; any other handle is ignored. */
    method FreeCommandBuffer(buffer: Handle, reset: bool)
      requires Valid()
      modifies `availablePools, `bufferPools, `place, `commands
      ensures Valid()
      ensures buffer == NULL || buffer !in old(bufferPools) ==> unchanged(this)
      ensures buffer != NULL && buffer in old(bufferPools) ==>
                && bufferPools == old(bufferPools) - {buffer} && commands == old(commands) - {buffer}
                && var pool := old(bufferPools)[buffer].pool;
                   && place == old(place)[pool := if reset then InCache else Destroyed]
                   && availablePools == old(availablePools) + if reset then [old(bufferPools)[buffer]] else []
    {
      hide CacheAgrees, BuffersAgree, CommandsAgree;
      if buffer == NULL || buffer !in bufferPools { return; }
      var entry := bufferPools[buffer];
      DetachKeepsValid(buffer);
      bufferPools := bufferPools - {buffer};
      place := place[entry.pool := Leased];
      FreeFrom(entry.pool, buffer);
      ReleaseCommandPool(entry.family, entry.pool, reset);
    }

    lemma DetachKeepsValid(buffer: Handle)
      requires Valid() && buffer in bufferPools
      ensures var pool, b := bufferPools[buffer].pool, bufferPools - {buffer};
              && pool in place && place[pool] == WithBuffer(buffer) && pool != NULL && madeFor[pool] == bufferPools[buffer].family
              && buffer in commands && commands[buffer] == pool && (forall c | c in commands && c != buffer :: commands[c] != pool)
              && var w := place[pool := Leased];
                 CacheAgrees(availablePools, w, madeFor) && BuffersAgree(b, w, madeFor) && CommandsAgree(commands, b, w)
    {
      MoveKeepsCache(availablePools, place, madeFor, bufferPools[buffer].pool, Leased, madeFor);
    }

    /** ~context_state: with nothing out on lease, every pool ever made has been destroyed, each once. */
    method Teardown()
      requires Valid() && forall p | p in place :: place[p] != Leased
      modifies `place
      ensures forall p | p in place :: place[p] == Destroyed
      ensures place.Keys == old(place.Keys)
    {
      DestroyAttached();
      DestroyCached();
    }

    /** The pools of live command buffers go; the others stay where they were. */
    method DestroyAttached()
      requires BuffersAgree(bufferPools, place, madeFor)
      modifies `place
      ensures place.Keys == old(place.Keys)
      ensures forall p | p in place :: place[p] == if old(place)[p].WithBuffer? then Destroyed else old(place)[p]
    {
      var left := bufferPools.Keys;
      while left != {}
        invariant left <= bufferPools.Keys && place.Keys == old(place.Keys)
        invariant forall p | p in place ::
                    place[p] == if old(place)[p].WithBuffer? && old(place)[p].buffer !in left then Destroyed else old(place)[p]
      {
        var c :| c in left;
        DestroyPool(bufferPools[c].pool);
        left := left - {c};
      }
    }

    /** The cached pools go. */
    method DestroyCached()
      requires CacheAgrees(availablePools, place, madeFor)
      modifies `place
      ensures place.Keys == old(place.Keys)
      ensures forall p | p in place :: place[p] == if old(place)[p] == InCache then Destroyed else old(place)[p]
    {
      for i := 0 to |availablePools|
        invariant place.Keys == old(place.Keys)
        invariant forall j | i <= j < |availablePools| :: place[availablePools[j].pool] == InCache
        invariant forall j | 0 <= j < i :: place[availablePools[j].pool] == Destroyed
        invariant forall p | p in place :: place[p] == old(place)[p] || (old(place)[p] == InCache && place[p] == Destroyed)
      {
        DestroyPool(availablePools[i].pool);
      }
    }

    /** vkDestroyCommandPool: of a pool that exists. */
    method DestroyPool(pool: Handle)
      requires pool in place && place[pool] != Destroyed
      modifies `place
      ensures place == old(place)[pool := Destroyed]
    {
      place := place[pool := Destroyed];
    }
  }
}
