/**
 submit_scope of include/vkexec/submit_scope.hpp and src/vkexec/submit_scope.cpp:
 a command pool on lease, one command buffer, and the descriptor sets of a
 submission, returned together.
 */
module SubmitScope {
  import opened CommandPools
  import DC = DescriptorCache

  /** What returning a scope does, in order. */
  datatype Effect = CommandBufferFreed(buffer: Handle) | PoolReturned(pool: Handle) | DescriptorsFreed(tracked: seq<DC.AllocatedSet>)

  /** What a lease of this pool and buffer, with these sets tracked, gives back, in order: the buffer before the pool it is of. */
  function GivenBack(cmd: Handle, pool: Handle, tracked: seq<DC.AllocatedSet>): (done: seq<Effect>) {
    CommandsGivenBack(cmd, pool) + [DescriptorsFreed(tracked)]
  }

  function CommandsGivenBack(cmd: Handle, pool: Handle): (done: seq<Effect>) {
    (if cmd != NULL then [CommandBufferFreed(cmd)] else []) + [PoolReturned(pool)]
  }

  /** The context, with the descriptor sets of its device and the scope that holds each leased pool. */
  class Host {
    const context: Context
    const device: DC.Device
    ghost var holder: map<Handle, Scope>

    constructor (c: Context, d: DC.Device)
      ensures context == c && device == d && holder == map[]
    {
      context, device, holder := c, d, map[];
    }

    /** The pool's lease is this scope's from now on. */
    ghost method Hold(pool: Handle, scope: Scope)
      modifies this
      ensures holder == old(holder)[pool := scope]
    {
      holder := holder[pool := scope];
    }
  }

  class Scope {
    var host: Host?
    var pool: Handle
    var cmd: Handle
    var queue: Queue
    const cleanup: DC.DescriptorCleanup

    /** An empty scope, or one that alone holds a leased pool of its queue's family, with the pool's only live buffer. */
    ghost predicate Valid()
      reads this, host, cleanup, if host != null then {host.context, host.device} else {}
    {
      if host == null then pool == NULL && cmd == NULL
      else
        && host.context.Valid() && cleanup.TracksLiveSets(host.device)
        && host.context.IsLeased(pool, queue.family) && pool != NULL && pool in host.holder && host.holder[pool] == this
        && (forall c | c in host.context.commands :: host.context.commands[c] == pool ==> c == cmd)
        && (cmd != NULL ==> cmd in host.context.commands && host.context.commands[cmd] == pool)
    }

    constructor ()
      ensures Valid() && host == null && fresh(cleanup) && cleanup.tracked == [] && cleanup.sets == []
    {
      host, pool, cmd, queue := null, NULL, NULL, Queue(NULL, IGNORED_FAMILY);
      cleanup := new DC.DescriptorCleanup();
    }

    /** open: a pool of the queue's family and a begun command buffer; a failure leaves the pool cached or destroyed. */
    static method Open(h: Host, q: Queue, created: Handle, made: Handle, begun: bool, reset: bool) returns (r: Result<Scope>)
      requires h.context.Valid()
      modifies h, h.context
      ensures h.context.Valid()
      ensures q.handle == 0 || q.family == 0xFFFF_FFFF ==> r == Err(InvalidArgument) && unchanged(h.context)
      ensures r.Ok? <==>
                && q.handle != NULL && q.family != IGNORED_FAMILY && made != NULL && made !in old(h.context.commands) && begun
                && ((exists c | c in old(h.context.availablePools) :: c.family == q.family) || (created != NULL && created !in old(h.context.place)))
      ensures r.Err? ==>
                && h.context.commands == old(h.context.commands) && h.holder == old(h.holder)
                && forall p | p in h.context.place && h.context.place[p] == Leased :: p in old(h.context.place) && old(h.context.place)[p] == Leased
      ensures r.Ok? ==>
                && fresh(r.value) && fresh(r.value.cleanup) && r.value.Valid() && r.value.host == h && r.value.queue == q
                && r.value.cmd != NULL && r.value.cmd !in old(h.context.commands)
                && h.context.place == old(h.context.place)[r.value.pool := Leased]
                && (r.value.pool in old(h.context.place) ==> old(h.context.place)[r.value.pool] == InCache)
                && h.context.commands == old(h.context.commands)[r.value.cmd := r.value.pool]
                && h.holder == old(h.holder)[r.value.pool := r.value]
    {
      hide Context.Valid;
      if !UsableQueue(q) { return Err(InvalidArgument); }
      var acquired := h.context.AcquireCommandPool(q.family, created);
      if acquired.Err? { return Err(acquired.error); }
      var pool := acquired.value;
      var buffer := h.context.AllocateFrom(pool, made);
      if buffer.Err? {
        h.context.ReleaseCommandPool(q.family, pool, reset);
        return Err(buffer.error);
      }
      if !begun {
        h.context.FreeFrom(pool, buffer.value);
        h.context.ReleaseCommandPool(q.family, pool, reset);
        return Err(Vulkan);
      }
      var scope := new Scope();
      scope.Adopt(h, pool, buffer.value, q);
      r := Ok(scope);
    }

    /** An empty scope takes a lease. */
    method Adopt(h: Host, p: Handle, buffer: Handle, q: Queue)
      requires host == null && h.context.Valid() && h.context.IsLeased(p, q.family) && p != NULL && cleanup.tracked == []
      requires buffer in h.context.commands && h.context.commands[buffer] == p && buffer != NULL
      requires forall c | c in h.context.commands && h.context.commands[c] == p :: c == buffer
      modifies this, h
      ensures Valid() && host == h && pool == p && cmd == buffer && queue == q && h.holder == old(h.holder)[p := this]
    {
      hide Context.Valid, Context.IsLeased;
      host, pool, cmd, queue := h, p, buffer, q;
      h.Hold(p, this);
    }

    /** The command buffer first, then its pool, then the descriptor sets; a released scope releases nothing more. */
    method Release(reset: bool) returns (done: seq<Effect>)
      requires Valid()
      modifies this, cleanup, if host != null then {host.context, host.device} else {}
      ensures Valid() && host == null
      ensures old(host) == null ==> done == [] && unchanged(this) && unchanged(cleanup)
      ensures old(host) != null ==>
                && done == GivenBack(old(cmd), old(pool), old(cleanup.tracked))
                && done == (if old(cmd) != NULL then [CommandBufferFreed(old(cmd))] else []) + [PoolReturned(old(pool)), DescriptorsFreed(old(cleanup.tracked))]
                && old(host).context.Valid() && unchanged(old(host).context`madeFor, old(host).context`bufferPools)
                && old(host).context.commands == old(host.context.commands) - {old(cmd)}
                && old(host).context.place == old(host.context.place)[old(pool) := if reset then InCache else Destroyed]
                && old(host).device.live == old(host.device.live) - (set a | a in old(cleanup.tracked) :: a.handle)
                && cleanup.tracked == [] && cleanup.sets == []
    {
      if host == null { return []; }
      hide Context.Valid, DC.DescriptorCleanup.TracksLiveSets, Context.IsLeased;
      var commands := ReturnCommands(reset);
      done := commands + [DescriptorsFreed(cleanup.tracked)];
      cleanup.Release(host.device);
      host := null;
    }

    /** The command buffer, if there still is one, and the pool. */
    method ReturnCommands(reset: bool) returns (done: seq<Effect>)
      requires Valid() && host != null
      modifies this, host.context
      ensures host == old(host) && host.context.Valid() && pool == NULL && cmd == NULL && queue == old(queue)
      ensures done == CommandsGivenBack(old(cmd), old(pool))
      ensures done == (if old(cmd) != 0 then [CommandBufferFreed(old(cmd))] else []) + [PoolReturned(old(pool))]
      ensures host.context.commands == old(host.context.commands) - {old(cmd)}
      ensures unchanged(host.context`madeFor, host.context`bufferPools)
      ensures host.context.place == old(host.context.place)[old(pool) := if reset then InCache else Destroyed]
    {
      hide Context.Valid, Valid;
      done := FreeCommandBuffer();
      host.context.ReleaseCommandPool(queue.family, pool, reset);
      done := done + [PoolReturned(pool)];
      pool := NULL;
    }

    /** The pool is left with no live buffer. */
    method FreeCommandBuffer() returns (done: seq<Effect>)
      requires Valid() && host != null
      modifies this`cmd, host.context`commands
      ensures host.context.Valid() && host.context.IsLeased(pool, queue.family) && pool != NULL && cmd == NULL
      ensures forall c | c in host.context.commands :: host.context.commands[c] != pool
      ensures host.context.commands == old(host.context.commands) - {old(cmd)}
      ensures done == if old(cmd) != NULL then [CommandBufferFreed(old(cmd))] else []
    {
      assert NULL !in host.context.commands;
      hide Context.Valid, DC.DescriptorCleanup.TracksLiveSets;
      done := [];
      if cmd != NULL {
        host.context.FreeFrom(pool, cmd);
        done := [CommandBufferFreed(cmd)];
        cmd := NULL;
      }
    }

    /** Two scopes share no descriptor set, and are of one host or of hosts with nothing in common. */
    ghost predicate Apart(other: Scope)
      reads this, other, cleanup, other.cleanup
    {
      && other != this && other.cleanup != cleanup
      && (host != null && other.host != null && host != other.host ==> host.context != other.host.context && host.device != other.host.device)
      && (forall a, b | a in cleanup.tracked && b in other.cleanup.tracked :: a.handle != b.handle)
    }

    /** Releasing one scope leaves any other scope as good as it was. */
    method ReleaseBeside(other: Scope, reset: bool) returns (done: seq<Effect>)
      requires Valid() && other.Valid() && Apart(other)
      modifies this, cleanup, if host != null then {host.context, host.device} else {}
      ensures Valid() && host == null && other.Valid()
      ensures old(host) != null ==>
                && old(pool) in old(host).context.place && old(host).context.place[old(pool)] in {InCache, Destroyed}
                && done == GivenBack(old(cmd), old(pool), old(cleanup.tracked))
      ensures old(host) == null ==> done == []
    {
      hide CacheAgrees, BuffersAgree, CommandsAgree;
      ghost var freed := set a | a in cleanup.tracked :: a.handle;
      ghost var kept := other.cleanup.tracked;
      forall i | 0 <= i < |kept|
        ensures kept[i].handle !in freed
      {
        assert kept[i] in kept;
      }
      assert host != null && other.host == host ==> other.pool != pool;
      done := Release(reset);
      if other.host != null {
        assert other.host.context.Valid();
        assert other.cleanup.TracksLiveSets(other.host.device);
        assert other.host.context.IsLeased(other.pool, other.queue.family);
      }
    }

    /** Move assignment: what this scope held is returned first, then it holds the other's lease; the other holds nothing. */
    method MoveFrom(other: Scope, reset: bool) returns (done: seq<Effect>)
      requires Valid() && other.Valid() && (other != this ==> Apart(other))
      modifies this, cleanup, other, other.cleanup
      modifies if host != null then {host.context, host.device} else {}, if other.host != null then {other.host} else {}
      ensures other == this ==> done == [] && unchanged(this)
      ensures other != this ==>
                && Valid() && other.Valid() && other.host == null
                && host == old(other.host) && pool == old(other.pool) && cmd == old(other.cmd) && queue == old(other.queue)
                && cleanup.tracked == old(other.cleanup.tracked) && cleanup.sets == old(other.cleanup.sets)
      ensures other != this && old(host) != null ==>
                && old(pool) in old(host).context.place && old(host).context.place[old(pool)] in {InCache, Destroyed}
                && done == GivenBack(old(cmd), old(pool), old(cleanup.tracked))
    {
      hide Context.Valid, Context.IsLeased, DC.DescriptorCleanup.TracksLiveSets;
      done := [];
      if other == this { return; }
      done := ReleaseBeside(other, reset);
      TakeOver(other);
    }

    /** The move constructor's part. */
    method TakeOver(other: Scope)
      requires host == null && other != this && other.Valid() && other.cleanup != cleanup
      modifies this, cleanup, other, other.cleanup, if other.host != null then {other.host} else {}
      ensures Valid() && other.Valid() && other.host == null
      ensures host == old(other.host) && pool == old(other.pool) && cmd == old(other.cmd) && queue == old(other.queue)
      ensures cleanup.tracked == old(other.cleanup.tracked) && cleanup.sets == old(other.cleanup.sets)
    {
      hide Context.Valid, Context.IsLeased;
      host, pool, cmd, queue := other.host, other.pool, other.cmd, other.queue;
      cleanup.MoveFrom(other.cleanup);
      if host != null {
        host.Hold(pool, this);
      }
      other.host, other.pool, other.cmd := null, NULL, NULL;
    }
  }
}
