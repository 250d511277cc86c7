/**
 Synchronization for devices without synchronization2: the masks and barriers of
 src/vkexec/barrier.cpp. A mask is the set of its bits, numbered as in the Vulkan
 1.3 specification, section 7.1; a legacy mask names groups where the newer
 kind names single stages and accesses.
 */
module LegacyMasks {
  import opened Fallible

  type Mask = set<nat>

  const NONE: Mask := {}

  /** take: if any of the bits are there, they are exchanged for one. */
  method Take(value: Mask, result: Mask, from: Mask, destination: nat) returns (left: Mask, r: Mask)
    ensures left == value - from && r == if value * from != {} then result + {destination} else result
  {
    left, r := value, result;
    if left * from != {} {
      r := r + {destination};
      left := left - from;
    } else {
      assert forall b | b in value :: b !in value * from;
    }
  }

  // --------------------------------------------------------------- stages

  const TOP_OF_PIPE: nat := 0
  const VERTEX_INPUT: nat := 2
  const TRANSFER: nat := 12
  const BOTTOM_OF_PIPE: nat := 13
  const HOST: nat := 14
  const ALL_GRAPHICS: nat := 15
  const ALL_COMMANDS: nat := 16
  /** COPY, RESOLVE, BLIT and CLEAR. */
  const TRANSFERS: Mask := {32, 33, 34, 35}
  /** INDEX_INPUT and VERTEX_ATTRIBUTE_INPUT. */
  const INPUTS: Mask := {36, 37}
  /** The stages both kinds of mask have, under the same bits. */
  const LEGACY_STAGES: Mask := set b: nat | b <= 16
  /** What ALL_GRAPHICS stands for. */
  const GRAPHICS: Mask := {1, 2, 3, 4, 5, 6, 7, 8, 9, 10, 36, 37, 38}

  predicate StageHasName(b: nat) {
    b in LEGACY_STAGES || b in TRANSFERS || b in INPUTS
  }

  /** A stage's legacy name: its own, or its group's. */
  function StageName(b: nat): nat {
    if b in TRANSFERS then TRANSFER else if b in INPUTS then VERTEX_INPUT else b
  }

  predicate StagesRepresentable(v: Mask) {
    forall b | b in v :: StageHasName(b)
  }

  function StageImage(v: Mask): Mask {
    set b | b in v :: StageName(b)
  }

  /** legacy_stage_mask: every stage by its legacy name, refused exactly when one has none. */
  method LegacyStageMask(value: Mask) returns (r: Result<Mask>)
    ensures r == if StagesRepresentable(value) then Ok(StageImage(value)) else Err
    ensures r.Ok? <==> forall b | b in value :: b <= 16 || b in {32, 33, 34, 35} || b in {36, 37}
    ensures r.Ok? ==> forall b: nat :: b in r.value <==>
              || (b <= 16 && b in value) || (b == 12 && value * {32, 33, 34, 35} != {}) || (b == 2 && value * {36, 37} != {})
  {
    var left, result := Take(value, {}, {TRANSFER} + TRANSFERS, TRANSFER);
    left, result := Take(left, result, INPUTS, VERTEX_INPUT);
    result := result + left * LEGACY_STAGES;
    left := left - LEGACY_STAGES;
    StagesTaken(value, result, left);
    assert forall b | b in value :: StageHasName(b) <==> b <= 16 || b in {32, 33, 34, 35} || b in {36, 37};
    if left != {} { return Err; }
    r := Ok(result);
  }

  lemma StagesTaken(value: Mask, result: Mask, left: Mask)
    requires var untransferred := value - ({TRANSFER} + TRANSFERS);
             && left == (untransferred - INPUTS) - LEGACY_STAGES
             && result == (if value * ({TRANSFER} + TRANSFERS) != {} then {TRANSFER} else {})
                          + (if untransferred * INPUTS != {} then {VERTEX_INPUT} else {}) + (untransferred - INPUTS) * LEGACY_STAGES
    ensures left == {} <==> StagesRepresentable(value)
    ensures left == {} ==> result == StageImage(value)
  {
    assert left == set b | b in value && !StageHasName(b);
    if left == {} {
      forall b | b in result
        ensures b in StageImage(value)
      {
        if b == TRANSFER && value * ({TRANSFER} + TRANSFERS) != {} {
          var t :| t in value * ({TRANSFER} + TRANSFERS);
          assert StageName(t) == TRANSFER;
        } else if b == VERTEX_INPUT && (value - ({TRANSFER} + TRANSFERS)) * INPUTS != {} {
          var t :| t in (value - ({TRANSFER} + TRANSFERS)) * INPUTS;
          assert StageName(t) == VERTEX_INPUT;
        } else {
          assert b in value && StageName(b) == b;
        }
      }
      forall b | b in value
        ensures StageName(b) in result
      {
        assert b !in left;
        if b in {TRANSFER} + TRANSFERS {
          assert b in value * ({TRANSFER} + TRANSFERS);
        } else if b in INPUTS {
          assert b in (value - ({TRANSFER} + TRANSFERS)) * INPUTS;
        }
      }
    }
  }

  /** The stages a legacy mask names, itself or by group. */
  predicate Names(l: Mask, v: Mask) {
    forall b | b in v :: StageHasName(b) && StageName(b) in l
  }

  /** The lowered mask is the least there is: a legacy mask names all the stages exactly when it has all its bits. */
  lemma StageImageIsLeast(v: Mask, l: Mask)
    requires StagesRepresentable(v)
    ensures Names(l, v) <==> StageImage(v) <= l
  {
    if StageImage(v) <= l {
      forall b | b in v
        ensures StageName(b) in l
      {
        assert StageName(b) in StageImage(v);
      }
    }
  }

  /** What is refused, no legacy mask names. */
  lemma RefusedStagesHaveNoName(v: Mask)
    ensures StagesRepresentable(v) <==> exists l :: l <= LEGACY_STAGES && Names(l, v)
  {
    if StagesRepresentable(v) {
      assert Names(StageImage(v), v) by { StageImageIsLeast(v, StageImage(v)); }
    }
  }

  lemma StagesLowerOnce(v: Mask)
    requires StagesRepresentable(v)
    ensures StageImage(v) <= LEGACY_STAGES && StageImage(StageImage(v)) == StageImage(v)
  {
    forall b | b in StageImage(v)
      ensures b in LEGACY_STAGES && StageName(b) == b
    {
      var t :| t in v && StageName(t) == b;
    }
    forall b | b in StageImage(v)
      ensures b in StageImage(StageImage(v))
    {
      assert StageName(b) in StageImage(StageImage(v));
    }
  }

  lemma StagesDistribute(v: Mask, w: Mask)
    ensures StagesRepresentable(v + w) <==> StagesRepresentable(v) && StagesRepresentable(w)
    ensures StageImage(v + w) == StageImage(v) + StageImage(w)
  {
  }

  /** A stage is synchronized by a mask that names it, its group, or everything. */
  predicate StageCovered(m: Mask, b: nat) {
    || b in m || (TRANSFER in m && b in TRANSFERS) || (VERTEX_INPUT in m && b in INPUTS)
    || (ALL_GRAPHICS in m && b in GRAPHICS) || ALL_COMMANDS in m
  }

  /** Every stage synchronized before lowering still is. */
  lemma StagesNeverWeaken(v: Mask, b: nat)
    requires StagesRepresentable(v) && StageCovered(v, b)
    ensures StageCovered(StageImage(v), b)
  {
    forall n | n in v
      ensures StageName(n) in StageImage(v)
    {
    }
    if b in v {
      assert StageName(b) in StageImage(v);
    } else if ALL_COMMANDS in v {
      assert StageName(ALL_COMMANDS) in StageImage(v);
    } else if ALL_GRAPHICS in v && b in GRAPHICS {
      assert StageName(ALL_GRAPHICS) in StageImage(v);
    } else if TRANSFER in v && b in TRANSFERS {
      assert StageName(TRANSFER) in StageImage(v);
    } else {
      assert StageName(VERTEX_INPUT) in StageImage(v);
    }
  }

  // ------------------------------------------------------------- accesses

  const UNIFORM_READ: nat := 3
  const SHADER_READ: nat := 5
  const SHADER_WRITE: nat := 6
  const MEMORY_READ: nat := 15
  const MEMORY_WRITE: nat := 16
  /** SHADER_SAMPLED_READ and SHADER_STORAGE_READ. */
  const SHADER_READS: Mask := {32, 33}
  const SHADER_STORAGE_WRITE: nat := 34
  /** The accesses taken over under their own bits; UNIFORM_READ, which has a legacy bit too, is not among them. */
  const DIRECT_ACCESSES: Mask := {0, 1, 2, 4, 5, 6, 7, 8, 9, 10, 11, 12, 13, 14, 15, 16}
  const READS: Mask := {0, 1, 2, 3, 4, 5, 7, 9, 11, 13, 32, 33}
  const WRITES: Mask := {6, 8, 10, 12, 14, 34}

  predicate AccessHasName(b: nat) {
    b in DIRECT_ACCESSES || b == UNIFORM_READ || b in SHADER_READS || b == SHADER_STORAGE_WRITE
  }

  function AccessName(b: nat): nat {
    if b == UNIFORM_READ || b in SHADER_READS then SHADER_READ else if b == SHADER_STORAGE_WRITE then SHADER_WRITE else b
  }

  predicate AccessesRepresentable(v: Mask) {
    forall b | b in v :: AccessHasName(b)
  }

  function AccessImage(v: Mask): Mask {
    set b | b in v :: AccessName(b)
  }

  /** legacy_access_mask: every access by its legacy name, refused exactly when one has none. */
  method LegacyAccessMask(value: Mask) returns (r: Result<Mask>)
    ensures r == if AccessesRepresentable(value) then Ok(AccessImage(value)) else Err
    ensures r.Ok? <==> forall b | b in value :: b <= 16 || b in {32, 33, 34}
    ensures r.Ok? ==> forall b: nat :: b in r.value <==>
              || (b <= 16 && b != 3 && b in value) || (b == 5 && value * {3, 32, 33} != {}) || (b == 6 && 34 in value)
  {
    var left, result := Take(value, {}, {UNIFORM_READ} + SHADER_READS, SHADER_READ);
    left, result := Take(left, result, {SHADER_STORAGE_WRITE}, SHADER_WRITE);
    result := result + left * DIRECT_ACCESSES;
    left := left - DIRECT_ACCESSES;
    AccessesTaken(value, result, left);
    assert forall b | b in value :: AccessHasName(b) <==> b <= 16 || b in {32, 33, 34};
    if left != {} { return Err; }
    r := Ok(result);
  }

  lemma AccessesTaken(value: Mask, result: Mask, left: Mask)
    requires var unread := value - ({UNIFORM_READ} + SHADER_READS);
             && left == (unread - {SHADER_STORAGE_WRITE}) - DIRECT_ACCESSES
             && result == (if value * ({UNIFORM_READ} + SHADER_READS) != {} then {SHADER_READ} else {})
                          + (if unread * {SHADER_STORAGE_WRITE} != {} then {SHADER_WRITE} else {}) + (unread - {SHADER_STORAGE_WRITE}) * DIRECT_ACCESSES
    ensures left == {} <==> AccessesRepresentable(value)
    ensures left == {} ==> result == AccessImage(value)
  {
    assert left == set b | b in value && !AccessHasName(b);
    if left == {} {
      forall b | b in result
        ensures b in AccessImage(value)
      {
        if b == SHADER_READ && value * ({UNIFORM_READ} + SHADER_READS) != {} {
          var t :| t in value * ({UNIFORM_READ} + SHADER_READS);
          assert AccessName(t) == SHADER_READ;
        } else if b == SHADER_WRITE && SHADER_STORAGE_WRITE in value {
          assert AccessName(SHADER_STORAGE_WRITE) == SHADER_WRITE;
        } else {
          assert b in value && AccessName(b) == b;
        }
      }
      forall b | b in value
        ensures AccessName(b) in result
      {
        assert b !in left;
        if b in {UNIFORM_READ} + SHADER_READS {
          assert b in value * ({UNIFORM_READ} + SHADER_READS);
        } else if b == SHADER_STORAGE_WRITE {
          assert b in (value - ({UNIFORM_READ} + SHADER_READS)) * {SHADER_STORAGE_WRITE};
        }
      }
    }
  }

  lemma AccessesLowerOnce(v: Mask)
    requires AccessesRepresentable(v)
    ensures AccessImage(v) <= DIRECT_ACCESSES && AccessImage(AccessImage(v)) == AccessImage(v)
  {
    forall b | b in AccessImage(v)
      ensures b in DIRECT_ACCESSES && AccessName(b) == b
    {
      var t :| t in v && AccessName(t) == b;
    }
    forall b | b in AccessImage(v)
      ensures b in AccessImage(AccessImage(v))
    {
      assert AccessName(b) in AccessImage(AccessImage(v));
    }
  }

  lemma AccessesDistribute(v: Mask, w: Mask)
    ensures AccessesRepresentable(v + w) <==> AccessesRepresentable(v) && AccessesRepresentable(w)
    ensures AccessImage(v + w) == AccessImage(v) + AccessImage(w)
  {
  }

  /**
   An access is made available or visible by a mask that names it, its group, or
   all reads or writes; uniform says whether SHADER_READ is taken to extend to
   uniform buffers.
   */
  predicate AccessCovered(m: Mask, b: nat, uniform: bool) {
    || b in m || (SHADER_READ in m && (b in SHADER_READS || (uniform && b == UNIFORM_READ)))
    || (SHADER_WRITE in m && b == SHADER_STORAGE_WRITE) || (MEMORY_READ in m && b in READS) || (MEMORY_WRITE in m && b in WRITES)
  }

  /** Uniform reads lower to SHADER_READ, though a legacy bit of their own exists. */
  predicate UniformReadsKept(v: Mask, uniform: bool) {
    uniform || UNIFORM_READ !in v || MEMORY_READ in v
  }

  /** Every access covered before lowering still is, exactly when no uniform read has to rely on SHADER_READ for it. */
  lemma OnlyUniformReadsWeaken(v: Mask, uniform: bool)
    requires AccessesRepresentable(v)
    ensures (forall b | AccessCovered(v, b, uniform) :: AccessCovered(AccessImage(v), b, uniform)) <==> UniformReadsKept(v, uniform)
  {
    if UniformReadsKept(v, uniform) {
      forall b | AccessCovered(v, b, uniform)
        ensures AccessCovered(AccessImage(v), b, uniform)
      {
        StillCovered(v, b, uniform);
      }
    } else {
      assert AccessCovered(v, UNIFORM_READ, uniform);
      UniformReadUncovered(v);
    }
  }

  lemma UniformReadUncovered(v: Mask)
    requires AccessesRepresentable(v) && MEMORY_READ !in v
    ensures !AccessCovered(AccessImage(v), UNIFORM_READ, false)
  {
    AccessesLowerOnce(v);
    forall b | b in v
      ensures AccessName(b) != MEMORY_READ && AccessName(b) != UNIFORM_READ
    {
    }
  }

  lemma StillCovered(v: Mask, b: nat, uniform: bool)
    requires AccessesRepresentable(v) && AccessCovered(v, b, uniform) && UniformReadsKept(v, uniform)
    ensures AccessCovered(AccessImage(v), b, uniform)
  {
    var image := AccessImage(v);
    forall n | n in v
      ensures AccessName(n) in image
    {
    }
    if b in v {
      assert AccessName(b) in image;
      if b == UNIFORM_READ && !uniform { assert AccessName(MEMORY_READ) in image; }
    } else if MEMORY_READ in v && b in READS {
      assert AccessName(MEMORY_READ) in image;
    } else if MEMORY_WRITE in v && b in WRITES {
      assert AccessName(MEMORY_WRITE) in image;
    } else if SHADER_WRITE in v && b == SHADER_STORAGE_WRITE {
      assert AccessName(SHADER_WRITE) in image;
    } else {
      assert AccessName(SHADER_READ) in image;
    }
  }

  /** The input that fails: a uniform read alone. */
  lemma UniformReadCanBeLost()
    ensures AccessesRepresentable({UNIFORM_READ}) && !UniformReadsKept({UNIFORM_READ}, false)
    ensures AccessCovered({UNIFORM_READ}, UNIFORM_READ, false) && !AccessCovered(AccessImage({UNIFORM_READ}), UNIFORM_READ, false)
  {
    assert AccessImage({UNIFORM_READ}) == {AccessName(UNIFORM_READ)};
  }
}

/** Barriers as they are recorded, with either kind of synchronization. */
module Barriers {
  import opened Fallible
  import opened LegacyMasks

  const NULL: nat := 0

  datatype Backend = Legacy | Synchronization2

  datatype Scope = Scope(stages: Mask, accesses: Mask)

  datatype BufferBarrier = BufferBarrier(buffer: nat, offset: nat, size: nat, src: Scope, dst: Scope, srcFamily: nat, dstFamily: nat)

  /** validate_scope: no access without a stage. */
  predicate ScopeValid(s: Scope) {
    s.stages == NONE ==> s.accesses == NONE
  }

  predicate Lowerable(s: Scope) {
    ScopeValid(s) && StagesRepresentable(s.stages) && AccessesRepresentable(s.accesses)
  }

  /** No stage is written TOP_OF_PIPE where work comes from and BOTTOM_OF_PIPE where it goes to. */
  function Lowered(s: Scope, source: bool): Scope {
    Scope(if s.stages == NONE then {if source then TOP_OF_PIPE else BOTTOM_OF_PIPE} else StageImage(s.stages), AccessImage(s.accesses))
  }

  /** legacy_scope_stage. */
  method LegacyScopeStage(s: Scope, source: bool) returns (r: Result<Mask>)
    ensures r == if ScopeValid(s) && StagesRepresentable(s.stages) then Ok(Lowered(s, source).stages) else Err
    ensures r.Ok? <==> (s.stages == {} ==> s.accesses == {}) && StagesRepresentable(s.stages)
    ensures r.Ok? ==> r.value == if s.stages != {} then StageImage(s.stages) else {if source then TOP_OF_PIPE else BOTTOM_OF_PIPE}
  {
    if s.stages == NONE && s.accesses != NONE { return Err; }
    if s.stages == NONE { return Ok({if source then TOP_OF_PIPE else BOTTOM_OF_PIPE}); }
    r := LegacyStageMask(s.stages);
  }

  /** buffer_barrier: what is recorded. */
  method RecordBufferBarrier(params: BufferBarrier, backend: Backend) returns (r: Result<BufferBarrier>)
    ensures r.Ok? <==>
              && params.buffer != NULL && params.size != 0 && ScopeValid(params.src) && ScopeValid(params.dst)
              && (backend == Legacy ==> Lowerable(params.src) && Lowerable(params.dst))
    ensures r.Ok? <==>
              && params.buffer != 0 && params.size != 0
              && (params.src.stages == {} ==> params.src.accesses == {}) && (params.dst.stages == {} ==> params.dst.accesses == {})
              && (backend == Legacy ==> forall s | s in {params.src, params.dst} :: StagesRepresentable(s.stages) && AccessesRepresentable(s.accesses))
    ensures r.Ok? ==> r.value.(src := params.src, dst := params.dst) == params
    ensures r.Ok? && backend == Legacy ==>
              && r.value.src.stages == (if params.src.stages != {} then StageImage(params.src.stages) else {TOP_OF_PIPE})
              && r.value.dst.stages == (if params.dst.stages != {} then StageImage(params.dst.stages) else {BOTTOM_OF_PIPE})
              && r.value.src.accesses == AccessImage(params.src.accesses) && r.value.dst.accesses == AccessImage(params.dst.accesses)
    ensures r.Ok? ==> r.value == if backend == Legacy then params.(src := Lowered(params.src, true), dst := Lowered(params.dst, false)) else params
  {
    if params.buffer == NULL || params.size == 0 { return Err; }
    if params.src.stages == NONE && params.src.accesses != NONE { return Err; }
    if params.dst.stages == NONE && params.dst.accesses != NONE { return Err; }
    if backend != Legacy { return Ok(params); }
    var srcStage := LegacyScopeStage(params.src, true);
    if srcStage.Err? { return Err; }
    var dstStage := LegacyScopeStage(params.dst, false);
    if dstStage.Err? { return Err; }
    var srcAccess := LegacyAccessMask(params.src.accesses);
    if srcAccess.Err? { return Err; }
    var dstAccess := LegacyAccessMask(params.dst.accesses);
    if dstAccess.Err? { return Err; }
    r := Ok(params.(src := Scope(srcStage.value, srcAccess.value), dst := Scope(dstStage.value, dstAccess.value)));
  }

  /** A scope reaches an access of a stage. */
  predicate Reaches(s: Scope, stage: nat, access: nat, uniform: bool) {
    StageCovered(s.stages, stage) && AccessCovered(s.accesses, access, uniform)
  }

  /** On the legacy backend a barrier reaches everything it reached on the other, but for uniform reads that SHADER_READ does not extend to. */
  lemma LoweredScopeReaches(s: Scope, source: bool, stage: nat, access: nat, uniform: bool)
    requires Lowerable(s) && Reaches(s, stage, access, uniform)
    ensures UniformReadsKept(s.accesses, uniform) || access != UNIFORM_READ ==> Reaches(Lowered(s, source), stage, access, uniform)
  {
    StagesNeverWeaken(s.stages, stage);
    if UniformReadsKept(s.accesses, uniform) {
      StillCovered(s.accesses, access, uniform);
    } else if access != UNIFORM_READ {
      OtherAccessStillCovered(s.accesses, access, uniform);
    }
  }

  lemma OtherAccessStillCovered(v: Mask, b: nat, uniform: bool)
    requires AccessesRepresentable(v) && AccessCovered(v, b, uniform) && b != UNIFORM_READ
    ensures AccessCovered(AccessImage(v), b, uniform)
  {
    assert AccessCovered(v, b, true);
    StillCovered(v, b, true);
  }

  /** Stages alone, for execution dependencies, are never lost. */
  lemma LoweredScopeWaits(s: Scope, source: bool, stage: nat)
    requires Lowerable(s) && StageCovered(s.stages, stage)
    ensures StageCovered(Lowered(s, source).stages, stage)
  {
    StagesNeverWeaken(s.stages, stage);
  }
}
