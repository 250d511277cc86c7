/**
 When the resource tracker accepts a use of a buffer, said of the uses there were
 and not of the regions that are kept for them.
 */
module BufferAcceptance {
  import opened Optional
  import opened ResourceRanges
  import opened BufferRegions
  import opened BufferHazards

  /** What the uses leave for a byte, if any touched it. */
  function ByteState(history: seq<Use>, buffer: nat, exclusive: bool, b: nat): Option<State> {
    var vs := Accesses(history, buffer, b);
    if vs == [] then None else Some(Replay(vs, exclusive))
  }

  /** From byte n on, without an end, all bytes have been used alike. */
  ghost predicate Steady(history: seq<Use>, buffer: nat, exclusive: bool, n: nat) {
    && ByteState(history, buffer, exclusive, n).Some?
    && forall b: nat | b >= n :: ByteState(history, buffer, exclusive, b) == ByteState(history, buffer, exclusive, n)
  }

  /** Some byte of the range was used in the same step, and not by the same kind of read. */
  ghost predicate Refused(history: seq<Use>, buffer: nat, exclusive: bool, range: Interval, v: Access) {
    exists b: nat :: Has(range, b) && RefusedAt(history, buffer, exclusive, b, v)
  }

  ghost predicate RefusedAt(history: seq<Use>, buffer: nat, exclusive: bool, b: nat, v: Access) {
    ByteState(history, buffer, exclusive, b).Some? && Rejected(ByteState(history, buffer, exclusive, b).value, v)
  }

  /** Where the end of the buffer matters and is not known: a range with an end reaches into what is used alike without one, or one without an end follows uses that all had one. */
  ghost predicate Unbounded(history: seq<Use>, buffer: nat, exclusive: bool, range: Interval) {
    if range.end.Some? then exists n: nat :: n < range.end.value && Steady(history, buffer, exclusive, n)
    else && (exists b: nat :: ByteState(history, buffer, exclusive, b).Some?)
         && !(exists n: nat :: Steady(history, buffer, exclusive, n))
  }

  /** The regions keep just that, and no more of them than needed. */
  ghost predicate Mirrored(regions: seq<Region>, history: seq<Use>, buffer: nat, exclusive: bool) {
    Ordered(regions) && Unmergeable(regions) && forall b: nat :: At(regions, b) == ByteState(history, buffer, exclusive, b)
  }

  predicate RegionRefuses(regions: seq<Region>, range: Interval, v: Access) {
    exists i :: 0 <= i < |regions| && Overlaps(regions[i].range, range) && Rejected(regions[i].state, v)
  }

  lemma RegionsRefuse(regions: seq<Region>, history: seq<Use>, buffer: nat, exclusive: bool, range: Interval, v: Access)
    requires Mirrored(regions, history, buffer, exclusive) && Proper(range)
    ensures RegionRefuses(regions, range, v) <==> Refused(history, buffer, exclusive, range, v)
  {
    hide ByteState, Rejected;
    if RegionRefuses(regions, range, v) {
      var i :| 0 <= i < |regions| && Overlaps(regions[i].range, range) && Rejected(regions[i].state, v);
      assert Proper(regions[i].range);
      OverlapIsSharedByte(regions[i].range, range);
      var b: nat :| Has(regions[i].range, b) && Has(range, b);
      AtRegion(regions, i, b);
      assert RefusedAt(history, buffer, exclusive, b, v);
    }
    if Refused(history, buffer, exclusive, range, v) {
      var b: nat :| Has(range, b) && RefusedAt(history, buffer, exclusive, b, v);
      assert At(regions, b).Some?;
      var i := AtFound(regions, b);
      assert Proper(regions[i].range);
      OverlapIsSharedByte(regions[i].range, range);
    }
  }

  /** A number past the end of every region that has one. */
  function Past(regions: seq<Region>): (n: nat)
    ensures forall i | 0 <= i < |regions| && regions[i].range.end.Some? :: regions[i].range.end.value <= n
  {
    if regions == [] then 0
    else
      var rest := Past(regions[1..]);
      assert forall i | 0 < i < |regions| :: regions[i] == regions[1..][i - 1];
      if regions[0].range.end.Some? && regions[0].range.end.value > rest then regions[0].range.end.value else rest
  }

  /** A region without an end starts where bytes begin to be used alike, and so is the last. */
  lemma OpenRegionIsSteady(regions: seq<Region>, history: seq<Use>, buffer: nat, exclusive: bool, i: nat)
    requires Mirrored(regions, history, buffer, exclusive) && i < |regions| && regions[i].range.end.None?
    ensures Steady(history, buffer, exclusive, regions[i].range.begin)
  {
    hide ByteState;
    var n := regions[i].range.begin;
    forall b: nat | b >= n
      ensures ByteState(history, buffer, exclusive, b) == Some(regions[i].state)
    {
      AtRegion(regions, i, b);
    }
    assert n >= n;
  }

  lemma SteadyIsOpenRegion(regions: seq<Region>, history: seq<Use>, buffer: nat, exclusive: bool, n: nat) returns (i: nat)
    requires Mirrored(regions, history, buffer, exclusive) && Steady(history, buffer, exclusive, n)
    ensures i < |regions| && regions[i].range.end.None? && regions[i].range.begin <= n
  {
    hide ByteState;
    var far := Past(regions) + n;
    assert At(regions, far) == ByteState(history, buffer, exclusive, n);
    i := AtFound(regions, far);
    var begin := regions[i].range.begin;
    if begin > n {
      assert At(regions, begin - 1) == ByteState(history, buffer, exclusive, n);
      var j := AtFound(regions, begin - 1);
      NeighboursTouch(regions, j, i);
    }
  }

  /** The regions on both sides of a byte boundary are neighbours in the list. */
  lemma NeighboursTouch(regions: seq<Region>, j: nat, i: nat)
    requires Ordered(regions) && j < |regions| && i < |regions| && regions[i].range.end.None?
    requires regions[i].range.begin > 0 && Has(regions[j].range, regions[i].range.begin - 1)
    ensures j + 1 == i && Adjacent(regions[j].range, regions[i].range)
  {
    var next := if j + 1 < |regions| then j + 1 else j;
    assert Proper(regions[i].range) && Proper(regions[j].range) && Proper(regions[next].range);
  }

  lemma RegionsUndecided(regions: seq<Region>, history: seq<Use>, buffer: nat, exclusive: bool, range: Interval)
    requires Mirrored(regions, history, buffer, exclusive) && Proper(range)
    ensures Undecided(regions, range) <==> Unbounded(history, buffer, exclusive, range)
  {
    hide ByteState, Steady, Mirrored;
    if range.end.Some? {
      if Undecided(regions, range) {
        var i :| 0 <= i < |regions| && regions[i].range.end.None? && Overlaps(regions[i].range, range);
        OpenRegionIsSteady(regions, history, buffer, exclusive, i);
      }
      if n: nat :| n < range.end.value && Steady(history, buffer, exclusive, n) {
        var i := SteadyIsOpenRegion(regions, history, buffer, exclusive, n);
      }
    } else {
      RegionsAreUsed(regions, history, buffer, exclusive);
      forall i | 0 <= i < |regions| && regions[i].range.end.None?
        ensures exists n: nat :: Steady(history, buffer, exclusive, n)
      {
        OpenRegionIsSteady(regions, history, buffer, exclusive, i);
      }
      if n: nat :| Steady(history, buffer, exclusive, n) {
        var i := SteadyIsOpenRegion(regions, history, buffer, exclusive, n);
      }
    }
  }

  lemma RegionsAreUsed(regions: seq<Region>, history: seq<Use>, buffer: nat, exclusive: bool)
    requires Mirrored(regions, history, buffer, exclusive)
    ensures regions != [] <==> exists b: nat :: ByteState(history, buffer, exclusive, b).Some?
  {
    hide ByteState;
    if regions != [] {
      assert Proper(regions[0].range);
      AtRegion(regions, 0, regions[0].range.begin);
      assert ByteState(history, buffer, exclusive, regions[0].range.begin).Some?;
    }
    if b: nat :| ByteState(history, buffer, exclusive, b).Some? {
      assert At(regions, b).Some?;
      var i := AtFound(regions, b);
    }
  }
}
