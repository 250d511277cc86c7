/**
 Byte ranges of buffers and the lists of tracked regions: resource_ranges.hpp
 and the buffer half of resource_state_tracker_helpers.hpp, both under
 include/vkexec/detail.
 */
module ResourceRanges {
  import opened Optional
  import opened Fallible

  const MAX_SIZE: nat := 0xFFFF_FFFF_FFFF_FFFF
  const WHOLE_SIZE: nat := MAX_SIZE

  /** A half-open range; without an end it reaches the end of the buffer, wherever that is. */
  datatype Interval = Interval(begin: nat, end: Option<nat>)

  predicate Has(r: Interval, b: nat) {
    r.begin <= b && (r.end.Some? ==> b < r.end.value)
  }

  predicate Proper(r: Interval) {
    r.end.Some? ==> r.begin < r.end.value
  }

  /** normalize: 64-bit offsets and sizes, refused where the end would not fit. */
  function Normalize(offset: nat, size: nat): (r: Result<Interval>)
    requires offset <= MAX_SIZE && size <= MAX_SIZE
    ensures r.Ok? ==> Proper(r.value) && r.value.begin == offset && (r.value.end.None? <==> size == WHOLE_SIZE)
    ensures r.Ok? && r.value.end.Some? ==> r.value.end.value == offset + size <= MAX_SIZE
    ensures r.Err? <==> size == 0 || offset == MAX_SIZE || (size != WHOLE_SIZE && offset + size > MAX_SIZE)
  {
    if size == 0 || offset == MAX_SIZE || (size != WHOLE_SIZE && size > MAX_SIZE - offset) then Err
    else Ok(Interval(offset, if size == WHOLE_SIZE then None else Some(offset + size)))
  }

  predicate Overlaps(l: Interval, r: Interval) {
    (l.end.Some? ==> r.begin < l.end.value) && (r.end.Some? ==> l.begin < r.end.value)
  }

  function Max(a: nat, b: nat): nat {
    if a < b then b else a
  }

  function EarlierEnd(l: Option<nat>, r: Option<nat>): Option<nat> {
    if l.None? then r else if r.None? then l else if r.value < l.value then r else l
  }

  /** The bytes in both; nothing when they share none. */
  function Intersection(l: Interval, r: Interval): (common: Option<Interval>)
    requires Proper(l) && Proper(r)
    ensures common.Some? ==> Proper(common.value) && forall b: nat :: Has(common.value, b) <==> Has(l, b) && Has(r, b)
    ensures common.None? ==> forall b: nat :: !(Has(l, b) && Has(r, b))
    ensures common.Some? <==> Overlaps(l, r)
  {
    if !Overlaps(l, r) then None
    else Some(Interval(Max(l.begin, r.begin), EarlierEnd(l.end, r.end)))
  }

  /** Overlapping is sharing a byte. */
  lemma OverlapIsSharedByte(l: Interval, r: Interval)
    requires Proper(l) && Proper(r)
    ensures Overlaps(l, r) <==> exists b: nat :: Has(l, b) && Has(r, b)
  {
    var common := Intersection(l, r);
    if common.Some? {
      assert Has(common.value, common.value.begin);
    }
  }

  /** A range cut in two at a position strictly inside it. */
  function Split(r: Interval, position: nat): (pieces: Option<(Interval, Interval)>)
    requires Proper(r)
    ensures pieces.Some? <==> r.begin < position && Has(r, position)
    ensures pieces.Some? ==>
              && Proper(pieces.value.0) && Proper(pieces.value.1)
              && pieces.value.0 == Interval(r.begin, Some(position)) && pieces.value.1 == Interval(position, r.end)
              && forall b: nat :: Has(r, b) <==> Has(pieces.value.0, b) || Has(pieces.value.1, b)
  {
    if position <= r.begin || (r.end.Some? && position >= r.end.value) then None
    else Some((Interval(r.begin, Some(position)), Interval(position, r.end)))
  }

  predicate Precedes(l: Interval, r: Interval) {
    l.end.Some? && l.end.value <= r.begin
  }

  predicate Adjacent(l: Interval, r: Interval) {
    l.end == Some(r.begin) || r.end == Some(l.begin)
  }
}

module BufferRegions {
  import opened Optional
  import opened Fallible
  import opened ResourceRanges

  const IGNORED_FAMILY: nat := 0xFFFF_FFFF

  datatype Kind = Read | Write | ReadWrite

  /** Pipeline stages and memory accesses, as the bits that are set. */
  datatype Scope = Scope(stages: set<nat>, accesses: set<nat>)

  /** One use of a region: by a step, on a queue (0 for none) of a family. */
  datatype Access = Access(kind: Kind, scope: Scope, step: nat, family: nat, queue: nat)

  /** What the next use has to wait for: the last access that ordered everything, and the reads since. */
  datatype Frontier = Frontier(anchor: Option<Access>, readers: seq<Access>)

  datatype State = State(family: nat, accesses: Frontier)

  const UNUSED := State(IGNORED_FAMILY, Frontier(None, []))

  datatype Region = Region(range: Interval, state: State)

  predicate AllProper(regions: seq<Region>) {
    forall i | 0 <= i < |regions| :: Proper(regions[i].range)
  }

  /** Regions in order of their bytes, with no byte in two of them. */
  predicate Ordered(regions: seq<Region>) {
    && AllProper(regions)
    && (forall i, j | 0 <= i < j < |regions| :: Precedes(regions[i].range, regions[j].range))
  }

  /** The state tracked for a byte. */
  function At(regions: seq<Region>, b: nat): Option<State> {
    if regions == [] then None
    else if Has(regions[0].range, b) then Some(regions[0].state)
    else At(regions[1..], b)
  }

  lemma {:induction false} AtConcat(s: seq<Region>, t: seq<Region>, b: nat)
    ensures At(s + t, b) == if At(s, b).Some? then At(s, b) else At(t, b)
  {
    if s == [] {
      assert s + t == t;
    } else {
      assert (s + t)[1..] == s[1..] + t;
      AtConcat(s[1..], t, b);
    }
  }

  lemma AtOne(r: Region, b: nat)
    ensures At([r], b) == if Has(r.range, b) then Some(r.state) else None
  {
    assert [r][1..] == [];
  }

  lemma {:induction false} AtFound(regions: seq<Region>, b: nat) returns (i: nat)
    requires At(regions, b).Some?
    ensures i < |regions| && Has(regions[i].range, b) && At(regions, b) == Some(regions[i].state)
  {
    if Has(regions[0].range, b) {
      i := 0;
    } else {
      i := AtFound(regions[1..], b);
      i := i + 1;
    }
  }

  lemma TailIsOrdered(regions: seq<Region>, rest: seq<Region>)
    requires Ordered(regions) && regions != [] && rest == regions[1..]
    ensures Ordered(rest)
  {
    forall j | 0 <= j < |rest|
      ensures Proper(rest[j].range)
    {
      assert rest[j] == regions[j + 1];
    }
    assert AllProper(rest);
    forall j, k | 0 <= j < k < |rest|
      ensures Precedes(rest[j].range, rest[k].range)
    {
      assert rest[j] == regions[j + 1] && rest[k] == regions[k + 1];
    }
  }

  lemma {:induction false} AtRegion(regions: seq<Region>, i: nat, b: nat)
    requires Ordered(regions) && i < |regions| && Has(regions[i].range, b)
    ensures At(regions, b) == Some(regions[i].state)
  {
    if i > 0 {
      TailIsOrdered(regions, regions[1..]);
      assert Precedes(regions[0].range, regions[i].range);
      AtRegion(regions[1..], i - 1, b);
    }
  }

  lemma {:induction false} AtNowhere(regions: seq<Region>, b: nat)
    requires forall i | 0 <= i < |regions| :: !Has(regions[i].range, b)
    ensures At(regions, b) == None
  {
    if regions != [] {
      AtNowhere(regions[1..], b);
    }
  }

  // --------------------------------------------------------- partition

  predicate Inside(inner: Interval, outer: Interval) {
    outer.begin <= inner.begin && (outer.end.Some? ==> inner.end.Some? && inner.end.value <= outer.end.value)
  }

  /** Each region lies inside the range or apart from it. */
  predicate CutAt(regions: seq<Region>, range: Interval) {
    forall i | 0 <= i < |regions| :: Inside(regions[i].range, range) || !Overlaps(regions[i].range, range)
  }

  /** The state of a byte once the range has been opened up: its own, or unused if it had none. */
  function Opened(old_: Option<State>, inRange: bool): Option<State> {
    if inRange && old_.None? then Some(UNUSED) else old_
  }

  /** The bounds cannot be decided: an open region would be cut at a finite end, or an open range would extend finite regions. */
  predicate Undecided(regions: seq<Region>, range: Interval) {
    if range.end.Some? then exists i :: 0 <= i < |regions| && regions[i].range.end.None? && Overlaps(regions[i].range, range)
    else regions != [] && forall i | 0 <= i < |regions| :: regions[i].range.end.Some?
  }

  /** What one overlapped region becomes, with the gap before it. */
  function Pieces(region: Region, common: Interval, cursor: nat): (pieces: seq<Region>)
    requires Proper(region.range)
  {
    (if cursor < common.begin then [Region(Interval(cursor, Some(common.begin)), UNUSED)] else [])
    + (if Split(region.range, common.begin).Some? then [region.(range := Split(region.range, common.begin).value.0)] else [])
    + [region.(range := common)]
    + (if common.end.Some? && Split(region.range, common.end.value).Some? then [region.(range := Split(region.range, common.end.value).value.1)]
       else [])
  }

  predicate EndsBy(regions: seq<Region>, limit: nat) {
    forall i | 0 <= i < |regions| :: regions[i].range.end.Some? && regions[i].range.end.value <= limit
  }

  /** A byte of the range below the cursor has been covered. */
  predicate Behind(range: Interval, cursor: Option<nat>, b: nat) {
    Has(range, b) && (cursor.Some? ==> b < cursor.value)
  }

  /**
   How far the scan over the regions has come: the part of the range below the
   cursor is covered, and nothing of it from the cursor on.
   */
  ghost predicate Scanned(regions: seq<Region>, range: Interval, k: nat, done: seq<Region>, cursor: Option<nat>)
    requires k <= |regions|
  {
    && Ordered(done) && CutAt(done, range)
    && (k < |regions| ==> EndsBy(done, regions[k].range.begin))
    && (k < |regions| && Overlaps(regions[k].range, range) ==> cursor.Some? && EndsBy(done, cursor.value))
    && (cursor.Some? ==> range.begin <= cursor.value && (range.end.Some? ==> cursor.value <= range.end.value))
    && (cursor.Some? && k < |regions| ==> cursor.value <= Max(range.begin, regions[k].range.begin))
    && (if range.end.Some? then cursor.Some? && forall i | 0 <= i < k && Overlaps(regions[i].range, range) :: regions[i].range.end.Some?
        else cursor.None? <==> exists i :: 0 <= i < k && regions[i].range.end.None?)
    && (forall b: nat :: At(done, b) == Opened(At(regions[..k], b), Behind(range, cursor, b)))
    && (forall b: nat | Has(range, b) && !Behind(range, cursor, b) :: At(regions[..k], b) == None)
  }

  /** A region apart from the range is kept as it is. */
  lemma SkipKeepsScanned(regions: seq<Region>, range: Interval, k: nat, done: seq<Region>, cursor: Option<nat>)
    requires Ordered(regions) && Proper(range) && k < |regions| && Scanned(regions, range, k, done, cursor)
    requires !Overlaps(regions[k].range, range)
    ensures Scanned(regions, range, k + 1, done + [regions[k]], cursor)
  {
    var r := regions[k];
    OverlapIsSharedByte(r.range, range);
    forall b: nat
      ensures At(done + [r], b) == Opened(At(regions[..k + 1], b), Behind(range, cursor, b))
      ensures Has(range, b) && !Behind(range, cursor, b) ==> At(regions[..k + 1], b) == None
    {
      AtConcat(done, [r], b);
      AtOne(r, b);
      AtConcat(regions[..k], [r], b);
      assert regions[..k + 1] == regions[..k] + [r];
    }
  }

  /** What an overlapped region adds, byte by byte. */
  lemma PiecesAt(region: Region, range: Interval, common: Interval, cursor: nat, b: nat)
    requires Proper(region.range) && Proper(range) && Intersection(region.range, range) == Some(common)
    requires range.begin <= cursor <= Max(range.begin, region.range.begin)
    ensures At(Pieces(region, common, cursor), b) ==
            if Has(region.range, b) then Some(region.state)
            else if Has(range, b) && cursor <= b < common.begin then Some(UNUSED)
            else None
  {
    var gap := if cursor < common.begin then [Region(Interval(cursor, Some(common.begin)), UNUSED)] else [];
    var left := if Split(region.range, common.begin).Some? then [region.(range := Split(region.range, common.begin).value.0)] else [];
    var middle := [region.(range := common)];
    var right := if common.end.Some? && Split(region.range, common.end.value).Some?
                 then [region.(range := Split(region.range, common.end.value).value.1)] else [];
    AtConcat(gap + left + middle, right, b);
    AtConcat(gap + left, middle, b);
    AtConcat(gap, left, b);
    if gap != [] { AtOne(gap[0], b); }
    if left != [] { AtOne(left[0], b); }
    AtOne(middle[0], b);
    if right != [] { AtOne(right[0], b); }
  }

  /** An overlapped region is cut at the ends of the range, and the gap before it is opened. */
  lemma CutKeepsScanned(regions: seq<Region>, range: Interval, k: nat, done: seq<Region>, cursor: nat, common: Interval)
    requires Ordered(regions) && Proper(range) && k < |regions| && Scanned(regions, range, k, done, Some(cursor))
    requires Intersection(regions[k].range, range) == Some(common)
    requires regions[k].range.end.Some? || range.end.None?
    ensures Scanned(regions, range, k + 1, done + Pieces(regions[k], common, cursor), common.end)
  {
    var r := regions[k];
    var pieces := Pieces(r, common, cursor);
    PiecesInOrder(r, range, common, cursor);
    OrderedConcat(done, pieces, Min(cursor, r.range.begin));
    forall b: nat
      ensures At(done + pieces, b) == Opened(At(regions[..k + 1], b), Behind(range, common.end, b))
      ensures Has(range, b) && !Behind(range, common.end, b) ==> At(regions[..k + 1], b) == None
    {
      CutAtByte(regions, range, k, done, cursor, common, b);
    }
    hide At, Pieces;
  }

  lemma CutAtByte(regions: seq<Region>, range: Interval, k: nat, done: seq<Region>, cursor: nat, common: Interval, b: nat)
    requires Ordered(regions) && Proper(range) && k < |regions| && Scanned(regions, range, k, done, Some(cursor))
    requires Intersection(regions[k].range, range) == Some(common)
    ensures At(done + Pieces(regions[k], common, cursor), b) == Opened(At(regions[..k + 1], b), Behind(range, common.end, b))
    ensures Has(range, b) && !Behind(range, common.end, b) ==> At(regions[..k + 1], b) == None
  {
    var r := regions[k];
    AtConcat(done, Pieces(r, common, cursor), b);
    PiecesAt(r, range, common, cursor, b);
    AtConcat(regions[..k], [r], b);
    AtOne(r, b);
    assert regions[..k + 1] == regions[..k] + [r];
    assert At(done, b) == Opened(At(regions[..k], b), Behind(range, Some(cursor), b));
    hide Pieces, Ordered;
  }

  lemma PiecesInOrder(r: Region, range: Interval, common: Interval, cursor: nat)
    requires Proper(r.range) && Proper(range) && Intersection(r.range, range) == Some(common)
    requires range.begin <= cursor <= Max(range.begin, r.range.begin)
    ensures var pieces := Pieces(r, common, cursor);
            && Ordered(pieces) && CutAt(pieces, range) && pieces != []
            && (forall i | 0 <= i < |pieces| :: pieces[i].range.begin >= Min(cursor, r.range.begin))
  {
  }

  lemma OrderedConcat(s: seq<Region>, t: seq<Region>, limit: nat)
    requires Ordered(s) && Ordered(t) && EndsBy(s, limit) && forall i | 0 <= i < |t| :: t[i].range.begin >= limit
    ensures Ordered(s + t)
  {
    var all := s + t;
    assert forall i | 0 <= i < |all| :: all[i] == if i < |s| then s[i] else t[i - |s|];
  }

  function Min(a: nat, b: nat): nat {
    if a < b then a else b
  }

  // ------------------------------------------------------------- sorting

  function Insert(r: Region, s: seq<Region>): seq<Region> {
    if s == [] || r.range.begin <= s[0].range.begin then [r] + s else [s[0]] + Insert(r, s[1..])
  }

  /** The regions in order of their first bytes. */
  function SortByBegin(s: seq<Region>): seq<Region> {
    if s == [] then [] else Insert(s[0], SortByBegin(s[1..]))
  }

  predicate Apart(r: Region, s: seq<Region>) {
    forall x | x in s :: !Overlaps(r.range, x.range)
  }

  lemma {:induction false} InsertedElements(r: Region, s: seq<Region>)
    ensures forall x :: x in Insert(r, s) <==> x == r || x in s
  {
    if s != [] && r.range.begin > s[0].range.begin {
      InsertedElements(r, s[1..]);
      assert s == [s[0]] + s[1..];
    }
  }

  lemma {:induction false} InsertAt(r: Region, s: seq<Region>, b: nat)
    requires Proper(r.range) && Apart(r, s) && forall x | x in s :: Proper(x.range)
    ensures At(Insert(r, s), b) == if Has(r.range, b) then Some(r.state) else At(s, b)
  {
    if s == [] || r.range.begin <= s[0].range.begin {
      assert ([r] + s)[1..] == s;
    } else {
      InsertAt(r, s[1..], b);
      assert ([s[0]] + Insert(r, s[1..]))[1..] == Insert(r, s[1..]);
      OverlapIsSharedByte(r.range, s[0].range);
      assert s[0] in s;
    }
  }

  lemma {:induction false} InsertIsOrdered(r: Region, s: seq<Region>)
    requires Ordered(s) && Proper(r.range) && Apart(r, s)
    ensures Ordered(Insert(r, s))
  {
    if s == [] {
    } else if r.range.begin <= s[0].range.begin {
      forall i | 0 <= i < |s|
        ensures Precedes(r.range, s[i].range)
      {
        assert s[i] in s && s[0] in s;
      }
      assert forall i | 0 < i <= |s| :: ([r] + s)[i] == s[i - 1];
    } else {
      TailIsOrdered(s, s[1..]);
      InsertIsOrdered(r, s[1..]);
      InsertedElements(r, s[1..]);
      assert s[0] in s;
      var rest := Insert(r, s[1..]);
      forall i | 0 <= i < |rest|
        ensures Precedes(s[0].range, rest[i].range)
      {
        assert rest[i] in rest;
        if rest[i] != r {
          var j :| 0 <= j < |s[1..]| && s[1..][j] == rest[i];
          assert s[j + 1] == rest[i];
        }
      }
      ConsIsOrdered(s[0], rest);
    }
  }

  lemma ConsIsOrdered(r: Region, s: seq<Region>)
    requires Ordered(s) && Proper(r.range)
    requires forall i | 0 <= i < |s| :: Precedes(r.range, s[i].range)
    ensures Ordered([r] + s)
  {
    if s == [] {
      assert [r] + s == [r];
    } else {
      assert Precedes(r.range, s[0].range);
      OrderedConcat([r], s, r.range.end.value);
    }
  }

  /** No two of the regions share a byte. */
  predicate AllApart(s: seq<Region>) {
    AllProper(s) && forall i, j | 0 <= i < j < |s| :: !Overlaps(s[i].range, s[j].range)
  }

  /** Sorting regions that share no byte orders them and moves no byte to another state. */
  lemma {:induction false} SortingKeepsBytes(s: seq<Region>)
    requires AllApart(s)
    ensures Ordered(SortByBegin(s)) && (forall x :: x in SortByBegin(s) <==> x in s)
    ensures forall b: nat :: At(SortByBegin(s), b) == At(s, b)
  {
    if s != [] {
      var rest := s[1..];
      assert forall i | 0 <= i < |rest| :: rest[i] == s[i + 1];
      assert AllApart(rest);
      SortingKeepsBytes(rest);
      assert s == [s[0]] + rest;
      var sorted := SortByBegin(rest);
      forall x | x in sorted
        ensures !Overlaps(s[0].range, x.range) && Proper(x.range)
      {
        assert x in rest;
        var i :| 0 <= i < |rest| && rest[i] == x;
        assert s[i + 1] == x;
      }
      InsertIsOrdered(s[0], sorted);
      InsertedElements(s[0], sorted);
      forall b: nat
        ensures At(SortByBegin(s), b) == At(s, b)
      {
        InsertAt(s[0], sorted, b);
      }
    }
  }

  // ------------------------------------------------------- the operations

  /** The gap left at the end of the range is apart from everything scanned. */
  lemma LastGapIsApart(regions: seq<Region>, range: Interval, done: seq<Region>, cursor: nat)
    requires Ordered(regions) && Proper(range) && Scanned(regions, range, |regions|, done, Some(cursor))
    requires range.end.Some? ==> cursor < range.end.value
    ensures var gap := Region(Interval(cursor, range.end), UNUSED);
            AllApart(done + [gap]) && Inside(gap.range, range)
            && forall b: nat :: At(done + [gap], b) == Opened(At(regions, b), Has(range, b))
  {
    var gap := Region(Interval(cursor, range.end), UNUSED);
    assert regions[..|regions|] == regions;
    forall i | 0 <= i < |done|
      ensures !Overlaps(done[i].range, gap.range)
    {
      OverlapIsSharedByte(done[i].range, gap.range);
      forall b: nat | Has(done[i].range, b)
        ensures !Has(gap.range, b)
      {
        AtRegion(done, i, b);
        assert At(done, b) == Opened(At(regions[..|regions|], b), Behind(range, Some(cursor), b));
      }
    }
    OrderedIsApart(done);
    ApartConcat(done, gap);
    forall b: nat
      ensures At(done + [gap], b) == Opened(At(regions, b), Has(range, b))
    {
      AtConcat(done, [gap], b);
      AtOne(gap, b);
    }
  }

  lemma OrderedIsApart(s: seq<Region>)
    requires Ordered(s)
    ensures AllApart(s)
  {
  }

  lemma ApartConcat(s: seq<Region>, r: Region)
    requires AllApart(s) && Proper(r.range) && forall i | 0 <= i < |s| :: !Overlaps(s[i].range, r.range)
    ensures AllApart(s + [r])
  {
    var all := s + [r];
    assert forall i | 0 <= i < |all| :: Proper(all[i].range) && all[i] == if i < |s| then s[i] else r;
  }

  lemma NothingScanned(regions: seq<Region>, range: Interval)
    requires Ordered(regions) && Proper(range)
    ensures Scanned(regions, range, 0, [], Some(range.begin))
  {
    assert regions[..0] == [];
  }

  lemma RegionIsProper(regions: seq<Region>, k: nat)
    requires Ordered(regions) && k < |regions|
    ensures Proper(regions[k].range)
  {
  }

  lemma OverlapHasCursor(regions: seq<Region>, range: Interval, k: nat, done: seq<Region>, cursor: Option<nat>)
    requires k < |regions| && Scanned(regions, range, k, done, cursor) && Overlaps(regions[k].range, range)
    ensures cursor.Some? && range.begin <= cursor.value <= Max(range.begin, regions[k].range.begin)
  {
  }

  /** An open region cut at a finite end. */
  lemma OpenRegionIsUndecided(regions: seq<Region>, range: Interval, k: nat)
    requires Ordered(regions) && Proper(range) && k < |regions| && regions[k].range.end.None?
    requires Intersection(regions[k].range, range).Some? && Intersection(regions[k].range, range).value.end.Some?
    ensures Undecided(regions, range) && range.end.Some?
    ensures Intersection(regions[k].range, range).value.end.value > regions[k].range.begin
  {
  }

  lemma ScanDecides(regions: seq<Region>, range: Interval, done: seq<Region>, cursor: Option<nat>)
    requires Scanned(regions, range, |regions|, done, cursor)
    ensures Undecided(regions, range) <==> range.end.None? && regions != [] && cursor.Some?
    ensures cursor.None? ==> range.end.None?
    ensures Ordered(done) && CutAt(done, range)
  {
  }

  lemma AllCovered(regions: seq<Region>, range: Interval, done: seq<Region>, cursor: Option<nat>)
    requires Scanned(regions, range, |regions|, done, cursor)
    requires cursor.Some? ==> range.end.Some? && cursor.value >= range.end.value
    ensures AllApart(done) && forall b: nat :: At(done, b) == Opened(At(regions, b), Has(range, b))
  {
    OrderedIsApart(done);
    assert regions[..|regions|] == regions;
    forall b: nat
      ensures At(done, b) == Opened(At(regions, b), Has(range, b))
    {
      assert At(done, b) == Opened(At(regions[..|regions|], b), Behind(range, cursor, b));
    }
  }

  lemma GapIsCut(done: seq<Region>, range: Interval, gap: Region)
    requires CutAt(done, range) && Inside(gap.range, range)
    ensures CutAt(done + [gap], range)
  {
  }

  lemma SortedIsCut(s: seq<Region>, range: Interval)
    requires CutAt(s, range) && forall x :: x in SortByBegin(s) <==> x in s
    ensures CutAt(SortByBegin(s), range)
  {
    var sorted := SortByBegin(s);
    forall i | 0 <= i < |sorted|
      ensures Inside(sorted[i].range, range) || !Overlaps(sorted[i].range, range)
    {
      assert sorted[i] in s;
    }
  }

  /**
   partition_buffer_regions: the regions cut so that the range is made of whole
   regions, its uncovered bytes opened as unused ones and every other byte as it
   was. It fails exactly when the bounds cannot be decided.
   */
  method PartitionBufferRegions(regions: seq<Region>, range: Interval) returns (r: Result<seq<Region>>)
    requires Ordered(regions) && Proper(range)
    ensures r.Ok? <==> !Undecided(regions, range)
    ensures r.Ok? ==> Ordered(r.value) && CutAt(r.value, range)
                      && forall b: nat :: At(r.value, b) == Opened(At(regions, b), Has(range, b))
  {
    hide Scanned, Ordered, At, CutAt, Undecided, SortByBegin, AllApart;
    var partitioned: seq<Region> := [];
    var cursor: Option<nat> := Some(range.begin);
    NothingScanned(regions, range);
    for k := 0 to |regions|
      invariant Scanned(regions, range, k, partitioned, cursor)
    {
      var region := regions[k];
      RegionIsProper(regions, k);
      var common := Intersection(region.range, range);
      if common.None? {
        SkipKeepsScanned(regions, range, k, partitioned, cursor);
        partitioned := partitioned + [region];
        continue;
      }
      OverlapHasCursor(regions, range, k, partitioned, cursor);
      ghost var before, at := partitioned, cursor.value;
      if cursor.value < common.value.begin {
        partitioned := partitioned + [Region(Interval(cursor.value, Some(common.value.begin)), UNUSED)];
      }
      var left := Split(region.range, common.value.begin);
      if left.Some? { partitioned := partitioned + [region.(range := left.value.0)]; }
      partitioned := partitioned + [region.(range := common.value)];
      if common.value.end.Some? {
        if region.range.end.None? { OpenRegionIsUndecided(regions, range, k); }
        if region.range.end.None? && common.value.end.value > region.range.begin { return Err; }
        var right := Split(region.range, common.value.end.value);
        if right.Some? { partitioned := partitioned + [region.(range := right.value.1)]; }
      }
      assert partitioned == before + Pieces(region, common.value, at);
      CutKeepsScanned(regions, range, k, before, at, common.value);
      cursor := common.value.end;
    }
    ScanDecides(regions, range, partitioned, cursor);
    if cursor.Some? && (range.end.None? || cursor.value < range.end.value) {
      if range.end.None? && regions != [] { return Err; }
      LastGapIsApart(regions, range, partitioned, cursor.value);
      GapIsCut(partitioned, range, Region(Interval(cursor.value, range.end), UNUSED));
      partitioned := partitioned + [Region(Interval(cursor.value, range.end), UNUSED)];
    } else {
      AllCovered(regions, range, partitioned, cursor);
    }
    SortingKeepsBytes(partitioned);
    SortedIsCut(partitioned, range);
    r := Ok(SortByBegin(partitioned));
  }

  // -------------------------------------------------------------- merging

  predicate Mergeable(l: Region, r: Region) {
    Adjacent(l.range, r.range) && l.state == r.state
  }

  /** No two neighbours could be merged. */
  predicate Unmergeable(regions: seq<Region>) {
    forall i | 0 < i < |regions| :: !Mergeable(regions[i - 1], regions[i])
  }

  /** What the merging loop has done with the regions before index: compacted, in order, same bytes. */
  ghost predicate Merged(regions: seq<Region>, index: nat, kept: seq<Region>)
    requires index <= |regions|
  {
    && Ordered(kept) && |kept| <= index
    && (index < |regions| ==> EndsBy(kept, regions[index].range.begin))
    && (forall i | 0 < i < |kept| :: !Mergeable(kept[i - 1], kept[i]))
    && (forall b: nat :: At(kept, b) == At(regions[..index], b))
  }

  lemma KeepRegion(regions: seq<Region>, index: nat, kept: seq<Region>)
    requires Ordered(regions) && index < |regions| && Merged(regions, index, kept)
    requires kept != [] ==> !Mergeable(kept[|kept| - 1], regions[index])
    ensures Merged(regions, index + 1, kept + [regions[index]])
  {
    var r := regions[index];
    OrderedConcat(kept, [r], r.range.begin);
    forall b: nat
      ensures At(kept + [r], b) == At(regions[..index + 1], b)
    {
      AtConcat(kept, [r], b);
      AtConcat(regions[..index], [r], b);
      assert regions[..index + 1] == regions[..index] + [r];
    }
  }

  lemma ExtendRegion(regions: seq<Region>, index: nat, kept: seq<Region>)
    requires Ordered(regions) && index < |regions| && Merged(regions, index, kept)
    requires kept != [] && Mergeable(kept[|kept| - 1], regions[index])
    ensures var last := kept[|kept| - 1];
            Merged(regions, index + 1, kept[|kept| - 1 := last.(range := last.range.(end := regions[index].range.end))])
  {
    var r, n := regions[index], |kept| - 1;
    var last := kept[n];
    var wide := last.(range := last.range.(end := r.range.end));
    assert last.range.end == Some(r.range.begin);
    WidenedIsOrdered(kept, r.range.end);
    var after := kept[n := wide];
    assert kept == kept[..n] + [last] && after == kept[..n] + [wide];
    hide Ordered;
    forall b: nat
      ensures At(after, b) == At(regions[..index + 1], b)
    {
      AtConcat(kept[..n], [last], b);
      AtConcat(kept[..n], [wide], b);
      AtConcat(regions[..index], [r], b);
      AtOne(last, b);
      AtOne(wide, b);
      AtOne(r, b);
      assert regions[..index + 1] == regions[..index] + [r];
    }
    hide At;
  }

  lemma WidenedIsOrdered(kept: seq<Region>, end: Option<nat>)
    requires Ordered(kept) && kept != [] && kept[|kept| - 1].range.end.Some? && (end.Some? ==> kept[|kept| - 1].range.end.value < end.value)
    requires forall i | 0 < i < |kept| :: !Mergeable(kept[i - 1], kept[i])
    ensures var last := kept[|kept| - 1];
            var after := kept[|kept| - 1 := last.(range := last.range.(end := end))];
            Ordered(after) && forall i | 0 < i < |after| :: !Mergeable(after[i - 1], after[i])
  {
    var n := |kept| - 1;
    var after := kept[n := kept[n].(range := kept[n].range.(end := end))];
    assert forall i | 0 <= i < n :: after[i] == kept[i];
    forall i | 0 < i < |after|
      ensures !Mergeable(after[i - 1], after[i])
    {
      assert !Mergeable(kept[i - 1], kept[i]);
    }
  }

  /** merge_buffer_regions: no byte changes its state, and no two neighbours could still be merged. */
  method MergeBufferRegions(regions: seq<Region>) returns (r: seq<Region>)
    requires Ordered(regions)
    ensures Ordered(r) && |r| <= |regions| && Unmergeable(r)
    ensures forall i | 0 < i < |r| :: !(r[i - 1].range.end == Some(r[i].range.begin) && r[i - 1].state == r[i].state)
    ensures forall b: nat :: At(r, b) == At(regions, b)
  {
    var list := regions;
    var retained := 0;
    assert regions[..0] == [] && list[..0] == [];
    for index := 0 to |regions|
      invariant |list| == |regions| && retained <= index
      invariant list[index..] == regions[index..]
      invariant Merged(regions, index, list[..retained])
    {
      assert list[index] == list[index..][0] == regions[index];
      ghost var kept := list[..retained];
      var region := list[index];
      if retained != 0 {
        var previous := list[retained - 1];
        assert kept[|kept| - 1] == previous;
        if Adjacent(previous.range, region.range) && previous.state == region.state {
          ExtendRegion(regions, index, kept);
          list := list[retained - 1 := previous.(range := previous.range.(end := region.range.end))];
          assert list[..retained] == kept[|kept| - 1 := list[retained - 1]];
          assert list[index + 1..] == regions[index + 1..];
          continue;
        }
      }
      KeepRegion(regions, index, kept);
      list := list[retained := region];
      assert list[..retained + 1] == kept + [region];
      assert list[index + 1..] == regions[index + 1..];
      retained := retained + 1;
    }
    assert regions[..|regions|] == regions;
    r := list[..retained];
  }
}
