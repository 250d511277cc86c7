/**
 The arithmetic of device timestamps: counters of 1 to 64 valid bits that wrap,
 read as 64-bit values (src/vkexec_profiling/chrome_trace.cpp and
 src/vkexec_profiling/detail/timestamp_math.hpp).
 */
module Ticks {
  const COUNTER_BITS: nat := 64
  const WORD: nat := 0x1_0000_0000_0000_0000

  function Pow2(n: nat): (p: nat)
    ensures p > 0
  {
    if n == 0 then 1 else 2 * Pow2(n - 1)
  }

  /** The unsigned 64-bit difference, masked to the counter's bits: and-ing with 2^bits - 1 is reduction modulo 2^bits. */
  function Elapsed(from: nat, to: nat, bits: nat): nat
    requires 1 <= bits <= COUNTER_BITS
  {
    var delta := (to - from) % WORD;
    if bits < COUNTER_BITS then delta % Pow2(bits) else delta
  }

  lemma {:induction false} Pow2Sum(a: nat, b: nat)
    ensures Pow2(a + b) == Pow2(a) * Pow2(b)
  {
    if a > 0 {
      Pow2Sum(a - 1, b);
    }
  }

  lemma WordIsPow2()
    ensures WORD == Pow2(COUNTER_BITS)
  {
    assert Pow2(2) == 4;
    hide Pow2;
    Pow2Sum(2, 2);
    Pow2Sum(4, 4);
    Pow2Sum(8, 8);
    Pow2Sum(16, 16);
    Pow2Sum(32, 32);
  }

  lemma AtLeast(a: int, m: nat)
    requires a >= 1
    ensures a * m >= m
  {
    assert a * m == (a - 1) * m + m;
    assert (a - 1) * m >= 0;
  }

  lemma Distribute(a: int, b: int, m: int)
    ensures (a - b) * m == a * m - b * m
  {
  }

  /** Quotient and remainder are unique. */
  lemma Unique(x: int, q: int, r: int, m: nat)
    requires m > 0 && x == q * m + r && 0 <= r < m
    ensures x % m == r
  {
    var p, s := x / m, x % m;
    assert x == p * m + s;
    if p > q {
      Distribute(p, q, m);
      AtLeast(p - q, m);
      assert false;
    } else if p < q {
      Distribute(q, p, m);
      AtLeast(q - p, m);
      assert false;
    }
  }

  lemma ModShift(x: int, k: int, m: nat)
    requires m > 0
    ensures (x + k * m) % m == x % m
  {
    Distribute(x / m, -k, m);
    assert -k * m == -(k * m);
    Unique(x + k * m, x / m + k, x % m, m);
  }

  lemma Regroup(q: int, m: int, k: int)
    ensures q * (m * k) == q * k * m
  {
  }

  lemma ModOfMod(x: int, m: nat, k: nat, n: nat)
    requires m > 0 && n > 0 && n == m * k
    ensures x % n % m == x % m
  {
    var q, r := x / n, x % n;
    var t := q * k * m;
    Regroup(q, m, k);
    assert q * n == t;
    assert x == r + t;
    ModShift(r, q * k, m);
  }

  /** Reducing modulo 2^64 first does not change the low bits. */
  lemma ModMod(x: int, bits: nat)
    requires bits <= COUNTER_BITS
    ensures x % WORD % Pow2(bits) == x % Pow2(bits)
  {
    WordIsPow2();
    Pow2Sum(bits, COUNTER_BITS - bits);
    ModOfMod(x, Pow2(bits), Pow2(COUNTER_BITS - bits), WORD);
  }

  /** Numbers with the same remainder differ by a multiple. */
  lemma Congruent(x: int, y: int, m: nat)
    requires m > 0 && x % m == y % m
    ensures x - y == (x / m - y / m) * m
  {
    Distribute(x / m, y / m, m);
  }

  /**
   The true ticks between two readings are recovered across any wrap-around,
   as long as fewer than 2^bits of them passed: the readings may be any 64-bit
   values that agree with the true counts in their valid bits.
   */
  lemma ElapsedRecoversTicks(earlier: nat, later: nat, from: nat, to: nat, bits: nat)
    requires 1 <= bits <= COUNTER_BITS
    requires earlier <= later < earlier + Pow2(bits)
    requires from % Pow2(bits) == earlier % Pow2(bits) && to % Pow2(bits) == later % Pow2(bits)
    ensures Elapsed(from, to, bits) == later - earlier
  {
    WordIsPow2();
    hide Pow2;
    var m := Pow2(bits);
    ModMod(to - from, bits);
    Congruent(to, later, m);
    Congruent(from, earlier, m);
    var a, b := to / m - later / m, from / m - earlier / m;
    Distribute(a, b, m);
    assert to - from == later - earlier + (a - b) * m;
    ModShift(later - earlier, a - b, m);
    Unique(later - earlier, 0, later - earlier, m);
  }

  /** Elapsed counts never need more than the counter's bits. */
  lemma ElapsedFits(from: nat, to: nat, bits: nat)
    requires 1 <= bits <= COUNTER_BITS
    ensures Elapsed(from, to, bits) < Pow2(bits)
  {
    WordIsPow2();
    hide Pow2;
  }
}

/** write_chrome_trace: which events it exports, relative to which origin. */
module ChromeTrace {
  import opened Optional
  import opened ProfileEvent
  import opened Ticks
  import Utf8
  import JsonString
  import Profiler

  datatype Error = InvalidArgument | Unsupported

  datatype Result<+T> = Ok(value: T) | Err(error: Error)

  /** One object of the traceEvents array; numbers before they are printed. */
  datatype Entry = Entry(name: Utf8.Bytes, family: nat, startUs: real, durationUs: real, submission: nat, region: nat)

  datatype Trace = Trace(omitted: nat, entries: seq<Entry>)

  const NANOSECONDS_PER_MICROSECOND: real := 1000.0

  predicate HasUsableTimestamps(e: Event) {
    && 1 <= e.validBits <= COUNTER_BITS
    && e.periodNs.Finite? && e.periodNs.value > 0.0
    && e.durationNs.Finite? && e.durationNs.value >= 0.0
  }

  predicate SharesTimestampDomain(e: Event, origin: Event) {
    e.submission == origin.submission && e.family == origin.family && e.validBits == origin.validBits && e.periodNs == origin.periodNs
  }

  /** What an event must be on its own to be exported. */
  ghost predicate Presentable(e: Event) {
    e.status == Valid ==>
      && Utf8.IsUtf8(e.name) && 1 <= e.validBits <= 64
      && e.periodNs.Finite? && e.periodNs.value > 0.0 && e.durationNs.Finite? && e.durationNs.value >= 0.0
  }

  /** Of one submission, on one queue family, with one kind of timestamps. */
  predicate OneDomain(e: Event, f: Event) {
    e.submission == f.submission && e.family == f.family && e.validBits == f.validBits && e.periodNs == f.periodNs
  }

  /** Every valid event is presentable, and all of them share one domain, each with each. */
  ghost predicate Exportable(events: seq<Event>) {
    && (forall i | 0 <= i < |events| :: Presentable(events[i]))
    && forall i, j | 0 <= i < |events| && 0 <= j < |events| && events[i].status == Valid && events[j].status == Valid ::
         OneDomain(events[i], events[j])
  }

  lemma TestsAreThese(e: Event, f: Event)
    ensures Presentable(e) <==> (e.status == Valid ==> Utf8.IsUtf8(e.name) && HasUsableTimestamps(e))
    ensures SharesTimestampDomain(e, f) <==> OneDomain(e, f)
  {
  }

  /** The valid event of least region, the first of them. */
  predicate IsOrigin(events: seq<Event>, o: nat) {
    && o < |events| && events[o].status == Valid
    && forall i | 0 <= i < |events| && events[i].status == Valid ::
         events[o].region <= events[i].region && (i < o ==> events[o].region < events[i].region)
  }

  /** Ticks from the origin, in microseconds. */
  function StartUs(e: Event, origin: Event): real
    requires HasUsableTimestamps(e)
  {
    Elapsed(origin.startTick, e.startTick, e.validBits) as real * e.periodNs.value / NANOSECONDS_PER_MICROSECOND
  }

  function DurationUs(e: Event): real
    requires HasUsableTimestamps(e)
  {
    e.durationNs.value / NANOSECONDS_PER_MICROSECOND
  }

  /** Neither conversion leaves the range of a double. */
  predicate Converts(e: Event, origin: Event, largest: real)
    requires HasUsableTimestamps(e)
  {
    StartUs(e, origin) <= largest && DurationUs(e) <= largest
  }

  function EntryOf(e: Event, origin: Event): Entry
    requires HasUsableTimestamps(e)
  {
    Entry(JsonString.Quoted(e.name), e.family, StartUs(e, origin), DurationUs(e), e.submission, e.region)
  }

  function ValidOnes(events: seq<Event>): (r: seq<Event>)
    ensures |r| <= |events|
    ensures forall i | 0 <= i < |r| :: r[i] in events && r[i].status == Valid
  {
    if events == [] then []
    else
      var last := events[|events| - 1];
      ValidOnes(events[..|events| - 1]) + if last.status == Valid then [last] else []
  }

  /** Every valid event is there once, after the valid ones before it. */
  lemma {:induction false} ValidOnesAre(events: seq<Event>, i: nat)
    requires i < |events| && events[i].status == Valid
    ensures |ValidOnes(events)| == |set j: nat | j < |events| && events[j].status == Valid|
    ensures var k := |set j: nat | j < i && events[j].status == Valid|; k < |ValidOnes(events)| && ValidOnes(events)[k] == events[i]
    decreases |events|
  {
    var n := |events| - 1;
    var rest := events[..n];
    ValidOnesCount(events);
    ValidOnesCount(rest);
    assert (set j: nat | j < n && rest[j].status == Valid) == (set j: nat | j < n && events[j].status == Valid);
    if i < n {
      ValidOnesAre(rest, i);
      assert (set j: nat | j < i && rest[j].status == Valid) == (set j: nat | j < i && events[j].status == Valid);
    }
  }

  lemma {:induction false} ValidOnesCount(events: seq<Event>)
    ensures |ValidOnes(events)| == |set j: nat | j < |events| && events[j].status == Valid|
    decreases |events|
  {
    var all := set j: nat | j < |events| && events[j].status == Valid;
    if events == [] {
      assert all == {};
    } else {
      var n := |events| - 1;
      var rest := events[..n];
      ValidOnesCount(rest);
      var before := set j: nat | j < n && rest[j].status == Valid;
      assert all == before + if events[n].status == Valid then {n} else {};
    }
  }

  /** Every field is where it belongs, and the name can be read back. */
  lemma EntryHolds(e: Event, origin: Event, rest: Utf8.Bytes, largest: real)
    requires HasUsableTimestamps(e)
    ensures var entry := EntryOf(e, origin);
            && JsonString.ReadString(entry.name + rest) == Some(JsonString.Read(e.name, rest))
            && entry.family == e.family && entry.submission == e.submission && entry.region == e.region
            && entry.startUs == Elapsed(origin.startTick, e.startTick, e.validBits) as real * e.periodNs.value / 1000.0
            && entry.durationUs == e.durationNs.value / 1000.0
            && (Converts(e, origin, largest) <==> entry.startUs <= largest && entry.durationUs <= largest)
  {
    JsonString.RoundTrip(e.name, rest);
  }

  /** What the first loop has found in the events it has seen. */
  ghost predicate Scanned(events: seq<Event>, origin: Option<nat>) {
    && (forall i | 0 <= i < |events| :: Presentable(events[i]))
    && match origin
       case None => ValidOnes(events) == [] && forall i | 0 <= i < |events| :: events[i].status != Valid
       case Some(o) =>
         IsOrigin(events, o) && forall i | 0 <= i < |events| && events[i].status == Valid :: OneDomain(events[i], events[o])
  }

  /** Sharing with the origin, wherever it has moved, is sharing with each other. */
  lemma ScannedIsExportable(events: seq<Event>, origin: Option<nat>)
    requires Scanned(events, origin)
    ensures Exportable(events)
    ensures if origin.None? then ValidOnes(events) == [] else IsOrigin(events, origin.value)
  {
  }

  /** Where the origin is after one more event. */
  function NextOrigin(seen: seq<Event>, e: Event, origin: Option<nat>): Option<nat>
    requires origin.Some? ==> origin.value < |seen|
  {
    if e.status == Valid && (origin.None? || e.region < seen[origin.value].region) then Some(|seen|) else origin
  }

  lemma ScanNext(seen: seq<Event>, e: Event, origin: Option<nat>)
    requires Scanned(seen, origin) && Presentable(e)
    requires e.status == Valid && origin.Some? ==> OneDomain(e, seen[origin.value])
    ensures Scanned(seen + [e], NextOrigin(seen, e, origin))
    ensures |ValidOnes(seen + [e])| == |ValidOnes(seen)| + if e.status == Valid then 1 else 0
  {
    var next := seen + [e];
    assert next[..|seen|] == seen;
    forall i | 0 <= i < |next|
      ensures Presentable(next[i])
    {
      assert i < |seen| ==> Presentable(seen[i]);
    }
  }

  /** The first loop: it succeeds exactly on exportable events. */
  method ChooseOrigin(events: seq<Event>) returns (r: Result<(nat, Option<nat>)>)
    ensures r.Ok? <==> Exportable(events)
    ensures r.Ok? ==> r.value.0 + |ValidOnes(events)| == |events|
    ensures r.Ok? ==> if r.value.1.None? then ValidOnes(events) == [] else IsOrigin(events, r.value.1.value)
    ensures r == Err(Unsupported) ==>
              exists i, j :: 0 <= i < |events| && 0 <= j < |events| && events[i].status == Valid && events[j].status == Valid
                             && !OneDomain(events[i], events[j])
    ensures r == Err(InvalidArgument) ==> exists i :: 0 <= i < |events| && !Presentable(events[i])
  {
    hide Scanned, ValidOnes, IsOrigin, SharesTimestampDomain, OneDomain, HasUsableTimestamps, Presentable, Utf8.IsUtf8;
    var omitted: nat := 0;
    var origin: Option<nat> := None;
    assert events[..0] == [] && Scanned([], None) && ValidOnes([]) == [] by { NothingScanned(); }
    for i := 0 to |events|
      invariant Scanned(events[..i], origin) && omitted + |ValidOnes(events[..i])| == i
      invariant origin.Some? ==> origin.value < i && events[origin.value].status == Valid
    {
      var event := events[i];
      assert events[..i + 1] == events[..i] + [event];
      TestsAreThese(event, if origin.Some? then events[origin.value] else event);
      if event.status != Valid {
        ScanNext(events[..i], event, origin);
        omitted := omitted + 1;
        continue;
      }
      var text := Utf8.ValidUtf8(event.name);
      if !text || !HasUsableTimestamps(event) {
        assert !Presentable(events[i]);
        return Err(InvalidArgument);
      }
      if origin.None? {
        ScanNext(events[..i], event, origin);
        origin := Some(i);
        continue;
      }
      var o := origin.value;
      if !SharesTimestampDomain(event, events[o]) {
        assert !OneDomain(events[i], events[o]);
        return Err(Unsupported);
      }
      ScanNext(events[..i], event, origin);
      if event.region < events[o].region { origin := Some(i); }
    }
    assert events[..|events|] == events;
    ScannedIsExportable(events, origin);
    r := Ok((omitted, origin));
  }

  lemma NothingScanned()
    ensures Scanned([], None) && ValidOnes([]) == []
  {
  }

  /** The second loop: the valid events in order, each against the origin. */
  method WriteEntries(events: seq<Event>, origin: Event, largest: real) returns (r: Option<seq<Entry>>)
    requires forall i | 0 <= i < |events| && events[i].status == Valid :: HasUsableTimestamps(events[i])
    ensures r.Some? <==> forall e | e in ValidOnes(events) :: HasUsableTimestamps(e) && Converts(e, origin, largest)
    ensures r.Some? ==> |r.value| == |ValidOnes(events)|
                        && forall i | 0 <= i < |r.value| :: HasUsableTimestamps(ValidOnes(events)[i])
                                                            && r.value[i] == EntryOf(ValidOnes(events)[i], origin)
  {
    var entries: seq<Entry> := [];
    for i := 0 to |events|
      invariant |entries| == |ValidOnes(events[..i])|
      invariant forall j | 0 <= j < |entries| ::
                  && HasUsableTimestamps(ValidOnes(events[..i])[j]) && Converts(ValidOnes(events[..i])[j], origin, largest)
                  && entries[j] == EntryOf(ValidOnes(events[..i])[j], origin)
    {
      assert events[..i + 1][..i] == events[..i];
      var event := events[i];
      if event.status != Valid { continue; }
      if !Converts(event, origin, largest) {
        ValidIsListed(events, i);
        return None;
      }
      var name := JsonString.WriteJsonString([], event.name);
      entries := entries + [Entry(name, event.family, StartUs(event, origin), DurationUs(event), event.submission, event.region)];
    }
    assert events[..|events|] == events;
    r := Some(entries);
  }

  lemma {:induction false} ValidIsListed(events: seq<Event>, i: nat)
    requires i < |events| && events[i].status == Valid
    ensures events[i] in ValidOnes(events)
    decreases |events|
  {
    var last := |events| - 1;
    if i < last {
      ValidIsListed(events[..last], i);
    } else {
      assert ValidOnes(events)[|ValidOnes(events)| - 1] == events[i];
    }
  }

  lemma OneOrigin(events: seq<Event>, o: nat, p: nat)
    requires IsOrigin(events, o) && IsOrigin(events, p)
    ensures o == p
  {
  }

  lemma OriginIsThere(events: seq<Event>, o: nat)
    requires IsOrigin(events, o)
    ensures o < |events|
  {
  }

  lemma UsableWhereValid(events: seq<Event>)
    requires Exportable(events)
    ensures forall i | 0 <= i < |events| && events[i].status == Valid :: HasUsableTimestamps(events[i])
  {
    hide HasUsableTimestamps, OneDomain, Presentable;
    forall i | 0 <= i < |events| && events[i].status == Valid
      ensures HasUsableTimestamps(events[i])
    {
      assert Presentable(events[i]);
      TestsAreThese(events[i], events[i]);
    }
  }

  /**
   Export succeeds exactly when the valid events are presentable, share one
   domain, and convert; then it holds every valid event in order and counts the
   rest as omitted. Nothing is returned to be written otherwise.
   */
  method WriteChromeTrace(events: seq<Event>, largest: real) returns (r: Result<Trace>)
    ensures r.Ok? <==> Exportable(events) && forall o: nat, e | IsOrigin(events, o) && e in ValidOnes(events) ::
                         HasUsableTimestamps(e) && Converts(e, events[o], largest)
    ensures r.Ok? ==> r.value.omitted + |r.value.entries| == |events| && |r.value.entries| == |ValidOnes(events)|
    ensures r.Ok? ==> forall o: nat, i | IsOrigin(events, o) && 0 <= i < |r.value.entries| ::
                        HasUsableTimestamps(ValidOnes(events)[i]) && r.value.entries[i] == EntryOf(ValidOnes(events)[i], events[o])
    ensures r == Err(Unsupported) ==>
              exists i, j :: 0 <= i < |events| && 0 <= j < |events| && events[i].status == Valid && events[j].status == Valid
                             && !OneDomain(events[i], events[j])
    ensures r == Err(InvalidArgument) ==> (exists i :: 0 <= i < |events| && !Presentable(events[i])) || Exportable(events)
  {
    hide IsOrigin, Exportable, OneDomain, Presentable, HasUsableTimestamps, Converts, EntryOf, ValidOnes;
    var chosen := ChooseOrigin(events);
    if chosen.Err? { return Err(chosen.error); }
    if chosen.value.1.None? {
      return Ok(Trace(chosen.value.0, []));
    }
    var o := chosen.value.1.value;
    UsableWhereValid(events);
    OriginIsThere(events, o);
    var entries := WriteEntries(events, events[o], largest);
    forall p: nat | IsOrigin(events, p)
      ensures p == o
    {
      OneOrigin(events, o, p);
    }
    if entries.None? { return Err(InvalidArgument); }
    r := Ok(Trace(chosen.value.0, entries.value));
  }

  /** The exported start of an event is its true distance from the origin, across any wrap of the counter. */
  lemma StartIsTrueDistance(e: Event, origin: Event, earlier: nat, later: nat)
    requires HasUsableTimestamps(e) && SharesTimestampDomain(e, origin)
    requires earlier <= later < earlier + Pow2(e.validBits)
    requires origin.startTick % Pow2(e.validBits) == earlier % Pow2(e.validBits) && e.startTick % Pow2(e.validBits) == later % Pow2(e.validBits)
    ensures StartUs(e, origin) == (later - earlier) as real * e.periodNs.value / NANOSECONDS_PER_MICROSECOND
  {
    hide Elapsed, Pow2;
    ElapsedRecoversTicks(earlier, later, origin.startTick, e.startTick, e.validBits);
  }

  /** Events resolved by one profiler for one submission on one family never stop an export for their timestamps or domain. */
  lemma ResolvedEventsFit(families: seq<Profiler.Family>, period: real, family: nat, submission: nat,
                          name: Utf8.Bytes, reading: Profiler.Reading, region: nat,
                          name': Utf8.Bytes, reading': Profiler.Reading, region': nat)
    requires family < |families| && period > 0.0
    ensures var e := Profiler.EventOf(families, period, family, reading, name, submission, region);
            var e' := Profiler.EventOf(families, period, family, reading', name', submission, region');
            e.status == Valid && e'.status == Valid ==> HasUsableTimestamps(e) && SharesTimestampDomain(e, e')
  {
    hide Elapsed, Profiler.Resolved;
  }
}
