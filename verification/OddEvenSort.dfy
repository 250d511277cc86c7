/**
 The parallel sort of examples/sort.cpp: a compare-exchange shader, dispatched
 once for each of n phases with the pair offset alternating 0, 1, 0, 1, ...

 The element order is any total preorder `leq` (floats without NaN are one);
 the shader's `left_value > right_value` is `!leq(left, right)`.
 */
module OddEvenSort {

  ghost predicate TotalPreorder<T(!new)>(leq: (T, T) -> bool) {
    && (forall x, y :: leq(x, y) || leq(y, x))
    && (forall x, y, z :: leq(x, y) && leq(y, z) ==> leq(x, z))
  }

  ghost predicate Sorted<T(!new)>(leq: (T, T) -> bool, s: seq<T>) {
    forall i, j | 0 <= i < j < |s| :: leq(s[i], s[j])
  }

  // ------------------------------------------------------------ one phase

  /** Element i is the left half of a pair that a phase with this offset compares. */
  predicate LeftOfPair(n: nat, offset: nat, i: int) {
    offset <= i && (i - offset) % 2 == 0 && i + 1 < n
  }

  function PhaseAt<T>(s: seq<T>, leq: (T, T) -> bool, offset: nat, i: nat): T
    requires i < |s|
  {
    if LeftOfPair(|s|, offset, i) then (if leq(s[i], s[i + 1]) then s[i] else s[i + 1])
    else if LeftOfPair(|s|, offset, i - 1) then (if leq(s[i - 1], s[i]) then s[i] else s[i - 1])
    else s[i]
  }

  /** What one phase means: every compared pair is ordered, all else is kept. */
  function Phase<T>(s: seq<T>, leq: (T, T) -> bool, offset: nat): (r: seq<T>)
    ensures |r| == |s|
  {
    seq(|s|, i requires 0 <= i < |s| => PhaseAt(s, leq, offset, i))
  }

  /** The first t phases of the host loop. */
  function Phases<T>(s: seq<T>, leq: (T, T) -> bool, t: nat): (r: seq<T>)
    ensures |r| == |s|
  {
    if t == 0 then s else Phase(Phases(s, leq, t - 1), leq, (t - 1) % 2)
  }

  // ----------------------------------------------------- n phases suffice

  /** How many elements at position m or later are greater than v. */
  function CountAbove<T>(s: seq<T>, leq: (T, T) -> bool, v: T, m: nat): (c: nat)
    ensures m <= |s| ==> c <= |s| - m
    decreases |s| - m
  {
    if m >= |s| then 0
    else (if leq(s[m], v) then 0 else 1) + CountAbove(s, leq, v, m + 1)
  }

  /** A phase moves an element above v past position m exactly when the pair (m-1, m) is compared and out of order around v. */
  lemma {:induction false} PhaseCount<T(!new)>(s: seq<T>, leq: (T, T) -> bool, offset: nat, v: T, m: nat)
    requires TotalPreorder(leq) && m <= |s|
    ensures CountAbove(Phase(s, leq, offset), leq, v, m) == CountAbove(s, leq, v, m) +
            if LeftOfPair(|s|, offset, m - 1) && !leq(s[m - 1], v) && leq(s[m], v) then 1 else 0
    decreases |s| - m
  {
    hide TotalPreorder, LeftOfPair, CountAbove;
    if m == |s| {
      NothingLeft(s, leq, v);
      NothingLeft(Phase(s, leq, offset), leq, v);
      PairsAreApart(|s|, offset, m);
    } else if LeftOfPair(|s|, offset, m) {
      PairsAreApart(|s|, offset, m);
      PhaseCount(s, leq, offset, v, m + 2);
      CountTwo(s, leq, v, m);
      CountTwo(Phase(s, leq, offset), leq, v, m);
    } else {
      PhaseCount(s, leq, offset, v, m + 1);
      CountOne(s, leq, v, m);
      CountOne(Phase(s, leq, offset), leq, v, m);
      if LeftOfPair(|s|, offset, m - 1) {
        PairsAreApart(|s|, offset, m);
        AboveEither(leq, s[m - 1], s[m], v);
      }
    }
  }

  /** The larger of two is above v if either is. */
  lemma AboveEither<T(!new)>(leq: (T, T) -> bool, x: T, y: T, v: T)
    requires TotalPreorder(leq)
    ensures leq(if leq(x, y) then y else x, v) <==> leq(x, v) && leq(y, v)
  {
  }

  lemma PairsAreApart(n: nat, offset: nat, m: nat)
    ensures LeftOfPair(n, offset, m) ==> m + 1 < n && !LeftOfPair(n, offset, m - 1) && !LeftOfPair(n, offset, m + 1)
    ensures LeftOfPair(n, offset, m - 1) ==> 0 < m < n
  {
  }

  lemma NothingLeft<T>(s: seq<T>, leq: (T, T) -> bool, v: T)
    ensures CountAbove(s, leq, v, |s|) == 0
  {
  }

  lemma CountOne<T>(s: seq<T>, leq: (T, T) -> bool, v: T, m: nat)
    requires m < |s|
    ensures CountAbove(s, leq, v, m) == (if leq(s[m], v) then 0 else 1) + CountAbove(s, leq, v, m + 1)
  {
  }

  lemma CountTwo<T>(s: seq<T>, leq: (T, T) -> bool, v: T, m: nat)
    requires m + 1 < |s|
    ensures CountAbove(s, leq, v, m) == (if leq(s[m], v) then 0 else 1) + (if leq(s[m + 1], v) then 0 else 1) + CountAbove(s, leq, v, m + 2)
  {
    CountOne(s, leq, v, m);
    CountOne(s, leq, v, m + 1);
  }

  lemma SameParity(n: nat, a: nat, t: nat, h: int)
    requires a == t + 2 * h && a + 1 < n
    ensures LeftOfPair(n, t % 2, a)
  {
  }

  /** One step of travel: with j above v from m-1 on and j-1 from m+1 on, a phase that compares (m-1, m) leaves j from m on. */
  lemma TravelStep<T(!new)>(s: seq<T>, leq: (T, T) -> bool, phase: nat, h: int, v: T, j: nat, m: nat)
    requires TotalPreorder(leq)
    requires 1 <= j && 1 <= m < |s| && m - 1 == phase + 2 * h
    requires CountAbove(s, leq, v, m - 1) >= j && CountAbove(s, leq, v, m + 1) >= j - 1
    ensures CountAbove(Phase(s, leq, phase % 2), leq, v, m) >= j
  {
    hide TotalPreorder;
    SameParity(|s|, m - 1, phase, h);
    PhaseCount(s, leq, phase % 2, v, m);
  }

  /**
   The travel argument: with k elements above v, the j-th of them from the right
   has passed every position m <= min(n - j, t + d - 2j) after t phases, where d
   is k or k + 1, whichever is even.
   */
  lemma {:induction false} Travel<T(!new)>(s: seq<T>, leq: (T, T) -> bool, v: T, k: nat, half: nat, t: nat, j: nat, m: nat)
    requires TotalPreorder(leq)
    requires k == CountAbove(s, leq, v, 0) && k <= 2 * half <= k + 1
    requires 1 <= j <= k && m <= |s| - j && m <= t + 2 * half - 2 * j
    ensures CountAbove(Phases(s, leq, t), leq, v, m) >= j
    decreases t, j, 1
  {
    hide Phases, TotalPreorder, CountAbove;
    if t == 0 {
      NoPhase(s, leq);
      CountDrops(s, leq, v, m);
    } else if m == 0 {
      CountKept(s, leq, v, t);
    } else {
      NextPhase(s, leq, t - 1, Phases(s, leq, t - 1), Phase(Phases(s, leq, t - 1), leq, (t - 1) % 2));
      TravelPhase(s, leq, v, k, half, Phases(s, leq, t - 1), t - 1, j, m);
    }
  }

  lemma {:induction false} TravelPhase<T(!new)>(s: seq<T>, leq: (T, T) -> bool, v: T, k: nat, half: nat, prev: seq<T>, t: nat, j: nat, m: nat)
    requires TotalPreorder(leq) && prev == Phases(s, leq, t)
    requires k == CountAbove(s, leq, v, 0) && k <= 2 * half <= k + 1
    requires 1 <= j <= k && 1 <= m <= |s| - j && m <= t + 1 + 2 * half - 2 * j
    ensures CountAbove(Phase(prev, leq, t % 2), leq, v, m) >= j
    decreases t + 1, j, 0
  {
    hide Phases, TotalPreorder, CountAbove;
    if m <= t + 2 * half - 2 * j {
      Travel(s, leq, v, k, half, t, j, m);
      PhaseCount(prev, leq, t % 2, v, m);
    } else {
      Travel(s, leq, v, k, half, t, j, m - 1);
      if j > 1 {
        Travel(s, leq, v, k, half, t, j - 1, m + 1);
      }
      TravelStep(prev, leq, t, half - j, v, j, m);
    }
  }

  lemma {:induction false} CountDrops<T>(s: seq<T>, leq: (T, T) -> bool, v: T, m: nat)
    requires m <= |s|
    ensures CountAbove(s, leq, v, 0) <= m + CountAbove(s, leq, v, m)
  {
    if m > 0 {
      CountDrops(s, leq, v, m - 1);
    }
  }

  lemma {:induction false} CountKept<T(!new)>(s: seq<T>, leq: (T, T) -> bool, v: T, t: nat)
    requires TotalPreorder(leq)
    ensures CountAbove(Phases(s, leq, t), leq, v, 0) == CountAbove(s, leq, v, 0)
  {
    if t > 0 {
      CountKept(s, leq, v, t - 1);
      PhaseCount(Phases(s, leq, t - 1), leq, (t - 1) % 2, v, 0);
    }
  }

  /** A suffix that is entirely above v, found from its count. */
  lemma {:induction false} FullSuffix<T>(s: seq<T>, leq: (T, T) -> bool, v: T, m: nat)
    requires m <= |s| && CountAbove(s, leq, v, m) == |s| - m
    ensures forall i | m <= i < |s| :: !leq(s[i], v)
    decreases |s| - m
  {
    if m < |s| {
      FullSuffix(s, leq, v, m + 1);
    }
  }

  /** Nothing before m is above v when the suffix from m already holds the whole count. */
  lemma {:induction false} EmptyPrefix<T>(s: seq<T>, leq: (T, T) -> bool, v: T, m: nat)
    requires m <= |s| && CountAbove(s, leq, v, 0) == CountAbove(s, leq, v, m)
    ensures forall i | 0 <= i < m :: leq(s[i], v)
  {
    if m > 0 {
      Antitone(s, leq, v, m - 1);
      EmptyPrefix(s, leq, v, m - 1);
    }
  }

  lemma {:induction false} Antitone<T>(s: seq<T>, leq: (T, T) -> bool, v: T, m: nat)
    requires m <= |s|
    ensures CountAbove(s, leq, v, m) <= CountAbove(s, leq, v, 0)
  {
    if m > 0 {
      Antitone(s, leq, v, m - 1);
    }
  }

  /** n alternating phases sort every input of length n. */
  lemma PhasesSort<T(!new)>(s: seq<T>, leq: (T, T) -> bool)
    requires TotalPreorder(leq)
    ensures Sorted(leq, Phases(s, leq, |s|))
  {
    hide Phases, CountAbove, TotalPreorder;
    var r := Phases(s, leq, |s|);
    forall i, j | 0 <= i < j < |r|
      ensures leq(r[i], r[j])
    {
      var m := SplitAt(s, leq, r, r[j]);
      Reflexive(leq, r[j]);
    }
  }

  lemma Reflexive<T(!new)>(leq: (T, T) -> bool, v: T)
    requires TotalPreorder(leq)
    ensures leq(v, v)
  {
  }

  /** After n phases everything above v is behind everything else. */
  lemma SplitAt<T(!new)>(s: seq<T>, leq: (T, T) -> bool, r: seq<T>, v: T) returns (m: nat)
    requires TotalPreorder(leq) && r == Phases(s, leq, |s|)
    ensures m <= |r| && (forall i | 0 <= i < m :: leq(r[i], v)) && (forall i | m <= i < |r| :: !leq(r[i], v))
  {
    hide Phases, CountAbove, TotalPreorder;
    var k := CountAbove(s, leq, v, 0);
    m := |s| - k;
    CountKept(s, leq, v, |s|);
    if k > 0 {
      Travel(s, leq, v, k, (k + 1) / 2, |s|, k, |s| - k);
    }
    Antitone(r, leq, v, |s| - k);
    EmptyPrefix(r, leq, v, |s| - k);
    FullSuffix(r, leq, v, |s| - k);
  }

  // --------------------------------------------------------- permutation

  function Exchange<T>(s: seq<T>, leq: (T, T) -> bool, left: nat): (r: seq<T>)
    requires left + 1 < |s|
    ensures multiset(r) == multiset(s)
  {
    if leq(s[left], s[left + 1]) then s
    else
      assert s == s[..left] + [s[left], s[left + 1]] + s[left + 2..];
      var r := s[left := s[left + 1]][left + 1 := s[left]];
      assert r == s[..left] + [s[left + 1], s[left]] + s[left + 2..];
      r
  }

  /** The pairs at or after position m still to be compared: a phase cut short. */
  function PhasePrefix<T>(s: seq<T>, leq: (T, T) -> bool, offset: nat, m: nat): (r: seq<T>)
    requires m <= |s|
    ensures |r| == |s|
  {
    seq(|s|, i requires 0 <= i < |s| => if i < m then PhaseAt(s, leq, offset, i) else s[i])
  }

  lemma {:induction false} PhaseIsPermutation<T>(s: seq<T>, leq: (T, T) -> bool, offset: nat, m: nat)
    requires m <= |s| && !LeftOfPair(|s|, offset, m - 1)
    ensures multiset(PhasePrefix(s, leq, offset, m)) == multiset(s)
  {
    hide PhasePrefix, Exchange, LeftOfPair;
    if m == 0 {
      NoPairYet(s, leq, offset);
    } else if LeftOfPair(|s|, offset, m - 2) {
      EarlierIsNoPair(|s|, offset, m - 2);
      PhaseIsPermutation(s, leq, offset, m - 2);
      NextPair(s, leq, offset, m - 2);
    } else {
      PhaseIsPermutation(s, leq, offset, m - 1);
      NextKept(s, leq, offset, m - 1);
    }
  }

  lemma NoPairYet<T>(s: seq<T>, leq: (T, T) -> bool, offset: nat)
    ensures PhasePrefix(s, leq, offset, 0) == s
  {
  }

  lemma EarlierIsNoPair(n: nat, offset: nat, i: int)
    requires LeftOfPair(n, offset, i)
    ensures i >= 0 && i + 2 <= n && !LeftOfPair(n, offset, i - 1)
  {
  }

  lemma NextPair<T>(s: seq<T>, leq: (T, T) -> bool, offset: nat, i: nat)
    requires LeftOfPair(|s|, offset, i)
    ensures i + 2 <= |s| && multiset(PhasePrefix(s, leq, offset, i + 2)) == multiset(PhasePrefix(s, leq, offset, i))
  {
    PairsAreApart(|s|, offset, i);
    assert PhasePrefix(s, leq, offset, i + 2) == Exchange(PhasePrefix(s, leq, offset, i), leq, i);
  }

  lemma NextKept<T>(s: seq<T>, leq: (T, T) -> bool, offset: nat, i: nat)
    requires i < |s| && !LeftOfPair(|s|, offset, i) && !LeftOfPair(|s|, offset, i - 1)
    ensures PhasePrefix(s, leq, offset, i + 1) == PhasePrefix(s, leq, offset, i)
  {
  }

  lemma {:induction false} PhasesArePermutation<T>(s: seq<T>, leq: (T, T) -> bool, t: nat)
    ensures multiset(Phases(s, leq, t)) == multiset(s)
  {
    if t > 0 {
      PhasesArePermutation(s, leq, t - 1);
      var prev := Phases(s, leq, t - 1);
      PhaseIsPermutation(prev, leq, (t - 1) % 2, |prev|);
      assert PhasePrefix(prev, leq, (t - 1) % 2, |prev|) == Phase(prev, leq, (t - 1) % 2);
    }
  }

  // ------------------------------------------- invocations, interleaved

  /** How far one shader invocation has got, with the registers it has loaded. */
  datatype Invocation<T> =
    | Start
    | LoadedLeft(left: T)
    | LoadedBoth(left: T, right: T)
    | StoredLeft(left: T)
    | Done

  datatype Device<T> = Device(memory: seq<T>, invocations: seq<Invocation<T>>)

  /** One memory access of invocation idx. */
  function StepInvocation<T>(d: Device<T>, leq: (T, T) -> bool, offset: nat, idx: nat): (r: Device<T>)
    requires idx < |d.invocations|
    ensures |r.memory| == |d.memory| && |r.invocations| == |d.invocations|
  {
    var left := 2 * idx + offset;
    var right := left + 1;
    if right >= |d.memory| then d.(invocations := d.invocations[idx := Done])
    else match d.invocations[idx]
      case Start => d.(invocations := d.invocations[idx := LoadedLeft(d.memory[left])])
      case LoadedLeft(l) => d.(invocations := d.invocations[idx := LoadedBoth(l, d.memory[right])])
      case LoadedBoth(l, r) =>
        if leq(l, r) then d.(invocations := d.invocations[idx := Done])
        else Device(d.memory[left := r], d.invocations[idx := StoredLeft(l)])
      case StoredLeft(l) => Device(d.memory[right := l], d.invocations[idx := Done])
      case Done => d
  }

  /** Any interleaving: the schedule names the invocation that moves next. */
  function RunSchedule<T>(d: Device<T>, leq: (T, T) -> bool, offset: nat, schedule: seq<nat>): (r: Device<T>)
    requires forall k | 0 <= k < |schedule| :: schedule[k] < |d.invocations|
    ensures |r.memory| == |d.memory| && |r.invocations| == |d.invocations|
    decreases schedule
  {
    if schedule == [] then d
    else RunSchedule(StepInvocation(d, leq, offset, schedule[0]), leq, offset, schedule[1..])
  }

  /** What invocation idx, at its present point, has made of its own pair of the original memory. */
  ghost predicate PairConsistent<T>(d: Device<T>, s: seq<T>, leq: (T, T) -> bool, offset: nat, idx: nat)
    requires idx < |d.invocations| && |d.memory| == |s|
  {
    var left := 2 * idx + offset;
    var right := left + 1;
    right < |s| ==>
      match d.invocations[idx]
      case Start => d.memory[left] == s[left] && d.memory[right] == s[right]
      case LoadedLeft(l) => d.memory[left] == s[left] == l && d.memory[right] == s[right]
      case LoadedBoth(l, r) => d.memory[left] == s[left] == l && d.memory[right] == s[right] == r
      case StoredLeft(l) => d.memory[left] == d.memory[right] == s[right] && l == s[left] && !leq(s[left], s[right])
      case Done => d.memory[left] == PhaseAt(s, leq, offset, left) && d.memory[right] == PhaseAt(s, leq, offset, right)
  }

  ghost predicate Consistent<T>(d: Device<T>, s: seq<T>, leq: (T, T) -> bool, offset: nat) {
    && |d.memory| == |s|
    && (forall idx | 0 <= idx < |d.invocations| :: PairConsistent(d, s, leq, offset, idx))
    && (forall i | 0 <= i < |s| && !LeftOfPair(|s|, offset, i) && !LeftOfPair(|s|, offset, i - 1) :: d.memory[i] == s[i])
  }

  lemma StepConsistent<T>(d: Device<T>, s: seq<T>, leq: (T, T) -> bool, offset: nat, idx: nat)
    requires idx < |d.invocations| && Consistent(d, s, leq, offset)
    ensures Consistent(StepInvocation(d, leq, offset, idx), s, leq, offset)
  {
    var e := StepInvocation(d, leq, offset, idx);
    assert PairConsistent(d, s, leq, offset, idx);
    forall k | 0 <= k < |e.invocations|
      ensures PairConsistent(e, s, leq, offset, k)
    {
      assert PairConsistent(d, s, leq, offset, k);
    }
  }

  lemma {:induction false} ScheduleConsistent<T>(d: Device<T>, s: seq<T>, leq: (T, T) -> bool, offset: nat, schedule: seq<nat>)
    requires forall k | 0 <= k < |schedule| :: schedule[k] < |d.invocations|
    requires Consistent(d, s, leq, offset)
    ensures Consistent(RunSchedule(d, leq, offset, schedule), s, leq, offset)
    decreases schedule
  {
    if schedule != [] {
      StepConsistent(d, s, leq, offset, schedule[0]);
      ScheduleConsistent(StepInvocation(d, leq, offset, schedule[0]), s, leq, offset, schedule[1..]);
    }
  }

  /** The dispatch is wide enough: `count` invocations reach every pair of the phase. */
  predicate Wide(n: nat, offset: nat, count: nat) {
    2 * count + offset + 1 >= n
  }

  /**
   However the loads and stores of the invocations of one phase interleave, once
   all have finished the memory is the phase; invocations past the data do nothing.
   */
  lemma AnyInterleavingIsThePhase<T>(s: seq<T>, leq: (T, T) -> bool, offset: nat, count: nat, schedule: seq<nat>)
    requires Wide(|s|, offset, count)
    requires forall k | 0 <= k < |schedule| :: schedule[k] < count
    requires var start := Device(s, seq(count, _ => Start));
             forall k | 0 <= k < count :: RunSchedule(start, leq, offset, schedule).invocations[k].Done?
    ensures var start := Device(s, seq(count, _ => Start));
            RunSchedule(start, leq, offset, schedule).memory == Phase(s, leq, offset)
  {
    var start := Device(s, seq(count, _ => Start));
    ScheduleConsistent(start, s, leq, offset, schedule);
    var d := RunSchedule(start, leq, offset, schedule);
    hide Consistent, PhaseAt, RunSchedule;
    forall i | 0 <= i < |s|
      ensures d.memory[i] == PhaseAt(s, leq, offset, i)
    {
      FinishedElement(d, s, leq, offset, i);
    }
  }

  /** The accesses an invocation may still make. */
  function Left<T>(i: Invocation<T>): nat {
    match i
    case Start => 4
    case LoadedLeft(_) => 3
    case LoadedBoth(_, _) => 2
    case StoredLeft(_) => 1
    case Done => 0
  }

  function Times(schedule: seq<nat>, idx: nat): nat {
    if schedule == [] then 0 else (if schedule[0] == idx then 1 else 0) + Times(schedule[1..], idx)
  }

  /** Each time it is named an invocation that is not done comes nearer its end. */
  lemma {:induction false} ScheduleAdvances<T>(d: Device<T>, leq: (T, T) -> bool, offset: nat, schedule: seq<nat>, idx: nat)
    requires (forall k | 0 <= k < |schedule| :: schedule[k] < |d.invocations|) && idx < |d.invocations|
    ensures Left(RunSchedule(d, leq, offset, schedule).invocations[idx]) + Times(schedule, idx) <= Left(d.invocations[idx])
            || RunSchedule(d, leq, offset, schedule).invocations[idx].Done?
    decreases schedule
  {
    if schedule != [] {
      var e := StepInvocation(d, leq, offset, schedule[0]);
      assert if schedule[0] == idx then e.invocations[idx].Done? || Left(e.invocations[idx]) < Left(d.invocations[idx])
             else e.invocations[idx] == d.invocations[idx];
      ScheduleAdvances(e, leq, offset, schedule[1..], idx);
    }
  }

  /** Every interleaving that names each invocation four times or more finishes, and leaves the phase. */
  lemma FourAccessesEach<T>(s: seq<T>, leq: (T, T) -> bool, offset: nat, count: nat, schedule: seq<nat>)
    requires Wide(|s|, offset, count)
    requires forall k | 0 <= k < |schedule| :: schedule[k] < count
    requires forall idx: nat | idx < count :: Times(schedule, idx) >= 4
    ensures var start := Device(s, seq(count, _ => Start));
            && (forall k | 0 <= k < count :: RunSchedule(start, leq, offset, schedule).invocations[k].Done?)
            && RunSchedule(start, leq, offset, schedule).memory == Phase(s, leq, offset)
  {
    var start := Device(s, seq(count, _ => Start));
    forall k: nat | k < count
      ensures RunSchedule(start, leq, offset, schedule).invocations[k].Done?
    {
      ScheduleAdvances(start, leq, offset, schedule, k);
    }
    AnyInterleavingIsThePhase(s, leq, offset, count, schedule);
  }

  lemma FinishedElement<T>(d: Device<T>, s: seq<T>, leq: (T, T) -> bool, offset: nat, i: nat)
    requires Consistent(d, s, leq, offset) && Wide(|s|, offset, |d.invocations|) && i < |s|
    requires forall k | 0 <= k < |d.invocations| :: d.invocations[k].Done?
    ensures d.memory[i] == PhaseAt(s, leq, offset, i)
  {
    if LeftOfPair(|s|, offset, i) {
      assert PairConsistent(d, s, leq, offset, (i - offset) / 2);
    } else if LeftOfPair(|s|, offset, i - 1) {
      assert PairConsistent(d, s, leq, offset, (i - 1 - offset) / 2);
    }
  }

  // ------------------------------------------------- shader and host loop

  /** The shader body, run by invocation idx on the storage buffer. */
  method CompareExchange<T>(data: array<T>, leq: (T, T) -> bool, offset: nat, n: nat, idx: nat)
    requires n == data.Length
    modifies data
    ensures forall i | 0 <= i < n :: data[i] ==
              if i == 2 * idx + offset || i == 2 * idx + offset + 1 then PhaseAt(old(data[..]), leq, offset, i)
              else old(data[i])
  {
    var left := 2 * idx + offset;
    var right := left + 1;
    if right < n {
      var leftValue := data[left];
      var rightValue := data[right];
      if !leq(leftValue, rightValue) {
        data[left] := rightValue;
        data[right] := leftValue;
      }
    }
  }

  /** One dispatch, its invocations taken in index order (any order is the same, see above). */
  method Dispatch<T>(data: array<T>, leq: (T, T) -> bool, offset: nat, n: nat, count: nat)
    requires n == data.Length && Wide(n, offset, count)
    modifies data
    ensures data[..] == Phase(old(data[..]), leq, offset)
  {
    for idx := 0 to count
      invariant forall i | 0 <= i < n :: data[i] ==
                  if offset <= i < 2 * idx + offset then PhaseAt(old(data[..]), leq, offset, i) else old(data[i])
    {
      CompareExchange(data, leq, offset, n, idx);
    }
  }

  /** A step of the recorded graph: a compute pass with its push constants, or a compute-to-compute barrier. */
  datatype GraphStep = Pass(offset: nat, n: nat, invocations: nat) | Barrier

  const LOCAL_SIZE_X := 64

  /** Invocations launched by the workgroups covering workCount. */
  function Launched(workCount: nat): (count: nat)
    ensures workCount <= count < workCount + LOCAL_SIZE_X && count % LOCAL_SIZE_X == 0
  {
    (workCount / LOCAL_SIZE_X + if workCount % LOCAL_SIZE_X != 0 then 1 else 0) * LOCAL_SIZE_X
  }

  function MakePhase(phase: nat, n: nat): GraphStep {
    Pass(phase % 2, n, Launched(n / 2))
  }

  /** The host loop that records the phases with a barrier between neighbours. */
  method BuildGraph(n: nat) returns (graph: seq<GraphStep>)
    ensures |graph| == if n == 0 then 1 else 2 * n - 1
    ensures forall k | 0 <= k < |graph| :: graph[k] == if k % 2 == 0 then MakePhase(k / 2, n) else Barrier
  {
    graph := [MakePhase(0, n)];
    if n > 0 {
      for phase := 1 to n
        invariant |graph| == 2 * phase - 1
        invariant forall k | 0 <= k < |graph| :: graph[k] == if k % 2 == 0 then MakePhase(k / 2, n) else Barrier
      {
        graph := graph + [Barrier];
        graph := graph + [MakePhase(phase, n)];
      }
    }
  }

  /** The device runs the recorded passes in order; the barriers keep each pass behind the one before it. */
  method Execute<T>(data: array<T>, leq: (T, T) -> bool, graph: seq<GraphStep>)
    requires |graph| % 2 == 1 || |graph| == 0
    requires forall k | 0 <= k < |graph| :: graph[k] == if k % 2 == 0 then MakePhase(k / 2, data.Length) else Barrier
    modifies data
    ensures data[..] == Phases(old(data[..]), leq, (|graph| + 1) / 2)
  {
    hide Phase, Phases, Launched, Wide;
    ghost var input := data[..];
    NoPhase(input, leq);
    for k := 0 to |graph|
      invariant data[..] == Phases(input, leq, (k + 1) / 2)
    {
      ghost var prev := data[..];
      LaunchedIsWide(k / 2, data.Length);
      match graph[k]
      case Pass(offset, n, invocations) =>
        Dispatch(data, leq, offset, n, invocations);
        NextPhase(input, leq, k / 2, prev, data[..]);
      case Barrier =>
    }
  }

  lemma NoPhase<T>(s: seq<T>, leq: (T, T) -> bool)
    ensures Phases(s, leq, 0) == s
  {
  }

  lemma LaunchedIsWide(phase: nat, n: nat)
    ensures Wide(n, phase % 2, Launched(n / 2))
  {
  }

  lemma NextPhase<T>(s: seq<T>, leq: (T, T) -> bool, t: nat, prev: seq<T>, next: seq<T>)
    requires prev == Phases(s, leq, t) && next == Phase(prev, leq, t % 2)
    ensures next == Phases(s, leq, t + 1)
  {
  }

  /** The whole example: after the recorded graph has run the buffer is sorted and holds the same elements. */
  method SortOnDevice<T(!new)>(data: array<T>, leq: (T, T) -> bool)
    requires TotalPreorder(leq)
    modifies data
    ensures Sorted(leq, data[..])
    ensures multiset(data[..]) == multiset(old(data[..]))
  {
    ghost var input := data[..];
    var graph := BuildGraph(data.Length);
    Execute(data, leq, graph);
    SortedPermutation(input, leq, data[..], if data.Length == 0 then 1 else data.Length);
  }

  lemma SortedPermutation<T(!new)>(s: seq<T>, leq: (T, T) -> bool, r: seq<T>, t: nat)
    requires TotalPreorder(leq) && r == Phases(s, leq, t) && (t == |s| || |s| == 0)
    ensures Sorted(leq, r) && multiset(r) == multiset(s)
  {
    PhasesSort(s, leq);
    PhasesArePermutation(s, leq, t);
  }
}
