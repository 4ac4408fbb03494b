/** Counting the telemetry gaps of a lap against a threshold of four median frame intervals. */
module Gaps {
  import opened Telemetry
  import opened Ordering
  import opened Laps

  const GAP_FLOOR_MS := 250

  predicate Below(a: int, b: int) {
    a < b
  }

  function Timestamps(frames: seq<Frame>): (r: seq<int>)
    ensures |r| == |frames| && forall i :: 0 <= i < |r| ==> r[i] == frames[i].timestampUnixMs
  {
    seq(|frames|, i requires 0 <= i < |frames| => frames[i].timestampUnixMs)
  }

  /** The positive steps between consecutive timestamps. */
  function PositiveDeltas(times: seq<int>): seq<int> {
    if |times| < 2 then []
    else
      var last := |times| - 1;
      var delta := times[last] - times[last - 1];
      PositiveDeltas(times[..last]) + (if delta > 0 then [delta] else [])
  }

  /** The threshold for values that are already in increasing order. */
  function ThresholdOfSorted(sorted: seq<int>): int {
    if sorted == [] then GAP_FLOOR_MS
    else
      var mid := |sorted| / 2;
      var threshold := if |sorted| % 2 == 1 then 4 * sorted[mid] else 2 * (sorted[mid - 1] + sorted[mid]);
      if threshold < GAP_FLOOR_MS then GAP_FLOOR_MS else threshold
  }

  function Threshold(values: seq<int>): int {
    ThresholdOfSorted(SortBy(Below, values))
  }

  function CountOver(values: seq<int>, threshold: int): nat {
    if values == [] then 0
    else CountOver(values[..|values| - 1], threshold) + (if values[|values| - 1] > threshold then 1 else 0)
  }

  function LapTimes(lapNumber: int, frames: seq<Frame>): seq<int> {
    Timestamps(SortBy(Earlier, LapFrames(frames, lapNumber)))
  }

  function LapDeltas(lapNumber: int, frames: seq<Frame>): seq<int> {
    PositiveDeltas(LapTimes(lapNumber, frames))
  }

  function GapCount(lapNumber: int, frames: seq<Frame>): nat {
    var deltas := LapDeltas(lapNumber, frames);
    CountOver(deltas, Threshold(deltas))
  }

  // ----- the loops -----

  method CountTelemetryGaps(lapNumber: int, frames: seq<Frame>) returns (gapCount: nat)
    ensures gapCount == GapCount(lapNumber, frames)
  {
    var lapFrames := CollectLap(lapNumber, frames);
    var sorted := SortBy(Earlier, lapFrames);
    PermutationMembers(sorted, lapFrames);
    hide SortBy, Threshold;
    if |lapFrames| < 2 {
      return 0;
    }
    var deltas := CollectDeltas(sorted);
    if |deltas| == 0 {
      return 0;
    }
    gapCount := CountLong(deltas, Threshold(deltas));
  }

  method CountLong(deltas: seq<int>, threshold: int) returns (count: nat)
    ensures count == CountOver(deltas, threshold)
  {
    count := 0;
    for i := 0 to |deltas|
      invariant count == CountOver(deltas[..i], threshold)
    {
      assert deltas[..i + 1][..i] == deltas[..i];
      if deltas[i] > threshold {
        count := count + 1;
      }
    }
    assert deltas[..|deltas|] == deltas;
  }

  method CollectDeltas(frames: seq<Frame>) returns (deltas: seq<int>)
    requires |frames| > 0
    ensures deltas == PositiveDeltas(Timestamps(frames))
  {
    deltas := [];
    var times := Timestamps(frames);
    for i := 1 to |frames|
      invariant deltas == PositiveDeltas(times[..i])
    {
      assert times[..i + 1][..i] == times[..i];
      var delta := frames[i].timestampUnixMs - frames[i - 1].timestampUnixMs;
      if delta <= 0 {
        continue;
      }
      deltas := deltas + [delta];
    }
    assert times[..|frames|] == times;
  }

  // ----- only the set of timestamps matters -----

  ghost predicate NonDecreasing(times: seq<int>) {
    forall i, j :: 0 <= i < j < |times| ==> times[i] <= times[j]
  }

  ghost predicate Increasing(times: seq<int>) {
    forall i, j :: 0 <= i < j < |times| ==> times[i] < times[j]
  }

  /** Timestamps without repetitions. */
  function Distinct(times: seq<int>): seq<int> {
    if times == [] then []
    else
      var last := |times| - 1;
      Distinct(times[..last]) + (if last > 0 && times[last] == times[last - 1] then [] else [times[last]])
  }

  /** The timestamps that occur. */
  function Members(times: seq<int>): set<int> {
    set t | t in times
  }

  /** The timestamps of the frames of one lap. */
  function LapTimeSet(lapNumber: int, frames: seq<Frame>): set<int> {
    set f | f in frames && f.lapNumber == lapNumber :: f.timestampUnixMs
  }

  lemma MembersAppend(times: seq<int>, t: int)
    ensures Members(times + [t]) == Members(times) + {t}
  {
  }

  lemma PositiveDeltasAppend(times: seq<int>, t: int)
    requires times != []
    ensures var delta := t - times[|times| - 1];
            PositiveDeltas(times + [t]) == PositiveDeltas(times) + (if delta > 0 then [delta] else [])
  {
    AppendedParts(times, t);
    LastDelta(times + [t]);
    hide PositiveDeltas;
  }

  lemma AppendedParts(times: seq<int>, t: int)
    requires times != []
    ensures (times + [t])[..|times|] == times
    ensures (times + [t])[|times|] == t && (times + [t])[|times| - 1] == times[|times| - 1]
  {
  }

  lemma LastDelta(times: seq<int>)
    requires |times| >= 2
    ensures var last := |times| - 1;
            var delta := times[last] - times[last - 1];
            PositiveDeltas(times) == PositiveDeltas(times[..last]) + (if delta > 0 then [delta] else [])
  {
  }

  ghost predicate AllPositive(deltas: seq<int>) {
    forall k :: 0 <= k < |deltas| ==> deltas[k] > 0
  }

  lemma {:induction false} DeltasArePositive(times: seq<int>)
    ensures AllPositive(PositiveDeltas(times))
  {
    if |times| >= 2 {
      DeltasArePositive(times[..|times| - 1]);
    }
  }

  lemma {:induction false} DistinctSpec(times: seq<int>)
    requires NonDecreasing(times) && times != []
    ensures var d := Distinct(times); Increasing(d) && d != [] && d[|d| - 1] == times[|times| - 1]
    ensures Members(Distinct(times)) == Members(times)
    ensures PositiveDeltas(Distinct(times)) == PositiveDeltas(times)
  {
    var last := |times| - 1;
    var before := times[..last];
    assert times == before + [times[last]];
    if last > 0 {
      DistinctSpec(before);
      assert before[last - 1] == times[last - 1];
      DistinctStep(before, Distinct(before), times[last]);
      hide Distinct, Increasing, Members, PositiveDeltas;
    }
  }

  lemma DistinctStep(before: seq<int>, d: seq<int>, t: int)
    requires before != [] && before[|before| - 1] <= t
    requires Increasing(d) && d != [] && d[|d| - 1] == before[|before| - 1]
    requires Members(d) == Members(before) && PositiveDeltas(d) == PositiveDeltas(before)
    ensures var next := d + (if before[|before| - 1] == t then [] else [t]);
            && Increasing(next) && next[|next| - 1] == t
            && Members(next) == Members(before + [t]) && PositiveDeltas(next) == PositiveDeltas(before + [t])
  {
    MembersAppend(before, t);
    MembersAppend(d, t);
    MemberOf(before, t);
    PositiveDeltasAppend(before, t);
    PositiveDeltasAppend(d, t);
    IncreasingAppend(d, t);
    assert d + [] == d;
    assert before[|before| - 1] in before;
    hide Members, PositiveDeltas, Increasing;
  }

  lemma MemberOf(times: seq<int>, t: int)
    ensures t in times ==> Members(times) + {t} == Members(times)
  {
  }

  lemma IncreasingAppend(times: seq<int>, t: int)
    requires Increasing(times) && times != []
    ensures times[|times| - 1] < t ==> Increasing(times + [t])
  {
  }

  /** Increasing sequences with the same members are the same. */
  lemma {:induction false} IncreasingIsUnique(a: seq<int>, b: seq<int>)
    requires Increasing(a) && Increasing(b)
    requires Members(a) == Members(b)
    ensures a == b
  {
    NoMembers(a);
    NoMembers(b);
    if a != [] {
      var x := |a| - 1;
      assert a[x] in Members(b);
      var y := |b| - 1;
      assert b[y] in Members(a);
      InitMembers(a);
      InitMembers(b);
      IncreasingIsUnique(a[..x], b[..y]);
      assert a == a[..x] + [a[x]] && b == b[..y] + [b[y]];
    }
  }

  lemma InitMembers(a: seq<int>)
    requires Increasing(a) && a != []
    ensures Members(a[..|a| - 1]) == Members(a) - {a[|a| - 1]}
  {
    var x := |a| - 1;
    forall t | t in Members(a) && t != a[x]
      ensures t in Members(a[..x])
    {
      var i :| 0 <= i < |a| && a[i] == t;
      assert a[..x][i] == t;
    }
  }

  lemma LapTimesSorted(lapNumber: int, frames: seq<Frame>)
    ensures NonDecreasing(LapTimes(lapNumber, frames))
  {
    var lapFrames := LapFrames(frames, lapNumber);
    SortBySorted(Earlier, lapFrames);
    var sorted, times := SortBy(Earlier, lapFrames), LapTimes(lapNumber, frames);
    assert forall i, j :: 0 <= i < j < |times| ==> !Earlier(sorted[j], sorted[i]);
  }

  lemma LapTimesMembers(lapNumber: int, frames: seq<Frame>)
    ensures Members(LapTimes(lapNumber, frames)) == LapTimeSet(lapNumber, frames)
  {
    var lapFrames := LapFrames(frames, lapNumber);
    var sorted, times := SortBy(Earlier, lapFrames), LapTimes(lapNumber, frames);
    PermutationMembers(sorted, lapFrames);
    hide SortBy, LapFrames;
    forall t | t in LapTimeSet(lapNumber, frames)
      ensures t in Members(times)
    {
      var f :| f in frames && f.lapNumber == lapNumber && f.timestampUnixMs == t;
      assert f in sorted;
      var i :| 0 <= i < |sorted| && sorted[i] == f;
      assert times[i] == t;
    }
    forall t | t in Members(times)
      ensures t in LapTimeSet(lapNumber, frames)
    {
      var i :| 0 <= i < |times| && times[i] == t;
      assert sorted[i] in lapFrames;
    }
  }

  /** The order of the frames, repeated frames and frames of other laps do not change the count: it depends on
      the set of the lap's timestamps alone. */
  lemma GapsDependOnTimestampSet(lapNumber: int, frames: seq<Frame>, others: seq<Frame>)
    requires LapTimeSet(lapNumber, frames) == LapTimeSet(lapNumber, others)
    ensures GapCount(lapNumber, frames) == GapCount(lapNumber, others)
  {
    var a, b := LapTimes(lapNumber, frames), LapTimes(lapNumber, others);
    LapTimesSorted(lapNumber, frames);
    LapTimesSorted(lapNumber, others);
    LapTimesMembers(lapNumber, frames);
    LapTimesMembers(lapNumber, others);
    hide LapTimes, LapTimeSet, Threshold;
    if a == [] || b == [] {
      NoMembers(a);
      NoMembers(b);
    } else {
      DistinctSpec(a);
      DistinctSpec(b);
      hide Members, Distinct, PositiveDeltas;
      IncreasingIsUnique(Distinct(a), Distinct(b));
    }
  }

  lemma NoMembers(times: seq<int>)
    ensures times == [] <==> Members(times) == {}
  {
    if times != [] { assert times[0] in Members(times); }
  }

  // ----- how many gaps there can be -----

  lemma {:induction false} CountOverConcat(a: seq<int>, b: seq<int>, threshold: int)
    ensures CountOver(a + b, threshold) == CountOver(a, threshold) + CountOver(b, threshold)
  {
    if b == [] {
      assert a + b == a;
    } else {
      assert (a + b)[..|a + b| - 1] == a + b[..|b| - 1];
      CountOverConcat(a, b[..|b| - 1], threshold);
    }
  }

  lemma {:induction false} CountOverInsert(x: int, s: seq<int>, threshold: int)
    ensures CountOver(Insert(Below, x, s), threshold) == CountOver([x] + s, threshold)
  {
    if s != [] && Below(s[0], x) {
      CountOverInsert(x, s[1..], threshold);
      CountOverConcat([s[0]], Insert(Below, x, s[1..]), threshold);
      CountOverConcat([x], s[1..], threshold);
      CountOverConcat([s[0]], s[1..], threshold);
      CountOverConcat([x], s, threshold);
      assert s == [s[0]] + s[1..];
    }
  }

  lemma {:induction false} CountOverSorted(s: seq<int>, threshold: int)
    ensures CountOver(SortBy(Below, s), threshold) == CountOver(s, threshold)
  {
    if s != [] {
      CountOverSorted(s[1..], threshold);
      CountOverInsert(s[0], SortBy(Below, s[1..]), threshold);
      CountOverConcat([s[0]], SortBy(Below, s[1..]), threshold);
      CountOverConcat([s[0]], s[1..], threshold);
      assert s == [s[0]] + s[1..];
    }
  }

  lemma {:induction false} CountOverBound(s: seq<int>, threshold: int, n: nat)
    requires n <= |s| && forall i :: 0 <= i < n ==> s[i] <= threshold
    ensures CountOver(s, threshold) <= |s| - n
  {
    if |s| > n {
      CountOverBound(s[..|s| - 1], threshold, n);
    } else if s != [] {
      CountOverBound(s[..|s| - 1], threshold, n - 1);
    }
  }

  /** Of `m` positive intervals at most (m-1)/2 are gaps: the lower half and the median never are. */
  lemma GapsAtMostHalf(lapNumber: int, frames: seq<Frame>)
    ensures var m := |LapDeltas(lapNumber, frames)|;
            GapCount(lapNumber, frames) <= (if m == 0 then 0 else (m - 1) / 2)
  {
    DeltasArePositive(LapTimes(lapNumber, frames));
    OverAtMostHalf(LapDeltas(lapNumber, frames));
  }

  lemma OverAtMostHalf(deltas: seq<int>)
    requires AllPositive(deltas)
    ensures CountOver(deltas, Threshold(deltas)) <= (if deltas == [] then 0 else (|deltas| - 1) / 2)
  {
    var sorted, threshold := SortBy(Below, deltas), Threshold(deltas);
    CountOverSorted(deltas, threshold);
    SortBySorted(Below, deltas);
    PermutationMembers(sorted, deltas);
    hide SortBy;
    if deltas != [] {
      MedianBelowThreshold(sorted);
      hide ThresholdOfSorted, CountOver;
      CountOverBound(sorted, threshold, |sorted| / 2 + 1);
    }
  }

  lemma MedianBelowThreshold(sorted: seq<int>)
    requires sorted != [] && Sorted(Below, sorted) && forall v :: v in sorted ==> v > 0
    ensures forall i :: 0 <= i <= |sorted| / 2 ==> sorted[i] <= ThresholdOfSorted(sorted)
  {
    var mid := |sorted| / 2;
    assert sorted[mid] in sorted;
    assert |sorted| % 2 == 0 ==> sorted[mid - 1] in sorted;
    forall i | 0 <= i <= mid
      ensures sorted[i] <= ThresholdOfSorted(sorted)
    {
      assert i < mid ==> !Below(sorted[mid], sorted[i]);
    }
  }

  function Sum(values: seq<int>): int {
    if values == [] then 0 else Sum(values[..|values| - 1]) + values[|values| - 1]
  }

  lemma {:induction false} DeltasSumToSpan(times: seq<int>)
    requires NonDecreasing(times) && times != []
    ensures Sum(PositiveDeltas(times)) == times[|times| - 1] - times[0]
  {
    if |times| > 1 {
      var last := |times| - 1;
      var before := times[..last];
      DeltasSumToSpan(before);
      PositiveDeltasAppend(before, times[last]);
      assert before + [times[last]] == times && before[0] == times[0] && before[last - 1] == times[last - 1];
      SumAppend(PositiveDeltas(before), times[last] - times[last - 1]);
      hide Sum, PositiveDeltas;
    }
  }

  lemma SumAppend(values: seq<int>, v: int)
    ensures Sum(values + [v]) == Sum(values) + v && Sum(values + []) == Sum(values)
  {
    assert (values + [v])[..|values|] == values && values + [] == values;
  }

  lemma {:induction false} GapsTimesThreshold(deltas: seq<int>, threshold: int)
    requires threshold >= GAP_FLOOR_MS && AllPositive(deltas)
    ensures (GAP_FLOOR_MS + 1) * CountOver(deltas, threshold) <= Sum(deltas)
  {
    if deltas != [] {
      GapsTimesThreshold(deltas[..|deltas| - 1], threshold);
    }
  }

  /** Gaps longer than the threshold have to fit into the lap: 251 ms each, at the least. */
  lemma GapsFitIntoLap(lapNumber: int, frames: seq<Frame>)
    ensures var times := LapTimes(lapNumber, frames);
            251 * GapCount(lapNumber, frames) <= (if times == [] then 0 else times[|times| - 1] - times[0])
  {
    var times, deltas := LapTimes(lapNumber, frames), LapDeltas(lapNumber, frames);
    LapTimesSorted(lapNumber, frames);
    var threshold := Threshold(deltas);
    assert threshold >= 250;
    hide LapTimes, Threshold, CountOver, Sum;
    if times != [] {
      DeltasArePositive(times);
      DeltasSumToSpan(times);
      GapsTimesThreshold(deltas, threshold);
    }
  }

  // ----- which intervals are gaps -----

  /** The steps from each timestamp to the next. */
  ghost function Steps(times: seq<int>): seq<int> {
    if |times| < 2 then [] else seq(|times| - 1, i requires 0 <= i < |times| - 1 => times[i + 1] - times[i])
  }

  /** Where the values are that do not exceed `v`. */
  ghost function UpTo(values: seq<int>, v: int): set<nat> {
    set i: nat | i < |values| && values[i] <= v
  }

  /** Where the values are that exceed `v`. */
  ghost function Beyond(values: seq<int>, v: int): set<nat> {
    set i: nat | i < |values| && values[i] > v
  }

  /** `v` is one of the values; no more than `k` of them are smaller, and more than `k` are not larger. */
  ghost predicate HasRank(values: seq<int>, v: int, k: nat) {
    v in values && |UpTo(values, v - 1)| <= k < |UpTo(values, v)|
  }

  lemma {:induction false} CountOverIsBeyond(values: seq<int>, threshold: int)
    ensures |Beyond(values, threshold)| == CountOver(values, threshold)
    ensures |UpTo(values, threshold)| == |values| - CountOver(values, threshold)
  {
    if values != [] {
      var n := |values| - 1;
      var before := values[..n];
      CountOverIsBeyond(before, threshold);
      if values[n] > threshold {
        assert Beyond(values, threshold) == Beyond(before, threshold) + {n};
        assert UpTo(values, threshold) == UpTo(before, threshold);
      } else {
        assert UpTo(values, threshold) == UpTo(before, threshold) + {n};
        assert Beyond(values, threshold) == Beyond(before, threshold);
      }
    }
  }

  lemma {:induction false} CountOverAtLeast(s: seq<int>, threshold: int, n: nat)
    requires n <= |s| && forall i :: n <= i < |s| ==> s[i] > threshold
    ensures CountOver(s, threshold) >= |s| - n
  {
    if |s| > n {
      CountOverAtLeast(s[..|s| - 1], threshold, n);
    }
  }

  lemma CountAround(s: seq<int>, k: nat, threshold: int)
    requires NonDecreasing(s) && k < |s|
    ensures s[k] <= threshold ==> CountOver(s, threshold) <= |s| - k - 1
    ensures s[k] > threshold ==> CountOver(s, threshold) >= |s| - k
  {
    assert forall i :: 0 <= i < k ==> s[i] <= s[k];
    assert forall i :: k < i < |s| ==> s[k] <= s[i];
    if s[k] <= threshold {
      CountOverBound(s, threshold, k + 1);
    } else {
      CountOverAtLeast(s, threshold, k);
    }
  }

  lemma SortedValues(values: seq<int>)
    ensures var sorted := SortBy(Below, values);
            |sorted| == |values| && NonDecreasing(sorted) && forall v :: v in sorted <==> v in values
  {
    var sorted := SortBy(Below, values);
    SortBySorted(Below, values);
    PermutationMembers(sorted, values);
    assert forall i, j :: 0 <= i < j < |sorted| ==> !Below(sorted[j], sorted[i]);
  }

  /** Exactly the `k`-th of the sorted values has rank `k`. */
  lemma RankIsSorted(values: seq<int>, v: int, k: nat)
    requires k < |values|
    ensures |SortBy(Below, values)| == |values|
    ensures HasRank(values, v, k) <==> v == SortBy(Below, values)[k]
  {
    var sorted := SortBy(Below, values);
    SortedValues(values);
    CountOverSorted(values, v - 1);
    CountOverSorted(values, v);
    CountOverIsBeyond(values, v - 1);
    CountOverIsBeyond(values, v);
    CountAround(sorted, k, v - 1);
    CountAround(sorted, k, v);
    hide SortBy, CountOver, UpTo, Beyond, NonDecreasing;
  }

  /** Four times the median, taken from the ranks in the middle, but never less than 250. */
  lemma ThresholdFromRanks(values: seq<int>, lo: int, hi: int)
    requires values != []
    requires HasRank(values, lo, (|values| - 1) / 2) && HasRank(values, hi, |values| / 2)
    ensures Threshold(values) == if 2 * (lo + hi) < 250 then 250 else 2 * (lo + hi)
  {
    RankIsSorted(values, lo, (|values| - 1) / 2);
    RankIsSorted(values, hi, |values| / 2);
    hide *;
    MiddleThreshold(values, lo, hi);
  }

  lemma MiddleThreshold(values: seq<int>, lo: int, hi: int)
    requires values != []
    requires |SortBy(Below, values)| == |values|
    requires SortBy(Below, values)[(|values| - 1) / 2] == lo && SortBy(Below, values)[|values| / 2] == hi
    ensures Threshold(values) == if 2 * (lo + hi) < 250 then 250 else 2 * (lo + hi)
  {
    hide SortBy;
    if |values| % 2 == 1 {
      assert (|values| - 1) / 2 == |values| / 2;
    } else {
      assert (|values| - 1) / 2 == |values| / 2 - 1;
    }
  }

  lemma {:induction false} StepsAreDeltas(times: seq<int>)
    requires Increasing(times)
    ensures PositiveDeltas(times) == Steps(times)
  {
    if |times| < 2 {
      NoSteps(times);
    } else {
      var last := |times| - 1;
      StepsAreDeltas(times[..last]);
      LastDelta(times);
      StepsNext(times);
      assert times[last - 1] < times[last];
    }
    hide PositiveDeltas, Steps;
  }

  lemma StepsNext(times: seq<int>)
    requires |times| >= 2
    ensures var last := |times| - 1;
            Steps(times) == Steps(times[..last]) + [times[last] - times[last - 1]]
  {
    assert |times| == 2 ==> Steps(times[..1]) == [];
  }

  lemma NoSteps(times: seq<int>)
    requires |times| < 2
    ensures PositiveDeltas(times) == Steps(times) == []
  {
  }

  lemma LapDeltasAreSteps(lapNumber: int, frames: seq<Frame>, times: seq<int>)
    requires Increasing(times) && Members(times) == LapTimeSet(lapNumber, frames)
    ensures LapDeltas(lapNumber, frames) == Steps(times)
  {
    var sorted := LapTimes(lapNumber, frames);
    LapTimesSorted(lapNumber, frames);
    LapTimesMembers(lapNumber, frames);
    hide LapTimes, LapTimeSet;
    NoMembers(sorted);
    NoMembers(times);
    StepsAreDeltas(times);
    if sorted != [] {
      DistinctSpec(sorted);
      IncreasingIsUnique(Distinct(sorted), times);
    }
    hide Members, Distinct, Steps;
  }

  /** For the lap's timestamps in increasing order: the gaps are exactly the intervals that are longer than 250 ms and
      than four times the median interval, the mean of the two middle ones. */
  lemma GapsExactly(lapNumber: int, frames: seq<Frame>, times: seq<int>, lo: int, hi: int)
    requires Increasing(times) && Members(times) == LapTimeSet(lapNumber, frames)
    requires |times| >= 2 ==>
               HasRank(Steps(times), lo, (|times| - 2) / 2) && HasRank(Steps(times), hi, (|times| - 1) / 2)
    ensures GapCount(lapNumber, frames)
            == if |times| < 2 then 0 else |Beyond(Steps(times), if 2 * (lo + hi) < 250 then 250 else 2 * (lo + hi))|
  {
    LapDeltasAreSteps(lapNumber, frames, times);
    var steps := Steps(times);
    assert |steps| == if |times| < 2 then 0 else |times| - 1;
    CountOverIsBeyond(steps, Threshold(steps));
    hide Steps, LapDeltas, HasRank, Threshold, Increasing, Members, LapTimeSet;
    if |times| >= 2 {
      ThresholdFromRanks(steps, lo, hi);
    }
  }

  /** The two ranks in the middle are always taken. */
  lemma MiddleRanks(values: seq<int>) returns (lo: int, hi: int)
    requires values != []
    ensures HasRank(values, lo, (|values| - 1) / 2) && HasRank(values, hi, |values| / 2)
  {
    SortedValues(values);
    lo, hi := SortBy(Below, values)[(|values| - 1) / 2], SortBy(Below, values)[|values| / 2];
    RankIsSorted(values, lo, (|values| - 1) / 2);
    RankIsSorted(values, hi, |values| / 2);
    hide SortBy, HasRank;
  }
}
