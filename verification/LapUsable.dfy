/** Which laps can be sampled, in terms of the frames as they were uploaded. */
module LapUsable {
  import opened Prelude
  import opened Telemetry
  import opened Ordering
  import opened Laps
  import opened LapSamples
  import LapInterpolation

  // ----- sorting and distances -----

  predicate HasDistance(f: Frame) {
    f.lapDistanceMeters.Some? && f.lapDistanceMeters.value >= 0.0
  }

  /** Both have a distance, and `b` is not behind `a`. */
  predicate Follows(a: Frame, b: Frame) {
    HasDistance(a) && HasDistance(b) && a.lapDistanceMeters.value <= b.lapDistanceMeters.value
  }

  /** An earlier frame does not follow a later one at a smaller distance; of frames of one time the first uploaded
      counts as the earlier. */
  ghost predicate InDistanceOrder(frames: seq<Frame>) {
    && (forall i :: 0 <= i < |frames| ==> HasDistance(frames[i]))
    && forall i, j :: 0 <= i < |frames| && 0 <= j < |frames| && ComesBefore(frames, i, j) ==>
         Follows(frames[i], frames[j])
  }

  ghost predicate ComesBefore(frames: seq<Frame>, i: nat, j: nat)
    requires i < |frames| && j < |frames|
  {
    frames[i].timestampUnixMs < frames[j].timestampUnixMs
    || (frames[i].timestampUnixMs == frames[j].timestampUnixMs && i < j)
  }

  /** `x` fits among frames that were uploaded after it. */
  ghost predicate FitsBefore(x: Frame, later: seq<Frame>) {
    forall y :: y in later ==> if y.timestampUnixMs < x.timestampUnixMs then Follows(y, x) else Follows(x, y)
  }

  lemma OrderInFront(x: Frame, later: seq<Frame>)
    ensures InDistanceOrder([x] + later) <==> HasDistance(x) && InDistanceOrder(later) && FitsBefore(x, later)
  {
    var all := [x] + later;
    assert forall i :: 0 <= i < |later| ==> all[i + 1] == later[i];
    if InDistanceOrder(all) {
      assert HasDistance(all[0]);
      forall i | 0 <= i < |later|
        ensures HasDistance(later[i])
        ensures if later[i].timestampUnixMs < x.timestampUnixMs then Follows(later[i], x) else Follows(x, later[i])
      {
        assert HasDistance(all[i + 1]);
        assert ComesBefore(all, 0, i + 1) || ComesBefore(all, i + 1, 0);
      }
      forall i, j | 0 <= i < |later| && 0 <= j < |later| && ComesBefore(later, i, j)
        ensures Follows(later[i], later[j])
      {
        assert ComesBefore(all, i + 1, j + 1);
      }
    }
    if HasDistance(x) && InDistanceOrder(later) && FitsBefore(x, later) {
      forall i, j | 0 <= i < |all| && 0 <= j < |all| && ComesBefore(all, i, j)
        ensures Follows(all[i], all[j])
      {
        if i > 0 && j > 0 {
          assert ComesBefore(later, i - 1, j - 1);
        } else if i > 0 {
          assert later[i - 1] in later;
        } else if j > 0 {
          assert later[j - 1] in later;
        }
      }
    }
  }

  lemma UsableRest(x: Frame, s: seq<Frame>)
    requires UsableDistances([x] + s)
    ensures HasDistance(x) && UsableDistances(s) && (s == [] || Follows(x, s[0]))
  {
    var all := [x] + s;
    assert HasDistance(all[0]);
    if s != [] {
      UsableTail(all);
      assert all[1..] == s && all[1] == s[0];
      assert HasDistance(s[0]);
    }
  }

  lemma UsableInFront(x: Frame, s: seq<Frame>)
    ensures UsableDistances([x] + s) <==> HasDistance(x) && UsableDistances(s) && (s == [] || Follows(x, s[0]))
  {
    if UsableDistances([x] + s) {
      UsableRest(x, s);
    }
    assert forall i :: 0 <= i < |s| ==> ([x] + s)[i + 1] == s[i];
  }

  lemma {:induction false} FollowsAll(x: Frame, s: seq<Frame>)
    requires UsableDistances(s)
    ensures (s == [] || Follows(x, s[0])) && HasDistance(x) <==> HasDistance(x) && forall y :: y in s ==> Follows(x, y)
  {
    if s != [] && Follows(x, s[0]) {
      forall y | y in s
        ensures Follows(x, y)
      {
        var i :| 0 <= i < |s| && s[i] == y;
        DistancesFrom(s, i);
      }
    }
    if s != [] {
      assert s[0] in s;
    }
  }

  lemma TailSorted(s: seq<Frame>)
    requires s != [] && Sorted(Earlier, s)
    ensures Sorted(Earlier, s[1..]) && forall y :: y in s[1..] ==> s[0].timestampUnixMs <= y.timestampUnixMs
  {
    forall y | y in s[1..]
      ensures s[0].timestampUnixMs <= y.timestampUnixMs
    {
      var i :| 0 <= i < |s| - 1 && s[1..][i] == y;
      assert !Earlier(s[i + 1], s[0]);
    }
  }

  /** Inserted into sorted frames, `x` keeps their distances in order exactly if it fits before all of them. */
  lemma {:induction false} InsertKeepsOrder(x: Frame, s: seq<Frame>)
    requires Sorted(Earlier, s)
    ensures UsableDistances(Insert(Earlier, x, s)) <==> HasDistance(x) && UsableDistances(s) && FitsBefore(x, s)
  {
    if s == [] {
      UsableInFront(x, s);
      assert [x] + s == [x];
    } else if Earlier(s[0], x) {
      var rest := Insert(Earlier, x, s[1..]);
      TailSorted(s);
      InsertKeepsOrder(x, s[1..]);
      assert s == [s[0]] + s[1..];
      UsableInFront(s[0], s[1..]);
      UsableInFront(s[0], rest);
      InsertMembers(x, s[1..]);
      hide UsableDistances, Insert, Sorted;
      if UsableDistances(rest) {
        FollowsAll(s[0], rest);
        FollowsAll(s[0], s[1..]);
      }
      hide Follows, HasDistance;
    } else {
      TailSorted(s);
      UsableInFront(x, s);
      if UsableDistances(s) {
        FollowsAll(x, s);
      }
    }
  }

  lemma InsertMembers(x: Frame, s: seq<Frame>)
    ensures forall y :: y in Insert(Earlier, x, s) <==> y == x || y in s
  {
    PermutationMembers(Insert(Earlier, x, s), [x] + s);
  }

  lemma {:induction false} SortedUsable(frames: seq<Frame>)
    ensures UsableDistances(SortBy(Earlier, frames)) <==> InDistanceOrder(frames)
  {
    if frames != [] {
      var x, later := frames[0], frames[1..];
      var sorted := SortBy(Earlier, later);
      assert frames == [x] + later;
      SortedUsable(later);
      EarlierIsOrder();
      SortBySorted(Earlier, later);
      PermutationMembers(sorted, later);
      InsertKeepsOrder(x, sorted);
      OrderInFront(x, later);
      hide UsableDistances, InDistanceOrder, Insert;
    }
  }

  // ----- the frames of one lap -----

  /** The frames of the lap are in distance order, whatever frames of other laps come between. */
  ghost predicate LapInDistanceOrder(frames: seq<Frame>, lapNumber: int) {
    && (forall i :: 0 <= i < |frames| && frames[i].lapNumber == lapNumber ==> HasDistance(frames[i]))
    && forall i, j :: 0 <= i < |frames| && 0 <= j < |frames| && ComesBefore(frames, i, j) ==>
         (frames[i].lapNumber == lapNumber == frames[j].lapNumber ==> Follows(frames[i], frames[j]))
  }

  /** `x` fits among frames of its lap that were uploaded before it. */
  ghost predicate FitsAfter(earlier: seq<Frame>, x: Frame) {
    && HasDistance(x)
    && forall y :: y in earlier && y.lapNumber == x.lapNumber ==>
         if x.timestampUnixMs < y.timestampUnixMs then Follows(x, y) else Follows(y, x)
  }

  lemma LapOrderNext(earlier: seq<Frame>, x: Frame, lapNumber: int)
    ensures LapInDistanceOrder(earlier + [x], lapNumber)
            <==> LapInDistanceOrder(earlier, lapNumber) && (x.lapNumber == lapNumber ==> FitsAfter(earlier, x))
  {
    var all, n := earlier + [x], |earlier|;
    hide Follows, HasDistance;
    assert forall i :: 0 <= i < n ==> all[i] == earlier[i];
    assert forall i, j :: 0 <= i < n && 0 <= j < n ==> (ComesBefore(all, i, j) <==> ComesBefore(earlier, i, j));
    assert forall i :: 0 <= i < n ==>
        (ComesBefore(all, i, n) <==> earlier[i].timestampUnixMs <= x.timestampUnixMs)
        && (ComesBefore(all, n, i) <==> x.timestampUnixMs < earlier[i].timestampUnixMs);
    if LapInDistanceOrder(all, lapNumber) && x.lapNumber == lapNumber {
      forall y | y in earlier && y.lapNumber == lapNumber
        ensures if x.timestampUnixMs < y.timestampUnixMs then Follows(x, y) else Follows(y, x)
      {
        var i :| 0 <= i < n && earlier[i] == y;
        assert ComesBefore(all, i, n) || ComesBefore(all, n, i);
      }
    }
  }

  lemma {:induction false} LapFramesInOrder(frames: seq<Frame>, lapNumber: int)
    ensures LapInDistanceOrder(LapFrames(frames, lapNumber), lapNumber) <==> LapInDistanceOrder(frames, lapNumber)
  {
    if frames != [] {
      var earlier, x := frames[..|frames| - 1], frames[|frames| - 1];
      var lap := LapFrames(earlier, lapNumber);
      assert frames == earlier + [x] && lap + [] == lap;
      LapFramesInOrder(earlier, lapNumber);
      LapOrderNext(earlier, x, lapNumber);
      LapOrderNext(lap, x, lapNumber);
      hide LapInDistanceOrder, Follows, HasDistance;
    }
  }

  /** A lap's frames are usable exactly if they are in distance order. */
  lemma UsableExactly(lapNumber: int, frames: seq<Frame>)
    ensures UsableFrames(lapNumber, frames).Some? <==> LapInDistanceOrder(frames, lapNumber)
  {
    var lap := LapFrames(frames, lapNumber);
    LapFramesInOrder(frames, lapNumber);
    SortedUsable(lap);
    assert forall i :: 0 <= i < |lap| ==> lap[i] in lap;
    assert InDistanceOrder(lap) <==> LapInDistanceOrder(lap, lapNumber);
    hide LapFrames, InDistanceOrder, LapInDistanceOrder, UsableDistances, SortBy;
  }

  // ----- sampling succeeds -----

  /** The lap has frames `a` and `b`, and the `k`-th multiple of the step lies between their distances. */
  ghost predicate Spans(lapNumber: int, frames: seq<Frame>, step: int, a: Frame, b: Frame, k: nat) {
    && a in frames && b in frames && a.lapNumber == lapNumber == b.lapNumber
    && a.lapDistanceMeters.Some? && b.lapDistanceMeters.Some?
    && a.lapDistanceMeters.value < b.lapDistanceMeters.value
    && a.lapDistanceMeters.value <= (step * k) as real <= b.lapDistanceMeters.value
  }

  /** A lap is sampled exactly if it is named, the step is positive, its frames are in distance order, and some
      multiple of the step lies between two of their distances. */
  lemma SampledExactly(lapId: string, lapNumber: int, frames: seq<Frame>, step: int)
    ensures LapSamplesOf(lapId, lapNumber, frames, step).Some?
            <==> && lapId != "" && step > 0 && LapInDistanceOrder(frames, lapNumber)
                 && exists a, b, k: nat :: Spans(lapNumber, frames, step, a, b, k)
  {
    UsableExactly(lapNumber, frames);
    hide LapInDistanceOrder, Spans;
    if LapSamplesOf(lapId, lapNumber, frames, step).Some? {
      SampledSpans(lapId, lapNumber, frames, step);
    }
    if step > 0 && lapId != "" && LapInDistanceOrder(frames, lapNumber) {
      if a, b, k: nat :| Spans(lapNumber, frames, step, a, b, k) {
        SpannedSampled(lapId, lapNumber, frames, step, a, b, k);
      }
    }
    hide LapSamplesOf, UsableFrames;
  }

  /** The first sampled bucket lies between the first and the last of the kept distances. */
  lemma FirstCovered(lapId: string, kept: seq<Frame>, step: int, samples: seq<LapSample>, first: nat)
    requires SamplesFrom(lapId, kept, step, samples) && CompleteSamples(lapId, kept, step, samples, first)
    ensures |kept| >= 2 && step > 0 && kept[0].lapDistanceMeters.Some? && kept[|kept| - 1].lapDistanceMeters.Some?
    ensures DistanceOf(kept[0]) < DistanceOf(kept[|kept| - 1])
    ensures DistanceOf(kept[0]) <= (step * first) as real <= DistanceOf(kept[|kept| - 1])
  {
    assert IncreasingDistances(kept);
    DistancesIncrease(kept, 0, |kept| - 1);
    BucketOrder(step, first, first + |samples| - 1);
    assert Bucket(step, first) == step * first;
    hide Bucket, HasSample, SamplesUpTo, BucketCount, Sorted, IncreasingDistances;
  }

  lemma SampledSpans(lapId: string, lapNumber: int, frames: seq<Frame>, step: int)
    requires LapSamplesOf(lapId, lapNumber, frames, step).Some?
    ensures lapId != "" && step > 0 && UsableFrames(lapNumber, frames).Some?
    ensures exists a, b, k: nat :: Spans(lapNumber, frames, step, a, b, k)
  {
    assert lapId != "";
    hide *;
    var first := SamplesAreComplete(lapId, lapNumber, frames, step);
    SuccessUses(lapId, lapNumber, frames, step);
    var samples, kept := LapSamplesOf(lapId, lapNumber, frames, step).value, UsableFrames(lapNumber, frames).value;
    FirstCovered(lapId, kept, step, samples, first);
    KeptOfLap(lapNumber, frames);
    assert kept[0] in kept && kept[|kept| - 1] in kept;
    SpansIf(lapNumber, frames, step, kept[0], kept[|kept| - 1], first);
  }

  lemma SpansIf(lapNumber: int, frames: seq<Frame>, step: int, a: Frame, b: Frame, k: nat)
    requires a in frames && b in frames && a.lapNumber == lapNumber == b.lapNumber
    requires a.lapDistanceMeters.Some? && b.lapDistanceMeters.Some? && DistanceOf(a) < DistanceOf(b)
    requires DistanceOf(a) <= (step * k) as real <= DistanceOf(b)
    ensures Spans(lapNumber, frames, step, a, b, k)
  {
  }

  lemma KeptOfLap(lapNumber: int, frames: seq<Frame>)
    requires UsableFrames(lapNumber, frames).Some?
    ensures forall f :: f in UsableFrames(lapNumber, frames).value ==> f in frames && f.lapNumber == lapNumber
  {
    var lapFrames := LapFrames(frames, lapNumber);
    SortBySorted(Earlier, lapFrames);
    PermutationMembers(SortBy(Earlier, lapFrames), lapFrames);
    LastOfRunsInTimeOrder(SortBy(Earlier, lapFrames));
    hide SortBy, LastOfRuns;
  }

  /** A bucket between two kept distances is reached by the first one that is covered. */
  lemma FirstIsReached(kept: seq<Frame>, step: int, first: nat, i: nat, j: nat, k: nat)
    requires IncreasingDistances(kept) && i < |kept| && j < |kept| && step > 0
    requires FirstBucket(first, DistanceOf(kept[0]), step)
    requires DistanceOf(kept[i]) <= (step * k) as real <= DistanceOf(kept[j])
    ensures Bucket(step, first) as real <= DistanceOf(kept[|kept| - 1])
  {
    DistancesIncrease(kept, 0, i);
    DistancesIncrease(kept, j, |kept| - 1);
    assert Bucket(step, k) == step * k;
    hide Bucket, IncreasingDistances;
    if first > k {
      BucketOrder(step, k, first - 1);
    } else {
      BucketOrder(step, first, k);
    }
  }

  lemma SpanIndex(kept: seq<Frame>, distance: Option<real>) returns (i: nat)
    requires exists f :: f in kept && f.lapDistanceMeters == distance
    ensures i < |kept| && kept[i].lapDistanceMeters == distance
  {
    var f :| f in kept && f.lapDistanceMeters == distance;
    i :| 0 <= i < |kept| && kept[i] == f;
  }

  lemma SpannedSampled(lapId: string, lapNumber: int, frames: seq<Frame>, step: int, a: Frame, b: Frame, k: nat)
    requires lapId != "" && step > 0 && UsableFrames(lapNumber, frames).Some?
    requires Spans(lapNumber, frames, step, a, b, k)
    ensures LapSamplesOf(lapId, lapNumber, frames, step).Some?
  {
    var kept := UsableFrames(lapNumber, frames).value;
    LapInterpolation.KeptDistances(lapNumber, frames, a);
    LapInterpolation.KeptDistances(lapNumber, frames, b);
    KeptIncreases(lapNumber, frames);
    hide UsableFrames, LapSamplesOf, Bucket, FirstBucket, IncreasingDistances;
    var i := SpanIndex(kept, a.lapDistanceMeters);
    var j := SpanIndex(kept, b.lapDistanceMeters);
    assert i != j;
    var first := SomeBucketBeyond(DistanceOf(kept[0]), step);
    FirstIsReached(kept, step, first, i, j, k);
    SamplingSucceeds(lapId, lapNumber, frames, step, first);
  }
}
