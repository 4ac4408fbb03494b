/** Off-track stints over whole runs of batches: exactly when every stint of the stream gets reported. */
module OffTrackRuns {
  import opened Prelude
  import opened Telemetry
  import opened OffTrack

  // ----- runs -----

  /** The frames of the batches received so far. */
  function Joined(batches: seq<seq<Frame>>): seq<Frame> {
    if batches == [] then [] else Joined(batches[..|batches| - 1]) + batches[|batches| - 1]
  }

  /** The frames before the `k`-th batch. */
  function Before(batches: seq<seq<Frame>>, k: nat): seq<Frame>
    requires k <= |batches|
  {
    Joined(batches[..k])
  }

  /** The `k`-th batch is not empty, in time order, and later than everything before it. */
  ghost predicate Arrives(batches: seq<seq<Frame>>, k: nat)
    requires k < |batches|
  {
    Appended(Before(batches, k) + batches[k], Before(batches, k), batches[k])
  }

  ghost predicate AllArrive(batches: seq<seq<Frame>>) {
    forall k :: 0 <= k < |batches| ==> Arrives(batches, k)
  }

  /** The frames that the append of the `k`-th batch looks at. */
  function Window(batches: seq<seq<Frame>>, k: nat): seq<Frame>
    requires k < |batches|
  {
    WithTail(Before(batches, k) + batches[k], batches[k])
  }

  /** The stints that the append of the `k`-th batch reports. */
  function ReportedBy(options: Options, batches: seq<seq<Frame>>, k: nat): seq<Stint>
    requires k < |batches|
  {
    Stints(options, Window(batches, k))
  }

  /** The same stint, where `exact` asks for the same frame count as well. */
  predicate Same(exact: bool, r: Stint, s: Stint) {
    if exact then r == s else r.(frameCount := 0) == s.(frameCount := 0)
  }

  ghost predicate ReportedAt(exact: bool, options: Options, batches: seq<seq<Frame>>, k: nat, s: Stint)
    requires k < |batches|
  {
    exists r :: r in ReportedBy(options, batches, k) && Same(exact, r, s)
  }

  /** One of the first `n` appends reports the stint. */
  ghost predicate ReportedWithin(exact: bool, options: Options, batches: seq<seq<Frame>>, n: nat, s: Stint)
    requires n <= |batches|
  {
    exists k :: 0 <= k < n && ReportedAt(exact, options, batches, k, s)
  }

  ghost predicate AllWithin(exact: bool, options: Options, batches: seq<seq<Frame>>, n: nat, stints: seq<Stint>)
    requires n <= |batches|
  {
    forall s :: s in stints ==> ReportedWithin(exact, options, batches, n, s)
  }

  // ----- when an append loses a stint -----

  /** The car is off track across the boundary, back on track before the batch ends, and off for long enough. */
  predicate LosesAcross(options: Options, prefix: seq<Frame>, batch: seq<Frame>) {
    && EndsOffTrack(prefix) && !EndsOffTrack(batch) && LeadingRun(batch) != []
    && DurationMs(TrailingRun(prefix) + LeadingRun(batch)) >= options.minDurationMs
  }

  /** A first batch starts off track for long enough, comes back, and ends off track again. */
  predicate LosesLead(options: Options, batch: seq<Frame>) {
    && EndsOffTrack(batch) && LeadingRun(batch) != [] && LeadingRun(batch) != batch
    && DurationMs(LeadingRun(batch)) >= options.minDurationMs
  }

  /** A first batch is off track throughout and for long enough, and the next one, if any, is on track where it
      starts and where it ends. Then the only report counts every frame twice. */
  predicate CountsTwice(options: Options, batches: seq<seq<Frame>>) {
    && batches != [] && batches[0] != [] && LeadingRun(batches[0]) == batches[0]
    && DurationMs(batches[0]) >= options.minDurationMs
    && (|batches| > 1 ==> batches[1] != [] && batches[1][0].isOnTrack && !EndsOffTrack(batches[1]))
  }

  /** What is known of the batches as they arrive: some stint of the stream is not reported. */
  ghost predicate Loses(exact: bool, options: Options, batches: seq<seq<Frame>>) {
    || (batches != [] && LosesLead(options, batches[0]))
    || (exists k :: 1 <= k < |batches| && LosesAcross(options, Before(batches, k), batches[k]))
    || (exact && CountsTwice(options, batches))
  }

  // ----- joining and windows -----

  lemma BeforeNext(batches: seq<seq<Frame>>, k: nat)
    requires k < |batches|
    ensures Before(batches, k + 1) == Before(batches, k) + batches[k]
    ensures Before(batches, 0) == []
  {
    assert batches[..k + 1][..k] == batches[..k];
  }

  lemma BeforeAll(batches: seq<seq<Frame>>)
    ensures Before(batches, |batches|) == Joined(batches)
  {
    assert batches[..|batches|] == batches;
    hide Joined;
  }

  /** Later frames come behind; the next ones are those of the next batch. */
  lemma {:induction false} LaterFrames(batches: seq<seq<Frame>>, k: nat, n: nat) returns (later: seq<Frame>)
    requires AllArrive(batches) && k <= n <= |batches|
    ensures Before(batches, n) == Before(batches, k) + later
    ensures k == n ==> later == []
    ensures k < n ==> later != [] && batches[k] != [] && later[0] == batches[k][0]
    decreases n
  {
    if k == n {
      later := [];
      assert Before(batches, k) + [] == Before(batches, k);
    } else {
      var middle := LaterFrames(batches, k, n - 1);
      BeforeNext(batches, n - 1);
      assert Arrives(batches, n - 1);
      hide Joined, Before;
      later := middle + batches[n - 1];
      ConcatAssociates(Before(batches, k), middle, batches[n - 1]);
    }
  }

  lemma {:induction false} BeforeChronological(batches: seq<seq<Frame>>, n: nat)
    requires AllArrive(batches) && n <= |batches|
    ensures Chronological(Before(batches, n))
    ensures n > 0 ==> Before(batches, n) != []
  {
    if n > 0 {
      BeforeChronological(batches, n - 1);
      BeforeNext(batches, n - 1);
      assert Arrives(batches, n - 1);
      hide Joined, Before;
      JoinChronological(Before(batches, n - 1), batches[n - 1]);
    }
  }

  lemma JoinChronological(a: seq<Frame>, b: seq<Frame>)
    requires Chronological(a) && Appended(a + b, a, b)
    ensures Chronological(a + b)
  {
    forall i, j | 0 <= i < j < |a + b|
      ensures (a + b)[i].timestampUnixMs < (a + b)[j].timestampUnixMs
    {
      if i < |a| <= j {
        assert a[i].timestampUnixMs < b[0].timestampUnixMs;
        assert j > |a| ==> b[0].timestampUnixMs < b[j - |a|].timestampUnixMs;
      }
    }
  }

  lemma WindowIs(batches: seq<seq<Frame>>, k: nat)
    requires AllArrive(batches) && k < |batches|
    ensures Window(batches, k)
            == if !EndsOffTrack(batches[k]) then batches[k]
               else TrailingRun(if k == 0 then batches[0] else Before(batches, k)) + batches[k]
  {
    assert Arrives(batches, k);
    BeforeChronological(batches, k);
    BeforeNext(batches, 0);
    TailIs(Before(batches, k) + batches[k], Before(batches, k), batches[k]);
    hide WithTail, TrailingRun, EndsOffTrack, Joined, Chronological;
  }

  // ----- the stints of one window and of the stream -----

  lemma Split(options: Options, frames: seq<Frame>)
    ensures Stints(options, frames)
            == Stints(options, WithoutTrailingRun(frames)) + Stints(options, TrailingRun(frames))
  {
    TrailSplits(frames);
    hide Stints, TrailingRun, WithoutTrailingRun;
    StintsConcat(options, WithoutTrailingRun(frames), TrailingRun(frames));
  }

  lemma JoinedSplit(options: Options, prefix: seq<Frame>, batch: seq<Frame>)
    ensures Stints(options, prefix + batch)
            == Stints(options, WithoutTrailingRun(prefix)) + Stints(options, TrailingRun(prefix) + batch)
  {
    TrailSplits(prefix);
    hide Stints, TrailingRun, WithoutTrailingRun;
    ConcatAssociates(WithoutTrailingRun(prefix), TrailingRun(prefix), batch);
    StintsConcat(options, WithoutTrailingRun(prefix), TrailingRun(prefix) + batch);
  }

  /** The parts of a stream that starts with a run off track. */
  lemma LeadParts(frames: seq<Frame>) returns (rest: seq<Frame>)
    ensures frames == LeadingRun(frames) + rest && AllOff(LeadingRun(frames))
    ensures rest == [] || rest[0].isOnTrack
    ensures rest == [] <==> LeadingRun(frames) == frames
    ensures LeadingRun(frames) == [] && frames != [] ==> frames[0].isOnTrack
  {
    rest := frames[LeadLength(frames)..];
    LeadSplits(frames);
    LeadStops(frames);
  }

  lemma RunAlone(options: Options, run: seq<Frame>)
    requires run != [] && AllOff(run)
    ensures Stints(options, run) == StintOf(options, run)
  {
    RunInFront(options, run, []);
    assert run + [] == run && Stints(options, []) == [];
    hide StintOf;
    assert StintOf(options, run) + [] == StintOf(options, run);
  }

  lemma TooShort(options: Options, run: seq<Frame>)
    requires run != [] && DurationMs(run) < options.minDurationMs
    ensures StintOf(options, run) == []
  {
  }

  lemma Joins(options: Options, run: seq<Frame>, lead: seq<Frame>, rest: seq<Frame>)
    requires run != [] && AllOff(run) && AllOff(lead) && (rest == [] || rest[0].isOnTrack)
    ensures run + lead != [] && AllOff(run + lead)
    ensures Stints(options, run + (lead + rest)) == StintOf(options, run + lead) + Stints(options, rest)
  {
    ConcatAssociates(run, lead, rest);
    RunInFront(options, run + lead, rest);
    hide Stints, StintOf;
  }

  // ----- reports -----

  lemma AllOfWindow(exact: bool, options: Options, batches: seq<seq<Frame>>, k: nat, n: nat)
    requires k < n <= |batches|
    ensures AllWithin(exact, options, batches, n, ReportedBy(options, batches, k))
  {
    hide ReportedBy;
    forall s | s in ReportedBy(options, batches, k)
      ensures ReportedWithin(exact, options, batches, n, s)
    {
      assert Same(exact, s, s);
      assert ReportedAt(exact, options, batches, k, s);
    }
  }

  lemma AllOfParts(exact: bool, options: Options, batches: seq<seq<Frame>>, n: nat, a: seq<Stint>, b: seq<Stint>)
    requires n <= |batches|
    ensures AllWithin(exact, options, batches, n, a + b)
            <==> AllWithin(exact, options, batches, n, a) && AllWithin(exact, options, batches, n, b)
    ensures AllWithin(exact, options, batches, n, [])
  {
    hide ReportedWithin;
    if AllWithin(exact, options, batches, n, a + b) {
      assert forall s :: s in a ==> s in a + b;
      assert forall s :: s in b ==> s in a + b;
    }
  }

  lemma AllStay(exact: bool, options: Options, batches: seq<seq<Frame>>, n: nat, stints: seq<Stint>)
    requires n < |batches| && AllWithin(exact, options, batches, n, stints)
    ensures AllWithin(exact, options, batches, n + 1, stints)
  {
    hide ReportedAt;
    forall s | s in stints
      ensures ReportedWithin(exact, options, batches, n + 1, s)
    {
      var k :| 0 <= k < n && ReportedAt(exact, options, batches, k, s);
    }
  }

  // ----- without a loss everything is reported -----

  /** After `n` batches all stints of the stream are reported, except that the run at its end is still due when it
      is all of an only batch and its frames have been counted twice. */
  ghost predicate Covered(exact: bool, options: Options, batches: seq<seq<Frame>>, n: nat)
    requires 0 < n <= |batches|
  {
    && AllWithin(exact, options, batches, n, Stints(options, WithoutTrailingRun(Before(batches, n))))
    && (Due(exact, batches, n)
        || AllWithin(exact, options, batches, n, Stints(options, TrailingRun(Before(batches, n)))))
  }

  predicate Due(exact: bool, batches: seq<seq<Frame>>, n: nat)
    requires 0 < n <= |batches|
  {
    exact && n == 1 && LeadingRun(batches[0]) == batches[0]
  }

  lemma CoversWhole(exact: bool, options: Options, batches: seq<seq<Frame>>, n: nat)
    requires 0 < n <= |batches|
    requires AllWithin(exact, options, batches, n, Stints(options, Before(batches, n)))
    ensures Covered(exact, options, batches, n)
  {
    var frames := Before(batches, n);
    Split(options, frames);
    hide Stints, Before, WithoutTrailingRun, TrailingRun, AllWithin;
    AllOfParts(exact, options, batches, n, Stints(options, WithoutTrailingRun(frames)),
               Stints(options, TrailingRun(frames)));
  }

  lemma OnTrackEnd(frames: seq<Frame>)
    requires !EndsOffTrack(frames)
    ensures WithoutTrailingRun(frames) == frames && TrailingRun(frames) == []
  {
  }

  lemma OffTrackEnd(frames: seq<Frame>)
    requires EndsOffTrack(frames)
    ensures TrailingRun(frames) != [] && AllOff(TrailingRun(frames))
    ensures LeadingRun(frames) == frames ==> TrailingRun(frames) == frames
  {
    if LeadingRun(frames) == frames {
      TrailIs(frames, 0);
    }
  }

  lemma AllOffEnds(frames: seq<Frame>)
    requires LeadingRun(frames) == frames != []
    ensures EndsOffTrack(frames) && AllOff(frames)
  {
    LeadSplits(frames);
  }

  /** A batch that ends off track reports everything from the trailing run before it on. */
  lemma StepOff(exact: bool, options: Options, batches: seq<seq<Frame>>, n: nat)
    requires AllArrive(batches) && 0 < n < |batches| && EndsOffTrack(batches[n])
    requires Covered(exact, options, batches, n)
    ensures Covered(exact, options, batches, n + 1)
  {
    var prefix, batch := Before(batches, n), batches[n];
    WindowIs(batches, n);
    BeforeNext(batches, n);
    hide Stints, Before, WithoutTrailingRun, TrailingRun, AllWithin, Window, EndsOffTrack, AllArrive, Due;
    JoinedSplit(options, prefix, batch);
    AllOfWindow(exact, options, batches, n, n + 1);
    AllStay(exact, options, batches, n, Stints(options, WithoutTrailingRun(prefix)));
    AllOfParts(exact, options, batches, n + 1, Stints(options, WithoutTrailingRun(prefix)),
               Stints(options, TrailingRun(prefix) + batch));
    CoversWhole(exact, options, batches, n + 1);
  }

  /** What a batch that ends on track has to report of the run before it and itself. */
  lemma OwnPart(exact: bool, options: Options, batches: seq<seq<Frame>>, n: nat, run: seq<Frame>, batch: seq<Frame>)
    requires n <= |batches| && batch != [] && AllOff(run)
    requires AllWithin(exact, options, batches, n, Stints(options, batch))
    requires AllWithin(exact, options, batches, n, Stints(options, run)) || LeadingRun(batch) != []
    requires run != [] && LeadingRun(batch) != [] ==> DurationMs(run + LeadingRun(batch)) < options.minDurationMs
    ensures AllWithin(exact, options, batches, n, Stints(options, run + batch))
  {
    var rest := LeadParts(batch);
    hide AllWithin, LeadingRun, AllOff, DurationMs;
    if run == [] {
      assert run + batch == batch;
    } else if LeadingRun(batch) == [] {
      StintsConcat(options, run, batch);
      hide Stints;
      AllOfParts(exact, options, batches, n, Stints(options, run), Stints(options, batch));
    } else {
      Joins(options, run, LeadingRun(batch), rest);
      TooShort(options, run + LeadingRun(batch));
      RunInFront(options, LeadingRun(batch), rest);
      hide Stints, StintOf;
      assert [] + Stints(options, rest) == Stints(options, rest);
      AllOfParts(exact, options, batches, n, StintOf(options, LeadingRun(batch)), Stints(options, rest));
    }
  }

  lemma StepOn(exact: bool, options: Options, batches: seq<seq<Frame>>, n: nat)
    requires AllArrive(batches) && 0 < n < |batches| && !EndsOffTrack(batches[n])
    requires Covered(exact, options, batches, n)
    requires !LosesAcross(options, Before(batches, n), batches[n]) && !(exact && CountsTwice(options, batches))
    ensures Covered(exact, options, batches, n + 1)
  {
    var prefix, batch := Before(batches, n), batches[n];
    assert Arrives(batches, n);
    WindowIs(batches, n);
    BeforeNext(batches, n);
    BeforeNext(batches, 0);
    TrailSplits(prefix);
    if EndsOffTrack(prefix) {
      OffTrackEnd(prefix);
    } else {
      OnTrackEnd(prefix);
    }
    LastRunCovered(exact, options, batches, n);
    hide Stints, Before, WithoutTrailingRun, TrailingRun, AllWithin, Window, EndsOffTrack, AllArrive, Due, LeadingRun;
    hide DurationMs, CountsTwice, AllOff;
    JoinedSplit(options, prefix, batch);
    AllOfWindow(exact, options, batches, n, n + 1);
    AllStay(exact, options, batches, n, Stints(options, WithoutTrailingRun(prefix)));
    OwnPart(exact, options, batches, n + 1, TrailingRun(prefix), batch);
    AllOfParts(exact, options, batches, n + 1, Stints(options, WithoutTrailingRun(prefix)),
               Stints(options, TrailingRun(prefix) + batch));
    CoversWhole(exact, options, batches, n + 1);
  }

  /** The run before a batch that starts and ends on track has been reported, or was too short to be. */
  lemma LastRunCovered(exact: bool, options: Options, batches: seq<seq<Frame>>, n: nat)
    requires AllArrive(batches) && 0 < n < |batches| && !EndsOffTrack(batches[n])
    requires Covered(exact, options, batches, n) && !(exact && CountsTwice(options, batches))
    ensures LeadingRun(batches[n]) == [] ==>
              AllWithin(exact, options, batches, n + 1, Stints(options, TrailingRun(Before(batches, n))))
  {
    var run := TrailingRun(Before(batches, n));
    var rest := LeadParts(batches[n]);
    assert Arrives(batches, 0) && Arrives(batches, n);
    if LeadingRun(batches[n]) == [] {
      if Due(exact, batches, n) {
        FirstAlone(batches);
        AllOffEnds(batches[0]);
        OffTrackEnd(batches[0]);
        hide Stints, Before, AllWithin;
        RunAlone(options, batches[0]);
        TooShort(options, batches[0]);
        AllOfParts(exact, options, batches, n + 1, [], []);
      } else {
        hide Stints, Before, TrailingRun, AllWithin;
        AllStay(exact, options, batches, n, Stints(options, run));
      }
    }
  }

  lemma FirstAlone(batches: seq<seq<Frame>>)
    requires batches != []
    ensures Before(batches, 1) == batches[0]
  {
    BeforeNext(batches, 0);
    assert [] + batches[0] == batches[0];
  }

  /** A run put in front of itself is the same stint with every frame counted twice. */
  lemma RunTwice(options: Options, run: seq<Frame>)
    requires run != [] && AllOff(run)
    ensures AllOff(run + run) && run + run != []
    ensures forall s :: s in StintOf(options, run) ==> s.(frameCount := 2 * |run|) in StintOf(options, run + run)
    ensures forall r :: r in StintOf(options, run + run) ==> r.frameCount == 2 * |run|
    ensures forall s :: s in StintOf(options, run) ==> s.frameCount == |run|
  {
    assert (run + run)[0] == run[0] && (run + run)[|run + run| - 1] == run[|run| - 1];
  }

  /** A first batch that ends off track and starts on track: its own last run in front of it changes nothing. */
  lemma FirstOnTrackStart(exact: bool, options: Options, batches: seq<seq<Frame>>, run: seq<Frame>)
    requires batches != [] && batches[0] != [] && batches[0][0].isOnTrack
    requires ReportedBy(options, batches, 0) == Stints(options, run + batches[0])
    ensures Covered(exact, options, batches, 1)
  {
    hide *;
    FirstAlone(batches);
    AllOfWindow(exact, options, batches, 0, 1);
    StintsConcat(options, run, batches[0]);
    AllOfParts(exact, options, batches, 1, Stints(options, run), Stints(options, batches[0]));
    CoversWhole(exact, options, batches, 1);
  }

  /** A first batch whose own leading run is too short to report: nothing is lost by joining another run to it. */
  lemma FirstShortLead(exact: bool, options: Options, batches: seq<seq<Frame>>, run: seq<Frame>, lead: seq<Frame>,
                       rest: seq<Frame>)
    requires batches != [] && batches[0] == lead + rest && AllOff(lead) && (rest == [] || rest[0].isOnTrack)
    requires run != [] && AllOff(run)
    requires lead != [] && DurationMs(lead) < options.minDurationMs
    requires ReportedBy(options, batches, 0) == Stints(options, run + batches[0])
    ensures Covered(exact, options, batches, 1)
  {
    hide *;
    FirstAlone(batches);
    AllOfWindow(exact, options, batches, 0, 1);
    Joins(options, run, lead, rest);
    RunInFront(options, lead, rest);
    TooShort(options, lead);
    assert [] + Stints(options, rest) == Stints(options, rest);
    AllOfParts(exact, options, batches, 1, StintOf(options, run + lead), Stints(options, rest));
    CoversWhole(exact, options, batches, 1);
  }

  lemma FirstReport(options: Options, batches: seq<seq<Frame>>)
    requires AllArrive(batches) && batches != [] && EndsOffTrack(batches[0])
    ensures ReportedBy(options, batches, 0) == Stints(options, TrailingRun(batches[0]) + batches[0])
  {
    WindowIs(batches, 0);
    hide Window, AllArrive, TrailingRun, Stints;
  }

  lemma LeadsShort(options: Options, batch: seq<Frame>)
    requires EndsOffTrack(batch) && !LosesLead(options, batch)
    requires LeadingRun(batch) != [] && LeadingRun(batch) != batch
    ensures DurationMs(LeadingRun(batch)) < options.minDurationMs
  {
    hide EndsOffTrack, LeadingRun, DurationMs;
  }

  lemma FirstStepOff(exact: bool, options: Options, batches: seq<seq<Frame>>)
    requires AllArrive(batches) && batches != [] && EndsOffTrack(batches[0]) && !LosesLead(options, batches[0])
    ensures Covered(exact, options, batches, 1)
  {
    assert batches[0] != [];
    hide *;
    var batch := batches[0];
    FirstReport(options, batches);
    OffTrackEnd(batch);
    var rest := LeadParts(batch);
    if LeadingRun(batch) == batch {
      FirstRunTwice(exact, options, batches);
    } else if LeadingRun(batch) == [] {
      FirstOnTrackStart(exact, options, batches, TrailingRun(batch));
    } else {
      LeadsShort(options, batch);
      FirstShortLead(exact, options, batches, TrailingRun(batch), LeadingRun(batch), rest);
    }
  }

  lemma FirstRunTwice(exact: bool, options: Options, batches: seq<seq<Frame>>)
    requires AllArrive(batches) && batches != [] && batches[0] != [] && LeadingRun(batches[0]) == batches[0]
    ensures Covered(exact, options, batches, 1)
  {
    var batch := batches[0];
    FirstAlone(batches);
    WindowIs(batches, 0);
    AllOffEnds(batch);
    OffTrackEnd(batch);
    assert WithoutTrailingRun(batch) == [];
    RunTwice(options, batch);
    RunAlone(options, batch);
    RunAlone(options, batch + batch);
    hide Window, Before, TrailingRun, WithoutTrailingRun, LeadingRun, AllOff, StintOf, AllArrive;
    assert ReportedBy(options, batches, 0) == StintOf(options, batch + batch);
    AllOfParts(exact, options, batches, 1, [], []);
    if !exact {
      forall s | s in StintOf(options, batch)
        ensures ReportedWithin(exact, options, batches, 1, s)
      {
        var r := s.(frameCount := 2 * |batch|);
        assert r in ReportedBy(options, batches, 0) && Same(exact, r, s);
        assert ReportedAt(exact, options, batches, 0, s);
      }
    }
    hide Stints;
  }

  lemma FirstStepOn(exact: bool, options: Options, batches: seq<seq<Frame>>)
    requires AllArrive(batches) && batches != [] && !EndsOffTrack(batches[0])
    ensures Covered(exact, options, batches, 1)
  {
    FirstAlone(batches);
    WindowIs(batches, 0);
    hide Stints, Before, AllWithin, AllArrive, Window, Covered, EndsOffTrack;
    AllOfWindow(exact, options, batches, 0, 1);
    CoversWhole(exact, options, batches, 1);
  }

  lemma {:induction false} CoveredAlways(exact: bool, options: Options, batches: seq<seq<Frame>>, n: nat)
    requires AllArrive(batches) && !Loses(exact, options, batches) && 0 < n <= |batches|
    ensures Covered(exact, options, batches, n)
    decreases n
  {
    hide AllArrive, Covered, LosesLead, LosesAcross, CountsTwice, EndsOffTrack;
    if n == 1 {
      if EndsOffTrack(batches[0]) {
        FirstStepOff(exact, options, batches);
      } else {
        FirstStepOn(exact, options, batches);
      }
    } else {
      CoveredAlways(exact, options, batches, n - 1);
      if EndsOffTrack(batches[n - 1]) {
        StepOff(exact, options, batches, n - 1);
      } else {
        StepOn(exact, options, batches, n - 1);
      }
    }
  }

  /** Every stint of the whole stream is reported by some append. */
  ghost predicate ReportsAll(exact: bool, options: Options, batches: seq<seq<Frame>>) {
    AllWithin(exact, options, batches, |batches|, Stints(options, Joined(batches)))
  }

  lemma NoLossReportsAll(exact: bool, options: Options, batches: seq<seq<Frame>>)
    requires AllArrive(batches) && !Loses(exact, options, batches)
    ensures ReportsAll(exact, options, batches)
  {
    var n := |batches|;
    BeforeAll(batches);
    if n > 0 {
      CoveredAlways(exact, options, batches, n);
      var frames := Before(batches, n);
      Split(options, frames);
      if Due(exact, batches, n) {
        FirstAlone(batches);
        assert Arrives(batches, 0);
        AllOffEnds(batches[0]);
        OffTrackEnd(batches[0]);
        RunAlone(options, batches[0]);
        TooShort(options, batches[0]);
        AllOfParts(exact, options, batches, n, [], []);
      }
      hide Stints, Before, WithoutTrailingRun, TrailingRun, AllWithin, Due, Joined, Loses, AllArrive;
      AllOfParts(exact, options, batches, n, Stints(options, WithoutTrailingRun(frames)),
                 Stints(options, TrailingRun(frames)));
    }
  }

  // ----- a loss stays unreported -----

  ghost predicate HasTime(frames: seq<Frame>, timestampUnixMs: int) {
    exists f :: f in frames && f.timestampUnixMs == timestampUnixMs
  }

  /** A stint starts and ends at frames of the stream. */
  lemma StintEnds(options: Options, frames: seq<Frame>, s: Stint)
    requires s in Stints(options, frames)
    ensures HasTime(frames, s.startMs) && HasTime(frames, s.endMs)
  {
    StintsReportMaximalRuns(options, frames, s);
    hide Stints;
    var i: nat, j: nat :| IsMaximalRun(frames, i, j) && StintOf(options, frames[i..j]) == [s];
    assert frames[i..j][0] == frames[i] && frames[i..j][j - i - 1] == frames[j - 1];
    assert frames[i] in frames && frames[j - 1] in frames;
  }

  lemma NotSeen(exact: bool, options: Options, batches: seq<seq<Frame>>, k: nat, s: Stint)
    requires k < |batches|
    requires !HasTime(Window(batches, k), s.startMs) || !HasTime(Window(batches, k), s.endMs)
    ensures !ReportedAt(exact, options, batches, k, s)
  {
    hide Stints, Window, HasTime;
    forall r | r in ReportedBy(options, batches, k)
      ensures !Same(exact, r, s)
    {
      StintEnds(options, Window(batches, k), r);
    }
  }

  lemma BeforeGrows(batches: seq<seq<Frame>>, j: nat, k: nat, f: Frame)
    requires AllArrive(batches) && j <= k <= |batches| && f in Before(batches, j)
    ensures f in Before(batches, k)
  {
    var later := LaterFrames(batches, j, k);
    hide Before;
  }

  lemma TrailMember(frames: seq<Frame>, f: Frame)
    requires f in TrailingRun(frames)
    ensures f in frames && !f.isOnTrack
  {
    hide TrailStart;
    TrailSplits(frames);
    assert frames[TrailStart(frames)..] <= frames[TrailStart(frames)..];
  }

  lemma WindowMember(batches: seq<seq<Frame>>, k: nat, f: Frame)
    requires AllArrive(batches) && k < |batches| && f in Window(batches, k)
    ensures f in Before(batches, k + 1)
    ensures f in batches[k] || (k == 0 && f in TrailingRun(batches[0]))
            || (k > 0 && f in TrailingRun(Before(batches, k)))
  {
    WindowIs(batches, k);
    BeforeNext(batches, k);
    hide Before, Window, TrailingRun;
    if f !in batches[k] {
      TrailMember(if k == 0 then batches[0] else Before(batches, k), f);
    }
  }

  /** What an earlier append looks at is older than a later batch. */
  lemma EarlierWindow(batches: seq<seq<Frame>>, j: nat, k: nat, timestampUnixMs: int)
    requires AllArrive(batches) && j < k < |batches| && batches[k] != []
    requires timestampUnixMs >= batches[k][0].timestampUnixMs
    ensures !HasTime(Window(batches, j), timestampUnixMs)
  {
    assert Arrives(batches, k);
    forall f | f in Window(batches, j)
      ensures f.timestampUnixMs < batches[k][0].timestampUnixMs
    {
      WindowMember(batches, j, f);
      BeforeGrows(batches, j + 1, k, f);
      hide Before, Window;
    }
  }

  /** What a later append looks at is newer than any earlier frame on track. */
  lemma LaterWindow(batches: seq<seq<Frame>>, k: nat, onTrack: Frame, timestampUnixMs: int)
    requires AllArrive(batches) && 0 < k < |batches| && onTrack in Before(batches, k) && onTrack.isOnTrack
    requires timestampUnixMs <= onTrack.timestampUnixMs
    ensures !HasTime(Window(batches, k), timestampUnixMs)
  {
    assert Arrives(batches, k);
    BeforeChronological(batches, k);
    forall f | f in Window(batches, k)
      ensures f.timestampUnixMs > onTrack.timestampUnixMs
    {
      WindowMember(batches, k, f);
      hide Before, Window, AllArrive;
      if f in batches[k] {
        NotOlderThanFirst(batches[k], f);
      } else {
        AfterOnTrack(Before(batches, k), onTrack, f);
      }
    }
  }

  lemma NotOlderThanFirst(frames: seq<Frame>, f: Frame)
    requires Chronological(frames) && f in frames
    ensures frames[0].timestampUnixMs <= f.timestampUnixMs
  {
    var i :| 0 <= i < |frames| && frames[i] == f;
  }

  lemma AfterOnTrack(frames: seq<Frame>, onTrack: Frame, f: Frame)
    requires Chronological(frames) && onTrack in frames && onTrack.isOnTrack && f in TrailingRun(frames)
    ensures f.timestampUnixMs > onTrack.timestampUnixMs
  {
    var start := TrailStart(frames);
    var i :| 0 <= i < |frames| && frames[i] == onTrack;
    var j :| 0 <= j < |frames| - start && frames[start..][j] == f;
    OnTrackBeforeTrail(frames, i);
    assert frames[start + j] == f;
  }

  lemma OnTrackBeforeTrail(frames: seq<Frame>, i: nat)
    requires i < |frames| && frames[i].isOnTrack
    ensures i < TrailStart(frames)
  {
    var start := TrailStart(frames);
    assert forall k :: start <= k < |frames| ==> frames[k] == frames[start..][k - start];
  }

  lemma OwnWindow(batches: seq<seq<Frame>>, k: nat, timestampUnixMs: int)
    requires AllArrive(batches) && k < |batches| && !EndsOffTrack(batches[k]) && batches[k] != []
    requires timestampUnixMs < batches[k][0].timestampUnixMs
    ensures !HasTime(Window(batches, k), timestampUnixMs)
  {
    assert Arrives(batches, k);
    WindowIs(batches, k);
    hide Window, Before, AllArrive;
    forall f | f in batches[k]
      ensures f.timestampUnixMs > timestampUnixMs
    {
      NotOlderThanFirst(batches[k], f);
    }
  }

  lemma StintEndsOf(options: Options, run: seq<Frame>) returns (s: Stint)
    requires run != [] && DurationMs(run) >= options.minDurationMs
    ensures StintOf(options, run) == [s]
    ensures s.startMs == run[0].timestampUnixMs && s.endMs == run[|run| - 1].timestampUnixMs
  {
    s := StintOf(options, run)[0];
  }

  /** The stint across the boundary is in the stream and no append reports it. */
  lemma AcrossIsLost(options: Options, batches: seq<seq<Frame>>, k: nat) returns (s: Stint)
    requires AllArrive(batches) && 0 < k < |batches| && LosesAcross(options, Before(batches, k), batches[k])
    ensures StintOf(options, TrailingRun(Before(batches, k)) + LeadingRun(batches[k])) == [s]
    ensures s in Stints(options, Joined(batches))
    ensures !ReportedWithin(false, options, batches, |batches|, s)
  {
    var prefix, batch := Before(batches, k), batches[k];
    var run, lead := TrailingRun(prefix), LeadingRun(batch);
    assert Arrives(batches, k);
    OffTrackEnd(prefix);
    var rest := LeadParts(batch);
    s := StintEndsOf(options, run + lead);
    AcrossInStream(options, batches, k, rest, s);
    BeforeNext(batches, k);
    TrailMember(prefix, run[0]);
    assert batch[|lead| - 1] == lead[|lead| - 1];
    NotOlderThanFirst(batch, lead[|lead| - 1]);
    hide Stints, StintOf, Window, Before, HasTime, TrailingRun, LeadingRun, ReportedAt, AllArrive, LosesAcross;
    forall j | 0 <= j < |batches|
      ensures !ReportedAt(false, options, batches, j, s)
    {
      AcrossUnseen(options, batches, k, s, j);
    }
  }

  /** A stint that starts before a batch and ends in it is seen by no append if the batch ends on track. */
  lemma AcrossUnseen(options: Options, batches: seq<seq<Frame>>, k: nat, s: Stint, j: nat)
    requires AllArrive(batches) && 0 < k < |batches| && j < |batches|
    requires batches[k] != [] && !EndsOffTrack(batches[k])
    requires s.startMs < batches[k][0].timestampUnixMs <= s.endMs
    ensures !ReportedAt(false, options, batches, j, s)
  {
    hide Window, HasTime, ReportedAt;
    if j < k {
      EarlierWindow(batches, j, k, s.endMs);
    } else if j == k {
      OwnWindow(batches, k, s.startMs);
    } else {
      var last := LastOnTrack(batches, k);
      BeforeGrows(batches, k + 1, j, last);
      LaterWindow(batches, j, last, s.startMs);
    }
    NotSeen(false, options, batches, j, s);
  }

  lemma LastOnTrack(batches: seq<seq<Frame>>, k: nat) returns (last: Frame)
    requires AllArrive(batches) && k < |batches| && batches[k] != [] && !EndsOffTrack(batches[k])
    ensures last in Before(batches, k + 1) && last.isOnTrack
    ensures last.timestampUnixMs >= batches[k][0].timestampUnixMs
  {
    assert Arrives(batches, k);
    last := batches[k][|batches[k]| - 1];
    BeforeNext(batches, k);
    NotOlderThanFirst(batches[k], last);
    hide Before;
  }

  lemma AcrossInStream(options: Options, batches: seq<seq<Frame>>, k: nat, rest: seq<Frame>, s: Stint)
    requires AllArrive(batches) && 0 < k < |batches| && LosesAcross(options, Before(batches, k), batches[k])
    requires batches[k] == LeadingRun(batches[k]) + rest && AllOff(LeadingRun(batches[k]))
    requires rest == [] || rest[0].isOnTrack
    requires s in StintOf(options, TrailingRun(Before(batches, k)) + LeadingRun(batches[k]))
    ensures s in Stints(options, Joined(batches))
  {
    var prefix, batch := Before(batches, k), batches[k];
    OffTrackEnd(prefix);
    JoinedSplit(options, prefix, batch);
    Joins(options, TrailingRun(prefix), LeadingRun(batch), rest);
    BeforeNext(batches, k);
    BeforeAll(batches);
    assert Arrives(batches, k);
    assert !EndsOffTrack(prefix + batch);
    var later := LaterFrames(batches, k + 1, |batches|);
    hide StintOf, Before, TrailingRun, LeadingRun, Joined, AllArrive;
    StintsConcat(options, prefix + batch, later);
    hide Stints;
  }

  lemma Unreported(exact: bool, options: Options, batches: seq<seq<Frame>>, s: Stint)
    requires !ReportedWithin(false, options, batches, |batches|, s)
    ensures !ReportedWithin(exact, options, batches, |batches|, s)
  {
    hide ReportedBy;
    forall k | 0 <= k < |batches|
      ensures !ReportedAt(exact, options, batches, k, s)
    {
      assert !ReportedAt(false, options, batches, k, s);
      assert forall r :: Same(exact, r, s) ==> Same(false, r, s);
    }
  }

  lemma WholeLead(frames: seq<Frame>)
    ensures LeadLength(frames) == |frames| <==> LeadingRun(frames) == frames
  {
    assert frames[..|frames|] == frames;
  }

  /** The run at the end of a batch, joined to the one at its start, ends before it starts. */
  lemma BackwardRun(batch: seq<Frame>)
    requires Chronological(batch) && EndsOffTrack(batch) && LeadingRun(batch) != [] && LeadingRun(batch) != batch
    ensures DurationMs(TrailingRun(batch) + LeadingRun(batch)) < 0
  {
    var n, start := LeadLength(batch), TrailStart(batch);
    WholeLead(batch);
    TrailAfterLead(batch);
    var joined := TrailingRun(batch) + LeadingRun(batch);
    assert joined[0] == batch[start] && joined[|joined| - 1] == batch[n - 1];
  }

  lemma LeadUnseen(options: Options, batches: seq<seq<Frame>>, rest: seq<Frame>, s: Stint, j: nat)
    requires AllArrive(batches) && j < |batches| && LosesLead(options, batches[0]) && options.minDurationMs > 0
    requires batches[0] == LeadingRun(batches[0]) + rest && rest != [] && rest[0].isOnTrack
    requires s.startMs == batches[0][0].timestampUnixMs
    ensures !ReportedAt(false, options, batches, j, s)
  {
    var batch := batches[0];
    assert Arrives(batches, 0);
    forall f | f in rest
      ensures f.timestampUnixMs > s.startMs && f in batch
    {
      var i :| 0 <= i < |rest| && rest[i] == f;
      assert batch[|LeadingRun(batch)| + i] == f;
    }
    if j == 0 {
      WindowIs(batches, 0);
      BackwardRun(batch);
      OffTrackEnd(batch);
      LeadSplits(batch);
      hide Window, Before, LeadingRun, TrailingRun, AllArrive, LosesLead;
      Joins(options, TrailingRun(batch), LeadingRun(batch), rest);
      TooShort(options, TrailingRun(batch) + LeadingRun(batch));
      hide Stints;
      assert [] + Stints(options, rest) == Stints(options, rest);
      forall r | r in ReportedBy(options, batches, 0)
        ensures !Same(false, r, s)
      {
        StintEnds(options, rest, r);
      }
    } else {
      assert rest[0] in rest;
      FirstAlone(batches);
      hide Window, Before, LeadingRun, HasTime, ReportedAt, AllArrive, LosesLead;
      BeforeGrows(batches, 1, j, rest[0]);
      LaterWindow(batches, j, rest[0], s.startMs);
      NotSeen(false, options, batches, j, s);
    }
  }

  /** A first batch's own leading stint, once its tail has been put in front of it. */
  lemma LeadIsLost(options: Options, batches: seq<seq<Frame>>) returns (s: Stint)
    requires AllArrive(batches) && batches != [] && LosesLead(options, batches[0]) && options.minDurationMs > 0
    ensures StintOf(options, LeadingRun(batches[0])) == [s]
    ensures s in Stints(options, Joined(batches))
    ensures !ReportedWithin(false, options, batches, |batches|, s)
  {
    var batch := batches[0];
    var lead := LeadingRun(batch);
    var rest := LeadParts(batch);
    s := StintEndsOf(options, lead);
    assert lead[0] == batch[0];
    FirstAlone(batches);
    BeforeAll(batches);
    var later := LaterFrames(batches, 1, |batches|);
    hide Stints, StintOf, Window, Before, LeadingRun, ReportedAt, AllArrive, LosesLead, Joined;
    ConcatAssociates(lead, rest, later);
    RunInFront(options, lead, rest + later);
    forall j | 0 <= j < |batches|
      ensures !ReportedAt(false, options, batches, j, s)
    {
      LeadUnseen(options, batches, rest, s, j);
    }
  }

  lemma TwiceUnseen(options: Options, batches: seq<seq<Frame>>, s: Stint, j: nat)
    requires AllArrive(batches) && j < |batches| && CountsTwice(options, batches)
    requires [s] == StintOf(options, batches[0])
    ensures !ReportedAt(true, options, batches, j, s)
  {
    var batch := batches[0];
    AllOffEnds(batch);
    OffTrackEnd(batch);
    RunTwice(options, batch);
    RunAlone(options, batch + batch);
    assert s in StintOf(options, batch);
    assert s.startMs == batch[0].timestampUnixMs;
    WindowIs(batches, 0);
    if j == 0 {
      hide StintOf, Stints, Window;
      assert |batch| > 0;
    } else {
      assert Arrives(batches, 0) && Arrives(batches, 1);
      FirstAlone(batches);
      assert batch[0] in batch;
      assert batch[0].timestampUnixMs < batches[1][0].timestampUnixMs;
      hide Window, Before, HasTime, Stints, StintOf, AllArrive;
      if j == 1 {
        OwnWindow(batches, 1, s.startMs);
      } else {
        var last := LastOnTrack(batches, 1);
        BeforeGrows(batches, 2, j, last);
        LaterWindow(batches, j, last, s.startMs);
      }
      NotSeen(true, options, batches, j, s);
    }
  }

  lemma TwiceReported(options: Options, batches: seq<seq<Frame>>, s: Stint)
    requires AllArrive(batches) && CountsTwice(options, batches)
    requires StintOf(options, batches[0]) == [s]
    ensures ReportedBy(options, batches, 0) == [s.(frameCount := 2 * s.frameCount)]
  {
    var batch := batches[0];
    AllOffEnds(batch);
    OffTrackEnd(batch);
    FirstReport(options, batches);
    RunTwice(options, batch);
    RunAlone(options, batch + batch);
    assert s in StintOf(options, batch);
    AtMostOne(options, batch + batch, s.(frameCount := 2 * |batch|));
    hide *;
  }

  /** A first batch that is off track throughout: the only report of its stint has twice its frames. */
  lemma TwiceIsLost(options: Options, batches: seq<seq<Frame>>) returns (s: Stint)
    requires AllArrive(batches) && CountsTwice(options, batches)
    ensures s in Stints(options, Joined(batches))
    ensures !ReportedWithin(true, options, batches, |batches|, s)
    ensures ReportedBy(options, batches, 0) == [s.(frameCount := 2 * s.frameCount)]
  {
    var batch := batches[0];
    s := StintEndsOf(options, batch);
    AllOffEnds(batch);
    TwiceReported(options, batches, s);
    RunAlone(options, batch);
    FirstAlone(batches);
    BeforeAll(batches);
    var later := LaterFrames(batches, 1, |batches|);
    hide Stints, StintOf, Window, Before, ReportedAt, AllArrive, CountsTwice, Joined;
    FollowedOnTrack(options, batches, later);
    StintsConcat(options, batch, later);
    forall j | 0 <= j < |batches|
      ensures !ReportedAt(true, options, batches, j, s)
    {
      TwiceUnseen(options, batches, s, j);
    }
  }

  lemma FollowedOnTrack(options: Options, batches: seq<seq<Frame>>, later: seq<Frame>)
    requires CountsTwice(options, batches)
    requires |batches| == 1 ==> later == []
    requires |batches| > 1 ==> later != [] && batches[1] != [] && later[0] == batches[1][0]
    ensures later == [] || later[0].isOnTrack
  {
  }

  /** For every run of batches, every stint of the stream is reported if and only if no append loses one. The
      frame counts agree as well if and only if, besides, a first batch does not have its frames counted twice. */
  lemma ReportsAllExactly(exact: bool, options: Options, batches: seq<seq<Frame>>)
    requires AllArrive(batches) && options.minDurationMs > 0
    ensures ReportsAll(exact, options, batches) <==> !Loses(exact, options, batches)
  {
    hide Stints, Joined, Before, LosesAcross, LosesLead, CountsTwice, ReportedWithin, AllArrive;
    if !Loses(exact, options, batches) {
      NoLossReportsAll(exact, options, batches);
    } else if batches != [] && LosesLead(options, batches[0]) {
      var s := LeadIsLost(options, batches);
      Unreported(exact, options, batches, s);
    } else if exact && CountsTwice(options, batches) {
      var s := TwiceIsLost(options, batches);
    } else {
      var k :| 1 <= k < |batches| && LosesAcross(options, Before(batches, k), batches[k]);
      var s := AcrossIsLost(options, batches, k);
      Unreported(exact, options, batches, s);
    }
  }

  // ----- reports are stints of the stream so far -----

  /** Each of the reported stints is one of the others, up to the frame count. */
  ghost predicate AllAmong(reported: seq<Stint>, stints: seq<Stint>) {
    forall r :: r in reported ==> Among(r, stints)
  }

  ghost predicate Among(r: Stint, stints: seq<Stint>) {
    exists s :: s in stints && Same(false, r, s)
  }

  lemma AmongEnd(a: seq<Stint>, b: seq<Stint>)
    ensures AllAmong(b, a + b) && AllAmong([], b)
  {
    forall r | r in b
      ensures Among(r, a + b)
    {
      assert r in a + b && Same(false, r, r);
    }
  }

  lemma AmongBoth(a: seq<Stint>, b: seq<Stint>, stints: seq<Stint>)
    requires AllAmong(a, stints) && AllAmong(b, stints)
    ensures AllAmong(a + b, stints)
  {
    hide Among;
  }

  /** A batch whose first frames do not make the last run of the prefix long enough keeps its own stints. */
  lemma KeepsOwnStints(options: Options, prefix: seq<Frame>, batch: seq<Frame>) returns (earlier: seq<Stint>)
    requires Appended(prefix + batch, prefix, batch) && !EndsOffTrack(batch) && !LosesAcross(options, prefix, batch)
    ensures Stints(options, prefix + batch) == earlier + Stints(options, batch)
  {
    if EndsOffTrack(prefix) && LeadingRun(batch) != [] {
      earlier := KeepsRest(options, prefix, batch);
    } else {
      var rest := LeadParts(batch);
      hide *;
      earlier := Stints(options, prefix);
      StintsConcat(options, prefix, batch);
    }
  }

  lemma KeepsRest(options: Options, prefix: seq<Frame>, batch: seq<Frame>) returns (earlier: seq<Stint>)
    requires Appended(prefix + batch, prefix, batch) && EndsOffTrack(prefix) && LeadingRun(batch) != []
    requires DurationMs(TrailingRun(prefix) + LeadingRun(batch)) < options.minDurationMs
    ensures Stints(options, prefix + batch) == earlier + Stints(options, batch)
  {
    LeadIsShorter(prefix, batch);
    hide *;
    var run, lead := TrailingRun(prefix), LeadingRun(batch);
    var rest := LeadParts(batch);
    OffTrackEnd(prefix);
    JoinedSplit(options, prefix, batch);
    Joins(options, run, lead, rest);
    TooShort(options, run + lead);
    RunInFront(options, lead, rest);
    TooShort(options, lead);
    assert [] + Stints(options, rest) == Stints(options, rest);
    earlier := Stints(options, WithoutTrailingRun(prefix));
  }

  lemma LeadIsShorter(prefix: seq<Frame>, batch: seq<Frame>)
    requires Appended(prefix + batch, prefix, batch) && EndsOffTrack(prefix) && LeadingRun(batch) != []
    ensures TrailingRun(prefix) != []
    ensures DurationMs(LeadingRun(batch)) < DurationMs(TrailingRun(prefix) + LeadingRun(batch))
  {
    var run, lead := TrailingRun(prefix), LeadingRun(batch);
    OffTrackEnd(prefix);
    TrailMember(prefix, run[0]);
    assert (run + lead)[|run + lead| - 1] == lead[|lead| - 1] && lead[0] == batch[0];
  }

  /** A first batch that ends off track reports nothing that is not in it. */
  lemma FirstReportsAmong(options: Options, batches: seq<seq<Frame>>)
    requires AllArrive(batches) && batches != [] && EndsOffTrack(batches[0]) && options.minDurationMs > 0
    ensures AllAmong(ReportedBy(options, batches, 0), Stints(options, batches[0]))
  {
    assert Arrives(batches, 0);
    assert batches[0] != [] && Chronological(batches[0]);
    hide *;
    var batch := batches[0];
    var run, lead := TrailingRun(batch), LeadingRun(batch);
    var rest := LeadParts(batch);
    FirstReport(options, batches);
    OffTrackEnd(batch);
    AmongEnd([], Stints(options, batch));
    assert [] + Stints(options, batch) == Stints(options, batch);
    if lead == batch {
      TwiceAmong(options, batch);
    } else if lead == [] {
      Split(options, batch);
      AmongEnd(Stints(options, WithoutTrailingRun(batch)), Stints(options, run));
      StintsConcat(options, run, batch);
      AmongBoth(Stints(options, run), Stints(options, batch), Stints(options, batch));
    } else {
      BackwardRun(batch);
      Joins(options, run, lead, rest);
      TooShort(options, run + lead);
      RunInFront(options, lead, rest);
      assert [] + Stints(options, rest) == Stints(options, rest);
      AmongEnd(StintOf(options, lead), Stints(options, rest));
    }
  }

  lemma TwiceAmong(options: Options, run: seq<Frame>)
    requires run != [] && AllOff(run)
    ensures AllAmong(Stints(options, run + run), Stints(options, run))
  {
    RunTwice(options, run);
    RunAlone(options, run);
    RunAlone(options, run + run);
    hide Stints;
    forall r | r in StintOf(options, run + run)
      ensures Among(r, StintOf(options, run))
    {
      assert (run + run)[0] == run[0] && (run + run)[|run + run| - 1] == run[|run| - 1];
      var s := r.(frameCount := |run|);
      assert s in StintOf(options, run) && Same(false, r, s);
    }
  }

  /** Unless it loses a stint, an append reports nothing but stints of the stream so far. */
  lemma ReportsAreStints(options: Options, batches: seq<seq<Frame>>, k: nat)
    requires AllArrive(batches) && k < |batches| && options.minDurationMs > 0
    requires !LosesAcross(options, Before(batches, k), batches[k])
    ensures AllAmong(ReportedBy(options, batches, k), Stints(options, Before(batches, k + 1)))
  {
    BeforeNext(batches, k);
    WindowIs(batches, k);
    assert Arrives(batches, k);
    var prefix, batch := Before(batches, k), batches[k];
    hide Stints, Window, Before, TrailingRun, LosesAcross, AllArrive, AllAmong;
    if !EndsOffTrack(batch) {
      var earlier := KeepsOwnStints(options, prefix, batch);
      AmongEnd(earlier, Stints(options, batch));
    } else if k > 0 {
      JoinedSplit(options, prefix, batch);
      AmongEnd(Stints(options, WithoutTrailingRun(prefix)), Stints(options, TrailingRun(prefix) + batch));
    } else {
      FirstAlone(batches);
      FirstReportsAmong(options, batches);
    }
  }

  /** Without a loss, everything the stream holds so far has been reported by now. */
  lemma ReportedSoFar(options: Options, batches: seq<seq<Frame>>, n: nat)
    requires AllArrive(batches) && !Loses(false, options, batches) && 0 < n <= |batches|
    ensures AllWithin(false, options, batches, n, Stints(options, Before(batches, n)))
  {
    var frames := Before(batches, n);
    CoveredAlways(false, options, batches, n);
    Split(options, frames);
    hide Stints, Before, WithoutTrailingRun, TrailingRun, AllWithin, Loses, AllArrive;
    AllOfParts(false, options, batches, n, Stints(options, WithoutTrailingRun(frames)),
               Stints(options, TrailingRun(frames)));
  }

  // ----- inputs on which stints are lost -----

  function FrameAt(timestampUnixMs: int, isOnTrack: bool): Frame {
    Frame(timestampUnixMs, 0.0, 0.0, 0, 0.0, 0.0, 0.0, 0.0, 0.0, 0.0, 0.0, None, None, None, None, None, None, None,
          1, 0, None, None, isOnTrack)
  }

  lemma FirstArrives(batch: seq<Frame>, batches: seq<seq<Frame>>)
    requires batches != [] && batches[0] == batch != [] && Chronological(batch)
    ensures Arrives(batches, 0) && Before(batches, 1) == batch
  {
    BeforeNext(batches, 0);
    assert [] + batch == batch;
    hide Before;
  }

  lemma NextArrives(a: Frame, batch: seq<Frame>, batches: seq<seq<Frame>>)
    requires |batches| == 2 && batches[1] == batch != [] && Chronological(batch) && Before(batches, 1) == [a]
    requires a.timestampUnixMs < batch[0].timestampUnixMs
    ensures Arrives(batches, 1)
  {
    hide Before;
  }

  lemma OneAndTwo(a: Frame, b: Frame, c: Frame)
    requires !a.isOnTrack && !b.isOnTrack && c.isOnTrack
    ensures TrailingRun([a]) == [a] && LeadingRun([b, c]) == [b] && EndsOffTrack([a]) && !EndsOffTrack([b, c])
  {
    TrailIs([a], 0);
    assert [b, c][..1] == [b];
    LeadIs([b, c], 1);
    assert EndsOffTrack([a]) && !EndsOffTrack([b, c]);
    hide *;
  }

  /** Two batches: a frame off track, then one off track and one back on track. */
  lemma BoundaryRun(a: Frame, b: Frame, c: Frame, batches: seq<seq<Frame>>)
    requires |batches| == 2 && batches[0] == [a] && batches[1] == [b, c]
    requires a.timestampUnixMs < b.timestampUnixMs < c.timestampUnixMs
    ensures AllArrive(batches) && Before(batches, 1) == [a]
  {
    assert Chronological([a]) && Chronological([b, c]);
    hide Before, Arrives, Chronological;
    FirstArrives([a], batches);
    NextArrives(a, [b, c], batches);
    forall k | 0 <= k < |batches|
      ensures Arrives(batches, k)
    {
      assert k == 0 || k == 1;
    }
  }

  /** With the default options, 600 milliseconds off track across a boundary are never reported. */
  lemma LostBoundaryStint() returns (batches: seq<seq<Frame>>, s: Stint)
    ensures batches == [[FrameAt(1000, false)], [FrameAt(1600, false), FrameAt(1700, true)]] && AllArrive(batches)
    ensures s == Stint(1, 1000, 1600, 600, 2, 500, Low) && s in Stints(DEFAULT_OPTIONS, Joined(batches))
    ensures !ReportedWithin(false, DEFAULT_OPTIONS, batches, |batches|, s)
  {
    var a, b, c := FrameAt(1000, false), FrameAt(1600, false), FrameAt(1700, true);
    batches := [[a], [b, c]];
    hide Stints, Joined, Before, Arrives, TrailingRun, LeadingRun, ReportedWithin, AllArrive;
    BoundaryRun(a, b, c, batches);
    OneAndTwo(a, b, c);
    assert [a] + [b] == [a, b];
    s := AcrossIsLost(DEFAULT_OPTIONS, batches, 1);
  }

  /** One batch: two frames off track, one back on track, and one off track again. */
  lemma LeadRun(a: Frame, b: Frame, c: Frame, d: Frame, batches: seq<seq<Frame>>)
    requires batches == [[a, b, c, d]]
    requires a.timestampUnixMs < b.timestampUnixMs < c.timestampUnixMs < d.timestampUnixMs
    requires !a.isOnTrack && !b.isOnTrack && c.isOnTrack && !d.isOnTrack
    ensures AllArrive(batches) && LeadingRun(batches[0]) == [a, b] && EndsOffTrack(batches[0])
  {
    BeforeNext(batches, 0);
    assert [a, b, c, d][..2] == [a, b];
    LeadIs([a, b, c, d], 2);
    hide LeadingRun;
    assert Arrives(batches, 0);
  }

  /** With the default options, the 600 milliseconds off track at the start of a session are never reported. */
  lemma LostFirstStint() returns (batches: seq<seq<Frame>>, s: Stint)
    ensures batches == [[FrameAt(1000, false), FrameAt(1600, false), FrameAt(1700, true), FrameAt(1800, false)]]
    ensures AllArrive(batches)
    ensures s == Stint(1, 1000, 1600, 600, 2, 500, Low) && s in Stints(DEFAULT_OPTIONS, Joined(batches))
    ensures !ReportedWithin(false, DEFAULT_OPTIONS, batches, |batches|, s)
  {
    var a, b, c, d := FrameAt(1000, false), FrameAt(1600, false), FrameAt(1700, true), FrameAt(1800, false);
    batches := [[a, b, c, d]];
    hide Stints, Joined, Before, Arrives, TrailingRun, LeadingRun, ReportedWithin, AllArrive;
    LeadRun(a, b, c, d, batches);
    s := LeadIsLost(DEFAULT_OPTIONS, batches);
  }
}
