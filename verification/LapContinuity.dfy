/** The tracker that follows a car along a line, lap after lap, with jitter, reverse and jump handling. */
module LapContinuity {
  import opened Prelude
  import opened Reals
  import opened Circular
  import Centerlines

  datatype Options = Options(jitterToleranceMeters: real, maxForwardDeltaMeters: real, maxReverseDeltaMeters: real)

  datatype State = State(
    initialized: bool,
    closed: bool,
    lapIndex: int,
    lapCount: int,
    distanceMeters: real,
    progress: real,
    forwardDeltaMeters: real,
    reverseDeltaMeters: real,
    totalForwardMeters: real,
    wrappedStartFinishLine: bool,
    reversed: bool,
    largeJump: bool,
    accepted: bool)

  const DEFAULT_OPTIONS := Options(1.0, 250.0, 25.0)

  const ZERO_STATE := State(false, false, 0, 0, 0.0, 0.0, 0.0, 0.0, 0.0, false, false, false, false)

  function NormalizeOptions(options: Options): Options {
    Options(
      if options.jitterToleranceMeters < 0.0 then DEFAULT_OPTIONS.jitterToleranceMeters
      else options.jitterToleranceMeters,
      if options.maxForwardDeltaMeters <= 0.0 then DEFAULT_OPTIONS.maxForwardDeltaMeters
      else options.maxForwardDeltaMeters,
      if options.maxReverseDeltaMeters <= 0.0 then DEFAULT_OPTIONS.maxReverseDeltaMeters
      else options.maxReverseDeltaMeters)
  }

  function ClampOpenDistance(distance: real, total: real): real {
    if distance < 0.0 then 0.0 else if distance > total then total else distance
  }

  /** One call of Update: a reported distance on a line of the given length and kind. */
  datatype Call = Call(distanceMeters: real, totalMeters: real, closed: bool)

  /** The place on the line that a call reports. */
  function Place(call: Call): real {
    if call.closed then NormalizeDistance(call.distanceMeters, call.totalMeters)
    else ClampOpenDistance(call.distanceMeters, call.totalMeters)
  }

  function Fresh(call: Call): State {
    ZERO_STATE.(initialized := true, closed := call.closed, distanceMeters := Place(call),
                progress := Centerlines.NormalizedProgress(Place(call), call.totalMeters, call.closed),
                accepted := true)
  }

  function Cleared(s: State): State {
    s.(forwardDeltaMeters := 0.0, reverseDeltaMeters := 0.0, wrappedStartFinishLine := false,
       reversed := false, largeJump := false, accepted := false)
  }

  function Delta(from: real, to: real, total: real): real {
    match ForwardDelta(from, to, total)
    case Ok(delta) => delta
    case Err(_) => 0.0
  }

  function UpdateClosed(options: Options, s: State, distance: real, progress: real, total: real): State {
    var forward, reverse := Delta(s.distanceMeters, distance, total), Delta(distance, s.distanceMeters, total);
    if forward <= options.jitterToleranceMeters || reverse <= options.jitterToleranceMeters then s.(accepted := true)
    else if forward <= options.maxForwardDeltaMeters && forward < reverse then
      var advanced := s.(forwardDeltaMeters := forward, totalForwardMeters := s.totalForwardMeters + forward,
                         distanceMeters := distance, progress := progress, accepted := true);
      if distance < s.distanceMeters then
        advanced.(wrappedStartFinishLine := true, lapIndex := s.lapIndex + 1, lapCount := s.lapCount + 1)
      else advanced
    else if reverse <= options.maxReverseDeltaMeters then
      s.(reverseDeltaMeters := reverse, reversed := true, distanceMeters := distance, progress := progress,
         accepted := true)
    else s.(largeJump := true)
  }

  function UpdateOpen(options: Options, s: State, distance: real, progress: real): State {
    var delta := distance - s.distanceMeters;
    if Abs(delta) <= options.jitterToleranceMeters then s.(accepted := true)
    else if delta > 0.0 && delta <= options.maxForwardDeltaMeters then
      s.(forwardDeltaMeters := delta, totalForwardMeters := s.totalForwardMeters + delta,
         distanceMeters := distance, progress := progress, accepted := true)
    else if delta < 0.0 && Abs(delta) <= options.maxReverseDeltaMeters then
      s.(reverseDeltaMeters := Abs(delta), reversed := true, distanceMeters := distance, progress := progress,
         accepted := true)
    else s.(largeJump := true)
  }

  function Step(options: Options, s: State, call: Call): State {
    if call.totalMeters <= 0.0 then s
    else if !s.initialized || s.closed != call.closed then Fresh(call)
    else
      var progress := Centerlines.NormalizedProgress(Place(call), call.totalMeters, call.closed);
      if call.closed then UpdateClosed(options, Cleared(s), Place(call), progress, call.totalMeters)
      else UpdateOpen(options, Cleared(s), Place(call), progress)
  }

  class Tracker {
    const options: Options
    var state: State

    constructor (options: Options)
      ensures this.options == NormalizeOptions(options)
      ensures this.options.jitterToleranceMeters
              == if options.jitterToleranceMeters >= 0.0 then options.jitterToleranceMeters else 1.0
      ensures this.options.maxForwardDeltaMeters
              == if options.maxForwardDeltaMeters > 0.0 then options.maxForwardDeltaMeters else 250.0
      ensures this.options.maxReverseDeltaMeters
              == if options.maxReverseDeltaMeters > 0.0 then options.maxReverseDeltaMeters else 25.0
      ensures state == ZERO_STATE
    {
      this.options := NormalizeOptions(options);
      state := ZERO_STATE;
    }

    method Reset()
      modifies this
      ensures state == ZERO_STATE
    {
      state := ZERO_STATE;
    }

    method Update(distanceMeters: real, totalMeters: real, closed: bool) returns (r: Result<State, LengthError>)
      modifies this
      ensures state == Step(options, old(state), Call(distanceMeters, totalMeters, closed))
      ensures r == if totalMeters <= 0.0 then Err(InvalidTrackLength) else Ok(state)
    {
      if totalMeters <= 0.0 {
        return Err(InvalidTrackLength);
      }
      var currentDistance := ClampOpenDistance(distanceMeters, totalMeters);
      if closed {
        currentDistance := NormalizeDistance(distanceMeters, totalMeters);
      }
      var currentProgress := Centerlines.NormalizedProgress(currentDistance, totalMeters, closed);
      if !state.initialized || state.closed != closed {
        state := State(true, closed, 0, 0, currentDistance, currentProgress, 0.0, 0.0, 0.0, false, false, false, true);
        return Ok(state);
      }
      var next := state;
      next := next.(forwardDeltaMeters := 0.0, reverseDeltaMeters := 0.0, wrappedStartFinishLine := false);
      next := next.(reversed := false, largeJump := false, accepted := false);
      if closed {
        next := AdvanceClosed(next, currentDistance, currentProgress, totalMeters);
      } else {
        next := AdvanceOpen(next, currentDistance, currentProgress);
      }
      state := next;
      return Ok(state);
    }

    method AdvanceClosed(from: State, currentDistance: real, currentProgress: real, totalMeters: real)
      returns (s: State)
      ensures s == UpdateClosed(options, from, currentDistance, currentProgress, totalMeters)
    {
      hide Delta;
      s := from;
      var forwardDelta := Delta(s.distanceMeters, currentDistance, totalMeters);
      var reverseDelta := Delta(currentDistance, s.distanceMeters, totalMeters);
      if forwardDelta <= options.jitterToleranceMeters || reverseDelta <= options.jitterToleranceMeters {
        s := s.(accepted := true);
        return;
      }
      if forwardDelta <= options.maxForwardDeltaMeters && forwardDelta < reverseDelta {
        s := s.(forwardDeltaMeters := forwardDelta, totalForwardMeters := s.totalForwardMeters + forwardDelta);
        if currentDistance < s.distanceMeters {
          s := s.(wrappedStartFinishLine := true, lapIndex := s.lapIndex + 1, lapCount := s.lapCount + 1);
        }
        s := s.(distanceMeters := currentDistance, progress := currentProgress, accepted := true);
        return;
      }
      if reverseDelta <= options.maxReverseDeltaMeters {
        s := s.(reverseDeltaMeters := reverseDelta, reversed := true);
        s := s.(distanceMeters := currentDistance, progress := currentProgress, accepted := true);
        return;
      }
      s := s.(largeJump := true);
    }

    method AdvanceOpen(from: State, currentDistance: real, currentProgress: real) returns (s: State)
      ensures s == UpdateOpen(options, from, currentDistance, currentProgress)
    {
      s := from;
      var delta := currentDistance - s.distanceMeters;
      if Abs(delta) <= options.jitterToleranceMeters {
        s := s.(accepted := true);
        return;
      }
      if delta > 0.0 && delta <= options.maxForwardDeltaMeters {
        s := s.(forwardDeltaMeters := delta, totalForwardMeters := s.totalForwardMeters + delta);
        s := s.(distanceMeters := currentDistance, progress := currentProgress, accepted := true);
        return;
      }
      if delta < 0.0 && Abs(delta) <= options.maxReverseDeltaMeters {
        s := s.(reverseDeltaMeters := Abs(delta), reversed := true);
        s := s.(distanceMeters := currentDistance, progress := currentProgress, accepted := true);
        return;
      }
      s := s.(largeJump := true);
    }
  }

  // ----- whole runs -----

  /** The state after the calls, the last one last, on a fresh tracker. */
  function Run(options: Options, calls: seq<Call>): State {
    if calls == [] then ZERO_STATE else Step(options, Run(options, calls[..|calls| - 1]), calls[|calls| - 1])
  }

  /** What an observer of the returned states adds up since the tracker last started over: the place it
      started from, the metres forward and reversed, the start-finish lines crossed forward, and those crossed
      backward. */
  datatype Ledger = Ledger(start: real, forwardMeters: real, reversedMeters: real, forwardCrossings: int,
                           backwardCrossings: int)

  function Observe(ledger: Ledger, before: State, after: State): Ledger {
    if !before.initialized || before.closed != after.closed then Ledger(after.distanceMeters, 0.0, 0.0, 0, 0)
    else
      ledger.(forwardMeters := ledger.forwardMeters + after.forwardDeltaMeters,
              reversedMeters := ledger.reversedMeters + after.reverseDeltaMeters,
              forwardCrossings := ledger.forwardCrossings + (if after.wrappedStartFinishLine then 1 else 0),
              backwardCrossings := ledger.backwardCrossings
                                   + (if after.reversed && after.distanceMeters > before.distanceMeters then 1 else 0))
  }

  function RunLedger(options: Options, calls: seq<Call>): Ledger {
    if calls == [] then Ledger(0.0, 0.0, 0.0, 0, 0)
    else
      var before, call := calls[..|calls| - 1], calls[|calls| - 1];
      if call.totalMeters <= 0.0 then RunLedger(options, before)
      else Observe(RunLedger(options, before), Run(options, before), Run(options, calls))
  }

  /** Every call on a closed line is about a line of length `total`, or is refused for its length. */
  ghost predicate OneLoop(calls: seq<Call>, total: real) {
    forall i :: 0 <= i < |calls| ==> calls[i].closed ==> calls[i].totalMeters == total || calls[i].totalMeters <= 0.0
  }

  /** The conservation law between a state and the ledger of the run that led to it. */
  ghost predicate Conserves(s: State, ledger: Ledger, total: real) {
    && s.lapIndex == s.lapCount == ledger.forwardCrossings
    && s.totalForwardMeters == ledger.forwardMeters
    && (!s.initialized ==> s == ZERO_STATE)
    && (s.initialized && s.closed ==>
          && 0.0 <= s.distanceMeters < total && s.distanceMeters == Times(total, s.progress)
          && ledger.start + s.totalForwardMeters - ledger.reversedMeters
             == Turns(total, s.lapCount - ledger.backwardCrossings) + s.distanceMeters)
    && (s.initialized && !s.closed ==>
          && s.lapCount == 0
          && ledger.start + s.totalForwardMeters - ledger.reversedMeters == s.distanceMeters)
  }

  /** A call names the nearest place on an open line and the congruent place on a loop. */
  lemma PlaceSpec(call: Call, other: real)
    requires call.totalMeters > 0.0
    ensures 0.0 <= Place(call) <= call.totalMeters
    ensures call.closed ==>
              Place(call) < call.totalMeters && Congruent(call.distanceMeters, Place(call), call.totalMeters)
    ensures !call.closed && 0.0 <= other <= call.totalMeters ==>
              Abs(Place(call) - call.distanceMeters) <= Abs(other - call.distanceMeters)
  {
    if call.closed {
      NormalizeSpec(call.distanceMeters, call.totalMeters);
    }
    hide NormalizeDistance, Congruent;
  }

  /** Progress times the length of the line is the place. */
  lemma ProgressIsPlace(call: Call)
    requires call.totalMeters > 0.0
    ensures Place(call) == Times(call.totalMeters,
                                 Centerlines.NormalizedProgress(Place(call), call.totalMeters, call.closed))
  {
    var total, place := call.totalMeters, Place(call);
    PlaceSpec(call, 0.0);
    TimesUnits(total);
    QuotientTimes(place, total);
    if call.closed {
      NormalizeFixed(place, total);
    }
    hide Place, NormalizeDistance, Times;
  }

  lemma ClosedStep(options: Options, s: State, ledger: Ledger, call: Call, total: real)
    requires total > 0.0 && call.closed && call.totalMeters == total
    requires Conserves(s, ledger, total) && s.initialized && s.closed
    ensures var next := Step(options, s, call); Conserves(next, Observe(ledger, s, next), total)
  {
    var p := Place(call);
    NormalizeSpec(call.distanceMeters, total);
    NormalizeFixed(s.distanceMeters, total);
    NormalizeFixed(p, total);
    var n := s.lapCount - ledger.backwardCrossings;
    TurnsAdd(total, n, 1);
    TurnsAdd(total, n, -1);
    TurnsAdd(total, 0, 1);
    ProgressIsPlace(call);
    hide NormalizeDistance, Turns, Centerlines.NormalizedProgress, Congruent, Times;
    var next := Step(options, s, call);
    if next.reversed && p > s.distanceMeters {
      assert next.lapCount - Observe(ledger, s, next).backwardCrossings == n + -1;
    } else if next.wrappedStartFinishLine {
      assert next.lapCount - Observe(ledger, s, next).backwardCrossings == n + 1;
    }
  }

  /** Over every run: metres forward, less metres reversed, plus the start, are whole loops for the lines
      crossed forward less backward, plus the current place. An open line has no loops. */
  lemma {:induction false} WindingConservation(options: Options, calls: seq<Call>, total: real)
    requires total > 0.0 && OneLoop(calls, total)
    ensures Conserves(Run(options, calls), RunLedger(options, calls), total)
  {
    if calls == [] {
      return;
    }
    var before, call := calls[..|calls| - 1], calls[|calls| - 1];
    WindingConservation(options, before, total);
    var s, ledger := Run(options, before), RunLedger(options, before);
    hide Times, Turns;
    if call.totalMeters <= 0.0 {
    } else if !s.initialized || s.closed != call.closed {
      FreshConserves(options, s, ledger, call, total);
    } else if call.closed {
      ClosedStep(options, s, ledger, call, total);
    }
  }

  lemma FreshConserves(options: Options, s: State, ledger: Ledger, call: Call, total: real)
    requires total > 0.0 && (call.closed ==> call.totalMeters == total) && call.totalMeters > 0.0
    requires !s.initialized || s.closed != call.closed
    ensures var next := Step(options, s, call); Conserves(next, Observe(ledger, s, next), total)
  {
    NormalizeSpec(call.distanceMeters, total);
    ProgressIsPlace(call);
    TurnsAdd(total, 0, 0);
    hide NormalizeDistance, Turns, Centerlines.NormalizedProgress, Congruent, Times;
  }

  /** The call makes the tracker start over. */
  predicate StartsOver(s: State, call: Call) {
    call.totalMeters > 0.0 && (!s.initialized || s.closed != call.closed)
  }

  /** The call takes the tracker back over the line: the reverse delta is the one that counts, and the reported
      place lies ahead of the tracked one. */
  predicate CrossesBackward(options: Options, s: State, call: Call) {
    && s.initialized && s.closed && call.closed && call.totalMeters > 0.0
    && var forward := Delta(s.distanceMeters, Place(call), call.totalMeters);
       var reverse := Delta(Place(call), s.distanceMeters, call.totalMeters);
       && forward > options.jitterToleranceMeters
       && options.jitterToleranceMeters < reverse <= options.maxReverseDeltaMeters
       && !(forward <= options.maxForwardDeltaMeters && forward < reverse)
       && Place(call) > s.distanceMeters
  }

  /** Some call crosses the line backward, and the tracker does not start over afterwards. */
  ghost predicate CrossedBackward(options: Options, calls: seq<Call>) {
    exists k :: 0 <= k < |calls| && CrossesBackward(options, Run(options, calls[..k]), calls[k])
                && forall j :: k < j < |calls| ==> !StartsOver(Run(options, calls[..j]), calls[j])
  }

  lemma CrossedBackwardNext(options: Options, calls: seq<Call>, call: Call)
    ensures var s := Run(options, calls);
            CrossedBackward(options, calls + [call])
            <==> CrossesBackward(options, s, call) || (CrossedBackward(options, calls) && !StartsOver(s, call))
  {
    var longer, n := calls + [call], |calls|;
    hide CrossesBackward, StartsOver, Run;
    assert longer[..n] == calls;
    assert forall k :: 0 <= k < n ==> longer[..k] == calls[..k] && longer[k] == calls[k];
    if CrossedBackward(options, calls) && !StartsOver(Run(options, calls), call) {
      var k :| 0 <= k < n && CrossesBackward(options, Run(options, calls[..k]), calls[k])
               && forall j :: k < j < n ==> !StartsOver(Run(options, calls[..j]), calls[j]);
      assert CrossesBackward(options, Run(options, longer[..k]), longer[k]);
    }
    if CrossesBackward(options, Run(options, calls), call) {
      assert CrossesBackward(options, Run(options, longer[..n]), longer[n]);
    }
    if CrossedBackward(options, longer) {
      var k :| 0 <= k <= n && CrossesBackward(options, Run(options, longer[..k]), longer[k])
               && forall j :: k < j <= n ==> !StartsOver(Run(options, longer[..j]), longer[j]);
      if k < n {
        assert !StartsOver(Run(options, longer[..n]), longer[n]);
        assert CrossesBackward(options, Run(options, calls[..k]), calls[k]);
      }
    }
  }

  /** One call adds a backward crossing to the ledger exactly if it crosses backward. */
  lemma CrossingObserved(options: Options, s: State, ledger: Ledger, call: Call)
    requires call.totalMeters > 0.0
    ensures Observe(ledger, s, Step(options, s, call)).backwardCrossings
            == if StartsOver(s, call) then 0
               else ledger.backwardCrossings + (if CrossesBackward(options, s, call) then 1 else 0)
  {
    hide Delta, Place, Centerlines.NormalizedProgress;
    if !s.closed && !call.closed && s.initialized {
      assert !CrossesBackward(options, s, call);
    }
  }

  /** The ledger counts a backward crossing exactly if some call since the last start crosses backward. */
  lemma {:induction false} BackwardCrossingsSpec(options: Options, calls: seq<Call>)
    ensures RunLedger(options, calls).backwardCrossings >= 0
    ensures RunLedger(options, calls).backwardCrossings > 0 <==> CrossedBackward(options, calls)
  {
    if calls != [] {
      var earlier, call := calls[..|calls| - 1], calls[|calls| - 1];
      assert earlier + [call] == calls;
      BackwardCrossingsSpec(options, earlier);
      CrossedBackwardNext(options, earlier, call);
      if call.totalMeters > 0.0 {
        CrossingObserved(options, Run(options, earlier), RunLedger(options, earlier), call);
      }
      hide Step, Observe, Delta, Place, CrossedBackward;
    }
  }

  lemma ConservedLoops(s: State, ledger: Ledger, total: real)
    requires Conserves(s, ledger, total) && s.initialized && s.closed
    ensures 0.0 <= s.distanceMeters < total
    ensures ledger.start + s.totalForwardMeters - ledger.reversedMeters
            == Turns(total, s.lapCount - ledger.backwardCrossings) + s.distanceMeters
  {
  }

  /** The reported lap count is the number of whole loops driven exactly if no call takes the car back over the
      line. */
  lemma LapCountIsNetLoops(options: Options, calls: seq<Call>, total: real)
    requires total > 0.0 && OneLoop(calls, total)
    requires Run(options, calls).initialized && Run(options, calls).closed
    ensures var s, ledger := Run(options, calls), RunLedger(options, calls);
            var driven := ledger.start + s.totalForwardMeters - ledger.reversedMeters;
            Turns(total, s.lapCount) <= driven < Turns(total, s.lapCount + 1) <==> !CrossedBackward(options, calls)
  {
    hide *;
    WindingConservation(options, calls, total);
    BackwardCrossingsSpec(options, calls);
    var s, ledger := Run(options, calls), RunLedger(options, calls);
    ConservedLoops(s, ledger, total);
    NetLoops(ledger.start + s.totalForwardMeters - ledger.reversedMeters, s.distanceMeters, total, s.lapCount,
             ledger.backwardCrossings);
  }

  /** The tracked place and the lap count after the calls. */
  ghost predicate Tracks(calls: seq<Call>, distance: real, laps: int, forward: real, reversed: real) {
    var s, ledger := Run(DEFAULT_OPTIONS, calls), RunLedger(DEFAULT_OPTIONS, calls);
    && s.initialized && s.closed && s.distanceMeters == distance && s.lapCount == laps
    && s.totalForwardMeters == forward && ledger.start == 990.0 && ledger.reversedMeters == reversed
  }

  lemma TracksNext(calls: seq<Call>, from: real, laps: int, forward: real, reversed: real, place: real)
    requires Tracks(calls, from, laps, forward, reversed)
    requires (from == 990.0 && place == 5.0) || (from == 5.0 && place == 990.0)
    ensures var more := calls + [Call(place, 1000.0, true)];
            if from == 990.0 then Tracks(more, 5.0, laps + 1, forward + 15.0, reversed)
            else Tracks(more, 990.0, laps, forward, reversed + 15.0)
  {
    var call := Call(place, 1000.0, true);
    assert (calls + [call])[..|calls|] == calls;
    NormalizeFixed(place, 1000.0);
    NormalizeFixed(from, 1000.0);
    hide NormalizeDistance, Centerlines.NormalizedProgress;
    var s := Run(DEFAULT_OPTIONS, calls);
    assert Delta(from, place, 1000.0) == if from == 990.0 then 15.0 else 985.0;
    assert Delta(place, from, 1000.0) == if from == 990.0 then 985.0 else 15.0;
    hide Delta;
    assert Run(DEFAULT_OPTIONS, calls + [call]) == Step(DEFAULT_OPTIONS, s, call);
  }

  /** Forward over the line, back over it and forward again: two laps are counted for one loop driven. */
  lemma ReversedLapCountedTwice()
    ensures var there, back := Call(990.0, 1000.0, true), Call(5.0, 1000.0, true);
            var calls := [there, back, there, back];
            var s, ledger := Run(DEFAULT_OPTIONS, calls), RunLedger(DEFAULT_OPTIONS, calls);
            && s.lapCount == 2
            && Turns(1000.0, 1) <= ledger.start + s.totalForwardMeters - ledger.reversedMeters < Turns(1000.0, 2)
  {
    hide *;
    var there, back := Call(990.0, 1000.0, true), Call(5.0, 1000.0, true);
    FirstTracked(there);
    TracksNext([there], 990.0, 0, 0.0, 0.0, 5.0);
    TracksNext([there] + [back], 5.0, 1, 15.0, 0.0, 990.0);
    TracksNext([there] + [back] + [there], 990.0, 1, 15.0, 15.0, 5.0);
    FourCalls(there, back);
    TrackedTwice([there, back, there, back]);
  }

  lemma FourCalls(a: Call, b: Call)
    ensures [a] + [b] + [a] + [b] == [a, b, a, b]
  {
  }

  lemma FirstTracked(call: Call)
    requires call == Call(990.0, 1000.0, true)
    ensures Tracks([call], 990.0, 0, 0.0, 0.0)
  {
    NormalizeFixed(990.0, 1000.0);
    assert [call][..0] == [];
    hide NormalizeDistance, Centerlines.NormalizedProgress;
    assert Run(DEFAULT_OPTIONS, [call]) == Fresh(call);
  }

  lemma TrackedTwice(calls: seq<Call>)
    requires Tracks(calls, 5.0, 2, 30.0, 15.0)
    ensures var s, ledger := Run(DEFAULT_OPTIONS, calls), RunLedger(DEFAULT_OPTIONS, calls);
            && s.lapCount == 2
            && Turns(1000.0, 1) <= ledger.start + s.totalForwardMeters - ledger.reversedMeters < Turns(1000.0, 2)
  {
    hide Run, RunLedger;
  }

  lemma NetLoops(driven: real, place: real, total: real, laps: int, backward: int)
    requires 0.0 <= place < total && driven == Turns(total, laps - backward) + place
    ensures Turns(total, laps) <= driven < Turns(total, laps + 1) <==> backward == 0
  {
    TurnsAdd(total, laps, -backward);
    TurnsAdd(total, laps, 1);
    TurnsAdd(total, 0, backward);
    TurnsLarge(total, backward);
    hide Turns;
  }

  /** How far the reported place is from the tracked one, the shorter way round on a loop. */
  function Apart(s: State, call: Call): real {
    if call.closed then
      var forward := Delta(s.distanceMeters, Place(call), call.totalMeters);
      var reverse := Delta(Place(call), s.distanceMeters, call.totalMeters);
      if forward < reverse then forward else reverse
    else Abs(Place(call) - s.distanceMeters)
  }

  /** The reported place can be reached: by a forward step within its limit that is the shorter way round, or by a
      reverse step within its limit. */
  predicate InReach(options: Options, s: State, call: Call) {
    if call.closed then
      var forward := Delta(s.distanceMeters, Place(call), call.totalMeters);
      var reverse := Delta(Place(call), s.distanceMeters, call.totalMeters);
      (forward < reverse && forward <= options.maxForwardDeltaMeters) || reverse <= options.maxReverseDeltaMeters
    else -options.maxReverseDeltaMeters <= Place(call) - s.distanceMeters <= options.maxForwardDeltaMeters
  }

  /** The step is either forward or in reverse, and is counted as what it is: around a loop as the delta in that
      direction, on an open line as the difference of the places. A forward step to a place behind has crossed the
      line. */
  ghost predicate Advances(s: State, call: Call, next: State) {
    && next.totalForwardMeters == s.totalForwardMeters + next.forwardDeltaMeters
    && next.wrappedStartFinishLine == (call.closed && !next.reversed && Place(call) < s.distanceMeters)
    && next.lapCount == s.lapCount + (if next.wrappedStartFinishLine then 1 else 0)
    && (if next.reversed then next.forwardDeltaMeters == 0.0 else next.reverseDeltaMeters == 0.0)
    && if call.closed then
         if next.reversed then next.reverseDeltaMeters == Delta(Place(call), s.distanceMeters, call.totalMeters)
         else next.forwardDeltaMeters == Delta(s.distanceMeters, Place(call), call.totalMeters)
       else next.forwardDeltaMeters - next.reverseDeltaMeters == Place(call) - s.distanceMeters
  }

  /** A call without a line is refused. One within the jitter tolerance is accepted and moves nothing; one out of
      reach is a large jump and moves nothing either; every other call is accepted and lands on the place. */
  lemma MovesOrStands(options: Options, s: State, call: Call)
    requires s.initialized && s.closed == call.closed
    requires options == NormalizeOptions(options)
    ensures call.totalMeters <= 0.0 ==> Step(options, s, call) == s
    ensures var next := Step(options, s, call);
            var jitter := Apart(s, call) <= options.jitterToleranceMeters;
            call.totalMeters > 0.0 ==>
            && next.accepted == (jitter || InReach(options, s, call)) && next.largeJump == !next.accepted
            && next.distanceMeters == (if jitter || next.largeJump then s.distanceMeters else Place(call))
            && (jitter || next.largeJump ==>
                  && next.progress == s.progress && next.lapCount == s.lapCount
                  && next.totalForwardMeters == s.totalForwardMeters
                  && next.forwardDeltaMeters == next.reverseDeltaMeters == 0.0)
            && (!jitter && !next.largeJump ==>
                  && Place(call) == Times(call.totalMeters, next.progress) && Advances(s, call, next)
                  && next.forwardDeltaMeters + next.reverseDeltaMeters > options.jitterToleranceMeters)
  {
    if call.totalMeters > 0.0 {
      ProgressIsPlace(call);
    }
    hide Delta, Place, Centerlines.NormalizedProgress, Times;
  }

  /** The first call, and one on the other kind of line, are accepted and start a count of their own at the place. */
  lemma StartsAnew(options: Options, s: State, call: Call)
    requires StartsOver(s, call)
    ensures var next := Step(options, s, call);
            && next.accepted && !next.largeJump && next.closed == call.closed && next.initialized
            && next.distanceMeters == Place(call) == Times(call.totalMeters, next.progress)
            && next.lapCount == next.lapIndex == 0 && next.totalForwardMeters == 0.0
  {
    ProgressIsPlace(call);
    hide Place, Centerlines.NormalizedProgress, Times;
  }
}
