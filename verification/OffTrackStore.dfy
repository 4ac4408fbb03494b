/** What the deduplicated store accepts of the off-track events that a run of uploads makes. */
module OffTrackStore {
  import opened Prelude
  import opened Telemetry
  import opened OffTrack
  import opened OffTrackRuns
  import opened Dedup

  // ----- events for stints -----

  /** What the deduplication key says about an off-track event, besides the track and layout. */
  datatype Range = Range(lapNumber: int, startMs: int, endMs: int)

  function RangeOf(s: Stint): Range {
    Range(s.lapNumber, s.startMs, s.endMs)
  }

  /** How a session names its off-track events: the key takes the place (the track and layout known at the time). */
  datatype Naming = Naming(key: (string, Range) -> string, id: Range -> string)

  ghost predicate Distinguishes(naming: Naming) {
    forall place, range, place', range' :: naming.key(place, range) == naming.key(place', range') ==>
      place == place' && range == range'
  }

  /** The place that an append has found, and the events of other kinds that it makes. */
  datatype Context = Context(place: string, others: seq<Event>)

  datatype Uploads = Uploads(options: Options, naming: Naming, batches: seq<seq<Frame>>, contexts: seq<Context>)

  ghost predicate Valid(u: Uploads) {
    && |u.contexts| == |u.batches|
    && AllArrive(u.batches) && u.options.minDurationMs > 0
    && Distinguishes(u.naming) && OthersDiffer(u)
  }

  /** An event of another kind never has the key of an off-track event. */
  ghost predicate OthersDiffer(u: Uploads) {
    forall k, e, place, range :: 0 <= k < |u.contexts| && e in u.contexts[k].others ==>
      e.key != u.naming.key(place, range)
  }

  function EventFor(naming: Naming, place: string, s: Stint): Event {
    Event(naming.id(RangeOf(s)), naming.key(place, RangeOf(s)), s.endMs)
  }

  function EventsFor(naming: Naming, place: string, stints: seq<Stint>): seq<Event> {
    seq(|stints|, i requires 0 <= i < |stints| => EventFor(naming, place, stints[i]))
  }

  /** The events of the `k`-th append, in the order in which they go to the store. */
  function MadeBy(u: Uploads, k: nat): seq<Event>
    requires k < |u.batches| == |u.contexts|
  {
    u.contexts[k].others + EventsFor(u.naming, u.contexts[k].place, ReportedBy(u.options, u.batches, k))
  }

  /** The events of the first `n` appends. */
  function Made(u: Uploads, n: nat): seq<Event>
    requires n <= |u.batches| == |u.contexts|
  {
    if n == 0 then [] else Made(u, n - 1) + MadeBy(u, n - 1)
  }

  /** The events that the store has accepted after the first `n` appends. */
  function Stored(u: Uploads, cooldown: int, n: nat): seq<Event>
    requires n <= |u.batches| == |u.contexts|
  {
    Filtered([], Made(u, n), cooldown)
  }

  /** How many events come before the first invalid one. */
  function ValidLength(isValid: Event -> bool, events: seq<Event>): (n: nat)
    ensures n <= |events| && (n < |events| ==> !isValid(events[n]))
    ensures forall i :: 0 <= i < n ==> isValid(events[i])
  {
    if events == [] || !isValid(events[0]) then 0
    else
      var n := 1 + ValidLength(isValid, events[1..]);
      assert forall i :: 0 < i < n ==> events[i] == events[1..][i - 1];
      n
  }

  /** The events of one append go to the store one by one, up to the first that is invalid. */
  method StoreEvents(store: Store, isValid: Event -> bool, events: seq<Event>) returns (r: Result<(), StoreError>)
    requires store.Valid()
    modifies store, store.deduplicator
    ensures store.Valid()
    ensures r.Ok? <==> forall e :: e in events ==> isValid(e)
    ensures store.deduplicator.history
            == old(store.deduplicator.history)
               + Filtered(old(store.deduplicator.history), events[..ValidLength(isValid, events)],
                          store.deduplicator.cooldown)
  {
    hide *;
    ghost var history, cooldown := store.deduplicator.history, store.deduplicator.cooldown;
    NothingFiltered(history, events, cooldown);
    for i := 0 to |events|
      invariant store.Valid() && i <= ValidLength(isValid, events)
      invariant store.deduplicator.history == history + Filtered(history, events[..i], cooldown)
    {
      FilteredOneMore(history, events, i, cooldown);
      var appended := store.Append(isValid, events[i]);
      if appended.Err? {
        return Err(appended.error);
      }
    }
    return Ok(());
  }

  lemma NothingFiltered(history: seq<Event>, events: seq<Event>, cooldown: int)
    ensures history == history + Filtered(history, events[..0], cooldown)
  {
  }

  lemma FilteredOneMore(history: seq<Event>, events: seq<Event>, i: nat, cooldown: int)
    requires i < |events|
    ensures var now := history + Filtered(history, events[..i], cooldown);
            history + Filtered(history, events[..i + 1], cooldown)
            == now + (if Accepts(now, events[i], cooldown) then [events[i]] else [])
  {
    assert events[..i + 1][..i] == events[..i];
    var before := Filtered(history, events[..i], cooldown);
    hide Accepts;
    assert history + (before + [events[i]]) == (history + before) + [events[i]];
  }

  /** One append after the other, the store that starts empty has accepted what `Stored` says. */
  lemma StoredNext(u: Uploads, cooldown: int, n: nat)
    requires n < |u.batches| == |u.contexts|
    ensures Stored(u, cooldown, n + 1)
            == Stored(u, cooldown, n) + Filtered(Stored(u, cooldown, n), MadeBy(u, n), cooldown)
    ensures Stored(u, cooldown, 0) == []
  {
    hide MadeBy;
    FilterSplits([], Made(u, n), MadeBy(u, n), cooldown);
    assert [] + Stored(u, cooldown, n) == Stored(u, cooldown, n);
  }

  // ----- one event for each reported range -----

  ghost predicate HasRange(stints: seq<Stint>, range: Range) {
    exists s :: s in stints && RangeOf(s) == range
  }

  /** The `k`-th append knows the place and reports the range. */
  ghost predicate ReportsRange(u: Uploads, k: nat, place: string, range: Range)
    requires k < |u.batches| == |u.contexts|
  {
    u.contexts[k].place == place && HasRange(ReportedBy(u.options, u.batches, k), range)
  }

  lemma MadeByHas(u: Uploads, k: nat, place: string, range: Range)
    requires Valid(u) && k < |u.batches|
    ensures HasKey(MadeBy(u, k), u.naming.key(place, range)) <==> ReportsRange(u, k, place, range)
    ensures AllAt(MadeBy(u, k), u.naming.key(place, range), range.endMs)
  {
    var stints, key := ReportedBy(u.options, u.batches, k), u.naming.key(place, range);
    var events := EventsFor(u.naming, u.contexts[k].place, stints);
    hide ReportedBy, AllArrive;
    if HasRange(stints, range) {
      var i :| 0 <= i < |stints| && RangeOf(stints[i]) == range;
      assert events[i] in MadeBy(u, k);
    }
  }

  /** One of the first `n` appends knows the place and reports the range. */
  ghost predicate EverReports(u: Uploads, n: nat, place: string, range: Range)
    requires n <= |u.batches| == |u.contexts|
  {
    exists k :: 0 <= k < n && ReportsRange(u, k, place, range)
  }

  lemma EverReportsNext(u: Uploads, n: nat, place: string, range: Range)
    requires n < |u.batches| == |u.contexts|
    ensures EverReports(u, n + 1, place, range) <==> EverReports(u, n, place, range) || ReportsRange(u, n, place, range)
    ensures !EverReports(u, 0, place, range)
    ensures Made(u, n + 1) == Made(u, n) + MadeBy(u, n)
  {
    hide ReportsRange, MadeBy;
  }

  lemma {:induction false} MadeHas(u: Uploads, n: nat, place: string, range: Range)
    requires Valid(u) && |u.batches| == |u.contexts| && n <= |u.batches|
    ensures HasKey(Made(u, n), u.naming.key(place, range)) <==> EverReports(u, n, place, range)
    ensures AllAt(Made(u, n), u.naming.key(place, range), range.endMs)
  {
    if n > 0 {
      hide *;
      MadeHas(u, n - 1, place, range);
      MadeByHas(u, n - 1, place, range);
      EverReportsNext(u, n - 1, place, range);
      KeyOfJoin(Made(u, n - 1), MadeBy(u, n - 1), u.naming.key(place, range), range.endMs);
    }
  }

  lemma KeyOfJoin(a: seq<Event>, b: seq<Event>, key: string, timestampUnixMs: int)
    requires AllAt(a, key, timestampUnixMs) && AllAt(b, key, timestampUnixMs)
    ensures AllAt(a + b, key, timestampUnixMs)
    ensures HasKey(a + b, key) <==> HasKey(a, key) || HasKey(b, key)
  {
    if HasKey(a, key) {
      var e :| e in a && e.key == key;
      assert e in a + b;
    }
    if HasKey(b, key) {
      var e :| e in b && e.key == key;
      assert e in a + b;
    }
  }

  /** However often a range is reported at a place, within one append or by several, and whatever other events come
      between: the store accepts exactly one event for it, and none for a range that is never reported. */
  lemma StoredOnce(u: Uploads, cooldown: int, n: nat, place: string, range: Range)
    requires Valid(u) && |u.batches| == |u.contexts| && n <= |u.batches| && cooldown > 0
    ensures CountWith(Stored(u, cooldown, n), u.naming.key(place, range))
            == if EverReports(u, n, place, range) then 1 else 0
  {
    MadeHas(u, n, place, range);
    hide Valid, Made, EverReports, CountWith, HasKey, AllAt, Filtered;
    AcceptedOnce(Made(u, n), cooldown, u.naming.key(place, range), range.endMs);
  }

  // ----- the stored ranges -----

  ghost predicate IsStored(u: Uploads, cooldown: int, range: Range)
    requires |u.batches| == |u.contexts|
  {
    exists place :: CountWith(Stored(u, cooldown, |u.batches|), u.naming.key(place, range)) > 0
  }

  lemma StoredIfReported(u: Uploads, cooldown: int, range: Range)
    requires Valid(u) && cooldown > 0
    ensures IsStored(u, cooldown, range)
            <==> exists k :: 0 <= k < |u.batches| && HasRange(ReportedBy(u.options, u.batches, k), range)
  {
    hide Stored, CountWith, HasRange, ReportedBy, Distinguishes, OthersDiffer, AllArrive;
    if IsStored(u, cooldown, range) {
      var place :| CountWith(Stored(u, cooldown, |u.batches|), u.naming.key(place, range)) > 0;
      StoredOnce(u, cooldown, |u.batches|, place, range);
    }
    forall k | 0 <= k < |u.batches| && HasRange(ReportedBy(u.options, u.batches, k), range)
      ensures IsStored(u, cooldown, range)
    {
      StoredOnce(u, cooldown, |u.batches|, u.contexts[k].place, range);
      assert ReportsRange(u, k, u.contexts[k].place, range);
    }
  }

  /** Some stint of the first `n` batches, taken as a stream, has the range. */
  ghost predicate IsStintOf(u: Uploads, n: nat, range: Range)
    requires n <= |u.batches|
  {
    HasRange(Stints(u.options, Before(u.batches, n)), range)
  }

  lemma SameHasRange(reported: seq<Stint>, stints: seq<Stint>, range: Range)
    requires AllAmong(reported, stints) && HasRange(reported, range)
    ensures HasRange(stints, range)
  {
    var r :| r in reported && RangeOf(r) == range;
    assert Among(r, stints);
  }

  lemma StintIsReported(u: Uploads, n: nat, range: Range) returns (k: nat)
    requires n <= |u.batches| && IsStintOf(u, n, range)
    requires AllWithin(false, u.options, u.batches, n, Stints(u.options, Before(u.batches, n)))
    ensures k < n && HasRange(ReportedBy(u.options, u.batches, k), range)
  {
    hide ReportedBy, Stints, Before;
    var s :| s in Stints(u.options, Before(u.batches, n)) && RangeOf(s) == range;
    assert ReportedWithin(false, u.options, u.batches, n, s);
    k :| 0 <= k < n && ReportedAt(false, u.options, u.batches, k, s);
    var r :| r in ReportedBy(u.options, u.batches, k) && Same(false, r, s);
  }

  /** If no append loses a stint, the stored ranges are exactly those that some stint of the stream has had after
      one of the appends: a stint that grows leaves one range for each append it was still going on in. */
  lemma StoredAreStintsSoFar(u: Uploads, cooldown: int, range: Range)
    requires Valid(u) && cooldown > 0 && !Loses(false, u.options, u.batches)
    ensures IsStored(u, cooldown, range) <==> exists n :: 1 <= n <= |u.batches| && IsStintOf(u, n, range)
  {
    StoredIfReported(u, cooldown, range);
    hide IsStored, HasRange, ReportedBy, Distinguishes, OthersDiffer, AllArrive, Loses, IsStintOf;
    forall k | 0 <= k < |u.batches| && HasRange(ReportedBy(u.options, u.batches, k), range)
      ensures IsStintOf(u, k + 1, range)
    {
      StintAfter(u, k, range);
    }
    forall n | 1 <= n <= |u.batches| && IsStintOf(u, n, range)
      ensures exists k :: 0 <= k < |u.batches| && HasRange(ReportedBy(u.options, u.batches, k), range)
    {
      ReportedSoFar(u.options, u.batches, n);
      var k := StintIsReported(u, n, range);
    }
  }

  lemma StintAfter(u: Uploads, k: nat, range: Range)
    requires Valid(u) && !Loses(false, u.options, u.batches)
    requires k < |u.batches| && HasRange(ReportedBy(u.options, u.batches, k), range)
    ensures IsStintOf(u, k + 1, range)
  {
    FirstPrefixEnds(u.batches);
    assert !LosesAcross(u.options, Before(u.batches, k), u.batches[k]);
    hide HasRange, ReportedBy, Before, LosesAcross, Loses, Stints, AllAmong;
    ReportsAreStints(u.options, u.batches, k);
    SameHasRange(ReportedBy(u.options, u.batches, k), Stints(u.options, Before(u.batches, k + 1)), range);
  }

  lemma FirstPrefixEnds(batches: seq<seq<Frame>>)
    ensures Before(batches, 0) == [] && !EndsOffTrack(Before(batches, 0))
  {
  }

  // ----- every stint is stored -----

  /** The range of every stint of the whole stream is stored. */
  ghost predicate StoresAll(u: Uploads, cooldown: int)
    requires |u.batches| == |u.contexts|
  {
    forall s :: s in Stints(u.options, Joined(u.batches)) ==> IsStored(u, cooldown, RangeOf(s))
  }

  /** The range of a stint decides all of it but the frame count. */
  lemma StintFromRange(options: Options, frames: seq<Frame>, s: Stint)
    requires s in Stints(options, frames)
    ensures var duration := s.endMs - s.startMs;
            s == Stint(s.lapNumber, s.startMs, s.endMs, duration, s.frameCount, options.minDurationMs,
                       SeverityFor(duration, options.mediumDurationMs, options.highDurationMs))
  {
    StintsReportMaximalRuns(options, frames, s);
    hide Stints;
    var i: nat, j: nat :| IsMaximalRun(frames, i, j) && StintOf(options, frames[i..j]) == [s];
  }

  lemma SameIfRange(options: Options, a: seq<Frame>, b: seq<Frame>, r: Stint, s: Stint)
    requires r in Stints(options, a) && s in Stints(options, b) && RangeOf(r) == RangeOf(s)
    ensures Same(false, r, s)
  {
    StintFromRange(options, a, r);
    StintFromRange(options, b, s);
    hide Stints;
  }

  /** The store ends up with every stint of the stream if and only if no append loses one. */
  lemma StoresAllExactly(u: Uploads, cooldown: int)
    requires Valid(u) && cooldown > 0
    ensures StoresAll(u, cooldown) <==> !Loses(false, u.options, u.batches)
  {
    ReportsAllExactly(false, u.options, u.batches);
    hide Loses, AllArrive, Distinguishes, OthersDiffer, Stints, Joined, IsStored, Window;
    forall s | s in Stints(u.options, Joined(u.batches))
      ensures IsStored(u, cooldown, RangeOf(s))
              <==> ReportedWithin(false, u.options, u.batches, |u.batches|, s)
    {
      StoredIffReported(u, cooldown, s);
    }
  }

  lemma StoredIffReported(u: Uploads, cooldown: int, s: Stint)
    requires Valid(u) && cooldown > 0 && s in Stints(u.options, Joined(u.batches))
    ensures IsStored(u, cooldown, RangeOf(s)) <==> ReportedWithin(false, u.options, u.batches, |u.batches|, s)
  {
    StoredIfReported(u, cooldown, RangeOf(s));
    hide IsStored, AllArrive, Distinguishes, OthersDiffer, Stints, Joined, Window, Same;
    forall k | 0 <= k < |u.batches|
      ensures HasRange(ReportedBy(u.options, u.batches, k), RangeOf(s))
              <==> ReportedAt(false, u.options, u.batches, k, s)
    {
      forall r | r in ReportedBy(u.options, u.batches, k)
        ensures RangeOf(r) == RangeOf(s) <==> Same(false, r, s)
      {
        SameGivesRange(r, s);
        if RangeOf(r) == RangeOf(s) {
          SameIfRange(u.options, Window(u.batches, k), Joined(u.batches), r, s);
        }
      }
    }
  }

  lemma SameGivesRange(r: Stint, s: Stint)
    ensures Same(false, r, s) ==> RangeOf(r) == RangeOf(s)
  {
  }
}
