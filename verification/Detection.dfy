/** Detecting the track layout from the length of the first completed lap. */
module Detection {
  import opened Prelude
  import opened Reals
  import opened Geometry
  import opened Telemetry
  import opened Ordering
  import opened Catalog

  datatype Options = Options(minCompletedLapFrames: int, lengthToleranceRatio: real, ambiguousScoreMargin: real,
                             minDetectedConfidence: real)

  const DEFAULT_OPTIONS := Options(20, 0.03, 0.05, 0.65)

  /** Options that are not positive are replaced by the defaults. */
  function NormalizeOptions(options: Options): (r: Options)
    ensures r.minCompletedLapFrames > 0 && r.lengthToleranceRatio > 0.0 && r.ambiguousScoreMargin > 0.0
    ensures r.minDetectedConfidence > 0.0
    ensures options.minCompletedLapFrames > 0 ==> r.minCompletedLapFrames == options.minCompletedLapFrames
    ensures options.lengthToleranceRatio > 0.0 ==> r.lengthToleranceRatio == options.lengthToleranceRatio
    ensures options.ambiguousScoreMargin > 0.0 ==> r.ambiguousScoreMargin == options.ambiguousScoreMargin
    ensures options.minDetectedConfidence > 0.0 ==> r.minDetectedConfidence == options.minDetectedConfidence
  {
    Options(
      if options.minCompletedLapFrames <= 0 then DEFAULT_OPTIONS.minCompletedLapFrames
      else options.minCompletedLapFrames,
      if options.lengthToleranceRatio <= 0.0 then DEFAULT_OPTIONS.lengthToleranceRatio
      else options.lengthToleranceRatio,
      if options.ambiguousScoreMargin <= 0.0 then DEFAULT_OPTIONS.ambiguousScoreMargin
      else options.ambiguousScoreMargin,
      if options.minDetectedConfidence <= 0.0 then DEFAULT_OPTIONS.minDetectedConfidence
      else options.minDetectedConfidence)
  }

  // ----- the observed length -----

  function FrameDistance(sqrt: real -> real, a: Frame, b: Frame): real {
    Distance(sqrt, Point(a.positionX, a.positionY, a.positionZ), Point(b.positionX, b.positionY, b.positionZ))
  }

  /** The distance driven from frame `first` to frame `last` over the hops with both ends on track. */
  function OnTrackLength(sqrt: real -> real, frames: seq<Frame>, first: nat, last: nat): real
    requires first <= last < |frames|
    decreases last - first
  {
    if first == last then 0.0
    else
      OnTrackLength(sqrt, frames, first, last - 1)
      + (if frames[last].isOnTrack && frames[last - 1].isOnTrack
         then FrameDistance(sqrt, frames[last - 1], frames[last])
         else 0.0)
  }

  /** The distance adds up over the parts of a drive, and one hop counts only with both of its ends on track. */
  lemma {:induction false} OnTrackLengthAdds(sqrt: real -> real, frames: seq<Frame>, first: nat, middle: nat, last: nat)
    requires first <= middle <= last < |frames|
    ensures OnTrackLength(sqrt, frames, first, last)
            == OnTrackLength(sqrt, frames, first, middle) + OnTrackLength(sqrt, frames, middle, last)
    ensures last == first + 1 ==>
              var (a, b) := (frames[first], frames[last]);
              OnTrackLength(sqrt, frames, first, last)
              == if a.isOnTrack && b.isOnTrack
                 then Distance(sqrt, Point(a.positionX, a.positionY, a.positionZ),
                               Point(b.positionX, b.positionY, b.positionZ))
                 else 0.0
    decreases last - middle
  {
    if middle < last {
      OnTrackLengthAdds(sqrt, frames, first, middle, last - 1);
    }
    hide Distance;
  }

  /** A lap starts with the first frame, and wherever the lap number exceeds all earlier ones. */
  predicate StartsLap(frames: seq<Frame>, i: nat)
    requires i < |frames|
  {
    forall j :: 0 <= j < i ==> frames[j].lapNumber < frames[i].lapNumber
  }

  /** The last start of a lap before frame `i`. */
  ghost predicate IsLapStart(frames: seq<Frame>, start: nat, i: nat)
    requires i <= |frames|
  {
    start < i && StartsLap(frames, start) && forall j :: start < j < i ==> !StartsLap(frames, j)
  }

  /** The lap from `start` is completed at frame `i`, the first of the next lap, with enough frames (both ends
      included) and some distance on track. */
  ghost predicate Completes(sqrt: real -> real, frames: seq<Frame>, minFrames: int, start: nat, i: nat) {
    && i < |frames| && IsLapStart(frames, start, i) && StartsLap(frames, i)
    && i - start + 1 >= minFrames && OnTrackLength(sqrt, frames, start, i) > 0.0
  }

  ghost predicate NoneCompletes(sqrt: real -> real, frames: seq<Frame>, minFrames: int, n: nat) {
    forall start: nat, i: nat :: start < i < n ==> !Completes(sqrt, frames, minFrames, start, i)
  }

  /** The length of the first lap completed. */
  ghost predicate IsObserved(sqrt: real -> real, frames: seq<Frame>, minFrames: int, length: real) {
    exists start: nat, i: nat ::
      && Completes(sqrt, frames, minFrames, start, i) && NoneCompletes(sqrt, frames, minFrames, i)
      && length == OnTrackLength(sqrt, frames, start, i)
  }

  method ObservedCompletedLapLength(sqrt: real -> real, frames: seq<Frame>, minFrames: int) returns (r: Option<real>)
    requires minFrames > 0
    ensures r.None? <==> NoneCompletes(sqrt, frames, minFrames, |frames|)
    ensures r.Some? ==> IsObserved(sqrt, frames, minFrames, r.value)
  {
    if |frames| < minFrames {
      return None;
    }
    var currentLap, currentLength, currentSamples := 0, 0.0, 0;
    var started := false;
    ghost var start: nat := 0;
    for i := 0 to |frames|
      invariant started <==> i > 0
      invariant i == 0 ==> start == 0 && currentLength == 0.0
      invariant i > 0 ==> IsLapStart(frames, start, i) && currentLap == frames[start].lapNumber
      invariant i > 0 ==> forall j :: 0 <= j < i ==> frames[j].lapNumber <= currentLap
      invariant i > 0 ==> currentLength == OnTrackLength(sqrt, frames, start, i - 1) && currentSamples == i - start
      invariant NoneCompletes(sqrt, frames, minFrames, i)
    {
      var frame := frames[i];
      if !started {
        currentLap := frame.lapNumber;
        currentSamples := 1;
        started := true;
        continue;
      }
      var previous := frames[i - 1];
      hide FrameDistance;
      if frame.isOnTrack && previous.isOnTrack {
        currentLength := currentLength + FrameDistance(sqrt, previous, frame);
      }
      currentSamples := currentSamples + 1;
      LapStartUnique(frames, start, i);
      assert StartsLap(frames, i) <==> frame.lapNumber > currentLap;
      if frame.lapNumber > currentLap {
        if currentSamples >= minFrames && currentLength > 0.0 {
          assert Completes(sqrt, frames, minFrames, start, i);
          return Some(currentLength);
        }
        currentLap := frame.lapNumber;
        currentLength := 0.0;
        currentSamples := 1;
        start := i;
      }
    }
    return None;
  }

  lemma LapStartUnique(frames: seq<Frame>, start: nat, i: nat)
    requires i <= |frames| && IsLapStart(frames, start, i)
    ensures forall other: nat :: IsLapStart(frames, other, i) ==> other == start
  {
  }

  // ----- matching the catalog -----

  datatype Candidate = Candidate(trackId: string, trackName: string, layoutId: string, layoutName: string,
                                 lengthMeters: real, difference: real, confidence: real)

  predicate Selectable(entry: Entry) {
    && entry.trackId != "" && entry.trackName != "" && entry.layout.id != "" && entry.layout.name != ""
    && entry.trackSources != [] && entry.layout.sources != []
    && SourcesFault(entry.trackSources, 0).None? && SourcesFault(entry.layout.sources, 0).None?
  }

  function Allowed(length: real, ratio: real): real {
    Times(length, ratio)
  }

  /** The candidate that an entry makes for an observed length, if it is selectable and within tolerance. */
  function MatchOf(entry: Entry, observed: real, ratio: real): (r: seq<Candidate>)
    ensures |r| <= 1
  {
    var length := entry.layout.lengthMeters;
    var difference := Abs(observed - length);
    if !Selectable(entry) || length <= 0.0 || difference > Allowed(length, ratio) then []
    else
      [Candidate(entry.trackId, entry.trackName, entry.layout.id, entry.layout.name, length, difference,
                 Confidence(difference, Allowed(length, ratio)))]
  }

  function Confidence(difference: real, allowed: real): real {
    if allowed > 0.0 then 0.65 + 0.20 * (1.0 - difference / allowed) else 0.85
  }

  function Matches(entries: seq<Entry>, observed: real, ratio: real): seq<Candidate> {
    Flat((entry: Entry) => MatchOf(entry, observed, ratio), entries)
  }

  /** The more confident candidate first, and among equally confident ones the smaller layout id. */
  predicate Better(a: Candidate, b: Candidate) {
    if a.confidence == b.confidence then StringLess(a.layoutId, b.layoutId) else a.confidence > b.confidence
  }

  lemma BetterTotal(a: Candidate, b: Candidate)
    ensures Better(a, b) || Better(b, a) || (a.confidence == b.confidence && a.layoutId == b.layoutId)
    ensures !(Better(a, b) && Better(b, a)) && !Better(a, a)
  {
    StringLessTotal(a.layoutId, b.layoutId);
    StringLessTotal(a.layoutId, a.layoutId);
    hide StringLess;
  }

  lemma BetterIsOrder()
    ensures StrictWeakOrder(Better)
  {
    forall a: Candidate, b: Candidate, c: Candidate
      ensures Better(a, b) ==> !Better(b, a)
      ensures !Better(b, a) && !Better(c, b) ==> !Better(c, a)
    {
      StringLessTotal(a.layoutId, b.layoutId);
      StringLessTotal(b.layoutId, c.layoutId);
      StringLessTotal(a.layoutId, c.layoutId);
      if StringLess(c.layoutId, a.layoutId) {
        if StringLess(a.layoutId, b.layoutId) { StringLessTransitive(c.layoutId, a.layoutId, b.layoutId); }
        if StringLess(b.layoutId, c.layoutId) { StringLessTransitive(b.layoutId, c.layoutId, a.layoutId); }
      }
      hide StringLess;
    }
  }

  /** A ranking of the matches: any arrangement of them that the comparison allows. */
  ghost predicate IsRanking(candidates: seq<Candidate>, tracks: seq<Track>, observed: real, ratio: real) {
    multiset(candidates) == multiset(Matches(Entries(tracks), observed, ratio)) && Sorted(Better, candidates)
  }

  lemma MatchesNext(entries: seq<Entry>, next: Entry, observed: real, ratio: real)
    ensures Matches(entries + [next], observed, ratio)
            == Matches(entries, observed, ratio) + MatchOf(next, observed, ratio)
  {
    var f := (entry: Entry) => MatchOf(entry, observed, ratio);
    FlatConcat(f, entries, [next]);
    FlatOne(f, next);
    hide MatchOf, Flat;
  }

  method MatchingCandidates(tracks: seq<Track>, observed: real, ratio: real) returns (candidates: seq<Candidate>)
    ensures IsRanking(candidates, tracks, observed, ratio)
  {
    candidates := [];
    hide Selectable, Confidence, Allowed;
    for i := 0 to |tracks|
      invariant candidates == Matches(Entries(tracks[..i]), observed, ratio)
    {
      var track := tracks[i];
      assert tracks[..i + 1][..i] == tracks[..i];
      ghost var before := Entries(tracks[..i]);
      assert before + TrackEntries(track)[..0] == before;
      for j := 0 to |track.layouts|
        invariant candidates == Matches(before + TrackEntries(track)[..j], observed, ratio)
      {
        var layout := track.layouts[j];
        var entry := Entry(track.id, track.name, track.sources, layout);
        MatchesNext(before + TrackEntries(track)[..j], entry, observed, ratio);
        assert before + TrackEntries(track)[..j + 1] == before + TrackEntries(track)[..j] + [entry];
        if !Selectable(entry) {
          continue;
        }
        if layout.lengthMeters <= 0.0 {
          continue;
        }
        var difference := Abs(observed - layout.lengthMeters);
        var allowed := Allowed(layout.lengthMeters, ratio);
        if difference > allowed {
          continue;
        }
        candidates := candidates + [Candidate(track.id, track.name, layout.id, layout.name, layout.lengthMeters,
                                              difference, Confidence(difference, allowed))];
      }
      assert TrackEntries(track)[..|track.layouts|] == TrackEntries(track);
    }
    assert tracks[..|tracks|] == tracks;
    BetterIsOrder();
    SortBySorted(Better, candidates);
    candidates := SortBy(Better, candidates);
  }

  // ----- the verdict -----

  datatype PendingReason = NoCompletedLap | InsufficientData

  datatype Detection =
    | Pending(reason: PendingReason)
    | Unknown(observed: real)
    | Ambiguous(observed: real, evidence: seq<Candidate>)
    | LowConfidence(observed: real, best: Candidate)
    | Detected(observed: real, best: Candidate)

  /** The candidates within the margin of the best. */
  function CloseTo(candidates: seq<Candidate>, bestConfidence: real, margin: real): seq<Candidate> {
    if candidates == [] then []
    else
      var n := |candidates| - 1;
      var before := CloseTo(candidates[..n], bestConfidence, margin);
      if bestConfidence - candidates[n].confidence > margin then before else before + [candidates[n]]
  }

  method AmbiguousEvidence(candidates: seq<Candidate>, margin: real) returns (evidence: seq<Candidate>)
    requires candidates != []
    ensures evidence == CloseTo(candidates, candidates[0].confidence, margin)
  {
    evidence := [];
    for i := 0 to |candidates|
      invariant evidence == CloseTo(candidates[..i], candidates[0].confidence, margin)
    {
      assert candidates[..i + 1][..i] == candidates[..i];
      if candidates[0].confidence - candidates[i].confidence > margin {
        continue;
      }
      evidence := evidence + [candidates[i]];
    }
    assert candidates[..|candidates|] == candidates;
  }

  function Classified(candidates: seq<Candidate>, observed: real, options: Options): Detection {
    if candidates == [] then Unknown(observed)
    else
      var best := candidates[0];
      if |candidates| > 1 && (best.difference > 0.0 || candidates[1].difference == 0.0)
         && best.confidence - candidates[1].confidence <= options.ambiguousScoreMargin then
        Ambiguous(observed, CloseTo(candidates, best.confidence, options.ambiguousScoreMargin))
      else if best.confidence < options.minDetectedConfidence then LowConfidence(observed, best)
      else Detected(observed, best)
  }

  /** The result for the given frames and catalog. Layouts that compare equal may be ranked either way. */
  ghost predicate IsDetection(sqrt: real -> real, frames: seq<Frame>, tracks: seq<Track>, options: Options,
                              r: Detection)
  {
    var o := NormalizeOptions(options);
    if NoneCompletes(sqrt, frames, o.minCompletedLapFrames, |frames|) then
      r == Pending(if |frames| < o.minCompletedLapFrames then InsufficientData else NoCompletedLap)
    else
      exists observed: real, candidates ::
        && IsObserved(sqrt, frames, o.minCompletedLapFrames, observed)
        && IsRanking(candidates, tracks, observed, o.lengthToleranceRatio)
        && r == Classified(candidates, observed, o)
  }

  method DetectTrack(sqrt: real -> real, frames: seq<Frame>, tracks: seq<Track>, requested: Options)
    returns (r: Detection)
    ensures IsDetection(sqrt, frames, tracks, requested, r)
  {
    var options := NormalizeOptions(requested);
    var observed := ObservedCompletedLapLength(sqrt, frames, options.minCompletedLapFrames);
    if observed.None? {
      return Pending(if |frames| < options.minCompletedLapFrames then InsufficientData else NoCompletedLap);
    }
    hide NoneCompletes, IsObserved, IsRanking, NormalizeOptions;
    var candidates := MatchingCandidates(tracks, observed.value, options.lengthToleranceRatio);
    if |candidates| == 0 {
      return Unknown(observed.value);
    }
    var best := candidates[0];
    if |candidates| > 1 && (best.difference > 0.0 || candidates[1].difference == 0.0)
       && best.confidence - candidates[1].confidence <= options.ambiguousScoreMargin {
      var evidence := AmbiguousEvidence(candidates, options.ambiguousScoreMargin);
      return Ambiguous(observed.value, evidence);
    }
    if best.confidence < options.minDetectedConfidence {
      return LowConfidence(observed.value, best);
    }
    return Detected(observed.value, best);
  }

  // ----- which layouts are candidates -----

  /** The layout is complete, and its length is within the tolerance of the observed one. */
  ghost predicate Fits(entry: Entry, observed: real, ratio: real) {
    var length := entry.layout.lengthMeters;
    && entry.trackId != "" && entry.trackName != "" && entry.layout.id != "" && entry.layout.name != ""
    && entry.trackSources != [] && Complete(entry.trackSources)
    && entry.layout.sources != [] && Complete(entry.layout.sources)
    && length > 0.0 && -Times(ratio, length) <= observed - length <= Times(ratio, length)
  }

  /** `c` describes the entry. Its confidence is 0.85 less the part of 0.20 that the difference is of the tolerance. */
  ghost predicate Describes(c: Candidate, entry: Entry, observed: real, ratio: real) {
    var length := entry.layout.lengthMeters;
    && c.trackId == entry.trackId && c.trackName == entry.trackName
    && c.layoutId == entry.layout.id && c.layoutName == entry.layout.name && c.lengthMeters == length
    && c.difference >= 0.0 && (c.difference == observed - length || c.difference == length - observed)
    && Times(Times(ratio, length), 0.85 - c.confidence) == 0.20 * c.difference
  }

  lemma ConfidenceLaw(difference: real, allowed: real, confidence: real)
    requires allowed > 0.0
    ensures Times(allowed, 0.85 - confidence) == 0.20 * difference <==> confidence == Confidence(difference, allowed)
  {
    var q := Quotient(difference, allowed);
    TimesScaled(allowed, q);
    hide Times;
    var right := 0.85 - 0.20 * q;
    assert Confidence(difference, allowed) == right;
    if Times(allowed, 0.85 - confidence) == Times(allowed, 0.20 * q) {
      EqualFactors(allowed, 0.85 - confidence, 0.20 * q);
    }
  }

  lemma TimesScaled(u: real, v: real)
    ensures Times(u, 0.20 * v) == 0.20 * Times(u, v)
  {
  }

  lemma MatchExactly(entry: Entry, observed: real, ratio: real, c: Candidate)
    requires ratio > 0.0
    ensures c in MatchOf(entry, observed, ratio)
            <==> Fits(entry, observed, ratio) && Describes(c, entry, observed, ratio)
    ensures MatchOf(entry, observed, ratio) == [] <==> !Fits(entry, observed, ratio)
  {
    var length := entry.layout.lengthMeters;
    SourcesComplete(entry.trackSources, 0);
    SourcesComplete(entry.layout.sources, 0);
    TimesCommutes(ratio, length);
    hide SourcesFault, CompleteFrom;
    if length > 0.0 {
      TimesUnits(length);
      TimesStrict(length, 0.0, ratio);
      ConfidenceLaw(Abs(observed - length), Allowed(length, ratio), c.confidence);
    }
    hide Times, Confidence;
  }

  /** Some layout of the catalog fits, and `c` describes it. */
  ghost predicate IsCandidate(c: Candidate, tracks: seq<Track>, observed: real, ratio: real) {
    exists e :: e in Entries(tracks) && Fits(e, observed, ratio) && Describes(c, e, observed, ratio)
  }

  lemma {:induction false} MatchesExactly(entries: seq<Entry>, observed: real, ratio: real, c: Candidate)
    requires ratio > 0.0
    ensures c in Matches(entries, observed, ratio)
            <==> exists e :: e in entries && Fits(e, observed, ratio) && Describes(c, e, observed, ratio)
  {
    if entries != [] {
      var before, next := entries[..|entries| - 1], entries[|entries| - 1];
      assert before + [next] == entries;
      MatchesExactly(before, observed, ratio, c);
      MatchesNext(before, next, observed, ratio);
      MatchExactly(next, observed, ratio, c);
      hide Matches, MatchOf, Fits, Describes;
      assert forall e :: e in entries <==> e in before || e == next;
    }
  }

  /** A ranking holds exactly the candidates: one for every layout of the catalog that fits, and no other. The more
      confident come first, and equally confident ones by layout id. */
  lemma RankedExactly(candidates: seq<Candidate>, tracks: seq<Track>, observed: real, ratio: real, c: Candidate)
    requires IsRanking(candidates, tracks, observed, ratio) && ratio > 0.0
    ensures c in candidates <==> IsCandidate(c, tracks, observed, ratio)
    ensures forall e :: e in Entries(tracks) && Fits(e, observed, ratio) ==>
              exists d :: d in candidates && Describes(d, e, observed, ratio)
    ensures forall i, j :: 0 <= i < j < |candidates| ==>
              candidates[i].confidence > candidates[j].confidence
              || (candidates[i].confidence == candidates[j].confidence
                  && !StringLess(candidates[j].layoutId, candidates[i].layoutId))
  {
    assert forall i, j :: 0 <= i < j < |candidates| ==> !Better(candidates[j], candidates[i]);
    var entries := Entries(tracks);
    PermutationMembers(candidates, Matches(entries, observed, ratio));
    MatchesExactly(entries, observed, ratio, c);
    forall e | e in entries && Fits(e, observed, ratio)
      ensures exists d :: d in candidates && Describes(d, e, observed, ratio)
    {
      assert MatchOf(e, observed, ratio) != [] by {
        MatchExactly(e, observed, ratio, c);
      }
      var d := MatchOf(e, observed, ratio)[0];
      MatchExactly(e, observed, ratio, d);
      MatchesExactly(entries, observed, ratio, d);
    }
  }

  // ----- confidence -----

  /** `c` is the candidate of one of the entries. */
  ghost predicate IsMatch(c: Candidate, observed: real, ratio: real) {
    && c.lengthMeters > 0.0 && c.difference == Abs(observed - c.lengthMeters)
    && c.difference <= Allowed(c.lengthMeters, ratio)
    && c.confidence == Confidence(c.difference, Allowed(c.lengthMeters, ratio))
  }

  lemma {:induction false} MatchesAreMatches(entries: seq<Entry>, observed: real, ratio: real)
    ensures forall c :: c in Matches(entries, observed, ratio) ==> IsMatch(c, observed, ratio)
  {
    if entries != [] {
      var n := |entries| - 1;
      MatchesAreMatches(entries[..n], observed, ratio);
      assert entries[..n] + [entries[n]] == entries;
      MatchesNext(entries[..n], entries[n], observed, ratio);
      hide Matches, Allowed, Confidence, Selectable;
    }
  }

  /** How far off the length is, relative to the layout's own. */
  ghost function RelativeError(c: Candidate): real
    requires c.lengthMeters > 0.0
  {
    c.difference / c.lengthMeters
  }

  /** Confidence runs from 0.65 at the edge of the tolerance to 0.85 for an exact match. */
  lemma ConfidenceRange(c: Candidate, observed: real, ratio: real)
    requires IsMatch(c, observed, ratio) && ratio > 0.0
    ensures 0.65 <= c.confidence <= 0.85
    ensures c.confidence == 0.85 <==> c.difference == 0.0
    ensures c.difference >= 0.0
  {
    TimesUnits(c.lengthMeters);
    TimesStrict(c.lengthMeters, 0.0, ratio);
    var allowed := Allowed(c.lengthMeters, ratio);
    var q := Quotient(c.difference, allowed);
    QuotientSign(c.difference, allowed);
    TimesUnits(allowed);
    hide Times;
    if q > 1.0 {
      TimesStrict(allowed, 1.0, q);
    }
  }

  /** The share of the tolerance that the error uses up. */
  lemma ErrorShare(c: Candidate, observed: real, ratio: real) returns (share: real)
    requires IsMatch(c, observed, ratio) && ratio > 0.0
    ensures c.confidence == 0.65 + 0.20 * (1.0 - share)
    ensures RelativeError(c) == Times(ratio, share)
  {
    TimesUnits(c.lengthMeters);
    TimesStrict(c.lengthMeters, 0.0, ratio);
    share := Quotient(c.difference, Allowed(c.lengthMeters, ratio));
    var error := Quotient(c.difference, c.lengthMeters);
    TimesAssociates(c.lengthMeters, ratio, share);
    var scaled := Times(ratio, share);
    hide Times;
    if error < scaled { TimesStrict(c.lengthMeters, error, scaled); }
    if scaled < error { TimesStrict(c.lengthMeters, scaled, error); }
  }

  /** The more confident of two candidates is the one with the smaller relative error. */
  lemma ConfidenceIsRelativeError(a: Candidate, b: Candidate, observed: real, ratio: real)
    requires IsMatch(a, observed, ratio) && IsMatch(b, observed, ratio) && ratio > 0.0
    ensures a.confidence > b.confidence <==> RelativeError(a) < RelativeError(b)
    ensures a.confidence == b.confidence <==> RelativeError(a) == RelativeError(b)
  {
    var p := ErrorShare(a, observed, ratio);
    var q := ErrorShare(b, observed, ratio);
    hide Times;
    if p < q { TimesStrict(ratio, p, q); }
    if q < p { TimesStrict(ratio, q, p); }
  }

  // ----- order of the catalog -----

  function LayoutId(c: Candidate): string {
    c.layoutId
  }

  function EntryLayoutId(entry: Entry): string {
    entry.layout.id
  }

  /** Catalog ids are unique. */
  ghost predicate UniqueLayouts(tracks: seq<Track>) {
    DistinctBy(EntryLayoutId, Entries(tracks))
  }

  lemma {:induction false} DistinctMatches(entries: seq<Entry>, observed: real, ratio: real)
    requires DistinctBy(EntryLayoutId, entries)
    ensures DistinctBy(LayoutId, Matches(entries, observed, ratio))
    ensures forall c :: c in Matches(entries, observed, ratio) ==>
              exists k :: 0 <= k < |entries| && entries[k].layout.id == c.layoutId
  {
    if entries != [] {
      var n := |entries| - 1;
      DistinctMatches(entries[..n], observed, ratio);
      assert entries[..n] + [entries[n]] == entries;
      MatchesNext(entries[..n], entries[n], observed, ratio);
      var before := Matches(entries[..n], observed, ratio);
      hide Matches, Allowed, Confidence, Selectable;
      forall c | c in before
        ensures exists k :: 0 <= k < n && entries[k].layout.id == c.layoutId
      {
        var k :| 0 <= k < n && entries[..n][k].layout.id == c.layoutId;
        assert entries[k].layout.id == c.layoutId;
      }
      assert forall i :: 0 <= i < |before| ==> before[i] in before;
    }
  }

  lemma RankingIsStrict(candidates: seq<Candidate>, tracks: seq<Track>, observed: real, ratio: real)
    requires UniqueLayouts(tracks) && IsRanking(candidates, tracks, observed, ratio)
    ensures StrictlySorted(Better, candidates)
  {
    var matches := Matches(Entries(tracks), observed, ratio);
    DistinctMatches(Entries(tracks), observed, ratio);
    DistinctPermuted(LayoutId, matches, candidates);
    hide Better;
    forall i, j | 0 <= i < j < |candidates|
      ensures Better(candidates[i], candidates[j])
    {
      BetterTotal(candidates[i], candidates[j]);
    }
  }

  lemma ObservedUnique(sqrt: real -> real, frames: seq<Frame>, minFrames: int, a: real, b: real)
    requires IsObserved(sqrt, frames, minFrames, a) && IsObserved(sqrt, frames, minFrames, b)
    ensures a == b
  {
    var s: nat, i: nat :| Completes(sqrt, frames, minFrames, s, i) && NoneCompletes(sqrt, frames, minFrames, i)
                          && a == OnTrackLength(sqrt, frames, s, i);
    var t: nat, j: nat :| Completes(sqrt, frames, minFrames, t, j) && NoneCompletes(sqrt, frames, minFrames, j)
                          && b == OnTrackLength(sqrt, frames, t, j);
    assert i == j;
    LapStartUnique(frames, s, i);
    hide OnTrackLength;
  }

  lemma SameRanking(a: seq<Candidate>, t: seq<Track>, b: seq<Candidate>, u: seq<Track>, observed: real, ratio: real)
    requires UniqueLayouts(t) && multiset(Entries(t)) == multiset(Entries(u))
    requires IsRanking(a, t, observed, ratio) && IsRanking(b, u, observed, ratio)
    ensures a == b
  {
    FlatPermuted((entry: Entry) => MatchOf(entry, observed, ratio), Entries(t), Entries(u));
    RankingIsStrict(a, t, observed, ratio);
    SortedIsUnique(Better, a, b);
  }

  /** With unique layout ids the result depends only on which layouts the catalog lists. */
  lemma DetectionIgnoresOrder(sqrt: real -> real, frames: seq<Frame>, t: seq<Track>, u: seq<Track>, options: Options,
                              r: Detection, q: Detection)
    requires UniqueLayouts(t) && multiset(Entries(t)) == multiset(Entries(u))
    requires IsDetection(sqrt, frames, t, options, r) && IsDetection(sqrt, frames, u, options, q)
    ensures r == q
  {
    var o := NormalizeOptions(options);
    hide NoneCompletes, IsObserved, IsRanking, UniqueLayouts, Entries, NormalizeOptions, Classified;
    if !NoneCompletes(sqrt, frames, o.minCompletedLapFrames, |frames|) {
      var a: real, first :| IsObserved(sqrt, frames, o.minCompletedLapFrames, a)
                            && IsRanking(first, t, a, o.lengthToleranceRatio) && r == Classified(first, a, o);
      var b: real, second :| IsObserved(sqrt, frames, o.minCompletedLapFrames, b)
                             && IsRanking(second, u, b, o.lengthToleranceRatio) && q == Classified(second, b, o);
      ObservedUnique(sqrt, frames, o.minCompletedLapFrames, a, b);
      SameRanking(first, t, second, u, a, o.lengthToleranceRatio);
    }
  }

  /** The same catalog with the layouts of each track, and then the tracks, in another order. */
  ghost predicate Rearranged(t: seq<Track>, u: seq<Track>) {
    exists v: seq<Track> ::
      && multiset(v) == multiset(u) && |v| == |t|
      && forall k :: 0 <= k < |t| ==> SameTrack(t[k], v[k])
  }

  ghost predicate SameTrack(a: Track, b: Track) {
    a.id == b.id && a.name == b.name && a.sources == b.sources && multiset(a.layouts) == multiset(b.layouts)
  }

  lemma TrackEntriesFlat(track: Track, n: nat)
    requires n <= |track.layouts|
    ensures TrackEntries(track)[..n]
            == Flat((layout: Layout) => [Entry(track.id, track.name, track.sources, layout)], track.layouts[..n])
  {
    if n > 0 {
      TrackEntriesFlat(track, n - 1);
      assert track.layouts[..n][..n - 1] == track.layouts[..n - 1];
    }
  }

  lemma SameTrackEntries(a: Track, b: Track)
    requires SameTrack(a, b)
    ensures multiset(TrackEntries(a)) == multiset(TrackEntries(b))
  {
    TrackEntriesFlat(a, |a.layouts|);
    TrackEntriesFlat(b, |b.layouts|);
    assert a.layouts[..|a.layouts|] == a.layouts && b.layouts[..|b.layouts|] == b.layouts;
    assert TrackEntries(a)[..|a.layouts|] == TrackEntries(a) && TrackEntries(b)[..|b.layouts|] == TrackEntries(b);
    var f := (layout: Layout) => [Entry(a.id, a.name, a.sources, layout)];
    FlatPermuted(f, a.layouts, b.layouts);
  }

  lemma {:induction false} SameTracksEntries(t: seq<Track>, v: seq<Track>)
    requires |t| == |v| && forall k :: 0 <= k < |t| ==> SameTrack(t[k], v[k])
    ensures multiset(Entries(t)) == multiset(Entries(v))
  {
    hide TrackEntries;
    if t != [] {
      var n := |t| - 1;
      SameTracksEntries(t[..n], v[..n]);
      SameTrackEntries(t[n], v[n]);
    }
  }

  /** Rearranging tracks and layouts does not change what is detected. */
  lemma DetectionIgnoresRearrangement(sqrt: real -> real, frames: seq<Frame>, t: seq<Track>, u: seq<Track>,
                                      options: Options, r: Detection, q: Detection)
    requires UniqueLayouts(t) && Rearranged(t, u)
    requires IsDetection(sqrt, frames, t, options, r) && IsDetection(sqrt, frames, u, options, q)
    ensures r == q
  {
    var v :| multiset(v) == multiset(u) && |v| == |t| && forall k :: 0 <= k < |t| ==> SameTrack(t[k], v[k]);
    SameTracksEntries(t, v);
    FlatPermuted(TrackEntries, v, u);
    hide IsDetection, UniqueLayouts;
    DetectionIgnoresOrder(sqrt, frames, t, u, options, r, q);
  }

  // ----- when a layout is detected -----

  /** Among the matches `best` has the smallest relative error, and every other match is further from the observed
      length by more than the margin in confidence, or not exact while `best` is. */
  ghost predicate WinsClearly(best: Candidate, matches: seq<Candidate>, margin: real) {
    && best in matches && best.lengthMeters > 0.0
    && forall c :: c in matches && c.layoutId != best.layoutId ==>
         && c.lengthMeters > 0.0 && RelativeError(best) < RelativeError(c)
         && (best.confidence - c.confidence > margin || (best.difference == 0.0 && c.difference > 0.0))
  }

  lemma RunnerUpDecides(candidates: seq<Candidate>, observed: real, options: Options)
    requires StrictlySorted(Better, candidates) && DistinctBy(LayoutId, candidates) && candidates != []
    requires options.lengthToleranceRatio > 0.0 && options.ambiguousScoreMargin > 0.0
    requires forall c :: c in candidates ==> IsMatch(c, observed, options.lengthToleranceRatio)
    ensures Classified(candidates, observed, options).Ambiguous?
            <==> !WinsClearly(candidates[0], candidates, options.ambiguousScoreMargin)
  {
    var best, margin := candidates[0], options.ambiguousScoreMargin;
    assert best in candidates;
    forall k | 1 <= k < |candidates|
      ensures candidates[k] in candidates && candidates[k].lengthMeters > 0.0
      ensures candidates[k].confidence <= best.confidence <= 0.85
      ensures candidates[k].layoutId != best.layoutId
      ensures candidates[k].difference >= 0.0
      ensures candidates[k].confidence == 0.85 <==> candidates[k].difference == 0.0
      ensures best.confidence > candidates[k].confidence <==> RelativeError(best) < RelativeError(candidates[k])
    {
      ConfidenceRange(candidates[k], observed, options.lengthToleranceRatio);
      ConfidenceRange(best, observed, options.lengthToleranceRatio);
      ConfidenceIsRelativeError(best, candidates[k], observed, options.lengthToleranceRatio);
      assert Better(candidates[0], candidates[k]);
    }
    ConfidenceRange(best, observed, options.lengthToleranceRatio);
    forall k | 2 <= k < |candidates|
      ensures candidates[k].confidence <= candidates[1].confidence
    {
      assert Better(candidates[1], candidates[k]);
    }
    hide IsMatch, Better, StringLess, RelativeError;
  }

  /** Only the first of the ranking can win clearly. */
  lemma WinnerIsFirst(candidates: seq<Candidate>, observed: real, options: Options, best: Candidate)
    requires StrictlySorted(Better, candidates) && DistinctBy(LayoutId, candidates)
    requires options.lengthToleranceRatio > 0.0
    requires forall c :: c in candidates ==> IsMatch(c, observed, options.lengthToleranceRatio)
    requires WinsClearly(best, candidates, options.ambiguousScoreMargin)
    ensures candidates != [] && best == candidates[0]
  {
    var k :| 0 <= k < |candidates| && candidates[k] == best;
    if k > 0 {
      assert Better(candidates[0], candidates[k]);
      assert LayoutId(candidates[0]) != LayoutId(candidates[k]);
      assert candidates[0] in candidates;
      ConfidenceIsRelativeError(best, candidates[0], observed, options.lengthToleranceRatio);
    }
  }

  /** `best` is the candidate with the smallest relative error, and every other one is further from the observed
      length by more than the margin in confidence, or not exact while `best` is. */
  ghost predicate Wins(best: Candidate, tracks: seq<Track>, observed: real, ratio: real, margin: real) {
    && IsCandidate(best, tracks, observed, ratio) && best.lengthMeters > 0.0
    && forall c :: IsCandidate(c, tracks, observed, ratio) && c.layoutId != best.layoutId ==>
         && c.lengthMeters > 0.0 && RelativeError(best) < RelativeError(c)
         && (best.confidence - c.confidence > margin || (best.difference == 0.0 && c.difference > 0.0))
  }

  /** The layouts in question when none wins: those within the margin of every candidate. */
  ghost predicate InQuestion(c: Candidate, tracks: seq<Track>, observed: real, ratio: real, margin: real) {
    && IsCandidate(c, tracks, observed, ratio)
    && forall d :: IsCandidate(d, tracks, observed, ratio) ==> d.confidence - c.confidence <= margin
  }

  /** A layout is detected exactly if it wins clearly with enough confidence; the same winner without enough
      confidence is reported as such, which takes a required confidence above the default 0.65. Nothing is known
      exactly if no layout of the catalog fits, and the result is ambiguous exactly if some fit and none wins. */
  lemma DetectedExactly(sqrt: real -> real, frames: seq<Frame>, tracks: seq<Track>, options: Options, r: Detection,
                        observed: real, best: Candidate)
    requires UniqueLayouts(tracks) && IsDetection(sqrt, frames, tracks, options, r)
    requires !NoneCompletes(sqrt, frames, NormalizeOptions(options).minCompletedLapFrames, |frames|)
    requires IsObserved(sqrt, frames, NormalizeOptions(options).minCompletedLapFrames, observed)
    ensures var o := NormalizeOptions(options);
            var ratio, margin := o.lengthToleranceRatio, o.ambiguousScoreMargin;
            var wins := Wins(best, tracks, observed, ratio, margin);
            && (r == Unknown(observed) <==> forall e :: e in Entries(tracks) ==> !Fits(e, observed, ratio))
            && (r == Detected(observed, best) <==> wins && best.confidence >= o.minDetectedConfidence)
            && (r == LowConfidence(observed, best) <==> wins && best.confidence < o.minDetectedConfidence)
            && (o.minDetectedConfidence <= 0.65 ==> !r.LowConfidence?)
            && !r.Pending? && r.observed == observed
            && (r.Ambiguous? ==>
                  !wins && forall c :: c in r.evidence <==> InQuestion(c, tracks, observed, ratio, margin))
  {
    var o := NormalizeOptions(options);
    var ratio, margin := o.lengthToleranceRatio, o.ambiguousScoreMargin;
    var matches := Matches(Entries(tracks), observed, ratio);
    var candidates := TheRanking(sqrt, frames, tracks, options, r, observed);
    PermutationMembers(matches, candidates);
    MatchesAreMatches(Entries(tracks), observed, ratio);
    DistinctMatches(Entries(tracks), observed, ratio);
    DistinctPermuted(LayoutId, matches, candidates);
    RankingIsStrict(candidates, tracks, observed, ratio);
    hide Matches, Entries, NormalizeOptions, IsDetection, UniqueLayouts, NoneCompletes, IsObserved;
    hide IsRanking, IsMatch, Better, Classified, WinsClearly, Wins, InQuestion, Fits, IsCandidate;
    AllRanked(candidates, tracks, observed, ratio);
    SameWinners(candidates, tracks, observed, ratio, margin, best);
    VerdictOfRanking(candidates, observed, o, best);
    if r.Ambiguous? {
      EvidenceInQuestion(candidates, tracks, observed, o);
    }
  }

  lemma AllRanked(candidates: seq<Candidate>, tracks: seq<Track>, observed: real, ratio: real)
    requires IsRanking(candidates, tracks, observed, ratio) && ratio > 0.0
    ensures forall c :: c in candidates <==> IsCandidate(c, tracks, observed, ratio)
    ensures candidates == [] <==> forall e :: e in Entries(tracks) ==> !Fits(e, observed, ratio)
  {
    hide IsRanking, Fits, Entries, Describes;
    forall c: Candidate
      ensures c in candidates <==> IsCandidate(c, tracks, observed, ratio)
    {
      RankedExactly(candidates, tracks, observed, ratio, c);
    }
    var any := Candidate("", "", "", "", 0.0, 0.0, 0.0);
    RankedExactly(candidates, tracks, observed, ratio, any);
    if candidates != [] {
      assert IsCandidate(candidates[0], tracks, observed, ratio);
    }
  }

  lemma SameWinners(candidates: seq<Candidate>, tracks: seq<Track>, observed: real, ratio: real, margin: real,
                    best: Candidate)
    requires forall c :: c in candidates <==> IsCandidate(c, tracks, observed, ratio)
    ensures WinsClearly(best, candidates, margin) <==> Wins(best, tracks, observed, ratio, margin)
  {
    hide RelativeError, IsCandidate;
  }

  lemma {:induction false} CloseToSpec(candidates: seq<Candidate>, bestConfidence: real, margin: real, c: Candidate)
    ensures c in CloseTo(candidates, bestConfidence, margin)
            <==> c in candidates && bestConfidence - c.confidence <= margin
  {
    if candidates != [] {
      var n := |candidates| - 1;
      CloseToSpec(candidates[..n], bestConfidence, margin, c);
      assert candidates[..n] + [candidates[n]] == candidates;
    }
  }

  /** The evidence of an ambiguous result names the candidates in question. */
  lemma EvidenceInQuestion(candidates: seq<Candidate>, tracks: seq<Track>, observed: real, o: Options)
    requires forall c :: c in candidates <==> IsCandidate(c, tracks, observed, o.lengthToleranceRatio)
    requires Classified(candidates, observed, o).Ambiguous? && StrictlySorted(Better, candidates)
    ensures var r := Classified(candidates, observed, o);
            && r.observed == observed
            && forall c :: c in r.evidence
                 <==> InQuestion(c, tracks, observed, o.lengthToleranceRatio, o.ambiguousScoreMargin)
  {
    hide IsCandidate, CloseTo, StringLess;
    var best := candidates[0];
    assert best in candidates;
    forall k | 0 <= k < |candidates|
      ensures candidates[k].confidence <= best.confidence
    {
      assert k > 0 ==> Better(candidates[0], candidates[k]);
    }
    forall c: Candidate
      ensures c in Classified(candidates, observed, o).evidence
              <==> InQuestion(c, tracks, observed, o.lengthToleranceRatio, o.ambiguousScoreMargin)
    {
      CloseToSpec(candidates, best.confidence, o.ambiguousScoreMargin, c);
    }
  }

  lemma TheRanking(sqrt: real -> real, frames: seq<Frame>, tracks: seq<Track>, options: Options,
                   r: Detection, observed: real)
    returns (candidates: seq<Candidate>)
    requires IsDetection(sqrt, frames, tracks, options, r)
    requires !NoneCompletes(sqrt, frames, NormalizeOptions(options).minCompletedLapFrames, |frames|)
    requires IsObserved(sqrt, frames, NormalizeOptions(options).minCompletedLapFrames, observed)
    ensures IsRanking(candidates, tracks, observed, NormalizeOptions(options).lengthToleranceRatio)
    ensures r == Classified(candidates, observed, NormalizeOptions(options))
  {
    var o := NormalizeOptions(options);
    hide NoneCompletes, IsObserved, IsRanking, NormalizeOptions, Classified;
    var a: real, first :| IsObserved(sqrt, frames, o.minCompletedLapFrames, a)
                          && IsRanking(first, tracks, a, o.lengthToleranceRatio) && r == Classified(first, a, o);
    ObservedUnique(sqrt, frames, o.minCompletedLapFrames, a, observed);
    candidates := first;
  }

  lemma VerdictOfRanking(candidates: seq<Candidate>, observed: real, o: Options, best: Candidate)
    requires StrictlySorted(Better, candidates) && DistinctBy(LayoutId, candidates)
    requires o.lengthToleranceRatio > 0.0 && o.ambiguousScoreMargin > 0.0
    requires forall c :: c in candidates ==> IsMatch(c, observed, o.lengthToleranceRatio)
    ensures var r := Classified(candidates, observed, o);
            var wins := WinsClearly(best, candidates, o.ambiguousScoreMargin);
            && (r == Unknown(observed) <==> candidates == [])
            && (r == Detected(observed, best) <==> wins && best.confidence >= o.minDetectedConfidence)
            && (r == LowConfidence(observed, best) <==> wins && best.confidence < o.minDetectedConfidence)
            && (o.minDetectedConfidence <= 0.65 ==> !r.LowConfidence?)
            && !r.Pending? && r.observed == observed && (r.Ambiguous? ==> !wins)
  {
    if candidates != [] {
      RunnerUpDecides(candidates, observed, o);
      assert candidates[0] in candidates;
      ConfidenceRange(candidates[0], observed, o.lengthToleranceRatio);
    }
    if WinsClearly(best, candidates, o.ambiguousScoreMargin) {
      WinnerIsFirst(candidates, observed, o, best);
    }
    hide WinsClearly, CloseTo;
  }
}
