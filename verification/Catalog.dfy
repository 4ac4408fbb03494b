/** Validation of a layout's corners and center line against each other and against the layout length. */
module Catalog {
  import opened Prelude
  import opened Ordering
  import opened Geometry
  import opened Centerlines
  import opened Resampling
  import Reals

  datatype CatalogError =
    | MissingTrackID
    | MissingTrackName
    | MissingLayoutID
    | MissingLayoutName
    | MissingCornerID
    | MissingCornerName
    | UnsupportedCornerDefinitionMode
    | DuplicateID
    | MissingSourceURL
    | MissingSourceType
    | MissingSourceRetrievedAt
    | InvalidDistanceRange
    | OverlappingDistanceRange

  datatype DefinitionMode = CatalogManual | CatalogEnumerated | OtherMode(name: string)

  datatype Source = Source(url: string, sourceType: string, retrievedAt: string)

  datatype Corner = Corner(id: string, number: int, name: string, mode: DefinitionMode,
                           startMeters: real, apexMeters: real, endMeters: real, sources: seq<Source>)

  datatype Layout = Layout(id: string, name: string, lengthMeters: real, sources: seq<Source>, corners: seq<Corner>)

  datatype Track = Track(id: string, name: string, sources: seq<Source>, layouts: seq<Layout>)

  /** A layout with the track it belongs to. */
  datatype Entry = Entry(trackId: string, trackName: string, trackSources: seq<Source>, layout: Layout)

  function TrackEntries(track: Track): (r: seq<Entry>)
    ensures |r| == |track.layouts|
  {
    seq(|track.layouts|, k requires 0 <= k < |track.layouts| =>
      Entry(track.id, track.name, track.sources, track.layouts[k]))
  }

  /** All layouts in the order in which nested loops over tracks and layouts visit them. */
  function Entries(tracks: seq<Track>): seq<Entry> {
    Flat(TrackEntries, tracks)
  }

  lemma EntryOfTrack(track: Track, e: Entry)
    ensures e in TrackEntries(track)
            <==> exists j :: 0 <= j < |track.layouts|
                             && e == Entry(track.id, track.name, track.sources, track.layouts[j])
  {
    var entries := TrackEntries(track);
    assert forall j :: 0 <= j < |track.layouts| ==>
        entries[j] == Entry(track.id, track.name, track.sources, track.layouts[j]);
  }

  /** The entries are the layouts of the tracks, and nothing else. */
  lemma {:induction false} EntriesExactly(tracks: seq<Track>, e: Entry)
    ensures e in Entries(tracks) <==> exists i :: 0 <= i < |tracks| && e in TrackEntries(tracks[i])
    ensures forall i :: 0 <= i < |tracks| ==>
              (e in TrackEntries(tracks[i])
               <==> exists j :: 0 <= j < |tracks[i].layouts|
                                && e == Entry(tracks[i].id, tracks[i].name, tracks[i].sources, tracks[i].layouts[j]))
  {
    forall i | 0 <= i < |tracks|
      ensures e in TrackEntries(tracks[i])
              <==> exists j :: 0 <= j < |tracks[i].layouts|
                               && e == Entry(tracks[i].id, tracks[i].name, tracks[i].sources, tracks[i].layouts[j])
    {
      EntryOfTrack(tracks[i], e);
    }
    hide TrackEntries;
    if tracks != [] {
      var n := |tracks| - 1;
      EntriesExactly(tracks[..n], e);
      assert forall i :: 0 <= i < n ==> tracks[..n][i] == tracks[i];
    }
  }

  // ----- ids -----

  /** The ids seen so far in one validation. */
  class IdRegistry {
    var ids: set<string>

    constructor ()
      ensures ids == {}
    {
      ids := {};
    }

    method Remember(id: string) returns (fault: Option<CatalogError>)
      modifies this
      ensures fault == if id in old(ids) then Some(DuplicateID) else None
      ensures ids == old(ids) + {id}
    {
      if id in ids {
        return Some(DuplicateID);
      }
      ids := ids + {id};
      return None;
    }
  }

  function IdsOf(corners: seq<Corner>): set<string> {
    set k | 0 <= k < |corners| :: corners[k].id
  }

  // ----- one corner -----

  function SourceFault(source: Source): Option<CatalogError> {
    if source.url == "" then Some(MissingSourceURL)
    else if source.sourceType == "" then Some(MissingSourceType)
    else if source.retrievedAt == "" then Some(MissingSourceRetrievedAt)
    else None
  }

  function SourcesFault(sources: seq<Source>, from: nat): Option<CatalogError>
    requires from <= |sources|
    decreases |sources| - from
  {
    if from == |sources| then None
    else if SourceFault(sources[from]).Some? then SourceFault(sources[from])
    else SourcesFault(sources, from + 1)
  }

  method ValidateSources(sources: seq<Source>) returns (fault: Option<CatalogError>)
    ensures fault == SourcesFault(sources, 0)
  {
    for i := 0 to |sources|
      invariant SourcesFault(sources, 0) == SourcesFault(sources, i)
    {
      var f := SourceFault(sources[i]);
      if f.Some? {
        return f;
      }
    }
    return None;
  }

  /** The sources from `from` on name their address, their type and when they were retrieved. */
  ghost predicate CompleteFrom(sources: seq<Source>, from: nat) {
    forall k :: from <= k < |sources| ==>
      sources[k].url != "" && sources[k].sourceType != "" && sources[k].retrievedAt != ""
  }

  ghost predicate Complete(sources: seq<Source>) {
    CompleteFrom(sources, 0)
  }

  /** The check of sources finds nothing exactly if all of them are complete. */
  lemma {:induction false} SourcesComplete(sources: seq<Source>, from: nat)
    requires from <= |sources|
    ensures SourcesFault(sources, from).None? <==> CompleteFrom(sources, from)
    decreases |sources| - from
  {
    if from < |sources| {
      SourcesComplete(sources, from + 1);
    }
  }

  predicate InRange(distance: real, length: real) {
    0.0 <= distance <= length
  }

  /** The corner runs past the end of the lap. */
  predicate Wraps(c: Corner) {
    c.startMeters > c.endMeters
  }

  /** Whether the corner wraps around, or `None` for a range that is rejected. */
  function CornerRange(c: Corner, length: real): Option<bool> {
    if c.startMeters < 0.0 || c.apexMeters < 0.0 || c.endMeters < 0.0
       || c.startMeters > length || c.apexMeters > length || c.endMeters > length then None
    else if c.startMeters < c.endMeters then
      if c.startMeters >= c.apexMeters || c.apexMeters >= c.endMeters then None else Some(false)
    else if c.startMeters == c.endMeters then None
    else if c.apexMeters < c.startMeters && c.apexMeters >= c.endMeters then None
    else Some(true)
  }

  /** The places of the loop that the corner covers. */
  predicate Covers(c: Corner, distance: real) {
    if c.startMeters < c.endMeters then c.startMeters <= distance < c.endMeters
    else Wraps(c) && (distance >= c.startMeters || distance < c.endMeters)
  }

  /** Three distances on the loop whose apex lies inside the corner. An apex on the line may be written
      as the layout length, which is the same place as 0. */
  ghost predicate ProperRange(c: Corner, length: real) {
    && InRange(c.startMeters, length) && InRange(c.apexMeters, length) && InRange(c.endMeters, length)
    && Covers(c, c.apexMeters) && c.startMeters != c.endMeters
    && (!Wraps(c) ==> c.apexMeters != c.startMeters)
  }

  /** The range check accepts exactly the proper ranges, and tells those that wrap around. */
  lemma CornerRangeSpec(c: Corner, length: real)
    ensures CornerRange(c, length) == if ProperRange(c, length) then Some(Wraps(c)) else None
  {
  }

  predicate IsManual(c: Corner) {
    c.mode == CatalogManual
  }

  /** What the checks of a corner by itself find. */
  function OwnFault(c: Corner, length: real, taken: set<string>): Option<CatalogError> {
    if c.id == "" then Some(MissingCornerID)
    else if c.name == "" then Some(MissingCornerName)
    else if c.mode != CatalogManual && c.mode != CatalogEnumerated then Some(UnsupportedCornerDefinitionMode)
    else if c.id in taken then Some(DuplicateID)
    else if SourcesFault(c.sources, 0).Some? then SourcesFault(c.sources, 0)
    else if if IsManual(c) then CornerRange(c, length).Some? else c.startMeters == c.apexMeters == c.endMeters == 0.0
    then None
    else Some(InvalidDistanceRange)
  }

  /** The checks of a corner by itself find nothing exactly on a named corner with a new id, complete sources and,
      if it is manual, a proper range; an enumerated one has no distances. */
  lemma OwnFaultSpec(c: Corner, length: real, taken: set<string>)
    ensures OwnFault(c, length, taken).None?
            <==> && c.id != "" && c.name != "" && c.id !in taken && Complete(c.sources)
                 && (IsManual(c) || c.mode == CatalogEnumerated)
                 && (if IsManual(c) then ProperRange(c, length)
                     else c.startMeters == c.apexMeters == c.endMeters == 0.0)
  {
    SourcesComplete(c.sources, 0);
    CornerRangeSpec(c, length);
    hide SourcesFault, CompleteFrom, CornerRange, ProperRange;
  }

  method CheckCorner(c: Corner, length: real, registry: IdRegistry) returns (fault: Option<CatalogError>)
    modifies registry
    ensures fault == OwnFault(c, length, old(registry.ids))
    ensures fault.None? ==> registry.ids == old(registry.ids) + {c.id}
  {
    if c.id == "" {
      return Some(MissingCornerID);
    }
    if c.name == "" {
      return Some(MissingCornerName);
    }
    if c.mode != CatalogManual && c.mode != CatalogEnumerated {
      return Some(UnsupportedCornerDefinitionMode);
    }
    fault := registry.Remember(c.id);
    if fault.Some? {
      return;
    }
    fault := ValidateSources(c.sources);
    if fault.Some? {
      return;
    }
    if c.mode == CatalogEnumerated {
      if c.startMeters != 0.0 || c.apexMeters != 0.0 || c.endMeters != 0.0 {
        return Some(InvalidDistanceRange);
      }
      return None;
    }
    if CornerRange(c, length).None? {
      return Some(InvalidDistanceRange);
    }
    return None;
  }

  // ----- all corners -----

  predicate Clash(earlier: Corner, later: Corner) {
    Wraps(earlier) || later.startMeters < earlier.endMeters || (Wraps(later) && later.endMeters > earlier.startMeters)
  }

  /** The manual corner does not come after all earlier ones, or wraps around into one of them or before
      the last place of the list. */
  ghost predicate Overlaps(corners: seq<Corner>, i: nat)
    requires i < |corners|
  {
    && IsManual(corners[i])
    && (|| (Wraps(corners[i]) && i != |corners| - 1)
        || exists j :: 0 <= j < i && IsManual(corners[j]) && Clash(corners[j], corners[i]))
  }

  /** What is wrong with the `i`-th corner, when nothing is wrong with the earlier ones. */
  ghost function Fault(corners: seq<Corner>, length: real, taken: set<string>, i: nat): Option<CatalogError>
    requires i < |corners|
  {
    var own := OwnFault(corners[i], length, taken + IdsOf(corners[..i]));
    if own.Some? then own
    else if Overlaps(corners, i) then Some(OverlappingDistanceRange)
    else None
  }

  ghost predicate Passes(corners: seq<Corner>, length: real, taken: set<string>, n: nat)
    requires n <= |corners|
  {
    forall i :: 0 <= i < n ==> Fault(corners, length, taken, i).None?
  }

  ghost predicate Accepted(corners: seq<Corner>, length: real, taken: set<string>) {
    Passes(corners, length, taken, |corners|)
  }

  /** `fault` is that of the first corner that has one. */
  ghost predicate IsFirstFault(corners: seq<Corner>, length: real, taken: set<string>, fault: CatalogError) {
    exists i :: 0 <= i < |corners| && Passes(corners, length, taken, i)
                    && Fault(corners, length, taken, i) == Some(fault)
  }

  /** What the loop knows of the manual corners among the first `n`: where the last one ends and where
      the first one starts. */
  ghost predicate Remembers(corners: seq<Corner>, n: nat, previousEnd: real, firstStart: Option<real>)
    requires n <= |corners|
  {
    && (firstStart.None? ==> previousEnd == 0.0 && forall j :: 0 <= j < n ==> !IsManual(corners[j]))
    && (firstStart.Some? ==>
          && (exists j :: 0 <= j < n && IsManual(corners[j]) && corners[j].startMeters == firstStart.value)
          && (exists j :: 0 <= j < n && IsManual(corners[j]) && corners[j].endMeters == previousEnd))
    && forall j :: 0 <= j < n && IsManual(corners[j]) ==>
         && !Wraps(corners[j]) && firstStart.Some? && firstStart.value <= corners[j].startMeters
         && corners[j].endMeters <= previousEnd
  }

  /** The two remembered numbers are enough to decide whether a corner overlaps any earlier one. */
  lemma OverlapsRemembered(corners: seq<Corner>, n: nat, previousEnd: real, firstStart: Option<real>, length: real)
    requires n < |corners| && Remembers(corners, n, previousEnd, firstStart)
    requires IsManual(corners[n]) && CornerRange(corners[n], length).Some?
    ensures var c := corners[n];
            Overlaps(corners, n)
            <==> (Wraps(c) && n != |corners| - 1) || (n > 0 && c.startMeters < previousEnd)
                 || (Wraps(c) && |corners| > 1 && firstStart.Some? && c.endMeters > firstStart.value)
  {
  }

  lemma RememberedNext(corners: seq<Corner>, n: nat, previousEnd: real, firstStart: Option<real>, length: real)
    requires n < |corners| && Remembers(corners, n, previousEnd, firstStart) && !Overlaps(corners, n)
    requires IsManual(corners[n]) ==> CornerRange(corners[n], length).Some? && !Wraps(corners[n])
    ensures IsManual(corners[n]) ==>
              Remembers(corners, n + 1, corners[n].endMeters,
                        Some(if firstStart.None? then corners[n].startMeters else firstStart.value))
    ensures !IsManual(corners[n]) ==> Remembers(corners, n + 1, previousEnd, firstStart)
  {
    if firstStart.Some? {
      var first :| 0 <= first < n && IsManual(corners[first]) && corners[first].startMeters == firstStart.value;
      var last :| 0 <= last < n && IsManual(corners[last]) && corners[last].endMeters == previousEnd;
      assert IsManual(corners[n]) ==> !Clash(corners[first], corners[n]) && !Clash(corners[last], corners[n]);
    }
  }

  method ValidateCorners(corners: seq<Corner>, length: real, registry: IdRegistry)
    returns (fault: Option<CatalogError>)
    modifies registry
    ensures fault.None? <==> Accepted(corners, length, old(registry.ids))
    ensures fault.Some? ==> IsFirstFault(corners, length, old(registry.ids), fault.value)
    ensures fault.None? ==> registry.ids == old(registry.ids) + IdsOf(corners)
  {
    hide OwnFault, SourcesFault;
    ghost var taken := registry.ids;
    var previousEnd := 0.0;
    var firstStart: Option<real> := None;
    var hasWrapAroundCorner := false;
    for i := 0 to |corners|
      invariant registry.ids == taken + IdsOf(corners[..i])
      invariant Passes(corners, length, taken, i)
      invariant hasWrapAroundCorner ==> i == |corners|
      invariant !hasWrapAroundCorner ==> Remembers(corners, i, previousEnd, firstStart)
    {
      var corner := corners[i];
      assert corners[..i + 1] == corners[..i] + [corner];
      ghost var verdict := Fault(corners, length, taken, i);
      fault := CheckCorner(corner, length, registry);
      if fault.Some? {
        return;
      }
      if corner.mode == CatalogEnumerated {
        RememberedNext(corners, i, previousEnd, firstStart, length);
        continue;
      }
      CornerMode(corner, length, taken + IdsOf(corners[..i]));
      OverlapsRemembered(corners, i, previousEnd, firstStart, length);
      ghost var knownStart := firstStart;
      var wrapAround := CornerRange(corner, length).value;
      CornerRangeSpec(corner, length);
      hide CornerRange, ProperRange, Overlaps, Remembers;
      if firstStart.None? {
        firstStart := Some(corner.startMeters);
      }
      if hasWrapAroundCorner || (wrapAround && i != |corners| - 1) {
        return Some(OverlappingDistanceRange);
      }
      if i > 0 && corner.startMeters < previousEnd {
        return Some(OverlappingDistanceRange);
      }
      if wrapAround && |corners| > 1 && corner.endMeters > firstStart.value {
        return Some(OverlappingDistanceRange);
      }
      if wrapAround {
        hasWrapAroundCorner := true;
        previousEnd := length;
        continue;
      }
      RememberedNext(corners, i, previousEnd, knownStart, length);
      previousEnd := corner.endMeters;
    }
    return None;
  }

  lemma CornerMode(c: Corner, length: real, taken: set<string>)
    requires OwnFault(c, length, taken).None? && c.mode != CatalogEnumerated
    ensures IsManual(c) && CornerRange(c, length).Some?
  {
  }

  // ----- what acceptance means -----

  /** The two corners have a place of the loop in common. */
  ghost predicate Meet(a: Corner, b: Corner, length: real) {
    exists d: real :: 0.0 <= d < length && Covers(a, d) && Covers(b, d)
  }

  lemma AcceptedCorner(corners: seq<Corner>, length: real, taken: set<string>, i: nat)
    requires Accepted(corners, length, taken) && i < |corners|
    ensures corners[i].mode == CatalogManual || corners[i].mode == CatalogEnumerated
    ensures IsManual(corners[i]) ==> ProperRange(corners[i], length)
    ensures !Overlaps(corners, i)
    ensures forall j :: 0 <= j < i ==> corners[j].id != corners[i].id
  {
    assert Fault(corners, length, taken, i).None?;
    hide SourcesFault;
    CornerRangeSpec(corners[i], length);
    forall j | 0 <= j < i
      ensures corners[j].id != corners[i].id
    {
      assert corners[..i][j].id in IdsOf(corners[..i]);
    }
  }

  lemma NoClashNoMeeting(a: Corner, b: Corner, length: real)
    requires ProperRange(a, length) && ProperRange(b, length) && !Clash(a, b)
    ensures !Meet(a, b, length)
  {
  }

  lemma AcceptedPair(corners: seq<Corner>, length: real, taken: set<string>, i: nat, j: nat)
    requires Accepted(corners, length, taken) && i < j < |corners| && IsManual(corners[i]) && IsManual(corners[j])
    ensures !Meet(corners[i], corners[j], length)
  {
    AcceptedCorner(corners, length, taken, i);
    AcceptedCorner(corners, length, taken, j);
    hide Accepted, ProperRange, Clash, Meet;
    NoClashNoMeeting(corners[i], corners[j], length);
  }

  /** Every place of the loop lies in at most one manual corner of an accepted list. */
  lemma AtMostOneCorner(corners: seq<Corner>, length: real, taken: set<string>, distance: real, i: nat, j: nat)
    requires Accepted(corners, length, taken) && 0.0 <= distance < length
    requires i < |corners| && IsManual(corners[i]) && Covers(corners[i], distance)
    requires j < |corners| && IsManual(corners[j]) && Covers(corners[j], distance)
    ensures i == j
  {
    hide Accepted, Covers;
    if i < j {
      AcceptedPair(corners, length, taken, i, j);
    }
    if j < i {
      AcceptedPair(corners, length, taken, j, i);
    }
  }

  /** The manual corners are listed in the order in which they start, a wrap-around corner ends the list,
      and no two of them meet. */
  ghost predicate InOrderAndDisjoint(corners: seq<Corner>, length: real) {
    && (forall i :: 0 <= i < |corners| && IsManual(corners[i]) && Wraps(corners[i]) ==> i == |corners| - 1)
    && forall i, j :: 0 <= i < j < |corners| && IsManual(corners[i]) && IsManual(corners[j]) ==>
         corners[i].startMeters <= corners[j].startMeters && !Meet(corners[i], corners[j], length)
  }

  lemma ClashMeets(a: Corner, b: Corner, length: real)
    requires ProperRange(a, length) && ProperRange(b, length) && !Wraps(a)
    ensures Clash(a, b) <==> a.startMeters > b.startMeters || Meet(a, b, length)
  {
    if a.startMeters <= b.startMeters < a.endMeters {
      assert Covers(a, b.startMeters);
      assert Covers(b, b.startMeters);
    }
    if a.startMeters <= b.startMeters && Wraps(b) && b.endMeters > a.startMeters {
      assert Covers(a, a.startMeters) && Covers(b, a.startMeters);
    }
    if !Clash(a, b) {
      NoClashNoMeeting(a, b, length);
    }
  }

  /** Among corners with nothing wrong in themselves, the checks reject exactly the lists that are out of
      order, or have overlapping corners, or have anything at all after a wrap-around corner. */
  lemma AcceptsExactlyDisjoint(corners: seq<Corner>, length: real, taken: set<string>)
    requires forall i :: 0 <= i < |corners| ==> OwnFault(corners[i], length, taken + IdsOf(corners[..i])).None?
    ensures Accepted(corners, length, taken) <==> InOrderAndDisjoint(corners, length)
  {
    hide SourcesFault;
    forall i | 0 <= i < |corners| && IsManual(corners[i])
      ensures ProperRange(corners[i], length)
    {
      CornerRangeSpec(corners[i], length);
    }
    hide OwnFault, ProperRange, CornerRange, Meet, Clash;
    if Accepted(corners, length, taken) {
      forall i, j | 0 <= i < j < |corners| && IsManual(corners[i]) && IsManual(corners[j])
        ensures corners[i].startMeters <= corners[j].startMeters && !Meet(corners[i], corners[j], length)
      {
        AcceptedCorner(corners, length, taken, i);
        AcceptedCorner(corners, length, taken, j);
        ClashMeets(corners[i], corners[j], length);
      }
      forall i | 0 <= i < |corners| && IsManual(corners[i]) && Wraps(corners[i])
        ensures i == |corners| - 1
      {
        AcceptedCorner(corners, length, taken, i);
      }
    }
    if InOrderAndDisjoint(corners, length) {
      forall j | 0 <= j < |corners|
        ensures Fault(corners, length, taken, j).None?
      {
        forall i | 0 <= i < j && IsManual(corners[i]) && IsManual(corners[j])
          ensures !Clash(corners[i], corners[j])
        {
          ClashMeets(corners[i], corners[j], length);
        }
      }
    }
  }

  // ----- center lines -----

  /** The distances start at 0, strictly increase and stay within the layout length. */
  ghost predicate Ordered(line: seq<SampledPoint>, length: real) {
    && (line != [] ==> line[0].accumulated == 0.0)
    && (forall i :: 0 <= i < |line| ==> InRange(line[i].accumulated, length))
    && forall i, j :: 0 <= i < j < |line| ==> line[i].accumulated < line[j].accumulated
  }

  ghost predicate Coincide(line: seq<SampledPoint>, i: nat)
    requires i + 1 < |line|
  {
    line[i].point == line[i + 1].point
  }

  /** A center line is accepted exactly when there is none, or it has at least two points, ordered
      distances, and no two consecutive points in the same place. */
  method ValidateCenterLine(sqrt: real -> real, line: seq<SampledPoint>, length: real) returns (ok: bool)
    requires IsSqrt(sqrt)
    ensures ok <==> |line| != 1 && Ordered(line, length) && forall i: nat :: i + 1 < |line| ==> !Coincide(line, i)
  {
    if |line| == 0 {
      return true;
    }
    if |line| < 2 {
      return false;
    }
    var previousAccumulated := -1.0;
    for i := 0 to |line|
      invariant i == 0 ==> previousAccumulated == -1.0
      invariant i > 0 ==> previousAccumulated == line[i - 1].accumulated
      invariant forall j :: 0 <= j < i ==> InRange(line[j].accumulated, length)
      invariant forall j, k :: 0 <= j < k < i ==> line[j].accumulated < line[k].accumulated
      invariant forall j: nat :: j + 1 < i ==> !Coincide(line, j)
    {
      var point := line[i];
      if point.accumulated < 0.0 || point.accumulated > length {
        return false;
      }
      if point.accumulated <= previousAccumulated {
        return false;
      }
      if i > 0 {
        DistanceFacts(sqrt, line[i - 1].point, point.point);
        if Distance(sqrt, line[i - 1].point, point.point) == 0.0 {
          assert Coincide(line, i - 1);
          return false;
        }
      }
      previousAccumulated := point.accumulated;
    }
    return line[0].accumulated == 0.0;
  }

  /** Whatever polyline is resampled, the result passes the order checks for its own length: it is accepted
      unless two consecutive samples fall on the same place. */
  lemma ResampledLineIsOrdered(sqrt: real -> real, points: seq<Point>, step: real, closed: bool)
    requires IsSqrt(sqrt)
    ensures var r := Resampled(sqrt, points, step, closed); r.Ok? ==> |r.value.0| >= 2 && Ordered(r.value.0, r.value.1)
  {
    ResampledEvenly(sqrt, points, step, closed);
    hide Resampled, IsSqrt;
    var r := Resampled(sqrt, points, step, closed);
    if r.Ok? {
      SpacedIsOrdered(r.value.0, r.value.1, step, closed);
    }
  }

  lemma SpacedIsOrdered(line: seq<SampledPoint>, total: real, step: real, closed: bool)
    requires EvenlySpaced(line, total, step, closed)
    ensures Ordered(line, total)
  {
    forall i, j | 0 <= i < j < |line|
      ensures line[i].accumulated < line[j].accumulated
    {
      SpacedIncreases(line, total, step, closed, i, j);
    }
  }

  lemma {:induction false} SpacedIncreases(line: seq<SampledPoint>, total: real, step: real, closed: bool,
                                           i: nat, j: nat)
    requires EvenlySpaced(line, total, step, closed) && i < j < |line|
    ensures line[i].accumulated < line[j].accumulated
    decreases j
  {
    assert Gap(line, j - 1) > 0.0;
    if i < j - 1 {
      SpacedIncreases(line, total, step, closed, i, j - 1);
    }
  }

  /** An open line resampled at a step of at least its length keeps its two ends only, and is rejected
      exactly if it returns to the point where it starts. */
  lemma CoarseOpenLine(sqrt: real -> real, points: seq<Point>, step: real)
    requires IsSqrt(sqrt) && Resampled(sqrt, points, step, false).Ok?
    requires step >= TrackLength(sqrt, points, false)
    ensures var line := Resampled(sqrt, points, step, false).value.0;
            && |line| == 2 && line[0].point == points[0] && line[1].point == points[|points| - 1]
            && (Coincide(line, 0) <==> points[0] == points[|points| - 1])
  {
    CenterlineSegmentsSpec(sqrt, points, false);
    ResampledEvenly(sqrt, points, step, false);
    var segments := CenterlineSegments(sqrt, points, false);
    var total := EndOf(segments);
    Reals.TimesUnits(step);
    StepCountSpec(total, step, 1);
    hide IsSqrt, CenterlineSegments, Distance, StepCount, TrackLength;
    assert StepCount(total, step) == 1;
  }
}
