/** Which corner a distance lies in, and which samples belong to a corner. */
module Corners {
  import opened Prelude
  import opened Circular
  import opened Catalog
  import opened Ordering

  datatype NoCornerReason =
    | CatalogHasNoCorners
    | CatalogHasEnumeratedCorners
    | OutsideCornerRange
    | UnsupportedCornerDefinition

  datatype Resolution =
    | InCorner(cornerId: string, cornerName: string, number: int, startMeters: real, apexMeters: real, endMeters: real)
    | NoCorner(reason: NoCornerReason)

  datatype ResolveError = InvalidLength

  // ----- resolving a distance -----

  function Normalized(distance: real, total: real): real
    requires total > 0.0
  {
    var normalized := Mod(distance, total);
    if normalized < 0.0 then normalized + total else normalized
  }

  /** The same place as the centerline's normalisation gives, so congruent distances are one place. */
  lemma NormalizedSpec(a: real, b: real, total: real)
    requires total > 0.0
    ensures 0.0 <= Normalized(a, total) < total
    ensures Normalized(a, total) == NormalizeDistance(a, total)
    ensures Congruent(a, b, total) <==> Normalized(a, total) == Normalized(b, total)
  {
    ModRange(a, total);
    ModRange(b, total);
    NormalizePeriodic(a, b, total);
    hide Mod, Congruent;
  }

  predicate ContainsDistance(c: Corner, distance: real, closed: bool) {
    if c.startMeters < c.endMeters then distance >= c.startMeters && distance < c.endMeters
    else if !closed || c.startMeters == c.endMeters then false
    else distance >= c.startMeters || distance < c.endMeters
  }

  function Resolved(c: Corner): Resolution {
    InCorner(c.id, c.name, c.number, c.startMeters, c.apexMeters, c.endMeters)
  }

  /** The distance as `ResolveCurrent` looks it up: on a closed layout any distance is on the loop, on an
      open one only those within the length. */
  function Place(length: real, distance: real, closed: bool): Option<real>
    requires length > 0.0
  {
    if closed then Some(Normalized(distance, length))
    else if distance < 0.0 || distance >= length then None
    else Some(distance)
  }

  predicate Holds(c: Corner, place: real, closed: bool) {
    IsManual(c) && ContainsDistance(c, place, closed)
  }

  /** The answer names the first corner in the list that holds the place. */
  ghost predicate NamesFirstHolder(corners: seq<Corner>, place: real, closed: bool, r: Resolution) {
    exists i :: 0 <= i < |corners| && Holds(corners[i], place, closed) && r == Resolved(corners[i])
                && forall j :: 0 <= j < i ==> !Holds(corners[j], place, closed)
  }

  /** The reason for no corner is set by the first corner in the list that is not manual. */
  ghost predicate IsReason(corners: seq<Corner>, reason: NoCornerReason) {
    match reason
    case CatalogHasNoCorners => false
    case OutsideCornerRange => forall j :: 0 <= j < |corners| ==> IsManual(corners[j])
    case CatalogHasEnumeratedCorners =>
      exists i :: 0 <= i < |corners| && corners[i].mode == CatalogEnumerated
                  && forall j :: 0 <= j < i ==> IsManual(corners[j])
    case UnsupportedCornerDefinition =>
      exists i :: 0 <= i < |corners| && corners[i].mode.OtherMode? && forall j :: 0 <= j < i ==> IsManual(corners[j])
  }

  ghost predicate NoneHolds(corners: seq<Corner>, place: real, closed: bool) {
    forall j :: 0 <= j < |corners| ==> !Holds(corners[j], place, closed)
  }

  /** The answer of `ResolveCurrent` on a layout of positive length. */
  ghost predicate IsResolution(length: real, corners: seq<Corner>, distance: real, closed: bool, r: Resolution)
    requires length > 0.0
  {
    if corners == [] then r == NoCorner(CatalogHasNoCorners)
    else if Place(length, distance, closed).None? then r == NoCorner(OutsideCornerRange)
    else
      var place := Place(length, distance, closed).value;
      if r.InCorner? then NamesFirstHolder(corners, place, closed, r)
      else NoneHolds(corners, place, closed) && IsReason(corners, r.reason)
  }

  method ResolveCurrent(length: real, corners: seq<Corner>, distanceFromStart: real, closed: bool)
    returns (r: Result<Resolution, ResolveError>)
    ensures length <= 0.0 ==> r == Err(InvalidLength)
    ensures length > 0.0 ==> r.Ok? && IsResolution(length, corners, distanceFromStart, closed, r.value)
  {
    if length <= 0.0 {
      return Err(InvalidLength);
    }
    if |corners| == 0 {
      return Ok(NoCorner(CatalogHasNoCorners));
    }
    var distance := distanceFromStart;
    if closed {
      distance := Normalized(distanceFromStart, length);
    } else if distance < 0.0 || distance >= length {
      return Ok(NoCorner(OutsideCornerRange));
    }
    hide Normalized;
    for i := 0 to |corners|
      invariant forall j :: 0 <= j < i ==> !Holds(corners[j], distance, closed)
    {
      if corners[i].mode != CatalogManual {
        continue;
      }
      if ContainsDistance(corners[i], distance, closed) {
        assert Holds(corners[i], distance, closed);
        return Ok(Resolved(corners[i]));
      }
    }
    for i := 0 to |corners|
      invariant forall j :: 0 <= j < i ==> IsManual(corners[j])
    {
      if corners[i].mode == CatalogEnumerated {
        return Ok(NoCorner(CatalogHasEnumeratedCorners));
      }
      if corners[i].mode != CatalogManual {
        return Ok(NoCorner(UnsupportedCornerDefinition));
      }
    }
    return Ok(NoCorner(OutsideCornerRange));
  }

  /** There is one answer. */
  lemma ResolutionUnique(length: real, corners: seq<Corner>, distance: real, closed: bool, r: Resolution, q: Resolution)
    requires length > 0.0
    requires IsResolution(length, corners, distance, closed, r) && IsResolution(length, corners, distance, closed, q)
    ensures r == q
  {
    hide Normalized, Holds;
  }

  /** On a closed layout the answer depends only on the place on the loop, for every catalog. */
  lemma ResolutionPeriodic(length: real, corners: seq<Corner>, a: real, b: real, r: Resolution)
    requires length > 0.0 && Congruent(a, b, length)
    ensures IsResolution(length, corners, a, true, r) <==> IsResolution(length, corners, b, true, r)
  {
    NormalizedSpec(a, b, length);
    hide Normalized, Congruent;
  }

  lemma PlaceInRange(length: real, distance: real, closed: bool)
    requires length > 0.0
    ensures var place := Place(length, distance, closed); place.Some? ==> 0.0 <= place.value < length
  {
    NormalizedSpec(distance, distance, length);
    hide Normalized;
  }

  /** The corner takes in the place: an open layout has no place for a corner that wraps around. */
  ghost predicate TakesIn(c: Corner, place: real, closed: bool) {
    Covers(c, place) && (closed || !Wraps(c))
  }

  lemma ContainsExactly(c: Corner, place: real, closed: bool)
    ensures ContainsDistance(c, place, closed) <==> TakesIn(c, place, closed)
    ensures Holds(c, place, closed) <==> IsManual(c) && TakesIn(c, place, closed)
  {
  }

  /** The place that the reported distance names: the one on the loop that is whole loops away, or itself. */
  ghost predicate NamesPlace(length: real, distance: real, closed: bool, place: real) {
    if closed then 0.0 <= place < length && Congruent(distance, place, length) else place == distance
  }

  lemma NamedPlace(length: real, distance: real, closed: bool, place: real)
    requires length > 0.0 && NamesPlace(length, distance, closed, place)
    ensures closed ==> Normalized(distance, length) == place
    ensures Place(length, distance, closed) == if closed || 0.0 <= place < length then Some(place) else None
  {
    if closed {
      NormalizedSpec(distance, place, length);
      NormalizeFixed(place, length);
    }
    hide Normalized, Congruent, NormalizeDistance;
  }

  /** The `i`-th corner is the first manual one that takes in the place. */
  ghost predicate IsFirstAround(corners: seq<Corner>, place: real, closed: bool, i: nat) {
    && i < |corners| && IsManual(corners[i]) && TakesIn(corners[i], place, closed)
    && forall j :: 0 <= j < i ==> !(IsManual(corners[j]) && TakesIn(corners[j], place, closed))
  }

  /** A distance on the layout is in a corner exactly if some manual corner takes in its place, and the answer gives
      the first such corner; a distance that is not on the layout is in none. */
  lemma ResolvedExactly(length: real, corners: seq<Corner>, distance: real, closed: bool, place: real, r: Resolution)
    requires length > 0.0 && NamesPlace(length, distance, closed, place)
    requires IsResolution(length, corners, distance, closed, r)
    ensures r.InCorner? <==> (closed || 0.0 <= place < length)
                             && exists c :: c in corners && IsManual(c) && TakesIn(c, place, closed)
    ensures forall i: nat :: IsFirstAround(corners, place, closed, i) && (closed || 0.0 <= place < length) ==>
              var c := corners[i]; r == InCorner(c.id, c.name, c.number, c.startMeters, c.apexMeters, c.endMeters)
  {
    NamedPlace(length, distance, closed, place);
    forall c: Corner
      ensures Holds(c, place, closed) <==> IsManual(c) && TakesIn(c, place, closed)
    {
      ContainsExactly(c, place, closed);
    }
    hide Normalized, Holds, TakesIn, IsReason;
    if r.InCorner? {
      var i :| 0 <= i < |corners| && Holds(corners[i], place, closed) && r == Resolved(corners[i]);
      assert corners[i] in corners;
    }
  }

  /** In an accepted list at most one corner holds a place, on closed and open layouts. */
  lemma OneHolder(corners: seq<Corner>, length: real, taken: set<string>, distance: real, closed: bool,
                  c: Corner, d: Corner)
    requires length > 0.0 && Accepted(corners, length, taken) && c in corners && d in corners
    requires var place := Place(length, distance, closed);
             place.Some? && Holds(c, place.value, closed) && Holds(d, place.value, closed)
    ensures c == d
  {
    PlaceInRange(length, distance, closed);
    var place := Place(length, distance, closed).value;
    ContainsExactly(c, place, closed);
    ContainsExactly(d, place, closed);
    var i :| 0 <= i < |corners| && corners[i] == c;
    var j :| 0 <= j < |corners| && corners[j] == d;
    hide Accepted, Covers, Holds, Place;
    AtMostOneCorner(corners, length, taken, place, i, j);
  }

  lemma {:induction false} FirstHolder(corners: seq<Corner>, place: real, closed: bool, c: Corner) returns (k: nat)
    requires c in corners && Holds(c, place, closed)
    ensures k < |corners| && Holds(corners[k], place, closed)
    ensures forall j :: 0 <= j < k ==> !Holds(corners[j], place, closed)
  {
    var i :| 0 <= i < |corners| && corners[i] == c;
    k := 0;
    while !Holds(corners[k], place, closed)
      invariant k <= i
      invariant forall j :: 0 <= j < k ==> !Holds(corners[j], place, closed)
      decreases i - k
    {
      k := k + 1;
    }
  }

  lemma {:induction false} FirstNotManual(corners: seq<Corner>, c: Corner) returns (k: nat)
    requires c in corners && !IsManual(c)
    ensures k < |corners| && !IsManual(corners[k])
    ensures forall j :: 0 <= j < k ==> IsManual(corners[j])
  {
    var i :| 0 <= i < |corners| && corners[i] == c;
    k := 0;
    while IsManual(corners[k])
      invariant k <= i
      invariant forall j :: 0 <= j < k ==> IsManual(corners[j])
      decreases i - k
    {
      k := k + 1;
    }
  }

  /** In an accepted list a corner that is not manual is enumerated, so the reason does not depend on which
      comes first. */
  lemma ReasonIgnoresOrder(corners: seq<Corner>, length: real, taken: set<string>, arranged: seq<Corner>,
                           reason: NoCornerReason)
    requires Accepted(corners, length, taken) && IsReason(corners, reason)
    requires forall c :: c in corners <==> c in arranged
    ensures IsReason(arranged, reason)
  {
    forall i | 0 <= i < |corners|
      ensures !corners[i].mode.OtherMode?
    {
      AcceptedCorner(corners, length, taken, i);
    }
    hide Accepted;
    forall j | 0 <= j < |arranged|
      ensures arranged[j] in corners && !arranged[j].mode.OtherMode?
    {
      assert arranged[j] in arranged;
    }
    if reason == CatalogHasEnumeratedCorners {
      var i :| 0 <= i < |corners| && corners[i].mode == CatalogEnumerated;
      assert corners[i] in arranged;
      var k := FirstNotManual(arranged, corners[i]);
      assert arranged[k] in corners;
    }
  }

  lemma HolderIgnoresOrder(length: real, corners: seq<Corner>, taken: set<string>, arranged: seq<Corner>,
                           distance: real, closed: bool, r: Resolution)
    requires length > 0.0 && Accepted(corners, length, taken) && Place(length, distance, closed).Some?
    requires forall c :: c in corners <==> c in arranged
    requires NamesFirstHolder(corners, Place(length, distance, closed).value, closed, r)
    ensures NamesFirstHolder(arranged, Place(length, distance, closed).value, closed, r)
  {
    hide Accepted, Holds, Place;
    var place := Place(length, distance, closed).value;
    var i :| 0 <= i < |corners| && Holds(corners[i], place, closed) && r == Resolved(corners[i]);
    assert corners[i] in arranged;
    var k := FirstHolder(arranged, place, closed, corners[i]);
    assert arranged[k] in corners;
    OneHolder(corners, length, taken, distance, closed, corners[i], arranged[k]);
  }

  /** The whole answer, reasons included, is the same for every arrangement of an accepted list. */
  lemma ResolutionIgnoresOrder(length: real, corners: seq<Corner>, taken: set<string>, arranged: seq<Corner>,
                               distance: real, closed: bool, r: Resolution)
    requires length > 0.0 && Accepted(corners, length, taken) && multiset(corners) == multiset(arranged)
    requires IsResolution(length, corners, distance, closed, r)
    ensures IsResolution(length, arranged, distance, closed, r)
  {
    PermutationMembers(corners, arranged);
    hide Accepted, Holds, IsReason, NamesFirstHolder;
    assert corners == [] <==> arranged == [];
    if corners != [] && Place(length, distance, closed).Some? {
      if r.InCorner? {
        HolderIgnoresOrder(length, corners, taken, arranged, distance, closed, r);
      } else {
        ReasonIgnoresOrder(corners, length, taken, arranged, r.reason);
        forall j | 0 <= j < |arranged|
          ensures !Holds(arranged[j], Place(length, distance, closed).value, closed)
        {
          assert arranged[j] in corners;
        }
      }
    }
  }

  // ----- the samples of a corner -----

  datatype Sample = Sample(timestampUnixMs: int, distanceFromStart: real, speedMps: real,
                           throttle: Option<real>, brake: Option<real>)

  /** The range check of the analysis. */
  predicate ValidCornerRange(c: Corner, length: real) {
    if c.startMeters < 0.0 || c.apexMeters < 0.0 || c.endMeters < 0.0
       || c.startMeters > length || c.apexMeters > length || c.endMeters > length then false
    else if c.startMeters < c.endMeters then c.startMeters < c.apexMeters && c.apexMeters < c.endMeters
    else if c.startMeters == c.endMeters then false
    else c.apexMeters >= c.startMeters || c.apexMeters < c.endMeters
  }

  /** The analysis rejects exactly the ranges that the catalog rejects. */
  lemma RangeChecksAgree(c: Corner, length: real)
    ensures ValidCornerRange(c, length) <==> CornerRange(c, length).Some?
    ensures ValidCornerRange(c, length) <==> ProperRange(c, length)
  {
    CornerRangeSpec(c, length);
  }

  lemma AcceptedCornersAreAnalysable(corners: seq<Corner>, length: real, taken: set<string>, i: nat)
    requires Accepted(corners, length, taken) && i < |corners| && IsManual(corners[i])
    ensures ValidCornerRange(corners[i], length)
  {
    AcceptedCorner(corners, length, taken, i);
    RangeChecksAgree(corners[i], length);
  }

  predicate DistanceAtOrAfterApex(distance: real, c: Corner) {
    if c.startMeters < c.endMeters then distance >= c.apexMeters
    else if c.apexMeters >= c.startMeters then distance >= c.apexMeters || distance < c.endMeters
    else distance < c.endMeters && distance >= c.apexMeters
  }

  /** How far into the corner a place on the loop is. */
  ghost function Along(c: Corner, distance: real, length: real): real {
    if distance >= c.startMeters then distance - c.startMeters else distance + length - c.startMeters
  }

  /** Inside a valid corner, also one that wraps around, the test says whether the car has driven at least
      as far into the corner as the apex is. */
  lemma AtOrAfterApexSpec(c: Corner, distance: real, length: real)
    requires ValidCornerRange(c, length) && 0.0 <= distance < length && Covers(c, distance)
    ensures DistanceAtOrAfterApex(distance, c) <==> Along(c, distance, length) >= Along(c, c.apexMeters, length)
  {
  }

  predicate ValidSample(sample: Sample) {
    sample.speedMps >= 0.0
  }

  function SamplePlace(sample: Sample, length: real, closed: bool): real
    requires length > 0.0
  {
    if closed then Normalized(sample.distanceFromStart, length) else sample.distanceFromStart
  }

  predicate Selected(c: Corner, sample: Sample, length: real, closed: bool)
    requires length > 0.0
  {
    ValidSample(sample) && ContainsDistance(c, SamplePlace(sample, length, closed), closed)
  }

  /** The samples of the corner, moved to their place on the lap, in their order. */
  function InCornerSamples(c: Corner, samples: seq<Sample>, length: real, closed: bool): seq<Sample>
    requires length > 0.0
  {
    if samples == [] then []
    else
      var n := |samples| - 1;
      var sample := samples[n];
      InCornerSamples(c, samples[..n], length, closed)
      + (if Selected(c, sample, length, closed) then [sample.(distanceFromStart := SamplePlace(sample, length, closed))]
         else [])
  }

  method SelectSamples(c: Corner, samples: seq<Sample>, length: real, closed: bool) returns (inCorner: seq<Sample>)
    requires length > 0.0
    ensures inCorner == InCornerSamples(c, samples, length, closed)
  {
    inCorner := [];
    hide Normalized, ContainsDistance;
    for i := 0 to |samples|
      invariant inCorner == InCornerSamples(c, samples[..i], length, closed)
    {
      assert samples[..i + 1][..i] == samples[..i];
      var sample := samples[i];
      if !ValidSample(sample) {
        continue;
      }
      var distance := sample.distanceFromStart;
      if closed {
        distance := Normalized(distance, length);
      }
      if ContainsDistance(c, distance, closed) {
        inCorner := inCorner + [sample.(distanceFromStart := distance)];
      }
    }
    assert samples[..|samples|] == samples;
  }

  /** The sample is usable, and the corner takes in its place. */
  ghost predicate BelongsTo(c: Corner, sample: Sample, length: real, closed: bool, place: real) {
    sample.speedMps >= 0.0 && NamesPlace(length, sample.distanceFromStart, closed, place) && TakesIn(c, place, closed)
  }

  lemma SelectedPlace(c: Corner, sample: Sample, length: real, closed: bool)
    requires length > 0.0
    ensures var place := SamplePlace(sample, length, closed);
            && NamesPlace(length, sample.distanceFromStart, closed, place)
            && (Selected(c, sample, length, closed) <==> BelongsTo(c, sample, length, closed, place))
  {
    var place := SamplePlace(sample, length, closed);
    ContainsExactly(c, place, closed);
    if closed {
      NormalizedSpec(sample.distanceFromStart, sample.distanceFromStart, length);
      NormalizeSpec(sample.distanceFromStart, length);
    }
    hide Normalized, NormalizeDistance, Congruent, ContainsDistance, TakesIn;
  }

  lemma PlaceUnique(length: real, distance: real, closed: bool, a: real, b: real)
    requires length > 0.0 && NamesPlace(length, distance, closed, a) && NamesPlace(length, distance, closed, b)
    ensures a == b
  {
    NamedPlace(length, distance, closed, a);
    NamedPlace(length, distance, closed, b);
    hide NamesPlace, Place, Normalized;
  }

  /** One more sample is added at its place exactly if it belongs to the corner; the others stay as they are. */
  lemma SamplesSelected(c: Corner, samples: seq<Sample>, next: Sample, length: real, closed: bool, place: real)
    requires length > 0.0 && NamesPlace(length, next.distanceFromStart, closed, place)
    ensures InCornerSamples(c, [], length, closed) == []
    ensures InCornerSamples(c, samples + [next], length, closed)
            == InCornerSamples(c, samples, length, closed)
               + (if BelongsTo(c, next, length, closed, place) then [next.(distanceFromStart := place)] else [])
  {
    SelectedPlace(c, next, length, closed);
    PlaceUnique(length, next.distanceFromStart, closed, place, SamplePlace(next, length, closed));
    assert (samples + [next])[..|samples|] == samples;
    hide Selected, SamplePlace, BelongsTo, NamesPlace;
  }

  /** The selected samples are exactly those that belong to the corner, each at its place. */
  lemma {:induction false} SelectsExactly(c: Corner, samples: seq<Sample>, length: real, closed: bool, t: Sample)
    requires length > 0.0
    ensures t in InCornerSamples(c, samples, length, closed)
            <==> exists s :: s in samples && BelongsTo(c, s, length, closed, t.distanceFromStart)
                             && t == s.(distanceFromStart := t.distanceFromStart)
  {
    if samples != [] {
      var earlier, next := samples[..|samples| - 1], samples[|samples| - 1];
      assert earlier + [next] == samples;
      SelectsExactly(c, earlier, length, closed, t);
      var place := SamplePlace(next, length, closed);
      SelectedPlace(c, next, length, closed);
      SamplesSelected(c, earlier, next, length, closed, place);
      hide InCornerSamples, SamplePlace, Selected, TakesIn;
      if BelongsTo(c, next, length, closed, t.distanceFromStart) {
        PlaceUnique(length, next.distanceFromStart, closed, place, t.distanceFromStart);
      }
      assert next in samples && forall s :: s in samples ==> s in earlier || s == next;
      hide NamesPlace;
    }
  }

  /** On a layout of accepted corners, closed or open, each sample is analysed in at most one corner. */
  lemma SampleInOneCorner(corners: seq<Corner>, length: real, taken: set<string>, sample: Sample, closed: bool,
                          i: nat, j: nat)
    requires length > 0.0 && Accepted(corners, length, taken) && i < |corners| && j < |corners|
    requires IsManual(corners[i]) && Selected(corners[i], sample, length, closed)
    requires IsManual(corners[j]) && Selected(corners[j], sample, length, closed)
    ensures i == j
  {
    var place := SamplePlace(sample, length, closed);
    NormalizedSpec(sample.distanceFromStart, sample.distanceFromStart, length);
    AcceptedCorner(corners, length, taken, i);
    hide Accepted, Normalized;
    AtMostOneCorner(corners, length, taken, place, i, j);
  }
}
