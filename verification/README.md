# Telemetry core: a Dafny model

This project models the deterministic core of a racing-telemetry backend and proves what it is meant to guarantee.
Telemetry frames of a session come in as batches; the core turns them into

- **track geometry**: cleaned, smoothed, simplified and resampled centerlines (`Smoothing`, `Rdp`, `Resampling`,
  `Baseline`, `Pipeline`, `OutAndBack`), projection onto them (`Geometry`, `Centerlines`) and distances around a loop
  (`Circular`);
- **laps**: a lap-continuity tracker (`LapContinuity`), per-lap samples (`LapSamples`), their values
  (`LapInterpolation`) and when there are any (`LapUsable`), and gap counts (`Gaps`);
- **events**: off-track stints, whole-stream and incremental (`OffTrack`), over whole runs of batches (`OffTrackRuns`),
  the deduplicated store (`Dedup`), and what it holds of the stints (`OffTrackStore`);
- **catalog**: validation of corners and centerlines (`Catalog`), corner lookup and corner samples (`Corners`), and
  layout detection (`Detection`);
- **ingest**: batch normalisation (`Ingest`) and rejection counts over a session (`Rejections`);
- **exact arithmetic**: identifiers (`Ulid`), one-pass statistics (`Statistics`) and the rate limiter (`RateLimiter`).

`Reals`, `Ordering`, `Prelude`, `Laps` and `Telemetry` hold what the others share: products of reals, sorting and
rearranging, result types, lap selection and the frame itself.

Code that the source writes as loops, in-place updates or objects is a method, an array algorithm or a class here, and
is proved against a specification function or predicate; the theorems are lemmas about those. `float64` is `real`,
`math.Sqrt` is a parameter `sqrt` of which only `IsSqrt` is assumed (non-negative, and its square is the argument), the
clock and the random bytes are parameters. `dafny verify dfyconfig.toml` checks the project.

## What the proofs turned up

- **Off-track stints can be lost between batches** (`OffTrackRuns`). Over a whole run of batches, every stint of the
  stream is reported if and only if neither of two things happens (`ReportsAllExactly`). The car is off track across a
  boundary and back on track before the batch ends, and the joined run is long enough: no append reports that stint,
  because the batch that ends it is looked at alone (`AcrossIsLost`, `LostBoundaryStint`). Or the first batch starts off
  track for long enough, comes back and ends off track: its own tail is put in front of it and hides the first stint
  (`LeadIsLost`, `LostFirstStint`).
- **The frames of a first stint can be counted twice** (`OffTrackRuns.TwiceIsLost`). A first batch that is off track
  throughout is joined to itself. Frame counts are right as well if and only if, besides, this does not happen or the
  next batch, by ending off track, still has the run in view.
- **A growing stint leaves one event for each append** (`OffTrackStore`). The deduplication key holds the time range, so
  the store accepts each reported range exactly once at each track and layout (`StoredOnce`), a doubled tail included.
  Without a loss the stored ranges are those that some stint of the stream has had after one of the appends
  (`StoredAreStintsSoFar`), and every stint of the stream is stored if and only if no append loses one
  (`StoresAllExactly`).
- **The lap count is not net of reversing** (`LapContinuity`). Crossing the line backward and forward again counts a
  lap a second time: `ReversedLapCountedTwice` is a run of four calls that counts two laps for one loop driven.
  `LapCountIsNetLoops` shows that the count is right exactly if no call takes the reverse branch to a place ahead of the
  tracked one.
- **Two consecutive resampled points can coincide** (`Pipeline`, `OutAndBack`). The order checks on a generated
  centerline never fail, so besides the seed's metadata a coincidence is the only reason for which one is rejected.
  `RejectedExactly` traces it to the simplified polyline: it passes one point at two consecutive multiples of the step,
  or at the last one and its open end. `DefaultsRejectOutAndBack` is a batch of four frames, out along a straight, back
  and half way out, that is rejected with the default options.
- **An event can be accepted twice inside its cooldown** (`Dedup`). An event that is a cooldown or more older than the
  last accepted one with its key counts as expired and opens the cooldown again; `OutOfOrderRepeats` is an input.
  `AllPairsApartExactly` shows, for every input, that all accepted events with one key are kept apart exactly if no such
  event arrives. Events that are late by less, and keys that interleave in any order, do no harm.
- **`low_confidence` cannot be reported with the default options** (`Detection.DetectedExactly`): every candidate has a
  confidence of at least 0.65, which is what the defaults require.
- **Nothing may follow a wrap-around corner in a layout's list** (`Catalog.AcceptsExactlyDisjoint`), not even an
  enumerated corner without a range.

## Model

| member | source | states |
|---|---|---|
| Geometry.ProjectionOptimalSquared | internal/geometry/centerline.go:162-184 | no point of a segment is nearer, in squared distance, than the clamped projection |
| Geometry.ProjectionOptimal | internal/trackbuilder/geometry.go:239-261 | the same for the distance itself: the clamped projection is a true minimum over the segment |
| Centerlines.NewCenterline | internal/geometry/centerline.go:46-81 | refuses fewer than two points and points that are all the same, and nothing else; otherwise yields a gapless chain of segments of positive length, closed lines returning to their first point |
| Centerlines.CenterlineSegmentsSpec | internal/geometry/centerline.go:46-81 | zero-length hops may be skipped without breaking the chain in space or in arc length, and the total is the length of the path |
| Centerlines.AtArcLengthUnique | internal/geometry/centerline.go:46-81 | a chain has exactly one point at each arc length, at the joints of its segments too |
| Centerlines.PassesPoints | internal/geometry/centerline.go:46-81 | the chain passes every point of the path, at the length of the path up to it |
| Centerlines.Project | internal/geometry/centerline.go:83-107 | returns a projection that none of the segments beats, and none only for a line without segments |
| Centerlines.ProjectionIsNearest | internal/geometry/centerline.go:83-107 | the projection is at least as near as every point of every segment |
| Centerlines.ProjectionIsAtArcLength | internal/geometry/centerline.go:83-129 | the projected point sits at the reported arc length, in [0,total] on an open line and [0,total) on a closed one, and progress is that length over the total |
| Circular.NormalizeSpec | internal/geometry/centerline.go:186-200 | a normalised distance lies in [0,total) and is a whole number of loops away |
| Circular.NormalizePeriodic | internal/geometry/centerline.go:186-200 | two distances normalise to the same place exactly if they differ by whole loops |
| Circular.ForwardDeltaSpec | internal/geometry/centerline.go:131-143 | the forward delta is the advance in [0,total) that leads from the first place to the second; the two directions add up to one loop |
| LapContinuity.Tracker.Update | internal/geometry/lap_continuity.go:58-102 | one call moves the tracker's state by `Step`, or leaves it and reports an invalid length |
| LapContinuity.Tracker.AdvanceClosed | internal/geometry/lap_continuity.go:104-136 | the step by step update on a closed line is `UpdateClosed` |
| LapContinuity.Tracker.AdvanceOpen | internal/geometry/lap_continuity.go:138-163 | the step by step update on an open line is `UpdateOpen` |
| LapContinuity.Tracker.Reset | internal/geometry/lap_continuity.go:50-52 | returns the tracker to the state of a new one |
| LapContinuity.WindingConservation | internal/geometry/lap_continuity.go:58-163 | over every run: start plus meters forward less meters reversed is whole loops for lines crossed forward less backward, plus the current place, which stays in [0,L) and is L times the progress; the total forward is the sum of the forward deltas returned; lap index and lap count are the forward crossings; an open line has no loops |
| LapContinuity.LapCountIsNetLoops | internal/geometry/lap_continuity.go:104-136 | the lap count is the number of whole loops driven exactly if, since the tracker last started over, no call whose reverse delta counts reports a place ahead of the tracked one |
| LapContinuity.ReversedLapCountedTwice | internal/geometry/lap_continuity.go:104-136 | a run that goes over the line, back and over it again counts two laps for one loop driven |
| LapContinuity.MovesOrStands | internal/geometry/lap_continuity.go:58-163 | a call is accepted exactly if the reported place is within the jitter tolerance, the shorter way round, or within the limits of a forward or reverse step, and is a large jump otherwise; jitter, large jumps and refused calls move nothing; every other call lands on the reported place with its progress, and counts its forward or reverse delta and a crossing of the line |
| LapContinuity.StartsAnew | internal/geometry/lap_continuity.go:72-81 | the first call, and one on the other kind of line, are accepted and start new counts at the reported place |
| LapContinuity.PlaceSpec | internal/geometry/lap_continuity.go:66-69 | the reported place is the nearest on an open line and the congruent one on a loop |
| Smoothing.SmoothPoints | internal/trackbuilder/geometry.go:53-89 | the two nested loops compute the window average of every point, with the source's errors and short cuts |
| Smoothing.SmoothingSucceeds | internal/trackbuilder/geometry.go:53-69 | fails exactly for a window that is not odd and positive or for fewer than two points; a window of one and two points change nothing |
| Smoothing.SmoothingAverages | internal/trackbuilder/geometry.go:70-89 | every smoothed coordinate times the window is the sum at the positions around it, around a loop or held at open ends; from point to point it changes by what enters the window less what leaves it |
| Smoothing.SmoothingConservesTotal | internal/trackbuilder/geometry.go:53-89 | smoothing a closed loop keeps every coordinate sum, for any odd window, also one longer than the loop |
| Smoothing.SmoothingStaysInBox | internal/trackbuilder/geometry.go:53-89 | smoothed points stay in the bounding box of the input, open or closed |
| Rdp.FindFarthest | internal/trackbuilder/geometry.go:107-115 | the scan finds the first of the farthest points of a span, and its deviation |
| Rdp.Simplify | internal/trackbuilder/geometry.go:102-121 | the recursion marks in the shared array exactly the points that simplification keeps inside the span, and touches nothing else |
| Rdp.RdpSimplify | internal/trackbuilder/geometry.go:91-133 | the whole simplification returns the kept points in their order |
| Rdp.ErrorBound | internal/trackbuilder/geometry.go:91-133 | both ends are kept, and every dropped point is within epsilon of the segment between its two kept neighbours |
| Rdp.DeviationIsDistanceToSegment | internal/trackbuilder/geometry.go:239-261 | the deviation is within epsilon exactly if some point of the segment is |
| Rdp.EveryPointNearSimplified | internal/trackbuilder/geometry.go:91-133 | every original point is within epsilon of the simplified polyline |
| Rdp.OnlyEndsRemain | internal/trackbuilder/geometry.go:91-133 | only the two ends remain exactly if every inner point is within epsilon of the segment that joins them |
| Rdp.KeptIsNeeded | internal/trackbuilder/geometry.go:102-121 | every kept inner point is farther than epsilon from a segment between two other kept points around it, and the first of the farthest from it |
| Rdp.SimplifyTwice | internal/trackbuilder/geometry.go:91-133 | simplifying a simplified polyline returns it unchanged |
| Resampling.BuildSegments | internal/trackbuilder/geometry.go:175-205 | both branches give the chain of segments of the points |
| Resampling.RepetitionIsHarmless | internal/trackbuilder/geometry.go:175-181 | leaving out a repeated last point of a closed line does not change its chain |
| Resampling.InterpolateSegments | internal/trackbuilder/geometry.go:207-237 | the search returns the point of the first segment that reaches the distance |
| Resampling.InterpolatedAtArcLength | internal/trackbuilder/geometry.go:207-237 | on a chain that point lies at exactly the requested arc length: the clamps never fire |
| Resampling.BuildTargets | internal/trackbuilder/geometry.go:148-160 | the target loop terminates with the multiples of the step below the total, and the total on an open line |
| Resampling.ResamplePolyline | internal/trackbuilder/geometry.go:135-173 | samples the polyline at the targets, with the source's errors in its order |
| Resampling.ResampleSucceeds | internal/trackbuilder/geometry.go:135-173 | succeeds exactly on two or more points that are not all the same, with a positive step that on a closed line is shorter than the line |
| Resampling.ResampledEvenly | internal/trackbuilder/geometry.go:135-173 | accumulated distances start at 0, grow by exactly one step except for a shorter last one on an open line, and never exceed the total |
| Resampling.CoincideExactly | internal/trackbuilder/geometry.go:161-166 | two consecutive samples coincide exactly if the polyline passes one point at both of their distances |
| Resampling.ResampledOnLine | internal/trackbuilder/geometry.go:135-173 | each sample is the point of the polyline at exactly its accumulated distance |
| Pipeline.Build | internal/trackbuilder/pipeline.go:20-98 | runs the stages and the validation of the generated catalog in their order and reports the first failure |
| Pipeline.BuildRan | internal/trackbuilder/pipeline.go:20-66 | a successful build ran all stages on the cleaned positions of the batch, as closed exactly if they return to their start |
| Pipeline.ValidateMetadata | internal/tracks/catalog.go:86-169 | finds the first fault of the track's and layout's ids, names and sources, a layout id equal to the track id included |
| Pipeline.MetadataValid | internal/tracks/catalog.go:86-169 | there is no fault exactly if ids and names are there, the two ids differ and all sources are complete |
| Pipeline.OptionsValid | internal/trackbuilder/options.go:45-59 | options are accepted exactly with a layout id, an odd window and a positive epsilon and step |
| Pipeline.RejectedOnlyForCoincidence | internal/trackbuilder/pipeline.go:46-98 | once resampled, a build fails exactly for the seed's metadata or because two consecutive samples coincide |
| Pipeline.RejectedExactly | internal/trackbuilder/pipeline.go:54-98 | the cause on the simplified polyline: it passes one point at two consecutive multiples of the step, or at the last one and its open end |
| OutAndBack.DefaultsRejectOutAndBack | internal/trackbuilder/pipeline.go:33-98 | four frames that go out along a straight, back and half way out are rejected with the default window, epsilon and step |
| Pipeline.GeneratedLineFollows | internal/trackbuilder/pipeline.go:46-66 | every generated point is on the simplified polyline at its own distance, and every smoothed point is within epsilon of it |
| Pipeline.GeneratedLineStaysInBox | internal/trackbuilder/pipeline.go:33-66 | no stage leaves the bounding box of the reported positions |
| Baseline.CleanupTelemetryPoints | internal/trackbuilder/geometry.go:20-39 | the loop drops the positions that repeat the one kept before |
| Baseline.CleanedSpec | internal/trackbuilder/geometry.go:20-39 | cleaning keeps both ends, leaves no immediate repetition and does not change the length of the path |
| Baseline.CleanedNext | internal/trackbuilder/geometry.go:20-39 | a position is dropped exactly if it repeats the one reported before it |
| Baseline.IsClosedLoop | internal/trackbuilder/geometry.go:41-51 | accepts exactly three or more points whose ends are within 25 m, or 5% of the path, of each other |
| Baseline.ValidateBuildRequest | internal/trackbuilder/pipeline.go:139-159 | reports the first fault of a batch |
| Baseline.RequestValid | internal/trackbuilder/pipeline.go:139-159 | a batch has no fault exactly if it names a session and has frames with positive, strictly increasing timestamps |
| Baseline.FindSeedLayout | internal/trackbuilder/pipeline.go:161-171 | the nested loops find the first entry with the id among all tracks' layouts |
| Baseline.FirstEntrySpec | internal/trackbuilder/pipeline.go:161-171 | that is a layout with the id and none before it, and none only if there is none |
| Baseline.BuildTelemetryBaseline | internal/trackbuilder/baseline.go:57-112 | accepted and rejected laps add up to the samples; the summary is that of the accepted lengths, the average delta is the average length less the catalog's, also as a percentage; each error exactly under its condition |
| Statistics.Summarize | internal/trackbuilder/baseline.go:125-151 | the one-pass loop yields the exact mean, the exact standard deviation around that mean, and members of the series as extremes |
| Statistics.UpdateExact | internal/trackbuilder/baseline.go:140-142 | one round of the loop turns the mean of the values so far into that of one more, and the sum of their squared deviations from the one mean into the sum of the squared deviations from the other |
| Statistics.MeanBetweenExtremes | internal/trackbuilder/baseline.go:125-151 | the mean lies between the minimum and the maximum |
| Statistics.MeanScaled | internal/trackbuilder/baseline.go:92-94 | shifting and scaling a series shifts and scales its mean, which ties the three averages of a report together |
| OffTrack.OffTrackStintEvents | internal/events/producer.go:192-242 | the streak loop reports the stints of a stream |
| OffTrack.StintsReportMaximalRuns | internal/events/producer.go:192-242 | the stints are exactly the events of the maximal off-track runs that last long enough |
| OffTrack.StintsReportFrames | internal/events/producer.go:201-220 | in terms of the frames: a stint has the times, length and lap of its maximal run, a length of at least the minimum, and the severity that the length reaches |
| OffTrack.AppendOffTrackTail | internal/events/producer.go:244-284 | puts the off-track run that precedes the new frames in front of them, under the source's conditions |
| OffTrack.GenerateForAppend | internal/events/producer.go:70-91 | the incremental path reports the stints of the trimmed input |
| OffTrack.StreamingEqualsWhole | internal/events/producer.go:192-284 | an append that ends off track reports exactly what the whole stream has beyond the prefix without its trailing run |
| OffTrack.StreamingExactCondition | internal/events/producer.go:192-284 | for a non-empty prefix, an append reports exactly what the stream has from the prefix's trailing run on if and only if the new frames end off track, or the prefix ends on track, or the run that goes on from the prefix is too short; an earlier append may have reported what is missing |
| OffTrack.FirstBatchExactCondition | internal/events/producer.go:244-284 | a first batch's report, frame counts included, is that of its frames alone if and only if the batch ends on track or the run that ends up at its front is too short |
| OffTrackRuns.ReportsAllExactly | internal/events/producer.go:192-284 | over every run of batches, every stint of the whole stream is reported by some append if and only if no append loses one, by conditions on the batches alone; with the right frame count if and only if, besides, no first batch is counted twice |
| OffTrackRuns.AcrossIsLost | internal/events/producer.go:244-284 | a run off track that crosses a boundary, lasts long enough and ends in a batch that ends on track is a stint of the stream that no append of the run reports |
| OffTrackRuns.LeadIsLost | internal/events/producer.go:244-284 | when a first batch starts off track for long enough, comes back and ends off track, no append reports its first stint |
| OffTrackRuns.TwiceIsLost | internal/events/producer.go:244-284 | a first batch that is off track throughout is reported with twice its frames, and never rightly if nothing follows or the next batch is on track at both ends |
| OffTrackRuns.ReportsAreStints | internal/events/producer.go:192-284 | unless it loses a stint across the boundary, an append reports nothing but stints of the stream so far, up to the frame count |
| OffTrackRuns.LostBoundaryStint | internal/events/producer.go:244-284 | two batches with 600 ms off track across their boundary: a stint of the stream that neither append reports |
| OffTrackRuns.LostFirstStint | internal/events/producer.go:244-284 | a first batch whose own tail hides its first 600 ms off track for good |
| OffTrackStore.StoreEvents | internal/api/routes.go:462-471 | the loop over the events of one append filters them up to the first invalid one, and fails exactly if there is one |
| OffTrackStore.StoredNext | internal/api/routes.go:457-471 | storing append by append accepts what one pass over all events would |
| OffTrackStore.StoredOnce | internal/events/dedup.go:46-103 | after any number of appends, exactly one event is stored for each range that was reported at a place, however often and among whatever other events, and none for any other range |
| OffTrackStore.StoredAreStintsSoFar | internal/api/routes.go:457-471 | without a loss, the stored ranges are exactly those that some stint of the stream has had after one of the appends |
| OffTrackStore.StoresAllExactly | internal/api/routes.go:457-471 | the store accepts every stint of the whole stream if and only if no append loses one |
| Dedup.EventDeduplicator.Filter | internal/events/dedup.go:46-86 | accepts by the last accepted event of each key alone; each decision is taken on what was accepted before it |
| Dedup.EventDeduplicator.Decide | internal/events/dedup.go:55-74 | the map lookups give the decision, its reason and the event it was compared with |
| Dedup.ReasonsExactly | internal/events/dedup.go:55-74 | the reasons tell the cases apart: nothing accepted yet, nothing with the key, the last one with the key far enough away, too near and not older, or too near and older |
| Dedup.FilterSplits | internal/events/dedup.go:46-86 | splitting the input over several calls changes nothing |
| Dedup.RefilterAcceptsAll | internal/events/dedup.go:46-86 | a fresh deduplicator accepts every event of an accepted list |
| Dedup.ConsecutiveApart | internal/events/dedup.go:59-71 | consecutive accepted events with one key are at least a cooldown apart, in any input order |
| Dedup.AllPairsApartExactly | internal/events/dedup.go:59-71 | for every input, all accepted events with one key are at least a cooldown apart if and only if no event arrives that is older than the last accepted one with its key by a cooldown or more |
| Dedup.AllPairsApart | internal/events/dedup.go:59-71 | in particular they are for input that is in time order key by key |
| Dedup.AcceptedOnce | internal/events/dedup.go:46-86 | of the events with a key whose timestamp never varies, exactly one is accepted, whatever comes between |
| Dedup.OutOfOrderRepeats | internal/events/dedup.go:66-71 | an input with such an event, of which a repetition is accepted inside the cooldown |
| Dedup.SuppressedHasWitness | internal/events/dedup.go:59-71 | an event is suppressed exactly if the last accepted event with its key is less than a cooldown away, and that one is reported |
| Dedup.Store.Append | internal/events/store.go:27-52 | the store holds exactly the last `limit` accepted events; an invalid event is refused and changes nothing |
| LapSamples.CollapseDuplicateDistanceFrames | internal/laps/sample.go:249-264 | the aliasing in-place loop leaves exactly the last frame of each run of equal distances in front |
| LapSamples.LastOfRunsSpec | internal/laps/sample.go:249-264 | what is left has strictly increasing distances, from the first distance to the last frame |
| LapSamples.SurvivorIsLastUploaded | internal/laps/sample.go:105-114 | of the lap's frames at one distance the one that is sampled is a newest, and of several of the same time the last in upload order |
| LapSamples.BracketFrames | internal/laps/sample.go:142-160 | the scan returns the first pair that reaches the distance |
| LapSamples.BracketFound | internal/laps/sample.go:142-160 | inside the covered distances bracketing never fails and finds the enclosing pair |
| LapSamples.BuildLapSamples | internal/laps/sample.go:91-140 | sorting, checking, collapsing and the bucket loop give the samples of the lap |
| LapSamples.SamplesAreComplete | internal/laps/sample.go:91-140 | every multiple of the step between the first and last distance has its sample, in increasing order, and there is no other |
| LapSamples.SamplingSucceeds | internal/laps/sample.go:91-140 | succeeds exactly on a named lap with usable distances, two of them distinct, that reach a bucket |
| LapUsable.UsableExactly | internal/laps/sample.go:105-123 | a lap is usable exactly if its frames have distances and none is behind an earlier one, by time and then by upload order |
| LapUsable.SampledExactly | internal/laps/sample.go:91-140 | in terms of the upload: sampling succeeds exactly if the lap is named, the step is positive, the lap is usable and some multiple of the step lies between two of its distances |
| LapInterpolation.KeptDistances | internal/laps/sample.go:249-264 | every distance at which the lap has a frame is kept, and every kept frame is one of the lap |
| LapInterpolation.LapSampleInterpolates | internal/laps/sample.go:162-218 | between two consecutive kept frames every channel is on the straight line between them, optional ones if both frames have them; the timestamp is the line's value rounded to the nearest, and the gear is that of the nearer frame |
| LapSamples.LapSampleTimes | internal/laps/sample.go:162-183 | rounded timestamps never decrease along a lap |
| LapSamples.LapSampleHits | internal/laps/sample.go:162-218 | a sample at the distance of a kept frame reproduces that frame's channels |
| LapSamples.LapSampleRanges | internal/laps/sample.go:162-218 | throttle and brake of normalised frames stay in [0,1] |
| Gaps.CountTelemetryGaps | internal/laps/gap.go:11-43 | filtering, sorting and the counting loop give the gap count |
| Gaps.GapsExactly | internal/laps/gap.go:11-74 | for the lap's timestamps in increasing order, the gaps are exactly the intervals longer than 250 ms and than four times the median interval, with the median given by ranks |
| Gaps.GapsDependOnTimestampSet | internal/laps/gap.go:11-74 | the count depends only on the set of the lap's timestamps: not on order, repetition or other laps |
| Gaps.GapsAtMostHalf | internal/laps/gap.go:11-74 | of m positive intervals at most (m-1)/2 are gaps |
| Gaps.GapsFitIntoLap | internal/laps/gap.go:11-74 | 251 ms for every gap fit between the first and the last timestamp |
| Ulid.EncodeUlid | internal/sessions/id.go:39-72 | the 26 shift-and-mask digits are the base-32 expansion of the 128-bit number |
| Ulid.DigitsWriteNumber | internal/sessions/id.go:39-72 | the digits cut out of the two words write the same number as the sixteen bytes |
| Ulid.EncodingOrder | internal/sessions/id.go:39-72 | the text sorts as the number, and different values have different texts |
| Ulid.NewUlid | internal/sessions/id.go:20-37 | the identifier is that of the last 48 bits of the time followed by the entropy |
| Ulid.IdentifiersSortByTime | internal/sessions/id.go:20-72 | identifiers sort by the time modulo 2 to the power 48 and then by entropy, so a smaller 48-bit time sorts first whatever the entropy |
| RateLimiter.Limiter.constructor | internal/ai/controls.go:148-160 | rates and bursts that are not positive are replaced by the defaults |
| RateLimiter.Limiter.Allow | internal/ai/controls.go:162-187 | one call refills, decides and takes from the session's bucket only, and says how long to wait |
| RateLimiter.TokensInRange | internal/ai/controls.go:162-187 | in every run with an advancing clock every bucket holds between 0 and `burst` tokens |
| RateLimiter.SessionsIndependent | internal/ai/controls.go:162-187 | a session's bucket is what its own calls alone would have made it |
| RateLimiter.DecisionsIndependent | internal/ai/controls.go:162-187 | no decision changes when the calls of other sessions are removed |
| RateLimiter.WindowBound | internal/ai/controls.go:162-187 | in every window of every run one session is allowed at most `burst` calls and `rate` more per second |
| RateLimiter.BurstAllowed | internal/ai/controls.go:162-187 | a session that is new or has rested for burst / rate seconds is allowed its next `burst` calls, however quickly they follow and whatever others do |
| RateLimiter.DeniedUntilWaited | internal/ai/controls.go:180-186 | a denied session is allowed on its next call exactly if it has waited (1 - tokens) / rate |
| RateLimiter.SpacedCallAllowed | internal/ai/controls.go:175-183 | calls at least 1 / rate apart are always allowed |
| Catalog.IdRegistry.Remember | internal/tracks/catalog.go:363-370 | refuses exactly the ids seen before, and remembers the others |
| Catalog.CornerRangeSpec | internal/tracks/catalog.go:307-329 | accepts exactly three distances on the loop whose apex lies inside the corner, and tells those that wrap around |
| Catalog.CheckCorner | internal/tracks/catalog.go:256-282 | the checks of one corner by itself, in their order |
| Catalog.OwnFaultSpec | internal/tracks/catalog.go:256-282 | a corner has no fault of its own exactly if it has a new id, a name, complete sources and, if manual, a proper range, or else no distances |
| Catalog.SourcesComplete | internal/tracks/catalog.go:179-194 | the check of sources finds nothing exactly if each has an address, a type and a date of retrieval |
| Catalog.ValidateCorners | internal/tracks/catalog.go:250-305 | with the three remembered values the loop finds the first corner at fault against any earlier one, and accepts exactly if there is none |
| Catalog.OverlapsRemembered | internal/tracks/catalog.go:283-301 | where the last corner ended and the first one started decide about overlap with every earlier corner |
| Catalog.AtMostOneCorner | internal/tracks/catalog.go:250-305 | every place on the loop lies in at most one manual corner of an accepted list |
| Catalog.AcceptsExactlyDisjoint | internal/tracks/catalog.go:250-305 | among corners with no fault of their own, exactly the lists in order of start, disjoint on the loop and with nothing after a wrap-around corner are accepted |
| Catalog.ValidateCenterLine | internal/tracks/catalog.go:331-361 | accepts exactly no points, or two or more with distances from 0, strictly increasing within the length, and no two consecutive points in one place |
| Catalog.ResampledLineIsOrdered | internal/tracks/catalog.go:345-358 | a resampled polyline always passes the order checks |
| Catalog.CoarseOpenLine | internal/tracks/catalog.go:351-353 | an open line resampled at a step of at least its length keeps its ends only, and is rejected exactly if they coincide |
| Corners.ResolveCurrent | internal/corners/resolver.go:36-81 | names the first corner that holds the place, or the reason set by the first corner that is not manual |
| Corners.ResolutionUnique | internal/corners/resolver.go:36-81 | two answers that fit this description are equal |
| Corners.ResolvedExactly | internal/corners/resolver.go:36-96 | a distance on the layout is in a corner exactly if some manual corner covers its place (on an open layout, one that does not wrap), and the answer describes the first such corner |
| Corners.NormalizedSpec | internal/corners/resolver.go:98-105 | agrees with the centerline's normalisation, and two distances are one place exactly if they differ by whole loops |
| Corners.ResolutionPeriodic | internal/corners/resolver.go:47-69 | on a closed layout the answer depends only on the place on the loop |
| Corners.OneHolder | internal/corners/resolver.go:54-69 | at most one corner of an accepted list holds a place, closed or open |
| Corners.ResolutionIgnoresOrder | internal/corners/resolver.go:36-81 | the whole answer, reasons included, is the same for every arrangement of an accepted list |
| Corners.RangeChecksAgree | internal/corners/analysis.go:236-251 | the analysis accepts exactly the ranges that the catalog accepts |
| Corners.AcceptedCornersAreAnalysable | internal/corners/analysis.go:87-89 | every manual corner of an accepted list passes the range check of the analysis |
| Corners.AtOrAfterApexSpec | internal/corners/analysis.go:253-262 | inside a valid corner, also a wrapping one, the test says whether the car is at least as far into it as the apex |
| Corners.SelectSamples | internal/corners/analysis.go:94-108 | the filter loop selects the samples that `InCornerSamples` describes |
| Corners.SelectsExactly | internal/corners/analysis.go:94-108 | the selected samples are exactly those of non-negative speed whose place the corner covers, at that place |
| Corners.SamplesSelected | internal/corners/analysis.go:94-108 | they keep their order: each sample is added behind the ones before it |
| Corners.SampleInOneCorner | internal/corners/analysis.go:94-108 | on a layout of accepted corners, closed or open, each sample is analysed in at most one corner |
| Detection.ObservedCompletedLapLength | internal/tracks/detection.go:167-202 | the loop finds the on-track length of the first completed lap with enough frames, and none only if there is none |
| Detection.MatchingCandidates | internal/tracks/detection.go:212-253 | returns a ranking of the matches, in an order that the comparison allows |
| Detection.RankedExactly | internal/tracks/detection.go:212-253 | a ranking holds one candidate for every complete layout of the catalog whose length is within the tolerance, and no other, with its length difference and the confidence that falls linearly with it; the more confident come first, then the smaller id |
| Detection.OnTrackLengthAdds | internal/tracks/detection.go:167-210 | driven distance adds up over parts, and a hop counts only with both ends on track |
| Detection.DetectTrack | internal/tracks/detection.go:81-147 | classifies such a ranking for that length |
| Detection.ConfidenceRange | internal/tracks/detection.go:222-231 | confidence lies in [0.65,0.85], and is 0.85 exactly for an exact length |
| Detection.ConfidenceIsRelativeError | internal/tracks/detection.go:222-231 | more confident means a smaller relative length error, and equally confident an equal one |
| Detection.DetectionIgnoresRearrangement | internal/tracks/detection.go:81-147 | with unique layout ids the result does not change when tracks and layouts are rearranged |
| Detection.DetectedExactly | internal/tracks/detection.go:107-147 | the length is unknown exactly if no complete layout is within the tolerance; a layout is detected exactly if its relative error is smallest and it beats every other candidate by more than the margin, or alone is exact, with enough confidence; low confidence takes a requirement above 0.65; an ambiguous result names exactly the candidates within the margin of all others |
| Ingest.Normalize | internal/telemetry/frame.go:178-223 | refuses a batch without session, without frames or with more than 600, and sifts the frames of any other |
| Ingest.BatchRefused | internal/telemetry/frame.go:178-187 | a batch is refused exactly if it names no session, is empty or has more than 600 frames, for the first of these that applies |
| Ingest.RejectionsExplained | internal/telemetry/frame.go:189-309 | every rejection reports the first check that its frame fails: by itself, or else against the last frame accepted before it |
| Ingest.EveryFrameAccounted | internal/telemetry/frame.go:189-222 | accepted and rejected frames add up, and every rejection carries its own index |
| Ingest.AcceptedConsistent | internal/telemetry/frame.go:292-309 | accepted frames are valid, with strictly increasing timestamps, laps that do not decrease and lap times that do not decrease within a lap |
| Ingest.AcceptsAllExactlyConsistent | internal/telemetry/frame.go:178-223 | nothing is rejected exactly if the batch is consistent already |
| Ingest.RenormalizeRejectsNothing | internal/telemetry/frame.go:178-223 | normalising accepted frames rejects nothing |
| Ingest.AcceptedGreedily | internal/telemetry/frame.go:192-220 | a frame is accepted exactly if it is consistent with those accepted before it |
| Rejections.BuildRejectionSummary | internal/telemetry/frame.go:225-241 | lists how often each code occurs, once per code, in the canonical order |
| Rejections.SummaryCounts | internal/telemetry/frame.go:225-241 | a summary lists every code that occurs with the number of its rejections, the more frequent first and equally frequent ones by code |
| Rejections.SummaryUnique | internal/telemetry/frame.go:230-240 | there is one such list, whatever order the map is visited in |
| Rejections.CountsAddUp | internal/telemetry/frame.go:225-241 | the counts of a summary add up to the number of rejections |
| Rejections.AggregateRecords | internal/telemetry/rejection_summary_store.go:109-130 | adds up the counts and the rejected frames of the records |
| Rejections.MemoryRejectionSummaryStore.Append | internal/telemetry/rejection_summary_store.go:46-66 | adds the record to its session only, and drops those without session or rejected frames |
| Rejections.MemoryRejectionSummaryStore.Summary | internal/telemetry/rejection_summary_store.go:68-81 | aggregates the records of the session |
| Rejections.MemoryRejectionSummaryStore.StoreRejections | internal/api/routes.go:475-498 | stores the summary of a batch exactly if it had rejections |
| Rejections.AggregationIsExact | internal/telemetry/rejection_summary_store.go:109-130 | after any run of uploads the aggregate of a session is the summary of all its rejections taken together, and its total is their number and the sum of the counts |

## Left out

- Floating-point rounding, NaN and infinities: all channels are finite reals, so the checks for finiteness never fire; an average that the source makes a NaN is absent here.
- `math.Sqrt` and `math.Mod` are exact: the first is a parameter known only by its square, the second a definition over the reals.
- RateLimiter.Limiter.Allow: does not model that `time.Duration` truncates the waiting time to whole nanoseconds; the clock is a real number of seconds, and runs are about clocks that do not go back.
- Ulid.NewUlid: the time is an unsigned 64-bit word, the random bytes are a parameter, and a failing random source is not modelled.
- Catalog.ValidateCorners: the paths inside error texts are not modelled, so the registry keeps ids only; sectors are not modelled.
- Pipeline.Build: does not model the roughness and deviation figures of the report, nor the generated catalog's version and notes; the source entry that is added to the seed's sources is complete, so it is left out of their check.
- Baseline.BuildTelemetryBaseline: the fixed texts of the report are not modelled.
- Dedup.EventDeduplicator.Filter: how the deduplication key is joined from the event's fields is not modelled; the key is a field of the event.
- Dedup.Store.Append: what makes an event valid is a parameter, and the filters of listing are not modelled.
- OffTrackStore.StoredOnce: the naming of keys is a parameter that tells places and ranges apart and off-track events from all others; the last `limit` accepted events are those that remain to be listed.
- OffTrack.GenerateForAppend: does not model the lap-time regression events, nor the ids, references and texts of events.
- LapSamples.BuildLapSamples: sample ids are not modelled, and sorting is by a stable sort on values; only the collapsing works in place.
- Detection.DetectTrack: capabilities and the fixed texts of the evidence are not modelled; any ranking that the comparison allows stands for the unstable sort.
- Corners.SelectSamples: the metrics computed from the selected samples are not modelled.
- Ingest.Normalize: the wording of rejections is not modelled.
- Rejections.MemoryRejectionSummaryStore.Append: record ids and times are not modelled.
- Retry policy, token budgets and usage accounts: each is settled by reading one branch.
- HTTP handlers, Postgres repositories, configuration, logging, prompts and network adapters: plumbing whose meaning lies outside the core.
- Mutexes and contexts: each locked method is one atomic step.
