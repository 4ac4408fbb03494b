/** Counting rejections by code, per batch and over all batches of a session. */
module Rejections {
  import opened Prelude
  import opened Ordering
  import opened Telemetry
  import opened Ingest

  datatype ReasonCount = ReasonCount(code: string, count: int)

  // ----- counts -----

  function Get(counts: map<string, int>, code: string): int {
    if code in counts then counts[code] else 0
  }

  function Bump(counts: map<string, int>, code: string, n: int): map<string, int> {
    counts[code := Get(counts, code) + n]
  }

  /** How often each code occurs. */
  function Counted(rejections: seq<Rejection>): map<string, int> {
    if rejections == [] then map[]
    else Bump(Counted(rejections[..|rejections| - 1]), rejections[|rejections| - 1].code, 1)
  }

  function WithReasons(counts: map<string, int>, reasons: seq<ReasonCount>): map<string, int> {
    if reasons == [] then counts
    else
      var last := reasons[|reasons| - 1];
      Bump(WithReasons(counts, reasons[..|reasons| - 1]), last.code, last.count)
  }

  /** The sum of the counts for one code. */
  function Tally(reasons: seq<ReasonCount>, code: string): int {
    if reasons == [] then 0
    else
      var last := reasons[|reasons| - 1];
      Tally(reasons[..|reasons| - 1], code) + (if last.code == code then last.count else 0)
  }

  ghost predicate Names(reasons: seq<ReasonCount>, code: string) {
    exists k :: 0 <= k < |reasons| && reasons[k].code == code
  }

  lemma {:induction false} WithReasonsGet(counts: map<string, int>, reasons: seq<ReasonCount>, code: string)
    ensures Get(WithReasons(counts, reasons), code) == Get(counts, code) + Tally(reasons, code)
    ensures code in WithReasons(counts, reasons) <==> code in counts || Names(reasons, code)
  {
    if reasons != [] {
      var n := |reasons| - 1;
      WithReasonsGet(counts, reasons[..n], code);
      assert Names(reasons, code) <==> Names(reasons[..n], code) || reasons[n].code == code by {
        if Names(reasons[..n], code) {
          var k :| 0 <= k < n && reasons[..n][k].code == code;
          assert reasons[k].code == code;
        }
        if Names(reasons, code) {
          var k :| 0 <= k < |reasons| && reasons[k].code == code;
          assert k < n ==> reasons[..n][k].code == code;
        }
      }
    }
  }

  lemma {:induction false} CountedSplits(a: seq<Rejection>, b: seq<Rejection>, code: string)
    ensures Get(Counted(a + b), code) == Get(Counted(a), code) + Get(Counted(b), code)
    ensures code in Counted(a + b) <==> code in Counted(a) || code in Counted(b)
  {
    if b == [] {
      assert a + b == a;
    } else {
      var n := |b| - 1;
      CountedSplits(a, b[..n], code);
      assert (a + b)[..|a| + n] == a + b[..n];
    }
  }

  /** Where the rejections with the code are. */
  ghost function WithCode(rejections: seq<Rejection>, code: string): set<nat> {
    set i: nat | i < |rejections| && rejections[i].code == code
  }

  /** A code is counted once for each rejection that has it. */
  lemma {:induction false} CountedExactly(rejections: seq<Rejection>, code: string)
    ensures Get(Counted(rejections), code) == |WithCode(rejections, code)|
    ensures code in Counted(rejections) <==> WithCode(rejections, code) != {}
  {
    if rejections != [] {
      var n := |rejections| - 1;
      CountedExactly(rejections[..n], code);
      if rejections[n].code == code {
        assert WithCode(rejections, code) == WithCode(rejections[..n], code) + {n};
      } else {
        assert WithCode(rejections, code) == WithCode(rejections[..n], code);
      }
    }
  }

  // ----- the canonical order -----

  /** The more frequent reason first, and the code in alphabetical order among equally frequent ones. */
  predicate Before(a: ReasonCount, b: ReasonCount) {
    a.count > b.count || (a.count == b.count && StringLess(a.code, b.code))
  }

  lemma BeforeTotal(a: ReasonCount, b: ReasonCount)
    ensures Before(a, b) || Before(b, a) || a == b
    ensures !(Before(a, b) && Before(b, a)) && !Before(a, a)
  {
    StringLessTotal(a.code, b.code);
    StringLessTotal(a.code, a.code);
    hide StringLess;
  }

  lemma BeforeTransitive(a: ReasonCount, b: ReasonCount, c: ReasonCount)
    requires Before(a, b) && Before(b, c)
    ensures Before(a, c)
  {
    if a.count == b.count == c.count {
      StringLessTransitive(a.code, b.code, c.code);
    }
    hide StringLess;
  }

  lemma BeforeIsOrder()
    ensures StrictWeakOrder(Before)
  {
    forall a: ReasonCount, b: ReasonCount, c: ReasonCount
      ensures Before(a, b) ==> !Before(b, a)
      ensures !Before(b, a) && !Before(c, b) ==> !Before(c, a)
    {
      BeforeTotal(a, b);
      BeforeTotal(b, c);
      BeforeTotal(a, c);
      if Before(c, a) {
        if Before(a, b) { BeforeTransitive(c, a, b); }
        if Before(b, c) { BeforeTransitive(b, c, a); }
      }
    }
  }

  function Code(reason: ReasonCount): string {
    reason.code
  }

  /** The reasons are exactly the entries of the map, each once. */
  ghost predicate Lists(reasons: seq<ReasonCount>, counts: map<string, int>) {
    && DistinctBy(Code, reasons)
    && (forall r :: r in reasons ==> r.code in counts && counts[r.code] == r.count)
    && forall code :: code in counts ==> ReasonCount(code, counts[code]) in reasons
  }

  /** The reasons of a summary: the entries of the map in the canonical order. */
  ghost predicate IsSummary(reasons: seq<ReasonCount>, counts: map<string, int>) {
    Lists(reasons, counts) && Sorted(Before, reasons)
  }

  /** The entries of the map, visited in an order that is not specified. */
  method Entries(counts: map<string, int>) returns (reasons: seq<ReasonCount>)
    ensures Lists(reasons, counts)
  {
    reasons := [];
    var left := counts.Keys;
    while left != {}
      invariant left <= counts.Keys
      invariant DistinctBy(Code, reasons)
      invariant forall r :: r in reasons ==> r.code in counts && r.code !in left && counts[r.code] == r.count
      invariant forall code :: code in counts && code !in left ==> ReasonCount(code, counts[code]) in reasons
      decreases |left|
    {
      var code :| code in left;
      left := left - {code};
      reasons := reasons + [ReasonCount(code, counts[code])];
    }
  }

  lemma ListsSorted(reasons: seq<ReasonCount>, counts: map<string, int>)
    requires Lists(reasons, counts)
    ensures IsSummary(SortBy(Before, reasons), counts)
  {
    var sorted := SortBy(Before, reasons);
    BeforeIsOrder();
    SortBySorted(Before, reasons);
    PermutationMembers(reasons, sorted);
    DistinctPermuted(Code, reasons, sorted);
  }

  lemma SummaryIsStrict(reasons: seq<ReasonCount>, counts: map<string, int>)
    requires IsSummary(reasons, counts)
    ensures StrictlySorted(Before, reasons)
  {
    hide Before;
    forall i, j | 0 <= i < j < |reasons|
      ensures Before(reasons[i], reasons[j])
    {
      BeforeTotal(reasons[i], reasons[j]);
    }
  }

  lemma SameMultiset(a: seq<ReasonCount>, b: seq<ReasonCount>, counts: map<string, int>)
    requires Lists(a, counts) && Lists(b, counts)
    ensures multiset(a) == multiset(b)
  {
    forall x: ReasonCount
      ensures multiset(a)[x] == multiset(b)[x]
    {
      if x in a {
        var i :| 0 <= i < |a| && a[i] == x;
        OnceIn(Code, a, i);
        assert x in b;
        var j :| 0 <= j < |b| && b[j] == x;
        OnceIn(Code, b, j);
      } else {
        assert x !in b;
      }
    }
  }

  /** There is one summary of a map, so the order in which the map is visited does not show. */
  lemma SummaryUnique(a: seq<ReasonCount>, b: seq<ReasonCount>, counts: map<string, int>)
    requires IsSummary(a, counts) && IsSummary(b, counts)
    ensures a == b
  {
    SummaryIsStrict(a, counts);
    SameMultiset(a, b, counts);
    SortedIsUnique(Before, a, b);
  }

  /** A summary lists every code that occurs with the number of its rejections, the more frequent first and equally
      frequent ones by code. */
  lemma SummaryCounts(rejections: seq<Rejection>, reasons: seq<ReasonCount>)
    requires IsSummary(reasons, Counted(rejections))
    ensures forall r :: r in reasons
              <==> WithCode(rejections, r.code) != {} && r.count == |WithCode(rejections, r.code)|
    ensures forall i, j :: 0 <= i < j < |reasons| ==>
              reasons[i].count > reasons[j].count
              || (reasons[i].count == reasons[j].count && StringLess(reasons[i].code, reasons[j].code))
  {
    SummaryIsStrict(reasons, Counted(rejections));
    forall i, j | 0 <= i < j < |reasons|
      ensures Before(reasons[i], reasons[j])
    {
    }
    forall r: ReasonCount
      ensures r in reasons <==> WithCode(rejections, r.code) != {} && r.count == |WithCode(rejections, r.code)|
    {
      CountedExactly(rejections, r.code);
      assert r == ReasonCount(r.code, r.count);
    }
  }

  method BuildRejectionSummary(rejections: seq<Rejection>) returns (reasons: seq<ReasonCount>)
    ensures IsSummary(reasons, Counted(rejections))
  {
    var counts: map<string, int> := map[];
    for i := 0 to |rejections|
      invariant counts == Counted(rejections[..i])
    {
      assert rejections[..i + 1][..i] == rejections[..i];
      counts := counts[rejections[i].code := Get(counts, rejections[i].code) + 1];
    }
    assert rejections[..|rejections|] == rejections;
    reasons := Entries(counts);
    ListsSorted(reasons, counts);
    reasons := SortBy(Before, reasons);
  }

  // ----- totals -----

  function Total(reasons: seq<ReasonCount>): int {
    if reasons == [] then 0 else Total(reasons[..|reasons| - 1]) + reasons[|reasons| - 1].count
  }

  function Without(rejections: seq<Rejection>, code: string): seq<Rejection> {
    if rejections == [] then []
    else
      var n := |rejections| - 1;
      var before := Without(rejections[..n], code);
      if rejections[n].code == code then before else before + [rejections[n]]
  }

  lemma BumpMinus(counts: map<string, int>, bumped: string, n: int, code: string)
    ensures Bump(counts, bumped, n) - {code}
            == if bumped == code then counts - {code} else Bump(counts - {code}, bumped, n)
    ensures Get(Bump(counts, bumped, n), code) == Get(counts, code) + (if bumped == code then n else 0)
  {
  }

  lemma CountedNext(rejections: seq<Rejection>, next: Rejection)
    ensures Counted(rejections + [next]) == Bump(Counted(rejections), next.code, 1)
  {
    assert (rejections + [next])[..|rejections|] == rejections;
  }

  lemma {:induction false} WithoutCounts(rejections: seq<Rejection>, code: string)
    ensures |rejections| == |Without(rejections, code)| + Get(Counted(rejections), code)
    ensures Counted(Without(rejections, code)) == Counted(rejections) - {code}
  {
    if rejections != [] {
      var n := |rejections| - 1;
      WithoutCounts(rejections[..n], code);
      BumpMinus(Counted(rejections[..n]), rejections[n].code, 1, code);
      CountedNext(Without(rejections[..n], code), rejections[n]);
      CountedNext(rejections[..n], rejections[n]);
      assert rejections[..n] + [rejections[n]] == rejections;
      hide Counted, Bump, Get;
    }
  }

  /** The counts of a summary add up to the number of rejections. */
  lemma {:induction false} CountsAddUp(rejections: seq<Rejection>, reasons: seq<ReasonCount>)
    requires Lists(reasons, Counted(rejections))
    ensures Total(reasons) == |rejections|
    decreases |reasons|
  {
    if reasons == [] {
      NoReasons(rejections);
    } else {
      var n := |reasons| - 1;
      var last := reasons[n];
      WithoutCounts(rejections, last.code);
      assert last in reasons;
      ListsRest(reasons, Counted(rejections));
      CountsAddUp(Without(rejections, last.code), reasons[..n]);
    }
  }

  lemma LastCounted(rejections: seq<Rejection>)
    requires rejections != []
    ensures rejections[|rejections| - 1].code in Counted(rejections)
  {
  }

  lemma NoReasons(rejections: seq<Rejection>)
    requires Lists([], Counted(rejections))
    ensures rejections == []
  {
    hide Counted;
    if rejections != [] {
      LastCounted(rejections);
    }
  }

  lemma ListsRest(reasons: seq<ReasonCount>, counts: map<string, int>)
    requires reasons != [] && Lists(reasons, counts)
    ensures var n := |reasons| - 1; Lists(reasons[..n], counts - {reasons[n].code})
  {
    var n := |reasons| - 1;
    forall r | r in reasons[..n]
      ensures r.code in counts && counts[r.code] == r.count && r.code != reasons[n].code
    {
      var k :| 0 <= k < n && reasons[..n][k] == r;
      assert reasons[k] == r && r in reasons;
    }
    forall code | code in counts && code != reasons[n].code
      ensures ReasonCount(code, counts[code]) in reasons[..n]
    {
      var k :| 0 <= k < |reasons| && reasons[k] == ReasonCount(code, counts[code]);
      assert reasons[..n][k] == reasons[k];
    }
  }

  // ----- the store -----

  /** What is stored of one batch. */
  datatype Record = Record(sessionId: string, receivedFrames: int, acceptedFrames: int, rejectedFrames: int,
                           reasons: seq<ReasonCount>)

  datatype Aggregate = Aggregate(rejectedFrames: int, reasons: seq<ReasonCount>)

  function WithRecords(records: seq<Record>): map<string, int> {
    if records == [] then map[] else WithReasons(WithRecords(records[..|records| - 1]), records[|records| - 1].reasons)
  }

  function RejectedFrames(records: seq<Record>): int {
    if records == [] then 0 else RejectedFrames(records[..|records| - 1]) + records[|records| - 1].rejectedFrames
  }

  method AggregateRecords(records: seq<Record>) returns (r: Aggregate)
    ensures r.rejectedFrames == RejectedFrames(records)
    ensures IsSummary(r.reasons, WithRecords(records))
  {
    var counts: map<string, int> := map[];
    var total := 0;
    for i := 0 to |records|
      invariant counts == WithRecords(records[..i]) && total == RejectedFrames(records[..i])
    {
      assert records[..i + 1][..i] == records[..i];
      var record := records[i];
      total := total + record.rejectedFrames;
      ghost var before := counts;
      for j := 0 to |record.reasons|
        invariant counts == WithReasons(before, record.reasons[..j])
      {
        assert record.reasons[..j + 1][..j] == record.reasons[..j];
        var reason := record.reasons[j];
        counts := counts[reason.code := Get(counts, reason.code) + reason.count];
      }
      assert record.reasons[..|record.reasons|] == record.reasons;
    }
    assert records[..|records|] == records;
    var reasons := Entries(counts);
    ListsSorted(reasons, counts);
    return Aggregate(total, SortBy(Before, reasons));
  }

  function Stored(records: map<string, seq<Record>>, sessionId: string): seq<Record> {
    if sessionId in records then records[sessionId] else []
  }

  /** Records without a session or without rejected frames are not kept. */
  function Appended(records: map<string, seq<Record>>, record: Record): map<string, seq<Record>> {
    if record.sessionId == "" || record.rejectedFrames <= 0 then records
    else records[record.sessionId := Stored(records, record.sessionId) + [record]]
  }

  /** The upload endpoint stores a record exactly if the batch had rejections. */
  ghost predicate IsRecordOf(record: Record, batch: Batch, normalized: Normalized) {
    && record.sessionId == batch.sessionId && record.receivedFrames == |batch.frames|
    && record.acceptedFrames == |normalized.frames| && record.rejectedFrames == |normalized.rejections|
    && IsSummary(record.reasons, Counted(normalized.rejections))
  }

  class MemoryRejectionSummaryStore {
    var records: map<string, seq<Record>>

    constructor ()
      ensures records == map[]
    {
      records := map[];
    }

    method Append(record: Record)
      modifies this
      ensures records == Appended(old(records), record)
    {
      if record.sessionId == "" || record.rejectedFrames <= 0 {
        return;
      }
      records := records[record.sessionId := Stored(records, record.sessionId) + [record]];
    }

    method Summary(sessionId: string) returns (r: Aggregate)
      ensures sessionId == "" ==> r == Aggregate(0, [])
      ensures sessionId != "" ==>
                && r.rejectedFrames == RejectedFrames(Stored(records, sessionId))
                && IsSummary(r.reasons, WithRecords(Stored(records, sessionId)))
    {
      if sessionId == "" {
        return Aggregate(0, []);
      }
      r := AggregateRecords(Stored(records, sessionId));
    }

    /** The part of the upload endpoint that stores what was rejected. */
    method StoreRejections(batch: Batch, normalized: Normalized)
      modifies this
      ensures Step(old(records), Upload(batch, normalized), records)
    {
      if |normalized.rejections| > 0 {
        var reasons := BuildRejectionSummary(normalized.rejections);
        var record := Record(batch.sessionId, |batch.frames|, |normalized.frames|, |normalized.rejections|, reasons);
        Append(record);
        assert IsRecordOf(record, batch, normalized);
      }
    }
  }

  // ----- whole runs -----

  /** The records of a session stand for the given rejections. */
  ghost predicate StandFor(records: seq<Record>, rejections: seq<Rejection>) {
    WithRecords(records) == Counted(rejections) && RejectedFrames(records) == |rejections|
  }

  lemma TallyListed(reasons: seq<ReasonCount>, counts: map<string, int>, code: string)
    requires Lists(reasons, counts)
    ensures Tally(reasons, code) == Get(counts, code)
    ensures Names(reasons, code) <==> code in counts
    decreases |reasons|
  {
    if reasons != [] {
      var n := |reasons| - 1;
      ListsRest(reasons, counts);
      TallyListed(reasons[..n], counts - {reasons[n].code}, code);
      assert reasons[n] in reasons;
    }
  }

  /** One more stored batch stands for its rejections after all earlier ones. */
  lemma StandForNext(records: seq<Record>, earlier: seq<Rejection>, record: Record, batch: Batch,
                    normalized: Normalized)
    requires StandFor(records, earlier) && IsRecordOf(record, batch, normalized)
    ensures StandFor(records + [record], earlier + normalized.rejections)
  {
    assert (records + [record])[..|records|] == records;
    var left, right := WithRecords(records + [record]), Counted(earlier + normalized.rejections);
    forall code: string
      ensures (code in left <==> code in right) && Get(left, code) == Get(right, code)
    {
      WithReasonsGet(WithRecords(records), record.reasons, code);
      CountedSplits(earlier, normalized.rejections, code);
      TallyListed(record.reasons, Counted(normalized.rejections), code);
    }
    SameMap(left, right);
  }

  lemma SameMap(a: map<string, int>, b: map<string, int>)
    requires forall code: string :: (code in a <==> code in b) && Get(a, code) == Get(b, code)
    ensures a == b
  {
    forall code | code in a
      ensures code in b && a[code] == b[code]
    {
      assert Get(a, code) == Get(b, code);
    }
    assert a.Keys == b.Keys;
  }

  /** A batch that was normalised and then given to the store. */
  datatype Upload = Upload(batch: Batch, normalized: Normalized)

  ghost predicate Step(before: map<string, seq<Record>>, upload: Upload, after: map<string, seq<Record>>) {
    if upload.normalized.rejections == [] then after == before
    else exists record :: IsRecordOf(record, upload.batch, upload.normalized) && after == Appended(before, record)
  }

  /** A run of the store from empty to the given records. */
  ghost predicate Reaches(uploads: seq<Upload>, records: map<string, seq<Record>>) {
    if uploads == [] then records == map[]
    else
      var n := |uploads| - 1;
      exists before :: Reaches(uploads[..n], before) && Step(before, uploads[n], records)
  }

  /** All rejections of a session, in the order of the run. */
  ghost function AllRejections(uploads: seq<Upload>, sessionId: string): seq<Rejection> {
    if uploads == [] then []
    else
      var last := uploads[|uploads| - 1];
      AllRejections(uploads[..|uploads| - 1], sessionId)
      + (if last.batch.sessionId == sessionId then last.normalized.rejections else [])
  }

  /** After any run the records of a session stand for all its rejections. */
  lemma {:induction false} RunStandsFor(uploads: seq<Upload>, records: map<string, seq<Record>>, sessionId: string)
    requires Reaches(uploads, records) && sessionId != ""
    ensures StandFor(Stored(records, sessionId), AllRejections(uploads, sessionId))
  {
    if uploads != [] {
      var n := |uploads| - 1;
      var last := uploads[n];
      var before :| Reaches(uploads[..n], before) && Step(before, last, records);
      RunStandsFor(uploads[..n], before, sessionId);
      var earlier := AllRejections(uploads[..n], sessionId);
      assert earlier + [] == earlier;
      if last.normalized.rejections != [] && last.batch.sessionId == sessionId {
        var record :| IsRecordOf(record, last.batch, last.normalized) && records == Appended(before, record);
        StandForNext(Stored(before, sessionId), earlier, record, last.batch, last.normalized);
      }
      hide Reaches, StandFor, IsSummary;
    }
  }

  /** What the store reports for a session after any run of uploads is the summary of all its rejections taken
      together; the number of rejected frames is their number and the sum of the counts. */
  lemma AggregationIsExact(uploads: seq<Upload>, records: map<string, seq<Record>>, sessionId: string, r: Aggregate)
    requires Reaches(uploads, records) && sessionId != ""
    requires r.rejectedFrames == RejectedFrames(Stored(records, sessionId))
    requires IsSummary(r.reasons, WithRecords(Stored(records, sessionId)))
    ensures var all := AllRejections(uploads, sessionId);
            && IsSummary(r.reasons, Counted(all))
            && r.rejectedFrames == |all| == Total(r.reasons)
  {
    RunStandsFor(uploads, records, sessionId);
    hide Reaches, Lists;
    CountsAddUp(AllRejections(uploads, sessionId), r.reasons);
  }
}
