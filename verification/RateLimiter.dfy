/** The token buckets that limit how often each session may ask the assistant. Time is in seconds. */
module RateLimiter {
  import opened Prelude
  import opened Reals

  datatype Bucket = Bucket(tokens: real, lastRefill: real)

  datatype Limits = Limits(rate: real, burst: int) {
    predicate Valid() {
      rate > 0.0 && burst >= 1
    }
  }

  /** The limits in force: a rate or burst that is not positive is replaced by the default. */
  function Configured(ratePerSec: real, burst: int): (r: Limits)
    ensures r.Valid()
  {
    Limits(if ratePerSec <= 0.0 then 10.0 else ratePerSec, if burst <= 0 then 5 else burst)
  }

  function Earned(limits: Limits, elapsed: real): real {
    Times(elapsed, limits.rate)
  }

  /** The tokens at hand at a given time; a session that has not called yet has a full bucket. */
  function Level(limits: Limits, bucket: Option<Bucket>, now: real): real {
    match bucket
    case None => limits.burst as real
    case Some(b) => Min(limits.burst as real, b.tokens + Earned(limits, now - b.lastRefill))
  }

  function Admits(limits: Limits, bucket: Option<Bucket>, now: real): bool {
    Level(limits, bucket, now) >= 1.0
  }

  function Next(limits: Limits, bucket: Option<Bucket>, now: real): Bucket {
    var level := Level(limits, bucket, now);
    Bucket(if level >= 1.0 then level - 1.0 else level, now)
  }

  function Lookup(sessions: map<string, Bucket>, session: string): Option<Bucket> {
    if session in sessions then Some(sessions[session]) else None
  }

  function Wait(limits: Limits, tokens: real): real
    requires limits.Valid()
  {
    (1.0 - tokens) / limits.rate
  }

  class Limiter {
    const limits: Limits
    var sessions: map<string, Bucket>

    constructor (ratePerSec: real, burst: int)
      ensures limits.Valid()
      ensures limits.rate == if ratePerSec > 0.0 then ratePerSec else 10.0
      ensures limits.burst == if burst > 0 then burst else 5
      ensures sessions == map[]
    {
      limits := Configured(ratePerSec, burst);
      sessions := map[];
    }

    method Allow(session: string, now: real) returns (allowed: bool, retryAfter: real)
      requires limits.Valid()
      modifies this`sessions
      ensures allowed == Admits(limits, Lookup(old(sessions), session), now)
      ensures sessions == old(sessions)[session := Next(limits, Lookup(old(sessions), session), now)]
      ensures retryAfter == if allowed then 0.0 else Wait(limits, sessions[session].tokens)
    {
      if session !in sessions {
        sessions := sessions[session := Bucket(limits.burst as real - 1.0, now)];
        return true, 0.0;
      }
      var bucket := sessions[session];
      var elapsed := now - bucket.lastRefill;
      var tokens := Min(limits.burst as real, bucket.tokens + Times(elapsed, limits.rate));
      if tokens >= 1.0 {
        sessions := sessions[session := Bucket(tokens - 1.0, now)];
        return true, 0.0;
      }
      sessions := sessions[session := Bucket(tokens, now)];
      return false, (1.0 - tokens) / limits.rate;
    }
  }

  // ----- runs -----

  datatype Call = Call(session: string, now: real)

  /** The buckets after a run of calls on a fresh limiter. */
  ghost function Run(limits: Limits, calls: seq<Call>): map<string, Bucket> {
    if calls == [] then map[]
    else
      var n := |calls| - 1;
      var before := Run(limits, calls[..n]);
      before[calls[n].session := Next(limits, Lookup(before, calls[n].session), calls[n].now)]
  }

  lemma RunStep(limits: Limits, calls: seq<Call>, n: nat)
    requires 0 < n <= |calls|
    ensures var before, call := Run(limits, calls[..n - 1]), calls[n - 1];
            Run(limits, calls[..n]) == before[call.session := Next(limits, Lookup(before, call.session), call.now)]
  {
    assert calls[..n][..n - 1] == calls[..n - 1];
    hide Next;
  }

  /** The decision on the `k`-th call of a run. */
  ghost predicate Allowed(limits: Limits, calls: seq<Call>, k: nat)
    requires k < |calls|
  {
    Admits(limits, Lookup(Run(limits, calls[..k]), calls[k].session), calls[k].now)
  }

  ghost predicate ClockAdvances(calls: seq<Call>) {
    forall i, j :: 0 <= i < j < |calls| ==> calls[i].now <= calls[j].now
  }

  /** How many calls of the session among those numbered `first` up to `end` are allowed. */
  ghost function AllowedCount(limits: Limits, calls: seq<Call>, session: string, first: nat, end: nat): nat
    requires first <= end <= |calls|
    decreases end - first
  {
    if first == end then 0
    else
      AllowedCount(limits, calls, session, first, end - 1)
      + (if calls[end - 1].session == session && Allowed(limits, calls, end - 1) then 1 else 0)
  }

  lemma EarnedFacts(limits: Limits, a: real, b: real)
    requires limits.Valid()
    ensures a >= 0.0 ==> Earned(limits, a) >= 0.0
    ensures Earned(limits, a + b) == Earned(limits, a) + Earned(limits, b)
    ensures Earned(limits, a - b) == Earned(limits, a) - Earned(limits, b)
    ensures Earned(limits, 0.0) == 0.0
  {
    TimesSum(limits.rate, a, b);
    TimesSign(a, limits.rate);
    TimesUnits(limits.rate);
    hide Times;
  }

  // ----- tokens stay in range -----

  ghost predicate InRange(limits: Limits, bucket: Bucket, now: real) {
    0.0 <= bucket.tokens <= limits.burst as real && bucket.lastRefill <= now
  }

  lemma LevelInRange(limits: Limits, bucket: Option<Bucket>, now: real)
    requires limits.Valid()
    requires bucket.Some? ==> InRange(limits, bucket.value, now)
    ensures 0.0 <= Level(limits, bucket, now) <= limits.burst as real
    ensures InRange(limits, Next(limits, bucket, now), now)
  {
    if bucket.Some? {
      EarnedFacts(limits, now - bucket.value.lastRefill, 0.0);
    }
    hide Earned;
  }

  /** In every run every bucket holds between 0 and `burst` tokens. */
  lemma {:induction false} TokensInRange(limits: Limits, calls: seq<Call>, now: real)
    requires limits.Valid() && ClockAdvances(calls)
    requires forall k :: 0 <= k < |calls| ==> calls[k].now <= now
    ensures forall session :: session in Run(limits, calls) ==> InRange(limits, Run(limits, calls)[session], now)
  {
    if calls != [] {
      var n := |calls| - 1;
      TokensInRange(limits, calls[..n], calls[n].now);
      LevelInRange(limits, Lookup(Run(limits, calls[..n]), calls[n].session), calls[n].now);
      hide Next, Level;
    }
  }

  // ----- sessions are independent -----

  ghost function CallsOf(calls: seq<Call>, session: string): seq<Call> {
    if calls == [] then []
    else
      var n := |calls| - 1;
      var earlier := CallsOf(calls[..n], session);
      if calls[n].session == session then earlier + [calls[n]] else earlier
  }

  /** A session's bucket is what its own calls alone would have made it. */
  lemma {:induction false} SessionsIndependent(limits: Limits, calls: seq<Call>, session: string)
    ensures Lookup(Run(limits, calls), session) == Lookup(Run(limits, CallsOf(calls, session)), session)
  {
    hide Next;
    if calls != [] {
      var n := |calls| - 1;
      SessionsIndependent(limits, calls[..n], session);
      if calls[n].session == session {
        var own := CallsOf(calls[..n], session);
        RunStep(limits, own + [calls[n]], |own| + 1);
        assert (own + [calls[n]])[..|own|] == own && (own + [calls[n]])[..|own| + 1] == own + [calls[n]];
      }
    }
  }

  /** So is every decision: it does not change when the calls of all other sessions are removed. */
  lemma DecisionsIndependent(limits: Limits, calls: seq<Call>, k: nat)
    requires k < |calls|
    ensures var own := CallsOf(calls[..k + 1], calls[k].session);
            && |own| > 0 && own[|own| - 1] == calls[k]
            && (Allowed(limits, calls, k) <==> Allowed(limits, own, |own| - 1))
  {
    var session := calls[k].session;
    assert calls[..k + 1][..k] == calls[..k];
    var before := CallsOf(calls[..k], session);
    var own := CallsOf(calls[..k + 1], session);
    assert own[..|own| - 1] == before;
    SessionsIndependent(limits, calls[..k], session);
    hide Admits;
  }

  // ----- how much one session gets -----

  lemma NextLevel(limits: Limits, bucket: Option<Bucket>, now: real, later: real)
    requires limits.Valid() && now <= later
    ensures Level(limits, Some(Next(limits, bucket, now)), later)
            <= Level(limits, bucket, now) - (if Admits(limits, bucket, now) then 1.0 else 0.0)
              + Earned(limits, later - now)
  {
    hide Earned;
  }

  /** What has been allowed since call `first` and what is still at hand is paid for by one full bucket and
      the tokens earned since. */
  lemma {:induction false} Paid(limits: Limits, calls: seq<Call>, session: string, first: nat, end: nat, later: real)
    requires limits.Valid() && ClockAdvances(calls) && first <= end <= |calls| && first < |calls|
    requires calls[first].now <= later && (end > first ==> calls[end - 1].now <= later)
    ensures AllowedCount(limits, calls, session, first, end) as real
            + Level(limits, Lookup(Run(limits, calls[..end]), session), later)
            <= limits.burst as real + Earned(limits, later - calls[first].now)
    decreases end
  {
    var start := calls[first].now;
    EarnedFacts(limits, later - start, 0.0);
    if end == first {
      FullAtMost(limits, Lookup(Run(limits, calls[..end]), session), later);
      hide Earned, Level;
    } else {
      var last := calls[end - 1];
      RunStep(limits, calls, end);
      var before := Lookup(Run(limits, calls[..end - 1]), session);
      EarnedFacts(limits, last.now - start, later - last.now);
      NextLevel(limits, before, last.now, later);
      hide Earned, Level, Next, Admits, Run;
      if last.session == session {
        Paid(limits, calls, session, first, end - 1, last.now);
      } else {
        Paid(limits, calls, session, first, end - 1, later);
      }
    }
  }

  lemma FullAtMost(limits: Limits, bucket: Option<Bucket>, now: real)
    ensures Level(limits, bucket, now) <= limits.burst as real
  {
  }

  lemma ClockPrefix(calls: seq<Call>, n: nat)
    requires ClockAdvances(calls) && n <= |calls|
    ensures ClockAdvances(calls[..n])
  {
  }

  /** In every window of every run one session is allowed at most `burst` calls and `rate` more per second. */
  lemma WindowBound(limits: Limits, calls: seq<Call>, session: string, first: nat, end: nat)
    requires limits.Valid() && ClockAdvances(calls) && first < end <= |calls|
    ensures AllowedCount(limits, calls, session, first, end) as real
            <= limits.burst as real + Earned(limits, calls[end - 1].now - calls[first].now)
  {
    var now := calls[end - 1].now;
    Paid(limits, calls, session, first, end, now);
    ClockPrefix(calls, end);
    TokensInRange(limits, calls[..end], now);
    LevelInRange(limits, Lookup(Run(limits, calls[..end]), session), now);
    hide Earned, Level, Run, AllowedCount, Next;
  }

  // ----- waiting -----

  /** A session that is denied is allowed on its next call exactly if it has waited as long as it was told. */
  lemma DeniedUntilWaited(limits: Limits, bucket: Option<Bucket>, now: real, later: real)
    requires limits.Valid() && !Admits(limits, bucket, now)
    ensures var denied := Next(limits, bucket, now);
            Admits(limits, Some(denied), later) <==> later - now >= Wait(limits, denied.tokens)
  {
    var tokens := Level(limits, bucket, now);
    var wait := Quotient(1.0 - tokens, limits.rate);
    var waited := later - now;
    TimesCommutes(waited, limits.rate);
    hide Times;
    if waited >= wait {
      TimesOrder(limits.rate, wait, waited);
    } else {
      TimesStrict(limits.rate, waited, wait);
    }
  }

  /** A session is allowed every call that comes at least `1 / rate` seconds after its previous one. */
  lemma SpacedCallAllowed(limits: Limits, bucket: Bucket, now: real)
    requires limits.Valid() && bucket.tokens >= 0.0 && now - bucket.lastRefill >= 1.0 / limits.rate
    ensures Admits(limits, Some(bucket), now)
  {
    var interval := Quotient(1.0, limits.rate);
    TimesOrder(limits.rate, interval, now - bucket.lastRefill);
    TimesCommutes(limits.rate, now - bucket.lastRefill);
    hide Times;
  }

  // ----- bursts -----

  /** How many calls the session makes among those numbered `first` up to `end`. */
  ghost function CallCount(calls: seq<Call>, session: string, first: nat, end: nat): nat
    requires first <= end <= |calls|
    decreases end - first
  {
    if first == end then 0
    else CallCount(calls, session, first, end - 1) + (if calls[end - 1].session == session then 1 else 0)
  }

  /** The session has not called before call `first`, or not for as long as it takes to earn a full bucket. */
  ghost predicate Rested(limits: Limits, calls: seq<Call>, session: string, first: nat)
    requires limits.Valid() && first < |calls|
  {
    forall k :: 0 <= k < first && calls[k].session == session ==>
      calls[first].now - calls[k].now >= (limits.burst as real) / limits.rate
  }

  /** A bucket was last refilled at a call of its session. */
  lemma {:induction false} RefilledAtCall(limits: Limits, calls: seq<Call>, session: string)
    ensures session in Run(limits, calls) ==>
              exists k :: 0 <= k < |calls| && calls[k].session == session
                          && calls[k].now == Run(limits, calls)[session].lastRefill
  {
    hide Level;
    if calls != [] {
      var n := |calls| - 1;
      RefilledAtCall(limits, calls[..n], session);
      if session in Run(limits, calls) {
        if calls[n].session == session {
          assert calls[n].now == Run(limits, calls)[session].lastRefill;
        } else {
          var k :| 0 <= k < n && calls[..n][k].session == session
                   && calls[..n][k].now == Run(limits, calls[..n])[session].lastRefill;
          assert calls[k].session == session && calls[k].now == Run(limits, calls)[session].lastRefill;
        }
      }
    }
  }

  lemma FullAfterRest(limits: Limits, bucket: Bucket, now: real)
    requires limits.Valid() && bucket.tokens >= 0.0
    requires now - bucket.lastRefill >= (limits.burst as real) / limits.rate
    ensures Level(limits, Some(bucket), now) == limits.burst as real
  {
    var rest := Quotient(limits.burst as real, limits.rate);
    TimesOrder(limits.rate, rest, now - bucket.lastRefill);
    TimesCommutes(limits.rate, now - bucket.lastRefill);
    hide Times;
  }

  lemma RestedIsFull(limits: Limits, calls: seq<Call>, session: string, first: nat)
    requires limits.Valid() && ClockAdvances(calls) && first < |calls| && Rested(limits, calls, session, first)
    ensures Level(limits, Lookup(Run(limits, calls[..first]), session), calls[first].now) == limits.burst as real
  {
    ClockPrefix(calls, first);
    TokensInRange(limits, calls[..first], calls[first].now);
    RefilledAtCall(limits, calls[..first], session);
    if session in Run(limits, calls[..first]) {
      var bucket := Run(limits, calls[..first])[session];
      var k :| 0 <= k < first && calls[..first][k].session == session && calls[..first][k].now == bucket.lastRefill;
      assert calls[k].session == session;
      assert InRange(limits, bucket, calls[first].now);
      FullAfterRest(limits, bucket, calls[first].now);
    }
    hide Level, Run;
  }

  /** A later level is no lower. */
  lemma LevelGrows(limits: Limits, bucket: Option<Bucket>, now: real, later: real)
    requires limits.Valid() && now <= later
    ensures Level(limits, bucket, now) <= Level(limits, bucket, later)
  {
    if bucket.Some? {
      EarnedFacts(limits, later - now, now - bucket.value.lastRefill);
    }
    hide Earned;
  }

  /** A call takes one token at most. */
  lemma TakesOne(limits: Limits, bucket: Option<Bucket>, now: real)
    requires limits.Valid()
    ensures Level(limits, Some(Next(limits, bucket, now)), now) >= Level(limits, bucket, now) - 1.0
  {
    EarnedFacts(limits, 0.0, 0.0);
    hide Earned;
  }

  /** Since a rested session's first call, only its own calls have taken tokens, one each. */
  lemma {:induction false} AtHand(limits: Limits, calls: seq<Call>, session: string, first: nat, end: nat, later: real)
    requires limits.Valid() && ClockAdvances(calls) && first <= end <= |calls| && first < |calls|
    requires Rested(limits, calls, session, first)
    requires calls[first].now <= later && (end > first ==> calls[end - 1].now <= later)
    ensures Level(limits, Lookup(Run(limits, calls[..end]), session), later)
            >= limits.burst as real - CallCount(calls, session, first, end) as real
    decreases end
  {
    if end == first {
      RestedIsFull(limits, calls, session, first);
      LevelGrows(limits, Lookup(Run(limits, calls[..end]), session), calls[first].now, later);
      hide Level, Run;
    } else {
      var last := calls[end - 1];
      RunStep(limits, calls, end);
      assert end - 1 > first ==> calls[end - 2].now <= last.now;
      AtHand(limits, calls, session, first, end - 1, last.now);
      var before := Lookup(Run(limits, calls[..end - 1]), session);
      TakesOne(limits, before, last.now);
      LevelGrows(limits, before, last.now, later);
      LevelGrows(limits, Some(Next(limits, before, last.now)), last.now, later);
      hide Level, Next, Run;
    }
  }

  /** A session that is new or has rested is allowed its next `burst` calls, however quickly they follow each other
      and whatever other sessions do. */
  lemma BurstAllowed(limits: Limits, calls: seq<Call>, first: nat, k: nat)
    requires limits.Valid() && ClockAdvances(calls) && first <= k < |calls|
    requires Rested(limits, calls, calls[k].session, first)
    requires CallCount(calls, calls[k].session, first, k) < limits.burst
    ensures Allowed(limits, calls, k)
  {
    assert k > first ==> calls[k - 1].now <= calls[k].now;
    AtHand(limits, calls, calls[k].session, first, k, calls[k].now);
    hide Level, Run, CallCount, Rested;
  }
}
