/** Suppressing repeated events inside a cooldown, and the bounded store behind it. */
module Dedup {
  import opened Prelude

  const DEFAULT_COOLDOWN_MS := 30000
  const DEFAULT_STORED_EVENTS_LIMIT := 1000

  /** An event; `key` is its deduplication key. */
  datatype Event = Event(eventId: string, key: string, timestampUnixMs: int)

  datatype Reason = FirstSeen | DifferentContext | CooldownExpired | DuplicateCooldown | OutOfOrderCooldown

  datatype Decision = Decision(event: Event, accepted: bool, reason: Reason, previous: Option<Event>)

  function Cooldown(windowMs: int): (r: int)
    ensures r > 0
  {
    if windowMs <= 0 then DEFAULT_COOLDOWN_MS else windowMs
  }

  // ----- deciding on the accepted history -----

  /** The last event of the history with the key. */
  function LastWith(history: seq<Event>, key: string): (r: Option<Event>)
    ensures r.Some? ==> r.value in history && r.value.key == key
    ensures r.None? ==> forall e :: e in history ==> e.key != key
  {
    if history == [] then None
    else if history[|history| - 1].key == key then Some(history[|history| - 1])
    else LastWith(history[..|history| - 1], key)
  }

  /** The two times are less than a cooldown apart, in either direction. */
  predicate Near(a: int, b: int, cooldown: int) {
    -cooldown < a - b < cooldown
  }

  predicate Accepts(history: seq<Event>, event: Event, cooldown: int) {
    var previous := LastWith(history, event.key);
    previous.Some? ==> !Near(event.timestampUnixMs, previous.value.timestampUnixMs, cooldown)
  }

  /** The events that a deduplicator with this history of accepted events accepts. */
  function Filtered(history: seq<Event>, events: seq<Event>, cooldown: int): seq<Event> {
    if events == [] then []
    else
      var n := |events| - 1;
      var before := Filtered(history, events[..n], cooldown);
      if Accepts(history + before, events[n], cooldown) then before + [events[n]] else before
  }

  /** The decision on an event: why it is accepted or suppressed, and the event it was compared with. */
  function Decided(history: seq<Event>, event: Event, cooldown: int): Decision {
    match LastWith(history, event.key)
    case None => Decision(event, true, if history == [] then FirstSeen else DifferentContext, None)
    case Some(previous) =>
      var delta := event.timestampUnixMs - previous.timestampUnixMs;
      if !Near(event.timestampUnixMs, previous.timestampUnixMs, cooldown) then
        Decision(event, true, CooldownExpired, Some(previous))
      else Decision(event, false, if delta >= 0 then DuplicateCooldown else OutOfOrderCooldown, Some(previous))
  }

  /** Everything accepted by the time the `k`-th of the events is looked at. */
  ghost function HistoryAt(history: seq<Event>, events: seq<Event>, k: nat, cooldown: int): seq<Event>
    requires k <= |events|
  {
    history + Filtered(history, events[..k], cooldown)
  }

  /** Each decision is taken on what was accepted before it. */
  ghost predicate AreDecisions(decisions: seq<Decision>, history: seq<Event>, events: seq<Event>, cooldown: int) {
    && |decisions| <= |events|
    && forall k :: 0 <= k < |decisions| ==>
         decisions[k] == Decided(HistoryAt(history, events, k, cooldown), events[k], cooldown)
  }

  lemma DecisionsNext(decisions: seq<Decision>, history: seq<Event>, events: seq<Event>, cooldown: int, next: Decision)
    requires AreDecisions(decisions, history, events, cooldown) && |decisions| < |events|
    requires next == Decided(HistoryAt(history, events, |decisions|, cooldown), events[|decisions|], cooldown)
    ensures AreDecisions(decisions + [next], history, events, cooldown)
  {
    hide Decided, HistoryAt;
  }

  /** The map holds the last accepted event of every key. */
  ghost predicate Represents(seen: map<string, Event>, history: seq<Event>) {
    forall key: string :: (if key in seen then Some(seen[key]) else None) == LastWith(history, key)
  }

  lemma RepresentsEmpty(seen: map<string, Event>, history: seq<Event>)
    requires Represents(seen, history)
    ensures |seen| == 0 <==> history == []
  {
    if history != [] {
      assert LastWith(history, history[0].key).Some?;
      assert history[0].key in seen;
    }
    if |seen| != 0 {
      var key :| key in seen;
      assert LastWith(history, key).Some?;
    }
  }

  lemma RepresentsNext(seen: map<string, Event>, history: seq<Event>, event: Event)
    requires Represents(seen, history)
    ensures Represents(seen[event.key := event], history + [event])
  {
    assert (history + [event])[..|history|] == history;
  }

  lemma JoinNext(a: seq<Event>, b: seq<Event>, event: Event)
    ensures (a + b) + [event] == a + (b + [event])
  {
  }

  class EventDeduplicator {
    const cooldown: int
    var seen: map<string, Event>
    /** All events accepted so far. */
    ghost var history: seq<Event>

    ghost predicate Valid()
      reads this
    {
      cooldown > 0 && Represents(seen, history)
    }

    constructor (windowMs: int)
      ensures Valid() && history == [] && cooldown == if windowMs > 0 then windowMs else 30000
    {
      cooldown := Cooldown(windowMs);
      seen := map[];
      history := [];
    }

    method Filter(events: seq<Event>) returns (accepted: seq<Event>, decisions: seq<Decision>)
      requires Valid()
      modifies this
      ensures Valid()
      ensures accepted == Filtered(old(history), events, cooldown)
      ensures history == old(history) + accepted
      ensures |decisions| == |events| && AreDecisions(decisions, old(history), events, cooldown)
    {
      accepted, decisions := [], [];
      assert HistoryAt(history, events, 0, cooldown) == history;
      hide Filtered, Decided, Represents, AreDecisions, HistoryAt;
      NoDecisions(history, events, cooldown);
      for i := 0 to |events|
        invariant Valid()
        invariant accepted == Filtered(old(history), events[..i], cooldown)
        invariant history == HistoryAt(old(history), events, i, cooldown)
        invariant |decisions| == i && AreDecisions(decisions, old(history), events, cooldown)
      {
        var event := events[i];
        var decision := Decide(event);
        FilteredStep(old(history), events, i, cooldown);
        RepresentsNext(seen, history, event);
        DecisionsNext(decisions, old(history), events, cooldown, decision);
        decisions := decisions + [decision];
        if !decision.accepted {
          continue;
        }
        seen := seen[event.key := event];
        history, accepted := history + [event], accepted + [event];
      }
      WholeHistory(old(history), events, cooldown);
    }

    method Decide(event: Event) returns (decision: Decision)
      requires Valid()
      ensures decision == Decided(history, event, cooldown)
    {
      RepresentsEmpty(seen, history);
      assert (if event.key in seen then Some(seen[event.key]) else None) == LastWith(history, event.key);
      hide LastWith;
      decision := Decision(event, true, FirstSeen, None);
      if event.key in seen {
        var previous := seen[event.key];
        decision := decision.(previous := Some(previous));
        var delta := event.timestampUnixMs - previous.timestampUnixMs;
        if delta >= 0 && delta < cooldown {
          decision := decision.(accepted := false, reason := DuplicateCooldown);
        } else if delta < 0 && -delta < cooldown {
          decision := decision.(accepted := false, reason := OutOfOrderCooldown);
        } else {
          decision := decision.(reason := CooldownExpired);
        }
      } else if |seen| > 0 {
        decision := decision.(reason := DifferentContext);
      }
    }
  }

  lemma FilteredStep(history: seq<Event>, events: seq<Event>, i: nat, cooldown: int)
    requires i < |events|
    ensures var now, accepted := HistoryAt(history, events, i, cooldown), Filtered(history, events[..i], cooldown);
            if Decided(now, events[i], cooldown).accepted then
              && Filtered(history, events[..i + 1], cooldown) == accepted + [events[i]]
              && HistoryAt(history, events, i + 1, cooldown) == now + [events[i]]
            else
              && Filtered(history, events[..i + 1], cooldown) == accepted
              && HistoryAt(history, events, i + 1, cooldown) == now
  {
    assert events[..i + 1][..i] == events[..i];
    JoinNext(history, Filtered(history, events[..i], cooldown), events[i]);
  }

  lemma WholeHistory(history: seq<Event>, events: seq<Event>, cooldown: int)
    ensures events[..|events|] == events
    ensures HistoryAt(history, events, |events|, cooldown) == history + Filtered(history, events, cooldown)
  {
    assert events[..|events|] == events;
    hide Filtered;
  }

  lemma NoDecisions(history: seq<Event>, events: seq<Event>, cooldown: int)
    ensures AreDecisions([], history, events, cooldown) && Filtered(history, events[..0], cooldown) == []
  {
  }

  // ----- whole runs -----

  /** Splitting the input over several calls changes nothing. */
  lemma {:induction false} FilterSplits(history: seq<Event>, a: seq<Event>, b: seq<Event>, cooldown: int)
    ensures var first := Filtered(history, a, cooldown);
            Filtered(history, a + b, cooldown) == first + Filtered(history + first, b, cooldown)
  {
    hide Accepts;
    var first := Filtered(history, a, cooldown);
    if b == [] {
      assert a + b == a;
    } else {
      var n := |b| - 1;
      FilterSplits(history, a, b[..n], cooldown);
      assert (a + b)[..|a| + n] == a + b[..n];
      var rest := Filtered(history + first, b[..n], cooldown);
      assert history + (first + rest) == (history + first) + rest;
      assert (first + rest) + [b[n]] == first + (rest + [b[n]]);
    }
  }

  /** A fresh deduplicator accepts every event of an accepted list. */
  lemma {:induction false} RefilterAcceptsAll(events: seq<Event>, cooldown: int)
    ensures var accepted := Filtered([], events, cooldown); Filtered([], accepted, cooldown) == accepted
  {
    hide Accepts;
    if events != [] {
      var n := |events| - 1;
      RefilterAcceptsAll(events[..n], cooldown);
      var before := Filtered([], events[..n], cooldown);
      assert (before + [events[n]])[..|before|] == before;
    }
  }

  /** The event before index `j` that was compared with it: the last one with its key. */
  ghost predicate IsPrevious(events: seq<Event>, i: nat, j: nat) {
    && i < j < |events| && events[i].key == events[j].key
    && forall k :: i < k < j ==> events[k].key != events[j].key
  }

  lemma {:induction false} LastWithAt(history: seq<Event>, i: nat, key: string)
    requires i < |history| && history[i].key == key
    requires forall k :: i < k < |history| ==> history[k].key != key
    ensures LastWith(history, key) == Some(history[i])
  {
    if i < |history| - 1 {
      LastWithAt(history[..|history| - 1], i, key);
    }
  }

  lemma {:induction false} AcceptedAt(events: seq<Event>, cooldown: int, j: nat)
    requires j < |Filtered([], events, cooldown)|
    ensures var accepted := Filtered([], events, cooldown); Accepts(accepted[..j], accepted[j], cooldown)
  {
    hide Accepts;
    var n := |events| - 1;
    var before := Filtered([], events[..n], cooldown);
    assert [] + before == before;
    if j < |before| {
      AcceptedAt(events[..n], cooldown, j);
      assert (before + [events[n]])[..j] == before[..j];
    } else {
      assert (before + [events[n]])[..j] == before;
    }
  }

  /** Consecutive accepted events with one key are at least a cooldown apart, whatever the order of the input. */
  lemma ConsecutiveApart(events: seq<Event>, cooldown: int, i: nat, j: nat)
    requires IsPrevious(Filtered([], events, cooldown), i, j)
    ensures var accepted := Filtered([], events, cooldown);
            var delta := accepted[j].timestampUnixMs - accepted[i].timestampUnixMs;
            delta >= cooldown || delta <= -cooldown
  {
    var accepted := Filtered([], events, cooldown);
    AcceptedAt(events, cooldown, j);
    LastWithAt(accepted[..j], i, accepted[j].key);
  }

  /** Any two of the events with one key are at least a cooldown apart, the later one in the list later in time. */
  ghost predicate PairsApart(accepted: seq<Event>, cooldown: int) {
    forall i, j :: 0 <= i < j < |accepted| && accepted[i].key == accepted[j].key ==>
      accepted[j].timestampUnixMs - accepted[i].timestampUnixMs >= cooldown
  }

  /** The event is older than the last accepted event with its key by a cooldown or more, so that the cooldown
      counts as expired. */
  ghost predicate IsStepBack(history: seq<Event>, event: Event, cooldown: int) {
    var previous := LastWith(history, event.key);
    previous.Some? && event.timestampUnixMs - previous.value.timestampUnixMs <= -cooldown
  }

  /** When the `k`-th event arrives at a fresh deduplicator, it steps back from what has been accepted. */
  ghost predicate StepsBackAt(events: seq<Event>, k: nat, cooldown: int)
    requires k < |events|
  {
    IsStepBack(Filtered([], events[..k], cooldown), events[k], cooldown)
  }

  ghost predicate NeverStepsBack(events: seq<Event>, cooldown: int) {
    forall k :: 0 <= k < |events| ==> !StepsBackAt(events, k, cooldown)
  }

  /** Accepting one more event keeps all pairs apart exactly if it does not step back. */
  lemma ApartNext(accepted: seq<Event>, next: Event, cooldown: int)
    requires cooldown > 0 && Accepts(accepted, next, cooldown)
    ensures PairsApart(accepted + [next], cooldown)
            <==> PairsApart(accepted, cooldown) && !IsStepBack(accepted, next, cooldown)
  {
    var longer, n := accepted + [next], |accepted|;
    assert forall i :: 0 <= i < n ==> longer[i] == accepted[i];
    if LastWith(accepted, next.key).Some? {
      var last := LastOccurrence(accepted, next.key);
      LastWithAt(accepted, last, next.key);
      assert longer[last].key == longer[n].key;
    }
    hide LastWith;
  }

  lemma StepsBackNext(events: seq<Event>, next: Event, cooldown: int)
    ensures NeverStepsBack(events + [next], cooldown)
            <==> NeverStepsBack(events, cooldown) && !IsStepBack(Filtered([], events, cooldown), next, cooldown)
  {
    var longer := events + [next];
    hide IsStepBack, Filtered;
    forall k | 0 <= k < |events|
      ensures StepsBackAt(longer, k, cooldown) <==> StepsBackAt(events, k, cooldown)
    {
      assert longer[..k] == events[..k];
    }
    assert longer[..|events|] == events;
    assert StepsBackAt(longer, |events|, cooldown) <==> IsStepBack(Filtered([], events, cooldown), next, cooldown);
  }

  lemma SuppressedIsNoStepBack(history: seq<Event>, event: Event, cooldown: int)
    requires !Accepts(history, event, cooldown)
    ensures !IsStepBack(history, event, cooldown)
  {
    hide LastWith;
  }

  lemma FilteredMore(events: seq<Event>, next: Event, cooldown: int)
    ensures var before := Filtered([], events, cooldown);
            Filtered([], events + [next], cooldown)
            == if Accepts(before, next, cooldown) then before + [next] else before
  {
    assert (events + [next])[..|events|] == events;
    assert [] + Filtered([], events, cooldown) == Filtered([], events, cooldown);
    hide Accepts;
  }

  lemma NothingStepsBack(cooldown: int)
    ensures PairsApart(Filtered([], [], cooldown), cooldown) && NeverStepsBack([], cooldown)
  {
  }

  /** For every input: all accepted events with one key are at least a cooldown apart exactly if no event arrives
      that is older than the last accepted one with its key by a cooldown or more. */
  lemma {:induction false} AllPairsApartExactly(events: seq<Event>, cooldown: int)
    requires cooldown > 0
    ensures PairsApart(Filtered([], events, cooldown), cooldown) <==> NeverStepsBack(events, cooldown)
  {
    hide *;
    if events == [] {
      NothingStepsBack(cooldown);
    } else {
      var earlier, next := events[..|events| - 1], events[|events| - 1];
      assert earlier + [next] == events;
      AllPairsApartExactly(earlier, cooldown);
      StepsBackNext(earlier, next, cooldown);
      FilteredMore(earlier, next, cooldown);
      var before := Filtered([], earlier, cooldown);
      if Accepts(before, next, cooldown) {
        ApartNext(before, next, cooldown);
      } else {
        SuppressedIsNoStepBack(before, next, cooldown);
      }
    }
  }

  /** The timestamps of events with one key do not decrease; different keys may interleave in any way. */
  ghost predicate InTimeOrderByKey(events: seq<Event>) {
    forall i, j :: 0 <= i < j < |events| && events[i].key == events[j].key ==>
      events[i].timestampUnixMs <= events[j].timestampUnixMs
  }

  lemma {:induction false} AcceptedFromInput(history: seq<Event>, events: seq<Event>, cooldown: int)
    ensures forall e :: e in Filtered(history, events, cooldown) ==> e in events
  {
    hide Accepts;
    if events != [] {
      AcceptedFromInput(history, events[..|events| - 1], cooldown);
    }
  }

  /** In particular, events that are in time order key by key are all kept apart. */
  lemma AllPairsApart(events: seq<Event>, cooldown: int)
    requires InTimeOrderByKey(events) && cooldown > 0
    ensures PairsApart(Filtered([], events, cooldown), cooldown)
  {
    AllPairsApartExactly(events, cooldown);
    hide Filtered, LastWith;
    forall k | 0 <= k < |events|
      ensures !StepsBackAt(events, k, cooldown)
    {
      AcceptedFromInput([], events[..k], cooldown);
      var previous := LastWith(Filtered([], events[..k], cooldown), events[k].key);
      if previous.Some? {
        var i :| 0 <= i < k && events[..k][i] == previous.value;
        assert events[i] == previous.value;
      }
    }
  }

  /** An event that steps back opens the cooldown again, and a repetition that would otherwise be suppressed is
      accepted a second time. */
  lemma OutOfOrderRepeats(key: string, t: int, cooldown: int)
    requires cooldown > 0
    ensures var late := Event("late", key, t);
            var early := Event("early", key, t - cooldown);
            Filtered([], [late, early, late], cooldown) == [late, early, late]
  {
    var late, early := Event("late", key, t), Event("early", key, t - cooldown);
    LastOfPair([], late);
    LastOfPair([late], early);
    JoinedDisplay(late, early, late);
    hide LastWith;
    assert Accepts([], late, cooldown) && Accepts([late], early, cooldown) && Accepts([late, early], late, cooldown);
    FilteredOne([], late, cooldown);
    hide Accepts, Filtered;
    FilteredMore([late], early, cooldown);
    FilteredMore([late, early], late, cooldown);
  }

  lemma LastOfPair(history: seq<Event>, event: Event)
    ensures LastWith([], event.key) == None
    ensures LastWith(history + [event], event.key) == Some(event)
  {
  }

  lemma JoinedDisplay(a: Event, b: Event, c: Event)
    ensures [] + [a] == [a] && [a] + [b] == [a, b] && [a, b] + [c] == [a, b, c]
  {
  }

  /** An event is suppressed exactly if the last accepted event with its key is less than a cooldown away;
      that event is reported with the decision. */
  lemma SuppressedHasWitness(history: seq<Event>, event: Event, cooldown: int)
    ensures var decision := Decided(history, event, cooldown);
            !decision.accepted
            <==> exists i :: 0 <= i < |history| && history[i].key == event.key
                             && (forall k :: i < k < |history| ==> history[k].key != event.key)
                             && -cooldown < event.timestampUnixMs - history[i].timestampUnixMs < cooldown
                             && decision.previous == Some(history[i])
  {
    if LastWith(history, event.key).Some? {
      var i := LastOccurrence(history, event.key);
      LastWithAt(history, i, event.key);
    }
    hide LastWith;
  }

  /** The reasons tell the cases apart: nothing accepted yet, nothing with the key, the last event with the key a
      cooldown or more away, or less than that and not older, or older. */
  lemma ReasonsExactly(history: seq<Event>, event: Event, cooldown: int)
    requires cooldown > 0
    ensures var decision := Decided(history, event, cooldown);
            && decision.event == event && (decision.accepted <==> Accepts(history, event, cooldown))
            && (decision.reason == FirstSeen <==> history == [])
            && (decision.reason == DifferentContext <==> history != [] && !HasKey(history, event.key))
            && (decision.reason == CooldownExpired <==> decision.accepted && HasKey(history, event.key))
            && (decision.reason == DuplicateCooldown <==>
                  !decision.accepted && event.timestampUnixMs >= decision.previous.value.timestampUnixMs)
            && (decision.reason == OutOfOrderCooldown <==>
                  !decision.accepted && event.timestampUnixMs < decision.previous.value.timestampUnixMs)
  {
    CountsIfLast(history, event.key);
    hide CountWith, LastWith;
    if history == [] {
      assert !HasKey(history, event.key);
    }
  }

  lemma {:induction false} LastOccurrence(history: seq<Event>, key: string) returns (i: nat)
    requires LastWith(history, key).Some?
    ensures i < |history| && history[i].key == key && forall k :: i < k < |history| ==> history[k].key != key
  {
    var n := |history| - 1;
    if history[n].key == key {
      i := n;
    } else {
      i := LastOccurrence(history[..n], key);
    }
  }

  // ----- events that are always made for the same time -----

  /** How many of the events have the key. */
  function CountWith(events: seq<Event>, key: string): nat {
    if events == [] then 0
    else CountWith(events[..|events| - 1], key) + (if events[|events| - 1].key == key then 1 else 0)
  }

  lemma CountNext(events: seq<Event>, next: Event, key: string)
    ensures CountWith(events + [next], key) == CountWith(events, key) + (if next.key == key then 1 else 0)
  {
    assert (events + [next])[..|events|] == events;
  }

  ghost predicate HasKey(events: seq<Event>, key: string) {
    exists e :: e in events && e.key == key
  }

  lemma {:induction false} CountsIfLast(events: seq<Event>, key: string)
    ensures CountWith(events, key) == 0 <==> LastWith(events, key) == None
    ensures CountWith(events, key) == 0 <==> !HasKey(events, key)
  {
    if events != [] {
      CountsIfLast(events[..|events| - 1], key);
    }
  }

  /** All events with the key have the timestamp. */
  ghost predicate AllAt(events: seq<Event>, key: string, timestampUnixMs: int) {
    forall e :: e in events && e.key == key ==> e.timestampUnixMs == timestampUnixMs
  }

  /** Of the events with a key whose timestamp never varies, a fresh deduplicator accepts exactly one. */
  lemma {:induction false} AcceptedOnce(events: seq<Event>, cooldown: int, key: string, timestampUnixMs: int)
    requires cooldown > 0 && AllAt(events, key, timestampUnixMs)
    ensures CountWith(Filtered([], events, cooldown), key) == if HasKey(events, key) then 1 else 0
  {
    if events == [] {
      FilteredFromNothing(cooldown);
    } else {
      var earlier, next := events[..|events| - 1], events[|events| - 1];
      assert earlier + [next] == events && next in events;
      assert AllAt(earlier, key, timestampUnixMs);
      HasKeyNext(earlier, next, key);
      hide Filtered, CountWith, Accepts, HasKey;
      AcceptedOnce(earlier, cooldown, key, timestampUnixMs);
      var before := Filtered([], earlier, cooldown);
      FilteredMore(earlier, next, cooldown);
      CountNext(earlier, next, key);
      CountNext(before, next, key);
      if next.key == key {
        AcceptedFromInput([], earlier, cooldown);
        assert AllAt(before, key, timestampUnixMs);
        CountsIfLast(before, key);
        AcceptsNew(before, next, cooldown, timestampUnixMs);
      }
    }
  }

  lemma HasKeyNext(events: seq<Event>, next: Event, key: string)
    ensures HasKey(events + [next], key) <==> HasKey(events, key) || next.key == key
  {
    assert next in events + [next];
  }

  lemma FilteredFromNothing(cooldown: int)
    ensures Filtered([], [], cooldown) == []
  {
  }

  lemma AcceptsNew(history: seq<Event>, next: Event, cooldown: int, timestampUnixMs: int)
    requires cooldown > 0 && AllAt(history, next.key, timestampUnixMs) && next.timestampUnixMs == timestampUnixMs
    ensures Accepts(history, next, cooldown) <==> LastWith(history, next.key) == None
  {
    hide LastWith;
  }

  // ----- the store -----

  /** The last `n` events, or all of them. */
  function LastOf(events: seq<Event>, n: nat): seq<Event> {
    if |events| > n then events[|events| - n..] else events
  }

  lemma FilteredOne(history: seq<Event>, event: Event, cooldown: int)
    ensures Filtered(history, [event], cooldown) == if Accepts(history, event, cooldown) then [event] else []
  {
    assert [event][..0] == [] && history + [] == history;
    hide Accepts;
  }

  lemma LastOfNext(events: seq<Event>, event: Event, n: nat)
    requires n > 0
    ensures LastOf(LastOf(events, n) + [event], n) == LastOf(events + [event], n)
  {
  }

  lemma NothingAdded(history: seq<Event>)
    ensures history + [] == history
  {
  }

  datatype StoreError = InvalidEvent

  class Store {
    var events: seq<Event>
    const deduplicator: EventDeduplicator
    const limit: nat

    ghost predicate Valid()
      reads this, deduplicator
    {
      limit > 0 && deduplicator.Valid() && events == LastOf(deduplicator.history, limit)
    }

    constructor (requestedLimit: int, windowMs: int)
      ensures Valid() && fresh(deduplicator) && deduplicator.history == []
      ensures limit == if requestedLimit <= 0 then DEFAULT_STORED_EVENTS_LIMIT else requestedLimit
      ensures deduplicator.cooldown == if windowMs > 0 then windowMs else 30000
    {
      events := [];
      limit := if requestedLimit <= 0 then DEFAULT_STORED_EVENTS_LIMIT else requestedLimit;
      deduplicator := new EventDeduplicator(windowMs);
    }

    /** The store keeps exactly the last `limit` accepted events; an invalid event changes nothing. What makes an
        event valid is a parameter. */
    method Append(isValid: Event -> bool, event: Event) returns (r: Result<bool, StoreError>)
      requires Valid()
      modifies this, deduplicator
      ensures Valid()
      ensures r == if !isValid(event) then Err(InvalidEvent)
                   else Ok(Accepts(old(deduplicator.history), event, deduplicator.cooldown))
      ensures deduplicator.history == old(deduplicator.history) + (if r == Ok(true) then [event] else [])
    {
      FilteredOne(deduplicator.history, event, deduplicator.cooldown);
      LastOfNext(deduplicator.history, event, limit);
      NothingAdded(deduplicator.history);
      hide Accepts, Filtered, AreDecisions, Represents, LastOf;
      if !isValid(event) {
        return Err(InvalidEvent);
      }
      var kept, decisions := deduplicator.Filter([event]);
      if |kept| == 0 {
        return Ok(false);
      }
      Keep(event);
      return Ok(true);
    }

    method Keep(event: Event)
      modifies this`events
      ensures events == LastOf(old(events) + [event], limit)
    {
      events := events + [event];
      if |events| > limit {
        events := events[|events| - limit..];
      }
    }
  }
}
