/**
 `LatestEventToState`: the periods during which the latest event carries a given value.
 Over all values the periods share out the span of the events, and cutting the events into
 chunks loses exactly the gaps at the cuts.
 */
module States {
  import opened Sorting
  import opened Timeline
  import opened BooleanAlgebra
  import opened Measure

  // ----- What the loop computes -----

  /** The loop state after a nonempty prefix of the sorted events. */
  datatype Scan = Scan(current: string, since: int, closed: StateTimeline)

  function NextScan(s: Scan, e: Event, equals: string): Scan {
    if e.value == s.current then
      s
    else
      Scan(e.value, e.timestamp,
           if s.current == equals then s.closed + [StateInterval(s.current, s.since, e.timestamp)] else s.closed)
  }

  function ScanStates(sorted: seq<Event>, equals: string): Scan
    requires sorted != []
  {
    var e := sorted[|sorted| - 1];
    if |sorted| == 1 then Scan(e.value, e.timestamp, [])
    else NextScan(ScanStates(sorted[..|sorted| - 1], equals), e, equals)
  }

  /** The result for events that are already in time order. */
  function StatesOf(sorted: seq<Event>, equals: string): StateTimeline {
    if sorted == [] then []
    else
      var s := ScanStates(sorted, equals);
      if s.current == equals
      then s.closed + [StateInterval(s.current, s.since, sorted[|sorted| - 1].timestamp + NANOSECOND)] else s.closed
  }

  function LatestStates(es: EventSort, events: seq<Event>, equals: string): StateTimeline {
    if events == [] then [] else StatesOf(es(events), equals)
  }

  /** `convertStateTimelineToBoolTimeline`: every state interval counts as true. */
  function AsBool(states: StateTimeline): BoolTimeline {
    seq(|states|, i requires 0 <= i < |states| => BoolInterval(true, states[i].start, states[i].end))
  }

  // ----- What it means -----

  /** The position of the latest event at or before `t`: the last one if several share its time. */
  function LatestIndex(sorted: seq<Event>, t: int): (i: nat)
    requires sorted != [] && sorted[0].timestamp <= t
    ensures i < |sorted| && sorted[i].timestamp <= t
    ensures SortedBy(EventTime, sorted) ==> forall j :: i < j < |sorted| ==> t < sorted[j].timestamp
  {
    var last := |sorted| - 1;
    if sorted[last].timestamp <= t then last
    else
      assert SortedBy(EventTime, sorted) ==> SortedBy(EventTime, sorted[..last]);
      LatestIndex(sorted[..last], t)
  }

  /** Within the span of the events, the latest event at or before `t` has the wanted value. */
  ghost predicate LatestIs(sorted: seq<Event>, equals: string, t: int) {
    && sorted != []
    && sorted[0].timestamp <= t < sorted[|sorted| - 1].timestamp + NANOSECOND
    && sorted[LatestIndex(sorted, t)].value == equals
  }

  /** State intervals in time order; one may end where the next begins. */
  ghost predicate Ordered(tl: BoolTimeline) {
    && AllTrue(tl)
    && WellFormed(tl)
    && forall i, j :: 0 <= i < j < |tl| ==> tl[i].end <= tl[j].start
  }

  lemma OrderedNonOverlapping(tl: BoolTimeline)
    requires Ordered(tl)
    ensures NonOverlapping(tl)
  {
    forall i, j | 0 <= i < j < |tl|
      ensures Range(tl[i].start, tl[i].end) !! Range(tl[j].start, tl[j].end)
    {
      forall t | t in Range(tl[i].start, tl[i].end)
        ensures t !in Range(tl[j].start, tl[j].end)
      {
      }
    }
  }

  lemma OrderedAppend(tl: BoolTimeline, start: int, end: int)
    requires Ordered(tl) && start <= end
    requires forall i :: 0 <= i < |tl| ==> tl[i].end <= start
    ensures Ordered(tl + [BoolInterval(true, start, end)])
    ensures forall t :: t in Instants(tl + [BoolInterval(true, start, end)]) <==> t in Instants(tl) || start <= t < end
  {
    InstantsConcat(tl, [BoolInterval(true, start, end)]);
    OneInterval(BoolInterval(true, start, end));
  }

  lemma AsBoolAppend(states: StateTimeline, next: StateInterval)
    ensures AsBool(states + [next]) == AsBool(states) + [BoolInterval(true, next.start, next.end)]
  {
  }

  /** Invariant of the scan: the closed periods are in order, of the wanted state, and end by `since`. */
  ghost predicate ScanOrdered(s: Scan, equals: string) {
    && Ordered(AsBool(s.closed))
    && forall i :: 0 <= i < |s.closed| ==> s.closed[i].end <= s.since && s.closed[i].state == equals
  }

  lemma ScanOrderedStep(s: Scan, e: Event, equals: string)
    requires ScanOrdered(s, equals) && s.since <= e.timestamp
    ensures ScanOrdered(NextScan(s, e, equals), equals)
  {
    if e.value != s.current && s.current == equals {
      OrderedAppend(AsBool(s.closed), s.since, e.timestamp);
      AsBoolAppend(s.closed, StateInterval(s.current, s.since, e.timestamp));
    }
  }

  lemma SortedInit(sorted: seq<Event>)
    requires SortedBy(EventTime, sorted) && |sorted| > 1
    ensures SortedBy(EventTime, sorted[..|sorted| - 1])
    ensures sorted[|sorted| - 2].timestamp <= sorted[|sorted| - 1].timestamp
  {
    assert EventTime(sorted[|sorted| - 2]) <= EventTime(sorted[|sorted| - 1]);
  }

  lemma {:induction false} ScanInvariant(sorted: seq<Event>, equals: string)
    requires sorted != [] && SortedBy(EventTime, sorted)
    ensures var s := ScanStates(sorted, equals); var last := sorted[|sorted| - 1];
            && s.current == last.value
            && sorted[0].timestamp <= s.since <= last.timestamp
            && ScanOrdered(s, equals)
    decreases |sorted|
  {
    if |sorted| > 1 {
      var init := sorted[..|sorted| - 1];
      SortedInit(sorted);
      ScanInvariant(init, equals);
      ScanOrderedStep(ScanStates(init, equals), sorted[|sorted| - 1], equals);
    }
  }

  /** The latest index is the one whose successor, if any, is too late. */
  lemma LatestAt(sorted: seq<Event>, i: nat, t: int)
    requires SortedBy(EventTime, sorted) && i < |sorted| && sorted[i].timestamp <= t
    requires i + 1 < |sorted| ==> t < sorted[i + 1].timestamp
    ensures sorted[0].timestamp <= t && LatestIndex(sorted, t) == i
  {
    assert i > 0 ==> EventTime(sorted[0]) <= EventTime(sorted[i]);
    var k := LatestIndex(sorted, t);
    assert i + 1 < k ==> EventTime(sorted[i + 1]) <= EventTime(sorted[k]);
  }

  lemma LatestPrefix(sorted: seq<Event>, t: int)
    requires sorted != [] && SortedBy(EventTime, sorted) && sorted[0].timestamp <= t
    ensures |sorted| > 1 && t < sorted[|sorted| - 1].timestamp ==>
              LatestIndex(sorted, t) == LatestIndex(sorted[..|sorted| - 1], t)
    ensures sorted[|sorted| - 1].timestamp <= t ==> LatestIndex(sorted, t) == |sorted| - 1
  {
  }

  /** What the closed periods cover, and that the state is constant from `since` on. */
  lemma {:induction false} ScanMeaning(sorted: seq<Event>, equals: string, t: int)
    requires sorted != [] && SortedBy(EventTime, sorted)
    ensures var s := ScanStates(sorted, equals); var first := sorted[0].timestamp;
            && (t in Instants(AsBool(s.closed)) <==>
                first <= t < s.since && sorted[LatestIndex(sorted, t)].value == equals)
            && (first <= s.since <= t ==> sorted[LatestIndex(sorted, t)].value == s.current)
    decreases |sorted|
  {
    ScanInvariant(sorted, equals);
    if |sorted| == 1 {
      assert AsBool([]) == [];
    } else {
      var init, e := sorted[..|sorted| - 1], sorted[|sorted| - 1];
      var s := ScanStates(init, equals);
      SortedInit(sorted);
      ScanMeaning(init, equals, t);
      ScanInvariant(init, equals);
      if sorted[0].timestamp <= t {
        LatestPrefix(sorted, t);
      }
      if e.value != s.current && s.current == equals {
        assert forall i :: 0 <= i < |AsBool(s.closed)| ==> AsBool(s.closed)[i].end <= s.since;
        OrderedAppend(AsBool(s.closed), s.since, e.timestamp);
        AsBoolAppend(s.closed, StateInterval(s.current, s.since, e.timestamp));
      }
    }
  }

  lemma StatesInstants(sorted: seq<Event>, equals: string, t: int)
    requires sorted != [] && SortedBy(EventTime, sorted)
    ensures var s := ScanStates(sorted, equals);
            t in Instants(AsBool(StatesOf(sorted, equals)))
            <==> t in Instants(AsBool(s.closed))
                 || (s.current == equals && s.since <= t < sorted[|sorted| - 1].timestamp + NANOSECOND)
  {
    var s := ScanStates(sorted, equals);
    var end := sorted[|sorted| - 1].timestamp + NANOSECOND;
    if s.current == equals {
      ScanInvariant(sorted, equals);
      OrderedAppend(AsBool(s.closed), s.since, end);
      AsBoolAppend(s.closed, StateInterval(s.current, s.since, end));
    }
  }

  lemma StatesAt(sorted: seq<Event>, equals: string, t: int)
    requires sorted != [] && SortedBy(EventTime, sorted)
    ensures t in Instants(AsBool(StatesOf(sorted, equals))) <==> LatestIs(sorted, equals, t)
  {
    StatesInstants(sorted, equals, t);
    ScanInvariant(sorted, equals);
    ScanMeaning(sorted, equals, t);
  }

  /** The result of the operator: ordered periods of the wanted state, which hold an instant exactly
      when the latest event at or before it has the wanted value. */
  lemma StatesMeaning(sorted: seq<Event>, equals: string)
    requires SortedBy(EventTime, sorted)
    ensures Ordered(AsBool(StatesOf(sorted, equals)))
    ensures forall i :: 0 <= i < |StatesOf(sorted, equals)| ==> StatesOf(sorted, equals)[i].state == equals
    ensures forall t :: t in Instants(AsBool(StatesOf(sorted, equals))) <==> LatestIs(sorted, equals, t)
  {
    if sorted != [] {
      var s := ScanStates(sorted, equals);
      var end := sorted[|sorted| - 1].timestamp + NANOSECOND;
      ScanInvariant(sorted, equals);
      if s.current == equals {
        OrderedAppend(AsBool(s.closed), s.since, end);
        AsBoolAppend(s.closed, StateInterval(s.current, s.since, end));
      }
      forall t
        ensures t in Instants(AsBool(StatesOf(sorted, equals))) <==> LatestIs(sorted, equals, t)
      {
        StatesAt(sorted, equals, t);
      }
    } else {
      assert AsBool([]) == [];
    }
  }

  /** Its duration counts those instants. */
  lemma StatesDuration(sorted: seq<Event>, equals: string)
    requires SortedBy(EventTime, sorted)
    ensures TotalTrue(AsBool(StatesOf(sorted, equals))) == |Instants(AsBool(StatesOf(sorted, equals)))|
  {
    StatesMeaning(sorted, equals);
    OrderedNonOverlapping(AsBool(StatesOf(sorted, equals)));
    DurationCountsInstants(AsBool(StatesOf(sorted, equals)));
  }

  // ----- One interval for every run of the wanted value -----

  /** The positions at which a run of the wanted value begins. */
  function RunStarts(sorted: seq<Event>, equals: string): seq<nat> {
    if sorted == [] then []
    else
      var n := |sorted| - 1;
      RunStarts(sorted[..n], equals)
      + if sorted[n].value == equals && (n == 0 || sorted[n - 1].value != equals) then [n] else []
  }

  /** A run of the wanted value begins at `i`. */
  ghost predicate BeginsRun(sorted: seq<Event>, equals: string, i: nat) {
    i < |sorted| && sorted[i].value == equals && (i == 0 || sorted[i - 1].value != equals)
  }

  lemma {:induction false} RunStartsAre(sorted: seq<Event>, equals: string)
    ensures forall i: nat :: i in RunStarts(sorted, equals) <==> BeginsRun(sorted, equals, i)
    ensures forall j, k :: 0 <= j < k < |RunStarts(sorted, equals)| ==>
              RunStarts(sorted, equals)[j] < RunStarts(sorted, equals)[k]
    decreases |sorted|
  {
    if sorted != [] {
      var n := |sorted| - 1;
      var init := sorted[..n];
      RunStartsAre(init, equals);
      forall i: nat
        ensures i in RunStarts(sorted, equals) <==> BeginsRun(sorted, equals, i)
      {
        assert i < n ==> (BeginsRun(sorted, equals, i) <==> BeginsRun(init, equals, i));
      }
      forall j | 0 <= j < |RunStarts(init, equals)|
        ensures RunStarts(init, equals)[j] < n
      {
        assert RunStarts(init, equals)[j] in RunStarts(init, equals);
        assert BeginsRun(init, equals, RunStarts(init, equals)[j]);
      }
    }
  }

  /** From position `i` up to, not including, `j` all events have the wanted value. */
  ghost predicate RunFrom(sorted: seq<Event>, equals: string, i: nat, j: nat) {
    i < j <= |sorted| && forall m :: i <= m < j ==> sorted[m].value == equals
  }

  /** The period of the run that begins at `i` and is ended by a later event. */
  ghost predicate EndedRun(sorted: seq<Event>, equals: string, iv: StateInterval, i: nat) {
    exists j: nat :: j < |sorted| && RunFrom(sorted, equals, i, j) && sorted[j].value != equals
                     && iv == StateInterval(equals, sorted[i].timestamp, sorted[j].timestamp)
  }

  lemma EndedRunStays(init: seq<Event>, e: Event, equals: string, iv: StateInterval, i: nat)
    requires EndedRun(init, equals, iv, i)
    ensures EndedRun(init + [e], equals, iv, i)
  {
    var j: nat :| j < |init| && RunFrom(init, equals, i, j) && init[j].value != equals
                  && iv == StateInterval(equals, init[i].timestamp, init[j].timestamp);
    assert RunFrom(init + [e], equals, i, j);
  }

  lemma StartsNext(init: seq<Event>, e: Event, equals: string)
    requires init != []
    ensures RunStarts(init + [e], equals)
            == RunStarts(init, equals)
               + if e.value == equals && init[|init| - 1].value != equals then [|init|] else []
  {
    assert (init + [e])[..|init|] == init;
  }

  lemma RunGoesOn(init: seq<Event>, e: Event, equals: string, i: nat)
    requires RunFrom(init, equals, i, |init|)
    ensures e.value == equals ==> RunFrom(init + [e], equals, i, |init| + 1)
    ensures e.value != equals ==>
              EndedRun(init + [e], equals, StateInterval(equals, init[i].timestamp, e.timestamp), i)
  {
    assert RunFrom(init + [e], equals, i, |init|);
    assert (init + [e])[|init|] == e && (init + [e])[i] == init[i];
  }

  /** The closed periods are those of the first runs, which have all ended. */
  ghost predicate ClosedRuns(sorted: seq<Event>, equals: string, closed: StateTimeline, starts: seq<nat>) {
    |closed| <= |starts| && forall k :: 0 <= k < |closed| ==> EndedRun(sorted, equals, closed[k], starts[k])
  }

  lemma ClosedRunsStay(init: seq<Event>, e: Event, equals: string, closed: StateTimeline, starts: seq<nat>)
    requires ClosedRuns(init, equals, closed, starts)
    ensures ClosedRuns(init + [e], equals, closed, starts)
  {
    forall k | 0 <= k < |closed|
      ensures EndedRun(init + [e], equals, closed[k], starts[k])
    {
      EndedRunStays(init, e, equals, closed[k], starts[k]);
    }
  }

  /** A run that is still open is the last, and began at `since`. */
  ghost predicate OpenRun(sorted: seq<Event>, equals: string, s: Scan, starts: seq<nat>) {
    if s.current == equals then
      && |starts| == |s.closed| + 1
      && RunFrom(sorted, equals, starts[|s.closed|], |sorted|)
      && s.since == sorted[starts[|s.closed|]].timestamp
    else
      |starts| == |s.closed|
  }

  ghost predicate ScanOfRuns(sorted: seq<Event>, equals: string, s: Scan) {
    && sorted != [] && s.current == sorted[|sorted| - 1].value
    && ClosedRuns(sorted, equals, s.closed, RunStarts(sorted, equals))
    && OpenRun(sorted, equals, s, RunStarts(sorted, equals))
  }

  lemma ClosedRunsAppend(sorted: seq<Event>, equals: string, closed: StateTimeline, starts: seq<nat>, iv: StateInterval)
    requires ClosedRuns(sorted, equals, closed, starts) && |closed| < |starts|
    requires EndedRun(sorted, equals, iv, starts[|closed|])
    ensures ClosedRuns(sorted, equals, closed + [iv], starts)
  {
  }

  lemma GoingOn(init: seq<Event>, e: Event, equals: string, s: Scan)
    requires ScanOfRuns(init, equals, s) && s.current == equals == e.value
    ensures ScanOfRuns(init + [e], equals, NextScan(s, e, equals))
  {
    var starts := RunStarts(init, equals);
    StartsNext(init, e, equals);
    assert starts + [] == starts;
    ClosedRunsStay(init, e, equals, s.closed, starts);
    RunGoesOn(init, e, equals, starts[|s.closed|]);
  }

  lemma Ending(init: seq<Event>, e: Event, equals: string, s: Scan)
    requires ScanOfRuns(init, equals, s) && s.current == equals != e.value
    ensures ScanOfRuns(init + [e], equals, NextScan(s, e, equals))
  {
    var starts := RunStarts(init, equals);
    StartsNext(init, e, equals);
    assert starts + [] == starts;
    ClosedRunsStay(init, e, equals, s.closed, starts);
    RunGoesOn(init, e, equals, starts[|s.closed|]);
    ClosedRunsAppend(init + [e], equals, s.closed, starts, StateInterval(equals, s.since, e.timestamp));
  }

  lemma OtherStep(init: seq<Event>, e: Event, equals: string, s: Scan)
    requires ScanOfRuns(init, equals, s) && s.current != equals
    ensures ScanOfRuns(init + [e], equals, NextScan(s, e, equals))
  {
    var starts := RunStarts(init, equals);
    StartsNext(init, e, equals);
    ClosedRunsStay(init, e, equals, s.closed, starts);
    if e.value == equals {
      assert RunFrom(init + [e], equals, |init|, |init| + 1);
      assert RunStarts(init + [e], equals) == starts + [|init|];
    } else {
      assert RunStarts(init + [e], equals) == starts;
    }
  }

  lemma FirstRun(e: Event, equals: string)
    ensures ScanOfRuns([e], equals, Scan(e.value, e.timestamp, []))
  {
    assert [e][..0] == [];
    if e.value == equals {
      assert RunStarts([e], equals) == [0] && RunFrom([e], equals, 0, 1);
    }
  }

  lemma {:induction false} ScanRuns(sorted: seq<Event>, equals: string)
    requires sorted != []
    ensures ScanOfRuns(sorted, equals, ScanStates(sorted, equals))
    decreases |sorted|
  {
    var n := |sorted| - 1;
    var init, e := sorted[..n], sorted[n];
    assert sorted == init + [e];
    if n > 0 {
      var s := ScanStates(init, equals);
      ScanRuns(init, equals);
      if s.current == equals == e.value {
        GoingOn(init, e, equals, s);
      } else if s.current == equals {
        Ending(init, e, equals, s);
      } else {
        OtherStep(init, e, equals, s);
      }
    } else {
      FirstRun(e, equals);
      assert sorted == [e];
    }
  }

  /** The period of the run that begins at `i` and lasts to the end: one nanosecond more. */
  ghost predicate LastRun(sorted: seq<Event>, equals: string, iv: StateInterval, i: nat) {
    && RunFrom(sorted, equals, i, |sorted|)
    && iv == StateInterval(equals, sorted[i].timestamp, sorted[|sorted| - 1].timestamp + 1)
  }

  /** One interval for every run of the wanted value, even a run whose period is empty: from its first event
      to the event that ends it or, if none does, to one nanosecond after the last. */
  lemma StatesAreRuns(sorted: seq<Event>, equals: string)
    ensures |StatesOf(sorted, equals)| == |RunStarts(sorted, equals)|
    ensures forall k :: 0 <= k < |StatesOf(sorted, equals)| ==>
              || EndedRun(sorted, equals, StatesOf(sorted, equals)[k], RunStarts(sorted, equals)[k])
              || LastRun(sorted, equals, StatesOf(sorted, equals)[k], RunStarts(sorted, equals)[k])
  {
    if sorted != [] {
      ScanRuns(sorted, equals);
      forall k | 0 <= k < |StatesOf(sorted, equals)|
        ensures || EndedRun(sorted, equals, StatesOf(sorted, equals)[k], RunStarts(sorted, equals)[k])
                || LastRun(sorted, equals, StatesOf(sorted, equals)[k], RunStarts(sorted, equals)[k])
      {
        StateOfRun(sorted, equals, k);
      }
    }
  }

  lemma StateOfRun(sorted: seq<Event>, equals: string, k: nat)
    requires sorted != [] && ScanOfRuns(sorted, equals, ScanStates(sorted, equals)) && k < |StatesOf(sorted, equals)|
    ensures k < |RunStarts(sorted, equals)|
    ensures || EndedRun(sorted, equals, StatesOf(sorted, equals)[k], RunStarts(sorted, equals)[k])
            || LastRun(sorted, equals, StatesOf(sorted, equals)[k], RunStarts(sorted, equals)[k])
  {
    var s := ScanStates(sorted, equals);
    if k < |s.closed| {
      assert StatesOf(sorted, equals)[k] == s.closed[k];
    } else {
      assert k == |s.closed| && s.current == equals;
      LastOpen(sorted, equals, s, RunStarts(sorted, equals));
    }
  }

  lemma LastOpen(sorted: seq<Event>, equals: string, s: Scan, starts: seq<nat>)
    requires sorted != [] && OpenRun(sorted, equals, s, starts) && s.current == equals
    ensures LastRun(sorted, equals, StateInterval(s.current, s.since, sorted[|sorted| - 1].timestamp + 1),
                    starts[|s.closed|])
  {
  }

  // ----- The order of the events -----

  /** Two events at one time, exactly one of which has the wanted value. */
  ghost predicate MixedTie(events: seq<Event>, equals: string) {
    exists x, y :: x in events && y in events && x.timestamp == y.timestamp && x.value == equals && y.value != equals
  }

  lemma MixedSubset(a: seq<Event>, b: seq<Event>, equals: string)
    requires forall e :: e in a ==> e in b
    ensures MixedTie(a, equals) ==> MixedTie(b, equals)
  {
  }

  /** The current state began with an event. */
  ghost predicate Began(sorted: seq<Event>, s: Scan) {
    exists e :: e in sorted && e.timestamp == s.since && e.value == s.current
  }

  lemma NormalAppend(tl: BoolTimeline, start: int, end: int)
    requires Normal(tl) && start < end
    requires forall i :: 0 <= i < |tl| ==> tl[i].end < start
    ensures Normal(tl + [BoolInterval(true, start, end)])
  {
  }

  /** What a scan without mixed ties keeps: the closed periods hold instants and leave gaps. */
  ghost predicate CleanScan(sorted: seq<Event>, s: Scan, equals: string) {
    && Normal(AsBool(s.closed))
    && Began(sorted, s)
    && (forall i :: 0 <= i < |s.closed| ==> s.closed[i].end <= s.since)
    && (s.current == equals ==> forall i :: 0 <= i < |s.closed| ==> s.closed[i].end < s.since)
  }

  lemma CleanStep(init: seq<Event>, s: Scan, e: Event, equals: string)
    requires CleanScan(init, s, equals) && s.since <= e.timestamp && !MixedTie(init + [e], equals)
    ensures CleanScan(init + [e], NextScan(s, e, equals), equals)
  {
    var b :| b in init && b.timestamp == s.since && b.value == s.current;
    assert b in init + [e] && e in init + [e];
    if e.value != s.current && s.current == equals {
      NormalAppend(AsBool(s.closed), s.since, e.timestamp);
      AsBoolAppend(s.closed, StateInterval(s.current, s.since, e.timestamp));
    }
  }

  lemma {:induction false} ScanClean(sorted: seq<Event>, equals: string)
    requires sorted != [] && SortedBy(EventTime, sorted) && !MixedTie(sorted, equals)
    ensures CleanScan(sorted, ScanStates(sorted, equals), equals)
    decreases |sorted|
  {
    if |sorted| == 1 {
      assert sorted[0] in sorted;
    } else {
      var init, e := sorted[..|sorted| - 1], sorted[|sorted| - 1];
      assert sorted == init + [e];
      MixedSubset(init, sorted, equals);
      SortedInit(sorted);
      ScanClean(init, equals);
      ScanInvariant(init, equals);
      CleanStep(init, ScanStates(init, equals), e, equals);
    }
  }

  lemma StatesNormal(sorted: seq<Event>, equals: string)
    requires SortedBy(EventTime, sorted) && !MixedTie(sorted, equals)
    ensures Normal(AsBool(StatesOf(sorted, equals)))
  {
    if sorted != [] {
      var s := ScanStates(sorted, equals);
      var end := sorted[|sorted| - 1].timestamp + NANOSECOND;
      ScanClean(sorted, equals);
      ScanInvariant(sorted, equals);
      if s.current == equals {
        NormalAppend(AsBool(s.closed), s.since, end);
        AsBoolAppend(s.closed, StateInterval(s.current, s.since, end));
      }
    }
  }

  lemma LatestSame(a: seq<Event>, b: seq<Event>, equals: string, t: int)
    requires SortedBy(EventTime, a) && SortedBy(EventTime, b)
    requires (forall e :: e in a <==> e in b) && !MixedTie(a, equals)
    ensures LatestIs(a, equals, t) ==> LatestIs(b, equals, t)
  {
    if LatestIs(a, equals, t) {
      var e, last := a[LatestIndex(a, t)], a[|a| - 1];
      var j := IndexIn(b, e);
      var l := IndexIn(b, last);
      Bounds(b, j);
      Bounds(b, l);
      var k := LatestIndex(b, t);
      var m := IndexIn(a, b[k]);
      NotAfterLatest(b, t, j);
      NotAfterLatest(a, t, m);
    }
  }

  lemma IndexIn(s: seq<Event>, e: Event) returns (i: nat)
    requires e in s
    ensures i < |s| && s[i] == e
  {
    i :| 0 <= i < |s| && s[i] == e;
  }

  lemma Bounds(s: seq<Event>, i: nat)
    requires SortedBy(EventTime, s) && i < |s|
    ensures s[0].timestamp <= s[i].timestamp <= s[|s| - 1].timestamp
  {
    assert i > 0 ==> EventTime(s[0]) <= EventTime(s[i]);
    assert i < |s| - 1 ==> EventTime(s[i]) <= EventTime(s[|s| - 1]);
  }

  lemma NotAfterLatest(s: seq<Event>, t: int, i: nat)
    requires SortedBy(EventTime, s) && i < |s| && s[0].timestamp <= t && s[i].timestamp <= t
    ensures s[i].timestamp <= s[LatestIndex(s, t)].timestamp
  {
    var k := LatestIndex(s, t);
    assert i < k ==> EventTime(s[i]) <= EventTime(s[k]);
  }

  /** The timeline shows for every instant whether the latest event matches. */
  lemma StatesDetermined(a: seq<Event>, b: seq<Event>, equals: string)
    requires SortedBy(EventTime, a) && SortedBy(EventTime, b)
    requires Normal(AsBool(StatesOf(a, equals))) && Normal(AsBool(StatesOf(b, equals)))
    requires forall t :: LatestIs(a, equals, t) <==> LatestIs(b, equals, t)
    ensures StatesOf(a, equals) == StatesOf(b, equals)
  {
    var sa, sb := StatesOf(a, equals), StatesOf(b, equals);
    StatesMeaning(a, equals);
    StatesMeaning(b, equals);
    NormalUnique(AsBool(sa), AsBool(sb));
    assert |sa| == |AsBool(sa)| == |AsBool(sb)| == |sb|;
    forall i | 0 <= i < |sa|
      ensures sa[i] == sb[i]
    {
      assert AsBool(sa)[i] == AsBool(sb)[i];
    }
  }

  /** Without mixed ties neither the order of the events nor the sort shows. */
  lemma LatestStatesOrder(f: EventSort, a: seq<Event>, g: EventSort, b: seq<Event>, equals: string)
    requires multiset(a) == multiset(b) && !MixedTie(a, equals)
    ensures LatestStates(f, a, equals) == LatestStates(g, b, equals)
  {
    PermutationFacts(a, b);
    assert IsSortOf(EventTime, a, f(a)) && IsSortOf(EventTime, b, g(b));
    SortedStatesOrder(a, f(a), g(b), equals);
  }

  lemma SortedStatesOrder(events: seq<Event>, r1: seq<Event>, r2: seq<Event>, equals: string)
    requires IsSortOf(EventTime, events, r1) && IsSortOf(EventTime, events, r2) && !MixedTie(events, equals)
    ensures StatesOf(r1, equals) == StatesOf(r2, equals)
  {
    PermutationFacts(events, r1);
    PermutationFacts(events, r2);
    MixedSubset(r1, events, equals);
    MixedSubset(r2, events, equals);
    StatesNormal(r1, equals);
    StatesNormal(r2, equals);
    forall t
      ensures LatestIs(r1, equals, t) <==> LatestIs(r2, equals, t)
    {
      LatestSame(r1, r2, equals, t);
      LatestSame(r2, r1, equals, t);
    }
    StatesDetermined(r1, r2, equals);
  }

  /** Some sorted arrangement puts any chosen event last among those of its time. */
  lemma LastAmongTies(events: seq<Event>, x: Event) returns (r: seq<Event>)
    requires x in events
    ensures IsSortOf(EventTime, events, r) && r != []
    ensures r[0].timestamp <= x.timestamp <= r[|r| - 1].timestamp && r[LatestIndex(r, x.timestamp)] == x
  {
    var before, after := SplitAt(events, x);
    var rest := InsertionSort(EventTime, before + after);
    InsertionSorts(EventTime, before + after);
    var i := Place(EventTime, x, rest);
    InsertSorted(EventTime, x, rest, i);
    InsertElements(x, rest, i);
    MiddleOut(before, [x], after);
    r := rest[..i] + [x] + rest[i..];
    Bounds(r, i);
    LatestAt(r, i, x.timestamp);
  }

  /** When ties show.  All arrangements of the events by time give the same result if and only if no two
      events share a time and exactly one of them has the wanted value. */
  lemma TiesShow(events: seq<Event>, equals: string)
    ensures (forall r1, r2 :: IsSortOf(EventTime, events, r1) && IsSortOf(EventTime, events, r2) ==>
               StatesOf(r1, equals) == StatesOf(r2, equals))
            <==> !MixedTie(events, equals)
  {
    if MixedTie(events, equals) {
      var x, y :| x in events && y in events && x.timestamp == y.timestamp && x.value == equals && y.value != equals;
      var r1 := LastAmongTies(events, x);
      var r2 := LastAmongTies(events, y);
      assert LatestIs(r1, equals, x.timestamp) && !LatestIs(r2, equals, x.timestamp);
      StatesMeaning(r1, equals);
      StatesMeaning(r2, equals);
      assert StatesOf(r1, equals) != StatesOf(r2, equals);
    } else {
      forall r1, r2 | IsSortOf(EventTime, events, r1) && IsSortOf(EventTime, events, r2)
        ensures StatesOf(r1, equals) == StatesOf(r2, equals)
      {
        SortedStatesOrder(events, r1, r2, equals);
      }
    }
  }

  /** Some sort arranges `s` in any sorted way one likes. */
  lemma EventSortTo(s: seq<Event>, r: seq<Event>) returns (sort: EventSort)
    requires IsSortOf(EventTime, s, r)
    ensures sort(s) == r
  {
    var f := (z: seq<Event>) => if z == s then r else InsertionSort(EventTime, z);
    forall z: seq<Event>
      ensures IsSortOf(EventTime, z, f(z))
    {
      InsertionSorts(EventTime, z);
    }
    sort := f;
  }

  // ----- Conservation -----

  lemma StatesDisjoint(sorted: seq<Event>, v: string, w: string)
    requires SortedBy(EventTime, sorted) && v != w
    ensures Instants(AsBool(StatesOf(sorted, v))) !! Instants(AsBool(StatesOf(sorted, w)))
  {
    StatesMeaning(sorted, v);
    StatesMeaning(sorted, w);
  }

  function SumOverValues(sorted: seq<Event>, values: seq<string>): int {
    if values == [] then 0
    else SumOverValues(sorted, values[..|values| - 1]) + TotalTrue(AsBool(StatesOf(sorted, values[|values| - 1])))
  }

  ghost predicate Distinct<T>(s: seq<T>) {
    forall i, j :: 0 <= i < j < |s| ==> s[i] != s[j]
  }

  /** The instants of the span whose latest event has one of the values. */
  ghost function CoveredBy(sorted: seq<Event>, values: seq<string>): set<int>
    requires sorted != []
  {
    set t | t in Range(sorted[0].timestamp, sorted[|sorted| - 1].timestamp + NANOSECOND)
            && sorted[LatestIndex(sorted, t)].value in values
  }

  lemma CoveredStep(sorted: seq<Event>, values: seq<string>)
    requires sorted != [] && SortedBy(EventTime, sorted) && Distinct(values) && values != []
    ensures var init, v := values[..|values| - 1], values[|values| - 1];
            |CoveredBy(sorted, values)| == |CoveredBy(sorted, init)| + |Instants(AsBool(StatesOf(sorted, v)))|
  {
    var init, v := values[..|values| - 1], values[|values| - 1];
    var one := Instants(AsBool(StatesOf(sorted, v)));
    StatesMeaning(sorted, v);
    assert v !in init;
    assert forall x :: x in values <==> x in init || x == v;
    assert CoveredBy(sorted, values) == CoveredBy(sorted, init) + one;
    assert CoveredBy(sorted, init) !! one;
  }

  lemma {:induction false} SumCounts(sorted: seq<Event>, values: seq<string>)
    requires sorted != [] && SortedBy(EventTime, sorted) && Distinct(values)
    ensures SumOverValues(sorted, values) == |CoveredBy(sorted, values)|
    decreases |values|
  {
    if values == [] {
      assert CoveredBy(sorted, values) == {};
    } else {
      SumCounts(sorted, values[..|values| - 1]);
      StatesDuration(sorted, values[|values| - 1]);
      CoveredStep(sorted, values);
    }
  }

  /** State conservation: over the distinct values of the events the durations add up to the span
      from the first event to one nanosecond after the last. */
  lemma StateConservation(sorted: seq<Event>, values: seq<string>)
    requires sorted != [] && SortedBy(EventTime, sorted)
    requires Distinct(values) && forall e :: e in sorted ==> e.value in values
    ensures SumOverValues(sorted, values) == sorted[|sorted| - 1].timestamp - sorted[0].timestamp + NANOSECOND
  {
    SumCounts(sorted, values);
    assert EventTime(sorted[0]) <= EventTime(sorted[|sorted| - 1]) by {
      assert |sorted| > 1 ==> EventTime(sorted[0]) <= EventTime(sorted[|sorted| - 1]);
    }
    var span := Range(sorted[0].timestamp, sorted[|sorted| - 1].timestamp + NANOSECOND);
    forall t | t in span
      ensures t in CoveredBy(sorted, values)
    {
      assert sorted[LatestIndex(sorted, t)] in sorted;
    }
    assert CoveredBy(sorted, values) == span;
  }

  // ----- The code -----

  lemma ScanStep(sorted: seq<Event>, i: nat, equals: string, s: Scan)
    requires i < |sorted| && (i > 0 ==> ScanStates(sorted[..i], equals) == s)
    ensures i == 0 ==> ScanStates(sorted[..1], equals) == Scan(sorted[0].value, sorted[0].timestamp, [])
    ensures i > 0 ==> ScanStates(sorted[..i + 1], equals) == NextScan(s, sorted[i], equals)
  {
    assert sorted[..i + 1][..i] == sorted[..i];
  }

  /** The part after sorting. */
  method ScanLoop(sortedEvents: seq<Event>, equals: string) returns (intervals: StateTimeline)
    requires sortedEvents != []
    ensures intervals == StatesOf(sortedEvents, equals)
  {
    intervals := [];
    var currentState, stateStart := "", 0;
    for i := 0 to |sortedEvents|
      invariant i > 0 ==> ScanStates(sortedEvents[..i], equals) == Scan(currentState, stateStart, intervals)
      invariant i == 0 ==> intervals == []
    {
      ScanStep(sortedEvents, i, equals, Scan(currentState, stateStart, intervals));
      var event := sortedEvents[i];
      var newState := event.value;
      if i == 0 || newState != currentState {
        if i > 0 && currentState == equals {
          intervals := intervals + [StateInterval(currentState, stateStart, event.timestamp)];
        }
        currentState, stateStart := newState, event.timestamp;
      }
    }
    assert sortedEvents[..|sortedEvents|] == sortedEvents;
    if currentState == equals {
      var lastEvent := sortedEvents[|sortedEvents| - 1];
      intervals := intervals + [StateInterval(currentState, stateStart, lastEvent.timestamp + NANOSECOND)];
    }
  }

  method LatestEventToState(es: EventSort, events: seq<Event>, equals: string) returns (intervals: StateTimeline)
    ensures intervals == LatestStates(es, events, equals)
  {
    if |events| == 0 {
      return [];
    }
    assert IsSortOf(EventTime, events, es(events));
    PermutationFacts(events, es(events));
    intervals := ScanLoop(es(events), equals);
  }

  method ConvertStateTimelineToBoolTimeline(stateTimeline: StateTimeline) returns (boolTimeline: BoolTimeline)
    ensures boolTimeline == AsBool(stateTimeline)
  {
    boolTimeline := [];
    for i := 0 to |stateTimeline|
      invariant boolTimeline == AsBool(stateTimeline[..i])
    {
      var interval := stateTimeline[i];
      boolTimeline := boolTimeline + [BoolInterval(true, interval.start, interval.end)];
    }
    assert stateTimeline[..|stateTimeline|] == stateTimeline;
  }
}
