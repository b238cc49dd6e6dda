/**
 `HasExisted` and `HasExistedWithin`: from matching events to Boolean timelines.
 Both results depend on the set of matching events only, not on the order of the events, and
 `HasExistedWithin` can be computed piece by piece and combined with OR.
 */
module Existence {
  import opened Sorting
  import opened Timeline
  import opened Merge
  import opened Ties
  import opened BooleanAlgebra

  // ----- What the loops compute -----

  function MatchingTimes(events: seq<Event>, condition: string): seq<int> {
    Collect((e: Event) => if e.value == condition then [e.timestamp] else [], events)
  }

  /** One true interval of the given length from each time on. */
  function WindowsFrom(times: seq<int>, window: int): BoolTimeline {
    seq(|times|, i requires 0 <= i < |times| => BoolInterval(true, times[i], times[i] + window))
  }

  function ExistedWithin(es: EventSort, bs: IntervalSort, events: seq<Event>, condition: string,
                         window: int): BoolTimeline {
    Merged(bs, WindowsFrom(MatchingTimes(es(events), condition), window))
  }

  function Existed(es: EventSort, events: seq<Event>, condition: string): BoolTimeline
  {
    var sorted := es(events);
    var times := MatchingTimes(sorted, condition);
    if sorted == [] || times == [] then []
    else [BoolInterval(true, times[0], sorted[|sorted| - 1].timestamp + HOUR)]
  }

  // ----- What they mean -----

  /** Some event has the wanted value and lies in `(t - window, t]`. */
  ghost predicate MatchWithin(events: seq<Event>, condition: string, window: int, t: int) {
    exists e :: e in events && e.value == condition && e.timestamp <= t < e.timestamp + window
  }

  lemma MatchingMember(events: seq<Event>, condition: string, x: int)
    ensures x in MatchingTimes(events, condition)
            <==> exists e :: e in events && e.value == condition && e.timestamp == x
  {
    var f := (e: Event) => if e.value == condition then [e.timestamp] else [];
    CollectMember(f, events, x);
  }

  lemma MatchingSorted(es: EventSort, events: seq<Event>, condition: string)
    ensures var r := es(events);
            && multiset(r) == multiset(events) && SortedBy(EventTime, r)
            && SortedBy(TimeKey, MatchingTimes(r, condition))
            && multiset(MatchingTimes(r, condition)) == multiset(MatchingTimes(events, condition))
  {
    var r := es(events);
    assert IsSortOf(EventTime, events, r);
    SortedMatches(r, condition);
    CollectPermutation((e: Event) => if e.value == condition then [e.timestamp] else [], r, events);
  }

  lemma {:induction false} SortedMatches(s: seq<Event>, condition: string)
    requires SortedBy(EventTime, s)
    ensures SortedBy(TimeKey, MatchingTimes(s, condition))
    decreases |s|
  {
    if s != [] {
      var init, last := s[..|s| - 1], s[|s| - 1];
      SortedMatches(init, condition);
      var times := MatchingTimes(init, condition);
      forall i | 0 <= i < |times|
        ensures times[i] <= last.timestamp
      {
        MatchingMember(init, condition, times[i]);
        var e :| e in init && e.timestamp == times[i];
        var j :| 0 <= j < |init| && init[j] == e;
        assert EventTime(s[j]) <= EventTime(s[|s| - 1]);
      }
    }
  }

  lemma WindowInstants(times: seq<int>, window: int, t: int)
    ensures t in Instants(WindowsFrom(times, window)) <==> exists x :: x in times && x <= t < x + window
  {
    var tl := WindowsFrom(times, window);
    if t in Instants(tl) {
      var i := OpenAt(tl, t);
      assert times[i] in times;
    }
    if x :| x in times && x <= t < x + window {
      var i :| 0 <= i < |times| && times[i] == x;
      OpenIn(tl, i, t);
    }
  }

  lemma WindowMatch(events: seq<Event>, r: seq<Event>, condition: string, window: int, t: int)
    requires forall e :: e in r <==> e in events
    ensures (exists x :: x in MatchingTimes(r, condition) && x <= t < x + window)
            <==> MatchWithin(events, condition, window, t)
  {
    if x :| x in MatchingTimes(r, condition) && x <= t < x + window {
      MatchingMember(r, condition, x);
    }
    if e :| e in events && e.value == condition && e.timestamp <= t < e.timestamp + window {
      MatchingMember(r, condition, e.timestamp);
    }
  }

  /** For any window, even a negative one, and any sort: true at `t` exactly when a matching event
      lies in the window that ends at `t`. */
  lemma WithinMeaning(es: EventSort, bs: IntervalSort, events: seq<Event>, condition: string, window: int)
    ensures forall t :: t in Instants(ExistedWithin(es, bs, events, condition, window))
                        <==> MatchWithin(events, condition, window, t)
    ensures window >= 0 ==> Tidy(ExistedWithin(es, bs, events, condition, window))
    ensures window > 0 ==> Normal(ExistedWithin(es, bs, events, condition, window))
  {
    var r := es(events);
    var times := MatchingTimes(r, condition);
    var tl := WindowsFrom(times, window);
    MatchingSorted(es, events, condition);
    PermutationFacts(events, r);
    MergeKeepsInstants(bs, tl, true);
    forall t
      ensures t in Instants(Merged(bs, tl)) <==> MatchWithin(events, condition, window, t)
    {
      WindowInstants(times, window, t);
      WindowMatch(events, r, condition, window, t);
    }
    if window >= 0 {
      MergeShape(bs, tl);
    }
  }

  lemma EarliestMatch(es: EventSort, events: seq<Event>, condition: string)
    requires MatchingTimes(es(events), condition) != []
    ensures var start := MatchingTimes(es(events), condition)[0];
            && (exists e :: e in events && e.value == condition && e.timestamp == start)
            && (forall e :: e in events && e.value == condition ==> start <= e.timestamp)
  {
    var r := es(events);
    var times := MatchingTimes(r, condition);
    MatchingSorted(es, events, condition);
    PermutationFacts(events, r);
    MatchingMember(r, condition, times[0]);
    forall e | e in events && e.value == condition
      ensures times[0] <= e.timestamp
    {
      MatchingMember(r, condition, e.timestamp);
      var i :| 0 <= i < |times| && times[i] == e.timestamp;
    }
  }

  lemma LatestEvent(es: EventSort, events: seq<Event>)
    requires es(events) != []
    ensures var last := es(events)[|es(events)| - 1];
            last in events && forall e :: e in events ==> e.timestamp <= last.timestamp
  {
    var r := es(events);
    assert IsSortOf(EventTime, events, r);
    PermutationFacts(events, r);
    assert r[|r| - 1] in r;
    forall e | e in events
      ensures e.timestamp <= r[|r| - 1].timestamp
    {
      var i :| 0 <= i < |r| && r[i] == e;
      assert EventTime(r[i]) <= EventTime(r[|r| - 1]);
    }
  }

  lemma FirstMatch(es: EventSort, events: seq<Event>, condition: string)
    requires Existed(es, events, condition) != []
    ensures var iv := Existed(es, events, condition)[0];
            && (exists e :: e in events && e.value == condition && e.timestamp == iv.start)
            && (forall e :: e in events && e.value == condition ==> iv.start <= e.timestamp)
            && (exists e :: e in events && e.timestamp + HOUR == iv.end)
            && (forall e :: e in events ==> e.timestamp + HOUR <= iv.end)
  {
    EarliestMatch(es, events, condition);
    LatestEvent(es, events);
  }

  /** True from the first matching event until one hour after the last event of any value. */
  ghost predicate MatchBefore(events: seq<Event>, condition: string, t: int) {
    && (exists e :: e in events && e.value == condition && e.timestamp <= t)
    && (exists e :: e in events && t < e.timestamp + HOUR)
  }

  lemma ExistedMeaning(es: EventSort, events: seq<Event>, condition: string)
    ensures forall t :: t in Instants(Existed(es, events, condition)) <==> MatchBefore(events, condition, t)
    ensures Normal(Existed(es, events, condition))
  {
    var tl := Existed(es, events, condition);
    var r := es(events);
    MatchingSorted(es, events, condition);
    PermutationFacts(events, r);
    if tl != [] {
      FirstMatch(es, events, condition);
      var first :| first in events && first.value == condition && first.timestamp == tl[0].start;
      assert first.timestamp + HOUR <= tl[0].end;
      forall t
        ensures t in Instants(tl) <==> MatchBefore(events, condition, t)
      {
        OneInterval(tl[0]);
        assert tl == [tl[0]];
      }
    } else {
      forall e | e in events && e.value == condition
        ensures false
      {
        MatchingMember(r, condition, e.timestamp);
      }
    }
  }

  // ----- Order and splitting of the events do not matter -----

  lemma SameMatches(a: seq<Event>, b: seq<Event>)
    requires multiset(a) == multiset(b)
    ensures forall c, w, t :: MatchWithin(a, c, w, t) <==> MatchWithin(b, c, w, t)
    ensures forall c, t :: MatchBefore(a, c, t) <==> MatchBefore(b, c, t)
  {
    PermutationFacts(a, b);
  }

  lemma ExistedOrder(f: EventSort, a: seq<Event>, g: EventSort, b: seq<Event>, condition: string)
    requires multiset(a) == multiset(b)
    ensures Existed(f, a, condition) == Existed(g, b, condition)
  {
    SameMatches(a, b);
    ExistedMeaning(f, a, condition);
    ExistedMeaning(g, b, condition);
    NormalUnique(Existed(f, a, condition), Existed(g, b, condition));
  }

  function WithinEach(es: EventSort, bs: IntervalSort, pieces: seq<seq<Event>>, condition: string,
                      window: int): seq<BoolTimeline> {
    seq(|pieces|, i requires 0 <= i < |pieces| => ExistedWithin(es, bs, pieces[i], condition, window))
  }

  lemma WindowsOrderless(times: seq<int>, window: int)
    ensures Orderless(WindowsFrom(times, window))
  {
  }

  /** `HasExistedWithin` does not depend on the order of the events or on the sorts, whatever the window. */
  lemma WithinOrder(f: EventSort, p: IntervalSort, a: seq<Event>, g: EventSort, q: IntervalSort, b: seq<Event>,
                    condition: string, window: int)
    requires multiset(a) == multiset(b)
    ensures ExistedWithin(f, p, a, condition, window) == ExistedWithin(g, q, b, condition, window)
  {
    MatchingSorted(f, a, condition);
    MatchingSorted(g, b, condition);
    CollectPermutation((e: Event) => if e.value == condition then [e.timestamp] else [], a, b);
    SortUnique(TimeKey, MatchingTimes(f(a), condition), MatchingTimes(g(b), condition));
    var windows := WindowsFrom(MatchingTimes(f(a), condition), window);
    WindowsOrderless(MatchingTimes(f(a), condition), window);
    MergedAlike(p, windows, q, windows);
  }

  /** Each interval is true, starts at a match and ends a window after a match; and each match has its window
      inside one of them or, if the window is negative, as one. */
  ghost predicate ShowsWindows(tl: BoolTimeline, events: seq<Event>, condition: string, window: int) {
    && (forall iv :: iv in tl ==>
          && iv.value
          && (exists e :: e in events && e.value == condition && e.timestamp == iv.start)
          && exists e :: e in events && e.value == condition && e.timestamp + window == iv.end)
    && forall e :: e in events && e.value == condition ==>
         exists iv :: iv in tl && iv.start <= e.timestamp && e.timestamp + window <= iv.end
                      && (window < 0 ==> iv.start == e.timestamp && e.timestamp + window == iv.end)
  }

  /** So it is for every window. */
  lemma WithinBounds(es: EventSort, bs: IntervalSort, events: seq<Event>, condition: string, window: int)
    ensures ShowsWindows(ExistedWithin(es, bs, events, condition, window), events, condition, window)
  {
    var times := MatchingTimes(es(events), condition);
    var windows := WindowsFrom(times, window);
    MatchingSorted(es, events, condition);
    PermutationFacts(events, es(events));
    MergeBounds(bs, windows);
    forall iv | iv in ExistedWithin(es, bs, events, condition, window)
      ensures iv.value
      ensures exists e :: e in events && e.value == condition && e.timestamp == iv.start
      ensures exists e :: e in events && e.value == condition && e.timestamp + window == iv.end
    {
      var x :| x in windows && x.value == iv.value && x.start == iv.start;
      var y :| y in windows && y.value == iv.value && y.end == iv.end;
      WindowOfMatch(es(events), condition, window, x);
      WindowOfMatch(es(events), condition, window, y);
    }
    forall e | e in events && e.value == condition
      ensures exists iv :: iv in ExistedWithin(es, bs, events, condition, window)
                           && iv.start <= e.timestamp && e.timestamp + window <= iv.end
                           && (window < 0 ==> iv.start == e.timestamp && e.timestamp + window == iv.end)
    {
      MatchHasWindow(es, bs, events, condition, window, e);
    }
  }

  lemma WindowOfMatch(events: seq<Event>, condition: string, window: int, x: BoolInterval)
    requires x in WindowsFrom(MatchingTimes(events, condition), window)
    ensures x.value && x.end == x.start + window
    ensures exists e :: e in events && e.value == condition && e.timestamp == x.start
  {
    var times := MatchingTimes(events, condition);
    var i :| 0 <= i < |times| && WindowsFrom(times, window)[i] == x;
    MatchingMember(events, condition, times[i]);
  }

  lemma MatchHasWindow(es: EventSort, bs: IntervalSort, events: seq<Event>, condition: string, window: int, e: Event)
    requires e in events && e.value == condition
    ensures exists iv :: iv in ExistedWithin(es, bs, events, condition, window)
                         && iv.start <= e.timestamp && e.timestamp + window <= iv.end
                         && (window < 0 ==> iv.start == e.timestamp && e.timestamp + window == iv.end)
  {
    var times := MatchingTimes(es(events), condition);
    var windows, x := WindowsFrom(times, window), BoolInterval(true, e.timestamp, e.timestamp + window);
    MatchingSorted(es, events, condition);
    PermutationFacts(events, es(events));
    MatchingMember(es(events), condition, e.timestamp);
    var i :| 0 <= i < |times| && times[i] == e.timestamp;
    assert windows[i] == x && x in windows;
    if window < 0 {
      ReversedMerged(bs, windows, window);
      PermutationFacts(windows, Merged(bs, windows));
      assert x in Merged(bs, windows);
    } else {
      WindowsShape(times, window);
      WindowTakenIn(bs, windows, x);
    }
  }

  /** A well formed interval lies in one of those that the intervals of its value merge into. */
  lemma WindowTakenIn(bs: IntervalSort, windows: BoolTimeline, x: BoolInterval)
    requires Uniform(windows, true) && WellFormed(windows) && x in windows
    ensures exists iv :: iv in Merged(bs, windows) && iv.start <= x.start && x.end <= iv.end
  {
    MergeReach(bs, windows, true);
    var m := Merged(bs, windows);
    var i :| 0 <= i < |windows| && windows[i] == x;
    var run := Double(m);
    DoubleAt(m);
    DoubleAt(windows);
    forall t | t in Range(2 * x.start, 2 * x.end + 1)
      ensures t in Instants(run)
    {
      OpenIn(Double(windows), i, t);
    }
    var k := RunInOne(run, 2 * x.start, 2 * x.end + 1);
    assert run[k] == Doubled(m[k]) && m[k] in m;
  }

  // ----- Combining pieces -----

  /** The windows of each piece, not yet merged. */
  function WindowsEach(pieces: seq<seq<Event>>, condition: string, window: int): seq<BoolTimeline> {
    seq(|pieces|, i requires 0 <= i < |pieces| => WindowsFrom(MatchingTimes(pieces[i], condition), window))
  }

  lemma {:induction false} WindowsCollected(times: seq<int>, window: int)
    ensures WindowsFrom(times, window) == Collect(x => [BoolInterval(true, x, x + window)], times)
    decreases |times|
  {
    if times != [] {
      var init, last := times[..|times| - 1], times[|times| - 1];
      WindowsCollected(init, window);
      assert WindowsFrom(times, window) == WindowsFrom(init, window) + [BoolInterval(true, last, last + window)];
    }
  }

  lemma WindowsPermutation(a: seq<int>, b: seq<int>, window: int)
    requires multiset(a) == multiset(b)
    ensures multiset(WindowsFrom(a, window)) == multiset(WindowsFrom(b, window))
  {
    WindowsCollected(a, window);
    WindowsCollected(b, window);
    CollectPermutation(x => [BoolInterval(true, x, x + window)], a, b);
  }

  lemma WindowsOfBoth(a: seq<Event>, b: seq<Event>, condition: string, window: int)
    ensures WindowsFrom(MatchingTimes(a + b, condition), window)
            == WindowsFrom(MatchingTimes(a, condition), window) + WindowsFrom(MatchingTimes(b, condition), window)
  {
    CollectConcat((e: Event) => if e.value == condition then [e.timestamp] else [], a, b);
  }

  lemma WindowsEachLast(init: seq<seq<Event>>, last: seq<Event>, condition: string, window: int)
    ensures WindowsEach(init + [last], condition, window)
            == WindowsEach(init, condition, window) + [WindowsFrom(MatchingTimes(last, condition), window)]
  {
  }

  lemma {:induction false} WindowsOfPieces(pieces: seq<seq<Event>>, condition: string, window: int)
    ensures Flatten(WindowsEach(pieces, condition, window))
            == WindowsFrom(MatchingTimes(Flatten(pieces), condition), window)
    decreases |pieces|
  {
    if pieces != [] {
      var init, last := pieces[..|pieces| - 1], pieces[|pieces| - 1];
      assert pieces == init + [last];
      WindowsOfPieces(init, condition, window);
      WindowsEachLast(init, last, condition, window);
      FlattenStep(WindowsEach(init, condition, window), WindowsFrom(MatchingTimes(last, condition), window));
      WindowsOfBoth(Flatten(init), last, condition, window);
    }
  }

  /** The windows of the sorted whole are those of the pieces, in some order. */
  lemma SameWindows(es: EventSort, whole: seq<Event>, pieces: seq<seq<Event>>, condition: string, window: int)
    requires multiset(whole) == multiset(Flatten(pieces))
    ensures multiset(WindowsFrom(MatchingTimes(es(whole), condition), window))
            == multiset(Flatten(WindowsEach(pieces, condition, window)))
  {
    MatchingSorted(es, whole, condition);
    CollectPermutation((e: Event) => if e.value == condition then [e.timestamp] else [], whole, Flatten(pieces));
    WindowsPermutation(MatchingTimes(es(whole), condition), MatchingTimes(Flatten(pieces), condition), window);
    WindowsOfPieces(pieces, condition, window);
  }

  // Windows that are not negative: the pieces reach what the whole reaches.

  lemma ReachPermutation(a: BoolTimeline, b: BoolTimeline)
    requires multiset(a) == multiset(b)
    ensures Reach(a) == Reach(b)
  {
    CollectPermutation(iv => [Doubled(iv)], a, b);
    InstantsPermutation(Double(a), Double(b));
  }

  lemma {:induction false} ReachEach(a: seq<BoolTimeline>, b: seq<BoolTimeline>)
    requires |a| == |b| && forall i :: 0 <= i < |a| ==> Reach(a[i]) == Reach(b[i])
    ensures Reach(Flatten(a)) == Reach(Flatten(b))
    decreases |a|
  {
    if a != [] {
      var n := |a| - 1;
      ReachEach(a[..n], b[..n]);
      ReachConcat(Flatten(a[..n]), a[n]);
      ReachConcat(Flatten(b[..n]), b[n]);
    }
  }

  lemma {:induction false} ShapeEach(a: seq<BoolTimeline>, v: bool)
    requires forall i :: 0 <= i < |a| ==> Uniform(a[i], v) && WellFormed(a[i])
    ensures Uniform(Flatten(a), v) && WellFormed(Flatten(a))
    decreases |a|
  {
    if a != [] {
      ShapeEach(a[..|a| - 1], v);
      PairShape(Flatten(a[..|a| - 1]), a[|a| - 1], v);
    }
  }

  lemma WindowsShape(times: seq<int>, window: int)
    requires window >= 0
    ensures Uniform(WindowsFrom(times, window), true) && WellFormed(WindowsFrom(times, window))
  {
  }

  lemma MergedShape(bs: IntervalSort, tl: BoolTimeline)
    requires Uniform(tl, true) && WellFormed(tl)
    ensures Uniform(Merged(bs, tl), true) && WellFormed(Merged(bs, tl)) && Reach(Merged(bs, tl)) == Reach(tl)
  {
    MergeReach(bs, tl, true);
    assert forall i :: 0 <= i < |tl| ==> tl[i] in tl;
    MergeShape(bs, tl);
  }

  lemma PieceReach(es: EventSort, bs: IntervalSort, piece: seq<Event>, condition: string, window: int)
    requires window >= 0
    ensures var tl := ExistedWithin(es, bs, piece, condition, window);
            && Uniform(tl, true) && WellFormed(tl)
            && Reach(tl) == Reach(WindowsFrom(MatchingTimes(piece, condition), window))
  {
    WindowsShape(MatchingTimes(es(piece), condition), window);
    MergedShape(bs, WindowsFrom(MatchingTimes(es(piece), condition), window));
    MatchingSorted(es, piece, condition);
    WindowsPermutation(MatchingTimes(es(piece), condition), MatchingTimes(piece, condition), window);
    ReachPermutation(WindowsFrom(MatchingTimes(es(piece), condition), window),
                     WindowsFrom(MatchingTimes(piece, condition), window));
  }

  lemma PiecesReach(es: EventSort, bs: IntervalSort, pieces: seq<seq<Event>>, condition: string, window: int)
    requires window >= 0
    ensures var parts := Flatten(WithinEach(es, bs, pieces, condition, window));
            && Uniform(parts, true) && WellFormed(parts)
            && Reach(parts) == Reach(Flatten(WindowsEach(pieces, condition, window)))
  {
    var parts := WithinEach(es, bs, pieces, condition, window);
    forall i | 0 <= i < |pieces|
      ensures Uniform(parts[i], true) && WellFormed(parts[i])
      ensures Reach(parts[i]) == Reach(WindowsEach(pieces, condition, window)[i])
    {
      PieceReach(es, bs, pieces[i], condition, window);
    }
    ShapeEach(parts, true);
    ReachEach(parts, WindowsEach(pieces, condition, window));
  }

  // Negative windows: reversed intervals never join, so merging only sorts them.

  ghost predicate Reversed(tl: BoolTimeline, window: int) {
    forall iv :: iv in tl ==> iv.value && iv.end == iv.start + window
  }

  lemma {:induction false} ReversedStay(current: BoolInterval, rest: BoolTimeline, window: int)
    requires window < 0 && Reversed([current] + rest, window) && SortedBy(IntervalStart, [current] + rest)
    ensures MergeFrom(current, rest) == [current] + rest
    decreases |rest|
  {
    var s := [current] + rest;
    assert current in s;
    if rest != [] {
      assert rest == [rest[0]] + rest[1..];
      SortedTail(current, rest);
      assert forall iv :: iv in rest ==> iv in s;
      ReversedStay(rest[0], rest[1..], window);
    }
  }

  lemma ReversedMerged(bs: IntervalSort, tl: BoolTimeline, window: int)
    requires window < 0 && Reversed(tl, window)
    ensures Merged(bs, tl) == bs(tl) && Reversed(Merged(bs, tl), window)
    ensures multiset(Merged(bs, tl)) == multiset(tl) && SortedBy(IntervalStart, Merged(bs, tl))
  {
    var r := bs(tl);
    assert IsSortOf(IntervalStart, tl, r);
    PermutationFacts(tl, r);
    if tl != [] {
      assert r == [r[0]] + r[1..];
      ReversedStay(r[0], r[1..], window);
    }
  }

  lemma {:induction false} FlattenPermuted(a: seq<BoolTimeline>, b: seq<BoolTimeline>)
    requires |a| == |b| && forall i :: 0 <= i < |a| ==> multiset(a[i]) == multiset(b[i])
    ensures multiset(Flatten(a)) == multiset(Flatten(b))
    decreases |a|
  {
    if a != [] {
      var n := |a| - 1;
      FlattenPermuted(a[..n], b[..n]);
      assert multiset(Flatten(a)) == multiset(Flatten(a[..n])) + multiset(a[n]);
      assert multiset(Flatten(b)) == multiset(Flatten(b[..n])) + multiset(b[n]);
    }
  }

  lemma PieceReversed(es: EventSort, bs: IntervalSort, piece: seq<Event>, condition: string, window: int)
    requires window < 0
    ensures multiset(ExistedWithin(es, bs, piece, condition, window))
            == multiset(WindowsFrom(MatchingTimes(piece, condition), window))
  {
    ReversedMerged(bs, WindowsFrom(MatchingTimes(es(piece), condition), window), window);
    MatchingSorted(es, piece, condition);
    WindowsPermutation(MatchingTimes(es(piece), condition), MatchingTimes(piece, condition), window);
  }

  lemma PartsPermuted(es: EventSort, bs: IntervalSort, pieces: seq<seq<Event>>, condition: string, window: int)
    requires window < 0
    ensures multiset(Flatten(WithinEach(es, bs, pieces, condition, window)))
            == multiset(Flatten(WindowsEach(pieces, condition, window)))
  {
    var parts, raw := WithinEach(es, bs, pieces, condition, window), WindowsEach(pieces, condition, window);
    forall i | 0 <= i < |pieces|
      ensures multiset(parts[i]) == multiset(raw[i])
    {
      PieceReversed(es, bs, pieces[i], condition, window);
    }
    FlattenPermuted(parts, raw);
  }

  lemma ReversedSorted(a: BoolTimeline, b: BoolTimeline, window: int)
    requires Reversed(a, window) && multiset(a) == multiset(b)
    requires SortedBy(IntervalStart, a) && SortedBy(IntervalStart, b)
    ensures a == b
  {
    forall x, y | x in a && y in a && IntervalStart(x) == IntervalStart(y)
      ensures x == y
    {
    }
    SortUnique(IntervalStart, a, b);
  }

  lemma ReversedPermutation(a: BoolTimeline, b: BoolTimeline, window: int)
    requires Reversed(a, window) && multiset(a) == multiset(b)
    ensures Reversed(b, window)
  {
    PermutationFacts(a, b);
  }

  lemma ReversedUnique(bs: IntervalSort, a: BoolTimeline, b: BoolTimeline, window: int)
    requires window < 0 && Reversed(a, window) && multiset(a) == multiset(b)
    ensures Merged(bs, a) == Merged(bs, b)
  {
    ReversedPermutation(a, b, window);
    ReversedMerged(bs, a, window);
    ReversedMerged(bs, b, window);
    ReversedSorted(Merged(bs, a), Merged(bs, b), window);
  }

  lemma PiecesReversed(es: EventSort, bs: IntervalSort, whole: seq<Event>, pieces: seq<seq<Event>>, condition: string,
                       window: int)
    requires window < 0 && multiset(whole) == multiset(Flatten(pieces))
    ensures ExistedWithin(es, bs, whole, condition, window)
            == Merged(bs, Flatten(WithinEach(es, bs, pieces, condition, window)))
  {
    SameWindows(es, whole, pieces, condition, window);
    PartsPermuted(es, bs, pieces, condition, window);
    ReversedUnique(bs, WindowsFrom(MatchingTimes(es(whole), condition), window),
                   Flatten(WithinEach(es, bs, pieces, condition, window)), window);
  }

  lemma OrOfParts(bs: IntervalSort, parts: seq<BoolTimeline>)
    ensures OrAll(bs, parts) == if |parts| == 1 then parts[0] else Merged(bs, Flatten(parts))
  {
  }

  /** Chunk homomorphism: dealt out over pieces in any way, the events give the same list as the whole
      does, once the pieces are combined with OR.  This holds for every window and any number of
      pieces, empty ones included. */
  lemma WithinByPieces(es: EventSort, bs: IntervalSort, whole: seq<Event>, pieces: seq<seq<Event>>, condition: string,
                       window: int)
    requires multiset(whole) == multiset(Flatten(pieces))
    ensures ExistedWithin(es, bs, whole, condition, window)
            == OrAll(bs, WithinEach(es, bs, pieces, condition, window))
  {
    var parts := WithinEach(es, bs, pieces, condition, window);
    OrOfParts(bs, parts);
    if |pieces| == 1 {
      FlattenOne(pieces[0]);
      assert pieces == [pieces[0]];
      WithinOrder(es, bs, whole, es, bs, pieces[0], condition, window);
    } else if window < 0 {
      PiecesReversed(es, bs, whole, pieces, condition, window);
    } else {
      var windows := WindowsFrom(MatchingTimes(es(whole), condition), window);
      PiecesReach(es, bs, pieces, condition, window);
      SameWindows(es, whole, pieces, condition, window);
      ReachPermutation(windows, Flatten(WindowsEach(pieces, condition, window)));
      WindowsShape(MatchingTimes(es(whole), condition), window);
      MergeUniqueReach(bs, windows, bs, Flatten(parts), true);
    }
  }

  // ----- The code -----

  lemma SortedLength(es: EventSort, events: seq<Event>)
    ensures |es(events)| == |events|
  {
    assert IsSortOf(EventTime, events, es(events));
    PermutationFacts(events, es(events));
  }

  lemma MatchingStep(events: seq<Event>, i: nat, condition: string)
    requires i < |events|
    ensures MatchingTimes(events[..i + 1], condition)
            == MatchingTimes(events[..i], condition)
               + if events[i].value == condition then [events[i].timestamp] else []
  {
    assert events[..i + 1][..i] == events[..i];
  }

  /** The first match stays the first. */
  lemma FirstStep(events: seq<Event>, i: nat, condition: string)
    requires i < |events|
    ensures var before, after := MatchingTimes(events[..i], condition), MatchingTimes(events[..i + 1], condition);
            if before != [] then after != [] && after[0] == before[0]
            else if events[i].value == condition then after != [] && after[0] == events[i].timestamp
            else after == []
  {
    MatchingStep(events, i, condition);
  }

  lemma WindowStep(times: seq<int>, i: nat, window: int)
    requires i < |times|
    ensures WindowsFrom(times[..i + 1], window)
            == WindowsFrom(times[..i], window) + [BoolInterval(true, times[i], times[i] + window)]
  {
  }

  method HasExisted(es: EventSort, events: seq<Event>, condition: string) returns (intervals: BoolTimeline)
    ensures intervals == Existed(es, events, condition)
  {
    SortedLength(es, events);
    if |events| == 0 {
      return [];
    }
    var sortedEvents := es(events);
    intervals := [];
    var hasExisted, trueStart := false, 0;
    for i := 0 to |sortedEvents|
      invariant hasExisted <==> MatchingTimes(sortedEvents[..i], condition) != []
      invariant hasExisted ==> MatchingTimes(sortedEvents[..i], condition)[0] == trueStart
    {
      FirstStep(sortedEvents, i, condition);
      var event := sortedEvents[i];
      if event.value == condition && !hasExisted {
        hasExisted := true;
        trueStart := event.timestamp;
      }
    }
    assert sortedEvents[..|sortedEvents|] == sortedEvents;
    if hasExisted {
      var lastEvent := sortedEvents[|sortedEvents| - 1];
      intervals := intervals + [BoolInterval(true, trueStart, lastEvent.timestamp + HOUR)];
    }
  }

  method HasExistedWithin(es: EventSort, bs: IntervalSort, events: seq<Event>, condition: string, window: int)
    returns (result: array<BoolInterval>)
    ensures fresh(result) && result[..] == ExistedWithin(es, bs, events, condition, window)
  {
    SortedLength(es, events);
    if |events| == 0 {
      result := new BoolInterval[0];
      return;
    }
    var sortedEvents := es(events);
    var matchingEvents: seq<int> := [];
    for i := 0 to |sortedEvents|
      invariant matchingEvents == MatchingTimes(sortedEvents[..i], condition)
    {
      MatchingStep(sortedEvents, i, condition);
      var event := sortedEvents[i];
      if event.value == condition {
        matchingEvents := matchingEvents + [event.timestamp];
      }
    }
    assert sortedEvents[..|sortedEvents|] == sortedEvents;

    if |matchingEvents| == 0 {
      result := new BoolInterval[0];
      return;
    }
    var intervals: BoolTimeline := [];
    for i := 0 to |matchingEvents|
      invariant intervals == WindowsFrom(matchingEvents[..i], window)
    {
      WindowStep(matchingEvents, i, window);
      var eventTime := matchingEvents[i];
      intervals := intervals + [BoolInterval(true, eventTime, eventTime + window)];
    }
    assert matchingEvents[..|matchingEvents|] == matchingEvents;
    var slice := SliceOf(intervals);
    result := MergeBoolIntervals(bs, slice);
  }
}
