/**
 Session, tumbling and sliding windows.  Session windows are a second implementation of the
 merge behind `HasExistedWithin`; sliding windows have a closed form from which the tiling
 and counting laws follow.
 */
module Windows {
  import opened Arithmetic
  import opened Sorting
  import opened Timeline
  import opened Merge
  import opened Existence

  datatype WindowKind = SlidingWindow | TumblingWindow | SessionWindow

  datatype Window = Window(kind: WindowKind, size: int, slide: int, timeout: int, start: int, end: int)

  ghost predicate InWindow(w: Window, t: int) {
    w.start <= t < w.end
  }

  // ----- Session windows -----

  function Session(start: int, last: int, timeout: int): Window {
    Window(SessionWindow, 0, 0, timeout, start, last + timeout)
  }

  /** The loop over the remaining sorted times, with a session open. */
  function SessionsFrom(sessionStart: int, lastEvent: int, rest: seq<int>, timeout: int): seq<Window>
    decreases |rest|
  {
    if rest == [] then
      [Session(sessionStart, lastEvent, timeout)]
    else if rest[0] - lastEvent > timeout then
      [Session(sessionStart, lastEvent, timeout)] + SessionsFrom(rest[0], rest[0], rest[1..], timeout)
    else
      SessionsFrom(sessionStart, rest[0], rest[1..], timeout)
  }

  function Sessions(ts: TimeSort, events: seq<int>, timeout: int): seq<Window> {
    if events == [] then []
    else
      var sorted := ts(events);
      if sorted == [] then [] else SessionsFrom(sorted[0], sorted[0], sorted[1..], timeout)
  }

  method CreateSessionWindows(ts: TimeSort, events: seq<int>, sessionTimeout: int) returns (windows: seq<Window>)
    ensures windows == Sessions(ts, events, sessionTimeout)
  {
    if |events| == 0 {
      return [];
    }
    assert IsSortOf(TimeKey, events, ts(events));
    PermutationFacts(events, ts(events));
    var sortedEvents := ts(events);
    windows := [];
    var sessionStart, lastEvent := sortedEvents[0], sortedEvents[0];
    var i := 1;
    while i < |sortedEvents|
      invariant 1 <= i <= |sortedEvents|
      invariant windows + SessionsFrom(sessionStart, lastEvent, sortedEvents[i..], sessionTimeout)
                == Sessions(ts, events, sessionTimeout)
    {
      var current := sortedEvents[i];
      assert sortedEvents[i..][1..] == sortedEvents[i + 1..];
      if current - lastEvent > sessionTimeout {
        windows := windows + [Session(sessionStart, lastEvent, sessionTimeout)];
        sessionStart := current;
      }
      lastEvent := current;
      i := i + 1;
    }
    windows := windows + [Session(sessionStart, lastEvent, sessionTimeout)];
  }

  function WindowBounds(windows: seq<Window>): seq<(int, int)> {
    seq(|windows|, i requires 0 <= i < |windows| => (windows[i].start, windows[i].end))
  }

  function IntervalBounds(tl: BoolTimeline): seq<(int, int)> {
    seq(|tl|, i requires 0 <= i < |tl| => (tl[i].start, tl[i].end))
  }

  lemma BoundsCons(w: Window, windows: seq<Window>, iv: BoolInterval, tl: BoolTimeline)
    ensures WindowBounds([w] + windows) == [(w.start, w.end)] + WindowBounds(windows)
    ensures IntervalBounds([iv] + tl) == [(iv.start, iv.end)] + IntervalBounds(tl)
  {
  }

  lemma SortedRest(last: int, rest: seq<int>)
    requires SortedBy(TimeKey, [last] + rest) && rest != []
    ensures last <= rest[0] && SortedBy(TimeKey, [rest[0]] + rest[1..])
  {
    var s := [last] + rest;
    assert TimeKey(s[0]) <= TimeKey(s[1]);
    assert [rest[0]] + rest[1..] == s[1..];
  }

  /** Merging goes on as long as the session does. */
  lemma MergeStep(start: int, last: int, rest: seq<int>, timeout: int)
    requires rest != [] && last <= rest[0]
    ensures MergeFrom(BoolInterval(true, start, last + timeout), WindowsFrom(rest, timeout))
            == if rest[0] - last > timeout then
                 [BoolInterval(true, start, last + timeout)]
                 + MergeFrom(BoolInterval(true, rest[0], rest[0] + timeout), WindowsFrom(rest[1..], timeout))
               else
                 MergeFrom(BoolInterval(true, start, rest[0] + timeout), WindowsFrom(rest[1..], timeout))
  {
    var windows := WindowsFrom(rest, timeout);
    assert windows[1..] == WindowsFrom(rest[1..], timeout);
    assert windows[0] == BoolInterval(true, rest[0], rest[0] + timeout);
  }

  lemma {:induction false} SessionsMerge(start: int, last: int, rest: seq<int>, timeout: int)
    requires SortedBy(TimeKey, [last] + rest)
    ensures WindowBounds(SessionsFrom(start, last, rest, timeout))
            == IntervalBounds(MergeFrom(BoolInterval(true, start, last + timeout), WindowsFrom(rest, timeout)))
    decreases |rest|
  {
    var current := BoolInterval(true, start, last + timeout);
    if rest == [] {
      assert WindowsFrom(rest, timeout) == [];
    } else {
      SortedRest(last, rest);
      MergeStep(start, last, rest, timeout);
      if rest[0] - last > timeout {
        SessionsMerge(rest[0], rest[0], rest[1..], timeout);
        BoundsCons(Session(start, last, timeout), SessionsFrom(rest[0], rest[0], rest[1..], timeout), current,
                   MergeFrom(BoolInterval(true, rest[0], rest[0] + timeout), WindowsFrom(rest[1..], timeout)));
      } else {
        SessionsMerge(start, rest[0], rest[1..], timeout);
      }
    }
  }

  /** Windows of one length that start in time order are in the one order a sort can give them. */
  lemma SortedWindows(bs: IntervalSort, times: seq<int>, window: int)
    requires SortedBy(TimeKey, times)
    ensures bs(WindowsFrom(times, window)) == WindowsFrom(times, window)
  {
    var tl := WindowsFrom(times, window);
    assert IsSortOf(IntervalStart, tl, bs(tl));
    assert SortedBy(IntervalStart, tl) by {
      forall i, j | 0 <= i < j < |tl|
        ensures IntervalStart(tl[i]) <= IntervalStart(tl[j])
      {
        assert TimeKey(times[i]) <= TimeKey(times[j]);
      }
    }
    SortUnique(IntervalStart, tl, bs(tl));
  }

  lemma MatchingOrder(es: EventSort, ts: TimeSort, events: seq<Event>, condition: string, times: seq<int>)
    requires multiset(times) == multiset(MatchingTimes(events, condition))
    ensures ts(times) == MatchingTimes(es(events), condition) && |ts(times)| == |times|
    ensures SortedBy(TimeKey, ts(times))
  {
    MatchingSorted(es, events, condition);
    assert IsSortOf(TimeKey, times, ts(times));
    SortUnique(TimeKey, MatchingTimes(es(events), condition), ts(times));
    PermutationFacts(times, ts(times));
  }

  lemma SortedSessions(sorted: seq<int>, timeout: int)
    requires SortedBy(TimeKey, sorted) && sorted != []
    ensures WindowBounds(SessionsFrom(sorted[0], sorted[0], sorted[1..], timeout))
            == IntervalBounds(MergeSorted(WindowsFrom(sorted, timeout)))
  {
    assert [sorted[0]] + sorted[1..] == sorted;
    SessionsMerge(sorted[0], sorted[0], sorted[1..], timeout);
    assert WindowsFrom(sorted, timeout)[1..] == WindowsFrom(sorted[1..], timeout);
  }

  /** Two implementations agree: sessions over the matching times, given in any order, have exactly
      the bounds of the merged windows of `HasExistedWithin`, for every timeout, also zero or negative. */
  lemma SessionsAreMergedWindows(es: EventSort, bs: IntervalSort, ts: TimeSort, events: seq<Event>,
                                 condition: string, times: seq<int>, timeout: int)
    requires multiset(times) == multiset(MatchingTimes(events, condition))
    ensures WindowBounds(Sessions(ts, times, timeout))
            == IntervalBounds(ExistedWithin(es, bs, events, condition, timeout))
  {
    MatchingOrder(es, ts, events, condition, times);
    SortedWindows(bs, ts(times), timeout);
    if times != [] {
      SortedSessions(ts(times), timeout);
    }
  }

  lemma {:induction false} SessionFields(sessionStart: int, lastEvent: int, rest: seq<int>, timeout: int)
    ensures forall w :: w in SessionsFrom(sessionStart, lastEvent, rest, timeout) ==>
              w == Window(SessionWindow, 0, 0, timeout, w.start, w.end)
    decreases |rest|
  {
    if rest != [] {
      if rest[0] - lastEvent > timeout {
        SessionFields(rest[0], rest[0], rest[1..], timeout);
      } else {
        SessionFields(sessionStart, rest[0], rest[1..], timeout);
      }
    }
  }

  /** Besides their bounds, session windows carry nothing but their timeout. */
  lemma SessionsAreSessions(ts: TimeSort, events: seq<int>, timeout: int)
    ensures forall w :: w in Sessions(ts, events, timeout) ==>
              w == Window(SessionWindow, 0, 0, timeout, w.start, w.end)
  {
    if events != [] && ts(events) != [] {
      SessionFields(ts(events)[0], ts(events)[0], ts(events)[1..], timeout);
    }
  }

  // ----- Sliding and tumbling windows -----

  /** The loop ends: either it does not start, or every step moves forward. */
  predicate Advances(start: int, end: int, step: int) {
    step > 0 || start >= end
  }

  /** Where the tumbling loop stands after `n` rounds, if it gets that far. */
  ghost function TumblingCursor(start: int, end: int, size: int, n: nat): int {
    if n == 0 then start else Min(TumblingCursor(start, end, size, n - 1) + size, end)
  }

  /** Without that condition neither loop ever reaches `end`. */
  lemma {:induction false} StuckLoops(start: int, end: int, step: int, n: nat)
    requires !Advances(start, end, step)
    ensures start + n * step < end && TumblingCursor(start, end, step, n) < end
  {
    if n > 0 {
      StuckLoops(start, end, step, n - 1);
      assert n * step == (n - 1) * step + step;
    }
  }

  function Sliding(start: int, end: int, size: int, slide: int): seq<Window>
    requires Advances(start, end, slide)
    decreases end - start
  {
    if start < end then
      [Window(SlidingWindow, size, slide, 0, start, Min(start + size, end))] + Sliding(start + slide, end, size, slide)
    else
      []
  }

  function Tumbling(start: int, end: int, size: int): seq<Window>
    requires Advances(start, end, size)
    decreases end - start
  {
    if start < end then
      [Window(TumblingWindow, size, 0, 0, start, Min(start + size, end))] + Tumbling(Min(start + size, end), end, size)
    else
      []
  }

  method CreateSlidingWindows(start: int, end: int, windowSize: int, slideSize: int) returns (windows: seq<Window>)
    requires Advances(start, end, slideSize)
    ensures windows == Sliding(start, end, windowSize, slideSize)
  {
    windows := [];
    var current := start;
    while current < end
      invariant Advances(current, end, slideSize)
      invariant windows + Sliding(current, end, windowSize, slideSize) == Sliding(start, end, windowSize, slideSize)
      decreases end - current
    {
      var windowEnd := current + windowSize;
      if windowEnd > end {
        windowEnd := end;
      }
      windows := windows + [Window(SlidingWindow, windowSize, slideSize, 0, current, windowEnd)];
      current := current + slideSize;
    }
  }

  method CreateTumblingWindows(start: int, end: int, windowSize: int) returns (windows: seq<Window>)
    requires Advances(start, end, windowSize)
    ensures windows == Tumbling(start, end, windowSize)
  {
    windows := [];
    var current := start;
    while current < end
      invariant Advances(current, end, windowSize)
      invariant windows + Tumbling(current, end, windowSize) == Tumbling(start, end, windowSize)
      decreases end - current
    {
      var windowEnd := current + windowSize;
      if windowEnd > end {
        windowEnd := end;
      }
      windows := windows + [Window(TumblingWindow, windowSize, 0, 0, current, windowEnd)];
      current := windowEnd;
    }
  }

  /** The quotient rounded up, and 0 for an empty or reversed range. */
  function Steps(length: int, step: int): int
    requires step > 0
  {
    if length <= 0 then 0 else (length + step - 1) / step
  }

  lemma {:induction false} SlidingClosedForm(start: int, end: int, size: int, slide: int)
    requires slide > 0
    ensures var w := Sliding(start, end, size, slide);
            && |w| == Steps(end - start, slide)
            && forall k :: 0 <= k < |w| ==>
                 w[k] == Window(SlidingWindow, size, slide, 0, start + k * slide, Min(start + k * slide + size, end))
    decreases end - start
  {
    if start < end {
      SlidingClosedForm(start + slide, end, size, slide);
      var w, rest := Sliding(start, end, size, slide), Sliding(start + slide, end, size, slide);
      StepsNext(end - start, slide);
      forall k | 0 <= k < |w|
        ensures w[k] == Window(SlidingWindow, size, slide, 0, start + k * slide, Min(start + k * slide + size, end))
      {
        if k > 0 {
          assert w[k] == rest[k - 1];
          assert (k - 1) * slide + slide == k * slide;
        }
      }
    }
  }

  lemma StepsNext(length: int, step: int)
    requires step > 0 && length > 0
    ensures Steps(length, step) == Steps(length - step, step) + 1
  {
    if length - step > 0 {
      DivStep(length - 1, step);
    } else {
      DivSmall(length - 1, step);
      DivStep(length - 1, step);
    }
    assert (length - 1 + step) / step == Steps(length, step);
  }

  /** Sliding window `k` holds an instant of the range exactly when its offset lies in
      `[k * slide, k * slide + size)`. */
  lemma SlidingHolds(start: int, end: int, size: int, slide: int, k: nat, t: int)
    requires slide > 0 && k < |Sliding(start, end, size, slide)| && start <= t < end
    ensures InWindow(Sliding(start, end, size, slide)[k], t) <==> k * slide <= t - start < k * slide + size
  {
    SlidingClosedForm(start, end, size, slide);
  }

  ghost function Holding(windows: seq<Window>, t: int): set<int> {
    set k | 0 <= k < |windows| && InWindow(windows[k], t)
  }

  lemma SlidingIndex(start: int, end: int, slide: int, m: nat, t: int, k: int)
    requires slide > 0 && start <= t < end && t - start >= m * slide - slide
    ensures var q := (t - start) / slide;
            k in Holding(Sliding(start, end, m * slide, slide), t) <==> q - m + 1 <= k <= q
  {
    var windows := Sliding(start, end, m * slide, slide);
    SlidingClosedForm(start, end, m * slide, slide);
    LastStep(end - start, slide, t - start);
    assert (m - 1) * slide == m * slide - slide;
    FloorAtLeast(m - 1, t - start, slide);
    FloorAtLeast(k, t - start, slide);
    FloorAtLeast(k + m, t - start, slide);
    assert (k + m) * slide == k * slide + m * slide;
    if 0 <= k < |windows| {
      SlidingHolds(start, end, m * slide, slide, k, t);
    }
  }

  /** When the slide divides the size, every interior instant lies in exactly size / slide windows. */
  lemma SlidingCount(start: int, end: int, slide: int, m: nat, t: int)
    requires slide > 0 && start <= t < end && t - start >= m * slide - slide
    ensures |Holding(Sliding(start, end, m * slide, slide), t)| == m
  {
    var windows := Sliding(start, end, m * slide, slide);
    var q := (t - start) / slide;
    forall k: int
      ensures k in Holding(windows, t) <==> k in Range(q - m + 1, q + 1)
    {
      SlidingIndex(start, end, slide, m, t, k);
    }
    assert Holding(windows, t) == Range(q - m + 1, q + 1);
  }

  lemma LastStep(length: int, step: int, offset: int)
    requires step > 0 && 0 <= offset < length
    ensures 0 <= offset / step < Steps(length, step)
  {
    FloorAtLeast(0, offset, step);
    var q := offset / step;
    FloorAtLeast(q, offset, step);
    FloorAtLeast(q + 1, length + step - 1, step);
    assert (q + 1) * step == q * step + step;
  }

  /** A slide equal to the size gives the tumbling bounds. */
  lemma {:induction false} TumblingIsSliding(start: int, end: int, size: int)
    requires size > 0
    ensures WindowBounds(Tumbling(start, end, size)) == WindowBounds(Sliding(start, end, size, size))
    decreases end - start
  {
    if start < end {
      var next := Min(start + size, end);
      TumblingIsSliding(start + size, end, size);
      assert Tumbling(next, end, size) == Tumbling(start + size, end, size);
      var none := BoolInterval(true, start, end);
      BoundsCons(Tumbling(start, end, size)[0], Tumbling(next, end, size), none, []);
      BoundsCons(Sliding(start, end, size, size)[0], Sliding(start + size, end, size, size), none, []);
    }
  }

  lemma {:induction false} TumblingFields(start: int, end: int, size: int)
    requires size > 0
    ensures forall w :: w in Tumbling(start, end, size) ==> w == Window(TumblingWindow, size, 0, 0, w.start, w.end)
    decreases end - start
  {
    if start < end {
      TumblingFields(Min(start + size, end), end, size);
    }
  }

  /** Tumbling windows tile `[start, end)`: as many as rounding up says, none empty, and an instant of
      the range lies in the window its offset points at and in no other. */
  lemma TumblingTiles(start: int, end: int, size: int)
    requires size > 0
    ensures forall w :: w in Tumbling(start, end, size) ==> w == Window(TumblingWindow, size, 0, 0, w.start, w.end)
    ensures |Tumbling(start, end, size)| == Steps(end - start, size)
    ensures forall k :: 0 <= k < |Tumbling(start, end, size)| ==>
              var w := Tumbling(start, end, size)[k]; start <= w.start < w.end <= end && w.end - w.start <= size
    ensures forall t :: start <= t < end ==> Holding(Tumbling(start, end, size), t) == {(t - start) / size}
  {
    var tumbling, sliding := Tumbling(start, end, size), Sliding(start, end, size, size);
    TumblingFields(start, end, size);
    TumblingIsSliding(start, end, size);
    SlidingClosedForm(start, end, size, size);
    assert |WindowBounds(tumbling)| == |WindowBounds(sliding)|;
    forall k | 0 <= k < |tumbling|
      ensures tumbling[k].start == sliding[k].start && tumbling[k].end == sliding[k].end
    {
      assert WindowBounds(tumbling)[k] == WindowBounds(sliding)[k];
    }
    forall k | 0 <= k < |tumbling|
      ensures var w := tumbling[k]; start <= w.start < w.end <= end && w.end - w.start <= size
    {
      StepInside(end - start, size, k);
    }
    forall t | start <= t < end
      ensures Holding(tumbling, t) == {(t - start) / size}
    {
      LastStep(end - start, size, t - start);
      forall k: int
        ensures k in Holding(tumbling, t) <==> k == (t - start) / size
      {
        FloorAtLeast(k, t - start, size);
        FloorAtLeast(k + 1, t - start, size);
        assert (k + 1) * size == k * size + size;
        if 0 <= k < |sliding| {
          SlidingHolds(start, end, size, size, k, t);
        }
      }
    }
  }

  lemma StepInside(length: int, step: int, k: nat)
    requires step > 0 && k < Steps(length, step)
    ensures 0 <= k * step < length
  {
    FloorAtLeast(k + 1, length + step - 1, step);
    assert (k + 1) * step == k * step + step;
    assert k * step >= 0;
  }
}
