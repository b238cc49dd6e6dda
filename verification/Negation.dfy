/**
 NOT: the false intervals between the true ones, over the span the input covers.
 On input whose true intervals are sorted and disjoint they tile that span together with the
 true intervals.  The result holds no true interval, so AND reads it as never true.
 */
module Negation {
  import opened Timeline
  import opened Merge
  import opened BooleanAlgebra
  import opened Measure

  // ----- What the loops compute -----

  function EarliestStart(tl: BoolTimeline): int
    requires tl != []
  {
    if |tl| == 1 then tl[0].start else Min(EarliestStart(tl[..|tl| - 1]), tl[|tl| - 1].start)
  }

  function LatestEnd(tl: BoolTimeline): int
    requires tl != []
  {
    if |tl| == 1 then tl[0].end else Max(LatestEnd(tl[..|tl| - 1]), tl[|tl| - 1].end)
  }

  function FalseBetween(lo: int, hi: int): BoolTimeline {
    if lo < hi then [BoolInterval(false, lo, hi)] else []
  }

  /** Where the scan stands after `tl`: the end of the last true interval, or `minTime` if there is none. */
  function Reached(minTime: int, tl: BoolTimeline): int {
    if tl == [] then minTime
    else if tl[|tl| - 1].value then tl[|tl| - 1].end
    else Reached(minTime, tl[..|tl| - 1])
  }

  /** The false intervals emitted in front of the true intervals of `tl`. */
  function Gaps(minTime: int, tl: BoolTimeline): BoolTimeline {
    if tl == [] then []
    else
      var init, last := tl[..|tl| - 1], tl[|tl| - 1];
      Gaps(minTime, init) + if last.value then FalseBetween(Reached(minTime, init), last.start) else []
  }

  function Negated(tl: BoolTimeline): BoolTimeline {
    if tl == [] then []
    else
      var minTime, maxTime := EarliestStart(tl), LatestEnd(tl);
      Gaps(minTime, tl) + FalseBetween(Reached(minTime, tl), maxTime)
  }

  // ----- Tiling -----

  /** The true intervals are in time order, do not overlap, and none ends before it starts. */
  ghost predicate TrueOrdered(tl: BoolTimeline) {
    && (forall i :: 0 <= i < |tl| && tl[i].value ==> tl[i].start <= tl[i].end)
    && forall i, j :: 0 <= i < j < |tl| && tl[i].value && tl[j].value ==> tl[i].end <= tl[j].start
  }

  function TotalLength(tl: BoolTimeline): int {
    if tl == [] then 0 else TotalLength(tl[..|tl| - 1]) + (tl[|tl| - 1].end - tl[|tl| - 1].start)
  }

  lemma {:induction false} LengthConcat(a: BoolTimeline, b: BoolTimeline)
    ensures TotalLength(a + b) == TotalLength(a) + TotalLength(b)
    decreases |b|
  {
    if b == [] {
      assert a + b == a;
    } else {
      LengthConcat(a, b[..|b| - 1]);
      assert (a + b)[..|a + b| - 1] == a + b[..|b| - 1];
    }
  }

  lemma {:induction false} EarliestBounds(tl: BoolTimeline)
    requires tl != []
    ensures forall i :: 0 <= i < |tl| ==> EarliestStart(tl) <= tl[i].start && tl[i].end <= LatestEnd(tl)
    ensures exists i :: 0 <= i < |tl| && tl[i].start == EarliestStart(tl)
    ensures exists i :: 0 <= i < |tl| && tl[i].end == LatestEnd(tl)
    decreases |tl|
  {
    var init, last := tl[..|tl| - 1], tl[|tl| - 1];
    if |tl| > 1 {
      EarliestBounds(init);
      assert forall i :: 0 <= i < |init| ==> init[i] == tl[i];
      var i :| 0 <= i < |init| && init[i].start == EarliestStart(init);
      var j :| 0 <= j < |init| && init[j].end == LatestEnd(init);
      assert tl[i].start == EarliestStart(init) && tl[j].end == LatestEnd(init);
    }
    assert tl[|tl| - 1] == last;
  }

  lemma {:induction false} ReachedBounds(minTime: int, tl: BoolTimeline, hi: int)
    requires TrueOrdered(tl) && forall i :: 0 <= i < |tl| ==> minTime <= tl[i].start
    requires minTime <= hi && forall i :: 0 <= i < |tl| && tl[i].value ==> tl[i].end <= hi
    ensures minTime <= Reached(minTime, tl) <= hi
    decreases |tl|
  {
    if tl != [] && !tl[|tl| - 1].value {
      assert forall i :: 0 <= i < |tl| - 1 ==> tl[..|tl| - 1][i] == tl[i];
      ReachedBounds(minTime, tl[..|tl| - 1], hi);
    }
  }

  /** The scan has passed nothing that the next true interval still covers. */
  lemma ReachedBeforeLast(minTime: int, tl: BoolTimeline)
    requires TrueOrdered(tl) && (forall i :: 0 <= i < |tl| ==> minTime <= tl[i].start)
    requires tl != [] && tl[|tl| - 1].value
    ensures minTime <= Reached(minTime, tl[..|tl| - 1]) <= tl[|tl| - 1].start
  {
    var init := tl[..|tl| - 1];
    assert forall i :: 0 <= i < |init| ==> init[i] == tl[i];
    ReachedBounds(minTime, init, tl[|tl| - 1].start);
  }

  /** Up to the point reached, an instant is either true or in a gap, and never both. */
  lemma {:induction false} GapsTile(minTime: int, tl: BoolTimeline, t: int)
    requires TrueOrdered(tl) && forall i :: 0 <= i < |tl| ==> minTime <= tl[i].start
    ensures t in Instants(tl) || t in InstantsOf(Gaps(minTime, tl), false) <==> minTime <= t < Reached(minTime, tl)
    ensures !(t in Instants(tl) && t in InstantsOf(Gaps(minTime, tl), false))
    decreases |tl|
  {
    if tl != [] {
      var init, last := tl[..|tl| - 1], tl[|tl| - 1];
      assert forall i :: 0 <= i < |init| ==> init[i] == tl[i];
      GapsTile(minTime, init, t);
      SplitLast(tl);
      OneInterval(last);
      if last.value {
        var from := Reached(minTime, init);
        ReachedBeforeLast(minTime, tl);
        InstantsConcat(Gaps(minTime, init), FalseBetween(from, last.start));
        GapInstants(from, last.start);
      } else {
        assert Gaps(minTime, tl) == Gaps(minTime, init);
      }
    }
  }

  lemma {:induction false} GapsLength(minTime: int, tl: BoolTimeline)
    requires TrueOrdered(tl) && forall i :: 0 <= i < |tl| ==> minTime <= tl[i].start
    ensures TotalTrue(tl) + TotalLength(Gaps(minTime, tl)) == Reached(minTime, tl) - minTime
    decreases |tl|
  {
    if tl != [] {
      var init, last := tl[..|tl| - 1], tl[|tl| - 1];
      assert forall i :: 0 <= i < |init| ==> init[i] == tl[i];
      GapsLength(minTime, init);
      if last.value {
        ReachedBeforeLast(minTime, tl);
        LengthConcat(Gaps(minTime, init), FalseBetween(Reached(minTime, init), last.start));
        GapLength(Reached(minTime, init), last.start);
      } else {
        assert Gaps(minTime, tl) == Gaps(minTime, init);
      }
    }
  }

  lemma GapLength(lo: int, hi: int)
    ensures TotalLength(FalseBetween(lo, hi)) == if lo < hi then hi - lo else 0
  {
    if lo < hi {
      var gap := BoolInterval(false, lo, hi);
      assert FalseBetween(lo, hi) == [gap] && [gap][..0] == [];
    }
  }

  lemma GapInstants(lo: int, hi: int)
    ensures InstantsOf(FalseBetween(lo, hi), false) == Range(lo, hi)
  {
    if lo < hi {
      var gap := BoolInterval(false, lo, hi);
      assert FalseBetween(lo, hi) == [gap];
      forall t
        ensures t in InstantsOf([gap], false) <==> t in Range(lo, hi)
      {
        assert gap in [gap];
      }
    }
  }

  /** Where the scan of the whole input stops. */
  lemma ScanEnd(tl: BoolTimeline)
    requires tl != [] && TrueOrdered(tl)
    ensures var lo, hi := EarliestStart(tl), LatestEnd(tl);
            var from := Reached(lo, tl);
            && (forall i :: 0 <= i < |tl| ==> lo <= tl[i].start)
            && if lo <= hi then lo <= from <= hi else from == lo
  {
    var lo, hi := EarliestStart(tl), LatestEnd(tl);
    EarliestBounds(tl);
    if lo <= hi {
      ReachedBounds(lo, tl, hi);
    } else {
      NothingTrue(tl, lo);
    }
  }

  /** A last false interval adds its instants. */
  lemma GapAppend(gaps: BoolTimeline, lo: int, hi: int, t: int)
    ensures t in InstantsOf(gaps + FalseBetween(lo, hi), false) <==> t in InstantsOf(gaps, false) || lo <= t < hi
  {
    InstantsConcat(gaps, FalseBetween(lo, hi));
    GapInstants(lo, hi);
  }

  lemma NotTilesAt(tl: BoolTimeline, t: int)
    requires tl != [] && TrueOrdered(tl)
    ensures t in Instants(tl) || t in InstantsOf(Negated(tl), false) <==> EarliestStart(tl) <= t < LatestEnd(tl)
    ensures !(t in Instants(tl) && t in InstantsOf(Negated(tl), false))
  {
    var lo, hi := EarliestStart(tl), LatestEnd(tl);
    ScanEnd(tl);
    GapsTile(lo, tl, t);
    GapAppend(Gaps(lo, tl), Reached(lo, tl), hi, t);
  }

  lemma NotTilesLength(tl: BoolTimeline)
    requires tl != [] && TrueOrdered(tl)
    ensures TotalTrue(tl) + TotalLength(Negated(tl)) == Max(LatestEnd(tl) - EarliestStart(tl), 0)
  {
    var lo, hi := EarliestStart(tl), LatestEnd(tl);
    ScanEnd(tl);
    GapsLength(lo, tl);
    LengthConcat(Gaps(lo, tl), FalseBetween(Reached(lo, tl), hi));
    GapLength(Reached(lo, tl), hi);
  }

  /** NOT tiles: the emitted false intervals and the true intervals of the input cover the span of
      the input, no instant is in both, and their lengths add up to it, so nothing is covered
      twice.  The span is empty when the earliest start is not before the latest end, which takes
      an input of reversed false intervals only. */
  lemma NotTiles(tl: BoolTimeline)
    requires tl != [] && TrueOrdered(tl)
    ensures forall t :: t in Instants(tl) || t in InstantsOf(Negated(tl), false)
                        <==> EarliestStart(tl) <= t < LatestEnd(tl)
    ensures Instants(tl) !! InstantsOf(Negated(tl), false)
    ensures TotalTrue(tl) + TotalLength(Negated(tl)) == Max(LatestEnd(tl) - EarliestStart(tl), 0)
  {
    NotTilesLength(tl);
    forall t
      ensures t in Instants(tl) || t in InstantsOf(Negated(tl), false) <==> EarliestStart(tl) <= t < LatestEnd(tl)
      ensures !(t in Instants(tl) && t in InstantsOf(Negated(tl), false))
    {
      NotTilesAt(tl, t);
    }
  }

  /** Nothing true of `tl` starts strictly inside, and the interval is false and holds an instant. */
  ghost predicate GapIn(tl: BoolTimeline, gap: BoolInterval) {
    && !gap.value && gap.start < gap.end
    && forall i :: 0 <= i < |tl| && tl[i].value ==> !(gap.start < tl[i].start < gap.end)
  }

  ghost predicate GapsIn(tl: BoolTimeline, gaps: BoolTimeline, limit: int) {
    && (forall j :: 0 <= j < |gaps| ==> GapIn(tl, gaps[j]) && gaps[j].end <= limit)
    && forall j, k :: 0 <= j < k < |gaps| ==> gaps[j].end <= gaps[k].start
  }

  lemma {:induction false} ReachedPasses(minTime: int, tl: BoolTimeline)
    requires TrueOrdered(tl)
    ensures forall i :: 0 <= i < |tl| && tl[i].value ==> tl[i].end <= Reached(minTime, tl)
    decreases |tl|
  {
    if tl != [] {
      var init := tl[..|tl| - 1];
      assert forall i :: 0 <= i < |init| ==> init[i] == tl[i];
      ReachedPasses(minTime, init);
    }
  }

  lemma GapsInMore(init: BoolTimeline, last: BoolInterval, gaps: BoolTimeline, limit: int)
    requires GapsIn(init, gaps, limit) && (last.value ==> limit <= last.start)
    ensures GapsIn(init + [last], gaps, limit)
  {
    forall j | 0 <= j < |gaps|
      ensures GapIn(init + [last], gaps[j])
    {
    }
  }

  lemma GapsInAppend(tl: BoolTimeline, gaps: BoolTimeline, lo: int, hi: int)
    requires GapsIn(tl, gaps, lo) && lo < hi
    requires forall i :: 0 <= i < |tl| && tl[i].value ==> !(lo < tl[i].start < hi)
    ensures GapsIn(tl, gaps + [BoolInterval(false, lo, hi)], hi)
  {
  }

  /** The gap in front of a true interval, if there is one, joins those before it. */
  lemma GapBefore(init: BoolTimeline, last: BoolInterval, gaps: BoolTimeline, lo: int)
    requires GapsIn(init, gaps, lo) && last.value && lo <= last.start <= last.end
    requires forall i :: 0 <= i < |init| && init[i].value ==> init[i].start <= lo
    ensures GapsIn(init + [last], gaps + FalseBetween(lo, last.start), last.end)
  {
    var tl := init + [last];
    GapsInMore(init, last, gaps, lo);
    if lo < last.start {
      GapsInAppend(tl, gaps, lo, last.start);
    } else {
      assert gaps + [] == gaps;
    }
  }

  lemma PassedStarts(minTime: int, tl: BoolTimeline)
    requires TrueOrdered(tl)
    ensures forall i :: 0 <= i < |tl| && tl[i].value ==> tl[i].start <= Reached(minTime, tl)
  {
    ReachedPasses(minTime, tl);
  }

  lemma {:induction false} GapsShape(minTime: int, tl: BoolTimeline)
    requires TrueOrdered(tl) && forall i :: 0 <= i < |tl| ==> minTime <= tl[i].start
    ensures GapsIn(tl, Gaps(minTime, tl), Reached(minTime, tl))
    decreases |tl|
  {
    if tl != [] {
      var init, last := tl[..|tl| - 1], tl[|tl| - 1];
      assert tl == init + [last] && last == tl[|tl| - 1];
      GapsShape(minTime, init);
      if last.value {
        ReachedBeforeLast(minTime, tl);
        PassedStarts(minTime, init);
        GapBefore(init, last, Gaps(minTime, init), Reached(minTime, init));
      } else {
        GapsInMore(init, last, Gaps(minTime, init), Reached(minTime, init));
        assert Gaps(minTime, tl) == Gaps(minTime, init);
      }
    }
  }

  /** The emitted intervals are false, hold instants, come in time order without overlap, and are parted by
      every true interval, even an empty one. */
  lemma NotShape(tl: BoolTimeline)
    requires tl != [] && TrueOrdered(tl)
    ensures GapsIn(tl, Negated(tl), Max(Reached(EarliestStart(tl), tl), LatestEnd(tl)))
  {
    var lo, hi := EarliestStart(tl), LatestEnd(tl);
    EarliestBounds(tl);
    GapsShape(lo, tl);
    ReachedPasses(lo, tl);
    if Reached(lo, tl) < hi {
      GapsInAppend(tl, Gaps(lo, tl), Reached(lo, tl), hi);
    }
  }

  /** Of the true intervals, `j` is the one after `i`; -1 stands for the start of the span and `|tl|` for its end. */
  ghost predicate Follows(tl: BoolTimeline, i: int, j: int) {
    && -1 <= i < j <= |tl| && (i >= 0 ==> tl[i].value) && (j < |tl| ==> tl[j].value)
    && forall m :: i < m < j ==> !tl[m].value
  }

  /** From the end of true interval `i` to the start of the next one, `j`, if that is later. */
  ghost predicate GapAt(tl: BoolTimeline, lo: int, hi: int, gap: BoolInterval, i: int, j: int) {
    && Follows(tl, i, j) && !gap.value && gap.start < gap.end
    && gap.start == (if i < 0 then lo else tl[i].end) && gap.end == if j == |tl| then hi else tl[j].start
  }

  lemma {:induction false} ReachedFollows(lo: int, tl: BoolTimeline) returns (i: int)
    ensures Follows(tl, i, |tl|) && Reached(lo, tl) == if i < 0 then lo else tl[i].end
    decreases |tl|
  {
    i := |tl| - 1;
    if tl != [] && !tl[i].value {
      i := ReachedFollows(lo, tl[..|tl| - 1]);
    }
  }

  /** The gap that the scan finds when it meets `tl[n]`, or the end. */
  lemma NewGap(tl: BoolTimeline, n: nat, lo: int, hi: int, gap: BoolInterval)
    requires n <= |tl| && (n < |tl| ==> tl[n].value)
    ensures gap in FalseBetween(Reached(lo, tl[..n]), if n == |tl| then hi else tl[n].start)
            <==> exists i :: GapAt(tl, lo, hi, gap, i, n)
  {
    var last := ReachedFollows(lo, tl[..n]);
    assert forall m :: 0 <= m < n ==> tl[..n][m] == tl[m];
    assert Follows(tl, last, n);
    forall i | GapAt(tl, lo, hi, gap, i, n)
      ensures i == last
    {
    }
    if gap in FalseBetween(Reached(lo, tl[..n]), if n == |tl| then hi else tl[n].start) {
      assert GapAt(tl, lo, hi, gap, last, n);
    }
  }

  lemma {:induction false} GapsFollow(tl: BoolTimeline, n: nat, lo: int, hi: int, gap: BoolInterval)
    requires n <= |tl|
    ensures gap in Gaps(lo, tl[..n]) <==> exists i, j :: j < n && GapAt(tl, lo, hi, gap, i, j)
    decreases n
  {
    if n > 0 {
      GapsFollow(tl, n - 1, lo, hi, gap);
      assert tl[..n][..n - 1] == tl[..n - 1];
      if tl[n - 1].value {
        NewGap(tl, n - 1, lo, hi, gap);
      }
    }
  }

  lemma NegatedParts(tl: BoolTimeline, gap: BoolInterval)
    requires tl != []
    ensures gap in Negated(tl)
            <==> gap in Gaps(EarliestStart(tl), tl)
                 || gap in FalseBetween(Reached(EarliestStart(tl), tl), LatestEnd(tl))
  {
  }

  lemma GapIsEmitted(tl: BoolTimeline, gap: BoolInterval, i: int, j: int)
    requires tl != [] && GapAt(tl, EarliestStart(tl), LatestEnd(tl), gap, i, j)
    ensures gap in Negated(tl)
  {
    NegatedParts(tl, gap);
    assert tl[..|tl|] == tl;
    if j == |tl| {
      NewGap(tl, |tl|, EarliestStart(tl), LatestEnd(tl), gap);
    } else {
      GapsFollow(tl, |tl|, EarliestStart(tl), LatestEnd(tl), gap);
    }
  }

  lemma EmittedIsGap(tl: BoolTimeline, gap: BoolInterval) returns (i: int, j: int)
    requires tl != [] && gap in Negated(tl)
    ensures GapAt(tl, EarliestStart(tl), LatestEnd(tl), gap, i, j)
  {
    var lo, hi := EarliestStart(tl), LatestEnd(tl);
    NegatedParts(tl, gap);
    assert tl[..|tl|] == tl;
    if gap in Gaps(lo, tl) {
      GapsFollow(tl, |tl|, lo, hi, gap);
      i, j :| GapAt(tl, lo, hi, gap, i, j);
    } else {
      NewGap(tl, |tl|, lo, hi, gap);
      i :| GapAt(tl, lo, hi, gap, i, |tl|);
      j := |tl|;
    }
  }

  /** A gap from some true interval to the next one, or to an end of the span. */
  ghost predicate IsGap(tl: BoolTimeline, lo: int, hi: int, gap: BoolInterval) {
    exists i, j :: GapAt(tl, lo, hi, gap, i, j)
  }

  /** Of any timeline NOT emits exactly the gaps from each true interval to the next one that starts after its
      end, whether or not the timeline is in order or overlaps itself. */
  lemma NotEmits(tl: BoolTimeline, gap: BoolInterval)
    requires tl != []
    ensures gap in Negated(tl) <==> IsGap(tl, EarliestStart(tl), LatestEnd(tl), gap)
  {
    if gap in Negated(tl) {
      var i, j := EmittedIsGap(tl, gap);
    }
    if IsGap(tl, EarliestStart(tl), LatestEnd(tl), gap) {
      var i, j :| GapAt(tl, EarliestStart(tl), LatestEnd(tl), gap, i, j);
      GapIsEmitted(tl, gap, i, j);
    }
  }

  /** Without a true interval the scan does not move. */
  lemma {:induction false} NothingTrue(tl: BoolTimeline, lo: int)
    requires forall i :: 0 <= i < |tl| ==> !tl[i].value
    ensures Reached(lo, tl) == lo
    decreases |tl|
  {
    if tl != [] {
      NothingTrue(tl[..|tl| - 1], lo);
    }
  }

  lemma {:induction false} GapsFalse(minTime: int, tl: BoolTimeline)
    ensures forall i :: 0 <= i < |Gaps(minTime, tl)| ==> !Gaps(minTime, tl)[i].value
    decreases |tl|
  {
    if tl != [] {
      GapsFalse(minTime, tl[..|tl| - 1]);
    }
  }

  /** NOT never emits a true interval: read as a timeline its result is true at no instant. */
  lemma NotNeverTrue(tl: BoolTimeline)
    ensures Instants(Negated(tl)) == {}
  {
    if tl != [] {
      GapsFalse(EarliestStart(tl), tl);
    }
    forall t | t in Instants(Negated(tl))
      ensures false
    {
      var i := OpenAt(Negated(tl), t);
    }
  }

  /** So AND with a negated operand, and at least one more, is the empty timeline. */
  lemma AndWithNotIsEmpty(sort: IntervalSort, tls: seq<BoolTimeline>, i: nat, tl: BoolTimeline)
    requires i < |tls| && |tls| >= 2 && tls[i] == Negated(tl)
    ensures AndAll(sort, tls) == []
  {
    NotNeverTrue(tl);
    AndMeaning(sort, tls);
    var r := AndAll(sort, tls);
    if r != [] {
      OpenIn(r, 0, r[0].start);
    }
  }

  // ----- The code -----

  method Not(timeline: BoolTimeline) returns (result: BoolTimeline)
    ensures result == Negated(timeline)
  {
    if |timeline| == 0 {
      return [];
    }
    result := [];
    var minTime, maxTime := timeline[0].start, timeline[0].end;
    for i := 0 to |timeline|
      invariant if i == 0 then minTime == timeline[0].start && maxTime == timeline[0].end
                else minTime == EarliestStart(timeline[..i]) && maxTime == LatestEnd(timeline[..i])
    {
      assert timeline[..i + 1][..i] == timeline[..i];
      var interval := timeline[i];
      if interval.start < minTime {
        minTime := interval.start;
      }
      if interval.end > maxTime {
        maxTime := interval.end;
      }
    }
    assert timeline[..|timeline|] == timeline;

    var currentTime := minTime;
    for i := 0 to |timeline|
      invariant currentTime == Reached(minTime, timeline[..i])
      invariant result == Gaps(minTime, timeline[..i])
    {
      assert timeline[..i + 1][..i] == timeline[..i];
      var interval := timeline[i];
      if interval.value {
        if currentTime < interval.start {
          result := result + [BoolInterval(false, currentTime, interval.start)];
        }
        currentTime := interval.end;
      }
    }
    if currentTime < maxTime {
      result := result + [BoolInterval(false, currentTime, maxTime)];
    }
  }
}
