/**
 Windowed aggregation of price values.  Summing over tumbling windows conserves the total of
 the values in range, and counting conserves their number.
 */
module Aggregation {
  import opened Sorting
  import opened Merge
  import opened Windows

  datatype NumericValue = NumericValue(timestamp: int, value: real, symbol: string)

  type PriceTimeline = seq<NumericValue>

  function PriceTime(v: NumericValue): int { v.timestamp }

  /** Any routine that orders values by timestamp. */
  type PriceSort = f: PriceTimeline -> PriceTimeline | Sorts(PriceTime, f)
    ghost witness (SortExists(PriceTime); s => InsertionSort(PriceTime, s))

  datatype AggregationType = Sum | Count

  datatype AggregationResult = AggregationResult(kind: AggregationType, value: real, count: int,
                                                 start: int, end: int, timestamp: int)

  // ----- What the loops compute -----

  function InRange(tl: PriceTimeline, start: int, end: int): PriceTimeline {
    Collect((v: NumericValue) => if start <= v.timestamp < end then [v] else [], tl)
  }

  function ValuesOf(tl: PriceTimeline): seq<real> {
    seq(|tl|, i requires 0 <= i < |tl| => tl[i].value)
  }

  function SumValuesOf(values: seq<real>): real {
    if values == [] then 0.0 else SumValuesOf(values[..|values| - 1]) + values[|values| - 1]
  }

  function Aggregated(ps: PriceSort, tl: PriceTimeline, kind: AggregationType): AggregationResult {
    var sorted := ps(tl);
    if tl == [] || sorted == [] then AggregationResult(kind, 0.0, 0, 0, 0, 0)
    else
      var value := match kind case Sum => SumValuesOf(ValuesOf(sorted)) case Count => |tl| as real;
      AggregationResult(kind, value, |tl|, 0, 0, sorted[|sorted| - 1].timestamp)
  }

  function WindowResult(ps: PriceSort, tl: PriceTimeline, kind: AggregationType, w: Window): seq<AggregationResult> {
    var data := InRange(tl, w.start, w.end);
    if data == [] then [] else [Aggregated(ps, data, kind).(start := w.start, end := w.end, timestamp := w.end)]
  }

  function Windowed(ps: PriceSort, tl: PriceTimeline, kind: AggregationType,
                    windows: seq<Window>): seq<AggregationResult> {
    Collect((w: Window) => WindowResult(ps, tl, kind, w), windows)
  }

  function TotalValue(results: seq<AggregationResult>): real {
    if results == [] then 0.0 else TotalValue(results[..|results| - 1]) + results[|results| - 1].value
  }

  // ----- Conservation -----

  lemma {:induction false} SumConcat(a: seq<real>, b: seq<real>)
    ensures SumValuesOf(a + b) == SumValuesOf(a) + SumValuesOf(b)
    decreases |b|
  {
    if b == [] {
      assert a + b == a;
    } else {
      SumConcat(a, b[..|b| - 1]);
      assert (a + b)[..|a + b| - 1] == a + b[..|b| - 1];
    }
  }

  lemma ValuesConcat(a: PriceTimeline, b: PriceTimeline)
    ensures ValuesOf(a + b) == ValuesOf(a) + ValuesOf(b)
    ensures SumValuesOf(ValuesOf(a + b)) == SumValuesOf(ValuesOf(a)) + SumValuesOf(ValuesOf(b))
  {
    assert ValuesOf(a + b) == ValuesOf(a) + ValuesOf(b);
    SumConcat(ValuesOf(a), ValuesOf(b));
  }

  /** Over exact reals the order of summation does not matter. */
  lemma {:induction false} SumPermutation(a: PriceTimeline, b: PriceTimeline)
    requires multiset(a) == multiset(b)
    ensures SumValuesOf(ValuesOf(a)) == SumValuesOf(ValuesOf(b))
    decreases |a|
  {
    PermutationFacts(a, b);
    if a != [] {
      var init, x := a[..|a| - 1], a[|a| - 1];
      assert a == init + [x] && x in b;
      var before, after := SplitAt(b, x);
      Extract(init, x, before, after, a, b);
      SumPermutation(init, before + after);
      SumMiddle(init, x, []);
      SumMiddle(before, x, after);
      assert init + [x] + [] == a && init + [] == init;
    }
  }

  lemma SumMiddle(before: PriceTimeline, x: NumericValue, after: PriceTimeline)
    ensures SumValuesOf(ValuesOf(before + [x] + after)) == SumValuesOf(ValuesOf(before + after)) + x.value
  {
    ValuesConcat(before + [x], after);
    ValuesConcat(before, [x]);
    ValuesConcat(before, after);
    assert ValuesOf([x]) == [x.value] && [x.value][..0] == [];
  }

  /** What one window contributes to the total: nothing is lost by skipping empty windows. */
  function Share(tl: PriceTimeline, kind: AggregationType): real {
    match kind
    case Sum => SumValuesOf(ValuesOf(tl))
    case Count => |tl| as real
  }

  lemma WindowShare(ps: PriceSort, tl: PriceTimeline, kind: AggregationType, w: Window)
    ensures TotalValue(WindowResult(ps, tl, kind, w)) == Share(InRange(tl, w.start, w.end), kind)
  {
    var data := InRange(tl, w.start, w.end);
    assert IsSortOf(PriceTime, data, ps(data));
    PermutationFacts(data, ps(data));
    SumPermutation(ps(data), data);
    if data != [] {
      var r := WindowResult(ps, tl, kind, w);
      assert r[..0] == [];
    }
  }

  /** Cutting a range in two cuts its share in two. */
  lemma {:induction false} ShareSplit(tl: PriceTimeline, kind: AggregationType, lo: int, mid: int, hi: int)
    requires lo <= mid <= hi
    ensures Share(InRange(tl, lo, hi), kind) == Share(InRange(tl, lo, mid), kind) + Share(InRange(tl, mid, hi), kind)
    decreases |tl|
  {
    if tl != [] {
      var init, last := tl[..|tl| - 1], tl[|tl| - 1];
      ShareSplit(init, kind, lo, mid, hi);
      ShareStep(tl, kind, lo, hi);
      ShareStep(tl, kind, lo, mid);
      ShareStep(tl, kind, mid, hi);
    }
  }

  lemma ShareStep(tl: PriceTimeline, kind: AggregationType, lo: int, hi: int)
    requires tl != []
    ensures var last := tl[|tl| - 1];
            Share(InRange(tl, lo, hi), kind)
            == Share(InRange(tl[..|tl| - 1], lo, hi), kind)
               + if lo <= last.timestamp < hi then (if kind.Sum? then last.value else 1.0) else 0.0
  {
    var init, last := InRange(tl[..|tl| - 1], lo, hi), tl[|tl| - 1];
    if lo <= last.timestamp < hi {
      ValuesConcat(init, [last]);
      assert ValuesOf([last]) == [last.value] && [last.value][..0] == [];
    } else {
      assert init + [] == init;
    }
  }

  lemma {:induction false} EmptyRange(tl: PriceTimeline, kind: AggregationType, lo: int, hi: int)
    requires hi <= lo
    ensures Share(InRange(tl, lo, hi), kind) == 0.0
    decreases |tl|
  {
    if tl != [] {
      EmptyRange(tl[..|tl| - 1], kind, lo, hi);
      ShareStep(tl, kind, lo, hi);
    }
  }

  lemma {:induction false} TotalConcat(a: seq<AggregationResult>, b: seq<AggregationResult>)
    ensures TotalValue(a + b) == TotalValue(a) + TotalValue(b)
    decreases |b|
  {
    if b == [] {
      assert a + b == a;
    } else {
      TotalConcat(a, b[..|b| - 1]);
      assert (a + b)[..|a + b| - 1] == a + b[..|b| - 1];
    }
  }

  /** Conservation: the window results of a tumbling aggregation add up to the sum, or the number, of
      the values in `[start, end)`. */
  lemma {:induction false} TumblingConserves(ps: PriceSort, tl: PriceTimeline, kind: AggregationType, start: int,
                                             end: int, size: int)
    requires size > 0
    ensures TotalValue(Windowed(ps, tl, kind, Tumbling(start, end, size))) == Share(InRange(tl, start, end), kind)
    decreases end - start
  {
    var windows := Tumbling(start, end, size);
    if start < end {
      var next := Min(start + size, end);
      var rest := Tumbling(next, end, size);
      TumblingConserves(ps, tl, kind, next, end, size);
      var f := (w: Window) => WindowResult(ps, tl, kind, w);
      CollectConcat(f, [windows[0]], rest);
      assert [windows[0]][..0] == [];
      assert Collect(f, [windows[0]]) == WindowResult(ps, tl, kind, windows[0]);
      TotalConcat(WindowResult(ps, tl, kind, windows[0]), Windowed(ps, tl, kind, rest));
      WindowShare(ps, tl, kind, windows[0]);
      ShareSplit(tl, kind, start, next, end);
    } else {
      EmptyRange(tl, kind, start, end);
    }
  }

  // ----- What the results mean -----

  /** The values of the list add up to the sum, by running totals. */
  ghost predicate AddsUp(tl: PriceTimeline, sum: real) {
    exists totals: seq<real> :: RunningTotals(tl, totals) && totals[|tl|] == sum
  }

  ghost predicate RunningTotals(tl: PriceTimeline, totals: seq<real>) {
    && |totals| == |tl| + 1 && totals[0] == 0.0
    && forall i :: 0 <= i < |tl| ==> totals[i + 1] == totals[i] + tl[i].value
  }

  lemma {:induction false} TotalsExist(tl: PriceTimeline) returns (totals: seq<real>)
    ensures RunningTotals(tl, totals) && totals[|tl|] == SumValuesOf(ValuesOf(tl))
    decreases |tl|
  {
    if tl == [] {
      totals := [0.0];
    } else {
      var init, last := tl[..|tl| - 1], tl[|tl| - 1];
      var before := TotalsExist(init);
      ValuesConcat(init, [last]);
      assert ValuesOf([last]) == [last.value] && [last.value][..0] == [];
      assert tl == init + [last];
      totals := before + [before[|init|] + last.value];
      assert forall i :: 0 <= i < |init| ==> tl[i] == init[i];
    }
  }

  ghost predicate IsTotal(tl: PriceTimeline, kind: AggregationType, value: real) {
    match kind
    case Sum => AddsUp(tl, value)
    case Count => value == |tl| as real
  }

  lemma ShareIsTotal(tl: PriceTimeline, kind: AggregationType)
    ensures IsTotal(tl, kind, Share(tl, kind))
  {
    var totals := TotalsExist(tl);
  }

  ghost predicate IsLatest(tl: PriceTimeline, t: int) {
    && (exists v :: v in tl && v.timestamp == t)
    && forall v :: v in tl ==> v.timestamp <= t
  }

  lemma LastIsLatest(ps: PriceSort, tl: PriceTimeline)
    requires tl != []
    ensures |ps(tl)| == |tl| && IsLatest(tl, ps(tl)[|tl| - 1].timestamp)
  {
    var sorted := ps(tl);
    assert IsSortOf(PriceTime, tl, sorted);
    PermutationFacts(tl, sorted);
    assert sorted[|sorted| - 1] in tl;
    forall v | v in tl
      ensures v.timestamp <= sorted[|sorted| - 1].timestamp
    {
      var i :| 0 <= i < |sorted| && sorted[i] == v;
      assert i < |sorted| - 1 ==> PriceTime(sorted[i]) <= PriceTime(sorted[|sorted| - 1]);
    }
  }

  /** The aggregate of a whole list: its total, its size and its latest time, or a zero result if it is empty. */
  ghost predicate Aggregates(r: AggregationResult, tl: PriceTimeline, kind: AggregationType) {
    && r.kind == kind && r.count == |tl| && r.start == 0 && r.end == 0
    && if tl == [] then r.value == 0.0 && r.timestamp == 0 else IsTotal(tl, kind, r.value) && IsLatest(tl, r.timestamp)
  }

  lemma AggregatedMeaning(ps: PriceSort, tl: PriceTimeline, kind: AggregationType)
    ensures Aggregates(Aggregated(ps, tl, kind), tl, kind)
  {
    if tl != [] {
      LastIsLatest(ps, tl);
      assert IsSortOf(PriceTime, tl, ps(tl));
      SumPermutation(ps(tl), tl);
      ShareIsTotal(tl, kind);
      assert Aggregated(ps, tl, kind).value == Share(tl, kind);
    }
  }

  predicate InBounds(v: NumericValue, start: int, end: int) { start <= v.timestamp < end }

  /** All values with a time in `[start, end)`, and no others, in their order. */
  ghost predicate ValuesIn(tl: PriceTimeline, data: PriceTimeline, start: int, end: int) {
    Keeps(tl, data, (v: NumericValue) => InBounds(v, start, end))
  }

  lemma {:induction false} InRangeKeeps(tl: PriceTimeline, start: int, end: int)
    ensures ValuesIn(tl, InRange(tl, start, end), start, end)
    decreases |tl|
  {
    var keep := (v: NumericValue) => InBounds(v, start, end);
    if tl == [] {
      KeepsNone(keep);
    } else {
      var init, last := tl[..|tl| - 1], tl[|tl| - 1];
      InRangeKeeps(init, start, end);
      KeepsNext(init, InRange(init, start, end), keep, last);
      assert tl == init + [last];
    }
  }

  lemma {:induction false} InRangeHolds(tl: PriceTimeline, start: int, end: int)
    ensures InRange(tl, start, end) != [] <==> exists v :: v in tl && InBounds(v, start, end)
    decreases |tl|
  {
    if tl != [] {
      var init, last := tl[..|tl| - 1], tl[|tl| - 1];
      InRangeHolds(init, start, end);
      assert forall v :: v in tl <==> v in init || v == last;
      assert InRange(tl, start, end) == InRange(init, start, end) + if InBounds(last, start, end) then [last] else [];
    }
  }

  predicate HoldsValue(tl: PriceTimeline, w: Window) {
    exists v :: v in tl && InBounds(v, w.start, w.end)
  }

  /** The result for one window: the total and the number of its values, stamped with its bounds and its end. */
  ghost predicate IsResultOf(r: AggregationResult, tl: PriceTimeline, kind: AggregationType, w: Window) {
    && r.kind == kind && r.start == w.start && r.end == w.end && r.timestamp == w.end
    && exists data :: ValuesIn(tl, data, w.start, w.end) && IsTotal(data, kind, r.value) && r.count == |data|
  }

  lemma WindowResultIs(ps: PriceSort, tl: PriceTimeline, kind: AggregationType, w: Window)
    ensures var results := WindowResult(ps, tl, kind, w);
            if HoldsValue(tl, w) then |results| == 1 && IsResultOf(results[0], tl, kind, w) else results == []
  {
    InRangeHolds(tl, w.start, w.end);
    var data := InRange(tl, w.start, w.end);
    InRangeKeeps(tl, w.start, w.end);
    AggregatedMeaning(ps, data, kind);
  }

  /** One result for each window that holds a value, in their order. */
  ghost predicate AreResultsOf(results: seq<AggregationResult>, tl: PriceTimeline, kind: AggregationType,
                               windows: seq<Window>) {
    exists held: seq<Window> ::
      Keeps(windows, held, (w: Window) => HoldsValue(tl, w)) && Matches(results, tl, kind, held)
  }

  ghost predicate Matches(results: seq<AggregationResult>, tl: PriceTimeline, kind: AggregationType,
                          held: seq<Window>) {
    |results| == |held| && forall k :: 0 <= k < |held| ==> IsResultOf(results[k], tl, kind, held[k])
  }

  lemma MatchesNext(results: seq<AggregationResult>, tl: PriceTimeline, kind: AggregationType, held: seq<Window>,
                    r: AggregationResult, w: Window)
    requires Matches(results, tl, kind, held) && IsResultOf(r, tl, kind, w)
    ensures Matches(results + [r], tl, kind, held + [w])
  {
    forall k | 0 <= k < |held + [w]|
      ensures IsResultOf((results + [r])[k], tl, kind, (held + [w])[k])
    {
      if k < |held| {
        assert (results + [r])[k] == results[k] && (held + [w])[k] == held[k];
      } else {
        assert (results + [r])[k] == r && (held + [w])[k] == w;
      }
    }
  }

  lemma ResultsNext(results: seq<AggregationResult>, tl: PriceTimeline, kind: AggregationType, windows: seq<Window>,
                    more: seq<AggregationResult>, w: Window)
    requires AreResultsOf(results, tl, kind, windows)
    requires if HoldsValue(tl, w) then |more| == 1 && IsResultOf(more[0], tl, kind, w) else more == []
    ensures AreResultsOf(results + more, tl, kind, windows + [w])
  {
    var keep := (w: Window) => HoldsValue(tl, w);
    var held :| Keeps(windows, held, keep) && Matches(results, tl, kind, held);
    KeepsNext(windows, held, keep, w);
    if HoldsValue(tl, w) {
      MatchesNext(results, tl, kind, held, more[0], w);
      assert more == [more[0]];
    } else {
      assert results + more == results && held + [] == held;
    }
  }

  lemma WindowStep(ps: PriceSort, tl: PriceTimeline, kind: AggregationType, windows: seq<Window>, i: nat)
    requires i < |windows|
    ensures Windowed(ps, tl, kind, windows[..i + 1])
            == Windowed(ps, tl, kind, windows[..i]) + WindowResult(ps, tl, kind, windows[i])
  {
    assert windows[..i + 1][..i] == windows[..i];
  }

  lemma NoResults(tl: PriceTimeline, kind: AggregationType)
    ensures AreResultsOf([], tl, kind, [])
  {
    KeepsNone((w: Window) => HoldsValue(tl, w));
    assert Matches([], tl, kind, []);
  }

  lemma ResultsWith(ps: PriceSort, tl: PriceTimeline, kind: AggregationType, results: seq<AggregationResult>,
                    windows: seq<Window>, w: Window)
    requires AreResultsOf(results, tl, kind, windows)
    ensures AreResultsOf(results + WindowResult(ps, tl, kind, w), tl, kind, windows + [w])
  {
    WindowResultIs(ps, tl, kind, w);
    ResultsNext(results, tl, kind, windows, WindowResult(ps, tl, kind, w), w);
  }

  lemma {:induction false} WindowedMeaning(ps: PriceSort, tl: PriceTimeline, kind: AggregationType,
                                           windows: seq<Window>, n: nat)
    requires n <= |windows|
    ensures AreResultsOf(Windowed(ps, tl, kind, windows[..n]), tl, kind, windows[..n])
    decreases n
  {
    if n == 0 {
      NoResults(tl, kind);
    } else {
      WindowedMeaning(ps, tl, kind, windows, n - 1);
      WindowStep(ps, tl, kind, windows, n - 1);
      ResultsWith(ps, tl, kind, Windowed(ps, tl, kind, windows[..n - 1]), windows[..n - 1], windows[n - 1]);
      assert windows[..n] == windows[..n - 1] + [windows[n - 1]];
    }
  }

  // ----- The code -----

  method ApplyWindowToPriceTimeline(timeline: PriceTimeline, window: Window) returns (windowed: PriceTimeline)
    ensures windowed == InRange(timeline, window.start, window.end)
    ensures ValuesIn(timeline, windowed, window.start, window.end)
  {
    InRangeKeeps(timeline, window.start, window.end);
    windowed := [];
    for i := 0 to |timeline|
      invariant windowed == InRange(timeline[..i], window.start, window.end)
    {
      assert timeline[..i + 1][..i] == timeline[..i];
      var value := timeline[i];
      if (value.timestamp == window.start || value.timestamp > window.start) && value.timestamp < window.end {
        windowed := windowed + [value];
      }
    }
    assert timeline[..|timeline|] == timeline;
  }

  method SumValues(values: seq<real>) returns (sum: real)
    ensures sum == SumValuesOf(values)
  {
    sum := 0.0;
    for i := 0 to |values|
      invariant sum == SumValuesOf(values[..i])
    {
      assert values[..i + 1][..i] == values[..i];
      sum := sum + values[i];
    }
    assert values[..|values|] == values;
  }

  method Aggregate(ps: PriceSort, timeline: PriceTimeline, kind: AggregationType) returns (result: AggregationResult)
    ensures result == Aggregated(ps, timeline, kind)
    ensures Aggregates(result, timeline, kind)
  {
    AggregatedMeaning(ps, timeline, kind);
    if |timeline| == 0 {
      return AggregationResult(kind, 0.0, 0, 0, 0, 0);
    }
    assert IsSortOf(PriceTime, timeline, ps(timeline));
    PermutationFacts(timeline, ps(timeline));
    var sorted := ps(timeline);
    var values: seq<real> := [];
    for i := 0 to |sorted|
      invariant values == ValuesOf(sorted[..i])
    {
      values := values + [sorted[i].value];
    }
    assert sorted[..|sorted|] == sorted;
    result := AggregationResult(kind, 0.0, |timeline|, 0, 0, sorted[|sorted| - 1].timestamp);
    match kind
    case Sum =>
      var sum := SumValues(values);
      result := result.(value := sum);
    case Count =>
      result := result.(value := |values| as real);
  }

  method WindowedAggregate(ps: PriceSort, timeline: PriceTimeline, windows: seq<Window>, kind: AggregationType)
    returns (results: seq<AggregationResult>)
    ensures results == Windowed(ps, timeline, kind, windows)
    ensures AreResultsOf(results, timeline, kind, windows)
  {
    results := [];
    for i := 0 to |windows|
      invariant results == Windowed(ps, timeline, kind, windows[..i])
    {
      WindowStep(ps, timeline, kind, windows, i);
      var window := windows[i];
      var windowData := ApplyWindowToPriceTimeline(timeline, window);
      if |windowData| > 0 {
        var result := Aggregate(ps, windowData, kind);
        result := result.(start := window.start, end := window.end);
        result := result.(timestamp := window.end);
        results := results + [result];
      }
    }
    WindowedMeaning(ps, timeline, kind, windows, |windows|);
    assert windows[..|windows|] == windows;
  }
}
