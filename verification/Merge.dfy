/**
 `mergeBoolIntervals`: sort by start, then one pass that grows the current interval or closes it.
 Main results: the pass keeps the true and the false instants of any input, and on true
 intervals that hold an instant its output is the normal form of those instants.
 */
module Merge {
  import opened Sorting
  import opened Timeline

  function Max(a: int, b: int): int { if a < b then b else a }

  function Min(a: int, b: int): int { if b < a then b else a }

  // ----- What the loop computes -----

  /** The pass over `rest`, with `current` still open. */
  function MergeFrom(current: BoolInterval, rest: BoolTimeline): BoolTimeline
    decreases |rest|
  {
    if rest == [] then
      [current]
    else if current.value == rest[0].value && current.end >= rest[0].start then
      MergeFrom(current.(end := Max(current.end, rest[0].end)), rest[1..])
    else
      [current] + MergeFrom(rest[0], rest[1..])
  }

  function MergeSorted(s: BoolTimeline): BoolTimeline {
    if s == [] then [] else MergeFrom(s[0], s[1..])
  }

  function Merged(sort: IntervalSort, s: BoolTimeline): BoolTimeline {
    if s == [] then [] else MergeSorted(sort(s))
  }

  // ----- Instants are kept -----

  lemma SpanJoin(current: BoolInterval, next: BoolInterval, v: bool)
    requires current.value == next.value && current.start <= next.start <= current.end
    ensures InstantsOf([current, next], v) == InstantsOf([current.(end := Max(current.end, next.end))], v)
  {
    var joined := current.(end := Max(current.end, next.end));
    forall t
      ensures t in InstantsOf([current, next], v) <==> t in InstantsOf([joined], v)
    {
      assert current in [current, next] && next in [current, next] && joined in [joined];
      assert t in Range(joined.start, joined.end)
             <==> t in Range(current.start, current.end) || t in Range(next.start, next.end);
    }
  }

  lemma SameBefore(a: BoolTimeline, b: BoolTimeline, rest: BoolTimeline, v: bool)
    requires InstantsOf(a, v) == InstantsOf(b, v)
    ensures InstantsOf(a + rest, v) == InstantsOf(b + rest, v)
  {
    InstantsConcat(a, rest);
    InstantsConcat(b, rest);
  }

  lemma FirstTwo<T>(x: T, rest: seq<T>)
    requires rest != []
    ensures [x] + rest == [x, rest[0]] + rest[1..]
  {
  }

  lemma JoinKeepsInstants(current: BoolInterval, rest: BoolTimeline, v: bool)
    requires rest != [] && current.value == rest[0].value && current.start <= rest[0].start <= current.end
    ensures InstantsOf([current.(end := Max(current.end, rest[0].end))] + rest[1..], v)
            == InstantsOf([current] + rest, v)
  {
    SpanJoin(current, rest[0], v);
    SameBefore([current, rest[0]], [current.(end := Max(current.end, rest[0].end))], rest[1..], v);
    FirstTwo(current, rest);
  }

  lemma CloseKeepsInstants(current: BoolInterval, merged: BoolTimeline, rest: BoolTimeline, v: bool)
    requires InstantsOf(merged, v) == InstantsOf(rest, v)
    ensures InstantsOf([current] + merged, v) == InstantsOf([current] + rest, v)
  {
    InstantsConcat([current], merged);
    InstantsConcat([current], rest);
  }

  lemma {:induction false} MergeFromKeepsInstants(current: BoolInterval, rest: BoolTimeline, v: bool)
    requires SortedBy(IntervalStart, [current] + rest)
    ensures InstantsOf(MergeFrom(current, rest), v) == InstantsOf([current] + rest, v)
    decreases |rest|
  {
    if rest == [] {
      assert [current] + rest == [current];
    } else {
      SortedTail(current, rest);
      if current.value == rest[0].value && current.end >= rest[0].start {
        MergeFromKeepsInstants(current.(end := Max(current.end, rest[0].end)), rest[1..], v);
        JoinKeepsInstants(current, rest, v);
      } else {
        MergeFromKeepsInstants(rest[0], rest[1..], v);
        assert rest == [rest[0]] + rest[1..];
        CloseKeepsInstants(current, MergeFrom(rest[0], rest[1..]), rest, v);
      }
    }
  }

  lemma SortedTail(current: BoolInterval, rest: BoolTimeline)
    requires SortedBy(IntervalStart, [current] + rest) && rest != []
    ensures current.start <= rest[0].start
    ensures forall e :: SortedBy(IntervalStart, [current.(end := e)] + rest[1..])
    ensures SortedBy(IntervalStart, [rest[0]] + rest[1..])
  {
    var s := [current] + rest;
    assert s[0] == current && s[1] == rest[0];
    assert IntervalStart(s[0]) <= IntervalStart(s[1]);
    forall e
      ensures SortedBy(IntervalStart, [current.(end := e)] + rest[1..])
    {
      var r := [current.(end := e)] + rest[1..];
      forall i, j | 0 <= i < j < |r|
        ensures IntervalStart(r[i]) <= IntervalStart(r[j])
      {
        assert r[j] == s[j + 1];
        assert IntervalStart(s[if i == 0 then 0 else i + 1]) <= IntervalStart(s[j + 1]);
      }
    }
    var r := [rest[0]] + rest[1..];
    forall i, j | 0 <= i < j < |r|
      ensures IntervalStart(r[i]) <= IntervalStart(r[j])
    {
      assert r[i] == s[i + 1] && r[j] == s[j + 1];
    }
  }

  /** Whatever the sort does with ties, merging keeps both the true and the false instants. */
  lemma MergeKeepsInstants(sort: IntervalSort, s: BoolTimeline, v: bool)
    ensures InstantsOf(Merged(sort, s), v) == InstantsOf(s, v)
  {
    var r := sort(s);
    assert IsSortOf(IntervalStart, s, r);
    InstantsPermutation(r, s);
    PermutationFacts(s, r);
    if s != [] {
      assert r == [r[0]] + r[1..];
      MergeFromKeepsInstants(r[0], r[1..], v);
    }
  }

  // ----- Bounds are those of the input -----

  /** The interval starts with one of the list and ends with one, and has their value. */
  ghost predicate BoundedBy(iv: BoolInterval, s: BoolTimeline) {
    && (exists x :: x in s && x.value == iv.value && x.start == iv.start)
    && exists y :: y in s && y.value == iv.value && y.end == iv.end
  }

  lemma {:induction false} MergeFromBounds(current: BoolInterval, rest: BoolTimeline, s: BoolTimeline)
    requires BoundedBy(current, s) && forall x :: x in rest ==> x in s
    ensures forall iv :: iv in MergeFrom(current, rest) ==> BoundedBy(iv, s)
    decreases |rest|
  {
    if rest != [] {
      assert rest[0] in rest && rest[0] in s;
      assert forall x :: x in rest[1..] ==> x in rest;
      if current.value == rest[0].value && current.end >= rest[0].start {
        MergeFromBounds(current.(end := Max(current.end, rest[0].end)), rest[1..], s);
      } else {
        MergeFromBounds(rest[0], rest[1..], s);
      }
    }
  }

  /** Merging invents no bounds: every interval of the result starts with one of the input and ends with
      one, of its own value. */
  lemma MergeBounds(sort: IntervalSort, s: BoolTimeline)
    ensures forall iv :: iv in Merged(sort, s) ==> BoundedBy(iv, s)
  {
    if s != [] {
      var r := sort(s);
      assert IsSortOf(IntervalStart, s, r);
      PermutationFacts(s, r);
      assert r[0] in s;
      MergeFromBounds(r[0], r[1..], s);
    }
  }

  // ----- The shape of the result -----

  lemma {:induction false} MergeFromTidy(current: BoolInterval, rest: BoolTimeline)
    requires SortedBy(IntervalStart, [current] + rest)
    requires AllTrue([current] + rest) && WellFormed([current] + rest)
    ensures var r := MergeFrom(current, rest);
            Tidy(r) && r != [] && r[0].start == current.start
    decreases |rest|
  {
    var s := [current] + rest;
    assert s[0] == current;
    if rest != [] {
      SortedTail(current, rest);
      assert s[1] == rest[0];
      assert forall i :: 0 <= i < |rest[1..]| ==> rest[1..][i] == s[i + 2];
      if current.value == rest[0].value && current.end >= rest[0].start {
        MergeFromTidy(current.(end := Max(current.end, rest[0].end)), rest[1..]);
      } else {
        MergeFromTidy(rest[0], rest[1..]);
      }
    }
  }

  lemma {:induction false} MergeFromPositive(current: BoolInterval, rest: BoolTimeline)
    requires Positive([current] + rest)
    ensures Positive(MergeFrom(current, rest))
    decreases |rest|
  {
    var s := [current] + rest;
    assert s[0] == current;
    if rest != [] {
      assert s[1] == rest[0];
      assert forall i :: 0 <= i < |rest[1..]| ==> rest[1..][i] == s[i + 2];
      if current.value == rest[0].value && current.end >= rest[0].start {
        MergeFromPositive(current.(end := Max(current.end, rest[0].end)), rest[1..]);
      } else {
        MergeFromPositive(rest[0], rest[1..]);
      }
    }
  }

  lemma ShapePermutation(a: BoolTimeline, b: BoolTimeline)
    requires multiset(a) == multiset(b)
    ensures AllTrue(a) ==> AllTrue(b)
    ensures WellFormed(a) ==> WellFormed(b)
    ensures Positive(a) ==> Positive(b)
  {
    PermutationFacts(a, b);
    forall i | 0 <= i < |b|
      ensures exists j :: 0 <= j < |a| && a[j] == b[i]
    {
      assert b[i] in a;
    }
  }

  /** True intervals merge into a tidy timeline, and into a normal one when each holds an instant. */
  lemma MergeShape(sort: IntervalSort, s: BoolTimeline)
    requires AllTrue(s) && WellFormed(s)
    ensures Tidy(Merged(sort, s))
    ensures Positive(s) ==> Normal(Merged(sort, s))
  {
    if s != [] {
      var r := sort(s);
      assert IsSortOf(IntervalStart, s, r);
      PermutationFacts(s, r);
      ShapePermutation(s, r);
      assert r == [r[0]] + r[1..];
      MergeFromTidy(r[0], r[1..]);
      if Positive(s) {
        MergeFromPositive(r[0], r[1..]);
      }
    }
  }

  /** Unique normal form: two inputs give the same list exactly when they cover the same instants,
      whichever sorts were used and however they order ties. */
  lemma MergeUnique(f: IntervalSort, a: BoolTimeline, g: IntervalSort, b: BoolTimeline)
    requires AllTrue(a) && Positive(a) && AllTrue(b) && Positive(b)
    ensures Merged(f, a) == Merged(g, b) <==> Instants(a) == Instants(b)
  {
    MergeKeepsInstants(f, a, true);
    MergeKeepsInstants(g, b, true);
    MergeShape(f, a);
    MergeShape(g, b);
    if Instants(a) == Instants(b) {
      NormalUnique(Merged(f, a), Merged(g, b));
    }
  }

  // ----- One round of the pass -----

  predicate Joins(current: BoolInterval, next: BoolInterval) {
    current.value == next.value && current.end >= next.start
  }

  /** The open interval after the loop has met `next`. */
  function Advance(current: BoolInterval, next: BoolInterval): BoolInterval {
    if Joins(current, next) then current.(end := Max(current.end, next.end)) else next
  }

  lemma MergeNext(current: BoolInterval, next: BoolInterval, rest: BoolTimeline)
    ensures MergeFrom(current, [next] + rest)
            == (if Joins(current, next) then [] else [current]) + MergeFrom(Advance(current, next), rest)
    ensures MergeSorted([next] + rest) == MergeFrom(next, rest)
  {
    assert ([next] + rest)[1..] == rest;
  }

  /** Some sort arranges `s` in any sorted way one likes. */
  lemma SortTo(s: BoolTimeline, r: BoolTimeline) returns (sort: IntervalSort)
    requires IsSortOf(IntervalStart, s, r)
    ensures sort(s) == r
  {
    var f := (z: BoolTimeline) => if z == s then r else InsertionSort(IntervalStart, z);
    forall z: BoolTimeline
      ensures IsSortOf(IntervalStart, z, f(z))
    {
      InsertionSorts(IntervalStart, z);
    }
    sort := f;
  }

  // ----- Intervals that may be empty -----

  /** Intervals all of one value. */
  ghost predicate Uniform(s: BoolTimeline, v: bool) {
    forall iv :: iv in s ==> iv.value == v
  }

  /** The interval with every point doubled, and half a step added at its end.  It always holds an
      instant, and two of these meet exactly when the end of one interval reaches the start of the other. */
  function Doubled(iv: BoolInterval): BoolInterval {
    BoolInterval(true, 2 * iv.start, 2 * iv.end + 1)
  }

  function Double(s: BoolTimeline): BoolTimeline {
    Collect(iv => [Doubled(iv)], s)
  }

  /** The points, counted in half steps, that the intervals reach, their ends included. */
  ghost function Reach(s: BoolTimeline): set<int> {
    Instants(Double(s))
  }

  lemma {:induction false} DoubleAt(s: BoolTimeline)
    ensures |Double(s)| == |s|
    ensures forall i :: 0 <= i < |s| ==> Double(s)[i] == Doubled(s[i])
    decreases |s|
  {
    if s != [] {
      DoubleAt(s[..|s| - 1]);
    }
  }

  lemma DoubleConcat(a: BoolTimeline, b: BoolTimeline)
    ensures Double(a + b) == Double(a) + Double(b)
  {
    CollectConcat(iv => [Doubled(iv)], a, b);
  }

  lemma DoubleCons(x: BoolInterval, s: BoolTimeline)
    ensures Double([x] + s) == [Doubled(x)] + Double(s)
  {
    DoubleConcat([x], s);
    DoubleAt([x]);
  }

  lemma DoubleInjective(a: BoolTimeline, b: BoolTimeline, v: bool)
    requires Uniform(a, v) && Uniform(b, v) && Double(a) == Double(b)
    ensures a == b
  {
    DoubleAt(a);
    DoubleAt(b);
    forall i | 0 <= i < |a|
      ensures a[i] == b[i]
    {
      assert a[i] in a && b[i] in b && Doubled(a[i]) == Doubled(b[i]);
    }
  }

  lemma {:induction false} MergeDoubled(current: BoolInterval, rest: BoolTimeline, v: bool)
    requires current.value == v && Uniform(rest, v)
    ensures Double(MergeFrom(current, rest)) == MergeFrom(Doubled(current), Double(rest))
    ensures Uniform(MergeFrom(current, rest), v)
    decreases |rest|
  {
    if rest == [] {
      DoubleAt([current]);
    } else {
      var x, others := rest[0], rest[1..];
      assert rest == [x] + others && x in rest;
      MergeDoubled(Advance(current, x), others, v);
      MergeNext(current, x, others);
      DoubleCons(x, others);
      DoubleCons(current, MergeFrom(Advance(current, x), others));
      MergeNext(Doubled(current), Doubled(x), Double(others));
      assert Doubled(Advance(current, x)) == Advance(Doubled(current), Doubled(x));
    }
  }

  lemma DoubleSort(s: BoolTimeline, r: BoolTimeline)
    requires IsSortOf(IntervalStart, s, r)
    ensures IsSortOf(IntervalStart, Double(s), Double(r))
  {
    CollectPermutation(iv => [Doubled(iv)], r, s);
    DoubleAt(r);
    forall i, j | 0 <= i < j < |Double(r)|
      ensures IntervalStart(Double(r)[i]) <= IntervalStart(Double(r)[j])
    {
      assert IntervalStart(r[i]) <= IntervalStart(r[j]);
    }
  }

  lemma DoubledShape(s: BoolTimeline)
    requires WellFormed(s)
    ensures AllTrue(Double(s)) && Positive(Double(s)) && WellFormed(Double(s))
  {
    DoubleAt(s);
  }

  /** Merging intervals of one value, empty ones included, keeps what they reach, and doubling the
      result gives the normal form of that set. */
  lemma MergeReach(sort: IntervalSort, s: BoolTimeline, v: bool)
    requires Uniform(s, v) && WellFormed(s)
    ensures Normal(Double(Merged(sort, s))) && Reach(Merged(sort, s)) == Reach(s) && Uniform(Merged(sort, s), v)
  {
    if s != [] {
      var r := sort(s);
      assert IsSortOf(IntervalStart, s, r);
      PermutationFacts(s, r);
      assert r == [r[0]] + r[1..] && r[0] in s && Uniform(r[1..], v) by {
        assert forall x :: x in r[1..] ==> x in r;
        assert r[0] in r;
      }
      DoubleCons(r[0], r[1..]);
      MergeDoubled(r[0], r[1..], v);
      DoubleSort(s, r);
      DoubledShape(s);
      var doubled := SortTo(Double(s), Double(r));
      DoubleAt(s);
      assert Merged(doubled, Double(s)) == Double(Merged(sort, s));
      MergeShape(doubled, Double(s));
      MergeKeepsInstants(doubled, Double(s), true);
    }
  }

  /** The unique form when intervals may be empty: well formed inputs of one value merge into the same
      list if and only if they reach the same points. */
  lemma MergeUniqueReach(f: IntervalSort, a: BoolTimeline, g: IntervalSort, b: BoolTimeline, v: bool)
    requires Uniform(a, v) && WellFormed(a) && Uniform(b, v) && WellFormed(b)
    ensures Merged(f, a) == Merged(g, b) <==> Reach(a) == Reach(b)
  {
    MergeReach(f, a, v);
    MergeReach(g, b, v);
    if Reach(a) == Reach(b) {
      NormalUnique(Double(Merged(f, a)), Double(Merged(g, b)));
      DoubleInjective(Merged(f, a), Merged(g, b), v);
    }
  }

  // ----- When merging leaves no empty interval -----

  lemma ReachAt(s: BoolTimeline, p: int)
    ensures 2 * p in Reach(s) <==> exists x :: x in s && x.start <= p <= x.end
  {
    DoubleAt(s);
    if 2 * p in Reach(s) {
      var i := OpenAt(Double(s), 2 * p);
      assert s[i] in s;
    }
    if x :| x in s && x.start <= p <= x.end {
      var i :| 0 <= i < |s| && s[i] == x;
      OpenIn(Double(s), i, 2 * p);
    }
  }

  /** An empty interval at `p` disappears: another interval is open at `p` or ends there. */
  ghost predicate Absorbed(s: BoolTimeline, p: int) {
    p in Instants(s) || p - 1 in Instants(s)
  }

  lemma AbsorbedBy(s: BoolTimeline, x: BoolInterval, p: int)
    requires x in s && x.value && x.start <= p <= x.end && x.start < x.end
    ensures Absorbed(s, p)
  {
    var i :| 0 <= i < |s| && s[i] == x;
    if p < x.end {
      OpenIn(s, i, p);
    } else {
      OpenIn(s, i, p - 1);
    }
  }

  lemma NothingNear(tl: BoolTimeline, i: nat, t: int)
    requires Tidy(tl) && i < |tl| && tl[i].start == tl[i].end && tl[i].start - 1 <= t <= tl[i].start
    ensures t !in Instants(tl)
  {
    forall j | 0 <= j < |tl|
      ensures !(tl[j].start <= t < tl[j].end)
    {
      assert i < j ==> tl[i].end < tl[j].start;
      assert j < i ==> tl[j].end < tl[i].start;
    }
    if t in Instants(tl) {
      var _ := OpenAt(tl, t);
    }
  }

  /** Every empty interval lies in or at the end of another one. */
  ghost predicate EmptiesAbsorbed(s: BoolTimeline) {
    forall x :: x in s && x.start == x.end ==> Absorbed(s, x.start)
  }

  /** What merging true intervals keeps. */
  ghost predicate MergesTo(s: BoolTimeline, m: BoolTimeline) {
    Tidy(m) && Reach(m) == Reach(s) && Instants(m) == Instants(s)
  }

  lemma TrueMerges(sort: IntervalSort, s: BoolTimeline)
    requires AllTrue(s) && WellFormed(s)
    ensures MergesTo(s, Merged(sort, s))
  {
    MergeShape(sort, s);
    assert Uniform(s, true);
    MergeReach(sort, s, true);
    MergeKeepsInstants(sort, s, true);
  }

  lemma ReachedAbsorbed(s: BoolTimeline, p: int)
    requires AllTrue(s) && WellFormed(s) && EmptiesAbsorbed(s) && 2 * p in Reach(s)
    ensures Absorbed(s, p)
  {
    ReachAt(s, p);
    var x :| x in s && x.start <= p <= x.end;
    var j :| 0 <= j < |s| && s[j] == x;
    if x.start < x.end {
      AbsorbedBy(s, x, p);
    } else {
      assert x.start == x.end == p;
    }
  }

  lemma EmptyGone(s: BoolTimeline, m: BoolTimeline, i: nat)
    requires AllTrue(s) && WellFormed(s) && EmptiesAbsorbed(s) && MergesTo(s, m) && i < |m|
    ensures m[i].start < m[i].end
  {
    var p := m[i].start;
    assert m[i] in m && p <= m[i].end;
    ReachAt(m, p);
    ReachedAbsorbed(s, p);
    if m[i].start == m[i].end {
      NearNothing(m, i);
    }
  }

  lemma NearNothing(tl: BoolTimeline, i: nat)
    requires Tidy(tl) && i < |tl| && tl[i].start == tl[i].end
    ensures !Absorbed(tl, tl[i].start)
  {
    NothingNear(tl, i, tl[i].start - 1);
    NothingNear(tl, i, tl[i].start);
  }

  lemma EmptiesStay(s: BoolTimeline, m: BoolTimeline, x: BoolInterval)
    requires AllTrue(s) && WellFormed(s) && MergesTo(s, m) && Positive(m) && x in s && x.start == x.end
    ensures Absorbed(s, x.start)
  {
    var p := x.start;
    ReachAt(s, p);
    ReachAt(m, p);
    var y :| y in m && y.start <= p <= y.end;
    AbsorbedBy(m, y, p);
  }

  lemma {:induction false} FalseStays(current: BoolInterval, rest: BoolTimeline)
    requires AllTrue(MergeFrom(current, rest))
    ensures current.value && AllTrue(rest)
    decreases |rest|
  {
    if rest == [] {
      assert MergeFrom(current, rest)[0] == current;
    } else {
      var x, others := rest[0], rest[1..];
      assert rest == [x] + others;
      MergeNext(current, x, others);
      var merged := MergeFrom(Advance(current, x), others);
      assert AllTrue(merged) by {
        assert forall i :: 0 <= i < |merged| ==> ([current] + merged)[i + 1] == merged[i];
        assert [] + merged == merged;
      }
      FalseStays(Advance(current, x), others);
      assert !Joins(current, x) ==> MergeFrom(current, rest)[0] == current;
    }
  }

  lemma AllTrueInput(sort: IntervalSort, s: BoolTimeline)
    requires AllTrue(Merged(sort, s))
    ensures AllTrue(s)
  {
    if s != [] {
      var r := sort(s);
      assert IsSortOf(IntervalStart, s, r);
      PermutationFacts(s, r);
      FalseStays(r[0], r[1..]);
      assert r == [r[0]] + r[1..];
      ShapePermutation(r, s);
    }
  }

  /** Merging well formed intervals gives a normal form if and only if they are all true and every empty
      one lies in, or at the end of, another. */
  lemma MergedNormal(sort: IntervalSort, s: BoolTimeline)
    requires WellFormed(s)
    ensures Normal(Merged(sort, s)) <==> AllTrue(s) && EmptiesAbsorbed(s)
  {
    var m := Merged(sort, s);
    if Normal(m) {
      AllTrueInput(sort, s);
      TrueMerges(sort, s);
      forall x | x in s && x.start == x.end
        ensures Absorbed(s, x.start)
      {
        EmptiesStay(s, m, x);
      }
    }
    if AllTrue(s) && EmptiesAbsorbed(s) {
      TrueMerges(sort, s);
      forall i | 0 <= i < |m|
        ensures m[i].start < m[i].end
      {
        EmptyGone(s, m, i);
      }
    }
  }

  // ----- The code -----

  /** A fresh slice holding `s`. */
  method SliceOf(s: BoolTimeline) returns (a: array<BoolInterval>)
    ensures fresh(a) && a[..] == s
  {
    a := new BoolInterval[|s|](i requires 0 <= i < |s| => s[i]);
  }

  /** `sort.Slice` on the start times: reorders the slice in place. */
  method SortSlice(sort: IntervalSort, a: array<BoolInterval>)
    modifies a
    ensures a[..] == sort(old(a[..]))
  {
    ghost var before := a[..];
    var r := sort(a[..]);
    assert IsSortOf(IntervalStart, before, r);
    PermutationFacts(before, r);
    var i := 0;
    while i < a.Length
      invariant 0 <= i <= a.Length
      invariant a[..i] == r[..i]
    {
      a[i] := r[i];
      i := i + 1;
    }
  }

  lemma MergeRound(merged: BoolTimeline, current: BoolInterval, sorted: BoolTimeline, i: nat)
    requires i < |sorted|
    ensures merged + MergeFrom(current, sorted[i..])
            == (if Joins(current, sorted[i]) then merged else merged + [current])
               + MergeFrom(Advance(current, sorted[i]), sorted[i + 1..])
  {
    assert sorted[i..] == [sorted[i]] + sorted[i + 1..];
    MergeNext(current, sorted[i], sorted[i + 1..]);
  }

  /** Sorts the slice it is given in place and returns the merged intervals in a new one. */
  method MergeBoolIntervals(sort: IntervalSort, intervals: array<BoolInterval>) returns (result: array<BoolInterval>)
    modifies intervals
    ensures intervals[..] == old(if intervals.Length == 0 then intervals[..] else sort(intervals[..]))
    ensures result[..] == Merged(sort, old(intervals[..]))
    ensures if intervals.Length == 0 then result == intervals else fresh(result)
  {
    if intervals.Length == 0 {
      return intervals;
    }
    SortSlice(sort, intervals);
    ghost var sorted := intervals[..];

    var merged: BoolTimeline := [];
    var current := intervals[0];
    var i := 1;
    while i < intervals.Length
      invariant 1 <= i <= intervals.Length
      invariant intervals[..] == sorted
      invariant merged + MergeFrom(current, sorted[i..]) == MergeSorted(sorted)
    {
      var next := intervals[i];
      MergeRound(merged, current, sorted, i);
      if current.value == next.value && (current.end > next.start || current.end == next.start) {
        if next.end > current.end {
          current := current.(end := next.end);
        }
      } else {
        merged := merged + [current];
        current := next;
      }
      i := i + 1;
    }
    merged := merged + [current];
    result := SliceOf(merged);
  }
}
