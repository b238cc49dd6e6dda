/**
 Measures of a timeline: total true duration and longest true run, both in nanoseconds.
 On timelines whose intervals do not overlap the first counts instants; on tidy timelines the
 second is the length of the longest unbroken run of instants.
 */
module Measure {
  import opened Timeline
  import opened Merge
  import opened BooleanAlgebra

  // ----- Total duration -----

  function TrueLength(iv: BoolInterval): int {
    if iv.value then iv.end - iv.start else 0
  }

  function TotalTrue(tl: BoolTimeline): int {
    if tl == [] then 0 else TotalTrue(tl[..|tl| - 1]) + TrueLength(tl[|tl| - 1])
  }

  method DurationWhere(timeline: BoolTimeline) returns (totalDuration: int)
    ensures totalDuration == TotalTrue(timeline)
  {
    totalDuration := 0;
    for i := 0 to |timeline|
      invariant totalDuration == TotalTrue(timeline[..i])
    {
      assert timeline[..i + 1][..i] == timeline[..i];
      var interval := timeline[i];
      if interval.value {
        totalDuration := totalDuration + (interval.end - interval.start);
      }
    }
    assert timeline[..|timeline|] == timeline;
  }

  /** The total adds up over lists, whatever the intervals: a true one counts from its start to its end, even
      if it overlaps others or is reversed, and a false one not at all. */
  lemma {:induction false} TotalAdds(a: BoolTimeline, b: BoolTimeline, iv: BoolInterval)
    ensures TotalTrue(a + b) == TotalTrue(a) + TotalTrue(b)
    ensures TotalTrue([iv]) == if iv.value then iv.end - iv.start else 0
    ensures TotalTrue([]) == 0
    decreases |b|
  {
    assert [iv][..0] == [];
    if b == [] {
      assert a + b == a;
    } else {
      TotalAdds(a, b[..|b| - 1], iv);
      assert (a + b)[..|a + b| - 1] == a + b[..|b| - 1];
    }
  }

  lemma LastIsSeparate(tl: BoolTimeline)
    requires NonOverlapping(tl) && tl != []
    ensures Instants(tl[..|tl| - 1]) !! Range(tl[|tl| - 1].start, tl[|tl| - 1].end)
  {
    var init, last := tl[..|tl| - 1], tl[|tl| - 1];
    forall t | t in Instants(init)
      ensures t !in Range(last.start, last.end)
    {
      var i := OpenAt(init, t);
      assert t in Range(tl[i].start, tl[i].end);
    }
  }

  /** The last interval adds its length to the number of instants. */
  lemma LastAdds(tl: BoolTimeline)
    requires AllTrue(tl) && WellFormed(tl) && NonOverlapping(tl) && tl != []
    ensures |Instants(tl)| == |Instants(tl[..|tl| - 1])| + TrueLength(tl[|tl| - 1])
  {
    var last := tl[|tl| - 1];
    SplitLast(tl);
    LastIsSeparate(tl);
    OneInterval(last);
    assert Instants([last]) == Range(last.start, last.end);
  }

  lemma PrefixShape(tl: BoolTimeline)
    requires AllTrue(tl) && WellFormed(tl) && NonOverlapping(tl) && tl != []
    ensures AllTrue(tl[..|tl| - 1]) && WellFormed(tl[..|tl| - 1]) && NonOverlapping(tl[..|tl| - 1])
  {
  }

  /** Duration counts instants as long as no instant is covered twice. */
  lemma {:induction false} DurationCountsInstants(tl: BoolTimeline)
    requires AllTrue(tl) && WellFormed(tl) && NonOverlapping(tl)
    ensures TotalTrue(tl) == |Instants(tl)|
    decreases |tl|
  {
    if tl != [] {
      PrefixShape(tl);
      LastAdds(tl);
      DurationCountsInstants(tl[..|tl| - 1]);
    }
  }

  lemma TidyNonOverlapping(tl: BoolTimeline)
    requires Tidy(tl)
    ensures AllTrue(tl) && WellFormed(tl) && NonOverlapping(tl)
  {
    forall i, j | 0 <= i < j < |tl|
      ensures Range(tl[i].start, tl[i].end) !! Range(tl[j].start, tl[j].end)
    {
      forall t | t in Range(tl[i].start, tl[i].end)
        ensures t !in Range(tl[j].start, tl[j].end)
      {
      }
    }
  }

  lemma UnionAndIntersection(sort: IntervalSort, a: BoolTimeline, b: BoolTimeline)
    ensures Instants(OrAll(sort, [a, b])) == Instants(a) + Instants(b)
    ensures Instants(AndAll(sort, [a, b])) == Instants(a) * Instants(b)
  {
    forall t
      ensures t in Instants(OrAll(sort, [a, b])) <==> t in Instants(a) + Instants(b)
      ensures t in Instants(AndAll(sort, [a, b])) <==> t in Instants(a) * Instants(b)
    {
      TwoOperands(sort, a, b, t);
    }
  }

  lemma CombinedDurations(sort: IntervalSort, a: BoolTimeline, b: BoolTimeline)
    requires AllTrue(a) && WellFormed(a) && AllTrue(b) && WellFormed(b)
    ensures TotalTrue(OrAll(sort, [a, b])) == |Instants(OrAll(sort, [a, b]))|
    ensures TotalTrue(AndAll(sort, [a, b])) == |Instants(AndAll(sort, [a, b]))|
  {
    OrShape(sort, [a, b]);
    AndMeaning(sort, [a, b]);
    TidyNonOverlapping(OrAll(sort, [a, b]));
    TidyNonOverlapping(AndAll(sort, [a, b]));
    DurationCountsInstants(OrAll(sort, [a, b]));
    DurationCountsInstants(AndAll(sort, [a, b]));
  }

  /** Inclusion-exclusion on durations, for operands whose own intervals do not overlap. */
  lemma InclusionExclusion(sort: IntervalSort, a: BoolTimeline, b: BoolTimeline)
    requires AllTrue(a) && WellFormed(a) && NonOverlapping(a)
    requires AllTrue(b) && WellFormed(b) && NonOverlapping(b)
    ensures TotalTrue(OrAll(sort, [a, b])) + TotalTrue(AndAll(sort, [a, b])) == TotalTrue(a) + TotalTrue(b)
  {
    UnionAndIntersection(sort, a, b);
    CombinedDurations(sort, a, b);
    DurationCountsInstants(a);
    DurationCountsInstants(b);
  }

  // ----- Longest run -----

  /** The length of one interval, if it is true and long enough to be considered. */
  function Considered(iv: BoolInterval, minDur: int): int {
    if iv.value && iv.end - iv.start >= minDur then iv.end - iv.start else 0
  }

  function LongestTrue(tl: BoolTimeline, minDur: int): int {
    if tl == [] then 0 else Max(LongestTrue(tl[..|tl| - 1], minDur), Considered(tl[|tl| - 1], minDur))
  }

  /** `LongestConsecutiveTrueDuration`, before the conversion to seconds; 0 is the default minimum. */
  method LongestConsecutiveTrue(timeline: BoolTimeline, minDur: int) returns (maxDuration: int)
    ensures maxDuration == LongestTrue(timeline, minDur)
  {
    maxDuration := 0;
    if |timeline| == 0 {
      return;
    }
    for i := 0 to |timeline|
      invariant maxDuration == LongestTrue(timeline[..i], minDur)
    {
      assert timeline[..i + 1][..i] == timeline[..i];
      LongestNonNegative(timeline[..i], minDur);
      var interval := timeline[i];
      if interval.value {
        var duration := interval.end - interval.start;
        if duration >= minDur && duration > maxDuration {
          maxDuration := duration;
        }
      }
    }
    assert timeline[..|timeline|] == timeline;
  }

  lemma {:induction false} LongestNonNegative(tl: BoolTimeline, minDur: int)
    ensures LongestTrue(tl, minDur) >= 0
    decreases |tl|
  {
    if tl != [] {
      LongestNonNegative(tl[..|tl| - 1], minDur);
    }
  }

  lemma {:induction false} LongestIsMax(tl: BoolTimeline, minDur: int)
    ensures forall i :: 0 <= i < |tl| ==> Considered(tl[i], minDur) <= LongestTrue(tl, minDur)
    ensures LongestTrue(tl, minDur) == 0
            || exists i :: 0 <= i < |tl| && Considered(tl[i], minDur) == LongestTrue(tl, minDur)
    decreases |tl|
  {
    if tl != [] {
      var init := tl[..|tl| - 1];
      LongestIsMax(init, minDur);
      assert forall i :: 0 <= i < |init| ==> init[i] == tl[i];
      if LongestTrue(tl, minDur) == LongestTrue(init, minDur) {
        if LongestTrue(init, minDur) != 0 {
          var i :| 0 <= i < |init| && Considered(init[i], minDur) == LongestTrue(init, minDur);
          assert Considered(tl[i], minDur) == LongestTrue(tl, minDur);
        }
      } else {
        assert Considered(tl[|tl| - 1], minDur) == LongestTrue(tl, minDur);
      }
    }
  }

  /** The length of the longest true interval that reaches the minimum, or 0 if no such interval is positive. */
  ghost predicate IsLongestTrue(tl: BoolTimeline, minDur: int, n: int) {
    && n >= 0
    && (forall iv :: iv in tl && iv.value && iv.end - iv.start >= minDur ==> iv.end - iv.start <= n)
    && (n == 0 || exists iv :: iv in tl && iv.value && n == iv.end - iv.start >= minDur)
  }

  /** This holds of any timeline. */
  lemma LongestOfAll(tl: BoolTimeline, minDur: int)
    ensures IsLongestTrue(tl, minDur, LongestTrue(tl, minDur))
  {
    var n := LongestTrue(tl, minDur);
    LongestIsMax(tl, minDur);
    LongestNonNegative(tl, minDur);
    forall iv | iv in tl && iv.value && iv.end - iv.start >= minDur
      ensures iv.end - iv.start <= n
    {
      var i :| 0 <= i < |tl| && tl[i] == iv;
      assert Considered(tl[i], minDur) <= n;
    }
    if n != 0 {
      var i :| 0 <= i < |tl| && Considered(tl[i], minDur) == n;
      assert tl[i] in tl && tl[i].value;
    }
  }

  /** `n` consecutive instants from `a` on are all in `s`. */
  ghost predicate Run(s: set<int>, a: int, n: int) {
    n >= 0 && Range(a, a + n) <= s
  }

  /** `n` is the length of the longest run of at least `minDur` instants, or 0 when there is none. */
  ghost predicate LongestRun(s: set<int>, minDur: int, n: int) {
    && (n == 0 || (n >= minDur && exists a :: Run(s, a, n)))
    && forall a, m :: Run(s, a, m) && m >= minDur ==> m <= n
  }

  lemma RunInsideOne(tl: BoolTimeline, a: int, n: int) returns (i: nat)
    requires Tidy(tl) && Run(Instants(tl), a, n) && n > 0
    ensures i < |tl| && tl[i].value && tl[i].start <= a && a + n <= tl[i].end
  {
    i := RunInOne(tl, a, a + n);
  }

  /** On a tidy timeline the longest interval is the longest run of true instants. */
  lemma LongestMeaning(tl: BoolTimeline, minDur: int)
    requires Tidy(tl)
    ensures LongestRun(Instants(tl), minDur, LongestTrue(tl, minDur))
  {
    var n := LongestTrue(tl, minDur);
    LongestIsMax(tl, minDur);
    LongestNonNegative(tl, minDur);
    if n != 0 {
      var i :| 0 <= i < |tl| && Considered(tl[i], minDur) == n;
      assert Run(Instants(tl), tl[i].start, n) by {
        forall t | t in Range(tl[i].start, tl[i].start + n)
          ensures t in Instants(tl)
        {
          OpenIn(tl, i, t);
        }
      }
    }
    forall a, m | Run(Instants(tl), a, m) && m >= minDur
      ensures m <= n
    {
      if m > 0 {
        var i := RunInsideOne(tl, a, m);
        assert Considered(tl[i], minDur) <= n;
      }
    }
  }
}
