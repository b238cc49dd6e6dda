/**
 Events and Boolean timelines, and what a timeline means: the finite set of instants at which
 it is true.  Time is counted in nanoseconds and every interval is half open, `[start, end)`.
 */
module Timeline {
  import opened Sorting

  datatype Event = Event(timestamp: int, kind: string, value: string)

  datatype BoolInterval = BoolInterval(value: bool, start: int, end: int)

  datatype StateInterval = StateInterval(state: string, start: int, end: int)

  type BoolTimeline = seq<BoolInterval>

  type StateTimeline = seq<StateInterval>

  const NANOSECOND := 1
  const HOUR := 3_600_000_000_000

  function EventTime(e: Event): int { e.timestamp }

  function IntervalStart(iv: BoolInterval): int { iv.start }

  function TimeKey(x: int): int { x }

  /** Any routine that orders bare times. */
  type TimeSort = f: seq<int> -> seq<int> | Sorts(TimeKey, f)
    ghost witness (SortExists(TimeKey); s => InsertionSort(TimeKey, s))

  /** Any routine that orders events by timestamp. */
  type EventSort = f: seq<Event> -> seq<Event> | Sorts(EventTime, f)
    ghost witness (SortExists(EventTime); s => InsertionSort(EventTime, s))

  /** Any routine that orders intervals by start. */
  type IntervalSort = f: seq<BoolInterval> -> seq<BoolInterval> | Sorts(IntervalStart, f)
    ghost witness (SortExists(IntervalStart); s => InsertionSort(IntervalStart, s))

  /** The instants from `lo` up to, not including, `hi`. */
  ghost function Range(lo: int, hi: int): (r: set<int>)
    ensures forall t :: t in r <==> lo <= t < hi
    ensures |r| == if lo <= hi then hi - lo else 0
    decreases hi - lo
  {
    if lo < hi then Range(lo, hi - 1) + {hi - 1} else {}
  }

  /** The instants at which some interval of value `v` is open. */
  ghost function InstantsOf(tl: BoolTimeline, v: bool): set<int> {
    set iv, t | iv in tl && iv.value == v && t in Range(iv.start, iv.end) :: t
  }

  /** The meaning of a timeline: the instants at which it is true. */
  ghost function Instants(tl: BoolTimeline): set<int> {
    InstantsOf(tl, true)
  }

  lemma InstantsConcat(a: BoolTimeline, b: BoolTimeline)
    ensures forall v :: InstantsOf(a + b, v) == InstantsOf(a, v) + InstantsOf(b, v)
    ensures Instants(a + b) == Instants(a) + Instants(b)
  {
  }

  lemma InstantsPermutation(a: BoolTimeline, b: BoolTimeline)
    requires multiset(a) == multiset(b)
    ensures forall v :: InstantsOf(a, v) == InstantsOf(b, v)
  {
    PermutationFacts(a, b);
  }

  // ----- Shapes -----

  ghost predicate AllTrue(tl: BoolTimeline) {
    forall i :: 0 <= i < |tl| ==> tl[i].value
  }

  /** No interval ends before it starts. */
  ghost predicate WellFormed(tl: BoolTimeline) {
    forall i :: 0 <= i < |tl| ==> tl[i].start <= tl[i].end
  }

  ghost predicate Positive(tl: BoolTimeline) {
    forall i :: 0 <= i < |tl| ==> tl[i].start < tl[i].end
  }

  /** No instant lies in two of the intervals. */
  ghost predicate NonOverlapping(tl: BoolTimeline) {
    forall i, j :: 0 <= i < j < |tl| ==> Range(tl[i].start, tl[i].end) !! Range(tl[j].start, tl[j].end)
  }

  /** True intervals in time order, any two of them separated by at least one instant. */
  ghost predicate Tidy(tl: BoolTimeline) {
    && AllTrue(tl)
    && WellFormed(tl)
    && forall i, j :: 0 <= i < j < |tl| ==> tl[i].end < tl[j].start
  }

  /** The normal form: tidy, and every interval holds at least one instant. */
  ghost predicate Normal(tl: BoolTimeline) {
    Tidy(tl) && Positive(tl)
  }

  /** Which interval of a timeline is open at an instant, as an index. */
  lemma OpenAt(tl: BoolTimeline, t: int) returns (i: nat)
    requires t in Instants(tl)
    ensures i < |tl| && tl[i].value && tl[i].start <= t < tl[i].end
  {
    var iv :| iv in tl && iv.value && t in Range(iv.start, iv.end);
    i :| 0 <= i < |tl| && tl[i] == iv;
  }

  lemma OpenIn(tl: BoolTimeline, i: nat, t: int)
    requires i < |tl| && tl[i].value && tl[i].start <= t < tl[i].end
    ensures t in Instants(tl)
  {
    assert tl[i] in tl && t in Range(tl[i].start, tl[i].end);
  }

  /** Two timelines in normal form that are true at the same instants are the same list. */
  lemma {:induction false} NormalUnique(a: BoolTimeline, b: BoolTimeline)
    requires Normal(a) && Normal(b)
    requires Instants(a) == Instants(b)
    ensures a == b
    decreases |a|
  {
    if a != [] {
      OpenIn(a, 0, a[0].start);
      var _ := OpenAt(b, a[0].start);
      SameFirst(a, b);
      TailsSame(a, b);
      NormalUnique(a[1..], b[1..]);
      assert a == [a[0]] + a[1..] && b == [b[0]] + b[1..];
    } else if b != [] {
      OpenIn(b, 0, b[0].start);
    }
  }

  lemma HeadStart(a: BoolTimeline, b: BoolTimeline)
    requires Normal(a) && Normal(b) && a != [] && b != [] && Instants(a) == Instants(b)
    ensures a[0].start <= b[0].start
  {
    OpenIn(b, 0, b[0].start);
    var _ := OpenAt(a, b[0].start);
  }

  lemma HeadEnd(a: BoolTimeline, b: BoolTimeline)
    requires Normal(a) && Normal(b) && a != [] && b != []
    requires Instants(a) == Instants(b) && a[0].start == b[0].start
    ensures a[0].end <= b[0].end
  {
    if a[0].start <= b[0].end < a[0].end {
      OpenIn(a, 0, b[0].end);
      var _ := OpenAt(b, b[0].end);
    }
  }

  lemma TailsSame(a: BoolTimeline, b: BoolTimeline)
    requires Normal(a) && Normal(b) && a != [] && b != [] && Instants(a) == Instants(b) && a[0] == b[0]
    ensures Instants(a[1..]) == Instants(b[1..])
  {
    forall t
      ensures t in Instants(a[1..]) <==> t in Instants(b[1..])
    {
      TailInstants(a, t);
      TailInstants(b, t);
    }
  }

  lemma SameFirst(a: BoolTimeline, b: BoolTimeline)
    requires Normal(a) && Normal(b) && a != [] && b != [] && Instants(a) == Instants(b)
    ensures a[0] == b[0]
  {
    HeadStart(a, b);
    HeadStart(b, a);
    HeadEnd(a, b);
    HeadEnd(b, a);
  }

  lemma TailInstants(a: BoolTimeline, t: int)
    requires Normal(a) && a != []
    ensures t in Instants(a[1..]) <==> t in Instants(a) && a[0].end <= t
  {
    if t in Instants(a[1..]) {
      var i := OpenAt(a[1..], t);
      OpenIn(a, i + 1, t);
    }
    if t in Instants(a) && a[0].end <= t {
      var i := OpenAt(a, t);
      OpenIn(a[1..], i - 1, t);
    }
  }

  // ----- Unbroken runs of instants -----

  lemma EndIsClosed(tl: BoolTimeline, i: nat)
    requires Tidy(tl) && i < |tl|
    ensures tl[i].end !in Instants(tl)
  {
    forall j | 0 <= j < |tl|
      ensures !(tl[j].start <= tl[i].end < tl[j].end)
    {
      assert i < j ==> tl[i].end < tl[j].start;
      assert j < i ==> tl[j].end < tl[i].start;
    }
    if tl[i].end in Instants(tl) {
      var _ := OpenAt(tl, tl[i].end);
    }
  }

  /** An unbroken run of instants lies in one interval of a tidy timeline. */
  lemma RunInOne(tl: BoolTimeline, lo: int, hi: int) returns (i: nat)
    requires Tidy(tl) && lo < hi && forall t :: t in Range(lo, hi) ==> t in Instants(tl)
    ensures i < |tl| && tl[i].value && tl[i].start <= lo && hi <= tl[i].end
  {
    assert lo in Range(lo, hi);
    i := OpenAt(tl, lo);
    assert tl[i].end < hi ==> tl[i].end in Range(lo, hi);
    EndIsClosed(tl, i);
  }
}
