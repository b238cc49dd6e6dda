/**
 When the order that a sort gives to ties shows in the merged list.  Intervals that start
 together with different values always show their order.  Of one value, only an interval that
 ends before it starts can, and does unless an interval that is still open takes it in.
 */
module Ties {
  import opened Sorting
  import opened Timeline
  import opened Merge

  // ----- The condition -----

  /** Intervals that start together have the same value. */
  ghost predicate Unmixed(s: BoolTimeline) {
    forall x, y :: x in s && y in s && x.start == y.start ==> x.value == y.value
  }

  /** The interval `z` of value `v` is still open, or ends, at `p`, and no interval of the other value
      starts between. */
  ghost predicate Bridges(s: BoolTimeline, z: BoolInterval, v: bool, p: int) {
    && z in s && z.value == v && z.start < p <= z.end
    && forall w :: w in s && w.value != v ==> !(z.start < w.start < p)
  }

  ghost predicate Bridged(s: BoolTimeline, v: bool, p: int) {
    exists z :: Bridges(s, z, v, p)
  }

  /** Reversed intervals that start together with a different interval are taken in by one before. */
  ghost predicate ReversedBridged(s: BoolTimeline) {
    forall x, y :: x in s && y in s && x.start == y.start && x != y && x.end < x.start ==> Bridged(s, x.value, x.start)
  }

  ghost predicate Orderless(s: BoolTimeline) {
    Unmixed(s) && ReversedBridged(s)
  }

  /** Well formed intervals need only have one value where they start together. */
  lemma WellFormedOrderless(s: BoolTimeline)
    requires WellFormed(s)
    ensures Orderless(s) <==> Unmixed(s)
  {
    forall x | x in s
      ensures x.start <= x.end
    {
      var i :| 0 <= i < |s| && s[i] == x;
    }
  }

  lemma OrderlessPermutation(a: BoolTimeline, b: BoolTimeline)
    requires (forall x :: x in a <==> x in b) && Orderless(a)
    ensures Orderless(b)
  {
    forall x, y | x in b && y in b && x.start == y.start && x != y && x.end < x.start
      ensures Bridged(b, x.value, x.start)
    {
      assert x in a && y in a;
      var z :| Bridges(a, z, x.value, x.start);
      assert Bridges(b, z, x.value, x.start);
    }
  }

  // ----- Neighbours that may change places -----

  /** After `current`, the intervals may come in either order. */
  predicate Swappable(current: BoolInterval, x: BoolInterval, y: BoolInterval) {
    || x == y
    || (x.start == y.start && x.value == y.value && x.start <= x.end && y.start <= y.end)
    || (x.start == y.start && x.value == y.value == current.value && x.start <= current.end)
  }

  lemma SwapHeads(x: BoolInterval, y: BoolInterval, rest: BoolTimeline)
    requires x == y || (x.start == y.start && x.value == y.value && x.start <= x.end && y.start <= y.end)
    ensures MergeFrom(x, [y] + rest) == MergeFrom(y, [x] + rest)
  {
    MergeNext(x, y, rest);
    MergeNext(y, x, rest);
  }

  lemma SwapNext(current: BoolInterval, x: BoolInterval, y: BoolInterval, rest: BoolTimeline)
    requires Swappable(current, x, y)
    ensures MergeFrom(current, [x] + ([y] + rest)) == MergeFrom(current, [y] + ([x] + rest))
  {
    MergeNext(current, x, [y] + rest);
    MergeNext(current, y, [x] + rest);
    if Joins(current, x) {
      MergeNext(Advance(current, x), y, rest);
      MergeNext(Advance(current, y), x, rest);
    } else if x != y {
      SwapHeads(x, y, rest);
    }
  }

  lemma SameAfter(current: BoolInterval, next: BoolInterval, p: BoolTimeline, q: BoolTimeline)
    requires MergeFrom(Advance(current, next), p) == MergeFrom(Advance(current, next), q)
    ensures MergeFrom(current, [next] + p) == MergeFrom(current, [next] + q)
  {
    MergeNext(current, next, p);
    MergeNext(current, next, q);
  }

  lemma PeelFirst<T>(before: seq<T>, middle: seq<T>, after: seq<T>)
    requires before != []
    ensures before + middle + after == [before[0]] + (before[1..] + middle + after)
    ensures before + after == [before[0]] + (before[1..] + after)
  {
  }

  lemma StillSwappable(current: BoolInterval, b: BoolInterval, y: BoolInterval, x: BoolInterval)
    requires Swappable(current, y, x) && b.start == x.start && b.value == x.value
    ensures Swappable(Advance(current, b), y, x)
  {
  }

  lemma {:induction false} MoveForward(current: BoolInterval, before: BoolTimeline, x: BoolInterval,
                                       after: BoolTimeline)
    requires forall b :: b in before ==> Swappable(current, b, x)
    ensures MergeFrom(current, before + [x] + after) == MergeFrom(current, [x] + (before + after))
    decreases |before|
  {
    if before == [] {
      assert before + [x] + after == [x] + (before + after);
    } else {
      var b, others := before[0], before[1..];
      assert b in before;
      PeelFirst(before, [x], after);
      forall y | y in others
        ensures Swappable(Advance(current, b), y, x)
      {
        StillSwappable(current, b, y, x);
      }
      MoveForward(Advance(current, b), others, x, after);
      SameAfter(current, b, others + [x] + after, [x] + (others + after));
      SwapNext(current, b, x, others + after);
    }
  }

  /** At the front, where nothing is open yet. */
  lemma MoveToFront(before: BoolTimeline, x: BoolInterval, after: BoolTimeline)
    requires forall b :: b in before ==>
               b == x || (b.start == x.start && b.value == x.value && b.start <= b.end && x.start <= x.end)
    ensures MergeSorted(before + [x] + after) == MergeFrom(x, before + after)
  {
    if before == [] {
      assert before + [x] + after == [x] + (before + after);
    } else {
      var b, others := before[0], before[1..];
      assert b in before;
      PeelFirst(before, [x], after);
      MoveForward(b, others, x, after);
      SwapHeads(b, x, others + after);
    }
  }

  // ----- What is open when the pass arrives -----

  /** Everything met is in order before `next`. */
  ghost predicate InOrder(met: BoolTimeline, next: BoolInterval) {
    forall z :: z in met ==> z.start <= next.start
  }

  /** An interval of `met` is still good at `p`: it reaches it, and none of the other value starts after it. */
  ghost predicate Standing(met: BoolTimeline, z: BoolInterval, p: int) {
    z in met && p <= z.end && forall w :: w in met && w.value != z.value ==> w.start <= z.start
  }

  /** The open interval takes in everything that is still standing. */
  ghost predicate Covers(met: BoolTimeline, current: BoolInterval, p: int) {
    forall z :: Standing(met, z, p) ==> current.value == z.value && z.end <= current.end
  }

  lemma CoversNext(met: BoolTimeline, current: BoolInterval, p: int, next: BoolInterval)
    requires Covers(met, current, p) && p <= next.start && InOrder(met, next) && Unmixed(met + [next])
    ensures Covers(met + [next], Advance(current, next), next.start)
  {
    var more := met + [next];
    assert next in more;
    forall z | Standing(more, z, next.start)
      ensures Advance(current, next).value == z.value && z.end <= Advance(current, next).end
    {
      if z != next {
        assert z in met;
        assert forall w :: w in met ==> w in more;
        assert Standing(met, z, p);
      }
    }
  }

  /** A bridge is still standing when the intervals at `p` are met. */
  lemma BridgeStands(met: BoolTimeline, a: BoolTimeline, current: BoolInterval, q: int, x: BoolInterval)
    requires Covers(met, current, q) && q <= x.start && x in a && Unmixed(met + a)
    requires (forall z :: z in met ==> z.start <= x.start) && (forall z :: z in a ==> x.start <= z.start)
    requires Bridged(met + a, x.value, x.start)
    ensures current.value == x.value && x.start <= current.end
  {
    var z :| Bridges(met + a, z, x.value, x.start);
    assert z in met;
    assert x in met + a;
    forall w | w in met && w.value != z.value
      ensures w.start <= z.start
    {
      assert w in met + a;
    }
    assert Standing(met, z, q);
  }

  /** So all intervals that start with the next one may change places. */
  lemma GroupSwappable(met: BoolTimeline, a: BoolTimeline, current: BoolInterval, q: int, b: BoolInterval)
    requires a != [] && SortedBy(IntervalStart, a) && Covers(met, current, q) && q <= a[0].start
    requires InOrder(met, a[0]) && Orderless(met + a) && b in a && b.start == a[0].start
    ensures Swappable(current, b, a[0])
  {
    var x, s := a[0], met + a;
    assert x in a && x in s && b in s;
    if b != x && (b.end < b.start || x.end < x.start) {
      assert Bridged(s, x.value, x.start);
      forall z | z in a
        ensures x.start <= z.start
      {
        HeadIsLeast(a, z);
      }
      BridgeStands(met, a, current, q, x);
    }
  }

  lemma SortedWithout(before: BoolTimeline, x: BoolInterval, after: BoolTimeline)
    requires SortedBy(IntervalStart, before + [x] + after)
    ensures SortedBy(IntervalStart, before + after)
    ensures forall b :: b in before ==> b.start <= x.start
  {
    var s, r := before + [x] + after, before + after;
    assert s[|before|] == x;
    forall i, j | 0 <= i < j < |r|
      ensures IntervalStart(r[i]) <= IntervalStart(r[j])
    {
      assert r[i] == s[if i < |before| then i else i + 1] && r[j] == s[if j < |before| then j else j + 1];
    }
    forall b | b in before
      ensures b.start <= x.start
    {
      var i :| 0 <= i < |before| && before[i] == b;
      assert IntervalStart(s[i]) <= IntervalStart(s[|before|]);
    }
  }

  lemma HeadIsLeast(a: BoolTimeline, x: BoolInterval)
    requires SortedBy(IntervalStart, a) && x in a
    ensures a[0].start <= x.start
  {
    var i :| 0 <= i < |a| && a[i] == x;
    assert i > 0 ==> IntervalStart(a[0]) <= IntervalStart(a[i]);
  }

  /** The head of one sorted arrangement, found in another: only intervals that start with it come first. */
  lemma HeadInOther(a: BoolTimeline, b: BoolTimeline) returns (before: BoolTimeline, after: BoolTimeline)
    requires SortedBy(IntervalStart, a) && SortedBy(IntervalStart, b) && multiset(a) == multiset(b) && a != []
    ensures b == before + [a[0]] + after
    ensures forall x :: x in before ==> x in a && x.start == a[0].start
    ensures multiset(a[1..]) == multiset(before + after) && SortedBy(IntervalStart, before + after)
  {
    PermutationFacts(a, b);
    assert a[0] in a && a[0] in b;
    before, after := SplitAt(b, a[0]);
    SortedWithout(before, a[0], after);
    forall x | x in before
      ensures x in a && x.start == a[0].start
    {
      assert x in b;
      HeadIsLeast(a, x);
    }
    TakeHead(a, before, after);
  }

  lemma TakeHead(a: BoolTimeline, before: BoolTimeline, after: BoolTimeline)
    requires a != [] && multiset(a) == multiset(before + [a[0]] + after)
    ensures multiset(a[1..]) == multiset(before + after)
  {
    assert a == [a[0]] + a[1..];
    MiddleOut(before, [a[0]], after);
    SameRest(multiset(a[1..]), multiset(before + after), a[0]);
  }

  lemma SortedRest(a: BoolTimeline)
    requires a != [] && SortedBy(IntervalStart, a)
    ensures SortedBy(IntervalStart, a[1..]) && (a[1..] != [] ==> a[0].start <= a[1..][0].start)
  {
    assert |a| > 1 ==> IntervalStart(a[0]) <= IntervalStart(a[1]);
  }

  lemma {:induction false} TieOrder(met: BoolTimeline, current: BoolInterval, q: int, a: BoolTimeline, b: BoolTimeline)
    requires SortedBy(IntervalStart, a) && SortedBy(IntervalStart, b) && multiset(a) == multiset(b)
    requires Covers(met, current, q) && Orderless(met + a)
    requires a != [] ==> q <= a[0].start && InOrder(met, a[0])
    ensures MergeFrom(current, a) == MergeFrom(current, b)
    decreases |a|
  {
    PermutationFacts(a, b);
    if a != [] {
      var x, others := a[0], a[1..];
      var before, after := HeadInOther(a, b);
      forall y | y in before
        ensures Swappable(current, y, x)
      {
        GroupSwappable(met, a, current, q, y);
      }
      MoveForward(current, before, x, after);
      SortedRest(a);
      NextRound(met, current, q, a);
      TieOrder(met + [x], Advance(current, x), x.start, others, before + after);
      SameAfter(current, x, others, before + after);
      assert a == [x] + others;
    }
  }

  lemma NextRound(met: BoolTimeline, current: BoolInterval, q: int, a: BoolTimeline)
    requires a != [] && SortedBy(IntervalStart, a) && Covers(met, current, q) && Orderless(met + a)
    requires q <= a[0].start && InOrder(met, a[0])
    ensures Covers(met + [a[0]], Advance(current, a[0]), a[0].start) && Orderless(met + [a[0]] + a[1..])
    ensures a[1..] != [] ==> InOrder(met + [a[0]], a[1..][0])
  {
    assert met + a == met + [a[0]] + a[1..];
    assert forall z :: z in met + [a[0]] ==> z in met + a;
    CoversNext(met, current, q, a[0]);
    SortedRest(a);
  }

  lemma FirstRound(a: BoolTimeline)
    requires a != [] && SortedBy(IntervalStart, a) && Orderless(a)
    ensures Covers([a[0]], a[0], a[0].start) && Orderless([a[0]] + a[1..])
    ensures a[1..] != [] ==> InOrder([a[0]], a[1..][0])
  {
    assert [a[0]] + a[1..] == a;
    SortedRest(a);
  }

  /** All sorted arrangements merge into the same list. */
  lemma TiesHidden(a: BoolTimeline, b: BoolTimeline)
    requires SortedBy(IntervalStart, a) && SortedBy(IntervalStart, b) && multiset(a) == multiset(b) && Orderless(a)
    ensures MergeSorted(a) == MergeSorted(b)
  {
    PermutationFacts(a, b);
    if a != [] {
      var x, others := a[0], a[1..];
      var before, after := HeadInOther(a, b);
      FirstGroup(a);
      MoveToFront(before, x, after);
      FirstRound(a);
      SortedRest(a);
      TieOrder([x], x, x.start, others, before + after);
    }
  }

  /** Nothing bridges to the first start. */
  lemma FirstGroup(a: BoolTimeline)
    requires a != [] && SortedBy(IntervalStart, a) && Orderless(a)
    ensures forall b :: b in a && b.start == a[0].start ==>
              b == a[0] || (b.value == a[0].value && b.start <= b.end && a[0].start <= a[0].end)
  {
    forall z | z in a
      ensures a[0].start <= z.start
    {
      HeadIsLeast(a, z);
    }
    assert a[0] in a;
    assert forall v :: !Bridged(a, v, a[0].start);
  }

  // ----- Ties that show -----

  /** What is open after the pass over `front`. */
  function Open(current: BoolInterval, front: BoolTimeline): BoolInterval
    decreases |front|
  {
    if front == [] then current else Open(Advance(current, front[0]), front[1..])
  }

  /** Where nothing joins, the merge falls in two. */
  lemma {:induction false} CutFrom(current: BoolInterval, front: BoolTimeline, y: BoolInterval, rest: BoolTimeline)
    requires !Joins(Open(current, front), y)
    ensures MergeFrom(current, front + [y] + rest) == MergeFrom(current, front) + MergeFrom(y, rest)
    decreases |front|
  {
    if front == [] {
      assert front + [y] + rest == [y] + rest;
      MergeNext(current, y, rest);
    } else {
      var f, others := front[0], front[1..];
      PeelFirst(front, [y], rest);
      assert front == [f] + others;
      MergeNext(current, f, others + [y] + rest);
      MergeNext(current, f, others);
      CutFrom(Advance(current, f), others, y, rest);
    }
  }

  lemma CutSorted(front: BoolTimeline, y: BoolInterval, rest: BoolTimeline)
    requires front != [] ==> !Joins(Open(front[0], front[1..]), y)
    ensures MergeSorted(front + [y] + rest) == MergeSorted(front) + MergeFrom(y, rest)
  {
    if front == [] {
      assert front + [y] + rest == [y] + rest;
    } else {
      PeelFirst(front, [y], rest);
      CutFrom(front[0], front[1..], y, rest);
    }
  }

  lemma {:induction false} OpenLast(current: BoolInterval, front: BoolTimeline, x: BoolInterval)
    ensures Open(current, front + [x]) == Advance(Open(current, front), x)
    decreases |front|
  {
    if front != [] {
      OpenLast(Advance(current, front[0]), front[1..], x);
      assert (front + [x])[1..] == front[1..] + [x];
    }
  }

  lemma {:induction false} MergeStarts(current: BoolInterval, rest: BoolTimeline, start: int)
    requires forall z :: z in rest ==> z.start > start
    ensures var r := MergeFrom(current, rest);
            && r != [] && r[0].start == current.start && r[0].value == current.value
            && forall i :: 1 <= i < |r| ==> r[i].start > start
    decreases |rest|
  {
    if rest != [] {
      assert rest == [rest[0]] + rest[1..];
      MergeNext(current, rest[0], rest[1..]);
      MergeStarts(Advance(current, rest[0]), rest[1..], start);
    }
  }

  /** Of intervals that start together, the value of the one sorted last shows in the result. */
  lemma LastOfTieShows(front: BoolTimeline, x: BoolInterval, y: BoolInterval, rest: BoolTimeline)
    requires x.start == y.start && x.value != y.value && forall z :: z in rest ==> z.start > x.start
    ensures MergeSorted(front + [x, y] + rest) != MergeSorted(front + [y, x] + rest)
  {
    CutAtChange(front, x, y, rest);
    CutAtChange(front, y, x, rest);
    MergeStarts(x, rest, x.start);
    MergeStarts(y, rest, x.start);
    LastStart(MergeSorted(front + [x]), MergeFrom(y, rest), MergeSorted(front + [y]), MergeFrom(x, rest), x.start);
  }

  lemma CutAtChange(front: BoolTimeline, x: BoolInterval, y: BoolInterval, rest: BoolTimeline)
    requires x.value != y.value
    ensures MergeSorted(front + [x, y] + rest) == MergeSorted(front + [x]) + MergeFrom(y, rest)
  {
    if front != [] {
      OpenLast(front[0], front[1..], x);
      assert (front + [x])[1..] == front[1..] + [x];
    }
    CutSorted(front + [x], y, rest);
    assert front + [x] + [y] + rest == front + [x, y] + rest;
  }

  lemma LastStart(m: BoolTimeline, p: BoolTimeline, n: BoolTimeline, q: BoolTimeline, start: int)
    requires p != [] && p[0].start == start && forall i :: 1 <= i < |p| ==> p[i].start > start
    requires q != [] && q[0].start == start && forall i :: 1 <= i < |q| ==> q[i].start > start
    requires p[0].value != q[0].value
    ensures m + p != n + q
  {
    var l, k := m + p, n + q;
    assert l[|m|] == p[0] && k[|n|] == q[0];
    if |m| < |n| < |l| {
      assert l[|n|] == p[|n| - |m|];
    } else if |n| < |m| < |k| {
      assert k[|m|] == q[|m| - |n|];
    }
  }

  lemma MixedShows(s: BoolTimeline) returns (r1: BoolTimeline, r2: BoolTimeline)
    requires !Unmixed(s)
    ensures IsSortOf(IntervalStart, s, r1) && IsSortOf(IntervalStart, s, r2) && MergeSorted(r1) != MergeSorted(r2)
  {
    var x, y :| x in s && y in s && x.start == y.start && x.value != y.value;
    var front, rest := ArrangeLast(IntervalStart, s, x, y);
    forall z | z in rest
      ensures z.start > x.start
    {
      assert IntervalStart(z) > IntervalStart(x);
    }
    LastOfTieShows(front, x, y, rest);
    r1, r2 := front + [x, y] + rest, front + [y, x] + rest;
  }

  /** The end of what is open is that of an interval that is still standing. */
  ghost predicate OpenedBy(met: BoolTimeline, current: BoolInterval) {
    exists z :: z in met && z.value == current.value && z.end == current.end
                && forall w :: w in met && w.value != z.value ==> w.start <= z.start
  }

  lemma OpenedByNext(met: BoolTimeline, current: BoolInterval, next: BoolInterval)
    requires OpenedBy(met, current) && InOrder(met, next)
    ensures OpenedBy(met + [next], Advance(current, next))
  {
    var z :| z in met && z.value == current.value && z.end == current.end
             && forall w :: w in met && w.value != z.value ==> w.start <= z.start;
    var opener := if Joins(current, next) && next.end <= current.end then z else next;
    assert opener in met + [next];
    assert forall w :: w in met + [next] && w.value != opener.value ==> w.start <= opener.start;
  }

  lemma MetNext<T>(met: seq<T>, front: seq<T>)
    requires front != []
    ensures met + [front[0]] + front[1..] == met + front
  {
  }

  lemma {:induction false} OpenOpened(met: BoolTimeline, current: BoolInterval, front: BoolTimeline)
    requires OpenedBy(met, current) && SortedBy(IntervalStart, front)
    requires front != [] ==> InOrder(met, front[0])
    ensures OpenedBy(met + front, Open(current, front))
    decreases |front|
  {
    if front == [] {
      assert met + front == met;
    } else {
      OpenedByNext(met, current, front[0]);
      SortedRest(front);
      OpenOpened(met + [front[0]], Advance(current, front[0]), front[1..]);
      MetNext(met, front);
    }
  }

  /** Without a bridge nothing joins the first intervals at their start. */
  lemma NothingJoins(s: BoolTimeline, front: BoolTimeline, x: BoolInterval)
    requires SortedBy(IntervalStart, front) && x in s && !Bridged(s, x.value, x.start)
    requires forall z :: z in front <==> z in s && z.start < x.start
    ensures front != [] ==> !Joins(Open(front[0], front[1..]), x)
  {
    if front != [] {
      var current := Open(front[0], front[1..]);
      assert OpenedBy([front[0]], front[0]) by {
        assert front[0] in [front[0]];
      }
      SortedRest(front);
      OpenOpened([front[0]], front[0], front[1..]);
      assert [front[0]] + front[1..] == front;
      var z :| z in front && z.value == current.value && z.end == current.end
               && forall w :: w in front && w.value != z.value ==> w.start <= z.start;
      if Joins(current, x) {
        assert Bridges(s, z, x.value, x.start);
      }
    }
  }

  lemma ReversedHeads(x: BoolInterval, y: BoolInterval, rest: BoolTimeline)
    requires x.start == y.start && x.value == y.value && x != y && x.end < x.start
    ensures MergeFrom(x, [y] + rest) != MergeFrom(y, [x] + rest)
  {
    MergeNext(x, y, rest);
    MergeNext(y, x, rest);
    if Joins(y, x) {
      assert Advance(y, x) == y;
      assert |[x] + MergeFrom(y, rest)| == |MergeFrom(y, rest)| + 1;
    } else {
      assert ([x] + MergeFrom(y, rest))[0] == x && ([y] + MergeFrom(x, rest))[0] == y;
    }
  }

  lemma SameFront(e: BoolTimeline, p: BoolTimeline, q: BoolTimeline)
    requires p != q
    ensures e + p != e + q
  {
    assert (e + p)[|e|..] == p && (e + q)[|e|..] == q;
  }

  /** First among those that start with it, the reversed interval shows its place. */
  lemma ReversedFirst(s: BoolTimeline, front: BoolTimeline, x: BoolInterval, y: BoolInterval, rest: BoolTimeline)
    requires x in s && x.start == y.start && x.value == y.value && x != y && x.end < x.start
    requires !Bridged(s, x.value, x.start) && SortedBy(IntervalStart, front)
    requires forall z :: z in front <==> z in s && z.start < x.start
    ensures MergeSorted(front + [x] + ([y] + rest)) != MergeSorted(front + [y] + ([x] + rest))
  {
    NothingJoins(s, front, x);
    CutSorted(front, x, [y] + rest);
    CutSorted(front, y, [x] + rest);
    ReversedHeads(x, y, rest);
    SameFront(MergeSorted(front), MergeFrom(x, [y] + rest), MergeFrom(y, [x] + rest));
  }

  lemma Pair<T>(front: seq<T>, x: T, y: T, rest: seq<T>)
    ensures front + [x, y] + rest == front + [x] + ([y] + rest)
  {
  }

  lemma ReversedShows(s: BoolTimeline) returns (r1: BoolTimeline, r2: BoolTimeline)
    requires Unmixed(s) && !ReversedBridged(s)
    ensures IsSortOf(IntervalStart, s, r1) && IsSortOf(IntervalStart, s, r2) && MergeSorted(r1) != MergeSorted(r2)
  {
    var x, y :| x in s && y in s && x.start == y.start && x != y && x.end < x.start && !Bridged(s, x.value, x.start);
    var front, rest := ArrangeFirst(IntervalStart, s, x, y);
    forall z
      ensures z in front <==> z in s && z.start < x.start
    {
      assert z in front <==> z in s && IntervalStart(z) < IntervalStart(x);
    }
    ReversedFirst(s, front, x, y, rest);
    Pair(front, x, y, rest);
    Pair(front, y, x, rest);
    r1, r2 := front + [x, y] + rest, front + [y, x] + rest;
  }

  lemma TwoArrangements(s: BoolTimeline) returns (r1: BoolTimeline, r2: BoolTimeline)
    requires !Orderless(s)
    ensures IsSortOf(IntervalStart, s, r1) && IsSortOf(IntervalStart, s, r2) && MergeSorted(r1) != MergeSorted(r2)
  {
    if Unmixed(s) {
      r1, r2 := ReversedShows(s);
    } else {
      r1, r2 := MixedShows(s);
    }
  }

  /** When ties show.  All sorted arrangements of the intervals merge into the same list if and only if no
      two of them start together with different values, and every reversed one that starts together
      with a different interval is taken in by an interval of its value that starts before it and
      reaches it, with none of the other value starting between the two. */
  lemma WhenTiesShow(s: BoolTimeline)
    ensures (forall r1, r2 :: IsSortOf(IntervalStart, s, r1) && IsSortOf(IntervalStart, s, r2) ==>
               MergeSorted(r1) == MergeSorted(r2))
            <==> Orderless(s)
  {
    if Orderless(s) {
      forall r1, r2 | IsSortOf(IntervalStart, s, r1) && IsSortOf(IntervalStart, s, r2)
        ensures MergeSorted(r1) == MergeSorted(r2)
      {
        PermutationFacts(s, r1);
        OrderlessPermutation(s, r1);
        TiesHidden(r1, r2);
      }
    } else {
      var r1, r2 := TwoArrangements(s);
    }
  }
}
