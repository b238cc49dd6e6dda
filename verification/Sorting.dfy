/**
 `sort.Slice` as the timeline code uses it: elements are compared by a time key and ties may
 end up in any order.  The library routine itself is not modelled.  It is a parameter: any
 function that returns a permutation of its argument, ascending in the key.
 */
module Sorting {

  ghost predicate SortedBy<T>(key: T -> int, s: seq<T>) {
    forall i, j :: 0 <= i < j < |s| ==> key(s[i]) <= key(s[j])
  }

  ghost predicate IsSortOf<T>(key: T -> int, s: seq<T>, r: seq<T>) {
    multiset(r) == multiset(s) && SortedBy(key, r)
  }

  ghost predicate Sorts<T(!new)>(key: T -> int, f: seq<T> -> seq<T>) {
    forall s :: IsSortOf(key, s, f(s))
  }

  /** The facts about a permutation that the rest of the project uses. */
  lemma PermutationFacts<T>(s: seq<T>, r: seq<T>)
    requires multiset(r) == multiset(s)
    ensures |r| == |s|
    ensures forall x :: x in r <==> x in s
  {
    assert |multiset(r)| == |r| && |multiset(s)| == |s|;
    forall x
      ensures x in r <==> x in s
    {
      assert x in r <==> x in multiset(r);
      assert x in s <==> x in multiset(s);
    }
  }

  /** Sorted permutations of one another start with the same element when equal keys mean equal elements. */
  lemma SameHead<T>(key: T -> int, a: seq<T>, b: seq<T>)
    requires SortedBy(key, a) && SortedBy(key, b) && multiset(a) == multiset(b) && a != [] && b != []
    requires forall x, y :: x in a && y in a && key(x) == key(y) ==> x == y
    ensures a[0] == b[0]
  {
    PermutationFacts(a, b);
    assert a[0] in b && b[0] in a;
    var i :| 0 <= i < |b| && b[i] == a[0];
    var j :| 0 <= j < |a| && a[j] == b[0];
    assert key(a[0]) <= key(a[j]) && key(b[0]) <= key(b[i]);
  }

  lemma DropHead<T>(a: seq<T>, b: seq<T>)
    requires multiset(a) == multiset(b) && a != [] && b != [] && a[0] == b[0]
    ensures a == [a[0]] + a[1..] && b == [a[0]] + b[1..]
    ensures multiset(a[1..]) == multiset(b[1..])
  {
    assert a == [a[0]] + a[1..] && b == [a[0]] + b[1..];
    assert multiset(a) == multiset(a[1..]) + multiset{a[0]};
    assert multiset(b) == multiset(b[1..]) + multiset{a[0]};
    SameRest(multiset(a[1..]), multiset(b[1..]), a[0]);
  }

  /** A sorted permutation is unique as soon as equal keys mean equal elements. */
  lemma {:induction false} SortUnique<T>(key: T -> int, a: seq<T>, b: seq<T>)
    requires SortedBy(key, a) && SortedBy(key, b) && multiset(a) == multiset(b)
    requires forall x, y :: x in a && y in a && key(x) == key(y) ==> x == y
    ensures a == b
    decreases |a|
  {
    PermutationFacts(a, b);
    if a != [] {
      SameHead(key, a, b);
      DropHead(a, b);
      forall x, y | x in a[1..] && y in a[1..] && key(x) == key(y)
        ensures x == y
      {
        assert x in a && y in a;
      }
      SortUnique(key, a[1..], b[1..]);
    }
  }

  // ----- Collecting items from each element, as the filtering and mapping loops do -----

  function Collect<T, U>(f: T -> seq<U>, s: seq<T>): seq<U> {
    if s == [] then [] else Collect(f, s[..|s| - 1]) + f(s[|s| - 1])
  }

  lemma CollectLast<T, U>(f: T -> seq<U>, init: seq<T>, x: T)
    ensures Collect(f, init + [x]) == Collect(f, init) + f(x)
  {
    assert (init + [x])[..|init|] == init;
  }

  lemma Regroup<T>(a: seq<T>, b: seq<T>, c: seq<T>)
    ensures a + b + c == a + (b + c)
  {
  }

  lemma {:induction false} CollectConcat<T, U>(f: T -> seq<U>, a: seq<T>, b: seq<T>)
    ensures Collect(f, a + b) == Collect(f, a) + Collect(f, b)
    decreases |b|
  {
    if b == [] {
      assert a + b == a;
    } else {
      var init, x := b[..|b| - 1], b[|b| - 1];
      assert b == init + [x];
      CollectConcat(f, a, init);
      CollectLast(f, init, x);
      CollectLast(f, a + init, x);
      Regroup(a, init, [x]);
      Regroup(Collect(f, a), Collect(f, init), f(x));
    }
  }

  lemma {:induction false} CollectMember<T, U>(f: T -> seq<U>, s: seq<T>, u: U)
    ensures u in Collect(f, s) <==> exists x :: x in s && u in f(x)
    decreases |s|
  {
    if s != [] {
      var init, last := s[..|s| - 1], s[|s| - 1];
      CollectMember(f, init, u);
      assert forall x :: x in s <==> x in init || x == last;
    }
  }

  /** Collecting from a permutation collects a permutation. */
  lemma {:induction false} CollectPermutation<T, U>(f: T -> seq<U>, a: seq<T>, b: seq<T>)
    requires multiset(a) == multiset(b)
    ensures multiset(Collect(f, a)) == multiset(Collect(f, b))
    decreases |a|
  {
    PermutationFacts(a, b);
    if a != [] {
      var init, x := a[..|a| - 1], a[|a| - 1];
      assert a == init + [x] && x in b;
      var before, after := SplitAt(b, x);
      Extract(init, x, before, after, a, b);
      CollectPermutation(f, init, before + after);
      CollectMiddle(f, before, x, after);
    }
  }

  lemma SplitAt<T>(s: seq<T>, x: T) returns (before: seq<T>, after: seq<T>)
    requires x in s
    ensures s == before + [x] + after
  {
    var j :| 0 <= j < |s| && s[j] == x;
    before, after := s[..j], s[j + 1..];
  }

  lemma MiddleOut<T>(before: seq<T>, middle: seq<T>, after: seq<T>)
    ensures multiset(before + middle + after) == multiset(before + after) + multiset(middle)
  {
    assert multiset(before + middle + after) == multiset(before + middle) + multiset(after);
    assert multiset(before + middle) == multiset(before) + multiset(middle);
    assert multiset(before + after) == multiset(before) + multiset(after);
  }

  lemma CollectSplit<T, U>(f: T -> seq<U>, before: seq<T>, x: T, after: seq<T>)
    ensures Collect(f, before + [x] + after) == Collect(f, before) + f(x) + Collect(f, after)
  {
    CollectConcat(f, before + [x], after);
    assert (before + [x])[..|before|] == before;
  }

  lemma CollectMiddle<T, U>(f: T -> seq<U>, before: seq<T>, x: T, after: seq<T>)
    ensures multiset(Collect(f, before + [x] + after)) == multiset(Collect(f, before + after)) + multiset(f(x))
  {
    CollectSplit(f, before, x, after);
    CollectConcat(f, before, after);
    MiddleOut(Collect(f, before), f(x), Collect(f, after));
  }

  /** Taking the same element out of two permutations leaves permutations. */
  lemma Extract<T>(init: seq<T>, x: T, before: seq<T>, after: seq<T>, a: seq<T>, b: seq<T>)
    requires a == init + [x] && b == before + [x] + after && multiset(a) == multiset(b)
    ensures multiset(init) == multiset(before + after)
  {
    MiddleOut(before, [x], after);
    assert multiset(a) == multiset(init) + multiset{x};
    SameRest(multiset(init), multiset(before + after), x);
  }

  lemma SameRest<T>(a: multiset<T>, b: multiset<T>, x: T)
    requires a + multiset{x} == b + multiset{x}
    ensures a == b
  {
    assert a == (a + multiset{x}) - multiset{x};
    assert b == (b + multiset{x}) - multiset{x};
  }

  // ----- Sorting functions exist -----

  /** Where `x` belongs in a sorted list. */
  function Place<T>(key: T -> int, x: T, s: seq<T>): (i: nat)
    ensures i <= |s| && (i > 0 ==> key(s[i - 1]) <= key(x)) && (i < |s| ==> key(x) < key(s[i]))
  {
    if s == [] then 0
    else if key(s[|s| - 1]) <= key(x) then |s|
    else Place(key, x, s[..|s| - 1])
  }

  function InsertionSort<T>(key: T -> int, s: seq<T>): seq<T> {
    if s == [] then []
    else
      var sorted := InsertionSort(key, s[..|s| - 1]);
      var i := Place(key, s[|s| - 1], sorted);
      sorted[..i] + [s[|s| - 1]] + sorted[i..]
  }

  lemma InsertSorted<T>(key: T -> int, x: T, s: seq<T>, i: nat)
    requires SortedBy(key, s) && i <= |s|
    requires (i > 0 ==> key(s[i - 1]) <= key(x)) && (i < |s| ==> key(x) <= key(s[i]))
    ensures SortedBy(key, s[..i] + [x] + s[i..])
  {
    var r := s[..i] + [x] + s[i..];
    forall j, k | 0 <= j < k < |r|
      ensures key(r[j]) <= key(r[k])
    {
      assert r[j] == if j < i then s[j] else if j == i then x else s[j - 1];
      assert r[k] == if k < i then s[k] else if k == i then x else s[k - 1];
    }
  }

  lemma InsertElements<T>(x: T, s: seq<T>, i: nat)
    requires i <= |s|
    ensures multiset(s[..i] + [x] + s[i..]) == multiset(s) + multiset{x}
  {
    assert s == s[..i] + s[i..];
    assert multiset(s) == multiset(s[..i]) + multiset(s[i..]);
  }

  lemma LastElement<T>(s: seq<T>)
    requires s != []
    ensures multiset(s) == multiset(s[..|s| - 1]) + multiset{s[|s| - 1]}
  {
    assert s == s[..|s| - 1] + [s[|s| - 1]];
  }

  lemma {:induction false} InsertionSorts<T>(key: T -> int, s: seq<T>)
    ensures IsSortOf(key, s, InsertionSort(key, s))
    decreases |s|
  {
    if s != [] {
      var init, x := s[..|s| - 1], s[|s| - 1];
      InsertionSorts(key, init);
      var sorted := InsertionSort(key, init);
      var i := Place(key, x, sorted);
      InsertSorted(key, x, sorted, i);
      InsertElements(x, sorted, i);
      LastElement(s);
    }
  }

  /** A sorting function, to show that there are some. */
  lemma SortExists<T(!new)>(key: T -> int)
    ensures Sorts(key, (s: seq<T>) => InsertionSort(key, s))
  {
    forall s: seq<T>
      ensures IsSortOf(key, s, InsertionSort(key, s))
    {
      InsertionSorts(key, s);
    }
  }

  lemma WithoutTwo<T>(s: seq<T>, x: T, y: T) returns (others: seq<T>)
    requires x in s && y in s && x != y
    ensures multiset(s) == multiset(others) + multiset{x} + multiset{y}
  {
    var before, after := SplitAt(s, x);
    MiddleOut(before, [x], after);
    assert y in multiset(before + after);
    others := Without(before + after, y);
  }

  lemma Without<T>(s: seq<T>, y: T) returns (others: seq<T>)
    requires y in s
    ensures multiset(s) == multiset(others) + multiset{y}
  {
    var before, after := SplitAt(s, y);
    MiddleOut(before, [y], after);
    others := before + after;
  }

  /** Where `x` may stand in a sorted arrangement as the last one with its key. */
  lemma PlaceLast<T>(key: T -> int, x: T, others: seq<T>) returns (front: seq<T>, rest: seq<T>)
    ensures multiset(front + rest) == multiset(others)
    ensures SortedBy(key, front + [x] + rest)
    ensures forall z :: z in rest ==> key(z) > key(x)
  {
    var sorted := InsertionSort(key, others);
    InsertionSorts(key, others);
    var i := Place(key, x, sorted);
    front, rest := sorted[..i], sorted[i..];
    PlaceAfter(key, x, sorted, i);
    InsertSorted(key, x, sorted, i);
    assert front + rest == sorted;
  }

  lemma PlaceAfter<T>(key: T -> int, x: T, s: seq<T>, i: nat)
    requires SortedBy(key, s) && i <= |s| && (i < |s| ==> key(x) < key(s[i]))
    ensures forall z :: z in s[i..] ==> key(z) > key(x)
  {
    forall z | z in s[i..]
      ensures key(z) > key(x)
    {
      var j :| 0 <= j < |s[i..]| && s[i..][j] == z;
      assert s[i + j] == z && (j > 0 ==> key(s[i]) <= key(s[i + j]));
    }
  }

  lemma TwoForOne<T>(key: T -> int, x: T, y: T, z: T, front: seq<T>, rest: seq<T>)
    requires SortedBy(key, front + [x] + rest) && key(x) == key(y) == key(z)
    ensures SortedBy(key, front + [y, z] + rest)
  {
    var s, r := front + [x] + rest, front + [y, z] + rest;
    forall j, k | 0 <= j < k < |r|
      ensures key(r[j]) <= key(r[k])
    {
      var j', k' := if j <= |front| then j else j - 1, if k <= |front| then k else k - 1;
      assert key(r[j]) == key(s[j']) && key(r[k]) == key(s[k']);
      assert j' < k' ==> key(s[j']) <= key(s[k']);
    }
  }

  lemma TwoElements<T>(front: seq<T>, x: T, y: T, rest: seq<T>)
    ensures multiset(front + [x, y] + rest) == multiset(front + rest) + multiset{x} + multiset{y}
  {
    MiddleOut(front, [x, y], rest);
    assert multiset([x, y]) == multiset{x} + multiset{y};
  }

  /** Some sorted arrangement has two chosen elements of one key side by side, in either order, as the
      last ones with that key. */
  lemma ArrangeLast<T>(key: T -> int, s: seq<T>, x: T, y: T) returns (front: seq<T>, rest: seq<T>)
    requires x in s && y in s && x != y && key(x) == key(y)
    ensures IsSortOf(key, s, front + [x, y] + rest) && IsSortOf(key, s, front + [y, x] + rest)
    ensures forall z :: z in rest ==> key(z) > key(x)
  {
    var others := WithoutTwo(s, x, y);
    front, rest := PlaceLast(key, x, others);
    TwoForOne(key, x, x, y, front, rest);
    TwoForOne(key, x, y, x, front, rest);
    TwoElements(front, x, y, rest);
    TwoElements(front, y, x, rest);
  }

  /** Where the elements with at least the given key begin in a sorted list. */
  function FirstPlace<T>(key: T -> int, k: int, s: seq<T>): (i: nat)
    ensures i <= |s| && (i > 0 ==> key(s[i - 1]) < k) && (i < |s| ==> k <= key(s[i]))
  {
    if s == [] then 0
    else if key(s[|s| - 1]) < k then |s|
    else FirstPlace(key, k, s[..|s| - 1])
  }

  lemma PlaceBefore<T>(key: T -> int, k: int, s: seq<T>, i: nat)
    requires SortedBy(key, s) && i <= |s| && (i > 0 ==> key(s[i - 1]) < k) && (i < |s| ==> k <= key(s[i]))
    ensures forall z :: z in s[..i] ==> key(z) < k
    ensures forall z :: z in s[i..] ==> k <= key(z)
  {
    forall z | z in s[..i]
      ensures key(z) < k
    {
      var j :| 0 <= j < i && s[..i][j] == z;
      assert j < i - 1 ==> key(s[j]) <= key(s[i - 1]);
    }
    forall z | z in s[i..]
      ensures k <= key(z)
    {
      var j :| 0 <= j < |s[i..]| && s[i..][j] == z;
      assert s[i + j] == z && (j > 0 ==> key(s[i]) <= key(s[i + j]));
    }
  }

  lemma SortedPrefix<T>(key: T -> int, s: seq<T>, i: nat)
    requires SortedBy(key, s) && i <= |s|
    ensures SortedBy(key, s[..i])
  {
  }

  lemma Rejoin<T>(s: seq<T>, i: nat)
    requires i <= |s|
    ensures s[..i] + s[i..] == s
  {
  }

  /** Where `x` may stand in a sorted arrangement as the first one with its key. */
  lemma PlaceFirst<T>(key: T -> int, x: T, others: seq<T>) returns (front: seq<T>, rest: seq<T>)
    ensures multiset(front + rest) == multiset(others)
    ensures SortedBy(key, front) && SortedBy(key, front + [x] + rest)
    ensures (forall z :: z in front ==> key(z) < key(x)) && (forall z :: z in rest ==> key(x) <= key(z))
  {
    var sorted := InsertionSort(key, others);
    InsertionSorts(key, others);
    front, rest := SplitFirst(key, x, sorted);
  }

  lemma SplitFirst<T>(key: T -> int, x: T, sorted: seq<T>) returns (front: seq<T>, rest: seq<T>)
    requires SortedBy(key, sorted)
    ensures front + rest == sorted
    ensures SortedBy(key, front) && SortedBy(key, front + [x] + rest)
    ensures (forall z :: z in front ==> key(z) < key(x)) && (forall z :: z in rest ==> key(x) <= key(z))
  {
    var i := FirstPlace(key, key(x), sorted);
    front, rest := sorted[..i], sorted[i..];
    PlaceBefore(key, key(x), sorted, i);
    SortedPrefix(key, sorted, i);
    InsertSorted(key, x, sorted, i);
    Rejoin(sorted, i);
  }

  /** Some sorted arrangement has two chosen elements of one key side by side, in either order, as the
      first ones with that key. */
  lemma ArrangeFirst<T>(key: T -> int, s: seq<T>, x: T, y: T) returns (front: seq<T>, rest: seq<T>)
    requires x in s && y in s && x != y && key(x) == key(y)
    ensures IsSortOf(key, s, front + [x, y] + rest) && IsSortOf(key, s, front + [y, x] + rest)
    ensures SortedBy(key, front) && forall z :: z in front <==> z in s && key(z) < key(x)
  {
    var others := WithoutTwo(s, x, y);
    front, rest := PlaceFirst(key, x, others);
    TwoForOne(key, x, x, y, front, rest);
    TwoForOne(key, x, y, x, front, rest);
    TwoElements(front, x, y, rest);
    TwoElements(front, y, x, rest);
    PermutationFacts(s, front + [x, y] + rest);
    assert forall z :: z in front + [x, y] + rest <==> z in front || z == x || z == y || z in rest;
  }

  // ----- Enumerating a set, as ranging over a map does -----

  lemma {:induction false} EnumerateSet<T>(s: set<T>) returns (order: seq<T>)
    ensures forall i, j :: 0 <= i < j < |order| ==> order[i] != order[j]
    ensures forall k :: k in order <==> k in s
    decreases s
  {
    if s == {} {
      order := [];
    } else {
      var k :| k in s;
      var rest := EnumerateSet(s - {k});
      order := rest + [k];
    }
  }

  /** Two enumerations of a set are permutations of one another. */
  lemma SameElements<T>(a: seq<T>, b: seq<T>)
    requires forall i, j :: 0 <= i < j < |a| ==> a[i] != a[j]
    requires forall i, j :: 0 <= i < j < |b| ==> b[i] != b[j]
    requires forall x :: x in a <==> x in b
    ensures multiset(a) == multiset(b)
  {
    forall x
      ensures multiset(a)[x] == multiset(b)[x]
    {
      CountDistinct(a, x);
      CountDistinct(b, x);
    }
  }

  lemma {:induction false} CountDistinct<T>(a: seq<T>, x: T)
    requires forall i, j :: 0 <= i < j < |a| ==> a[i] != a[j]
    ensures multiset(a)[x] == if x in a then 1 else 0
    decreases |a|
  {
    if a != [] {
      var init, last := a[..|a| - 1], a[|a| - 1];
      CountDistinct(init, x);
      assert a == init + [last];
      assert last !in init;
    }
  }

  lemma {:induction false} DistinctElements<T>(a: seq<T>)
    requires forall i, j :: 0 <= i < j < |a| ==> a[i] != a[j]
    ensures |set x | x in a| == |a|
    decreases |a|
  {
    if a == [] {
      assert (set x | x in a) == {};
    } else {
      var init, last := a[..|a| - 1], a[|a| - 1];
      DistinctElements(init);
      assert last !in init;
      assert forall x :: x in a <==> x in init || x == last;
      assert (set x | x in a) == (set x | x in init) + {last};
    }
  }

  // ----- Picking elements of a list, as filters do -----

  /** The picked elements are those at the given positions, in their order. */
  ghost predicate Picks<T>(s: seq<T>, picked: seq<T>, positions: seq<nat>) {
    && |positions| == |picked|
    && (forall k :: 0 <= k < |positions| ==> positions[k] < |s| && picked[k] == s[positions[k]])
    && forall j, k :: 0 <= j < k < |positions| ==> positions[j] < positions[k]
  }

  /** The positions are those of the elements that are kept. */
  ghost predicate Selects<T>(s: seq<T>, positions: seq<nat>, keep: T -> bool) {
    && (forall i :: i in positions ==> i < |s| && keep(s[i]))
    && forall i: nat :: i < |s| && keep(s[i]) ==> i in positions
  }

  /** The picked elements are all those of the list that are kept, in their order. */
  ghost predicate Keeps<T(!new)>(s: seq<T>, picked: seq<T>, keep: T -> bool) {
    exists positions: seq<nat> :: Picks(s, picked, positions) && Selects(s, positions, keep)
  }

  lemma KeepsNone<T(!new)>(keep: T -> bool)
    ensures Keeps([], [], keep)
  {
    assert Picks<T>([], [], []) && Selects([], [], keep);
  }

  lemma PicksBefore<T>(s: seq<T>, picked: seq<T>, positions: seq<nat>, x: T)
    requires Picks(s, picked, positions)
    ensures Picks(s + [x], picked, positions)
  {
  }

  lemma PicksLast<T>(s: seq<T>, picked: seq<T>, positions: seq<nat>, x: T)
    requires Picks(s, picked, positions)
    ensures Picks(s + [x], picked + [x], positions + [|s|])
  {
  }

  lemma SelectsBefore<T>(s: seq<T>, positions: seq<nat>, keep: T -> bool, x: T)
    requires Selects(s, positions, keep) && !keep(x)
    ensures Selects(s + [x], positions, keep)
  {
  }

  lemma SelectsLast<T>(s: seq<T>, positions: seq<nat>, keep: T -> bool, x: T)
    requires Selects(s, positions, keep) && keep(x)
    ensures Selects(s + [x], positions + [|s|], keep)
  {
  }

  lemma KeepsNext<T(!new)>(s: seq<T>, picked: seq<T>, keep: T -> bool, x: T)
    requires Keeps(s, picked, keep)
    ensures Keeps(s + [x], picked + (if keep(x) then [x] else []), keep)
  {
    var positions: seq<nat> :| Picks(s, picked, positions) && Selects(s, positions, keep);
    if keep(x) {
      PicksLast(s, picked, positions, x);
      SelectsLast(s, positions, keep, x);
    } else {
      PicksBefore(s, picked, positions, x);
      SelectsBefore(s, positions, keep, x);
      assert picked + [] == picked;
    }
  }
}
