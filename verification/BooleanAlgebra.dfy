/**
 AND and OR over Boolean timelines, and the laws they obey as equalities of lists.
 AND of two or more operands is the normal form of the intersection of their instants; OR of
 two or more is true on the union, and is its normal form when the operands are true
 intervals that hold an instant.  A single operand is returned as it is.
 */
module BooleanAlgebra {
  import opened Sorting
  import opened Timeline
  import opened Merge
  import opened Ties

  // ----- What the loops compute -----

  /** The part two true intervals share, if it holds an instant. */
  function Overlap(a: BoolInterval, b: BoolInterval): BoolTimeline {
    if a.value && b.value && Max(a.start, b.start) < Min(a.end, b.end) then
      [BoolInterval(true, Max(a.start, b.start), Min(a.end, b.end))]
    else
      []
  }

  function OverlapsWith(a: BoolInterval, b: BoolTimeline): BoolTimeline {
    if b == [] then [] else OverlapsWith(a, b[..|b| - 1]) + Overlap(a, b[|b| - 1])
  }

  function Overlaps(a: BoolTimeline, b: BoolTimeline): BoolTimeline {
    if a == [] then [] else Overlaps(a[..|a| - 1], b) + OverlapsWith(a[|a| - 1], b)
  }

  function AndTwo(sort: IntervalSort, a: BoolTimeline, b: BoolTimeline): BoolTimeline {
    Merged(sort, Overlaps(a, b))
  }

  function AndAll(sort: IntervalSort, tls: seq<BoolTimeline>): BoolTimeline {
    if tls == [] then []
    else if |tls| == 1 then tls[0]
    else AndTwo(sort, AndAll(sort, tls[..|tls| - 1]), tls[|tls| - 1])
  }

  function Flatten<T>(tls: seq<seq<T>>): seq<T> {
    if tls == [] then [] else Flatten(tls[..|tls| - 1]) + tls[|tls| - 1]
  }

  function OrAll(sort: IntervalSort, tls: seq<BoolTimeline>): BoolTimeline {
    if tls == [] then []
    else if |tls| == 1 then tls[0]
    else Merged(sort, Flatten(tls))
  }

  // ----- What AND means -----

  lemma SplitLast(tl: BoolTimeline)
    requires tl != []
    ensures Instants(tl) == Instants(tl[..|tl| - 1]) + Instants([tl[|tl| - 1]])
  {
    assert tl == tl[..|tl| - 1] + [tl[|tl| - 1]];
    InstantsConcat(tl[..|tl| - 1], [tl[|tl| - 1]]);
  }

  lemma OneInterval(iv: BoolInterval)
    ensures forall t :: t in Instants([iv]) <==> iv.value && iv.start <= t < iv.end
  {
    assert iv in [iv];
    forall t
      ensures t in Instants([iv]) <==> iv.value && iv.start <= t < iv.end
    {
      assert t in Range(iv.start, iv.end) <==> iv.start <= t < iv.end;
    }
  }

  lemma OverlapInstants(a: BoolInterval, b: BoolInterval)
    ensures Instants(Overlap(a, b)) == Instants([a]) * Instants([b])
  {
    OneInterval(a);
    OneInterval(b);
    if a.value && b.value && Max(a.start, b.start) < Min(a.end, b.end) {
      OneInterval(BoolInterval(true, Max(a.start, b.start), Min(a.end, b.end)));
    }
  }

  lemma {:induction false} OverlapsWithInstants(a: BoolInterval, b: BoolTimeline)
    ensures Instants(OverlapsWith(a, b)) == Instants([a]) * Instants(b)
    decreases |b|
  {
    if b != [] {
      OverlapsWithInstants(a, b[..|b| - 1]);
      OverlapInstants(a, b[|b| - 1]);
      InstantsConcat(OverlapsWith(a, b[..|b| - 1]), Overlap(a, b[|b| - 1]));
      SplitLast(b);
    }
  }

  lemma {:induction false} OverlapsInstants(a: BoolTimeline, b: BoolTimeline)
    ensures Instants(Overlaps(a, b)) == Instants(a) * Instants(b)
    decreases |a|
  {
    if a != [] {
      OverlapsInstants(a[..|a| - 1], b);
      OverlapsWithInstants(a[|a| - 1], b);
      InstantsConcat(Overlaps(a[..|a| - 1], b), OverlapsWith(a[|a| - 1], b));
      SplitLast(a);
    }
  }

  lemma ShapeConcat(a: BoolTimeline, b: BoolTimeline)
    ensures AllTrue(a) && AllTrue(b) ==> AllTrue(a + b)
    ensures WellFormed(a) && WellFormed(b) ==> WellFormed(a + b)
    ensures Positive(a) && Positive(b) ==> Positive(a + b)
  {
  }

  lemma {:induction false} OverlapsWithShape(a: BoolInterval, b: BoolTimeline)
    ensures AllTrue(OverlapsWith(a, b)) && Positive(OverlapsWith(a, b))
    decreases |b|
  {
    if b != [] {
      OverlapsWithShape(a, b[..|b| - 1]);
      ShapeConcat(OverlapsWith(a, b[..|b| - 1]), Overlap(a, b[|b| - 1]));
    }
  }

  lemma {:induction false} OverlapsShape(a: BoolTimeline, b: BoolTimeline)
    ensures AllTrue(Overlaps(a, b)) && Positive(Overlaps(a, b))
    decreases |a|
  {
    if a != [] {
      OverlapsShape(a[..|a| - 1], b);
      OverlapsWithShape(a[|a| - 1], b);
      ShapeConcat(Overlaps(a[..|a| - 1], b), OverlapsWith(a[|a| - 1], b));
    }
  }

  lemma AndTwoMeaning(sort: IntervalSort, a: BoolTimeline, b: BoolTimeline)
    ensures Normal(AndTwo(sort, a, b))
    ensures Instants(AndTwo(sort, a, b)) == Instants(a) * Instants(b)
  {
    OverlapsShape(a, b);
    OverlapsInstants(a, b);
    assert WellFormed(Overlaps(a, b));
    MergeShape(sort, Overlaps(a, b));
    MergeKeepsInstants(sort, Overlaps(a, b), true);
  }

  /** The instants that all the timelines share. */
  ghost predicate InAll(tls: seq<BoolTimeline>, t: int) {
    forall i :: 0 <= i < |tls| ==> t in Instants(tls[i])
  }

  ghost predicate InSome(tls: seq<BoolTimeline>, t: int) {
    exists i :: 0 <= i < |tls| && t in Instants(tls[i])
  }

  lemma InAllConcat(a: seq<BoolTimeline>, b: seq<BoolTimeline>, t: int)
    ensures InAll(a + b, t) <==> InAll(a, t) && InAll(b, t)
  {
    var c := a + b;
    assert forall i :: 0 <= i < |a| ==> c[i] == a[i];
    assert forall i :: 0 <= i < |b| ==> c[|a| + i] == b[i];
  }

  lemma InSomeConcat(a: seq<BoolTimeline>, b: seq<BoolTimeline>, t: int)
    ensures InSome(a + b, t) <==> InSome(a, t) || InSome(b, t)
  {
    var c := a + b;
    assert forall i :: 0 <= i < |a| ==> c[i] == a[i];
    assert forall i :: 0 <= i < |b| ==> c[|a| + i] == b[i];
  }

  lemma InAllThree(a: seq<BoolTimeline>, b: seq<BoolTimeline>, c: seq<BoolTimeline>, t: int)
    ensures InAll(a + b + c, t) <==> InAll(a, t) && InAll(b, t) && InAll(c, t)
  {
    InAllConcat(a, b, t);
    InAllConcat(a + b, c, t);
  }

  lemma Singleton(a: BoolTimeline, t: int)
    ensures InAll([a], t) <==> t in Instants(a)
    ensures InSome([a], t) <==> t in Instants(a)
  {
    assert [a][0] == a;
  }

  lemma LastOperand(tls: seq<BoolTimeline>, t: int)
    requires tls != []
    ensures InAll(tls, t) <==> InAll(tls[..|tls| - 1], t) && t in Instants(tls[|tls| - 1])
    ensures InSome(tls, t) <==> InSome(tls[..|tls| - 1], t) || t in Instants(tls[|tls| - 1])
  {
    var init, last := tls[..|tls| - 1], tls[|tls| - 1];
    assert tls == init + [last];
    InAllConcat(init, [last], t);
    InSomeConcat(init, [last], t);
    Singleton(last, t);
  }

  /** AND is true exactly where all its operands are, and from two operands on its result is the
      normal form of that set: no operand needs to be sorted, merged or even all true. */
  lemma {:induction false} AndMeaning(sort: IntervalSort, tls: seq<BoolTimeline>)
    requires tls != []
    ensures forall t :: t in Instants(AndAll(sort, tls)) <==> InAll(tls, t)
    ensures |tls| >= 2 ==> Normal(AndAll(sort, tls))
    decreases |tls|
  {
    if |tls| > 1 {
      var init, last := tls[..|tls| - 1], tls[|tls| - 1];
      AndMeaning(sort, init);
      AndTwoMeaning(sort, AndAll(sort, init), last);
      forall t
        ensures t in Instants(AndAll(sort, tls)) <==> InAll(tls, t)
      {
        LastOperand(tls, t);
      }
    } else {
      forall t
        ensures t in Instants(AndAll(sort, tls)) <==> InAll(tls, t)
      {
        Singleton(tls[0], t);
        assert tls == [tls[0]];
      }
    }
  }

  // ----- What OR means -----

  lemma {:induction false} FlattenInstants(tls: seq<BoolTimeline>)
    ensures forall t :: t in Instants(Flatten(tls)) <==> InSome(tls, t)
    decreases |tls|
  {
    if tls != [] {
      var init, last := tls[..|tls| - 1], tls[|tls| - 1];
      FlattenInstants(init);
      InstantsConcat(Flatten(init), last);
      forall t
        ensures t in Instants(Flatten(tls)) <==> InSome(tls, t)
      {
        LastOperand(tls, t);
      }
    }
  }

  ghost predicate EachTrue(tls: seq<BoolTimeline>) {
    forall i :: 0 <= i < |tls| ==> AllTrue(tls[i]) && WellFormed(tls[i])
  }

  ghost predicate EachPositive(tls: seq<BoolTimeline>) {
    forall i :: 0 <= i < |tls| ==> Positive(tls[i])
  }

  lemma {:induction false} FlattenShape(tls: seq<BoolTimeline>)
    requires EachTrue(tls)
    ensures AllTrue(Flatten(tls)) && WellFormed(Flatten(tls))
    ensures EachPositive(tls) ==> Positive(Flatten(tls))
    decreases |tls|
  {
    if tls != [] {
      var init, last := tls[..|tls| - 1], tls[|tls| - 1];
      assert forall i :: 0 <= i < |init| ==> init[i] == tls[i];
      FlattenShape(init);
      ShapeConcat(Flatten(init), last);
    }
  }

  /** OR is true exactly where some operand is, for any operands at all. */
  lemma OrMeaning(sort: IntervalSort, tls: seq<BoolTimeline>)
    ensures forall t :: t in Instants(OrAll(sort, tls)) <==> InSome(tls, t)
  {
    if |tls| >= 2 {
      FlattenInstants(tls);
      MergeKeepsInstants(sort, Flatten(tls), true);
    }
  }

  /** From two true operands on, the result of OR is tidy, and normal when the operands hold instants. */
  lemma OrShape(sort: IntervalSort, tls: seq<BoolTimeline>)
    requires |tls| >= 2 && EachTrue(tls)
    ensures Tidy(OrAll(sort, tls))
    ensures EachPositive(tls) ==> Normal(OrAll(sort, tls))
  {
    FlattenShape(tls);
    MergeShape(sort, Flatten(tls));
  }

  // ----- Laws, as equalities of lists -----

  /** AND of two or more operands is determined by what the operands share. */
  lemma AndDetermined(f: IntervalSort, a: seq<BoolTimeline>, g: IntervalSort, b: seq<BoolTimeline>)
    requires |a| >= 2 && |b| >= 2
    ensures AndAll(f, a) == AndAll(g, b) <==> forall t :: InAll(a, t) <==> InAll(b, t)
  {
    AndMeaning(f, a);
    AndMeaning(g, b);
    if forall t :: InAll(a, t) <==> InAll(b, t) {
      NormalUnique(AndAll(f, a), AndAll(g, b));
    } else {
      var t :| !(InAll(a, t) <==> InAll(b, t));
      assert t in Instants(AndAll(f, a)) <==> t !in Instants(AndAll(g, b));
    }
  }

  lemma PermutedOperands(a: seq<BoolTimeline>, b: seq<BoolTimeline>)
    requires multiset(a) == multiset(b)
    ensures |a| == |b|
    ensures forall t :: InAll(a, t) <==> InAll(b, t)
  {
    PermutationFacts(a, b);
    forall i | 0 <= i < |b|
      ensures exists j :: 0 <= j < |a| && a[j] == b[i]
    {
      assert b[i] in a;
    }
    forall i | 0 <= i < |a|
      ensures exists j :: 0 <= j < |b| && b[j] == a[i]
    {
      assert a[i] in b;
    }
  }

  /** Commutativity: the operands of AND, two or more, may come in any order. */
  lemma AndCommutes(sort: IntervalSort, a: seq<BoolTimeline>, b: seq<BoolTimeline>)
    requires |a| >= 2 && multiset(a) == multiset(b)
    ensures AndAll(sort, a) == AndAll(sort, b)
  {
    PermutedOperands(a, b);
    AndDetermined(sort, a, sort, b);
  }

  lemma {:induction false} FlattenIsCollect<T>(tls: seq<seq<T>>)
    ensures Flatten(tls) == Collect((tl: seq<T>) => tl, tls)
    decreases |tls|
  {
    if tls != [] {
      FlattenIsCollect(tls[..|tls| - 1]);
    }
  }

  lemma FlattenPermutation<T>(a: seq<seq<T>>, b: seq<seq<T>>)
    requires multiset(a) == multiset(b)
    ensures multiset(Flatten(a)) == multiset(Flatten(b))
  {
    FlattenIsCollect(a);
    FlattenIsCollect(b);
    CollectPermutation((tl: seq<T>) => tl, a, b);
  }

  /** The operands of OR, two or more, may come in any order, and the sort may order ties in any way, if
      ties among their intervals do not show. */
  lemma OrCommutes(f: IntervalSort, a: seq<BoolTimeline>, g: IntervalSort, b: seq<BoolTimeline>)
    requires |a| >= 2 && multiset(a) == multiset(b) && Orderless(Flatten(a))
    ensures OrAll(f, a) == OrAll(g, b)
  {
    PermutationFacts(a, b);
    FlattenPermutation(a, b);
    MergedAlike(f, Flatten(a), g, Flatten(b));
  }

  lemma MergedAlike(f: IntervalSort, s: BoolTimeline, g: IntervalSort, t: BoolTimeline)
    requires multiset(s) == multiset(t) && Orderless(s)
    ensures Merged(f, s) == Merged(g, t)
  {
    PermutationFacts(s, t);
    assert IsSortOf(IntervalStart, s, f(s)) && IsSortOf(IntervalStart, t, g(t));
    PermutationFacts(s, f(s));
    OrderlessPermutation(s, f(s));
    TiesHidden(f(s), g(t));
  }

  /** When the order of the operands shows.  OR of two or more operands is the same list for every order of
      the operands and every sort if and only if ties among their intervals do not show. */
  lemma WhenOrCommutes(a: seq<BoolTimeline>)
    requires |a| >= 2
    ensures (forall f: IntervalSort, g: IntervalSort, b :: multiset(a) == multiset(b) ==> OrAll(f, a) == OrAll(g, b))
            <==> Orderless(Flatten(a))
  {
    if Orderless(Flatten(a)) {
      forall f: IntervalSort, g: IntervalSort, b | multiset(a) == multiset(b)
        ensures OrAll(f, a) == OrAll(g, b)
      {
        OrCommutes(f, a, g, b);
      }
    } else {
      var s := Flatten(a);
      var r1, r2 := TwoArrangements(s);
      var f := SortTo(s, r1);
      var g := SortTo(s, r2);
      assert OrAll(f, a) == MergeSorted(r1) && OrAll(g, a) == MergeSorted(r2);
    }
  }

  /** Associativity: a group of operands may be combined first, anywhere in the list. */
  lemma AndAssociates(sort: IntervalSort, before: seq<BoolTimeline>, group: seq<BoolTimeline>, after: seq<BoolTimeline>)
    requires group != [] && |before| + |after| >= 1
    ensures AndAll(sort, before + [AndAll(sort, group)] + after) == AndAll(sort, before + group + after)
  {
    var nested, flat := before + [AndAll(sort, group)] + after, before + group + after;
    AndMeaning(sort, group);
    forall t
      ensures InAll(nested, t) <==> InAll(flat, t)
    {
      Singleton(AndAll(sort, group), t);
      InAllThree(before, [AndAll(sort, group)], after, t);
      InAllThree(before, group, after, t);
    }
    AndDetermined(sort, nested, sort, flat);
  }

  lemma {:induction false} FlattenConcat<T>(a: seq<seq<T>>, b: seq<seq<T>>)
    ensures Flatten(a + b) == Flatten(a) + Flatten(b)
  {
    FlattenIsCollect(a);
    FlattenIsCollect(b);
    FlattenIsCollect(a + b);
    CollectConcat((tl: seq<T>) => tl, a, b);
  }

  lemma ReachConcat(a: BoolTimeline, b: BoolTimeline)
    ensures Reach(a + b) == Reach(a) + Reach(b)
  {
    DoubleConcat(a, b);
    InstantsConcat(Double(a), Double(b));
  }

  lemma FlattenThree<T>(a: seq<seq<T>>, b: seq<seq<T>>, c: seq<seq<T>>)
    ensures Flatten(a + b + c) == Flatten(a) + Flatten(b) + Flatten(c)
  {
    FlattenConcat(a + b, c);
    FlattenConcat(a, b);
  }

  lemma FlattenOne<T>(tl: seq<T>)
    ensures Flatten([tl]) == tl
  {
    assert [tl][..0] == [];
  }

  /** OR of a group of operands reaches what the group reaches. */
  lemma GroupReach(sort: IntervalSort, group: seq<BoolTimeline>, v: bool)
    requires group != [] && Uniform(Flatten(group), v) && WellFormed(Flatten(group))
    ensures Reach(OrAll(sort, group)) == Reach(Flatten(group))
    ensures Uniform(OrAll(sort, group), v) && WellFormed(OrAll(sort, group))
  {
    if |group| == 1 {
      FlattenOne(group[0]);
      assert group == [group[0]];
    } else {
      MergeReach(sort, Flatten(group), v);
      var tl := OrAll(sort, group);
      DoubleAt(tl);
      assert forall i :: 0 <= i < |tl| ==> Double(tl)[i] == Doubled(tl[i]);
    }
  }

  lemma MiddleShape(a: BoolTimeline, b: BoolTimeline, c: BoolTimeline, v: bool)
    ensures Uniform(a + b + c, v) && WellFormed(a + b + c)
            <==> (Uniform(a, v) && WellFormed(a)) && (Uniform(b, v) && WellFormed(b))
                 && (Uniform(c, v) && WellFormed(c))
  {
    PairShape(a + b, c, v);
    PairShape(a, b, v);
  }

  lemma PairShape(a: BoolTimeline, b: BoolTimeline, v: bool)
    ensures Uniform(a + b, v) && WellFormed(a + b)
            <==> (Uniform(a, v) && WellFormed(a)) && (Uniform(b, v) && WellFormed(b))
  {
    assert forall iv :: iv in a + b <==> iv in a || iv in b;
    assert forall i :: 0 <= i < |a| ==> (a + b)[i] == a[i];
    assert forall i :: 0 <= i < |b| ==> (a + b)[|a| + i] == b[i];
  }

  /** Well formed operands of one value, empty intervals included. */
  lemma OrAssociates(sort: IntervalSort, before: seq<BoolTimeline>, group: seq<BoolTimeline>, after: seq<BoolTimeline>,
                     v: bool)
    requires group != [] && |before| + |after| >= 1
    requires Uniform(Flatten(before + group + after), v) && WellFormed(Flatten(before + group + after))
    ensures OrAll(sort, before + [OrAll(sort, group)] + after) == OrAll(sort, before + group + after)
  {
    var nested, flat := before + [OrAll(sort, group)] + after, before + group + after;
    FlattenThree(before, group, after);
    FlattenThree(before, [OrAll(sort, group)], after);
    FlattenOne(OrAll(sort, group));
    MiddleShape(Flatten(before), Flatten(group), Flatten(after), v);
    GroupReach(sort, group, v);
    MiddleShape(Flatten(before), OrAll(sort, group), Flatten(after), v);
    ReachConcat(Flatten(before) + Flatten(group), Flatten(after));
    ReachConcat(Flatten(before), Flatten(group));
    ReachConcat(Flatten(before) + OrAll(sort, group), Flatten(after));
    ReachConcat(Flatten(before), OrAll(sort, group));
    MergeUniqueReach(sort, Flatten(nested), sort, Flatten(flat), v);
  }

  lemma PairMembership(a: BoolTimeline, b: BoolTimeline, t: int)
    ensures InAll([a, b], t) <==> t in Instants(a) && t in Instants(b)
    ensures InSome([a, b], t) <==> t in Instants(a) || t in Instants(b)
  {
    assert [a, b][0] == a && [a, b][1] == b;
  }

  lemma TwoOperands(sort: IntervalSort, a: BoolTimeline, b: BoolTimeline, t: int)
    ensures t in Instants(AndAll(sort, [a, b])) <==> t in Instants(a) && t in Instants(b)
    ensures t in Instants(OrAll(sort, [a, b])) <==> t in Instants(a) || t in Instants(b)
  {
    AndMeaning(sort, [a, b]);
    OrMeaning(sort, [a, b]);
    PairMembership(a, b, t);
  }

  lemma TwoShapes(sort: IntervalSort, a: BoolTimeline, b: BoolTimeline)
    ensures Normal(AndAll(sort, [a, b]))
    ensures AllTrue(a) && Positive(a) && AllTrue(b) && Positive(b) ==> Normal(OrAll(sort, [a, b]))
  {
    AndMeaning(sort, [a, b]);
    if AllTrue(a) && Positive(a) && AllTrue(b) && Positive(b) {
      OrShape(sort, [a, b]);
    }
  }

  /** Distributivity of AND over OR, for all timelines. */
  lemma AndOverOr(sort: IntervalSort, a: BoolTimeline, b: BoolTimeline, c: BoolTimeline)
    ensures AndAll(sort, [a, OrAll(sort, [b, c])])
            == OrAll(sort, [AndAll(sort, [a, b]), AndAll(sort, [a, c])])
  {
    var either, ab, ac := OrAll(sort, [b, c]), AndAll(sort, [a, b]), AndAll(sort, [a, c]);
    TwoShapes(sort, a, either);
    TwoShapes(sort, a, b);
    TwoShapes(sort, a, c);
    TwoShapes(sort, ab, ac);
    forall t
      ensures t in Instants(AndAll(sort, [a, either])) <==> t in Instants(OrAll(sort, [ab, ac]))
    {
      TwoOperands(sort, a, either, t);
      TwoOperands(sort, b, c, t);
      TwoOperands(sort, a, b, t);
      TwoOperands(sort, a, c, t);
      TwoOperands(sort, ab, ac, t);
    }
    NormalUnique(AndAll(sort, [a, either]), OrAll(sort, [ab, ac]));
  }

  /** An instant of OR(a, AND(b, c)). */
  ghost predicate InOrAnd(a: BoolTimeline, b: BoolTimeline, c: BoolTimeline, t: int) {
    t in Instants(a) || (t in Instants(b) && t in Instants(c))
  }

  lemma OrAndInstants(sort: IntervalSort, a: BoolTimeline, b: BoolTimeline, c: BoolTimeline, t: int)
    ensures t in Instants(OrAll(sort, [a, AndAll(sort, [b, c])])) <==> InOrAnd(a, b, c, t)
    ensures t in Instants(AndAll(sort, [OrAll(sort, [a, b]), OrAll(sort, [a, c])])) <==> InOrAnd(a, b, c, t)
  {
    TwoOperands(sort, a, AndAll(sort, [b, c]), t);
    TwoOperands(sort, b, c, t);
    TwoOperands(sort, a, b, t);
    TwoOperands(sort, a, c, t);
    TwoOperands(sort, OrAll(sort, [a, b]), OrAll(sort, [a, c]), t);
  }

  /** All of `a` is true, and each of its empty intervals lies in, or at the end of, OR(a, AND(b, c)). */
  ghost predicate OrDistributes(a: BoolTimeline, b: BoolTimeline, c: BoolTimeline) {
    && AllTrue(a)
    && forall x :: x in a && x.start == x.end ==> InOrAnd(a, b, c, x.start) || InOrAnd(a, b, c, x.start - 1)
  }

  lemma OrTwo(sort: IntervalSort, a: BoolTimeline, b: BoolTimeline)
    ensures OrAll(sort, [a, b]) == Merged(sort, a + b)
  {
    FlattenThree([], [a], [b]);
    FlattenOne(a);
    FlattenOne(b);
    assert [] + [a] + [b] == [a, b] && Flatten<BoolInterval>([]) + a + b == a + b;
  }

  /** Adding a normal timeline to `a` can absorb empty intervals of `a`, but adds none. */
  lemma NormalAdded(a: BoolTimeline, both: BoolTimeline)
    requires WellFormed(a) && Normal(both)
    ensures WellFormed(a + both)
    ensures AllTrue(a + both) && EmptiesAbsorbed(a + both)
            <==> AllTrue(a) && forall x :: x in a && x.start == x.end ==> Absorbed(a + both, x.start)
  {
    var s := a + both;
    assert forall i :: 0 <= i < |a| ==> s[i] == a[i];
    assert forall i :: 0 <= i < |both| ==> s[|a| + i] == both[i];
    assert forall x :: x in s <==> x in a || x in both;
    assert forall x :: x in both ==> x.start < x.end;
  }

  lemma AbsorbedInOrAnd(sort: IntervalSort, a: BoolTimeline, b: BoolTimeline, c: BoolTimeline, p: int)
    ensures Absorbed(a + AndAll(sort, [b, c]), p) <==> InOrAnd(a, b, c, p) || InOrAnd(a, b, c, p - 1)
  {
    InstantsConcat(a, AndAll(sort, [b, c]));
    TwoOperands(sort, b, c, p);
    TwoOperands(sort, b, c, p - 1);
  }

  lemma OrSideNormal(sort: IntervalSort, a: BoolTimeline, b: BoolTimeline, c: BoolTimeline)
    requires WellFormed(a)
    ensures Normal(OrAll(sort, [a, AndAll(sort, [b, c])])) <==> OrDistributes(a, b, c)
  {
    var both := AndAll(sort, [b, c]);
    TwoShapes(sort, b, c);
    OrTwo(sort, a, both);
    NormalAdded(a, both);
    MergedNormal(sort, a + both);
    forall x | x in a
      ensures Absorbed(a + both, x.start) <==> InOrAnd(a, b, c, x.start) || InOrAnd(a, b, c, x.start - 1)
    {
      AbsorbedInOrAnd(sort, a, b, c, x.start);
    }
  }

  /** Distributivity of OR over AND.  Unlike AND, OR keeps the false and empty intervals it is given: for a
      well formed `a`, and all `b` and `c`, the law holds if and only if `a` is all true and OR(a, AND(b, c))
      absorbs its empty intervals. */
  lemma OrOverAnd(sort: IntervalSort, a: BoolTimeline, b: BoolTimeline, c: BoolTimeline)
    requires WellFormed(a)
    ensures OrAll(sort, [a, AndAll(sort, [b, c])]) == AndAll(sort, [OrAll(sort, [a, b]), OrAll(sort, [a, c])])
            <==> OrDistributes(a, b, c)
  {
    var left, right := OrAll(sort, [a, AndAll(sort, [b, c])]), AndAll(sort, [OrAll(sort, [a, b]), OrAll(sort, [a, c])]);
    OrSideNormal(sort, a, b, c);
    TwoShapes(sort, OrAll(sort, [a, b]), OrAll(sort, [a, c]));
    forall t
      ensures t in Instants(left) <==> t in Instants(right)
    {
      OrAndInstants(sort, a, b, c, t);
    }
    if Normal(left) {
      NormalUnique(left, right);
    }
  }

  // ----- The code -----

  /** What a list of slices holds. */
  function Contents(timelines: seq<array<BoolInterval>>): seq<BoolTimeline>
    reads timelines
  {
    if timelines == [] then []
    else Contents(timelines[..|timelines| - 1]) + [timelines[|timelines| - 1][..]]
  }

  lemma {:induction false} ContentsAt(timelines: seq<array<BoolInterval>>)
    ensures |Contents(timelines)| == |timelines|
    ensures forall i :: 0 <= i < |timelines| ==> Contents(timelines)[i] == timelines[i][..]
    decreases |timelines|
  {
    if timelines != [] {
      ContentsAt(timelines[..|timelines| - 1]);
    }
  }

  lemma {:induction false} ContentsConcat(a: seq<array<BoolInterval>>, b: seq<array<BoolInterval>>)
    ensures Contents(a + b) == Contents(a) + Contents(b)
    decreases |b|
  {
    if b == [] {
      assert a + b == a;
    } else {
      ContentsConcat(a, b[..|b| - 1]);
      assert (a + b)[..|a + b| - 1] == a + b[..|b| - 1];
    }
  }

  lemma ContentsAppend(timelines: seq<array<BoolInterval>>, slice: array<BoolInterval>)
    ensures Contents(timelines + [slice]) == Contents(timelines) + [slice[..]]
  {
    assert (timelines + [slice])[..|timelines|] == timelines;
  }

  lemma RowStep(a: BoolInterval, b: BoolTimeline, j: nat)
    requires j < |b|
    ensures OverlapsWith(a, b[..j + 1]) == OverlapsWith(a, b[..j]) + Overlap(a, b[j])
  {
    assert b[..j + 1][..j] == b[..j];
  }

  lemma OverlapsStep(a: BoolTimeline, b: BoolTimeline, i: nat)
    requires i < |a|
    ensures Overlaps(a[..i + 1], b) == Overlaps(a[..i], b) + OverlapsWith(a[i], b)
  {
    assert a[..i + 1][..i] == a[..i];
  }

  /** The inner loop: one interval against a whole timeline. */
  method OverlapRow(intervalA: BoolInterval, b: array<BoolInterval>) returns (row: BoolTimeline)
    ensures row == OverlapsWith(intervalA, b[..])
  {
    row := [];
    for j := 0 to b.Length
      invariant row == OverlapsWith(intervalA, b[..][..j])
    {
      RowStep(intervalA, b[..], j);
      var intervalB := b[j];
      if intervalA.value && intervalB.value {
        var start := intervalA.start;
        if intervalB.start > start {
          start := intervalB.start;
        }
        var end := intervalA.end;
        if intervalB.end < end {
          end := intervalB.end;
        }
        if start < end {
          row := row + [BoolInterval(true, start, end)];
        }
      }
    }
    assert b[..][..b.Length] == b[..];
  }

  /** `andTwoTimelines`. */
  method AndTwoTimelines(sort: IntervalSort, a: array<BoolInterval>, b: array<BoolInterval>)
    returns (merged: array<BoolInterval>)
    ensures fresh(merged) && merged[..] == AndTwo(sort, a[..], b[..])
  {
    var result: BoolTimeline := [];
    for i := 0 to a.Length
      invariant result == Overlaps(a[..][..i], b[..])
    {
      OverlapsStep(a[..], b[..], i);
      var row := OverlapRow(a[i], b);
      result := result + row;
    }
    assert a[..][..a.Length] == a[..];
    var slice := SliceOf(result);
    merged := MergeBoolIntervals(sort, slice);
  }

  lemma AndStep(sort: IntervalSort, tls: seq<BoolTimeline>, tl: BoolTimeline)
    requires tls != []
    ensures AndAll(sort, tls + [tl]) == AndTwo(sort, AndAll(sort, tls), tl)
  {
    assert (tls + [tl])[..|tls|] == tls;
  }

  lemma FlattenStep<T>(tls: seq<seq<T>>, tl: seq<T>)
    ensures Flatten(tls + [tl]) == Flatten(tls) + tl
  {
    assert (tls + [tl])[..|tls|] == tls;
  }

  /** Each slice holds the timeline listed for it. */
  ghost predicate Hold(timelines: seq<array<BoolInterval>>, contents: seq<BoolTimeline>)
    reads timelines
  {
    |timelines| == |contents| && forall i :: 0 <= i < |timelines| ==> timelines[i][..] == contents[i]
  }

  /** One round of the loop of AND. */
  method AndNext(sort: IntervalSort, acc: array<BoolInterval>, timelines: seq<array<BoolInterval>>, i: nat,
                 ghost contents: seq<BoolTimeline>) returns (result: array<BoolInterval>)
    requires Hold(timelines, contents) && 0 < i < |timelines| && acc[..] == AndAll(sort, contents[..i])
    ensures fresh(result) && result[..] == AndAll(sort, contents[..i + 1])
  {
    assert contents[..i + 1] == contents[..i] + [contents[i]];
    AndStep(sort, contents[..i], contents[i]);
    result := AndTwoTimelines(sort, acc, timelines[i]);
  }

  /** `AND`: no operand is written to, although merging sorts in place. */
  method And(sort: IntervalSort, timelines: seq<array<BoolInterval>>) returns (result: array<BoolInterval>)
    ensures result[..] == AndAll(sort, Contents(timelines))
    ensures if |timelines| == 1 then result == timelines[0] else fresh(result)
    ensures timelines == [] ==> result.Length == 0
    ensures Contents(timelines) == old(Contents(timelines))
  {
    ContentsAt(timelines);
    if |timelines| == 0 {
      result := new BoolInterval[0];
      return;
    }
    if |timelines| == 1 {
      return timelines[0];
    }
    ghost var contents := Contents(timelines);
    result := timelines[0];
    for i := 1 to |timelines|
      invariant i > 1 ==> fresh(result)
      invariant Hold(timelines, contents) && result[..] == AndAll(sort, contents[..i])
    {
      result := AndNext(sort, result, timelines, i, contents);
    }
    assert contents[..|timelines|] == contents;
  }

  /** The loop of OR. */
  method AllIntervals(timelines: seq<array<BoolInterval>>, ghost contents: seq<BoolTimeline>)
    returns (all: BoolTimeline)
    requires Hold(timelines, contents)
    ensures all == Flatten(contents)
  {
    all := [];
    for i := 0 to |timelines|
      invariant all == Flatten(contents[..i])
    {
      assert contents[..i + 1] == contents[..i] + [contents[i]];
      FlattenStep(contents[..i], contents[i]);
      all := all + timelines[i][..];
    }
    assert contents[..|timelines|] == contents;
  }

  /** `OR`: the operands are copied into a new slice before it is sorted. */
  method Or(sort: IntervalSort, timelines: seq<array<BoolInterval>>) returns (result: array<BoolInterval>)
    ensures result[..] == OrAll(sort, Contents(timelines))
    ensures if |timelines| == 1 then result == timelines[0] else fresh(result)
    ensures timelines == [] ==> result.Length == 0
    ensures Contents(timelines) == old(Contents(timelines))
  {
    ContentsAt(timelines);
    if |timelines| == 0 {
      result := new BoolInterval[0];
      return;
    }
    if |timelines| == 1 {
      return timelines[0];
    }
    var allIntervals := AllIntervals(timelines, Contents(timelines));
    var slice := SliceOf(allIntervals);
    result := MergeBoolIntervals(sort, slice);
  }
}
