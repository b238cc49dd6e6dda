/**
 Event order: when the results of a query depend on the order in which its events arrive or on the
 sorts.  Of the operations that read events only `LatestEventToState` can show it, through ties;
 of those that combine timelines only OR can.  In a well posed query OR does not, so the results
 depend on the order of the events exactly when a source of `LatestEventToState` has a mixed tie.
 */
module EventOrder {
  import opened Sorting
  import opened Timeline
  import opened BooleanAlgebra
  import opened Ties
  import opened Existence
  import opened States
  import opened Query
  import opened QueryMeaning
  import opened Schedule

  /** The same events and the same reading of durations; order and sorts may differ. */
  ghost predicate SameInput(l: Library, a: seq<Event>, m: Library, b: seq<Event>) {
    l.parse == m.parse && multiset(a) == multiset(b)
  }

  // ----- One operation -----

  /** Among the events of its source the operation tells two apart that have one timestamp. */
  ghost predicate TiesAtSource(op: Operation, events: seq<Event>) {
    MixedTie(OfType(events, op.source), op.equals)
  }

  /** The operation runs `LatestEventToState` over ties, itself or inside Of. */
  ghost predicate ReadsTies(op: Operation, events: seq<Event>)
    decreases op
  {
    if op.op.OpLatestEventToState? then TiesAtSource(op, events)
    else (op.op.OpDurationInCurState? || op.op.OpNot?) && op.of.Some? && ReadsTies(op.of.value, events)
  }

  ghost predicate ShowsTies(tls: seq<BoolTimeline>) {
    |tls| >= 2 && !Orderless(Flatten(tls))
  }

  /** The operation merges, with OR, timelines whose ties show, itself or inside Of. */
  ghost predicate MergesTies(op: Operation, prev: Store)
    decreases op
  {
    if op.op.OpOR? then ShowsTies(Operands(prev, op.conditionAny))
    else if op.op.OpDurationWhere? then op.conditionAll == [] && ShowsTies(Conditions(prev, op.conditionAny))
    else (op.op.OpDurationInCurState? || op.op.OpNot?) && op.of.Some? && MergesTies(op.of.value, prev)
  }

  lemma SameSourceEvents(a: seq<Event>, b: seq<Event>, kind: string)
    requires multiset(a) == multiset(b)
    ensures multiset(OfType(a, kind)) == multiset(OfType(b, kind))
  {
    CollectPermutation((e: Event) => if e.kind == kind then [e] else [], a, b);
  }

  lemma AndSorts(f: IntervalSort, g: IntervalSort, tls: seq<BoolTimeline>)
    ensures AndAll(f, tls) == AndAll(g, tls)
  {
    if |tls| >= 2 {
      AndDetermined(f, tls, g, tls);
    }
  }

  lemma OrSorts(f: IntervalSort, g: IntervalSort, tls: seq<BoolTimeline>)
    requires f == g || !ShowsTies(tls)
    ensures OrAll(f, tls) == OrAll(g, tls)
  {
    if |tls| >= 2 && f != g {
      OrCommutes(f, tls, g, tls);
    }
  }

  lemma LatestAlike(l: Library, a: seq<Event>, m: Library, b: seq<Event>, op: Operation, prev: Store)
    requires SameInput(l, a, m, b) && op.op.OpLatestEventToState? && !TiesAtSource(op, a)
    ensures Execute(l, a, op, prev) == Execute(m, b, op, prev)
  {
    SameSourceEvents(a, b, op.source);
    LatestStatesOrder(l.es, OfType(a, op.source), m.es, OfType(b, op.source), op.equals);
  }

  lemma ExistedAlike(l: Library, a: seq<Event>, m: Library, b: seq<Event>, op: Operation, prev: Store)
    requires SameInput(l, a, m, b) && op.op.OpHasExisted?
    ensures Execute(l, a, op, prev) == Execute(m, b, op, prev)
  {
    SameSourceEvents(a, b, op.source);
    ExistedOrder(l.es, OfType(a, op.source), m.es, OfType(b, op.source), op.equals);
  }

  lemma WithinAlike(l: Library, a: seq<Event>, m: Library, b: seq<Event>, op: Operation, prev: Store)
    requires SameInput(l, a, m, b) && op.op.OpHasExistedWithin?
    ensures Execute(l, a, op, prev) == Execute(m, b, op, prev)
  {
    assert WindowOf(l, op) == WindowOf(m, op);
    if WindowOf(l, op).Ok? {
      SameSourceEvents(a, b, op.source);
      WithinOrder(l.es, l.bs, OfType(a, op.source), m.es, m.bs, OfType(b, op.source), op.equals, WindowOf(l, op).value);
    }
  }

  lemma CombinedAlike(l: Library, m: Library, op: Operation, prev: Store)
    requires op.op.OpDurationWhere? && (l.bs == m.bs || !MergesTies(op, prev))
    ensures Combined(l, op, prev) == Combined(m, op, prev)
  {
    AndSorts(l.bs, m.bs, Conditions(prev, op.conditionAll));
    if op.conditionAll == [] {
      OrSorts(l.bs, m.bs, Conditions(prev, op.conditionAny));
    }
  }

  lemma AndAlike(l: Library, a: seq<Event>, m: Library, b: seq<Event>, op: Operation, prev: Store)
    requires op.op.OpAND?
    ensures Execute(l, a, op, prev) == Execute(m, b, op, prev)
  {
    AndSorts(l.bs, m.bs, Operands(prev, op.conditionAll));
  }

  lemma OrAlike(l: Library, a: seq<Event>, m: Library, b: seq<Event>, op: Operation, prev: Store)
    requires op.op.OpOR? && (l.bs == m.bs || !MergesTies(op, prev))
    ensures Execute(l, a, op, prev) == Execute(m, b, op, prev)
  {
    OrSorts(l.bs, m.bs, Operands(prev, op.conditionAny));
  }

  /** An operation that neither reads nor merges ties has the same result for every order of the events and
      every choice of the sorts. */
  lemma {:induction false} ExecuteOrder(l: Library, a: seq<Event>, m: Library, b: seq<Event>, op: Operation,
                                        prev: Store)
    requires SameInput(l, a, m, b) && !ReadsTies(op, a) && (l.bs == m.bs || !MergesTies(op, prev))
    ensures Execute(l, a, op, prev) == Execute(m, b, op, prev)
    decreases op
  {
    if op.op.OpLatestEventToState? {
      LatestAlike(l, a, m, b, op, prev);
    } else if op.op.OpHasExisted? {
      ExistedAlike(l, a, m, b, op, prev);
    } else if op.op.OpHasExistedWithin? {
      WithinAlike(l, a, m, b, op, prev);
    } else if op.op.OpDurationInCurState? || op.op.OpNot? {
      if op.of.Some? {
        ExecuteOrder(l, a, m, b, op.of.value, prev);
      }
    } else if op.op.OpAND? {
      AndAlike(l, a, m, b, op, prev);
    } else if op.op.OpOR? {
      OrAlike(l, a, m, b, op, prev);
    } else if op.op.OpDurationWhere? {
      CombinedAlike(l, m, op, prev);
    } else if op.op.OpLongestConsecutiveTrueDuration? {
      assert MinimumOf(l, op) == MinimumOf(m, op);
    }
  }

  // ----- The whole list -----

  /** No operation of the list reads ties or, if the sorts of intervals differ, merges them. */
  ghost predicate TiesHide(l: Library, a: seq<Event>, m: Library, ops: seq<Operation>, n: nat)
    requires n <= |ops|
  {
    && (forall k :: 0 <= k < n ==> !ReadsTies(ops[k], a))
    && (l.bs == m.bs
        || forall k :: 0 <= k < n && RunAll(l, a, ops[..k]).Ok? ==> !MergesTies(ops[k], RunAll(l, a, ops[..k]).value))
  }

  /** One more operation after a run. */
  function RunNext(lib: Library, events: seq<Event>, op: Operation, r: Result<Store>): Result<Store> {
    if r.Failed? then r
    else
      var v := Execute(lib, events, op, r.value);
      if v.Failed? then Failed(v.failure) else Ok(r.value[op.id := v.value])
  }

  lemma RunPrefix(l: Library, a: seq<Event>, ops: seq<Operation>, k: nat)
    requires k < |ops|
    ensures RunAll(l, a, ops[..k + 1]) == RunNext(l, a, ops[k], RunAll(l, a, ops[..k]))
  {
    assert ops[..k + 1][..k] == ops[..k];
  }

  lemma NextOrder(l: Library, a: seq<Event>, m: Library, b: seq<Event>, op: Operation, r: Result<Store>)
    requires SameInput(l, a, m, b) && !ReadsTies(op, a)
    requires r.Ok? ==> l.bs == m.bs || !MergesTies(op, r.value)
    ensures RunNext(l, a, op, r) == RunNext(m, b, op, r)
  {
    if r.Ok? {
      ExecuteOrder(l, a, m, b, op, r.value);
    }
  }

  /** Event order: if no operation reads or merges ties, the results map, or the failure, is the same for
      every order of the events and all sorts. */
  lemma {:induction false} RunOrder(l: Library, a: seq<Event>, m: Library, b: seq<Event>, ops: seq<Operation>, n: nat)
    requires n <= |ops| && SameInput(l, a, m, b) && TiesHide(l, a, m, ops, n)
    ensures RunAll(l, a, ops[..n]) == RunAll(m, b, ops[..n])
    decreases n
  {
    if n > 0 {
      RunOrder(l, a, m, b, ops, n - 1);
      RunPrefix(l, a, ops, n - 1);
      RunPrefix(m, b, ops, n - 1);
      NextOrder(l, a, m, b, ops[n - 1], RunAll(l, a, ops[..n - 1]));
    }
  }

  // ----- Well posed queries -----

  /** OR of true, well formed timelines hides its ties. */
  lemma TrueOperandsHide(tls: seq<BoolTimeline>)
    requires forall i :: 0 <= i < |tls| ==> AllTrue(tls[i]) && WellFormed(tls[i])
    ensures !ShowsTies(tls)
  {
    FlattenShape(tls);
    WellFormedOrderless(Flatten(tls));
    assert AllTrue(Flatten(tls));
    forall x | x in Flatten(tls)
      ensures x.value
    {
      var i :| 0 <= i < |Flatten(tls)| && Flatten(tls)[i] == x;
    }
  }

  lemma WellPosedHides(lib: Library, events: seq<Event>, ops: seq<Operation>, k: nat)
    requires WellPosed(lib, ops) && k < |ops|
    ensures RunAll(lib, events, ops[..k]).Ok? && !MergesTies(ops[k], RunAll(lib, events, ops[..k]).value)
  {
    EvaluatorCorrect(lib, events, ops, k);
    var prev := RunAll(lib, events, ops[..k]).value;
    assert InFragment(lib, ops, k);
    if ops[k].op.OpOR? {
      AllOperands(lib, events, ops, k, prev, ops[k].conditionAny);
      TrueOperandsHide(Operands(prev, ops[k].conditionAny));
    } else if ops[k].op.OpDurationWhere? {
      AllCondition(lib, events, ops, k, prev, ops[k].conditionAny);
      TrueOperandsHide(Conditions(prev, ops[k].conditionAny));
    }
  }

  lemma WellPosedRun(lib: Library, ops: seq<Operation>, l: Library)
    requires WellPosed(lib, ops) && l.parse == lib.parse
    ensures WellPosed(l, ops)
  {
    forall k | 0 <= k < |ops|
      ensures InFragment(l, ops, k)
    {
      assert InFragment(lib, ops, k);
    }
  }

  ghost predicate SomeTies(ops: seq<Operation>, events: seq<Event>) {
    exists k :: 0 <= k < |ops| && ops[k].op.OpLatestEventToState? && TiesAtSource(ops[k], events)
  }

  lemma ReadsNoTies(lib: Library, ops: seq<Operation>, a: seq<Event>, k: nat)
    requires WellPosed(lib, ops) && !SomeTies(ops, a) && k < |ops|
    ensures !ReadsTies(ops[k], a)
  {
    assert InFragment(lib, ops, k);
  }

  lemma TypeElements(a: seq<Event>, b: seq<Event>, kind: string)
    requires multiset(a) == multiset(b)
    ensures forall e :: e in OfType(a, kind) <==> e in OfType(b, kind)
  {
    SameSourceEvents(a, b, kind);
    PermutationFacts(OfType(a, kind), OfType(b, kind));
  }

  lemma NoTiesElsewhere(ops: seq<Operation>, a: seq<Event>, b: seq<Event>)
    requires multiset(a) == multiset(b) && !SomeTies(ops, a)
    ensures !SomeTies(ops, b)
  {
    forall k | 0 <= k < |ops| && ops[k].op.OpLatestEventToState?
      ensures !TiesAtSource(ops[k], b)
    {
      assert !TiesAtSource(ops[k], a);
      TypeElements(a, b, ops[k].source);
      MixedSubset(OfType(b, ops[k].source), OfType(a, ops[k].source), ops[k].equals);
    }
  }

  lemma WellPosedOrder(l: Library, a: seq<Event>, m: Library, b: seq<Event>, ops: seq<Operation>)
    requires WellPosed(l, ops) && SameInput(l, a, m, b) && !SomeTies(ops, a)
    ensures RunAll(l, a, ops) == RunAll(m, b, ops)
  {
    forall k | 0 <= k < |ops|
      ensures !ReadsTies(ops[k], a)
      ensures RunAll(l, a, ops[..k]).Ok? && !MergesTies(ops[k], RunAll(l, a, ops[..k]).value)
    {
      ReadsNoTies(l, ops, a, k);
      WellPosedHides(l, a, ops, k);
    }
    RunOrder(l, a, m, b, ops, |ops|);
    assert ops[..|ops|] == ops;
  }

  /** The state timeline that an operation leaves in the results. */
  lemma StateResult(lib: Library, events: seq<Event>, ops: seq<Operation>, k: nat)
    requires WellPosed(lib, ops) && k < |ops| && ops[k].op.OpLatestEventToState?
    ensures var r := RunAll(lib, events, ops);
            r.Ok? && ops[k].id in r.value
            && r.value[ops[k].id] == States(LatestStates(lib.es, OfType(events, ops[k].source), ops[k].equals))
  {
    EvaluatorCorrect(lib, events, ops, |ops|);
    assert ops[..|ops|] == ops;
    OwnResultStays(lib, events, ops, k);
    RunStep(lib, events, ops, k);
  }

  /** Two sorts that arrange the tied events differently. */
  lemma TwoSorts(source: seq<Event>, equals: string) returns (f: EventSort, g: EventSort)
    requires MixedTie(source, equals)
    ensures LatestStates(f, source, equals) != LatestStates(g, source, equals)
  {
    TiesShow(source, equals);
    var r1, r2 :| IsSortOf(EventTime, source, r1) && IsSortOf(EventTime, source, r2)
                  && StatesOf(r1, equals) != StatesOf(r2, equals);
    f := EventSortTo(source, r1);
    g := EventSortTo(source, r2);
  }

  lemma TiesFound(lib: Library, events: seq<Event>, ops: seq<Operation>) returns (l: Library, m: Library)
    requires WellPosed(lib, ops) && SomeTies(ops, events)
    ensures l.parse == lib.parse == m.parse && RunAll(l, events, ops) != RunAll(m, events, ops)
  {
    var k :| 0 <= k < |ops| && ops[k].op.OpLatestEventToState? && TiesAtSource(ops[k], events);
    var f, g := TwoSorts(OfType(events, ops[k].source), ops[k].equals);
    l, m := lib.(es := f), lib.(es := g);
    WellPosedRun(lib, ops, l);
    WellPosedRun(lib, ops, m);
    StateResult(l, events, ops, k);
    StateResult(m, events, ops, k);
  }

  /** When the order of the events shows.  The results map of a well posed query is the same for every order
      of the events and all sorts if and only if no `LatestEventToState` has, among the events of its
      source, two of one timestamp of which exactly one has the wanted value. */
  lemma WhenOrderHides(lib: Library, events: seq<Event>, ops: seq<Operation>)
    requires WellPosed(lib, ops)
    ensures (forall l: Library, a, m: Library, b ::
               SameInput(l, a, lib, events) && SameInput(m, b, lib, events) ==> RunAll(l, a, ops) == RunAll(m, b, ops))
            <==> !SomeTies(ops, events)
  {
    if SomeTies(ops, events) {
      var l, m := TiesFound(lib, events, ops);
      assert SameInput(l, events, lib, events) && SameInput(m, events, lib, events);
    } else {
      forall l: Library, a, m: Library, b | SameInput(l, a, lib, events) && SameInput(m, b, lib, events)
        ensures RunAll(l, a, ops) == RunAll(m, b, ops)
      {
        WellPosedRun(lib, ops, l);
        NoTiesElsewhere(ops, events, a);
        WellPosedOrder(l, a, m, b, ops);
      }
    }
  }
}
