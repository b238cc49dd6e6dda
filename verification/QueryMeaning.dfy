/**
 What a query means.  Every operation of the Boolean fragment is a formula over instants, its
 atoms statements about the events and its connectives those of the operations it names.  The
 evaluator's timelines hold exactly where their formulas do, `DurationWhere` counts those
 instants, and `LongestConsecutiveTrueDuration` measures their longest unbroken run.
 */
module QueryMeaning {
  import opened Sorting
  import opened Timeline
  import opened BooleanAlgebra
  import opened Measure
  import opened Existence
  import opened States
  import opened Query

  // ----- The fragment -----

  predicate IsBoolOp(op: Operation) {
    op.op.OpHasExisted? || op.op.OpHasExistedWithin? || op.op.OpAND? || op.op.OpOR?
  }

  predicate IsStateOp(op: Operation) {
    op.op.OpLatestEventToState?
  }

  predicate DistinctIds(ops: seq<Operation>) {
    forall i, j :: 0 <= i < j < |ops| ==> ops[i].id != ops[j].id
  }

  /** `id` names an operation before position `k`, of the right kind. */
  ghost predicate NamesBool(ops: seq<Operation>, k: nat, id: string)
    requires k <= |ops|
  {
    exists j :: 0 <= j < k && ops[j].id == id && IsBoolOp(ops[j])
  }

  ghost predicate NamesTimeline(ops: seq<Operation>, k: nat, id: string)
    requires k <= |ops|
  {
    exists j :: 0 <= j < k && ops[j].id == id && (IsBoolOp(ops[j]) || IsStateOp(ops[j]))
  }

  /** The window is text that reads as a duration, and not a negative one. */
  predicate WindowFits(lib: Library, op: Operation) {
    op.params.window.Text? && lib.parse(op.params.window.text).Some? && lib.parse(op.params.window.text).value >= 0
  }

  ghost predicate InFragment(lib: Library, ops: seq<Operation>, k: nat)
    requires k < |ops|
  {
    var op := ops[k];
    if op.op.OpHasExistedWithin? then
      WindowFits(lib, op)
    else if op.op.OpAND? then
      op.conditionAll != [] && forall i :: 0 <= i < |op.conditionAll| ==> NamesBool(ops, k, op.conditionAll[i])
    else if op.op.OpOR? then
      op.conditionAny != [] && forall i :: 0 <= i < |op.conditionAny| ==> NamesBool(ops, k, op.conditionAny[i])
    else if op.op.OpDurationWhere? then
      && (op.conditionAll != [] || op.conditionAny != [])
      && (forall i :: 0 <= i < |op.conditionAll| ==> NamesTimeline(ops, k, op.conditionAll[i]))
      && (forall i :: 0 <= i < |op.conditionAny| ==> NamesTimeline(ops, k, op.conditionAny[i]))
    else if op.op.OpLongestConsecutiveTrueDuration? then
      && op.params.sourceOperationId.Text?
      && NamesBool(ops, k, op.params.sourceOperationId.text)
      && MinimumFits(lib, op)
    else
      IsStateOp(op) || op.op.OpHasExisted?
  }

  ghost predicate WellPosed(lib: Library, ops: seq<Operation>) {
    DistinctIds(ops) && forall k :: 0 <= k < |ops| ==> InFragment(lib, ops, k)
  }

  // ----- The formula of an operation -----

  /** The position of the operation before `k` that is called `id`. */
  ghost function Named(ops: seq<Operation>, k: nat, id: string): (j: nat)
    requires k <= |ops| && NamesTimeline(ops, k, id)
    ensures j < k && ops[j].id == id
  {
    var j :| 0 <= j < k && ops[j].id == id && (IsBoolOp(ops[j]) || IsStateOp(ops[j]));
    j
  }

  lemma BoolIsTimeline(ops: seq<Operation>, k: nat, id: string)
    requires k <= |ops| && NamesBool(ops, k, id)
    ensures NamesTimeline(ops, k, id)
    ensures DistinctIds(ops) ==> IsBoolOp(ops[Named(ops, k, id)])
  {
  }

  /** The truth of operation `k` at instant `t`. */
  ghost predicate Sat(lib: Library, events: seq<Event>, ops: seq<Operation>, k: nat, t: int)
    requires WellPosed(lib, ops) && k < |ops|
    decreases k
  {
    assert InFragment(lib, ops, k);
    var op := ops[k];
    var typed := OfType(events, op.source);
    if op.op.OpLatestEventToState? then LatestIs(lib.es(typed), op.equals, t)
    else if op.op.OpHasExisted? then MatchBefore(typed, op.equals, t)
    else if op.op.OpHasExistedWithin? then MatchWithin(typed, op.equals, lib.parse(op.params.window.text).value, t)
    else if op.op.OpAND? then
      forall i :: 0 <= i < |op.conditionAll| ==>
        (BoolIsTimeline(ops, k, op.conditionAll[i]); Sat(lib, events, ops, Named(ops, k, op.conditionAll[i]), t))
    else if op.op.OpOR? then
      exists i :: 0 <= i < |op.conditionAny| &&
        (BoolIsTimeline(ops, k, op.conditionAny[i]); Sat(lib, events, ops, Named(ops, k, op.conditionAny[i]), t))
    else
      false
  }

  /** The formula a `DurationWhere` operation at `k` measures. */
  ghost predicate SatCondition(lib: Library, events: seq<Event>, ops: seq<Operation>, k: nat, t: int)
    requires WellPosed(lib, ops) && k < |ops| && ops[k].op.OpDurationWhere?
  {
    assert InFragment(lib, ops, k);
    var op := ops[k];
    if op.conditionAll != [] then
      forall i :: 0 <= i < |op.conditionAll| ==> Sat(lib, events, ops, Named(ops, k, op.conditionAll[i]), t)
    else
      exists i :: 0 <= i < |op.conditionAny| && Sat(lib, events, ops, Named(ops, k, op.conditionAny[i]), t)
  }

  // ----- What a result has to be -----

  /** True exactly where the formula of operation `k` holds. */
  ghost predicate Tracks(lib: Library, events: seq<Event>, ops: seq<Operation>, k: nat, tl: BoolTimeline)
    requires WellPosed(lib, ops) && k < |ops|
  {
    forall t :: t in Instants(tl) <==> Sat(lib, events, ops, k, t)
  }

  /** Disjoint true intervals that are open exactly where the formula of operation `k` holds. */
  ghost predicate Shows(lib: Library, events: seq<Event>, ops: seq<Operation>, k: nat, tl: BoolTimeline)
    requires WellPosed(lib, ops) && k < |ops|
  {
    AllTrue(tl) && WellFormed(tl) && NonOverlapping(tl) && Tracks(lib, events, ops, k, tl)
  }

  /** The instants at which the formula of operation `k` holds, as a set. */
  ghost predicate IsSatSet(lib: Library, events: seq<Event>, ops: seq<Operation>, k: nat, s: set<int>)
    requires WellPosed(lib, ops) && k < |ops|
  {
    forall t :: t in s <==> Sat(lib, events, ops, k, t)
  }

  /** The number of instants that satisfy the measured formula. */
  ghost predicate CountsInstants(lib: Library, events: seq<Event>, ops: seq<Operation>, k: nat, n: int)
    requires WellPosed(lib, ops) && k < |ops| && ops[k].op.OpDurationWhere?
  {
    exists s: set<int> :: n == |s| && forall t :: t in s <==> SatCondition(lib, events, ops, k, t)
  }

  /** The length of the longest run of instants that satisfy the formula of the source. */
  ghost predicate MeasuresRun(lib: Library, events: seq<Event>, ops: seq<Operation>, k: nat, n: int)
    requires WellPosed(lib, ops) && k < |ops| && ops[k].op.OpLongestConsecutiveTrueDuration?
  {
    assert InFragment(lib, ops, k);
    BoolIsTimeline(ops, k, ops[k].params.sourceOperationId.text);
    var source := Named(ops, k, ops[k].params.sourceOperationId.text);
    n >= 0 && exists s :: IsSatSet(lib, events, ops, source, s) && LongestRun(s, LeastRun(lib, ops[k]), n)
  }

  ghost predicate Correct(lib: Library, events: seq<Event>, ops: seq<Operation>, k: nat, v: Value<BoolTimeline>)
    requires WellPosed(lib, ops) && k < |ops|
  {
    if IsStateOp(ops[k]) then
      v.States? && Shows(lib, events, ops, k, AsBool(v.states))
    else if IsBoolOp(ops[k]) then
      v.Bools? && Tidy(v.bools) && Shows(lib, events, ops, k, v.bools)
    else if ops[k].op.OpDurationWhere? then
      v.Seconds? && exists n: int :: CountsSeconds(v.seconds, n) && CountsInstants(lib, events, ops, k, n)
    else
      && ops[k].op.OpLongestConsecutiveTrueDuration?
      && v.Seconds? && exists n: int :: CountsSeconds(v.seconds, n) && MeasuresRun(lib, events, ops, k, n)
  }

  // ----- The operations that read the events -----

  lemma EventOpsCorrect(lib: Library, events: seq<Event>, ops: seq<Operation>, k: nat, prev: Store)
    requires WellPosed(lib, ops) && k < |ops|
    requires ReadsEvents(ops[k])
    ensures var r := Execute(lib, events, ops[k], prev); r.Ok? && Correct(lib, events, ops, k, r.value)
  {
    var op := ops[k];
    assert InFragment(lib, ops, k);
    var typed := OfType(events, op.source);
    if op.op.OpLatestEventToState? {
      assert IsSortOf(EventTime, typed, lib.es(typed));
      PermutationFacts(typed, lib.es(typed));
      StatesMeaning(lib.es(typed), op.equals);
      OrderedNonOverlapping(AsBool(StatesOf(lib.es(typed), op.equals)));
    } else if op.op.OpHasExisted? {
      var tl := Existed(lib.es, typed, op.equals);
      ExistedMeaning(lib.es, typed, op.equals);
      TidyNonOverlapping(tl);
    } else {
      var window := lib.parse(op.params.window.text).value;
      assert WindowOf(lib, op) == Ok(window);
      var tl := ExistedWithin(lib.es, lib.bs, typed, op.equals, window);
      WithinMeaning(lib.es, lib.bs, typed, op.equals, window);
      TidyNonOverlapping(tl);
    }
  }

  // ----- Operands -----

  /** The results before position `k` are all there and correct. */
  ghost predicate CorrectBefore(lib: Library, events: seq<Event>, ops: seq<Operation>, k: nat, prev: Store)
    requires WellPosed(lib, ops) && k <= |ops|
  {
    forall j :: 0 <= j < k ==> ops[j].id in prev && Correct(lib, events, ops, j, prev[ops[j].id])
  }

  lemma {:induction false} OperandsAt(prev: Store, ids: seq<string>)
    requires forall i :: 0 <= i < |ids| ==> ids[i] in prev && prev[ids[i]].Bools?
    ensures |Operands(prev, ids)| == |ids|
    ensures forall i :: 0 <= i < |ids| ==> Operands(prev, ids)[i] == prev[ids[i]].bools
    decreases |ids|
  {
    if ids != [] {
      var init := ids[..|ids| - 1];
      assert forall i :: 0 <= i < |init| ==> init[i] == ids[i];
      OperandsAt(prev, init);
    }
  }

  /** The ids whose results are Boolean timelines. */
  function KeptIds(prev: Store, ids: seq<string>): seq<string> {
    Collect((id: string) => if id in prev && prev[id].Bools? then [id] else [], ids)
  }

  /** AND and OR drop what is missing or not Boolean: they act on the other ids as if only those were
      named. */
  lemma {:induction false} OthersAreDropped(prev: Store, ids: seq<string>)
    ensures Operands(prev, ids) == Operands(prev, KeptIds(prev, ids))
    ensures |Operands(prev, ids)| == |KeptIds(prev, ids)|
    ensures forall i :: 0 <= i < |KeptIds(prev, ids)| ==>
              var id := KeptIds(prev, ids)[i];
              id in prev && prev[id].Bools? && Operands(prev, ids)[i] == prev[id].bools
    decreases |ids|
  {
    if ids != [] {
      var init, last := ids[..|ids| - 1], ids[|ids| - 1];
      OthersAreDropped(prev, init);
      var kept := KeptIds(prev, init);
      if last in prev && prev[last].Bools? {
        assert (kept + [last])[..|kept|] == kept;
      } else {
        assert kept + [] == kept;
      }
    }
  }

  /** The ids whose results are Boolean or state timelines. */
  function ConditionsKept(prev: Store, ids: seq<string>): seq<string> {
    Collect((id: string) => if id in prev && (prev[id].Bools? || prev[id].States?) then [id] else [], ids)
  }

  /** `DurationWhere` drops what is missing and what is neither, and takes a state timeline for the true
      intervals with the bounds of its states. */
  lemma {:induction false} OtherConditionsAreDropped(prev: Store, ids: seq<string>)
    ensures |Conditions(prev, ids)| == |ConditionsKept(prev, ids)|
    ensures forall i :: 0 <= i < |ConditionsKept(prev, ids)| ==>
              var id, tl := ConditionsKept(prev, ids)[i], Conditions(prev, ids)[i];
              && id in prev && (prev[id].Bools? || prev[id].States?)
              && (prev[id].Bools? ==> tl == prev[id].bools)
              && (prev[id].States? ==>
                    |tl| == |prev[id].states|
                    && forall j :: 0 <= j < |tl| ==>
                         tl[j] == BoolInterval(true, prev[id].states[j].start, prev[id].states[j].end))
    decreases |ids|
  {
    if ids != [] {
      OtherConditionsAreDropped(prev, ids[..|ids| - 1]);
    }
  }

  /** So an AND that names state timelines only is the empty timeline, wherever those states hold. */
  lemma AndOfStatesIsEmpty(lib: Library, events: seq<Event>, op: Operation, prev: Store)
    requires op.op.OpAND? && forall id :: id in op.conditionAll ==> id in prev && prev[id].States?
    ensures Execute(lib, events, op, prev) == Ok(Bools([]))
  {
    var kept := KeptIds(prev, op.conditionAll);
    OthersAreDropped(prev, op.conditionAll);
    if kept != [] {
      CollectMember((id: string) => if id in prev && prev[id].Bools? then [id] else [], op.conditionAll, kept[0]);
    }
    assert Operands(prev, op.conditionAll) == [];
  }

  lemma {:induction false} ConditionsAt(prev: Store, ids: seq<string>)
    requires forall i :: 0 <= i < |ids| ==> ids[i] in prev && |ConditionOf(prev, ids[i])| == 1
    ensures |Conditions(prev, ids)| == |ids|
    ensures forall i :: 0 <= i < |ids| ==> Conditions(prev, ids)[i] == ConditionOf(prev, ids[i])[0]
    decreases |ids|
  {
    if ids != [] {
      var init := ids[..|ids| - 1];
      assert forall i :: 0 <= i < |init| ==> init[i] == ids[i];
      ConditionsAt(prev, init);
    }
  }

  lemma BoolOperand(lib: Library, events: seq<Event>, ops: seq<Operation>, k: nat, prev: Store, id: string)
    requires WellPosed(lib, ops) && k < |ops| && CorrectBefore(lib, events, ops, k, prev) && NamesBool(ops, k, id)
    ensures NamesTimeline(ops, k, id) && id in prev && prev[id].Bools?
    ensures Tidy(prev[id].bools) && Shows(lib, events, ops, Named(ops, k, id), prev[id].bools)
  {
    BoolIsTimeline(ops, k, id);
    var j := Named(ops, k, id);
    assert Correct(lib, events, ops, j, prev[ops[j].id]);
  }

  lemma ConditionOperand(lib: Library, events: seq<Event>, ops: seq<Operation>, k: nat, prev: Store, id: string)
    requires WellPosed(lib, ops) && k < |ops| && CorrectBefore(lib, events, ops, k, prev) && NamesTimeline(ops, k, id)
    ensures id in prev && |ConditionOf(prev, id)| == 1
    ensures Shows(lib, events, ops, Named(ops, k, id), ConditionOf(prev, id)[0])
  {
    var j := Named(ops, k, id);
    assert Correct(lib, events, ops, j, prev[ops[j].id]);
    var i :| 0 <= i < k && ops[i].id == id && (IsBoolOp(ops[i]) || IsStateOp(ops[i]));
    assert i == j;
  }

  // ----- AND and OR -----

  lemma AllOperands(lib: Library, events: seq<Event>, ops: seq<Operation>, k: nat, prev: Store, ids: seq<string>)
    requires WellPosed(lib, ops) && k < |ops| && CorrectBefore(lib, events, ops, k, prev)
    requires forall i :: 0 <= i < |ids| ==> NamesBool(ops, k, ids[i])
    ensures forall i :: 0 <= i < |ids| ==> NamesTimeline(ops, k, ids[i])
    ensures var tls := Operands(prev, ids);
            && |tls| == |ids|
            && (forall i :: 0 <= i < |ids| ==> Tidy(tls[i]) && Shows(lib, events, ops, Named(ops, k, ids[i]), tls[i]))
  {
    forall i | 0 <= i < |ids|
      ensures NamesTimeline(ops, k, ids[i]) && ids[i] in prev && prev[ids[i]].Bools?
      ensures Tidy(prev[ids[i]].bools) && Shows(lib, events, ops, Named(ops, k, ids[i]), prev[ids[i]].bools)
    {
      BoolOperand(lib, events, ops, k, prev, ids[i]);
    }
    OperandsAt(prev, ids);
  }

  lemma AndTidy(sort: IntervalSort, tls: seq<BoolTimeline>)
    requires tls != [] && forall i :: 0 <= i < |tls| ==> Tidy(tls[i])
    ensures Tidy(AndAll(sort, tls))
  {
    AndMeaning(sort, tls);
  }

  lemma OrTidy(sort: IntervalSort, tls: seq<BoolTimeline>)
    requires forall i :: 0 <= i < |tls| ==> Tidy(tls[i])
    ensures Tidy(OrAll(sort, tls))
  {
    if |tls| >= 2 {
      OrShape(sort, tls);
    }
  }

  /** The operands of a condition list hold an instant exactly when their formulas do. */
  lemma ConditionSat(lib: Library, events: seq<Event>, ops: seq<Operation>, k: nat, ids: seq<string>,
                     tls: seq<BoolTimeline>, t: int)
    requires WellPosed(lib, ops) && k < |ops| && |tls| == |ids|
    requires forall i :: 0 <= i < |ids| ==>
               NamesTimeline(ops, k, ids[i]) && Tracks(lib, events, ops, Named(ops, k, ids[i]), tls[i])
    ensures InAll(tls, t) <==> forall i :: 0 <= i < |ids| ==> Sat(lib, events, ops, Named(ops, k, ids[i]), t)
    ensures InSome(tls, t) <==> exists i :: 0 <= i < |ids| && Sat(lib, events, ops, Named(ops, k, ids[i]), t)
  {
    forall i | 0 <= i < |ids|
      ensures t in Instants(tls[i]) <==> Sat(lib, events, ops, Named(ops, k, ids[i]), t)
    {
      assert Tracks(lib, events, ops, Named(ops, k, ids[i]), tls[i]);
    }
  }

  lemma SatAnd(lib: Library, events: seq<Event>, ops: seq<Operation>, k: nat, t: int)
    requires WellPosed(lib, ops) && k < |ops| && ops[k].op.OpAND?
    requires forall i :: 0 <= i < |ops[k].conditionAll| ==> NamesTimeline(ops, k, ops[k].conditionAll[i])
    ensures Sat(lib, events, ops, k, t)
            <==> forall i :: 0 <= i < |ops[k].conditionAll| ==>
                   Sat(lib, events, ops, Named(ops, k, ops[k].conditionAll[i]), t)
  {
    assert InFragment(lib, ops, k);
  }

  lemma AndTracks(lib: Library, events: seq<Event>, ops: seq<Operation>, k: nat, tls: seq<BoolTimeline>)
    requires WellPosed(lib, ops) && k < |ops| && ops[k].op.OpAND? && tls != [] && |tls| == |ops[k].conditionAll|
    requires forall i :: 0 <= i < |tls| ==>
               NamesTimeline(ops, k, ops[k].conditionAll[i])
               && Tracks(lib, events, ops, Named(ops, k, ops[k].conditionAll[i]), tls[i])
    ensures Tracks(lib, events, ops, k, AndAll(lib.bs, tls))
  {
    AndMeaning(lib.bs, tls);
    forall t
      ensures InAll(tls, t) <==> Sat(lib, events, ops, k, t)
    {
      ConditionSat(lib, events, ops, k, ops[k].conditionAll, tls, t);
      SatAnd(lib, events, ops, k, t);
    }
  }

  lemma SatOr(lib: Library, events: seq<Event>, ops: seq<Operation>, k: nat, t: int)
    requires WellPosed(lib, ops) && k < |ops| && ops[k].op.OpOR?
    requires forall i :: 0 <= i < |ops[k].conditionAny| ==> NamesTimeline(ops, k, ops[k].conditionAny[i])
    ensures Sat(lib, events, ops, k, t)
            <==> exists i :: 0 <= i < |ops[k].conditionAny|
                             && Sat(lib, events, ops, Named(ops, k, ops[k].conditionAny[i]), t)
  {
    assert InFragment(lib, ops, k);
  }

  lemma OrTracks(lib: Library, events: seq<Event>, ops: seq<Operation>, k: nat, tls: seq<BoolTimeline>)
    requires WellPosed(lib, ops) && k < |ops| && ops[k].op.OpOR? && tls != [] && |tls| == |ops[k].conditionAny|
    requires forall i :: 0 <= i < |tls| ==>
               NamesTimeline(ops, k, ops[k].conditionAny[i])
               && Tracks(lib, events, ops, Named(ops, k, ops[k].conditionAny[i]), tls[i])
    ensures Tracks(lib, events, ops, k, OrAll(lib.bs, tls))
  {
    OrMeaning(lib.bs, tls);
    forall t
      ensures InSome(tls, t) <==> Sat(lib, events, ops, k, t)
    {
      ConditionSat(lib, events, ops, k, ops[k].conditionAny, tls, t);
      SatOr(lib, events, ops, k, t);
    }
  }

  lemma AndCorrect(lib: Library, events: seq<Event>, ops: seq<Operation>, k: nat, prev: Store)
    requires WellPosed(lib, ops) && k < |ops| && CorrectBefore(lib, events, ops, k, prev) && ops[k].op.OpAND?
    ensures var r := Execute(lib, events, ops[k], prev); r.Ok? && Correct(lib, events, ops, k, r.value)
  {
    assert InFragment(lib, ops, k);
    AllOperands(lib, events, ops, k, prev, ops[k].conditionAll);
    var tls := Operands(prev, ops[k].conditionAll);
    AndTracks(lib, events, ops, k, tls);
    AndTidy(lib.bs, tls);
    TidyNonOverlapping(AndAll(lib.bs, tls));
  }

  lemma OrCorrect(lib: Library, events: seq<Event>, ops: seq<Operation>, k: nat, prev: Store)
    requires WellPosed(lib, ops) && k < |ops| && CorrectBefore(lib, events, ops, k, prev) && ops[k].op.OpOR?
    ensures var r := Execute(lib, events, ops[k], prev); r.Ok? && Correct(lib, events, ops, k, r.value)
  {
    assert InFragment(lib, ops, k);
    AllOperands(lib, events, ops, k, prev, ops[k].conditionAny);
    var tls := Operands(prev, ops[k].conditionAny);
    OrTracks(lib, events, ops, k, tls);
    OrTidy(lib.bs, tls);
    TidyNonOverlapping(OrAll(lib.bs, tls));
  }

  // ----- The measures -----

  /** Combining timelines that show formulas gives one whose duration counts the instants. */
  lemma CombinedCounts(sort: IntervalSort, tls: seq<BoolTimeline>)
    requires tls != []
    requires forall i :: 0 <= i < |tls| ==> AllTrue(tls[i]) && WellFormed(tls[i]) && NonOverlapping(tls[i])
    ensures TotalTrue(AndAll(sort, tls)) == |Instants(AndAll(sort, tls))|
    ensures TotalTrue(OrAll(sort, tls)) == |Instants(OrAll(sort, tls))|
  {
    if |tls| >= 2 {
      AndMeaning(sort, tls);
      OrShape(sort, tls);
      TidyNonOverlapping(AndAll(sort, tls));
      TidyNonOverlapping(OrAll(sort, tls));
    }
    DurationCountsInstants(AndAll(sort, tls));
    DurationCountsInstants(OrAll(sort, tls));
  }

  lemma AllCondition(lib: Library, events: seq<Event>, ops: seq<Operation>, k: nat, prev: Store, ids: seq<string>)
    requires WellPosed(lib, ops) && k < |ops| && CorrectBefore(lib, events, ops, k, prev)
    requires forall i :: 0 <= i < |ids| ==> NamesTimeline(ops, k, ids[i])
    ensures var tls := Conditions(prev, ids);
            && |tls| == |ids|
            && (forall i :: 0 <= i < |ids| ==> Shows(lib, events, ops, Named(ops, k, ids[i]), tls[i]))
  {
    forall i | 0 <= i < |ids|
      ensures ids[i] in prev && |ConditionOf(prev, ids[i])| == 1
      ensures Shows(lib, events, ops, Named(ops, k, ids[i]), ConditionOf(prev, ids[i])[0])
    {
      ConditionOperand(lib, events, ops, k, prev, ids[i]);
    }
    ConditionsAt(prev, ids);
  }

  function ConditionIds(op: Operation): seq<string> {
    if op.conditionAll != [] then op.conditionAll else op.conditionAny
  }

  /** The combined timeline is open exactly where the measured formula holds. */
  lemma CombinedSat(lib: Library, events: seq<Event>, ops: seq<Operation>, k: nat, prev: Store, t: int)
    requires WellPosed(lib, ops) && k < |ops| && CorrectBefore(lib, events, ops, k, prev) && ops[k].op.OpDurationWhere?
    ensures t in Instants(Combined(lib, ops[k], prev)) <==> SatCondition(lib, events, ops, k, t)
  {
    assert InFragment(lib, ops, k);
    var ids := ConditionIds(ops[k]);
    var tls := Conditions(prev, ids);
    AllCondition(lib, events, ops, k, prev, ids);
    ConditionSat(lib, events, ops, k, ids, tls, t);
    if ops[k].conditionAll != [] {
      AndMeaning(lib.bs, tls);
    } else {
      OrMeaning(lib.bs, tls);
    }
  }

  lemma DurationCorrect(lib: Library, events: seq<Event>, ops: seq<Operation>, k: nat, prev: Store)
    requires WellPosed(lib, ops) && k < |ops| && CorrectBefore(lib, events, ops, k, prev) && ops[k].op.OpDurationWhere?
    ensures var r := Execute(lib, events, ops[k], prev); r.Ok? && Correct(lib, events, ops, k, r.value)
  {
    assert InFragment(lib, ops, k);
    AllCondition(lib, events, ops, k, prev, ConditionIds(ops[k]));
    CombinedCounts(lib.bs, Conditions(prev, ConditionIds(ops[k])));
    var s := Instants(Combined(lib, ops[k], prev));
    forall t
      ensures t in s <==> SatCondition(lib, events, ops, k, t)
    {
      CombinedSat(lib, events, ops, k, prev, t);
    }
    assert CountsInstants(lib, events, ops, k, |s|);
    InSeconds(|s|);
  }

  lemma LongestMeasured(lib: Library, events: seq<Event>, ops: seq<Operation>, k: nat, tl: BoolTimeline, minimum: int)
    requires WellPosed(lib, ops) && k < |ops| && ops[k].op.OpLongestConsecutiveTrueDuration?
    requires var id := ops[k].params.sourceOperationId;
             && id.Text? && NamesTimeline(ops, k, id.text)
             && MinimumFits(lib, ops[k]) && minimum == LeastRun(lib, ops[k])
             && Tidy(tl) && Shows(lib, events, ops, Named(ops, k, id.text), tl)
    ensures MeasuresRun(lib, events, ops, k, LongestTrue(tl, minimum))
  {
    LongestMeaning(tl, minimum);
    LongestNonNegative(tl, minimum);
    assert IsSatSet(lib, events, ops, Named(ops, k, ops[k].params.sourceOperationId.text), Instants(tl));
  }

  lemma LongestExecuted(lib: Library, events: seq<Event>, op: Operation, prev: Store, id: string, minimum: int)
    requires op.op.OpLongestConsecutiveTrueDuration? && op.params.sourceOperationId.Text?
    requires op.params.sourceOperationId.text == id && id in prev && prev[id].Bools?
             && MinimumOf(lib, op) == Ok(minimum)
    ensures Execute(lib, events, op, prev) == Ok(Seconds(ToSeconds(LongestTrue(prev[id].bools, minimum))))
  {
    assert SourceOf(prev, op) == Ok(prev[id].bools);
  }

  lemma LongestIsCorrect(lib: Library, events: seq<Event>, ops: seq<Operation>, k: nat, n: int)
    requires WellPosed(lib, ops) && k < |ops| && ops[k].op.OpLongestConsecutiveTrueDuration?
    requires MeasuresRun(lib, events, ops, k, n)
    ensures Correct(lib, events, ops, k, Seconds(ToSeconds(n)))
  {
    InSeconds(n);
  }

  lemma LongestInputs(lib: Library, ops: seq<Operation>, k: nat) returns (id: string, minimum: int)
    requires WellPosed(lib, ops) && k < |ops| && ops[k].op.OpLongestConsecutiveTrueDuration?
    ensures ops[k].params.sourceOperationId.Text? && ops[k].params.sourceOperationId.text == id
    ensures NamesBool(ops, k, id) && MinimumFits(lib, ops[k]) && minimum == LeastRun(lib, ops[k])
    ensures MinimumOf(lib, ops[k]) == Ok(minimum)
  {
    assert InFragment(lib, ops, k);
    id, minimum := ops[k].params.sourceOperationId.text, LeastRun(lib, ops[k]);
  }

  lemma LongestCorrect(lib: Library, events: seq<Event>, ops: seq<Operation>, k: nat, prev: Store)
    requires WellPosed(lib, ops) && k < |ops| && CorrectBefore(lib, events, ops, k, prev)
    requires ops[k].op.OpLongestConsecutiveTrueDuration?
    ensures var r := Execute(lib, events, ops[k], prev); r.Ok? && Correct(lib, events, ops, k, r.value)
  {
    var id, minimum := LongestInputs(lib, ops, k);
    BoolOperand(lib, events, ops, k, prev, id);
    LongestMeasured(lib, events, ops, k, prev[id].bools, minimum);
    LongestExecuted(lib, events, ops[k], prev, id, minimum);
    LongestIsCorrect(lib, events, ops, k, LongestTrue(prev[id].bools, minimum));
  }

  // ----- The whole list -----

  lemma StepCorrect(lib: Library, events: seq<Event>, ops: seq<Operation>, k: nat, prev: Store)
    requires WellPosed(lib, ops) && k < |ops| && CorrectBefore(lib, events, ops, k, prev)
    ensures var r := Execute(lib, events, ops[k], prev); r.Ok? && Correct(lib, events, ops, k, r.value)
  {
    assert InFragment(lib, ops, k);
    match ops[k].op
    case OpAND => AndCorrect(lib, events, ops, k, prev);
    case OpOR => OrCorrect(lib, events, ops, k, prev);
    case OpDurationWhere => DurationCorrect(lib, events, ops, k, prev);
    case OpLongestConsecutiveTrueDuration => LongestCorrect(lib, events, ops, k, prev);
    case _ => EventOpsCorrect(lib, events, ops, k, prev);
  }

  /** Adding the result of operation `k` under its own id leaves every earlier result in place. */
  lemma StoreGrows(lib: Library, events: seq<Event>, ops: seq<Operation>, k: nat, prev: Store,
                   value: Value<BoolTimeline>)
    requires WellPosed(lib, ops) && k < |ops| && CorrectBefore(lib, events, ops, k, prev)
    requires Correct(lib, events, ops, k, value)
    ensures CorrectBefore(lib, events, ops, k + 1, prev[ops[k].id := value])
  {
  }

  /** The first `k` operations have succeeded with correct results. */
  ghost predicate CorrectUpTo(lib: Library, events: seq<Event>, ops: seq<Operation>, k: nat)
    requires WellPosed(lib, ops) && k <= |ops|
  {
    && RunAll(lib, events, ops[..k]).Ok?
    && CorrectBefore(lib, events, ops, k, RunAll(lib, events, ops[..k]).value)
  }

  lemma EvaluatorStep(lib: Library, events: seq<Event>, ops: seq<Operation>, k: nat)
    requires WellPosed(lib, ops) && k < |ops| && CorrectUpTo(lib, events, ops, k)
    ensures CorrectUpTo(lib, events, ops, k + 1)
  {
    var prev := RunAll(lib, events, ops[..k]).value;
    StepCorrect(lib, events, ops, k, prev);
    var value := Execute(lib, events, ops[k], prev).value;
    StoreGrows(lib, events, ops, k, prev, value);
    RunAppend(lib, events, ops, k, prev, value);
  }

  /** Every operation of a well posed list succeeds, and its result is what its formula says. */
  lemma {:induction false} EvaluatorCorrect(lib: Library, events: seq<Event>, ops: seq<Operation>, n: nat)
    requires WellPosed(lib, ops) && n <= |ops|
    ensures CorrectUpTo(lib, events, ops, n)
    decreases n
  {
    if n > 0 {
      EvaluatorCorrect(lib, events, ops, n - 1);
      EvaluatorStep(lib, events, ops, n - 1);
    }
  }

  /** Which operation's result is the answer: the one called "result", or else the last. */
  predicate Answers(ops: seq<Operation>, k: nat) {
    k < |ops| && (ops[k].id == "result" || (k == |ops| - 1 && "result" !in IdsOf(ops[..k])))
  }

  lemma SomeAnswers(ops: seq<Operation>) returns (k: nat)
    requires ops != []
    ensures Answers(ops, k)
  {
    k := |ops| - 1;
    if "result" in IdsOf(ops[..k]) {
      var op :| op in ops[..k] && op.id == "result";
      k :| 0 <= k < |ops| - 1 && ops[..|ops| - 1][k] == op;
    }
  }

  lemma AnswerIs(lib: Library, events: seq<Event>, ops: seq<Operation>, k: nat)
    requires Answers(ops, k) && RunAll(lib, events, ops).Ok?
    ensures ops[k].id in RunAll(lib, events, ops).value
    ensures Answer(lib, events, ops) == Ok(RunAll(lib, events, ops).value[ops[k].id])
  {
    if ops[k].id == "result" {
      RunKeys(lib, events, ops);
      assert ops[k] in ops;
    } else {
      AnswerIsLast(lib, events, ops);
    }
  }

  /** Evaluator meaning: the answer of a well posed query is correct for the operation that answers.  If
      that is `DurationWhere`, it counts the instants of the formula. */
  lemma AnswerMeaning(lib: Library, events: seq<Event>, ops: seq<Operation>, k: nat)
    requires WellPosed(lib, ops) && Answers(ops, k)
    ensures var r := Answer(lib, events, ops); r.Ok? && Correct(lib, events, ops, k, r.value)
  {
    EvaluatorCorrect(lib, events, ops, |ops|);
    assert ops[..|ops|] == ops;
    AnswerIs(lib, events, ops, k);
  }
}
