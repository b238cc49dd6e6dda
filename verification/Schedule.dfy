/**
 Schedule independence: any two orders of a query's operations that place every operation after
 those it names leave the same results, or both fail.  The results are characterized as the one
 solution of the operations read as equations.
 */
module Schedule {
  import opened Sorting
  import opened Timeline
  import opened Query
  import opened QueryMeaning

  /** The ids an operation names, also inside `Of`. */
  function Refs(op: Operation): set<string>
    decreases op
  {
    (set id | id in op.conditionAll) + (set id | id in op.conditionAny)
    + (if op.params.sourceOperationId.Text?
       then {op.params.sourceOperationId.text} else {})
    + (if op.of.Some? then Refs(op.of.value) else {})
  }

  /** No two operations share an id, and an operation that names another one comes after it. */
  ghost predicate Scheduled(ops: seq<Operation>) {
    && DistinctIds(ops)
    && forall i, j :: 0 <= i < |ops| && 0 <= j < |ops| && ops[j].id in Refs(ops[i]) ==> j < i
  }

  // ----- An operation only looks at what it names -----

  ghost predicate AgreeOn(a: Store, b: Store, ids: set<string>) {
    forall id :: id in ids ==> (id in a <==> id in b) && (id in a ==> a[id] == b[id])
  }

  lemma {:induction false} SameOperands(a: Store, b: Store, ids: seq<string>)
    requires AgreeOn(a, b, set id | id in ids)
    ensures Operands(a, ids) == Operands(b, ids)
    ensures Conditions(a, ids) == Conditions(b, ids)
    decreases |ids|
  {
    if ids != [] {
      var init, last := ids[..|ids| - 1], ids[|ids| - 1];
      assert last in (set id | id in ids);
      assert forall id :: id in init ==> id in ids;
      SameOperands(a, b, init);
    }
  }

  lemma SameSource(a: Store, b: Store, op: Operation)
    requires AgreeOn(a, b, Refs(op))
    ensures SourceOf(a, op) == SourceOf(b, op)
  {
    if op.params.sourceOperationId.Text? {
      assert op.params.sourceOperationId.text in Refs(op);
    }
  }

  lemma SameConditions(lib: Library, a: Store, b: Store, op: Operation)
    requires AgreeOn(a, b, Refs(op))
    ensures Combined(lib, op, a) == Combined(lib, op, b)
    ensures Operands(a, op.conditionAll) == Operands(b, op.conditionAll)
    ensures Operands(a, op.conditionAny) == Operands(b, op.conditionAny)
  {
    SameOperands(a, b, op.conditionAll);
    SameOperands(a, b, op.conditionAny);
  }

  lemma {:induction false} ExecuteLocal(lib: Library, events: seq<Event>, op: Operation, a: Store, b: Store)
    requires AgreeOn(a, b, Refs(op))
    ensures Execute(lib, events, op, a) == Execute(lib, events, op, b)
    decreases op
  {
    match op.op {
      case OpDurationInCurState =>
        if op.of.Some? {
          ExecuteLocal(lib, events, op.of.value, a, b);
        }
      case OpNot =>
        if op.of.Some? {
          ExecuteLocal(lib, events, op.of.value, a, b);
        }
      case OpLongestConsecutiveTrueDuration =>
        SameSource(a, b, op);
      case _ =>
        SameConditions(lib, a, b, op);
    }
  }

  // ----- The results as the solution of equations -----

  /** Every operation, applied to the whole map, gives the result stored for it, and nothing else is stored. */
  ghost predicate Solution(lib: Library, events: seq<Event>, ops: seq<Operation>, results: Store) {
    && (forall op :: op in ops ==> op.id in results && Execute(lib, events, op, results) == Ok(results[op.id]))
    && (forall id :: id in results ==> exists op :: op in ops && op.id == id)
  }

  /** What a results map stores for the operations of a prefix. */
  ghost function Restricted(ops: seq<Operation>, n: nat, results: Store): Store
    requires n <= |ops|
  {
    map id | id in results && exists k :: 0 <= k < n && ops[k].id == id :: results[id]
  }

  lemma PrefixAgrees(ops: seq<Operation>, n: nat, results: Store)
    requires Scheduled(ops) && n < |ops|
    requires forall id :: id in results ==> exists op :: op in ops && op.id == id
    ensures AgreeOn(Restricted(ops, n, results), results, Refs(ops[n]))
  {
    forall id | id in Refs(ops[n]) && id in results
      ensures id in Restricted(ops, n, results)
    {
      var op :| op in ops && op.id == id;
      var j :| 0 <= j < |ops| && ops[j] == op;
      assert j < n;
    }
  }

  lemma RestrictedStep(ops: seq<Operation>, k: nat, results: Store)
    requires k < |ops| && ops[k].id in results
    ensures Restricted(ops, k + 1, results) == Restricted(ops, k, results)[ops[k].id := results[ops[k].id]]
  {
    var step := Restricted(ops, k, results)[ops[k].id := results[ops[k].id]];
    forall id
      ensures id in Restricted(ops, k + 1, results) <==> id in step
    {
      if j :| 0 <= j < k + 1 && ops[j].id == id {
        assert j == k || id in results ==> id in step;
      }
    }
  }

  lemma RestrictedAll(ops: seq<Operation>, results: Store)
    requires forall id :: id in results ==> exists op :: op in ops && op.id == id
    ensures Restricted(ops, |ops|, results) == results
  {
    forall id | id in results
      ensures id in Restricted(ops, |ops|, results)
    {
      var op :| op in ops && op.id == id;
      var k :| 0 <= k < |ops| && ops[k] == op;
    }
  }

  /** One operation, given what the prefix before it has stored. */
  lemma SolutionStep(lib: Library, events: seq<Event>, ops: seq<Operation>, results: Store, k: nat)
    requires Scheduled(ops) && Solution(lib, events, ops, results) && k < |ops|
    requires RunAll(lib, events, ops[..k]) == Ok(Restricted(ops, k, results))
    ensures RunAll(lib, events, ops[..k + 1]) == Ok(Restricted(ops, k + 1, results))
  {
    SolutionAt(lib, events, ops, results, k);
    RestrictedStep(ops, k, results);
    RunAppend(lib, events, ops, k, Restricted(ops, k, results), results[ops[k].id]);
  }

  lemma SolutionAt(lib: Library, events: seq<Event>, ops: seq<Operation>, results: Store, k: nat)
    requires Scheduled(ops) && Solution(lib, events, ops, results) && k < |ops|
    ensures ops[k].id in results
    ensures Execute(lib, events, ops[k], Restricted(ops, k, results)) == Ok(results[ops[k].id])
  {
    assert ops[k] in ops;
    PrefixAgrees(ops, k, results);
    ExecuteLocal(lib, events, ops[k], Restricted(ops, k, results), results);
  }

  /** A scheduled list computes its solution, if it has one. */
  lemma {:induction false} SolutionIsComputed(lib: Library, events: seq<Event>, ops: seq<Operation>, results: Store,
                                              n: nat)
    requires Scheduled(ops) && Solution(lib, events, ops, results) && n <= |ops|
    ensures RunAll(lib, events, ops[..n]) == Ok(Restricted(ops, n, results))
    decreases n
  {
    if n > 0 {
      SolutionIsComputed(lib, events, ops, results, n - 1);
      SolutionStep(lib, events, ops, results, n - 1);
    } else {
      NothingYet(lib, events, ops, results);
    }
  }

  lemma NothingYet(lib: Library, events: seq<Event>, ops: seq<Operation>, results: Store)
    ensures RunAll(lib, events, ops[..0]) == Ok(Restricted(ops, 0, results))
  {
    assert Restricted(ops, 0, results) == map[];
  }

  /** Later operations with other ids do not touch what a prefix has stored. */
  lemma {:induction false} ResultsStay(lib: Library, events: seq<Event>, ops: seq<Operation>, k: nat, n: nat)
    requires k <= n <= |ops| && RunAll(lib, events, ops[..n]).Ok?
    ensures RunAll(lib, events, ops[..k]).Ok?
    ensures var before, after := RunAll(lib, events, ops[..k]).value, RunAll(lib, events, ops[..n]).value;
            forall id :: (forall j :: k <= j < n ==> ops[j].id != id) ==>
                           (id in before <==> id in after) && (id in before ==> before[id] == after[id])
    decreases n
  {
    if k < n {
      assert ops[..n][..n - 1] == ops[..n - 1];
      ResultsStay(lib, events, ops, k, n - 1);
    }
  }

  lemma RunStep(lib: Library, events: seq<Event>, ops: seq<Operation>, k: nat)
    requires k < |ops| && RunAll(lib, events, ops[..k + 1]).Ok?
    ensures RunAll(lib, events, ops[..k]).Ok?
    ensures var prev, next := RunAll(lib, events, ops[..k]).value, RunAll(lib, events, ops[..k + 1]).value;
            ops[k].id in next && Execute(lib, events, ops[k], prev) == Ok(next[ops[k].id])
  {
    assert ops[..k + 1][..k] == ops[..k];
  }

  /** In a finished run each operation still agrees with the results. */
  lemma StillHolds(lib: Library, events: seq<Event>, ops: seq<Operation>, k: nat)
    requires Scheduled(ops) && RunAll(lib, events, ops).Ok? && k < |ops|
    ensures var results := RunAll(lib, events, ops).value;
            ops[k].id in results && Execute(lib, events, ops[k], results) == Ok(results[ops[k].id])
  {
    ResultsStayWhole(lib, events, ops, k + 1);
    ResultsStayWhole(lib, events, ops, k);
    RunStep(lib, events, ops, k);
    OwnResultStays(lib, events, ops, k);
    ExecuteLocal(lib, events, ops[k], RunAll(lib, events, ops[..k]).value, RunAll(lib, events, ops).value);
  }

  lemma ResultsStayWhole(lib: Library, events: seq<Event>, ops: seq<Operation>, k: nat)
    requires k <= |ops| && RunAll(lib, events, ops).Ok?
    ensures RunAll(lib, events, ops[..k]).Ok?
    ensures var before, after := RunAll(lib, events, ops[..k]).value, RunAll(lib, events, ops).value;
            forall id :: (forall j :: k <= j < |ops| ==> ops[j].id != id) ==>
                           (id in before <==> id in after) && (id in before ==> before[id] == after[id])
  {
    assert ops[..|ops|] == ops;
    ResultsStay(lib, events, ops, k, |ops|);
  }

  /** In any list that runs, distinct ids or not: the last operation with an id leaves its result under it,
      computed from what the operations before it had stored. */
  lemma LastWithIdWins(lib: Library, events: seq<Event>, ops: seq<Operation>, k: nat)
    requires k < |ops| && RunAll(lib, events, ops).Ok? && forall j :: k < j < |ops| ==> ops[j].id != ops[k].id
    ensures RunAll(lib, events, ops[..k]).Ok?
    ensures var prev, results := RunAll(lib, events, ops[..k]).value, RunAll(lib, events, ops).value;
            ops[k].id in results && Execute(lib, events, ops[k], prev) == Ok(results[ops[k].id])
  {
    ResultsStayWhole(lib, events, ops, k + 1);
    RunStep(lib, events, ops, k);
  }

  /** A list that does not run fails as its first failing operation does. */
  lemma {:induction false} FirstFailure(lib: Library, events: seq<Event>, ops: seq<Operation>) returns (k: nat)
    requires RunAll(lib, events, ops).Failed?
    ensures k < |ops| && RunAll(lib, events, ops[..k]).Ok?
    ensures Execute(lib, events, ops[k], RunAll(lib, events, ops[..k]).value)
            == Failed(RunAll(lib, events, ops).failure)
    decreases |ops|
  {
    var n := |ops| - 1;
    if RunAll(lib, events, ops[..n]).Ok? {
      k := n;
    } else {
      k := FirstFailure(lib, events, ops[..n]);
      assert ops[..n][..k] == ops[..k];
    }
  }

  lemma OwnResultStays(lib: Library, events: seq<Event>, ops: seq<Operation>, k: nat)
    requires DistinctIds(ops) && k < |ops| && RunAll(lib, events, ops).Ok?
    ensures RunAll(lib, events, ops[..k + 1]).Ok?
    ensures var next, results := RunAll(lib, events, ops[..k + 1]).value, RunAll(lib, events, ops).value;
            ops[k].id in next ==> ops[k].id in results && results[ops[k].id] == next[ops[k].id]
  {
    ResultsStayWhole(lib, events, ops, k + 1);
  }

  /** What a scheduled list computes is a solution. */
  lemma ComputedIsSolution(lib: Library, events: seq<Event>, ops: seq<Operation>)
    requires Scheduled(ops) && RunAll(lib, events, ops).Ok?
    ensures Solution(lib, events, ops, RunAll(lib, events, ops).value)
  {
    var results := RunAll(lib, events, ops).value;
    RunKeys(lib, events, ops);
    forall op | op in ops
      ensures op.id in results && Execute(lib, events, op, results) == Ok(results[op.id])
    {
      var k :| 0 <= k < |ops| && ops[k] == op;
      StillHolds(lib, events, ops, k);
    }
  }

  lemma SolutionPermutation(lib: Library, events: seq<Event>, a: seq<Operation>, b: seq<Operation>, results: Store)
    requires multiset(a) == multiset(b) && Solution(lib, events, a, results)
    ensures Solution(lib, events, b, results)
  {
    PermutationFacts(a, b);
    forall id | id in results
      ensures exists op :: op in b && op.id == id
    {
      var op :| op in a && op.id == id;
      assert op in b;
    }
  }

  lemma OtherOrder(lib: Library, events: seq<Event>, a: seq<Operation>, b: seq<Operation>)
    requires multiset(a) == multiset(b) && Scheduled(a) && Scheduled(b) && RunAll(lib, events, a).Ok?
    ensures RunAll(lib, events, b) == RunAll(lib, events, a)
  {
    var results := RunAll(lib, events, a).value;
    ComputedIsSolution(lib, events, a);
    SolutionPermutation(lib, events, a, b, results);
    SolutionIsComputed(lib, events, b, results, |b|);
    assert b[..|b|] == b;
    RestrictedAll(b, results);
  }

  /** Schedule independence: two schedules of the same operations both fail or give the same results
      map, and then the same answer if an operation is called "result" or the last one is the same. */
  lemma ScheduleIndependence(lib: Library, events: seq<Event>, a: seq<Operation>, b: seq<Operation>)
    requires multiset(a) == multiset(b) && Scheduled(a) && Scheduled(b)
    ensures RunAll(lib, events, a).Ok? <==> RunAll(lib, events, b).Ok?
    ensures RunAll(lib, events, a).Ok? ==> RunAll(lib, events, a) == RunAll(lib, events, b)
    ensures RunAll(lib, events, a).Ok? && (exists op :: op in a && op.id == "result") ==>
              Answer(lib, events, a) == Answer(lib, events, b)
    ensures RunAll(lib, events, a).Ok? && a != [] && a[|a| - 1] == b[|b| - 1] ==>
              Answer(lib, events, a) == Answer(lib, events, b)
  {
    PermutationFacts(a, b);
    if RunAll(lib, events, a).Ok? {
      OtherOrder(lib, events, a, b);
      ComputedIsSolution(lib, events, a);
    }
    if RunAll(lib, events, b).Ok? {
      OtherOrder(lib, events, b, a);
    }
  }
}
