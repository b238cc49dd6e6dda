/**
 Assembling the orchestrator's answer from its results map, which is iterated in an arbitrary
 order.  The answer shows that order exactly when it falls back on the first success met and the
 successes differ, or when it has to list two or more failures and nothing else.
 */
module Assembly {
  import opened Sorting
  import opened Orchestrator

  /** `AllFailed` lists the failed keys in the order met; `NoOutput` is the answer without operations. */
  datatype Answer =
    | NoResults
    | AllFailed(failed: seq<string>)
    | NoOutput(successes: nat, failures: nat)
    | Final(result: string, successes: nat, failures: nat)

  /** The last operation of the request, if there is one. */
  datatype LastOperation = NoOperation | Last(id: string, op: string)

  type Results = map<string, OperatorResult>

  // ----- What the code computes -----

  /** The successful results, in the order of the iteration. */
  function Successes(results: Results, order: seq<string>): seq<OperatorResult> {
    Collect((k: string) => if k in results && !results[k].failed then [results[k]] else [], order)
  }

  function Failures(results: Results, order: seq<string>): seq<string> {
    Collect((k: string) => if k in results && results[k].failed then [k] else [], order)
  }

  /** Where the result of the last operation is looked up; an operation without an id goes by its name. */
  function LastKey(last: LastOperation): string
    requires last.Last?
  {
    Key(if last.id == "" then Key(last.op, 0) else last.id, 0)
  }

  predicate LastSucceeded(results: Results, last: LastOperation) {
    last.Last? && LastKey(last) in results && !results[LastKey(last)].failed
  }

  /** The answer when the map is iterated in the given order: the first partition of the last operator
      if it succeeded, else the first success met. */
  function Assembled(results: Results, order: seq<string>, last: LastOperation): Answer {
    var successes, failures := Successes(results, order), Failures(results, order);
    if |results| == 0 then NoResults
    else if successes == [] then AllFailed(failures)
    else if last.NoOperation? then NoOutput(|successes|, |failures|)
    else if LastSucceeded(results, last) then Final(results[LastKey(last)].result, |successes|, |failures|)
    else Final(successes[0].result, |successes|, |failures|)
  }

  ghost predicate Enumerates(results: Results, order: seq<string>) {
    && (forall i, j :: 0 <= i < j < |order| ==> order[i] != order[j])
    && (forall k :: k in order <==> k in results)
  }

  // ----- What the answer means -----

  ghost function SucceededKeys(results: Results): set<string> {
    set k | k in results && !results[k].failed
  }

  ghost function FailedKeys(results: Results): set<string> {
    set k | k in results && results[k].failed
  }

  /** The key of the first partition of the last operation, letter by letter. */
  function LookupKey(last: LastOperation): string
    requires last.Last?
  {
    if last.id != "" then last.id + "-p0" else last.op + "-p0-p0"
  }

  /** The answer, without regard to the iteration order: no result without entries; the list of the failed
      keys if all failed; else the numbers of succeeded and failed keys and, if there are operations, the
      result of the first partition of the last one if it succeeded, or else that of some success. */
  ghost predicate AnswerMeans(results: Results, last: LastOperation, answer: Answer) {
    var succeeded, failed := SucceededKeys(results), FailedKeys(results);
    if results == map[] then answer == NoResults
    else if succeeded == {} then
      && answer.AllFailed?
      && (forall k :: k in answer.failed <==> k in failed)
      && (forall i, j :: 0 <= i < j < |answer.failed| ==> answer.failed[i] != answer.failed[j])
    else if last.NoOperation? then answer == NoOutput(|succeeded|, |failed|)
    else
      && answer.Final? && answer.successes == |succeeded| && answer.failures == |failed|
      && if LookupKey(last) in succeeded then answer.result == results[LookupKey(last)].result
         else exists k :: k in succeeded && answer.result == results[k].result
  }

  lemma FirstPartition(id: string)
    ensures Key(id, 0) == id + "-p0"
  {
    assert Decimal(0) == "0";
  }

  lemma Lookup(results: Results, last: LastOperation)
    ensures last.Last? ==> LastKey(last) == LookupKey(last)
    ensures last.Last? ==> (LastSucceeded(results, last) <==> LookupKey(last) in SucceededKeys(results))
  {
    if last.Last? {
      FirstPartition(last.id);
      FirstPartition(last.op);
      FirstPartition(last.op + "-p0");
      assert last.op + "-p0" + "-p0" == last.op + "-p0-p0";
    }
  }

  ghost function KeysAmong(results: Results, order: seq<string>, failed: bool): set<string> {
    set k | k in order && k in results && results[k].failed == failed
  }

  lemma {:induction false} CountsAmong(results: Results, order: seq<string>)
    requires forall i, j :: 0 <= i < j < |order| ==> order[i] != order[j]
    ensures |Successes(results, order)| == |KeysAmong(results, order, false)|
    ensures |Failures(results, order)| == |KeysAmong(results, order, true)|
    decreases |order|
  {
    if order == [] {
      assert KeysAmong(results, order, false) == {} && KeysAmong(results, order, true) == {};
    } else {
      var init, k := order[..|order| - 1], order[|order| - 1];
      CountsAmong(results, init);
      AmongLast(results, init, k, false);
      AmongLast(results, init, k, true);
      assert order == init + [k];
    }
  }

  lemma AmongLast(results: Results, init: seq<string>, k: string, failed: bool)
    requires k !in init
    ensures |KeysAmong(results, init + [k], failed)|
            == |KeysAmong(results, init, failed)| + if k in results && results[k].failed == failed then 1 else 0
  {
    var counted := if k in results && results[k].failed == failed then {k} else {};
    assert forall x :: x in init + [k] <==> x in init || x == k;
    assert KeysAmong(results, init + [k], failed) == KeysAmong(results, init, failed) + counted;
  }

  lemma {:induction false} FailuresOnce(results: Results, order: seq<string>)
    requires forall i, j :: 0 <= i < j < |order| ==> order[i] != order[j]
    ensures forall k :: k in Failures(results, order) <==> k in KeysAmong(results, order, true)
    ensures forall i, j :: 0 <= i < j < |Failures(results, order)| ==>
              Failures(results, order)[i] != Failures(results, order)[j]
    decreases |order|
  {
    if order != [] {
      var init, k := order[..|order| - 1], order[|order| - 1];
      FailuresOnce(results, init);
      assert order == init + [k] && k !in init;
      assert forall x :: x in order <==> x in init || x == k;
      assert k !in Failures(results, init);
    }
  }

  lemma AllAmong(results: Results, order: seq<string>)
    requires Enumerates(results, order)
    ensures KeysAmong(results, order, false) == SucceededKeys(results)
    ensures KeysAmong(results, order, true) == FailedKeys(results)
  {
  }

  lemma CountedKeys(results: Results, order: seq<string>)
    requires Enumerates(results, order)
    ensures |Successes(results, order)| == |SucceededKeys(results)|
    ensures |Failures(results, order)| == |FailedKeys(results)|
  {
    CountsAmong(results, order);
    AllAmong(results, order);
  }

  /** Whatever the iteration order, the assembled answer means this. */
  lemma AssembledMeans(results: Results, order: seq<string>, last: LastOperation)
    requires Enumerates(results, order)
    ensures AnswerMeans(results, last, Assembled(results, order, last))
  {
    CountedKeys(results, order);
    Lookup(results, last);
    if SucceededKeys(results) == {} {
      FailuresOnce(results, order);
      AllAmong(results, order);
    } else {
      var first := Successes(results, order)[0];
      SuccessMember(results, order, first);
      var k :| k in order && k in results && !results[k].failed && results[k] == first;
      assert k in SucceededKeys(results);
    }
  }

  /** The first success that the iteration meets. */
  ghost predicate FirstSuccess(results: Results, order: seq<string>, i: nat) {
    && i < |order| && order[i] in SucceededKeys(results)
    && forall j :: 0 <= j < i ==> order[j] !in SucceededKeys(results)
  }

  lemma {:induction false} FirstFound(results: Results, order: seq<string>) returns (i: nat)
    requires Successes(results, order) != []
    ensures FirstSuccess(results, order, i) && Successes(results, order)[0] == results[order[i]]
    decreases |order|
  {
    var init, k := order[..|order| - 1], order[|order| - 1];
    assert order == init + [k];
    if Successes(results, init) == [] {
      i := |order| - 1;
      NoneFound(results, init);
    } else {
      i := FirstFound(results, init);
    }
  }

  lemma {:induction false} NoneFound(results: Results, order: seq<string>)
    requires Successes(results, order) == []
    ensures forall j :: 0 <= j < |order| ==> order[j] !in SucceededKeys(results)
    decreases |order|
  {
    if order != [] {
      NoneFound(results, order[..|order| - 1]);
    }
  }

  lemma {:induction false} FailuresKept(results: Results, order: seq<string>)
    ensures Keeps(order, Failures(results, order), (k: string) => k in results && results[k].failed)
    decreases |order|
  {
    var keep := (k: string) => k in results && results[k].failed;
    if order == [] {
      KeepsNone(keep);
    } else {
      var init, k := order[..|order| - 1], order[|order| - 1];
      FailuresKept(results, init);
      KeepsNext(init, Failures(results, init), keep, k);
      assert order == init + [k];
    }
  }

  /** What the answer takes from the iteration order: the list of the failed keys is in that order, and the
      success that it falls back on is the first. */
  ghost predicate AnswersInOrder(results: Results, order: seq<string>, last: LastOperation, answer: Answer) {
    && (answer.AllFailed? ==> Keeps(order, answer.failed, (k: string) => k in results && results[k].failed))
    && (answer.Final? && last.Last? && LookupKey(last) !in SucceededKeys(results) ==>
          exists i: nat :: FirstSuccess(results, order, i) && answer.result == results[order[i]].result)
  }

  lemma AssembledInOrder(results: Results, order: seq<string>, last: LastOperation)
    ensures AnswersInOrder(results, order, last, Assembled(results, order, last))
  {
    FailuresKept(results, order);
    if Successes(results, order) != [] {
      var i := FirstFound(results, order);
      Lookup(results, last);
    }
  }

  // ----- When the order shows -----

  ghost predicate SuccessesAgree(results: Results) {
    forall k, l :: k in results && l in results && !results[k].failed && !results[l].failed
                   ==> results[k].result == results[l].result
  }

  ghost predicate SomeSucceeded(results: Results) {
    exists k :: k in results && !results[k].failed
  }

  lemma SuccessMember(results: Results, order: seq<string>, r: OperatorResult)
    ensures r in Successes(results, order)
            <==> exists k :: k in order && k in results && !results[k].failed && results[k] == r
  {
    CollectMember((k: string) => if k in results && !results[k].failed then [results[k]] else [], order, r);
  }

  lemma SameCounts(results: Results, a: seq<string>, b: seq<string>)
    requires Enumerates(results, a) && Enumerates(results, b)
    ensures |Successes(results, a)| == |Successes(results, b)|
    ensures |Failures(results, a)| == |Failures(results, b)|
  {
    SameElements(a, b);
    CollectPermutation((k: string) => if k in results && !results[k].failed then [results[k]] else [], a, b);
    CollectPermutation((k: string) => if k in results && results[k].failed then [k] else [], a, b);
    PermutationFacts(Successes(results, a), Successes(results, b));
    PermutationFacts(Failures(results, a), Failures(results, b));
  }

  /** Any key may come first. */
  lemma EnumerateFrom(results: Results, first: string) returns (order: seq<string>)
    requires first in results
    ensures Enumerates(results, order) && order != [] && order[0] == first
  {
    var rest := EnumerateSet(results.Keys - {first});
    order := [first] + rest;
  }

  /** The first success met is that of the first key, if that key holds a success; likewise for failures. */
  lemma FirstMet(results: Results, order: seq<string>)
    requires order != [] && order[0] in results
    ensures !results[order[0]].failed ==>
              Successes(results, order) != [] && Successes(results, order)[0] == results[order[0]]
    ensures results[order[0]].failed ==> Failures(results, order) != [] && Failures(results, order)[0] == order[0]
  {
    var f := (k: string) => if k in results && !results[k].failed then [results[k]] else [];
    var g := (k: string) => if k in results && results[k].failed then [k] else [];
    assert order == [order[0]] + order[1..] && [order[0]][..0] == [];
    CollectConcat(f, [order[0]], order[1..]);
    CollectConcat(g, [order[0]], order[1..]);
    assert Collect(f, [order[0]]) == f(order[0]) && Collect(g, [order[0]]) == g(order[0]);
  }

  lemma NoSuccesses(results: Results, order: seq<string>)
    requires Enumerates(results, order)
    ensures Successes(results, order) == [] <==> !SomeSucceeded(results)
  {
    if k :| k in results && !results[k].failed {
      SuccessMember(results, order, results[k]);
    } else if Successes(results, order) != [] {
      SuccessMember(results, order, Successes(results, order)[0]);
    }
  }

  /** A map of at most one entry has one iteration order. */
  lemma OneOrder(results: Results, a: seq<string>, b: seq<string>)
    requires |results| <= 1 && Enumerates(results, a) && Enumerates(results, b)
    ensures a == b
  {
    DistinctElements(a);
    DistinctElements(b);
    assert (set x | x in a) == results.Keys == (set x | x in b);
    if |a| == 1 {
      assert a[0] in b;
    }
  }

  lemma DifferentAnswers(results: Results, last: LastOperation, k: string, l: string)
    requires last.Last? && !LastSucceeded(results, last)
    requires k in results && l in results && !results[k].failed && !results[l].failed
    requires results[k].result != results[l].result
    ensures exists a, b :: Enumerates(results, a) && Enumerates(results, b)
                           && Assembled(results, a, last) != Assembled(results, b, last)
  {
    var a := EnumerateFrom(results, k);
    var b := EnumerateFrom(results, l);
    FirstMet(results, a);
    FirstMet(results, b);
    assert Assembled(results, a, last) != Assembled(results, b, last);
  }

  lemma DifferentLists(results: Results, last: LastOperation)
    requires !SomeSucceeded(results) && |results| >= 2
    ensures exists a, b :: Enumerates(results, a) && Enumerates(results, b)
                           && Assembled(results, a, last) != Assembled(results, b, last)
  {
    var k :| k in results;
    assert |results.Keys - {k}| == |results| - 1;
    var l :| l in results.Keys - {k};
    var a := EnumerateFrom(results, k);
    var b := EnumerateFrom(results, l);
    FirstMet(results, a);
    FirstMet(results, b);
    NoSuccesses(results, a);
    NoSuccesses(results, b);
    assert Assembled(results, a, last) != Assembled(results, b, last);
  }

  /** With a success, the result is that of the last operation or the successes agree; without one there
      are not two failures to list. */
  ghost predicate OrderHidden(results: Results, last: LastOperation) {
    if SomeSucceeded(results) then
      last.NoOperation? || LookupKey(last) in SucceededKeys(results) || SuccessesAgree(results)
    else
      |results| <= 1
  }

  lemma SameAnswer(results: Results, last: LastOperation, a: seq<string>, b: seq<string>)
    requires OrderHidden(results, last) && Enumerates(results, a) && Enumerates(results, b)
    ensures Assembled(results, a, last) == Assembled(results, b, last)
  {
    Lookup(results, last);
    if SomeSucceeded(results) {
      SameCounts(results, a, b);
      NoSuccesses(results, a);
      NoSuccesses(results, b);
      SuccessMember(results, a, Successes(results, a)[0]);
      SuccessMember(results, b, Successes(results, b)[0]);
    } else {
      OneOrder(results, a, b);
    }
  }

  /** When the order shows.  The answer is the same for every iteration order of the results map if and
      only if some operator succeeded and there are no operations, the last one's first partition
      succeeded or all successes agree, or none succeeded and there is at most one entry. */
  lemma OrderShows(results: Results, last: LastOperation)
    ensures (forall a, b :: Enumerates(results, a) && Enumerates(results, b) ==>
               Assembled(results, a, last) == Assembled(results, b, last))
            <==> OrderHidden(results, last)
  {
    if OrderHidden(results, last) {
      forall a, b | Enumerates(results, a) && Enumerates(results, b)
        ensures Assembled(results, a, last) == Assembled(results, b, last)
      {
        SameAnswer(results, last, a, b);
      }
    } else if SomeSucceeded(results) {
      Lookup(results, last);
      var k, l :| k in results && l in results && !results[k].failed && !results[l].failed
                  && results[k].result != results[l].result;
      DifferentAnswers(results, last, k, l);
    } else {
      DifferentLists(results, last);
    }
  }

  // ----- What the answer reads -----

  /** Maps with the same keys, the same successes and the same failed keys. */
  ghost predicate AnswerAlike(r: Results, q: Results) {
    && r.Keys == q.Keys
    && forall k :: k in r ==> (r[k].failed <==> q[k].failed) && (!r[k].failed ==> r[k] == q[k])
  }

  lemma {:induction false} AlikeLists(r: Results, q: Results, order: seq<string>)
    requires AnswerAlike(r, q)
    ensures Successes(r, order) == Successes(q, order) && Failures(r, order) == Failures(q, order)
    decreases |order|
  {
    if order != [] {
      AlikeLists(r, q, order[..|order| - 1]);
      assert order[|order| - 1] in r.Keys <==> order[|order| - 1] in q.Keys;
    }
  }

  /** Of a failed entry the answer reads nothing but its key: not its error, not its timeout mark. */
  lemma AnswerReads(r: Results, q: Results, order: seq<string>, last: LastOperation)
    requires AnswerAlike(r, q)
    ensures Assembled(r, order, last) == Assembled(q, order, last)
  {
    AlikeLists(r, q, order);
    assert |r| == |r.Keys| == |q.Keys| == |q|;
    if last.Last? {
      assert LastKey(last) in r.Keys <==> LastKey(last) in q.Keys;
    }
  }

  lemma {:induction false} SameSuccesses(r: Results, q: Results, order: seq<string>)
    requires r.Keys == q.Keys && forall k :: k in order && k in r ==> r[k] == q[k]
    ensures Successes(r, order) == Successes(q, order)
    decreases |order|
  {
    if order != [] {
      var k := order[|order| - 1];
      SameSuccesses(r, q, order[..|order| - 1]);
      assert k in r.Keys <==> k in q.Keys;
    }
  }

  lemma SuccessesAround(results: Results, before: seq<string>, k: string, after: seq<string>)
    requires k in results
    ensures |Successes(results, before + [k] + after)|
            == |Successes(results, before)| + (if results[k].failed then 0 else 1) + |Successes(results, after)|
  {
    CollectSplit((o: string) => if o in results && !results[o].failed then [results[o]] else [], before, k, after);
  }

  lemma OneSuccessLess(r: Results, q: Results, order: seq<string>, key: string)
    requires Enumerates(r, order) && r.Keys == q.Keys && key in r && !r[key].failed && q[key].failed
    requires forall k :: k in r && k != key ==> r[k] == q[k]
    ensures |Successes(r, order)| == |Successes(q, order)| + 1
  {
    var before, after := SplitAt(order, key);
    assert order[|before|] == key;
    assert forall i :: 0 <= i < |before| ==> order[i] == before[i];
    assert forall i :: 0 <= i < |after| ==> order[|before| + 1 + i] == after[i];
    assert key !in before && key !in after;
    SameSuccesses(r, q, before);
    SameSuccesses(r, q, after);
    SuccessesAround(r, before, key, after);
    SuccessesAround(q, before, key, after);
  }

  /** But whether an entry is a success always shows. */
  lemma SuccessShows(r: Results, q: Results, order: seq<string>, key: string, last: LastOperation)
    requires Enumerates(r, order) && r.Keys == q.Keys && key in r && !r[key].failed && q[key].failed
    requires forall k :: k in r && k != key ==> r[k] == q[k]
    ensures Assembled(r, order, last) != Assembled(q, order, last)
  {
    OneSuccessLess(r, q, order, key);
    assert key in r.Keys;
  }

  // ----- The code -----

  lemma OneMore(results: Results, order: seq<string>, k: string)
    requires k in results
    ensures Successes(results, order + [k])
            == Successes(results, order) + if results[k].failed then [] else [results[k]]
    ensures Failures(results, order + [k]) == Failures(results, order) + if results[k].failed then [k] else []
  {
    assert (order + [k])[..|order|] == order;
  }

  method AssembleOperatorResults(results: Results, last: LastOperation) returns (answer: Answer)
    ensures exists order :: Enumerates(results, order) && answer == Assembled(results, order, last)
    ensures AnswerMeans(results, last, answer)
  {
    ghost var order: seq<string> := [];
    var successfulResults: seq<OperatorResult> := [];
    var failedOperators: seq<string> := [];
    var remaining := results.Keys;
    while remaining != {}
      invariant forall i, j :: 0 <= i < j < |order| ==> order[i] != order[j]
      invariant forall k :: k in results <==> k in order || k in remaining
      invariant forall k :: k in order ==> k !in remaining
      invariant successfulResults == Successes(results, order) && failedOperators == Failures(results, order)
      decreases remaining
    {
      var operatorId :| operatorId in remaining;
      OneMore(results, order, operatorId);
      if results[operatorId].failed {
        failedOperators := failedOperators + [operatorId];
      } else {
        successfulResults := successfulResults + [results[operatorId]];
      }
      remaining := remaining - {operatorId};
      order := order + [operatorId];
    }
    assert Enumerates(results, order);
    AssembledMeans(results, order, last);
    if |results| == 0 {
      return NoResults;
    }
    if |successfulResults| == 0 {
      return AllFailed(failedOperators);
    }
    match last {
      case NoOperation =>
        answer := NoOutput(|successfulResults|, |failedOperators|);
      case Last(id, op) =>
        var lastOpId := if id == "" then Key(op, 0) else id;
        if Key(lastOpId, 0) in results && !results[Key(lastOpId, 0)].failed {
          answer := Final(results[Key(lastOpId, 0)].result, |successfulResults|, |failedOperators|);
        } else {
          answer := Final(successfulResults[0].result, |successfulResults|, |failedOperators|);
        }
    }
  }
}
