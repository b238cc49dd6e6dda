/**
 The operator orchestrator with result streaming off: one child workflow per operator and
 partition, awaited one after another in the order the futures map happens to be iterated, each
 against a timer.  Whatever the order and whichever of child and timer comes first, every
 child is accounted for once; if no child ends as late as the timeout, the final state does
 not depend on the order.
 */
module Orchestrator {
  import opened Sorting

  /** What is stored for a partition: its result, whether it carries an error, and the timeout mark. */
  datatype OperatorResult =
    OperatorResult(operatorId: string, partitionId: nat, result: string, failed: bool, timedOut: bool)

  datatype Slot = Slot(operatorId: string, partition: nat)

  /** What a child workflow ends with: a result, which may itself report an error, or an error. */
  datatype Outcome = Returned(result: OperatorResult) | Erred

  /** When a child workflow ends, counted from the start of the orchestrator, and with what. */
  datatype Child = Finishes(at: nat, outcome: Outcome) | Never

  /** What the selector reports for one slot. */
  datatype Selected = ChildDone(outcome: Outcome) | TimerFired

  datatype State = State(completed: nat, failed: nat, results: map<string, OperatorResult>)

  const TIMEOUT: nat := 600_000_000_000  // ten minutes

  // ----- Keys -----

  function Digit(d: nat): char
    requires d < 10
  {
    "0123456789"[d]
  }

  /** Decimal notation, as `%d` prints it. */
  function Decimal(n: nat): (s: string)
    ensures s != [] && forall i :: 0 <= i < |s| ==> '0' <= s[i] <= '9'
  {
    if n < 10 then [Digit(n)] else Decimal(n / 10) + [Digit(n % 10)]
  }

  /** The number that decimal digits stand for. */
  function NumberOf(s: string): int {
    if s == "" then 0 else 10 * NumberOf(s[..|s| - 1]) + (s[|s| - 1] as int - '0' as int)
  }

  lemma DigitValue(d: nat)
    requires d < 10
    ensures Digit(d) as int - '0' as int == d
  {
    assert Digit(d) == "0123456789"[d];
  }

  lemma {:induction false} DecimalValue(n: nat)
    ensures NumberOf(Decimal(n)) == n
    decreases n
  {
    var s := Decimal(n);
    DigitValue(n % 10);
    if n < 10 {
      assert s == [Digit(n)] && s[..0] == "";
    } else {
      DecimalValue(n / 10);
      assert s[..|s| - 1] == Decimal(n / 10) && s[|s| - 1] == Digit(n % 10);
    }
  }

  function Key(operatorId: string, partition: nat): string {
    operatorId + "-p" + Decimal(partition)
  }

  lemma DecimalLast(n: nat)
    ensures Decimal(n)[|Decimal(n)| - 1] == Digit(n % 10)
    ensures n >= 10 ==> Decimal(n)[..|Decimal(n)| - 1] == Decimal(n / 10)
    ensures n < 10 <==> |Decimal(n)| == 1
  {
  }

  lemma DigitInjective(c: nat, d: nat)
    requires c < 10 && d < 10 && Digit(c) == Digit(d)
    ensures c == d
  {
  }

  lemma {:induction false} DecimalInjective(m: nat, n: nat)
    requires Decimal(m) == Decimal(n)
    ensures m == n
    decreases m
  {
    DecimalLast(m);
    DecimalLast(n);
    DigitInjective(m % 10, n % 10);
    if m >= 10 {
      DecimalInjective(m / 10, n / 10);
    }
  }

  /** The last letter of a key is the `p` in front of the partition number. */
  lemma KeyShape(a: string, p: nat)
    ensures |Key(a, p)| > |a| + 1 && Key(a, p)[|a| + 1] == 'p'
    ensures forall i :: |a| + 1 < i < |Key(a, p)| ==> '0' <= Key(a, p)[i] <= '9'
    ensures Key(a, p)[..|a|] == a && Key(a, p)[|a| + 2..] == Decimal(p)
  {
    var k, d := Key(a, p), Decimal(p);
    assert forall i :: |a| + 1 < i < |k| ==> k[i] == d[i - |a| - 2];
  }

  /** Different slots have different keys, even when an id itself ends like a key. */
  lemma KeyInjective(a: string, p: nat, b: string, q: nat)
    requires Key(a, p) == Key(b, q)
    ensures a == b && p == q
  {
    KeyShape(a, p);
    KeyShape(b, q);
    assert |a| == |b|;
    DecimalInjective(p, q);
  }

  // ----- One step -----

  /** What is stored for a slot. */
  function Entry(slot: Slot, selected: Selected): OperatorResult {
    match selected
    case ChildDone(Returned(result)) => result
    case ChildDone(Erred) => OperatorResult(Key(slot.operatorId, slot.partition), slot.partition, "", true, false)
    case TimerFired => OperatorResult(Key(slot.operatorId, slot.partition), slot.partition, "", true, true)
  }

  predicate CountsAsCompleted(selected: Selected) {
    selected.ChildDone? && selected.outcome.Returned?
  }

  function Step(state: State, slot: Slot, selected: Selected): State {
    var stored := state.results[Entry(slot, selected).operatorId := Entry(slot, selected)];
    if CountsAsCompleted(selected) then State(state.completed + 1, state.failed, stored)
    else State(state.completed, state.failed + 1, stored)
  }

  const INITIAL := State(0, 0, map[])

  /** The state after awaiting the slots in order, with what the selector reported for each. */
  function Run(slots: seq<Slot>, history: seq<Selected>): State
    requires |slots| == |history|
  {
    if slots == [] then INITIAL
    else Step(Run(slots[..|slots| - 1], history[..|slots| - 1]), slots[|slots| - 1], history[|slots| - 1])
  }

  /** Child workflows return the operator id they were started with. */
  predicate Faithful(slot: Slot, selected: Selected) {
    CountsAsCompleted(selected) ==> selected.outcome.result.operatorId == Key(slot.operatorId, slot.partition)
  }

  ghost predicate DistinctSlots(slots: seq<Slot>) {
    forall i, j :: 0 <= i < j < |slots| ==> slots[i] != slots[j]
  }

  ghost predicate FaithfulHistory(slots: seq<Slot>, history: seq<Selected>) {
    |slots| == |history| && forall i :: 0 <= i < |slots| ==> Faithful(slots[i], history[i])
  }

  function SlotKey(slot: Slot): string { Key(slot.operatorId, slot.partition) }

  ghost function KeysOf(slots: seq<Slot>): set<string> {
    set slot | slot in slots :: SlotKey(slot)
  }

  /** The entry of a slot is stored under its key. */
  ghost predicate Stored(results: map<string, OperatorResult>, slot: Slot, selected: Selected) {
    SlotKey(slot) in results && results[SlotKey(slot)] == Entry(slot, selected)
  }

  ghost predicate AllStored(slots: seq<Slot>, history: seq<Selected>, results: map<string, OperatorResult>)
    requires |slots| == |history|
  {
    forall i :: 0 <= i < |slots| ==> Stored(results, slots[i], history[i])
  }

  /** Every slot is accounted for exactly once. */
  ghost predicate Accounts(slots: seq<Slot>, history: seq<Selected>, s: State)
    requires |slots| == |history|
  {
    && s.completed + s.failed == |slots| == |s.results|
    && s.results.Keys == KeysOf(slots)
    && AllStored(slots, history, s.results)
  }

  lemma FreshKey(slots: seq<Slot>, slot: Slot)
    requires slot !in slots
    ensures SlotKey(slot) !in KeysOf(slots)
  {
    forall other | other in slots
      ensures SlotKey(other) != SlotKey(slot)
    {
      if SlotKey(other) == SlotKey(slot) {
        KeyInjective(other.operatorId, other.partition, slot.operatorId, slot.partition);
      }
    }
  }

  /** A step writes under the slot's own key. */
  lemma EntryKey(slot: Slot, selected: Selected)
    requires Faithful(slot, selected)
    ensures Entry(slot, selected).operatorId == SlotKey(slot)
  {
  }

  lemma KeysAppend(slots: seq<Slot>, slot: Slot)
    ensures KeysOf(slots + [slot]) == KeysOf(slots) + {SlotKey(slot)}
  {
    assert forall x :: x in slots + [slot] <==> x in slots || x == slot;
  }

  lemma MapGrows(m: map<string, OperatorResult>, k: string, v: OperatorResult)
    requires k !in m
    ensures m[k := v].Keys == m.Keys + {k} && |m[k := v]| == |m| + 1
  {
    assert m[k := v].Keys == m.Keys + {k};
    assert |m[k := v].Keys| == |m.Keys| + 1;
  }

  lemma StepGrows(s: State, slot: Slot, selected: Selected)
    requires Faithful(slot, selected) && SlotKey(slot) !in s.results
    ensures var after := Step(s, slot, selected);
            && after.completed + after.failed == s.completed + s.failed + 1
            && after.results.Keys == s.results.Keys + {SlotKey(slot)} && |after.results| == |s.results| + 1
            && Stored(after.results, slot, selected)
            && forall k :: k in s.results ==> k in after.results && after.results[k] == s.results[k]
  {
    EntryKey(slot, selected);
    MapGrows(s.results, SlotKey(slot), Entry(slot, selected));
  }

  lemma StoredStays(slots: seq<Slot>, history: seq<Selected>, before: map<string, OperatorResult>,
                    after: map<string, OperatorResult>, slot: Slot, selected: Selected)
    requires |slots| == |history| && AllStored(slots, history, before) && Stored(after, slot, selected)
    requires forall k :: k in before ==> k in after && after[k] == before[k]
    ensures AllStored(slots + [slot], history + [selected], after)
  {
    forall i | 0 <= i < |slots|
      ensures Stored(after, slots[i], history[i])
    {
      assert Stored(before, slots[i], history[i]);
    }
  }

  lemma StepAccounts(slots: seq<Slot>, history: seq<Selected>, s: State, slot: Slot, selected: Selected)
    requires |slots| == |history| && Accounts(slots, history, s) && slot !in slots && Faithful(slot, selected)
    ensures SlotKey(slot) !in s.results
    ensures Accounts(slots + [slot], history + [selected], Step(s, slot, selected))
  {
    FreshKey(slots, slot);
    StepGrows(s, slot, selected);
    KeysAppend(slots, slot);
    StoredStays(slots, history, s.results, Step(s, slot, selected).results, slot, selected);
  }

  lemma PrefixFits(slots: seq<Slot>, history: seq<Selected>)
    requires DistinctSlots(slots) && FaithfulHistory(slots, history) && slots != []
    ensures var n := |slots| - 1;
            && DistinctSlots(slots[..n]) && FaithfulHistory(slots[..n], history[..n])
            && slots[n] !in slots[..n] && Faithful(slots[n], history[n])
            && slots == slots[..n] + [slots[n]] && history == history[..n] + [history[n]]
  {
  }

  /** What an entry shows: the result that the child returned, or an error under the slot's own key, marked
      if the timer fired. */
  predicate ShowsReport(entry: OperatorResult, slot: Slot, selected: Selected) {
    if selected.ChildDone? && selected.outcome.Returned? then entry == selected.outcome.result
    else
      && entry.operatorId == slot.operatorId + "-p" + Decimal(slot.partition) && entry.partitionId == slot.partition
      && entry.result == "" && entry.failed && (entry.timedOut <==> selected.TimerFired?)
  }

  lemma EntryShows(slot: Slot, selected: Selected)
    ensures ShowsReport(Entry(slot, selected), slot, selected)
  {
  }

  /** Every awaited slot has its entry, which shows what was reported for it. */
  lemma RunShows(slots: seq<Slot>, history: seq<Selected>)
    requires DistinctSlots(slots) && FaithfulHistory(slots, history)
    ensures var results := Run(slots, history).results;
            forall i :: 0 <= i < |slots| ==>
              SlotKey(slots[i]) in results && ShowsReport(results[SlotKey(slots[i])], slots[i], history[i])
  {
    EveryRun(slots, history);
    forall i | 0 <= i < |slots|
      ensures SlotKey(slots[i]) in Run(slots, history).results
      ensures ShowsReport(Run(slots, history).results[SlotKey(slots[i])], slots[i], history[i])
    {
      assert Stored(Run(slots, history).results, slots[i], history[i]);
      EntryShows(slots[i], history[i]);
    }
  }

  /** Every run accounts for its slots, and no step overwrites an entry. */
  lemma {:induction false} EveryRun(slots: seq<Slot>, history: seq<Selected>)
    requires DistinctSlots(slots) && FaithfulHistory(slots, history)
    ensures Accounts(slots, history, Run(slots, history))
    ensures slots != [] ==> SlotKey(slots[|slots| - 1]) !in Run(slots[..|slots| - 1], history[..|slots| - 1]).results
    decreases |slots|
  {
    if slots == [] {
      assert KeysOf(slots) == {};
    } else {
      var n := |slots| - 1;
      PrefixFits(slots, history);
      EveryRun(slots[..n], history[..n]);
      StepAccounts(slots[..n], history[..n], Run(slots[..n], history[..n]), slots[n], history[n]);
    }
  }

  /** The waits that ended with a returned child. */
  ghost function ReturnedAt(history: seq<Selected>): set<int> {
    set i | 0 <= i < |history| && history[i].ChildDone? && history[i].outcome.Returned?
  }

  lemma ReturnedAtLast(history: seq<Selected>, selected: Selected)
    ensures |ReturnedAt(history + [selected])|
            == |ReturnedAt(history)| + if selected.ChildDone? && selected.outcome.Returned? then 1 else 0
  {
    var n, longer := |history|, history + [selected];
    assert longer[n] == selected;
    forall i
      ensures i in ReturnedAt(longer)
              <==> i in ReturnedAt(history) || (i == n && selected.ChildDone? && selected.outcome.Returned?)
    {
      if 0 <= i < n {
        assert longer[i] == history[i];
      }
    }
    assert ReturnedAt(longer)
        == ReturnedAt(history) + if selected.ChildDone? && selected.outcome.Returned? then {n} else {};
  }

  /** The two counters count the waits that ended with a returned child, and the others. */
  lemma {:induction false} CountersCount(slots: seq<Slot>, history: seq<Selected>)
    requires |slots| == |history|
    ensures Run(slots, history).completed == |ReturnedAt(history)|
    ensures Run(slots, history).failed == |slots| - |ReturnedAt(history)|
    decreases |slots|
  {
    if slots == [] {
      assert ReturnedAt(history) == {};
    } else {
      var n := |slots| - 1;
      CountersCount(slots[..n], history[..n]);
      ReturnedAtLast(history[..n], history[n]);
      assert history == history[..n] + [history[n]];
    }
  }

  // ----- The slots of an iteration order -----

  function OperatorSlots(operatorId: string, partitions: nat): seq<Slot> {
    seq(partitions, p requires 0 <= p < partitions => Slot(operatorId, p))
  }

  function Slots(order: seq<string>, partitions: nat): seq<Slot> {
    Collect((id: string) => OperatorSlots(id, partitions), order)
  }

  ghost predicate DistinctOrder(order: seq<string>) {
    forall i, j :: 0 <= i < j < |order| ==> order[i] != order[j]
  }

  lemma SlotMember(order: seq<string>, partitions: nat, slot: Slot)
    ensures slot in Slots(order, partitions) <==> slot.operatorId in order && slot.partition < partitions
  {
    CollectMember((id: string) => OperatorSlots(id, partitions), order, slot);
    if slot.operatorId in order && slot.partition < partitions {
      assert OperatorSlots(slot.operatorId, partitions)[slot.partition] == slot;
    }
  }

  lemma {:induction false} SlotsDistinct(order: seq<string>, partitions: nat)
    requires DistinctOrder(order)
    ensures DistinctSlots(Slots(order, partitions))
    ensures |Slots(order, partitions)| == |order| * partitions
    decreases |order|
  {
    if order != [] {
      var init, last := order[..|order| - 1], order[|order| - 1];
      SlotsDistinct(init, partitions);
      var before, next := Slots(init, partitions), OperatorSlots(last, partitions);
      forall i | 0 <= i < |before|
        ensures before[i].operatorId != last
      {
        SlotMember(init, partitions, before[i]);
      }
      assert (|order| - 1) * partitions + partitions == |order| * partitions;
    }
  }

  /** Bookkeeping, for every iteration order and every mixture of results, errors and timeouts: exactly
      one entry per operator and partition, and the two counters together count them all. */
  lemma Bookkeeping(order: seq<string>, partitions: nat, history: seq<Selected>)
    requires DistinctOrder(order) && FaithfulHistory(Slots(order, partitions), history)
    ensures var s := Run(Slots(order, partitions), history);
            s.completed + s.failed == |order| * partitions == |s.results|
    ensures forall id, p: nat :: Key(id, p) in Run(Slots(order, partitions), history).results
                                 <==> id in order && p < partitions
    ensures forall k :: k in Run(Slots(order, partitions), history).results ==>
              exists slot :: slot in Slots(order, partitions) && k == SlotKey(slot)
  {
    var slots := Slots(order, partitions);
    SlotsDistinct(order, partitions);
    EveryRun(slots, history);
    forall id, p: nat
      ensures Key(id, p) in KeysOf(slots) <==> id in order && p < partitions
    {
      SlotMember(order, partitions, Slot(id, p));
      assert SlotKey(Slot(id, p)) == Key(id, p);
      if Key(id, p) in KeysOf(slots) {
        var slot :| slot in slots && SlotKey(slot) == Key(id, p);
        KeyInjective(slot.operatorId, slot.partition, id, p);
      }
    }
  }

  // ----- Time -----

  type Futures = map<string, seq<Child>>

  ghost predicate Launched(futures: Futures, partitions: nat) {
    forall id :: id in futures ==> |futures[id]| == partitions
  }

  function ChildOf(futures: Futures, slot: Slot): Child {
    if slot.operatorId in futures && slot.partition < |futures[slot.operatorId]|
    then futures[slot.operatorId][slot.partition] else Never
  }

  /** What the selector may report when the wait for a child starts at `now`: the child if it ends by
      the time the timer fires, the timer if the child has not ended before that; either in a tie. */
  predicate MayReport(child: Child, now: nat, selected: Selected) {
    match selected
    case ChildDone(outcome) => child.Finishes? && child.at <= now + TIMEOUT && child.outcome == outcome
    case TimerFired => child.Never? || child.at >= now + TIMEOUT
  }

  function Later(child: Child, now: nat, selected: Selected): nat {
    if selected.TimerFired? || child.Never? then now + TIMEOUT
    else if child.at > now then child.at else now
  }

  /** A wait ends when its timer fires, ten minutes after it began, or when its child has ended, which may be
      before it began. */
  lemma WaitEnds(child: Child, now: nat, selected: Selected)
    requires MayReport(child, now, selected)
    ensures selected.TimerFired? ==> Later(child, now, selected) == now + 600_000_000_000
    ensures selected.ChildDone? ==>
              && child.at <= Later(child, now, selected) && now <= Later(child, now, selected)
              && (Later(child, now, selected) == now || Later(child, now, selected) == child.at)
              && Later(child, now, selected) <= now + 600_000_000_000
  {
  }

  /** The time after the first waits. */
  function Clock(futures: Futures, slots: seq<Slot>, history: seq<Selected>): nat
    requires |slots| == |history|
  {
    if slots == [] then 0
    else
      var n := |slots| - 1;
      Later(ChildOf(futures, slots[n]), Clock(futures, slots[..n], history[..n]), history[n])
  }

  ghost predicate Possible(futures: Futures, slots: seq<Slot>, history: seq<Selected>) {
    && |slots| == |history|
    && forall i :: 0 <= i < |slots| ==>
         MayReport(ChildOf(futures, slots[i]), Clock(futures, slots[..i], history[..i]), history[i])
  }

  predicate Returns(child: Child) {
    child.Finishes? && child.outcome.Returned?
  }

  /** No child ends as late as the timeout.  Children may never end. */
  ghost predicate Prompt(futures: Futures, slots: seq<Slot>) {
    forall i :: 0 <= i < |slots| && ChildOf(futures, slots[i]).Finishes? ==> ChildOf(futures, slots[i]).at < TIMEOUT
  }

  /** What a wait without a timer would report, if it ever did. */
  function Verdict(child: Child): Selected {
    if child.Finishes? then ChildDone(child.outcome) else TimerFired
  }

  /** Two reports that store the same entry and move the same counter. */
  predicate SameRecord(slot: Slot, s: Selected, t: Selected) {
    Entry(slot, s) == Entry(slot, t) && (CountsAsCompleted(s) <==> CountsAsCompleted(t))
  }

  predicate Reported(futures: Futures, slot: Slot, selected: Selected) {
    selected == Verdict(ChildOf(futures, slot))
  }

  lemma PromptHistory(futures: Futures, slots: seq<Slot>, history: seq<Selected>)
    requires Possible(futures, slots, history) && Prompt(futures, slots)
    ensures forall i :: 0 <= i < |slots| ==> Reported(futures, slots[i], history[i])
  {
    forall i | 0 <= i < |slots|
      ensures Reported(futures, slots[i], history[i])
    {
      assert MayReport(ChildOf(futures, slots[i]), Clock(futures, slots[..i], history[..i]), history[i]);
    }
  }

  function ReturningSlots(futures: Futures, slots: seq<Slot>): seq<Slot> {
    Collect((slot: Slot) => if Returns(ChildOf(futures, slot)) then [slot] else [], slots)
  }

  lemma {:induction false} CompletedCount(futures: Futures, slots: seq<Slot>, history: seq<Selected>)
    requires |slots| == |history|
    requires forall i :: 0 <= i < |slots| ==> Reported(futures, slots[i], history[i])
    ensures Run(slots, history).completed == |ReturningSlots(futures, slots)|
    ensures Run(slots, history).completed + Run(slots, history).failed == |slots|
    decreases |slots|
  {
    if slots != [] {
      var n := |slots| - 1;
      assert forall i :: 0 <= i < n ==> slots[..n][i] == slots[i] && history[..n][i] == history[i];
      CompletedCount(futures, slots[..n], history[..n]);
      assert Reported(futures, slots[n], history[n]);
    }
  }

  /** When no child ends as late as the timeout, all iteration orders end in the same state. */
  lemma OrderIndependent(futures: Futures, a: seq<string>, b: seq<string>, partitions: nat,
                         historyA: seq<Selected>, historyB: seq<Selected>)
    requires DistinctOrder(a) && multiset(a) == multiset(b) && DistinctOrder(b)
    requires Prompt(futures, Slots(a, partitions))
    requires Possible(futures, Slots(a, partitions), historyA) && FaithfulHistory(Slots(a, partitions), historyA)
    requires Possible(futures, Slots(b, partitions), historyB) && FaithfulHistory(Slots(b, partitions), historyB)
    ensures Run(Slots(a, partitions), historyA) == Run(Slots(b, partitions), historyB)
  {
    var sa, sb := Slots(a, partitions), Slots(b, partitions);
    CollectPermutation((id: string) => OperatorSlots(id, partitions), a, b);
    PromptPermutation(futures, sa, sb);
    PromptHistory(futures, sa, historyA);
    PromptHistory(futures, sb, historyB);
    SlotsDistinct(a, partitions);
    SlotsDistinct(b, partitions);
    SameState(futures, sa, historyA, sb, historyB);
  }

  /** Runs over the same slots that report how the children end finish in the same state. */
  lemma SameState(futures: Futures, a: seq<Slot>, historyA: seq<Selected>, b: seq<Slot>, historyB: seq<Selected>)
    requires DistinctSlots(a) && DistinctSlots(b) && multiset(a) == multiset(b)
    requires FaithfulHistory(a, historyA) && FaithfulHistory(b, historyB)
    requires forall i :: 0 <= i < |a| ==> Reported(futures, a[i], historyA[i])
    requires forall i :: 0 <= i < |b| ==> Reported(futures, b[i], historyB[i])
    ensures Run(a, historyA) == Run(b, historyB)
  {
    PermutationFacts(a, b);
    CompletedCount(futures, a, historyA);
    CompletedCount(futures, b, historyB);
    SameCompleted(futures, a, b);
    RunHoldsOutcomes(futures, a, historyA);
    RunHoldsOutcomes(futures, b, historyB);
    SameResults(futures, a, b, Run(a, historyA).results, Run(b, historyB).results);
  }

  lemma PromptPermutation(futures: Futures, a: seq<Slot>, b: seq<Slot>)
    requires Prompt(futures, a) && multiset(a) == multiset(b)
    ensures Prompt(futures, b)
  {
    PermutationFacts(a, b);
    forall i | 0 <= i < |b| && ChildOf(futures, b[i]).Finishes?
      ensures ChildOf(futures, b[i]).at < TIMEOUT
    {
      assert b[i] in a;
    }
  }

  lemma SameCompleted(futures: Futures, a: seq<Slot>, b: seq<Slot>)
    requires multiset(a) == multiset(b)
    ensures |ReturningSlots(futures, a)| == |ReturningSlots(futures, b)|
  {
    CollectPermutation((slot: Slot) => if Returns(ChildOf(futures, slot)) then [slot] else [], a, b);
    PermutationFacts(ReturningSlots(futures, a), ReturningSlots(futures, b));
  }

  /** The stored entry of every slot shows how its child ends. */
  ghost predicate HoldsOutcomes(futures: Futures, slots: seq<Slot>, results: map<string, OperatorResult>) {
    results.Keys == KeysOf(slots)
    && forall slot :: slot in slots ==> Stored(results, slot, Verdict(ChildOf(futures, slot)))
  }

  lemma RunHoldsOutcomes(futures: Futures, slots: seq<Slot>, history: seq<Selected>)
    requires DistinctSlots(slots) && FaithfulHistory(slots, history)
    requires forall i :: 0 <= i < |slots| ==> Reported(futures, slots[i], history[i])
    ensures HoldsOutcomes(futures, slots, Run(slots, history).results)
  {
    EveryRun(slots, history);
    forall slot | slot in slots
      ensures Stored(Run(slots, history).results, slot, Verdict(ChildOf(futures, slot)))
    {
      var i :| 0 <= i < |slots| && slots[i] == slot;
      assert Stored(Run(slots, history).results, slots[i], history[i]) && Reported(futures, slots[i], history[i]);
    }
  }

  lemma SameKeys(a: seq<Slot>, b: seq<Slot>)
    requires multiset(a) == multiset(b)
    ensures KeysOf(a) == KeysOf(b)
  {
    PermutationFacts(a, b);
  }

  lemma SameResults(futures: Futures, a: seq<Slot>, b: seq<Slot>,
                    ra: map<string, OperatorResult>, rb: map<string, OperatorResult>)
    requires multiset(a) == multiset(b) && HoldsOutcomes(futures, a, ra) && HoldsOutcomes(futures, b, rb)
    ensures ra == rb
  {
    SameKeys(a, b);
    PermutationFacts(a, b);
    forall k | k in ra
      ensures k in rb && ra[k] == rb[k]
    {
      var slot :| slot in a && SlotKey(slot) == k;
      assert slot in b;
    }
    assert ra.Keys == rb.Keys;
  }

  // ----- The code -----

  /** The orchestrator's mutable state. */
  class OrchestratorState {
    var completedOperators: nat
    var failedOperators: nat
    var results: map<string, OperatorResult>
    var now: nat

    ghost function View(): State
      reads this
    {
      State(completedOperators, failedOperators, results)
    }

    constructor ()
      ensures View() == INITIAL && now == 0
    {
      completedOperators, failedOperators, results, now := 0, 0, map[], 0;
    }

    /** The callback for the child future. */
    method OnChild(slot: Slot, outcome: Outcome)
      modifies this
      ensures View() == Step(old(View()), slot, ChildDone(outcome)) && now == old(now)
    {
      var key := Key(slot.operatorId, slot.partition);
      match outcome {
        case Erred =>
          results := results[key := OperatorResult(key, slot.partition, "", true, false)];
          failedOperators := failedOperators + 1;
        case Returned(result) =>
          results := results[result.operatorId := result];
          completedOperators := completedOperators + 1;
      }
    }

    /** The callback for the timer. */
    method OnTimeout(slot: Slot)
      modifies this
      ensures View() == Step(old(View()), slot, TimerFired) && now == old(now)
    {
      var timeoutResult := OperatorResult(Key(slot.operatorId, slot.partition), slot.partition, "", true, true);
      results := results[timeoutResult.operatorId := timeoutResult];
      failedOperators := failedOperators + 1;
    }

    /** One selector: the child or the timer, whichever is ready first, and either in a tie. */
    method Select(slot: Slot, child: Child) returns (selected: Selected)
      modifies this
      ensures MayReport(child, old(now), selected) && now == Later(child, old(now), selected)
      ensures View() == Step(old(View()), slot, selected)
    {
      var timer := now + TIMEOUT;
      if {
        case child.Finishes? && child.at <= timer =>
          selected := ChildDone(child.outcome);
          OnChild(slot, child.outcome);
          now := if child.at > now then child.at else now;
        case child.Never? || child.at >= timer =>
          selected := TimerFired;
          OnTimeout(slot);
          now := timer;
      }
    }

    /** The state, the clock and the history of selections fit together. */
    ghost predicate Consistent(futures: Futures, slots: seq<Slot>, history: seq<Selected>)
      reads this
    {
      Possible(futures, slots, history) && View() == Run(slots, history) && now == Clock(futures, slots, history)
    }

    /** Waits for one partition of one operator. */
    method AwaitSlot(futures: Futures, slot: Slot, child: Child, ghost slots: seq<Slot>, ghost history: seq<Selected>)
      returns (ghost longer: seq<Selected>)
      requires Consistent(futures, slots, history) && child == ChildOf(futures, slot)
      modifies this
      ensures Consistent(futures, slots + [slot], longer)
    {
      var selected := Select(slot, child);
      PossibleNext(futures, slots, history, slot, selected);
      longer := history + [selected];
    }

    /** Waits for the partitions of one operator. */
    method AwaitOperator(operatorId: string, children: seq<Child>, futures: Futures,
                         ghost slots: seq<Slot>, ghost history: seq<Selected>) returns (ghost longer: seq<Selected>)
      requires operatorId in futures && futures[operatorId] == children
      requires Consistent(futures, slots, history)
      modifies this
      ensures Consistent(futures, slots + OperatorSlots(operatorId, |children|), longer)
    {
      longer := history;
      ghost var reached := slots;
      for i := 0 to |children|
        invariant reached == slots + OperatorSlots(operatorId, i)
        invariant Consistent(futures, reached, longer)
      {
        var slot := Slot(operatorId, i);
        longer := AwaitSlot(futures, slot, children[i], reached, longer);
        NextSlot(slots, operatorId, i);
        reached := reached + [slot];
      }
    }

    /** Waits for all the operators, in whatever order the futures map is iterated. */
    method AwaitAll(futures: Futures, partitions: nat) returns (ghost order: seq<string>, ghost history: seq<Selected>)
      requires Launched(futures, partitions) && View() == INITIAL && now == 0
      modifies this
      ensures DistinctOrder(order) && (forall id :: id in order <==> id in futures)
      ensures Possible(futures, Slots(order, partitions), history)
      ensures View() == Run(Slots(order, partitions), history)
    {
      order, history := [], [];
      var remaining := futures.Keys;
      while remaining != {}
        invariant DistinctOrder(order) && (forall id :: id in futures <==> id in order || id in remaining)
        invariant forall id :: id in order ==> id !in remaining
        invariant Consistent(futures, Slots(order, partitions), history)
        decreases remaining
      {
        var id :| id in remaining;
        history := AwaitOperator(id, futures[id], futures, Slots(order, partitions), history);
        SlotsAppend(order, id, partitions);
        remaining := remaining - {id};
        order := order + [id];
      }
    }
  }

  lemma SlotsAppend(order: seq<string>, id: string, partitions: nat)
    ensures Slots(order + [id], partitions) == Slots(order, partitions) + OperatorSlots(id, partitions)
  {
    assert (order + [id])[..|order|] == order;
  }

  lemma NextSlot(slots: seq<Slot>, operatorId: string, i: nat)
    ensures slots + OperatorSlots(operatorId, i + 1) == slots + OperatorSlots(operatorId, i) + [Slot(operatorId, i)]
  {
  }

  lemma PossibleNext(futures: Futures, slots: seq<Slot>, history: seq<Selected>, slot: Slot, selected: Selected)
    requires Possible(futures, slots, history)
    requires MayReport(ChildOf(futures, slot), Clock(futures, slots, history), selected)
    ensures Possible(futures, slots + [slot], history + [selected])
    ensures Run(slots + [slot], history + [selected]) == Step(Run(slots, history), slot, selected)
    ensures Clock(futures, slots + [slot], history + [selected])
            == Later(ChildOf(futures, slot), Clock(futures, slots, history), selected)
  {
    var s, h := slots + [slot], history + [selected];
    assert s[..|slots|] == slots && h[..|slots|] == history;
    forall i | 0 <= i < |s|
      ensures MayReport(ChildOf(futures, s[i]), Clock(futures, s[..i], h[..i]), h[i])
    {
      assert i < |slots| ==> s[..i] == slots[..i] && h[..i] == history[..i];
    }
  }
}
