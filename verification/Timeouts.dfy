/**
 When timeouts make the orchestrator's outcome depend on more than its children.  Timers start
 when a wait starts, and children are started with an execution timeout of the same ten minutes.
 What a child's wait records is settled exactly when the child does not end as late as the
 timeout; under the execution timeout this leaves a tie at ten minutes sharp, which every child
 stopped by that timeout takes part in.  Whether the tie is open can be read off the children,
 and so can whether it shows in the answer.
 */
module Timeouts {
  import opened Sorting
  import opened Orchestrator
  import opened Assembly

  /** `WorkflowExecutionTimeout`: no child is seen to end later. */
  const EXECUTION_TIMEOUT: nat := 600_000_000_000

  predicate Limited(child: Child) {
    child.Finishes? && child.at <= EXECUTION_TIMEOUT
  }

  ghost predicate AllLimited(futures: Futures) {
    forall id, p: nat :: id in futures && p < |futures[id]| ==> Limited(futures[id][p])
  }

  predicate FaithfulChild(slot: Slot, child: Child) {
    Returns(child) ==> child.outcome.result.operatorId == SlotKey(slot)
  }

  ghost predicate AllFaithful(futures: Futures) {
    forall id, p: nat :: id in futures && p < |futures[id]| ==> FaithfulChild(Slot(id, p), futures[id][p])
  }

  /** A complete run over some iteration order of the futures map. */
  ghost predicate RunOf(futures: Futures, partitions: nat, order: seq<string>, history: seq<Selected>) {
    && Launched(futures, partitions) && DistinctOrder(order) && (forall id :: id in order <==> id in futures)
    && Possible(futures, Slots(order, partitions), history)
  }

  // ----- Any wait can be carried on -----

  function Default(child: Child, now: nat): (selected: Selected)
    ensures MayReport(child, now, selected)
  {
    if child.Finishes? && child.at <= now + TIMEOUT then ChildDone(child.outcome) else TimerFired
  }

  /** Two partial runs over the same slots that have reached the same time, `d` completions apart. */
  ghost predicate Abreast(futures: Futures, slots: seq<Slot>, h: seq<Selected>, k: seq<Selected>, d: int) {
    && Possible(futures, slots, h) && Possible(futures, slots, k)
    && Clock(futures, slots, h) == Clock(futures, slots, k)
    && Run(slots, h).completed - Run(slots, k).completed == d
  }

  lemma BothNext(futures: Futures, slots: seq<Slot>, h: seq<Selected>, k: seq<Selected>, d: int, slot: Slot)
    returns (selected: Selected)
    requires Abreast(futures, slots, h, k, d)
    ensures Abreast(futures, slots + [slot], h + [selected], k + [selected], d)
  {
    selected := Default(ChildOf(futures, slot), Clock(futures, slots, h));
    PossibleNext(futures, slots, h, slot, selected);
    PossibleNext(futures, slots, k, slot, selected);
  }

  /** Such runs can go on in the same way. */
  lemma {:induction false} GoOn(futures: Futures, slots: seq<Slot>, h: seq<Selected>, k: seq<Selected>, d: int,
                                more: seq<Slot>)
    returns (suffix: seq<Selected>)
    requires Abreast(futures, slots, h, k, d)
    ensures Abreast(futures, slots + more, h + suffix, k + suffix, d)
    decreases |more|
  {
    if more == [] {
      suffix := [];
      assert slots + more == slots && h + suffix == h && k + suffix == k;
    } else {
      var first, others := more[0], more[1..];
      var selected := BothNext(futures, slots, h, k, d, first);
      var rest := GoOn(futures, slots + [first], h + [selected], k + [selected], d, others);
      suffix := [selected] + rest;
      assert more == [first] + others;
      Regroup(slots, [first], others);
      Regroup(h, [selected], rest);
      Regroup(k, [selected], rest);
    }
  }

  lemma AtStart(futures: Futures)
    ensures Abreast(futures, [], [], [], 0)
  {
  }

  lemma NothingBefore<T>(s: seq<T>)
    ensures [] + s == s
  {
  }

  /** Any slots can be awaited. */
  lemma SomeRun(futures: Futures, slots: seq<Slot>) returns (history: seq<Selected>)
    ensures Possible(futures, slots, history)
  {
    AtStart(futures);
    history := GoOn(futures, [], [], [], 0, slots);
    NothingBefore(slots);
    NothingBefore(history);
  }

  // ----- How far the clock gets -----

  lemma ClockStep(futures: Futures, slots: seq<Slot>, history: seq<Selected>, i: nat)
    requires Possible(futures, slots, history) && i < |slots|
    ensures Clock(futures, slots[..i + 1], history[..i + 1])
            == Later(ChildOf(futures, slots[i]), Clock(futures, slots[..i], history[..i]), history[i])
    ensures MayReport(ChildOf(futures, slots[i]), Clock(futures, slots[..i], history[..i]), history[i])
  {
    assert slots[..i + 1][..i] == slots[..i] && history[..i + 1][..i] == history[..i];
  }

  lemma LaterMoves(child: Child, now: nat, selected: Selected)
    requires MayReport(child, now, selected)
    ensures Later(child, now, selected) >= now
    ensures child.Finishes? && child.at > 0 ==> Later(child, now, selected) > 0
  {
  }

  lemma ClockGrows(futures: Futures, slots: seq<Slot>, history: seq<Selected>, n: nat)
    requires Possible(futures, slots, history) && n < |slots|
    ensures Clock(futures, slots[..n + 1], history[..n + 1]) >= Clock(futures, slots[..n], history[..n])
    ensures ChildOf(futures, slots[n]).Finishes? && ChildOf(futures, slots[n]).at > 0 ==>
              Clock(futures, slots[..n + 1], history[..n + 1]) > 0
  {
    ClockStep(futures, slots, history, n);
    LaterMoves(ChildOf(futures, slots[n]), Clock(futures, slots[..n], history[..n]), history[n]);
  }

  lemma {:induction false} NeverFalls(times: seq<int>, j: nat, i: nat)
    requires j <= i < |times| && forall n :: 0 <= n < |times| - 1 ==> times[n] <= times[n + 1]
    ensures times[j] <= times[i]
    decreases i
  {
    if j < i {
      NeverFalls(times, j, i - 1);
    }
  }

  /** The times at which the waits start. */
  lemma ClockTimes(futures: Futures, slots: seq<Slot>, history: seq<Selected>) returns (times: seq<int>)
    requires Possible(futures, slots, history)
    ensures |times| == |slots| + 1
    ensures forall n :: 0 <= n <= |slots| ==> times[n] == Clock(futures, slots[..n], history[..n])
    ensures forall n :: 0 <= n < |times| - 1 ==> times[n] <= times[n + 1]
  {
    times := seq(|slots| + 1, n requires 0 <= n <= |slots| => Clock(futures, slots[..n], history[..n]));
    forall n | 0 <= n < |slots|
      ensures times[n] <= times[n + 1]
    {
      ClockGrows(futures, slots, history, n);
    }
  }

  /** The clock never goes back, and waiting for a child that took time moves it. */
  lemma ClockPasses(futures: Futures, slots: seq<Slot>, history: seq<Selected>, j: nat, i: nat)
    requires Possible(futures, slots, history) && j < i <= |slots| && ChildOf(futures, slots[j]).Finishes?
    requires ChildOf(futures, slots[j]).at > 0
    ensures Clock(futures, slots[..i], history[..i]) > 0
  {
    var times := ClockTimes(futures, slots, history);
    ClockGrows(futures, slots, history, j);
    NeverFalls(times, j + 1, i);
  }

  /** Waiting for children that end at once takes no time. */
  lemma {:induction false} NoTime(futures: Futures, slots: seq<Slot>, history: seq<Selected>, n: nat, i: nat)
    requires Possible(futures, slots, history) && n <= i <= |slots|
    requires forall j :: n <= j < i ==> ChildOf(futures, slots[j]).Finishes? && ChildOf(futures, slots[j]).at == 0
    ensures Clock(futures, slots[..i], history[..i]) == Clock(futures, slots[..n], history[..n])
    decreases i
  {
    if n < i {
      NoTime(futures, slots, history, n, i - 1);
      ClockStep(futures, slots, history, i - 1);
    }
  }

  /** Each wait for a child that never ends takes the full timeout. */
  lemma {:induction false} FullTime(futures: Futures, slots: seq<Slot>, history: seq<Selected>, i: nat)
    requires Possible(futures, slots, history) && i <= |slots|
    requires forall j :: 0 <= j < i ==> ChildOf(futures, slots[j]).Never?
    ensures Clock(futures, slots[..i], history[..i]) == i * TIMEOUT
    decreases i
  {
    if i > 0 {
      FullTime(futures, slots, history, i - 1);
      ClockStep(futures, slots, history, i - 1);
    }
  }

  lemma NothingTakesTime(futures: Futures, slots: seq<Slot>, history: seq<Selected>)
    requires Possible(futures, slots, history)
    requires forall j :: 0 <= j < |slots| ==> ChildOf(futures, slots[j]).Finishes? && ChildOf(futures, slots[j]).at == 0
    ensures Clock(futures, slots, history) == 0
  {
    NoTime(futures, slots, history, 0, |slots|);
    assert slots[..|slots|] == slots && history[..|slots|] == history;
  }

  lemma FirstPartTakesTime(futures: Futures, a: seq<Slot>, b: seq<Slot>, history: seq<Selected>)
    requires Possible(futures, a + b, history)
    requires forall slot :: slot in a ==> ChildOf(futures, slot).Never?
    requires forall slot :: slot in b ==> ChildOf(futures, slot).Finishes? && ChildOf(futures, slot).at == 0
    ensures Clock(futures, a + b, history) == |a| * TIMEOUT
  {
    var slots := a + b;
    assert forall j :: 0 <= j < |a| ==> slots[j] == a[j];
    assert forall j :: |a| <= j < |slots| ==> slots[j] == b[j - |a|];
    FullTime(futures, slots, history, |a|);
    NoTime(futures, slots, history, |a|, |slots|);
    assert slots[..|slots|] == slots && history[..|slots|] == history;
  }

  // ----- Where a slot stands -----

  lemma OperatorSlotsSplit(id: string, partitions: nat, p: nat)
    requires p < partitions
    ensures OperatorSlots(id, partitions)
            == OperatorSlots(id, p) + [Slot(id, p)] + OperatorSlots(id, partitions)[p + 1..]
  {
  }

  lemma SlotsAround(before: seq<string>, id: string, after: seq<string>, partitions: nat)
    ensures Slots(before + [id] + after, partitions)
            == Slots(before, partitions) + OperatorSlots(id, partitions) + Slots(after, partitions)
  {
    CollectSplit((o: string) => OperatorSlots(o, partitions), before, id, after);
  }

  function Preceding(before: seq<string>, id: string, p: nat, partitions: nat): seq<Slot> {
    Slots(before, partitions) + OperatorSlots(id, p)
  }

  function Following(after: seq<string>, id: string, p: nat, partitions: nat): seq<Slot>
    requires p < partitions
  {
    OperatorSlots(id, partitions)[p + 1..] + Slots(after, partitions)
  }

  lemma SlotPlace(before: seq<string>, id: string, after: seq<string>, p: nat, partitions: nat)
    requires p < partitions
    ensures Slots(before + [id] + after, partitions)
            == Preceding(before, id, p, partitions) + [Slot(id, p)] + Following(after, id, p, partitions)
  {
    SlotsAround(before, id, after, partitions);
    OperatorSlotsSplit(id, partitions, p);
  }

  // ----- What one wait can record -----

  /** In some run, limited to ten minutes per child or not, the wait for the slot's child reports `selected`. */
  ghost predicate Awaited(limited: bool, futures: Futures, partitions: nat, order: seq<string>, history: seq<Selected>,
                          i: nat, slot: Slot, child: Child, selected: Selected) {
    && RunOf(futures, partitions, order, history) && AllFaithful(futures) && (limited ==> AllLimited(futures))
    && i < |history| && Slots(order, partitions)[i] == slot && ChildOf(futures, slot) == child && history[i] == selected
  }

  ghost predicate CanReport(limited: bool, slot: Slot, child: Child, selected: Selected) {
    exists futures, partitions, order, history, i ::
      Awaited(limited, futures, partitions, order, history, i, slot, child, selected)
  }

  const AT_ONCE := Finishes(0, Erred)

  /** The child's operator, whose other partitions end at once, and another operator with `filler` in every
      partition. */
  function World(slot: Slot, child: Child, partitions: nat, other: string, filler: Child): Futures
    requires slot.partition < partitions && other != slot.operatorId
  {
    map[slot.operatorId := seq(partitions, q => if q == slot.partition then child else AT_ONCE),
        other := seq(partitions, q => filler)]
  }

  lemma WorldFacts(limited: bool, slot: Slot, child: Child, partitions: nat, other: string, filler: Child)
    requires slot.partition < partitions && other != slot.operatorId
    requires FaithfulChild(slot, child) && !Returns(filler) && (limited ==> Limited(child) && Limited(filler))
    ensures var futures := World(slot, child, partitions, other, filler);
            && Launched(futures, partitions) && AllFaithful(futures) && (limited ==> AllLimited(futures))
            && ChildOf(futures, slot) == child
            && (forall q: nat :: q < slot.partition ==> ChildOf(futures, Slot(slot.operatorId, q)) == AT_ONCE)
            && (forall q: nat :: q < partitions ==> ChildOf(futures, Slot(other, q)) == filler)
  {
  }

  /** A run up to the slot, whatever may be reported then, and a way to go on make a complete run. */
  lemma CompleteRun(futures: Futures, partitions: nat, before: seq<string>, after: seq<string>,
                    h: seq<Selected>, slot: Slot, selected: Selected) returns (history: seq<Selected>)
    requires slot.partition < partitions
    requires var pre := Preceding(before, slot.operatorId, slot.partition, partitions);
             Possible(futures, pre, h) && MayReport(ChildOf(futures, slot), Clock(futures, pre, h), selected)
    ensures var slots := Slots(before + [slot.operatorId] + after, partitions);
            && Possible(futures, slots, history)
            && |h| < |history| && slots[|h|] == slot && history[|h|] == selected
  {
    var pre := Preceding(before, slot.operatorId, slot.partition, partitions);
    PossibleNext(futures, pre, h, slot, selected);
    var suffix := GoOn(futures, pre + [slot], h + [selected], h + [selected], 0,
                       Following(after, slot.operatorId, slot.partition, partitions));
    SlotPlace(before, slot.operatorId, after, slot.partition, partitions);
    history := h + [selected] + suffix;
  }

  lemma ReportedInRun(limited: bool, futures: Futures, partitions: nat, before: seq<string>, after: seq<string>,
                      h: seq<Selected>, slot: Slot, selected: Selected)
    requires var order := before + [slot.operatorId] + after;
             && Launched(futures, partitions) && DistinctOrder(order) && (forall id :: id in order <==> id in futures)
    requires AllFaithful(futures) && (limited ==> AllLimited(futures)) && slot.partition < partitions
    requires var pre := Preceding(before, slot.operatorId, slot.partition, partitions);
             Possible(futures, pre, h) && MayReport(ChildOf(futures, slot), Clock(futures, pre, h), selected)
    ensures CanReport(limited, slot, ChildOf(futures, slot), selected)
  {
    var history := CompleteRun(futures, partitions, before, after, h, slot, selected);
    assert Awaited(limited, futures, partitions, before + [slot.operatorId] + after, history, |h|, slot,
                   ChildOf(futures, slot), selected);
  }

  lemma FirstPreceding(id: string, p: nat, partitions: nat)
    ensures Preceding([], id, p, partitions) == OperatorSlots(id, p)
  {
  }

  lemma TwoOperators(a: string, b: string, futures: Futures)
    requires a != b && futures.Keys == {a, b}
    ensures [] + [a] + [b] == [a, b] == [a] + [b] + []
    ensures DistinctOrder([a, b]) && forall id :: id in [a, b] <==> id in futures
  {
    assert forall id :: id in futures <==> id in futures.Keys;
  }

  /** Children of two operators, one of them that of `slot`, whose earlier partitions end at once. */
  ghost predicate Stage(limited: bool, futures: Futures, partitions: nat, slot: Slot, other: string) {
    && Launched(futures, partitions) && AllFaithful(futures) && (limited ==> AllLimited(futures))
    && futures.Keys == {slot.operatorId, other} && other != slot.operatorId && slot.partition < partitions
    && forall q: nat :: q < slot.partition ==> ChildOf(futures, Slot(slot.operatorId, q)) == AT_ONCE
  }

  /** The operator of the slot comes first: its wait starts at once. */
  lemma FirstOnStage(limited: bool, futures: Futures, partitions: nat, slot: Slot, other: string, selected: Selected)
    requires Stage(limited, futures, partitions, slot, other) && MayReport(ChildOf(futures, slot), 0, selected)
    ensures CanReport(limited, slot, ChildOf(futures, slot), selected)
  {
    var id := slot.operatorId;
    var h := SomeRun(futures, OperatorSlots(id, slot.partition));
    NothingTakesTime(futures, OperatorSlots(id, slot.partition), h);
    FirstPreceding(id, slot.partition, partitions);
    TwoOperators(id, other, futures);
    ReportedInRun(limited, futures, partitions, [], [other], h, slot, selected);
  }

  /** The other operator, none of whose children ever ends, comes first: the wait starts late. */
  lemma LastOnStage(futures: Futures, partitions: nat, slot: Slot, other: string, selected: Selected)
    requires Stage(false, futures, partitions, slot, other)
    requires forall q: nat :: q < partitions ==> ChildOf(futures, Slot(other, q)).Never?
    requires MayReport(ChildOf(futures, slot), partitions * TIMEOUT, selected)
    ensures CanReport(false, slot, ChildOf(futures, slot), selected)
  {
    var id := slot.operatorId;
    OnlyOperator(other, partitions);
    var h := SomeRun(futures, Preceding([other], id, slot.partition, partitions));
    FirstPartTakesTime(futures, OperatorSlots(other, partitions), OperatorSlots(id, slot.partition), h);
    TwoOperators(other, id, futures);
    ReportedInRun(false, futures, partitions, [other], [], h, slot, selected);
  }

  lemma AwaitedFirst(limited: bool, slot: Slot, child: Child, selected: Selected)
    requires FaithfulChild(slot, child) && (limited ==> Limited(child)) && MayReport(child, 0, selected)
    ensures CanReport(limited, slot, child, selected)
  {
    var other, partitions := slot.operatorId + "x", slot.partition + 1;
    WorldFacts(limited, slot, child, partitions, other, AT_ONCE);
    FirstOnStage(limited, World(slot, child, partitions, other, AT_ONCE), partitions, slot, other, selected);
  }

  lemma AwaitedLate(slot: Slot, child: Child)
    requires FaithfulChild(slot, child) && child.Finishes?
    ensures CanReport(false, slot, child, ChildDone(child.outcome))
  {
    var other, partitions := slot.operatorId + "x", slot.partition + child.at + 1;
    WorldFacts(false, slot, child, partitions, other, Never);
    assert partitions * TIMEOUT >= partitions;
    LastOnStage(World(slot, child, partitions, other, Never), partitions, slot, other, ChildDone(child.outcome));
  }

  lemma OnlyOperator(id: string, partitions: nat)
    ensures Slots([id], partitions) == OperatorSlots(id, partitions)
  {
    SlotsAround([], id, [], partitions);
    assert [] + [id] + [] == [id];
  }

  lemma OneReport(child: Child, now: nat, selected: Selected)
    requires MayReport(child, now, selected) && !(child.Finishes? && child.at >= now + TIMEOUT)
    ensures selected == Verdict(child)
  {
  }

  lemma LateReports(limited: bool, slot: Slot, child: Child)
    requires FaithfulChild(slot, child) && (limited ==> Limited(child)) && child.Finishes? && child.at >= TIMEOUT
    ensures CanReport(limited, slot, child, TimerFired) && CanReport(limited, slot, child, ChildDone(child.outcome))
  {
    AwaitedFirst(limited, slot, child, TimerFired);
    if limited {
      AwaitedFirst(limited, slot, child, ChildDone(child.outcome));
    } else {
      AwaitedLate(slot, child);
    }
  }

  lemma EarlyReport(limited: bool, slot: Slot, child: Child, selected: Selected)
    requires CanReport(limited, slot, child, selected) && !(child.Finishes? && child.at >= TIMEOUT)
    ensures selected == Verdict(child)
  {
    var futures, partitions: nat, order, history, i: nat :|
      Awaited(limited, futures, partitions, order, history, i, slot, child, selected);
    ClockStep(futures, Slots(order, partitions), history, i);
    OneReport(child, Clock(futures, Slots(order, partitions)[..i], history[..i]), selected);
  }

  /** What the wait for a child records, its entry and its counter, is the same in every iteration order,
      for every way to break ties and whatever the other children do, if and only if the child does
      not end at or after the timeout.  This holds with and without the execution timeout;
      with it, a child that ends late does so at ten minutes sharp. */
  lemma RecordSettled(limited: bool, slot: Slot, child: Child)
    requires FaithfulChild(slot, child) && (limited ==> Limited(child))
    ensures (forall s, t :: CanReport(limited, slot, child, s) && CanReport(limited, slot, child, t) ==>
               SameRecord(slot, s, t))
            <==> !(child.Finishes? && child.at >= TIMEOUT)
  {
    if child.Finishes? && child.at >= TIMEOUT {
      LateReports(limited, slot, child);
      assert !SameRecord(slot, TimerFired, ChildDone(child.outcome));
    } else {
      forall s, t | CanReport(limited, slot, child, s) && CanReport(limited, slot, child, t)
        ensures SameRecord(slot, s, t)
      {
        EarlyReport(limited, slot, child, s);
        EarlyReport(limited, slot, child, t);
      }
    }
  }

  // ----- When the whole state is settled -----

  /** The partition ends at ten minutes sharp, and the partitions of its operator that are awaited
      before it end at once, so that its wait may start at the very beginning. */
  ghost predicate OpenTie(futures: Futures, id: string, p: nat) {
    && id in futures && p < |futures[id]| && futures[id][p].Finishes? && futures[id][p].at == TIMEOUT
    && forall q: nat :: q < p ==> futures[id][q].Finishes? && futures[id][q].at == 0
  }

  lemma HistoryFaithful(futures: Futures, slots: seq<Slot>, history: seq<Selected>)
    requires Possible(futures, slots, history) && AllFaithful(futures)
    ensures FaithfulHistory(slots, history)
  {
    forall i | 0 <= i < |slots|
      ensures Faithful(slots[i], history[i])
    {
      ClockStep(futures, slots, history, i);
    }
  }

  /** When a child is awaited, an earlier partition that took time has moved the clock. */
  lemma WaitStartsLate(futures: Futures, partitions: nat, order: seq<string>, history: seq<Selected>, i: nat, q: nat)
    requires RunOf(futures, partitions, order, history) && i < |Slots(order, partitions)|
    requires q < Slots(order, partitions)[i].partition
    requires var child := ChildOf(futures, Slot(Slots(order, partitions)[i].operatorId, q));
             child.Finishes? && child.at > 0
    ensures Clock(futures, Slots(order, partitions)[..i], history[..i]) > 0
  {
    var slots := Slots(order, partitions);
    var slot := slots[i];
    SlotMember(order, partitions, slot);
    var before, after := SplitAt(order, slot.operatorId);
    SlotPlace(before, slot.operatorId, after, slot.partition, partitions);
    SlotPlace(before, slot.operatorId, after, q, partitions);
    var at := |Preceding(before, slot.operatorId, slot.partition, partitions)|;
    var earlier := |Preceding(before, slot.operatorId, q, partitions)|;
    SlotsDistinct(order, partitions);
    assert slots[at] == slot && slots[earlier] == Slot(slot.operatorId, q);
    assert at == i;
    ClockPasses(futures, slots, history, earlier, i);
  }

  /** A wait that can time out is that of an open tie. */
  lemma TimesOut(futures: Futures, partitions: nat, order: seq<string>, history: seq<Selected>, i: nat)
    requires RunOf(futures, partitions, order, history) && AllLimited(futures) && i < |Slots(order, partitions)|
    requires var slots := Slots(order, partitions);
             ChildOf(futures, slots[i]).Finishes?
             && ChildOf(futures, slots[i]).at >= Clock(futures, slots[..i], history[..i]) + TIMEOUT
    ensures OpenTie(futures, Slots(order, partitions)[i].operatorId, Slots(order, partitions)[i].partition)
  {
    var slot := Slots(order, partitions)[i];
    SlotMember(order, partitions, slot);
    assert Limited(ChildOf(futures, slot));
    forall q: nat | q < slot.partition
      ensures futures[slot.operatorId][q].Finishes? && futures[slot.operatorId][q].at == 0
    {
      assert Limited(futures[slot.operatorId][q]);
      if futures[slot.operatorId][q].at > 0 {
        WaitStartsLate(futures, partitions, order, history, i, q);
      }
    }
  }

  lemma TieBroken(futures: Futures, partitions: nat, order: seq<string>, history: seq<Selected>, i: nat)
    requires RunOf(futures, partitions, order, history) && AllLimited(futures) && i < |Slots(order, partitions)|
    requires forall id, p: nat :: !OpenTie(futures, id, p)
    ensures Reported(futures, Slots(order, partitions)[i], history[i])
  {
    var slots := Slots(order, partitions);
    var child, now := ChildOf(futures, slots[i]), Clock(futures, slots[..i], history[..i]);
    ClockStep(futures, slots, history, i);
    if child.Finishes? && child.at >= now + TIMEOUT {
      TimesOut(futures, partitions, order, history, i);
    } else {
      OneReport(child, now, history[i]);
    }
  }

  lemma SameSlots(futures: Futures, partitions: nat, a: seq<string>, h: seq<Selected>, b: seq<string>, k: seq<Selected>)
    requires RunOf(futures, partitions, a, h) && RunOf(futures, partitions, b, k) && AllFaithful(futures)
    ensures DistinctSlots(Slots(a, partitions)) && FaithfulHistory(Slots(a, partitions), h)
    ensures DistinctSlots(Slots(b, partitions)) && FaithfulHistory(Slots(b, partitions), k)
    ensures multiset(Slots(a, partitions)) == multiset(Slots(b, partitions))
  {
    HistoryFaithful(futures, Slots(a, partitions), h);
    HistoryFaithful(futures, Slots(b, partitions), k);
    SlotsDistinct(a, partitions);
    SlotsDistinct(b, partitions);
    SameElements(a, b);
    CollectPermutation((id: string) => OperatorSlots(id, partitions), a, b);
  }

  lemma SettledState(futures: Futures, partitions: nat, a: seq<string>, h: seq<Selected>, b: seq<string>,
                     k: seq<Selected>)
    requires AllLimited(futures) && AllFaithful(futures) && forall id, p: nat :: !OpenTie(futures, id, p)
    requires RunOf(futures, partitions, a, h) && RunOf(futures, partitions, b, k)
    ensures Run(Slots(a, partitions), h) == Run(Slots(b, partitions), k)
  {
    var sa, sb := Slots(a, partitions), Slots(b, partitions);
    forall i | 0 <= i < |sa|
      ensures Reported(futures, sa[i], h[i])
    {
      TieBroken(futures, partitions, a, h, i);
    }
    forall i | 0 <= i < |sb|
      ensures Reported(futures, sb[i], k[i])
    {
      TieBroken(futures, partitions, b, k, i);
    }
    SameSlots(futures, partitions, a, h, b, k);
    SameState(futures, sa, h, sb, k);
  }

  /** Two histories over the same slots that differ at one wait only, a child that ended against its timer. */
  ghost predicate TiedAt(futures: Futures, slots: seq<Slot>, h: seq<Selected>, k: seq<Selected>, i: nat, slot: Slot) {
    && |slots| == |h| == |k| && i < |slots| && slots[i] == slot && ChildOf(futures, slot).Finishes?
    && h[i] == ChildDone(ChildOf(futures, slot).outcome) && k[i] == TimerFired
    && forall j :: 0 <= j < |slots| && j != i ==> h[j] == k[j]
  }

  function CompletedBy(outcome: Outcome): int { if outcome.Returned? then 1 else 0 }

  /** Up to the open tie no time passes. */
  lemma TieStart(futures: Futures, id: string, p: nat) returns (start: seq<Selected>)
    requires OpenTie(futures, id, p)
    ensures var pre, slot, outcome := OperatorSlots(id, p), Slot(id, p), futures[id][p].outcome;
            |start| == |pre| && Abreast(futures, pre + [slot], start + [ChildDone(outcome)], start + [TimerFired],
                                        CompletedBy(outcome))
  {
    var pre, slot, outcome := OperatorSlots(id, p), Slot(id, p), futures[id][p].outcome;
    start := SomeRun(futures, pre);
    NothingTakesTime(futures, pre, start);
    PossibleNext(futures, pre, start, slot, ChildDone(outcome));
    PossibleNext(futures, pre, start, slot, TimerFired);
  }

  lemma OneDifference<T>(start: seq<T>, x: T, y: T, suffix: seq<T>)
    ensures var h, k := start + [x] + suffix, start + [y] + suffix;
            h[|start|] == x && k[|start|] == y && forall j :: 0 <= j < |h| && j != |start| ==> h[j] == k[j]
  {
  }

  lemma FirstOf(id: string, rest: seq<string>, futures: Futures)
    requires id in futures && DistinctOrder(rest) && forall k :: k in rest <==> k in futures.Keys - {id}
    ensures var order := [] + [id] + rest; DistinctOrder(order) && forall k :: k in order <==> k in futures
  {
    var order := [] + [id] + rest;
    assert id !in rest;
    assert order[0] == id && forall i :: 0 < i < |order| ==> order[i] == rest[i - 1];
  }

  /** The runs that break the tie either way can go on alike. */
  lemma BothWays(futures: Futures, partitions: nat, id: string, p: nat)
    returns (order: seq<string>, h: seq<Selected>, k: seq<Selected>)
    requires Launched(futures, partitions) && OpenTie(futures, id, p)
    ensures RunOf(futures, partitions, order, h) && RunOf(futures, partitions, order, k)
    ensures TiedAt(futures, Slots(order, partitions), h, k, p, Slot(id, p))
    ensures Run(Slots(order, partitions), h).completed
            == Run(Slots(order, partitions), k).completed + CompletedBy(futures[id][p].outcome)
  {
    var rest := EnumerateSet(futures.Keys - {id});
    var start := TieStart(futures, id, p);
    var outcome, after := futures[id][p].outcome, Following(rest, id, p, partitions);
    var done, fired := start + [ChildDone(outcome)], start + [TimerFired];
    var suffix := GoOn(futures, OperatorSlots(id, p) + [Slot(id, p)], done, fired, CompletedBy(outcome), after);
    order, h, k := [] + [id] + rest, done + suffix, fired + suffix;
    FirstOf(id, rest, futures);
    OneDifference(start, ChildDone(outcome), TimerFired, suffix);
    FirstPreceding(id, p, partitions);
    SlotPlace([], id, rest, p, partitions);
  }

  /** Runs that break a tie in different ways store different entries for it and the same for all others. */
  lemma TieEntries(futures: Futures, slots: seq<Slot>, h: seq<Selected>, k: seq<Selected>, i: nat, slot: Slot)
    requires TiedAt(futures, slots, h, k, i, slot) && DistinctSlots(slots)
    requires FaithfulHistory(slots, h) && FaithfulHistory(slots, k)
    ensures var r, q, key := Run(slots, h).results, Run(slots, k).results, SlotKey(slot);
            && r.Keys == q.Keys && key in r && r[key] == Entry(slot, h[i]) && q[key] == Entry(slot, TimerFired)
            && forall other :: other in r && other != key ==> r[other] == q[other]
  {
    EveryRun(slots, h);
    EveryRun(slots, k);
    var r, q := Run(slots, h).results, Run(slots, k).results;
    assert Stored(r, slots[i], h[i]) && Stored(q, slots[i], k[i]);
    forall other | other in r && other != SlotKey(slot)
      ensures r[other] == q[other]
    {
      var s :| s in slots && SlotKey(s) == other;
      var j :| 0 <= j < |slots| && slots[j] == s;
      assert Stored(r, slots[j], h[j]) && Stored(q, slots[j], k[j]);
    }
  }

  lemma TieShows(futures: Futures, partitions: nat, id: string, p: nat)
    returns (order: seq<string>, h: seq<Selected>, k: seq<Selected>)
    requires Launched(futures, partitions) && AllFaithful(futures) && OpenTie(futures, id, p)
    ensures RunOf(futures, partitions, order, h) && RunOf(futures, partitions, order, k)
    ensures Run(Slots(order, partitions), h) != Run(Slots(order, partitions), k)
  {
    order, h, k := BothWays(futures, partitions, id, p);
    if futures[id][p].outcome.Erred? {
      SameSlots(futures, partitions, order, h, order, k);
      TieEntries(futures, Slots(order, partitions), h, k, p, Slot(id, p));
    }
  }

  /** When the run is settled.  With children limited to ten minutes, all iteration orders and
      interleavings end in the same results and counters if and only if no tie is open. */
  lemma RunSettled(futures: Futures, partitions: nat)
    requires Launched(futures, partitions) && AllLimited(futures) && AllFaithful(futures)
    ensures (forall a, h, b, k :: RunOf(futures, partitions, a, h) && RunOf(futures, partitions, b, k) ==>
               Run(Slots(a, partitions), h) == Run(Slots(b, partitions), k))
            <==> forall id, p: nat :: !OpenTie(futures, id, p)
  {
    if id, p: nat :| OpenTie(futures, id, p) {
      var order, h, k := TieShows(futures, partitions, id, p);
    } else {
      forall a, h, b, k | RunOf(futures, partitions, a, h) && RunOf(futures, partitions, b, k)
        ensures Run(Slots(a, partitions), h) == Run(Slots(b, partitions), k)
      {
        SettledState(futures, partitions, a, h, b, k);
      }
    }
  }

  // ----- When the answer is settled -----

  predicate Succeeds(child: Child) {
    Returns(child) && !child.outcome.result.failed
  }

  /** As far as the answer reads it, the entry shows how the child ends. */
  predicate ShowsChild(child: Child, entry: OperatorResult) {
    (entry.failed <==> !Succeeds(child)) && (Succeeds(child) ==> entry == child.outcome.result)
  }

  lemma SeenReport(slot: Slot, child: Child, now: nat, selected: Selected)
    requires MayReport(child, now, selected) && !(Succeeds(child) && child.at >= now + TIMEOUT)
    ensures ShowsChild(child, Entry(slot, selected))
  {
  }

  ghost predicate AllShown(futures: Futures, slots: seq<Slot>, history: seq<Selected>)
    requires |slots| == |history|
  {
    forall i :: 0 <= i < |slots| ==> ShowsChild(ChildOf(futures, slots[i]), Entry(slots[i], history[i]))
  }

  lemma ShownResults(futures: Futures, slots: seq<Slot>, history: seq<Selected>, slot: Slot)
    requires DistinctSlots(slots) && FaithfulHistory(slots, history) && AllShown(futures, slots, history)
             && slot in slots
    ensures var r := Run(slots, history).results;
            SlotKey(slot) in r && ShowsChild(ChildOf(futures, slot), r[SlotKey(slot)])
  {
    EveryRun(slots, history);
    var i :| 0 <= i < |slots| && slots[i] == slot;
    assert Stored(Run(slots, history).results, slots[i], history[i]);
  }

  /** Runs that show the same children look alike to the answer. */
  lemma ShownAlike(futures: Futures, a: seq<Slot>, h: seq<Selected>, b: seq<Slot>, k: seq<Selected>)
    requires DistinctSlots(a) && FaithfulHistory(a, h) && AllShown(futures, a, h)
    requires DistinctSlots(b) && FaithfulHistory(b, k) && AllShown(futures, b, k) && multiset(a) == multiset(b)
    ensures AnswerAlike(Run(a, h).results, Run(b, k).results)
  {
    EveryRun(a, h);
    EveryRun(b, k);
    SameKeys(a, b);
    PermutationFacts(a, b);
    var r, q := Run(a, h).results, Run(b, k).results;
    forall key | key in r
      ensures (r[key].failed <==> q[key].failed) && (!r[key].failed ==> r[key] == q[key])
    {
      var slot :| slot in a && SlotKey(slot) == key;
      ShownResults(futures, a, h, slot);
      ShownResults(futures, b, k, slot);
    }
  }

  /** When no child succeeds as late as the timeout, the answer does not depend on the order in which the
      children are awaited, even if children fail late or never end. */
  lemma AnswerIndependent(futures: Futures, partitions: nat, a: seq<string>, h: seq<Selected>,
                          b: seq<string>, k: seq<Selected>, order: seq<string>, last: LastOperation)
    requires RunOf(futures, partitions, a, h) && RunOf(futures, partitions, b, k) && AllFaithful(futures)
    requires forall slot :: slot in Slots(a, partitions) && Succeeds(ChildOf(futures, slot)) ==>
               ChildOf(futures, slot).at < TIMEOUT
    ensures Assembled(Run(Slots(a, partitions), h).results, order, last)
            == Assembled(Run(Slots(b, partitions), k).results, order, last)
  {
    var sa, sb := Slots(a, partitions), Slots(b, partitions);
    SameSlots(futures, partitions, a, h, b, k);
    PermutationFacts(sa, sb);
    PromptShown(futures, sa, h);
    PromptShown(futures, sb, k);
    ShownAlike(futures, sa, h, sb, k);
    AnswerReads(Run(sa, h).results, Run(sb, k).results, order, last);
  }

  lemma PromptShown(futures: Futures, slots: seq<Slot>, history: seq<Selected>)
    requires Possible(futures, slots, history)
    requires forall slot :: slot in slots && Succeeds(ChildOf(futures, slot)) ==> ChildOf(futures, slot).at < TIMEOUT
    ensures AllShown(futures, slots, history)
  {
    forall i | 0 <= i < |slots|
      ensures ShowsChild(ChildOf(futures, slots[i]), Entry(slots[i], history[i]))
    {
      ClockStep(futures, slots, history, i);
      assert slots[i] in slots;
      SeenReport(slots[i], ChildOf(futures, slots[i]), Clock(futures, slots[..i], history[..i]), history[i]);
    }
  }

  /** An open tie of a child that succeeds. */
  ghost predicate OpenSuccess(futures: Futures, id: string, p: nat) {
    OpenTie(futures, id, p) && Succeeds(futures[id][p])
  }

  lemma SuccessesShown(futures: Futures, partitions: nat, order: seq<string>, history: seq<Selected>)
    requires RunOf(futures, partitions, order, history) && AllLimited(futures)
    requires forall id, p: nat :: !OpenSuccess(futures, id, p)
    ensures AllShown(futures, Slots(order, partitions), history)
  {
    var slots := Slots(order, partitions);
    forall i | 0 <= i < |slots|
      ensures ShowsChild(ChildOf(futures, slots[i]), Entry(slots[i], history[i]))
    {
      var child, now := ChildOf(futures, slots[i]), Clock(futures, slots[..i], history[..i]);
      ClockStep(futures, slots, history, i);
      if Succeeds(child) && child.at >= now + TIMEOUT {
        assert !OpenSuccess(futures, slots[i].operatorId, slots[i].partition);
        TimesOut(futures, partitions, order, history, i);
      } else {
        SeenReport(slots[i], child, now, history[i]);
      }
    }
  }

  lemma SettledAnswer(futures: Futures, partitions: nat, a: seq<string>, h: seq<Selected>,
                      b: seq<string>, k: seq<Selected>, order: seq<string>, last: LastOperation)
    requires AllLimited(futures) && AllFaithful(futures) && forall id, p: nat :: !OpenSuccess(futures, id, p)
    requires RunOf(futures, partitions, a, h) && RunOf(futures, partitions, b, k)
    ensures Assembled(Run(Slots(a, partitions), h).results, order, last)
            == Assembled(Run(Slots(b, partitions), k).results, order, last)
  {
    var sa, sb := Slots(a, partitions), Slots(b, partitions);
    SameSlots(futures, partitions, a, h, b, k);
    SuccessesShown(futures, partitions, a, h);
    SuccessesShown(futures, partitions, b, k);
    ShownAlike(futures, sa, h, sb, k);
    AnswerReads(Run(sa, h).results, Run(sb, k).results, order, last);
  }

  lemma SuccessTieShows(futures: Futures, partitions: nat, id: string, p: nat, last: LastOperation)
    returns (a: seq<string>, h: seq<Selected>, k: seq<Selected>, order: seq<string>)
    requires Launched(futures, partitions) && AllFaithful(futures) && OpenSuccess(futures, id, p)
    ensures RunOf(futures, partitions, a, h) && RunOf(futures, partitions, a, k)
    ensures Enumerates(Run(Slots(a, partitions), h).results, order)
    ensures Assembled(Run(Slots(a, partitions), h).results, order, last)
            != Assembled(Run(Slots(a, partitions), k).results, order, last)
  {
    a, h, k := BothWays(futures, partitions, id, p);
    SameSlots(futures, partitions, a, h, a, k);
    TieEntries(futures, Slots(a, partitions), h, k, p, Slot(id, p));
    var r, q := Run(Slots(a, partitions), h).results, Run(Slots(a, partitions), k).results;
    order := EnumerateSet(r.Keys);
    SuccessShows(r, q, order, SlotKey(Slot(id, p)), last);
  }

  /** When the answer is settled.  With children limited to ten minutes and the results map iterated in a
      given order, all runs give the same answer if and only if no child that succeeds has an open tie:
      ties of failing children, such as those stopped by their execution timeout, do not show in it. */
  lemma AnswerSettled(futures: Futures, partitions: nat, last: LastOperation)
    requires Launched(futures, partitions) && AllLimited(futures) && AllFaithful(futures)
    ensures (forall a, h, b, k, order ::
               RunOf(futures, partitions, a, h) && RunOf(futures, partitions, b, k)
               && Enumerates(Run(Slots(a, partitions), h).results, order) ==>
                 Assembled(Run(Slots(a, partitions), h).results, order, last)
                 == Assembled(Run(Slots(b, partitions), k).results, order, last))
            <==> forall id, p: nat :: !OpenSuccess(futures, id, p)
  {
    if id, p: nat :| OpenSuccess(futures, id, p) {
      var a, h, k, order := SuccessTieShows(futures, partitions, id, p, last);
    } else {
      forall a, h, b, k, order | RunOf(futures, partitions, a, h) && RunOf(futures, partitions, b, k)
                                 && Enumerates(Run(Slots(a, partitions), h).results, order)
        ensures Assembled(Run(Slots(a, partitions), h).results, order, last)
                == Assembled(Run(Slots(b, partitions), k).results, order, last)
      {
        SettledAnswer(futures, partitions, a, h, b, k, order, last);
      }
    }
  }
}
