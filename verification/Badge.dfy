/**
 Badges as queries plus a threshold on the longest run.
 Daily Engagement is earned exactly when the qualifying events contain a chain that bridges a
 week.  Streak Maintainer, whose query ANDs with a negated timeline, is never earned.
 */
module Badge {
  import opened Sorting
  import opened Timeline
  import opened Merge
  import opened Measure
  import opened Negation
  import opened Existence
  import opened Query
  import opened QueryMeaning

  const DAY := 24 * HOUR

  const WEEK_SECONDS := 604_800.0
  const TWO_WEEKS_SECONDS := 1_209_600.0

  // ----- The threshold -----

  function LongestNumber(numbers: seq<NumericInterval>): int {
    if numbers == [] then 0
    else Max(LongestNumber(numbers[..|numbers| - 1]), numbers[|numbers| - 1].end - numbers[|numbers| - 1].start)
  }

  /** Whether a query result earns a badge that needs the given number of seconds, and the progress. */
  function Evaluated<S>(result: Option<Value<S>>, required: real): (bool, real)
    requires required > 0.0
  {
    match result
    case Some(Seconds(seconds)) => (seconds >= required, Capped(seconds / required))
    case Some(Numbers(numbers)) =>
      (ToSeconds(LongestNumber(numbers)) >= required, Capped(ToSeconds(LongestNumber(numbers)) / required))
    case _ => (false, 0.0)
  }

  function Capped(x: real): real { if x > 1.0 then 1.0 else x }

  /** The length of the longest interval, or 0 if none is positive. */
  ghost predicate IsLongest(numbers: seq<NumericInterval>, d: int) {
    && d >= 0
    && (forall i :: 0 <= i < |numbers| ==> numbers[i].end - numbers[i].start <= d)
    && (d == 0 || exists i :: 0 <= i < |numbers| && numbers[i].end - numbers[i].start == d)
  }

  lemma {:induction false} LongestIs(numbers: seq<NumericInterval>)
    ensures IsLongest(numbers, LongestNumber(numbers))
    decreases |numbers|
  {
    if numbers != [] {
      var init, last := numbers[..|numbers| - 1], numbers[|numbers| - 1];
      LongestIs(init);
      var d := LongestNumber(init);
      if d != 0 {
        var i :| 0 <= i < |init| && init[i].end - init[i].start == d;
        assert numbers[i].end - numbers[i].start == d;
      }
      assert forall i :: 0 <= i < |init| ==> numbers[i] == init[i];
      assert numbers[|numbers| - 1] == last;
    }
  }

  /** `nanoseconds` measured against a requirement in seconds: earned when they reach it; the progress is the
      share of the requirement until then, and complete from then on. */
  predicate Reaches(earned: bool, progress: real, nanoseconds: real, required: real) {
    && (earned <==> nanoseconds >= required * 1_000_000_000.0)
    && (earned ==> progress == 1.0)
    && (!earned ==> progress * (required * 1_000_000_000.0) == nanoseconds)
  }

  lemma ShareOf(x: real, required: real)
    requires required > 0.0
    ensures x / required * required == x && (x >= required <==> x / required >= 1.0)
  {
    var q := x / required;
    assert q * required == x;
    if q >= 1.0 {
      assert q * required >= 1.0 * required;
    } else {
      assert q * required < 1.0 * required;
    }
  }

  lemma ReachesIn(x: real, required: real)
    requires required > 0.0
    ensures Reaches(x >= required, Capped(x / required), x * 1_000_000_000.0, required)
  {
    ShareOf(x, required);
    if x < required {
      assert Capped(x / required) * required == x;
    }
  }

  /** What an evaluation means: the seconds of the result, or the longest of its intervals, against the
      requirement; any other result earns nothing. */
  ghost predicate MeansEarned<S>(result: Option<Value<S>>, required: real, earned: bool, progress: real) {
    match result
    case Some(Seconds(seconds)) => Reaches(earned, progress, seconds * 1_000_000_000.0, required)
    case Some(Numbers(numbers)) =>
      exists d: int :: IsLongest(numbers, d) && Reaches(earned, progress, d as real, required)
    case _ => !earned && progress == 0.0
  }

  lemma EvaluatedMeaning<S>(result: Option<Value<S>>, required: real)
    requires required > 0.0
    ensures MeansEarned(result, required, Evaluated(result, required).0, Evaluated(result, required).1)
  {
    match result
    case Some(Seconds(seconds)) =>
      ReachesIn(seconds, required);
    case Some(Numbers(numbers)) =>
      LongestIs(numbers);
      var d := LongestNumber(numbers);
      ReachesIn(ToSeconds(d), required);
      assert ToSeconds(d) * 1_000_000_000.0 == d as real;
    case _ =>
  }

  /** `evaluateDailyEngagement` and `evaluateStreakMaintainer`, which differ in `required` only. */
  method EvaluateStreak<S>(result: Option<Value<S>>, required: real) returns (earned: bool, progress: real)
    requires required > 0.0
    ensures (earned, progress) == Evaluated(result, required)
    ensures MeansEarned(result, required, earned, progress)
  {
    EvaluatedMeaning(result, required);
    match result {
      case Some(Seconds(seconds)) =>
        progress := seconds / required;
        if progress > 1.0 {
          progress := 1.0;
        }
        earned := seconds >= required;
      case Some(Numbers(numbers)) =>
        var maxDuration := 0;
        for i := 0 to |numbers|
          invariant maxDuration == LongestNumber(numbers[..i])
        {
          assert numbers[..i + 1][..i] == numbers[..i];
          var duration := numbers[i].end - numbers[i].start;
          if duration > maxDuration {
            maxDuration := duration;
          }
        }
        assert numbers[..|numbers|] == numbers;
        progress := ToSeconds(maxDuration) / required;
        if progress > 1.0 {
          progress := 1.0;
        }
        earned := ToSeconds(maxDuration) >= required;
      case _ =>
        earned, progress := false, 0.0;
    }
  }

  // ----- Daily Engagement -----

  const NO_PARAMS := Params(Absent, Absent, Absent)

  function WithinDay(id: string, source: string): Operation {
    Operation(id, OpHasExistedWithin, source, "true", None, [], [], Params(Text("24h"), Absent, Absent))
  }

  /** The operation list of `DailyEngagementWorkflow`. */
  function DailyOperations(): seq<Operation> {
    [ WithinDay("app_open_within_day", "app_open"),
      WithinDay("user_interaction_within_day", "user_interaction"),
      WithinDay("post_created_within_day", "post_created"),
      Operation("daily_activity_bool_timeline", OpOR, "", "", None, [],
                ["app_open_within_day", "user_interaction_within_day", "post_created_within_day"], NO_PARAMS),
      Operation("longest_engagement_streak", OpLongestConsecutiveTrueDuration, "", "", None, [], [],
                Params(Absent, Text("daily_activity_bool_timeline"), Absent)) ]
  }

  predicate Qualifies(e: Event) {
    e.kind in ["app_open", "user_interaction", "post_created"] && e.value == "true"
  }

  ghost predicate QualifyingTime(events: seq<Event>, x: int) {
    exists e :: e in events && Qualifies(e) && e.timestamp == x
  }

  /** Some qualifying event lies in the day before `t`. */
  ghost predicate Engaged(events: seq<Event>, t: int) {
    exists x :: QualifyingTime(events, x) && x <= t < x + DAY
  }

  /** The instants of engagement, as a set. */
  ghost predicate IsEngagement(events: seq<Event>, s: set<int>) {
    forall t :: t in s <==> Engaged(events, t)
  }

  /** Times of qualifying events, in order, each at most a day after the one before. */
  ghost predicate Chain(events: seq<Event>, times: seq<int>) {
    && times != []
    && (forall i :: 0 <= i < |times| ==> QualifyingTime(events, times[i]))
    && (forall i :: 0 <= i < |times| - 1 ==> times[i] <= times[i + 1] <= times[i] + DAY)
  }

  ghost predicate BridgesWeek(events: seq<Event>, times: seq<int>) {
    Chain(events, times) && times[|times| - 1] - times[0] + DAY >= 7 * DAY
  }

  lemma TypedMember(events: seq<Event>, kind: string, e: Event)
    ensures e in OfType(events, kind) <==> e in events && e.kind == kind
  {
    CollectMember((e: Event) => if e.kind == kind then [e] else [], events, e);
  }

  lemma TypedMatch(events: seq<Event>, kind: string, t: int)
    ensures MatchWithin(OfType(events, kind), "true", DAY, t)
            <==> exists e :: e in events && e.kind == kind && e.value == "true" && e.timestamp <= t < e.timestamp + DAY
  {
    forall e: Event
      ensures e in OfType(events, kind) <==> e in events && e.kind == kind
    {
      TypedMember(events, kind, e);
    }
  }

  lemma DailyWellPosed(lib: Library)
    requires lib.parse("24h") == Some(DAY)
    ensures WellPosed(lib, DailyOperations())
    ensures NamesBool(DailyOperations(), 4, "daily_activity_bool_timeline")
  {
    var ops := DailyOperations();
    assert ops[0].id == "app_open_within_day" && ops[1].id == "user_interaction_within_day"
           && ops[2].id == "post_created_within_day" && ops[3].id == "daily_activity_bool_timeline"
           && ops[4].id == "longest_engagement_streak";
    DifferentIds();
    forall k | 0 <= k < |ops|
      ensures InFragment(lib, ops, k)
    {
      if k == 3 {
        assert NamesBool(ops, 3, ops[0].id) && NamesBool(ops, 3, ops[1].id) && NamesBool(ops, 3, ops[2].id);
      } else if k == 4 {
        assert NamesBool(ops, 4, ops[3].id);
      } else {
        assert WindowFits(lib, ops[k]);
      }
    }
  }

  lemma DifferentIds()
    ensures DistinctIds(DailyOperations())
  {
    var ops := DailyOperations();
    assert |ops[0].id| == 19 && |ops[1].id| == 27 && |ops[2].id| == 23 && |ops[3].id| == 28 && |ops[4].id| == 25;
  }

  lemma NamedIs(ops: seq<Operation>, k: nat, j: nat)
    requires DistinctIds(ops) && j < k <= |ops| && (IsBoolOp(ops[j]) || IsStateOp(ops[j]))
    ensures NamesTimeline(ops, k, ops[j].id) && Named(ops, k, ops[j].id) == j
  {
  }

  lemma DailyOr(lib: Library, events: seq<Event>, t: int)
    requires lib.parse("24h") == Some(DAY) && WellPosed(lib, DailyOperations())
    ensures Sat(lib, events, DailyOperations(), 3, t)
            <==> Sat(lib, events, DailyOperations(), 0, t) || Sat(lib, events, DailyOperations(), 1, t)
                 || Sat(lib, events, DailyOperations(), 2, t)
  {
    var ops := DailyOperations();
    NamedIs(ops, 3, 0);
    NamedIs(ops, 3, 1);
    NamedIs(ops, 3, 2);
    var ids := ops[3].conditionAny;
    assert ids[0] == ops[0].id && ids[1] == ops[1].id && ids[2] == ops[2].id;
  }

  lemma EngagedByType(events: seq<Event>, t: int)
    ensures Engaged(events, t)
            <==> MatchWithin(OfType(events, "app_open"), "true", DAY, t)
                 || MatchWithin(OfType(events, "user_interaction"), "true", DAY, t)
                 || MatchWithin(OfType(events, "post_created"), "true", DAY, t)
  {
    TypedMatch(events, "app_open", t);
    TypedMatch(events, "user_interaction", t);
    TypedMatch(events, "post_created", t);
    if e :| e in events && Qualifies(e) && e.timestamp <= t < e.timestamp + DAY {
      assert QualifyingTime(events, e.timestamp);
    }
  }

  /** The formula of the combined timeline: engaged within the last day. */
  lemma DailyFormula(lib: Library, events: seq<Event>, t: int)
    requires lib.parse("24h") == Some(DAY) && WellPosed(lib, DailyOperations())
    ensures Sat(lib, events, DailyOperations(), 3, t) <==> Engaged(events, t)
  {
    DailyOr(lib, events, t);
    DailyAtoms(lib, events, t);
    EngagedByType(events, t);
  }

  lemma DailyAtoms(lib: Library, events: seq<Event>, t: int)
    requires lib.parse("24h") == Some(DAY) && WellPosed(lib, DailyOperations())
    ensures Sat(lib, events, DailyOperations(), 0, t) <==> MatchWithin(OfType(events, "app_open"), "true", DAY, t)
    ensures Sat(lib, events, DailyOperations(), 1, t)
            <==> MatchWithin(OfType(events, "user_interaction"), "true", DAY, t)
    ensures Sat(lib, events, DailyOperations(), 2, t) <==> MatchWithin(OfType(events, "post_created"), "true", DAY, t)
  {
  }

  /** A chain is an unbroken engagement from its first time to a day after its last. */
  lemma {:induction false} ChainCovers(events: seq<Event>, times: seq<int>, t: int)
    requires Chain(events, times) && times[0] <= t < times[|times| - 1] + DAY
    ensures Engaged(events, t)
    decreases |times|
  {
    var last := times[|times| - 1];
    if t < last {
      var init := times[..|times| - 1];
      assert init[0] == times[0] && times[|times| - 2] <= last <= times[|times| - 2] + DAY;
      assert Chain(events, init);
      ChainCovers(events, init, t);
    } else {
      assert QualifyingTime(events, last);
    }
  }

  lemma ChainAppend(events: seq<Event>, times: seq<int>, x: int)
    requires Chain(events, times) && QualifyingTime(events, x)
    requires times[|times| - 1] <= x <= times[|times| - 1] + DAY
    ensures Chain(events, times + [x]) && (times + [x])[0] == times[0] && (times + [x])[|times|] == x
  {
  }

  /** One more link: the engagement a day after the last event of a chain comes from a later event. */
  lemma NextInChain(events: seq<Event>, times: seq<int>, s: set<int>, until: int) returns (longer: seq<int>)
    requires Chain(events, times) && IsEngagement(events, s) && Range(times[0], until) <= s
    requires times[|times| - 1] + DAY < until
    ensures Chain(events, longer) && longer[0] == times[0] && longer[|longer| - 1] > times[|times| - 1]
  {
    var last := times[|times| - 1];
    ChainOrdered(events, times);
    assert last + DAY in Range(times[0], until);
    var x :| QualifyingTime(events, x) && x <= last + DAY < x + DAY;
    longer := times + [x];
    ChainAppend(events, times, x);
  }

  /** Inside an unbroken engagement a chain can be continued until it covers it. */
  lemma {:induction false} ExtendChain(events: seq<Event>, times: seq<int>, s: set<int>, until: int)
    returns (full: seq<int>)
    requires Chain(events, times)
    requires IsEngagement(events, s) && Range(times[0], until) <= s
    ensures Chain(events, full) && full[0] == times[0] && full[|full| - 1] + DAY >= until
    decreases until - times[|times| - 1]
  {
    var last := times[|times| - 1];
    if last + DAY >= until {
      full := times;
    } else {
      var longer := NextInChain(events, times, s, until);
      full := ExtendChain(events, longer, s, until);
    }
  }

  lemma {:induction false} ChainOrdered(events: seq<Event>, times: seq<int>)
    requires Chain(events, times)
    ensures times[0] <= times[|times| - 1]
    decreases |times|
  {
    if |times| > 1 {
      ChainOrdered(events, times[..|times| - 1]);
    }
  }

  /** The longest engagement lasts a week exactly when some chain bridges one. */
  lemma LongestBridges(events: seq<Event>, s: set<int>, n: int)
    requires IsEngagement(events, s)
    requires n >= 0 && LongestRun(s, 0, n)
    ensures n >= 7 * DAY <==> exists times :: BridgesWeek(events, times)
  {
    if n >= 7 * DAY {
      var a :| Run(s, a, n);
      RunStartsAtEvent(events, s, a, n);
      assert Chain(events, [a]);
      var full := ExtendChain(events, [a], s, a + n);
      assert BridgesWeek(events, full);
    }
    if times :| BridgesWeek(events, times) {
      var a, m := times[0], times[|times| - 1] + DAY - times[0];
      forall t | t in Range(a, a + m)
        ensures t in s
      {
        ChainCovers(events, times, t);
      }
      assert Run(s, a, m);
    }
  }

  lemma ExtendRun(s: set<int>, a: int, n: int)
    requires Run(s, a, n) && a - 1 in s
    ensures Run(s, a - 1, n + 1)
  {
    forall t | t in Range(a - 1, a + n)
      ensures t in s
    {
      assert t == a - 1 || t in Range(a, a + n);
    }
  }

  /** Engagement begins at a qualifying event. */
  lemma EngagementBegins(events: seq<Event>, a: int)
    requires Engaged(events, a) && !Engaged(events, a - 1)
    ensures QualifyingTime(events, a)
  {
    var x :| QualifyingTime(events, x) && x <= a < x + DAY;
    assert !(x <= a - 1 < x + DAY);
    assert x == a;
  }

  /** A longest run begins at a qualifying event, or it could begin earlier. */
  lemma RunStartsAtEvent(events: seq<Event>, s: set<int>, a: int, n: int)
    requires IsEngagement(events, s)
    requires LongestRun(s, 0, n) && Run(s, a, n) && n > 0
    ensures QualifyingTime(events, a)
  {
    if a - 1 in s {
      ExtendRun(s, a, n);
    }
    assert a in Range(a, a + n);
    assert a in s && a - 1 !in s;
    EngagementBegins(events, a);
  }

  lemma NoneCalledResult()
    ensures "result" !in IdsOf(DailyOperations()[..4])
  {
    var ops := DailyOperations();
    assert |ops[0].id| == 19 && |ops[1].id| == 27 && |ops[2].id| == 23 && |ops[3].id| == 28 && |"result"| == 6;
    forall op | op in ops[..4]
      ensures op.id != "result"
    {
    }
  }

  lemma DailyAnswer(lib: Library, events: seq<Event>) returns (n: int)
    requires lib.parse("24h") == Some(DAY) && WellPosed(lib, DailyOperations())
    ensures var r := Answer(lib, events, DailyOperations());
            r.Ok? && r.value.Seconds? && CountsSeconds(r.value.seconds, n)
    ensures MeasuresRun(lib, events, DailyOperations(), 4, n)
  {
    var ops := DailyOperations();
    NoneCalledResult();
    AnswerMeaning(lib, events, ops, 4);
    n :| CountsSeconds(Answer(lib, events, ops).value.seconds, n) && MeasuresRun(lib, events, ops, 4, n);
  }

  lemma DailyRun(lib: Library, events: seq<Event>, n: int) returns (s: set<int>)
    requires lib.parse("24h") == Some(DAY) && WellPosed(lib, DailyOperations())
    requires MeasuresRun(lib, events, DailyOperations(), 4, n)
    ensures n >= 0 && LongestRun(s, 0, n) && IsEngagement(events, s)
  {
    var ops := DailyOperations();
    DifferentIds();
    NamedIs(ops, 4, 3);
    assert ops[4].params.sourceOperationId.text == ops[3].id;
    assert LeastRun(lib, ops[4]) == 0;
    s :| IsSatSet(lib, events, ops, 3, s) && LongestRun(s, 0, n);
    forall t
      ensures t in s <==> Engaged(events, t)
    {
      DailyFormula(lib, events, t);
    }
  }

  /** The longest unbroken engagement is `n` nanoseconds long. */
  ghost predicate LongestEngagement(events: seq<Event>, n: int) {
    n >= 0 && exists s :: IsEngagement(events, s) && LongestRun(s, 0, n)
  }

  /** The longest engagement, measured against a week. */
  ghost predicate WeekProgress(events: seq<Event>, earned: bool, progress: real) {
    exists n :: LongestEngagement(events, n) && Reaches(earned, progress, n as real, 604_800.0)
  }

  /** Daily Engagement: the query always succeeds, and the badge is earned exactly when the qualifying
      events contain a chain with gaps of at most a day that, with the day after its last event, spans
      seven days.  Until then the progress is the share of the week that the longest engagement makes. */
  lemma DailyEngagementEarned(lib: Library, events: seq<Event>)
    requires lib.parse("24h") == Some(DAY)
    ensures var r := Answer(lib, events, DailyOperations());
            r.Ok? && (Evaluated(Some(r.value), WEEK_SECONDS).0 <==> exists times :: BridgesWeek(events, times))
    ensures var e := Evaluated(Some(Answer(lib, events, DailyOperations()).value), WEEK_SECONDS);
            WeekProgress(events, e.0, e.1)
  {
    DailyWellPosed(lib);
    var n := DailyAnswer(lib, events);
    var s := DailyRun(lib, events, n);
    LongestBridges(events, s, n);
    assert LongestEngagement(events, n);
    EarnedFor(Answer(lib, events, DailyOperations()).value, n);
  }

  lemma EarnedFor<S>(v: Value<S>, n: int)
    requires v.Seconds? && CountsSeconds(v.seconds, n)
    ensures Reaches(Evaluated(Some(v), WEEK_SECONDS).0, Evaluated(Some(v), WEEK_SECONDS).1, n as real, 604_800.0)
    ensures Evaluated(Some(v), WEEK_SECONDS).0 <==> n >= 7 * DAY
  {
    EvaluatedMeaning(Some(v), WEEK_SECONDS);
    WeekReached(n);
  }

  lemma WeekReached(n: int)
    ensures n as real >= 604_800.0 * 1_000_000_000.0 <==> n >= 7 * DAY
  {
  }

  // ----- Streak Maintainer -----

  function HasExistedOp(id: string, source: string): Operation {
    Operation(id, OpHasExisted, source, "true", None, [], [], NO_PARAMS)
  }

  /** The operation list of `StreakMaintainerWorkflow`. */
  function StreakOperations(): seq<Operation> {
    [ HasExistedOp("payment_successful_exists", "payment_successful"),
      Operation("payment_due_not_exists", OpNot, "", "", Some(HasExistedOp("", "payment_due")), [], [], NO_PARAMS),
      Operation("on_time_bool_timeline", OpAND, "", "", None,
                ["payment_successful_exists", "payment_due_not_exists"], [], NO_PARAMS),
      Operation("longest_streak", OpLongestConsecutiveTrueDuration, "", "", None, [], [],
                Params(Absent, Text("on_time_bool_timeline"), Absent)) ]
  }

  /** The results after the first two operations. */
  lemma PaymentResults(lib: Library, events: seq<Event>) returns (prev: Store, paid: BoolTimeline, due: BoolTimeline)
    ensures RunAll(lib, events, StreakOperations()[..2]) == Ok(prev)
    ensures prev == map["payment_successful_exists" := Bools(paid), "payment_due_not_exists" := Bools(Negated(due))]
  {
    var ops := StreakOperations();
    paid := Existed(lib.es, OfType(events, "payment_successful"), "true");
    due := Existed(lib.es, OfType(events, "payment_due"), "true");
    assert ops[..0] == [];
    RunAppend(lib, events, ops, 0, map[], Bools(paid));
    var first: Store := map[][ops[0].id := Bools(paid)];
    assert Execute(lib, events, ops[1].of.value, first) == Ok(Bools(due));
    RunAppend(lib, events, ops, 1, first, Bools(Negated(due)));
    prev := first[ops[1].id := Bools(Negated(due))];
  }

  /** ANDing any timeline with a negated one stores the empty timeline. */
  lemma AndStoresEmpty(lib: Library, events: seq<Event>, op: Operation, prev: Store, x: string, y: string,
                       due: BoolTimeline)
    requires op.op.OpAND? && op.conditionAll == [x, y]
    requires x in prev && prev[x].Bools? && y in prev && prev[y] == Bools(Negated(due))
    ensures Execute(lib, events, op, prev) == Ok(Bools([]))
  {
    OperandsAt(prev, [x, y]);
    assert Operands(prev, [x, y]) == [prev[x].bools, Negated(due)];
    AndWithNotIsEmpty(lib.bs, [prev[x].bools, Negated(due)], 1, due);
  }

  lemma LongestOfEmpty(lib: Library, events: seq<Event>, op: Operation, prev: Store, id: string)
    requires op.op.OpLongestConsecutiveTrueDuration? && op.params == Params(Absent, Text(id), Absent)
    requires id in prev && prev[id] == Bools([])
    ensures Execute(lib, events, op, prev) == Ok(Seconds(0.0))
  {
    assert LongestTrue([], 0) == 0;
  }

  /** The AND of the query is empty whatever the events are. */
  lemma OnTimeIsEmpty(lib: Library, events: seq<Event>) returns (prev: Store)
    ensures RunAll(lib, events, StreakOperations()[..3]) == Ok(prev)
    ensures "on_time_bool_timeline" in prev && prev["on_time_bool_timeline"] == Bools([])
  {
    var before, paid, due := PaymentResults(lib, events);
    assert |"payment_successful_exists"| == 25 && |"payment_due_not_exists"| == 22;
    AndStoresEmpty(lib, events, StreakOperations()[2], before, "payment_successful_exists", "payment_due_not_exists",
                   due);
    RunAppend(lib, events, StreakOperations(), 2, before, Bools([]));
    prev := before["on_time_bool_timeline" := Bools([])];
  }

  lemma StreakResult(lib: Library, events: seq<Event>)
    ensures var r := RunAll(lib, events, StreakOperations());
            r.Ok? && "longest_streak" in r.value && r.value["longest_streak"] == Seconds(0.0)
  {
    var prev := OnTimeIsEmpty(lib, events);
    LongestOfEmpty(lib, events, StreakOperations()[3], prev, "on_time_bool_timeline");
    RunAppend(lib, events, StreakOperations(), 3, prev, Seconds(0.0));
    assert StreakOperations()[..4] == StreakOperations();
  }

  lemma NotCalledResult()
    ensures "result" !in IdsOf(StreakOperations()[..3])
  {
    var ops := StreakOperations();
    assert |ops[0].id| == 25 && |ops[1].id| == 22 && |ops[2].id| == 21 && |"result"| == 6;
    forall op | op in ops[..3]
      ensures op.id != "result"
    {
    }
  }

  /** Streak Maintainer: its query always succeeds and its badge is never earned, for any events. */
  lemma StreakMaintainerNeverEarned(lib: Library, events: seq<Event>)
    ensures Answer(lib, events, StreakOperations()) == Ok(Seconds(0.0))
    ensures Evaluated(Some(Answer(lib, events, StreakOperations()).value), TWO_WEEKS_SECONDS) == (false, 0.0)
  {
    StreakResult(lib, events);
    NotCalledResult();
    AnswerIsLast(lib, events, StreakOperations());
  }
}
