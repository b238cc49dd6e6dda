/**
 The query processor: a list of operations evaluated in order over one event list, each result
 stored under the operation's id and available to the operations after it.
 Only the Boolean fragment and its measures are modelled.
 */
module Query {
  import opened Sorting
  import opened Timeline
  import opened Merge
  import opened BooleanAlgebra
  import opened Measure
  import opened Negation
  import opened Existence
  import opened States

  datatype Option<T> = None | Some(value: T)

  datatype Failure =
    | WindowMissing | WindowNotText | WindowUnreadable
    | OfMissing | OfNotStates
    | SourceMissing | SourceNotText | SourceWithoutResult | SourceNotBool | DurationUnreadable
    | Unsupported

  datatype Result<T> = Ok(value: T) | Failed(failure: Failure)

  /** The operators, by the names the code gives them; any other name is not supported. */
  datatype Operator =
    | OpLatestEventToState | OpHasExisted | OpHasExistedWithin
    | OpDurationWhere | OpDurationInCurState | OpLongestConsecutiveTrueDuration
    | OpNot | OpAND | OpOR
    | OpOther(name: string)

  /** A loosely typed parameter: the code looks at text and ignores or rejects anything else. */
  datatype Param = Absent | Text(text: string) | NotText

  datatype Params = Params(window: Param, sourceOperationId: Param, duration: Param)

  datatype Operation = Operation(id: string, op: Operator, source: string, equals: string,
                                 of: Option<Operation>, conditionAll: seq<string>, conditionAny: seq<string>,
                                 params: Params)

  predicate ReadsEvents(op: Operation) {
    op.op.OpLatestEventToState? || op.op.OpHasExisted? || op.op.OpHasExistedWithin?
  }

  datatype NumericInterval = NumericInterval(value: real, start: int, end: int)

  /** A result.  `S` is how Boolean timelines are held: as slices in the code, as lists in the
      specification. */
  datatype Value<S> =
    | States(states: StateTimeline)
    | Bools(bools: S)
    | Numbers(numbers: seq<NumericInterval>)
    | Seconds(seconds: real)
    | Zero

  /** Library routines that are parameters of the model: the sorts and `time.ParseDuration`. */
  datatype Library = Library(es: EventSort, bs: IntervalSort, parse: string -> Option<int>)

  type Store = map<string, Value<BoolTimeline>>

  // ----- What the code computes -----

  function ToSeconds(ns: int): real { ns as real / 1_000_000_000.0 }

  function OfType(events: seq<Event>, kind: string): seq<Event> {
    Collect((e: Event) => if e.kind == kind then [e] else [], events)
  }

  /** The timeline a condition stands for: `DurationWhere` also converts state timelines. */
  function ConditionOf(prev: Store, id: string): seq<BoolTimeline> {
    if id !in prev then []
    else match prev[id]
      case Bools(tl) => [tl]
      case States(states) => [AsBool(states)]
      case _ => []
  }

  /** `AND` and `OR` only take results that are Boolean timelines; anything else is dropped. */
  function OperandOf(prev: Store, id: string): seq<BoolTimeline> {
    if id in prev && prev[id].Bools? then [prev[id].bools] else []
  }

  function Conditions(prev: Store, ids: seq<string>): seq<BoolTimeline> {
    Collect((id: string) => ConditionOf(prev, id), ids)
  }

  function Operands(prev: Store, ids: seq<string>): seq<BoolTimeline> {
    Collect((id: string) => OperandOf(prev, id), ids)
  }

  function StateDurations(states: StateTimeline): seq<NumericInterval> {
    seq(|states|, i requires 0 <= i < |states| =>
      NumericInterval(ToSeconds(states[i].end - states[i].start), states[i].start, states[i].end))
  }

  function WindowOf(lib: Library, op: Operation): Result<int> {
    if op.params.window.Absent? then Failed(WindowMissing)
    else if op.params.window.NotText? then Failed(WindowNotText)
    else match lib.parse(op.params.window.text)
      case None => Failed(WindowUnreadable)
      case Some(window) => Ok(window)
  }

  /** The minimum duration: absent, or not text, counts as none. */
  function MinimumOf(lib: Library, op: Operation): Result<int> {
    if op.params.duration.Text? then
      match lib.parse(op.params.duration.text)
      case None => Failed(DurationUnreadable)
      case Some(d) => Ok(if d > 0 then d else 0)
    else
      Ok(0)
  }

  function SourceOf(prev: Store, op: Operation): Result<BoolTimeline> {
    if op.params.sourceOperationId.Absent? then Failed(SourceMissing)
    else if op.params.sourceOperationId.NotText? then Failed(SourceNotText)
    else
      var id := op.params.sourceOperationId.text;
      if id !in prev then Failed(SourceWithoutResult)
      else if !prev[id].Bools? then Failed(SourceNotBool)
      else Ok(prev[id].bools)
  }

  /** What `DurationWhere` measures; a list of conditions that are all to hold takes precedence. */
  function Combined(lib: Library, op: Operation, prev: Store): BoolTimeline {
    if |op.conditionAll| > 0 then AndAll(lib.bs, Conditions(prev, op.conditionAll))
    else if |op.conditionAny| > 0 then OrAll(lib.bs, Conditions(prev, op.conditionAny))
    else []
  }

  function Execute(lib: Library, events: seq<Event>, op: Operation, prev: Store): Result<Value<BoolTimeline>>
    decreases op
  {
    if op.op.OpLatestEventToState? then
      Ok(States(LatestStates(lib.es, OfType(events, op.source), op.equals)))
    else if op.op.OpHasExisted? then
      Ok(Bools(Existed(lib.es, OfType(events, op.source), op.equals)))
    else if op.op.OpHasExistedWithin? then
      match WindowOf(lib, op)
      case Failed(f) => Failed(f)
      case Ok(window) => Ok(Bools(ExistedWithin(lib.es, lib.bs, OfType(events, op.source), op.equals, window)))
    else if op.op.OpDurationWhere? then
      Ok(Seconds(ToSeconds(TotalTrue(Combined(lib, op, prev)))))
    else if op.op.OpDurationInCurState? then
      if op.of.None? then Failed(OfMissing)
      else match Execute(lib, events, op.of.value, prev)
        case Failed(f) => Failed(f)
        case Ok(v) => if v.States? then Ok(Numbers(StateDurations(v.states))) else Failed(OfNotStates)
    else if op.op.OpNot? then
      if op.of.None? then Failed(OfMissing)
      else match Execute(lib, events, op.of.value, prev)
        case Failed(f) => Failed(f)
        case Ok(v) => if v.Bools? then Ok(Bools(Negated(v.bools))) else Failed(OfMissing)
    else if op.op.OpAND? then
      Ok(Bools(AndAll(lib.bs, Operands(prev, op.conditionAll))))
    else if op.op.OpOR? then
      Ok(Bools(OrAll(lib.bs, Operands(prev, op.conditionAny))))
    else if op.op.OpLongestConsecutiveTrueDuration? then
      match SourceOf(prev, op)
      case Failed(f) => Failed(f)
      case Ok(tl) =>
        match MinimumOf(lib, op)
        case Failed(f) => Failed(f)
        case Ok(minimum) => Ok(Seconds(ToSeconds(LongestTrue(tl, minimum))))
    else
      Failed(Unsupported)
  }

  /** When an operation fails, and with what: a parameter that is missing, of the wrong kind or unreadable, a
      source that is not a Boolean result, or an operator that is not known. */
  lemma ExecuteFails(lib: Library, events: seq<Event>, op: Operation, prev: Store)
    ensures op.op.OpLatestEventToState? || op.op.OpHasExisted? || op.op.OpDurationWhere? || op.op.OpAND?
            || op.op.OpOR? ==>
              Execute(lib, events, op, prev).Ok?
    ensures op.op.OpHasExistedWithin? ==>
              match op.params.window
              case Absent => Execute(lib, events, op, prev) == Failed(WindowMissing)
              case NotText => Execute(lib, events, op, prev) == Failed(WindowNotText)
              case Text(window) => if lib.parse(window).Some? then Execute(lib, events, op, prev).Ok?
                                   else Execute(lib, events, op, prev) == Failed(WindowUnreadable)
    ensures op.op.OpLongestConsecutiveTrueDuration? ==>
              match op.params.sourceOperationId
              case Absent => Execute(lib, events, op, prev) == Failed(SourceMissing)
              case NotText => Execute(lib, events, op, prev) == Failed(SourceNotText)
              case Text(id) =>
                if id !in prev then Execute(lib, events, op, prev) == Failed(SourceWithoutResult)
                else if !prev[id].Bools? then Execute(lib, events, op, prev) == Failed(SourceNotBool)
                else if op.params.duration.Text? && lib.parse(op.params.duration.text).None?
                then Execute(lib, events, op, prev) == Failed(DurationUnreadable)
                else Execute(lib, events, op, prev).Ok?
    ensures (op.op.OpDurationInCurState? || op.op.OpNot?) && op.of.None? ==>
              Execute(lib, events, op, prev) == Failed(OfMissing)
    ensures op.op.OpOther? ==> Execute(lib, events, op, prev) == Failed(Unsupported)
  {
  }

  /** `DurationInCurState` and `Not` pass a failure of the nested operation on, and fail themselves if its
      result is not a state timeline, or not a Boolean one.  Otherwise the former keeps the bounds of the
      states and measures them in seconds, and the latter negates. */
  lemma NestedResult(lib: Library, events: seq<Event>, op: Operation, prev: Store)
    requires (op.op.OpDurationInCurState? || op.op.OpNot?) && op.of.Some?
    ensures var r, nested := Execute(lib, events, op, prev), Execute(lib, events, op.of.value, prev);
            match nested
            case Failed(f) => r == Failed(f)
            case Ok(v) =>
              if op.op.OpNot? then (if v.Bools? then r == Ok(Bools(Negated(v.bools))) else r == Failed(OfMissing))
              else if v.States? then r.Ok? && r.value.Numbers? && MeasuresStates(r.value.numbers, v.states)
              else r == Failed(OfNotStates)
  {
  }

  lemma ExecuteWithin(lib: Library, events: seq<Event>, op: Operation, prev: Store)
    requires op.op.OpHasExistedWithin? && op.params.window.Text? && lib.parse(op.params.window.text).Some?
    ensures Execute(lib, events, op, prev)
            == Ok(Bools(ExistedWithin(lib.es, lib.bs, OfType(events, op.source), op.equals,
                                      lib.parse(op.params.window.text).value)))
  {
  }

  /** True exactly where an event of the source lies in the window, and built from its windows. */
  ghost predicate IsWithin(tl: BoolTimeline, typed: seq<Event>, equals: string, window: int) {
    && ShowsWindows(tl, typed, equals, window)
    && forall t :: t in Instants(tl) <==> MatchWithin(typed, equals, window, t)
  }

  lemma ExistedIsWithin(lib: Library, typed: seq<Event>, equals: string, window: int)
    ensures IsWithin(ExistedWithin(lib.es, lib.bs, typed, equals, window), typed, equals, window)
  {
    WithinBounds(lib.es, lib.bs, typed, equals, window);
    WithinMeaning(lib.es, lib.bs, typed, equals, window);
  }

  /** `HasExistedWithin` works with any window that reads as a duration, also a negative one. */
  lemma WithinResult(lib: Library, events: seq<Event>, op: Operation, prev: Store)
    requires op.op.OpHasExistedWithin? && op.params.window.Text? && lib.parse(op.params.window.text).Some?
    ensures var r, window := Execute(lib, events, op, prev), lib.parse(op.params.window.text).value;
            && r.Ok? && r.value.Bools?
            && IsWithin(r.value.bools, OfType(events, op.source), op.equals, window)
  {
    ExecuteWithin(lib, events, op, prev);
    ExistedIsWithin(lib, OfType(events, op.source), op.equals, lib.parse(op.params.window.text).value);
  }

  ghost predicate MeasuresStates(numbers: seq<NumericInterval>, states: StateTimeline) {
    && |numbers| == |states|
    && forall i :: 0 <= i < |numbers| ==>
         && numbers[i].start == states[i].start && numbers[i].end == states[i].end
         && numbers[i].value * 1_000_000_000.0 == (states[i].end - states[i].start) as real
  }

  /** The results map after all the operations, or the first failure. */
  function RunAll(lib: Library, events: seq<Event>, ops: seq<Operation>): Result<Store> {
    if ops == [] then Ok(map[])
    else match RunAll(lib, events, ops[..|ops| - 1])
      case Failed(f) => Failed(f)
      case Ok(prev) =>
        var op := ops[|ops| - 1];
        match Execute(lib, events, op, prev)
        case Failed(f) => Failed(f)
        case Ok(v) => Ok(prev[op.id := v])
  }

  /** The number of nanoseconds, in seconds. */
  predicate CountsSeconds(seconds: real, nanoseconds: int) {
    seconds * 1_000_000_000.0 == nanoseconds as real
  }

  lemma InSeconds(n: int)
    ensures CountsSeconds(ToSeconds(n), n)
  {
  }

  /** The minimum duration reads as a duration, if it is text. */
  predicate MinimumFits(lib: Library, op: Operation) {
    op.params.duration.Text? ==> lib.parse(op.params.duration.text).Some?
  }

  /** The least length of a run that counts: the duration given, and none if it is negative or not text. */
  function LeastRun(lib: Library, op: Operation): (d: int)
    requires MinimumFits(lib, op)
  {
    if op.params.duration.Text? && lib.parse(op.params.duration.text).value >= 0
    then lib.parse(op.params.duration.text).value else 0
  }

  /** The seconds of the longest true interval of the source that is long enough. */
  ghost predicate LongestOfSource(lib: Library, op: Operation, prev: Store, seconds: real) {
    && op.params.sourceOperationId.Text? && op.params.sourceOperationId.text in prev && MinimumFits(lib, op)
    && var v := prev[op.params.sourceOperationId.text];
       v.Bools? && exists n: int :: CountsSeconds(seconds, n) && IsLongestTrue(v.bools, LeastRun(lib, op), n)
  }

  lemma LongestFound(lib: Library, op: Operation, prev: Store)
    requires SourceOf(prev, op).Ok? && MinimumOf(lib, op).Ok?
    ensures LongestOfSource(lib, op, prev,
                            ToSeconds(LongestTrue(SourceOf(prev, op).value, MinimumOf(lib, op).value)))
  {
    var n := LongestTrue(SourceOf(prev, op).value, MinimumOf(lib, op).value);
    LongestOfAll(SourceOf(prev, op).value, MinimumOf(lib, op).value);
    InSeconds(n);
  }

  lemma RunAppend(lib: Library, events: seq<Event>, ops: seq<Operation>, k: nat, prev: Store, v: Value<BoolTimeline>)
    requires k < |ops| && RunAll(lib, events, ops[..k]) == Ok(prev) && Execute(lib, events, ops[k], prev) == Ok(v)
    ensures RunAll(lib, events, ops[..k + 1]) == Ok(prev[ops[k].id := v])
  {
    assert ops[..k + 1][..k] == ops[..k];
  }

  function IdsOf(ops: seq<Operation>): set<string> {
    set op | op in ops :: op.id
  }

  lemma IdsLast(ops: seq<Operation>)
    requires ops != []
    ensures IdsOf(ops) == IdsOf(ops[..|ops| - 1]) + {ops[|ops| - 1].id}
  {
    assert forall op :: op in ops <==> op in ops[..|ops| - 1] || op == ops[|ops| - 1];
  }

  /** Exactly the operations of the list have results. */
  lemma {:induction false} RunKeys(lib: Library, events: seq<Event>, ops: seq<Operation>)
    requires RunAll(lib, events, ops).Ok?
    ensures RunAll(lib, events, ops).value.Keys == IdsOf(ops)
    decreases |ops|
  {
    if ops == [] {
      assert IdsOf(ops) == {};
    } else {
      RunKeys(lib, events, ops[..|ops| - 1]);
      IdsLast(ops);
    }
  }

  /** The answer: the result called "result" if there is one, else the last one. */
  function Answer(lib: Library, events: seq<Event>, ops: seq<Operation>): Result<Value<BoolTimeline>> {
    if ops == [] then Ok(Zero)
    else match RunAll(lib, events, ops)
      case Failed(f) => Failed(f)
      case Ok(results) =>
        if "result" in results then Ok(results["result"])
        else if ops[|ops| - 1].id in results then Ok(results[ops[|ops| - 1].id])
        else Ok(Zero)
  }

  /** Without an earlier operation called "result" the answer is the last result. */
  lemma AnswerIsLast(lib: Library, events: seq<Event>, ops: seq<Operation>)
    requires ops != [] && "result" !in IdsOf(ops[..|ops| - 1]) && RunAll(lib, events, ops).Ok?
    ensures ops[|ops| - 1].id in RunAll(lib, events, ops).value
    ensures Answer(lib, events, ops) == Ok(RunAll(lib, events, ops).value[ops[|ops| - 1].id])
  {
    RunKeys(lib, events, ops);
    IdsLast(ops);
  }

  // ----- The code -----

  type Slice = array<BoolInterval>

  /** What a stored result holds at the moment. */
  function View(v: Value<Slice>): Value<BoolTimeline>
    reads if v.Bools? then {v.bools} else {}
  {
    match v
    case States(states) => States(states)
    case Bools(slice) => Bools(slice[..])
    case Numbers(numbers) => Numbers(numbers)
    case Seconds(seconds) => Seconds(seconds)
    case Zero => Zero
  }

  function ViewResult(r: Result<Value<Slice>>): Result<Value<BoolTimeline>>
    reads if r.Ok? && r.value.Bools? then {r.value.bools} else {}
  {
    match r
    case Ok(v) => Ok(View(v))
    case Failed(f) => Failed(f)
  }

  ghost function Slices(results: map<string, Value<Slice>>): set<Slice> {
    set id | id in results && results[id].Bools? :: results[id].bools
  }

  /** What the results map holds at the moment. */
  ghost function ViewAll(results: map<string, Value<Slice>>): Store
    reads Slices(results)
  {
    map id | id in results :: View(results[id])
  }

  /** All events of the type, and no others, in their order. */
  lemma {:induction false} OfTypeKeeps(events: seq<Event>, kind: string)
    ensures Keeps(events, OfType(events, kind), (e: Event) => e.kind == kind)
    decreases |events|
  {
    if events == [] {
      KeepsNone((e: Event) => e.kind == kind);
    } else {
      var init, last := events[..|events| - 1], events[|events| - 1];
      OfTypeKeeps(init, kind);
      KeepsNext(init, OfType(init, kind), (e: Event) => e.kind == kind, last);
      assert events == init + [last];
    }
  }

  method FilterEventsByType(events: seq<Event>, eventType: string) returns (filtered: seq<Event>)
    ensures filtered == OfType(events, eventType)
    ensures Keeps(events, filtered, (e: Event) => e.kind == eventType)
  {
    OfTypeKeeps(events, eventType);
    filtered := [];
    for i := 0 to |events|
      invariant filtered == OfType(events[..i], eventType)
    {
      assert events[..i + 1][..i] == events[..i];
      if events[i].kind == eventType {
        filtered := filtered + [events[i]];
      }
    }
    assert events[..|events|] == events;
  }

  lemma IdStep(ids: seq<string>, i: nat, prev: Store)
    requires i < |ids|
    ensures Operands(prev, ids[..i + 1]) == Operands(prev, ids[..i]) + OperandOf(prev, ids[i])
    ensures Conditions(prev, ids[..i + 1]) == Conditions(prev, ids[..i]) + ConditionOf(prev, ids[i])
  {
    assert ids[..i + 1][..i] == ids[..i];
  }

  /** The loop of `AND` and `OR` that looks up its operands. */
  method LookUpOperands(prev: map<string, Value<Slice>>, ids: seq<string>) returns (timelines: seq<Slice>)
    ensures Contents(timelines) == Operands(ViewAll(prev), ids)
    ensures ViewAll(prev) == old(ViewAll(prev))
  {
    timelines := [];
    for i := 0 to |ids|
      invariant Contents(timelines) == Operands(ViewAll(prev), ids[..i])
    {
      IdStep(ids, i, ViewAll(prev));
      if ids[i] in prev && prev[ids[i]].Bools? {
        ContentsAppend(timelines, prev[ids[i]].bools);
        timelines := timelines + [prev[ids[i]].bools];
      }
    }
    assert ids[..|ids|] == ids;
  }

  method ConvertedSlice(states: StateTimeline) returns (slice: Slice)
    ensures fresh(slice) && slice[..] == AsBool(states)
  {
    var converted := ConvertStateTimelineToBoolTimeline(states);
    slice := SliceOf(converted);
  }

  lemma ContentsOfOne(slice: Slice)
    ensures Contents([slice]) == [slice[..]]
  {
  }

  /** The slice a condition stands for, if any: a state timeline is converted into a new one. */
  method LookUpCondition(prev: map<string, Value<Slice>>, id: string) returns (found: seq<Slice>)
    ensures Contents(found) == ConditionOf(ViewAll(prev), id)
    ensures ViewAll(prev) == old(ViewAll(prev))
  {
    if id !in prev {
      return [];
    }
    match prev[id] {
      case Bools(slice) =>
        ContentsOfOne(slice);
        return [slice];
      case States(states) =>
        var slice := ConvertedSlice(states);
        ContentsOfOne(slice);
        return [slice];
      case _ =>
        return [];
    }
  }

  /** The loop of `DurationWhere`, which also converts state timelines. */
  method LookUpConditions(prev: map<string, Value<Slice>>, ids: seq<string>) returns (timelines: seq<Slice>)
    ensures Contents(timelines) == Conditions(ViewAll(prev), ids)
    ensures ViewAll(prev) == old(ViewAll(prev))
  {
    timelines := [];
    for i := 0 to |ids|
      invariant ViewAll(prev) == old(ViewAll(prev))
      invariant Contents(timelines) == Conditions(ViewAll(prev), ids[..i])
    {
      IdStep(ids, i, ViewAll(prev));
      var found := LookUpCondition(prev, ids[i]);
      ContentsConcat(timelines, found);
      timelines := timelines + found;
    }
    assert ids[..|ids|] == ids;
  }

  method DurationInCurState(states: StateTimeline) returns (result: seq<NumericInterval>)
    ensures result == StateDurations(states)
  {
    result := [];
    for i := 0 to |states|
      invariant result == StateDurations(states[..i])
    {
      var duration := states[i].end - states[i].start;
      result := result + [NumericInterval(ToSeconds(duration), states[i].start, states[i].end)];
    }
    assert states[..|states|] == states;
  }

  method CombineAll(lib: Library, prev: map<string, Value<Slice>>, ids: seq<string>, ghost store: Store)
    returns (combined: BoolTimeline)
    requires store == ViewAll(prev)
    ensures combined == AndAll(lib.bs, Conditions(store, ids)) && ViewAll(prev) == store
  {
    var timelines := LookUpConditions(prev, ids);
    var slice := And(lib.bs, timelines);
    combined := slice[..];
  }

  method CombineAny(lib: Library, prev: map<string, Value<Slice>>, ids: seq<string>, ghost store: Store)
    returns (combined: BoolTimeline)
    requires store == ViewAll(prev)
    ensures combined == OrAll(lib.bs, Conditions(store, ids)) && ViewAll(prev) == store
  {
    var timelines := LookUpConditions(prev, ids);
    var slice := Or(lib.bs, timelines);
    combined := slice[..];
  }

  method ExecuteDurationWhere(lib: Library, op: Operation, prev: map<string, Value<Slice>>) returns (seconds: real)
    ensures seconds == ToSeconds(TotalTrue(Combined(lib, op, old(ViewAll(prev)))))
    ensures ViewAll(prev) == old(ViewAll(prev))
  {
    ghost var store := ViewAll(prev);
    var combinedTimeline: BoolTimeline := [];
    if |op.conditionAll| > 0 {
      combinedTimeline := CombineAll(lib, prev, op.conditionAll, store);
    } else if |op.conditionAny| > 0 {
      combinedTimeline := CombineAny(lib, prev, op.conditionAny, store);
    }
    var duration := DurationWhere(combinedTimeline);
    seconds := ToSeconds(duration);
  }

  method ExecuteLongest(lib: Library, op: Operation, prev: map<string, Value<Slice>>) returns (r: Result<real>)
    ensures r == match SourceOf(ViewAll(prev), op)
                 case Failed(f) => Failed(f)
                 case Ok(tl) =>
                   (match MinimumOf(lib, op)
                    case Failed(f) => Failed(f)
                    case Ok(minimum) => Ok(ToSeconds(LongestTrue(tl, minimum))))
    ensures r.Ok? ==> LongestOfSource(lib, op, ViewAll(prev), r.value)
  {
    if op.params.sourceOperationId.Absent? {
      return Failed(SourceMissing);
    }
    if op.params.sourceOperationId.NotText? {
      return Failed(SourceNotText);
    }
    var id := op.params.sourceOperationId.text;
    if id !in prev {
      return Failed(SourceWithoutResult);
    }
    if !prev[id].Bools? {
      return Failed(SourceNotBool);
    }
    var minDuration := 0;
    if op.params.duration.Text? {
      match lib.parse(op.params.duration.text) {
        case None =>
          return Failed(DurationUnreadable);
        case Some(d) =>
          minDuration := d;
      }
    }
    var longest;
    if minDuration > 0 {
      longest := LongestConsecutiveTrue(prev[id].bools[..], minDuration);
    } else {
      longest := LongestConsecutiveTrue(prev[id].bools[..], 0);
    }
    LongestFound(lib, op, ViewAll(prev));
    return Ok(ToSeconds(longest));
  }

  /** The three operations that read the events: their results are new. */
  method ExecuteOnEvents(lib: Library, events: seq<Event>, op: Operation, ghost prev: Store)
    returns (r: Result<Value<Slice>>)
    requires ReadsEvents(op)
    ensures ViewResult(r) == Execute(lib, events, op, prev)
  {
    var filteredEvents := FilterEventsByType(events, op.source);
    if op.op.OpLatestEventToState? {
      var states := LatestEventToState(lib.es, filteredEvents, op.equals);
      return Ok(States(states));
    } else if op.op.OpHasExisted? {
      var timeline := HasExisted(lib.es, filteredEvents, op.equals);
      var slice := SliceOf(timeline);
      return Ok(Bools(slice));
    }
    if op.params.window.Absent? {
      return Failed(WindowMissing);
    }
    if op.params.window.NotText? {
      return Failed(WindowNotText);
    }
    match lib.parse(op.params.window.text) {
      case None =>
        return Failed(WindowUnreadable);
      case Some(window) =>
        var slice := HasExistedWithin(lib.es, lib.bs, filteredEvents, op.equals, window);
        return Ok(Bools(slice));
    }
  }

  /** What `DurationInCurState` and `Not` do with the result of the operation inside `Of`. */
  method ApplyToNested(op: Operation, nested: Value<Slice>, ghost lib: Library, ghost events: seq<Event>,
                       ghost prev: Store)
    returns (r: Result<Value<Slice>>)
    requires (op.op.OpDurationInCurState? || op.op.OpNot?) && op.of.Some?
    requires Execute(lib, events, op.of.value, prev) == Ok(View(nested))
    ensures ViewResult(r) == Execute(lib, events, op, prev)
  {
    if op.op.OpDurationInCurState? {
      if nested.States? {
        var numbers := DurationInCurState(nested.states);
        return Ok(Numbers(numbers));
      }
      return Failed(OfNotStates);
    }
    if nested.Bools? {
      var negated := Not(nested.bools[..]);
      var slice := SliceOf(negated);
      return Ok(Bools(slice));
    }
    return Failed(OfMissing);
  }

  lemma ExecuteCombines(lib: Library, events: seq<Event>, op: Operation, prev: Store)
    ensures op.op.OpAND? ==>
              Execute(lib, events, op, prev) == Ok(Bools(AndAll(lib.bs, Operands(prev, op.conditionAll))))
    ensures op.op.OpOR? ==>
              Execute(lib, events, op, prev) == Ok(Bools(OrAll(lib.bs, Operands(prev, op.conditionAny))))
  {
  }

  method ExecuteAND(lib: Library, op: Operation, prev: map<string, Value<Slice>>, ghost store: Store)
    returns (slice: Slice)
    requires store == ViewAll(prev)
    ensures slice[..] == AndAll(lib.bs, Operands(store, op.conditionAll)) && ViewAll(prev) == store
  {
    var timelines := LookUpOperands(prev, op.conditionAll);
    slice := And(lib.bs, timelines);
  }

  method ExecuteOR(lib: Library, op: Operation, prev: map<string, Value<Slice>>, ghost store: Store)
    returns (slice: Slice)
    requires store == ViewAll(prev)
    ensures slice[..] == OrAll(lib.bs, Operands(store, op.conditionAny)) && ViewAll(prev) == store
  {
    var timelines := LookUpOperands(prev, op.conditionAny);
    slice := Or(lib.bs, timelines);
  }

  /** `executeOperation`: no stored slice is written to. */
  method ExecuteOperation(lib: Library, events: seq<Event>, op: Operation, previousResults: map<string, Value<Slice>>)
    returns (r: Result<Value<Slice>>)
    ensures ViewResult(r) == Execute(lib, events, op, old(ViewAll(previousResults)))
    ensures ViewAll(previousResults) == old(ViewAll(previousResults))
    decreases op
  {
    if ReadsEvents(op) {
      r := ExecuteOnEvents(lib, events, op, ViewAll(previousResults));
    } else if op.op.OpDurationWhere? {
      var seconds := ExecuteDurationWhere(lib, op, previousResults);
      r := Ok(Seconds(seconds));
    } else if (op.op.OpDurationInCurState? || op.op.OpNot?) {
      if op.of.None? {
        return Failed(OfMissing);
      }
      r := ExecuteOperation(lib, events, op.of.value, previousResults);
      if r.Ok? {
        r := ApplyToNested(op, r.value, lib, events, ViewAll(previousResults));
      }
    } else if op.op.OpAND? {
      var slice := ExecuteAND(lib, op, previousResults, ViewAll(previousResults));
      r := Ok(Bools(slice));
      ExecuteCombines(lib, events, op, ViewAll(previousResults));
    } else if op.op.OpOR? {
      var slice := ExecuteOR(lib, op, previousResults, ViewAll(previousResults));
      r := Ok(Bools(slice));
      ExecuteCombines(lib, events, op, ViewAll(previousResults));
    } else if op.op.OpLongestConsecutiveTrueDuration? {
      var longest := ExecuteLongest(lib, op, previousResults);
      r := match longest case Failed(f) => Failed(f) case Ok(seconds) => Ok(Seconds(seconds));
    } else {
      r := Failed(Unsupported);
    }
  }

  lemma {:induction false} FailureStays(lib: Library, events: seq<Event>, ops: seq<Operation>, n: nat)
    requires n <= |ops| && RunAll(lib, events, ops[..n]).Failed?
    ensures RunAll(lib, events, ops) == RunAll(lib, events, ops[..n])
    decreases |ops| - n
  {
    if n < |ops| {
      assert ops[..n + 1][..n] == ops[..n];
      FailureStays(lib, events, ops, n + 1);
    } else {
      assert ops[..n] == ops;
    }
  }

  /** `ProcessQuery`: every result keeps the contents it was stored with. */
  method ProcessQuery(lib: Library, events: seq<Event>, operations: seq<Operation>) returns (r: Result<Value<Slice>>)
    ensures ViewResult(r) == Answer(lib, events, operations)
    ensures operations == [] ==> r == Ok(Zero)
  {
    if |operations| == 0 {
      return Ok(Zero);
    }
    var results: map<string, Value<Slice>> := map[];
    for i := 0 to |operations|
      invariant RunAll(lib, events, operations[..i]) == Ok(ViewAll(results))
    {
      var op := operations[i];
      assert operations[..i + 1][..i] == operations[..i];
      var result := ExecuteOperation(lib, events, op, results);
      match result {
        case Failed(f) =>
          FailureStays(lib, events, operations, i + 1);
          return Failed(f);
        case Ok(v) =>
          assert ViewAll(results[op.id := v]) == ViewAll(results)[op.id := View(v)];
          results := results[op.id := v];
      }
    }
    assert operations[..|operations|] == operations;
    RunKeys(lib, events, operations);
    var lastOp := operations[|operations| - 1];
    assert lastOp in operations;
    if "result" in results {
      return Ok(results["result"]);
    }
    if lastOp.id in results {
      return Ok(results[lastOp.id]);
    }
    return Ok(Zero);
  }
}
