/**
 The credit-card fraud detector.  It groups events by location, looks for pairs of locations
 that an event pair shows to be too far apart to travel between, and flags the instants at
 which both locations of such a pair have been active within the window.
 It runs over a map whose iteration order is arbitrary; the main results are that the order
 never shows and what it means for an instant to be flagged.
 */
module Fraud {
  import opened Sorting
  import opened Timeline
  import opened Merge
  import opened BooleanAlgebra
  import opened Existence

  datatype Location = Location(city: string, state: string, lat: real, lng: real, kind: string)

  datatype Config = Config(minDistanceKm: real, walkingSpeedKmH: real, drivingSpeedKmH: real,
                           flyingSpeedKmH: real, speedBuffer: real, minOverlaps: int)

  const DEFAULT_CONFIG := Config(500.0, 5.0, 160.0, 950.0, 1.1, 2)

  /** Routines that are parameters of the model: reading a location from an event value, lower-casing,
      and the distance between two points. */
  datatype Geography = Geography(normalize: string -> Location, lower: string -> string,
                                 distance: (real, real, real, real) -> real)
  {
    ghost predicate Symmetric() {
      forall lat1, lng1, lat2, lng2 :: distance(lat1, lng1, lat2, lng2) == distance(lat2, lng2, lat1, lng1)
    }
  }

  /** Everything the detector is given besides the events. */
  datatype Setting = Setting(es: EventSort, bs: IntervalSort, geo: Geography, window: int, config: Config)

  // ----- Travel -----

  function Hours(timeframe: int): real { timeframe as real / HOUR as real }

  /** `isPossibleFraudTravelWithConfig`. */
  predicate PossibleTravel(geo: Geography, a: Location, b: Location, timeframe: int, config: Config) {
    if a.kind == "online" && b.kind == "in-store" then false
    else if b.kind == "online" && a.kind == "in-store" then false
    else if a.kind == "online" && b.kind == "online" then true
    else
      var distance := geo.distance(a.lat, a.lng, b.lat, b.lng);
      if distance < config.minDistanceKm then true
      else if Hours(timeframe) == 0.0 then distance < 0.1
      else distance / Hours(timeframe) <= config.flyingSpeedKmH * config.speedBuffer
  }

  lemma SlowerIsPossible(distance: real, h1: real, h2: real, speed: real)
    requires distance >= 0.0 && 0.0 < h1 <= h2 && distance / h1 <= speed
    ensures distance / h2 <= speed
  {
    assert distance == (distance / h1) * h1 <= speed * h1;
    assert speed >= 0.0;
    assert speed * h1 <= speed * h2;
    assert distance / h2 * h2 == distance <= speed * h2;
  }

  /** The cases decided by the kinds of the two transactions alone. */
  predicate DecidedByKind(a: Location, b: Location) {
    || (a.kind == "online" && (b.kind == "in-store" || b.kind == "online"))
    || (b.kind == "online" && a.kind == "in-store")
  }

  /** More time never makes travel impossible. */
  ghost predicate MoreTimeHelps(geo: Geography, a: Location, b: Location, config: Config) {
    forall t1: nat, t2: nat :: t1 <= t2 && PossibleTravel(geo, a, b, t1, config) ==>
      PossibleTravel(geo, a, b, t2, config)
  }

  lemma LaterIsPossible(geo: Geography, a: Location, b: Location, t1: nat, t2: nat, config: Config)
    requires 0 < t1 <= t2 && geo.distance(a.lat, a.lng, b.lat, b.lng) >= 0.0
    requires PossibleTravel(geo, a, b, t1, config)
    ensures PossibleTravel(geo, a, b, t2, config)
  {
    var distance := geo.distance(a.lat, a.lng, b.lat, b.lng);
    if distance / Hours(t1) <= config.flyingSpeedKmH * config.speedBuffer {
      SlowerIsPossible(distance, Hours(t1), Hours(t2), config.flyingSpeedKmH * config.speedBuffer);
    }
  }

  /** Time helps, except that less than a hundred metres are always possible in no time at all: it helps
      if and only if the distance is below the threshold, at least a hundred metres, or such that a
      nanosecond is enough for it. */
  lemma WhenMoreTimeHelps(geo: Geography, a: Location, b: Location, config: Config)
    requires geo.distance(a.lat, a.lng, b.lat, b.lng) >= 0.0
    ensures var distance := geo.distance(a.lat, a.lng, b.lat, b.lng);
            MoreTimeHelps(geo, a, b, config)
            <==> || DecidedByKind(a, b) || distance < config.minDistanceKm || distance >= 0.1
                 || distance / Hours(NANOSECOND) <= config.flyingSpeedKmH * config.speedBuffer
  {
    var distance := geo.distance(a.lat, a.lng, b.lat, b.lng);
    var speed := config.flyingSpeedKmH * config.speedBuffer;
    assert Hours(NANOSECOND) > 0.0 && Hours(0) == 0.0;
    if DecidedByKind(a, b) || distance < config.minDistanceKm || distance >= 0.1
       || distance / Hours(NANOSECOND) <= speed {
      forall t1: nat, t2: nat | t1 <= t2 && PossibleTravel(geo, a, b, t1, config)
        ensures PossibleTravel(geo, a, b, t2, config)
      {
        if t1 > 0 {
          LaterIsPossible(geo, a, b, t1, t2, config);
        } else if t2 > 0 && !DecidedByKind(a, b) && config.minDistanceKm <= distance < 0.1 {
          LaterIsPossible(geo, a, b, NANOSECOND, t2, config);
        }
      }
    } else {
      assert PossibleTravel(geo, a, b, 0, config) && !PossibleTravel(geo, a, b, NANOSECOND, config);
    }
  }

  function Abs(x: int): int { if x < 0 then -x else x }

  function LocationKey(geo: Geography, e: Event): string {
    var loc := geo.normalize(e.value);
    geo.lower(loc.city + "," + loc.state + "," + loc.kind)
  }

  /** Two events within the window of each other between which nobody can have travelled. */
  predicate Impossible(s: Setting, e1: Event, e2: Event) {
    var apart := Abs(e2.timestamp - e1.timestamp);
    apart <= s.window && !PossibleTravel(s.geo, s.geo.normalize(e1.value), s.geo.normalize(e2.value), apart, s.config)
  }

  // ----- What travel and location mean -----

  /** Kinds, distance and time that rule travel out: one of the two online and the other in a store, always;
      both online, never; otherwise a distance of at least the threshold that is not below a hundred
      metres in no time, or that takes more than the buffered flying speed. */
  predicate OutOfReach(geo: Geography, a: Location, b: Location, apart: int, config: Config) {
    if (a.kind == "online" && b.kind == "in-store") || (a.kind == "in-store" && b.kind == "online") then
      true
    else if a.kind == "online" && b.kind == "online" then
      false
    else
      var distance := geo.distance(a.lat, a.lng, b.lat, b.lng);
      && distance >= config.minDistanceKm
      && if apart == 0 then distance >= 0.1
         else distance * 3_600_000_000_000.0 > config.flyingSpeedKmH * config.speedBuffer * apart as real
  }

  /** The two events are at most the window apart, and their locations out of reach in that time. */
  predicate Unreachable(s: Setting, e1: Event, e2: Event) {
    var apart := if e1.timestamp <= e2.timestamp then e2.timestamp - e1.timestamp else e1.timestamp - e2.timestamp;
    apart <= s.window && OutOfReach(s.geo, s.geo.normalize(e1.value), s.geo.normalize(e2.value), apart, s.config)
  }

  /** The event is at the location with this key: city, state and kind, in lower case. */
  predicate AtPlace(geo: Geography, e: Event, key: string) {
    var location := geo.normalize(e.value);
    key == geo.lower(location.city + "," + location.state + "," + location.kind)
  }

  lemma SpeedExceeded(distance: real, apart: int, speed: real)
    requires apart > 0
    ensures distance / Hours(apart) <= speed <==> distance * 3_600_000_000_000.0 <= speed * apart as real
  {
    var hours, q := Hours(apart), distance / Hours(apart);
    assert hours > 0.0 && hours * 3_600_000_000_000.0 == apart as real;
    assert q * hours == distance;
    if q <= speed {
      assert q * hours <= speed * hours;
    } else {
      assert q * hours > speed * hours;
    }
    assert speed * apart as real == speed * hours * 3_600_000_000_000.0;
  }

  lemma PossibleIsInReach(geo: Geography, a: Location, b: Location, apart: nat, config: Config)
    ensures PossibleTravel(geo, a, b, apart, config) <==> !OutOfReach(geo, a, b, apart, config)
  {
    if apart > 0 {
      SpeedExceeded(geo.distance(a.lat, a.lng, b.lat, b.lng), apart, config.flyingSpeedKmH * config.speedBuffer);
    }
  }

  /** What the detector's test of two events decides. */
  lemma ImpossibleMeaning(s: Setting, e1: Event, e2: Event)
    ensures Impossible(s, e1, e2) <==> Unreachable(s, e1, e2)
  {
    PossibleIsInReach(s.geo, s.geo.normalize(e1.value), s.geo.normalize(e2.value), Abs(e2.timestamp - e1.timestamp),
                      s.config);
  }

  // ----- What the loops compute -----

  function Group(s: Setting, events: seq<Event>, key: string): seq<Event> {
    Collect((e: Event) => if LocationKey(s.geo, e) == key then [e] else [], events)
  }

  ghost predicate Suspicious(s: Setting, events: seq<Event>, a: string, b: string) {
    exists e1, e2 :: e1 in Group(s, events, a) && e2 in Group(s, events, b) && Impossible(s, e1, e2)
  }

  ghost function RowPairs(s: Setting, events: seq<Event>, a: string, others: seq<string>): seq<(string, string)> {
    Collect((b: string) => if Suspicious(s, events, a, b) then [(a, b)] else [], others)
  }

  /** The suspicious pairs, each key with the ones after it. */
  ghost function Pairs(s: Setting, events: seq<Event>, keys: seq<string>): seq<(string, string)> {
    if keys == [] then [] else RowPairs(s, events, keys[0], keys[1..]) + Pairs(s, events, keys[1..])
  }

  /** Copies of the events with the location key as their value. */
  function Relabelled(events: seq<Event>, key: string): seq<Event> {
    seq(|events|, i requires 0 <= i < |events| => Event(events[i].timestamp, events[i].kind, key))
  }

  function Overlap(s: Setting, events: seq<Event>, a: string, b: string): BoolTimeline {
    var combined := Relabelled(Group(s, events, a), a) + Relabelled(Group(s, events, b), b);
    AndAll(s.bs, [ExistedWithin(s.es, s.bs, combined, a, s.window), ExistedWithin(s.es, s.bs, combined, b, s.window)])
  }

  function NonEmptyOverlap(s: Setting, events: seq<Event>, pair: (string, string)): seq<BoolTimeline> {
    var tl := Overlap(s, events, pair.0, pair.1);
    if tl == [] then [] else [tl]
  }

  ghost function OverlapList(s: Setting, events: seq<Event>, pairs: seq<(string, string)>): seq<BoolTimeline> {
    Collect((pair: (string, string)) => NonEmptyOverlap(s, events, pair), pairs)
  }

  /** The result when the map is iterated in the order `keys`. */
  ghost function Detected(s: Setting, events: seq<Event>, keys: seq<string>): BoolTimeline {
    if |events| < 2 then []
    else
      var overlaps := OverlapList(s, events, Pairs(s, events, keys));
      if |overlaps| < s.config.minOverlaps then [] else OrAll(s.bs, overlaps)
  }

  /** `keys` lists the locations of the events, each once: a possible iteration order of the map. */
  ghost predicate Enumerates(s: Setting, events: seq<Event>, keys: seq<string>) {
    && (forall i, j :: 0 <= i < j < |keys| ==> keys[i] != keys[j])
    && (forall k :: k in keys <==> exists e :: e in events && AtPlace(s.geo, e, k))
  }

  // ----- What a pair means -----

  /** Some event at the location lies in `(t - window, t]`. */
  ghost predicate ActiveAt(s: Setting, events: seq<Event>, key: string, t: int) {
    exists e :: e in events && AtPlace(s.geo, e, key) && e.timestamp <= t < e.timestamp + s.window
  }

  ghost predicate BothActive(s: Setting, events: seq<Event>, a: string, b: string, t: int) {
    ActiveAt(s, events, a, t) && ActiveAt(s, events, b, t)
  }

  ghost predicate ImpossiblePair(s: Setting, events: seq<Event>, a: string, b: string) {
    exists e1, e2 :: e1 in events && e2 in events && AtPlace(s.geo, e1, a) && AtPlace(s.geo, e2, b)
                     && Unreachable(s, e1, e2)
  }

  /** An impossible pair of different locations that are both active at some instant. */
  ghost predicate Counted(s: Setting, events: seq<Event>, a: string, b: string) {
    a != b && ImpossiblePair(s, events, a, b) && exists t :: BothActive(s, events, a, b, t)
  }

  /** Different locations nobody can have travelled between, both active at `t`. */
  ghost predicate FlaggedBy(s: Setting, events: seq<Event>, a: string, b: string, t: int) {
    a != b && ImpossiblePair(s, events, a, b) && BothActive(s, events, a, b, t)
  }

  /** The counted pairs, without regard to their order. */
  ghost function CountedPairs(s: Setting, events: seq<Event>, keys: set<string>): set<set<string>> {
    set a, b | a in keys && b in keys && Counted(s, events, a, b) :: {a, b}
  }

  ghost predicate Flagged(s: Setting, events: seq<Event>, keys: set<string>, t: int) {
    && |CountedPairs(s, events, keys)| >= s.config.minOverlaps
    && exists a, b :: a in keys && b in keys && FlaggedBy(s, events, a, b, t)
  }

  lemma GroupMember(s: Setting, events: seq<Event>, key: string, e: Event)
    ensures e in Group(s, events, key) <==> e in events && AtPlace(s.geo, e, key)
  {
    CollectMember((e: Event) => if LocationKey(s.geo, e) == key then [e] else [], events, e);
  }

  lemma SuspiciousMeaning(s: Setting, events: seq<Event>, a: string, b: string)
    ensures Suspicious(s, events, a, b) <==> ImpossiblePair(s, events, a, b)
  {
    forall e: Event
      ensures e in Group(s, events, a) <==> e in events && AtPlace(s.geo, e, a)
      ensures e in Group(s, events, b) <==> e in events && AtPlace(s.geo, e, b)
    {
      GroupMember(s, events, a, e);
      GroupMember(s, events, b, e);
    }
    forall e1, e2
      ensures Impossible(s, e1, e2) <==> Unreachable(s, e1, e2)
    {
      ImpossibleMeaning(s, e1, e2);
    }
  }

  lemma ImpossibleSymmetric(s: Setting, events: seq<Event>, a: string, b: string)
    requires s.geo.Symmetric() && ImpossiblePair(s, events, a, b)
    ensures ImpossiblePair(s, events, b, a)
  {
    var e1, e2 :| e1 in events && e2 in events && AtPlace(s.geo, e1, a) && AtPlace(s.geo, e2, b)
                  && Unreachable(s, e1, e2);
    assert Unreachable(s, e2, e1);
  }

  lemma RelabelledMatch(s: Setting, events: seq<Event>, a: string, b: string, key: string, t: int)
    requires a != b && key in {a, b}
    ensures MatchWithin(Relabelled(Group(s, events, a), a) + Relabelled(Group(s, events, b), b), key, s.window, t)
            <==> ActiveAt(s, events, key, t)
  {
    var left, right := Relabelled(Group(s, events, a), a), Relabelled(Group(s, events, b), b);
    var mine := if key == a then left else right;
    assert forall e: Event :: e in left + right && e.value == key <==> e in mine;
    RelabelledActive(s, events, key, t);
  }

  lemma RelabelledActive(s: Setting, events: seq<Event>, key: string, t: int)
    ensures MatchWithin(Relabelled(Group(s, events, key), key), key, s.window, t) <==> ActiveAt(s, events, key, t)
  {
    var group := Group(s, events, key);
    var mine := Relabelled(group, key);
    if e: Event :| e in mine && e.value == key && e.timestamp <= t < e.timestamp + s.window {
      var i :| 0 <= i < |mine| && mine[i] == e;
      GroupMember(s, events, key, group[i]);
    }
    if e :| e in events && AtPlace(s.geo, e, key) && e.timestamp <= t < e.timestamp + s.window {
      GroupMember(s, events, key, e);
      var i :| 0 <= i < |group| && group[i] == e;
      assert mine[i] in mine;
    }
  }

  /** The overlap of a pair is the normal form of the instants at which both locations are active. */
  lemma OverlapMeaning(s: Setting, events: seq<Event>, a: string, b: string)
    requires a != b
    ensures Normal(Overlap(s, events, a, b))
    ensures forall t :: t in Instants(Overlap(s, events, a, b)) <==> BothActive(s, events, a, b, t)
    ensures Overlap(s, events, a, b) != [] <==> exists t :: BothActive(s, events, a, b, t)
  {
    var combined := Relabelled(Group(s, events, a), a) + Relabelled(Group(s, events, b), b);
    var ta, tb := ExistedWithin(s.es, s.bs, combined, a, s.window), ExistedWithin(s.es, s.bs, combined, b, s.window);
    var tl := Overlap(s, events, a, b);
    WithinMeaning(s.es, s.bs, combined, a, s.window);
    WithinMeaning(s.es, s.bs, combined, b, s.window);
    AndMeaning(s.bs, [ta, tb]);
    forall t
      ensures t in Instants(tl) <==> BothActive(s, events, a, b, t)
    {
      PairMembership(ta, tb, t);
      RelabelledMatch(s, events, a, b, a, t);
      RelabelledMatch(s, events, a, b, b, t);
    }
    if tl != [] {
      OpenIn(tl, 0, tl[0].start);
    }
    if t :| BothActive(s, events, a, b, t) {
      var _ := OpenAt(tl, t);
    }
  }

  // ----- The pairs of an iteration order -----

  lemma {:induction false} PairMember(s: Setting, events: seq<Event>, keys: seq<string>, pair: (string, string))
    ensures pair in Pairs(s, events, keys)
            <==> exists i, j :: 0 <= i < j < |keys| && pair == (keys[i], keys[j])
                                && Suspicious(s, events, keys[i], keys[j])
    decreases |keys|
  {
    if keys != [] {
      var rest := keys[1..];
      PairMember(s, events, rest, pair);
      RowMember(s, events, keys[0], rest, pair);
      if pair in RowPairs(s, events, keys[0], rest) {
        var j :| 0 <= j < |rest| && rest[j] == pair.1;
        assert keys[j + 1] == pair.1;
      }
      if i, j :| 0 <= i < j < |rest| && pair == (rest[i], rest[j]) && Suspicious(s, events, rest[i], rest[j]) {
        assert keys[i + 1] == rest[i] && keys[j + 1] == rest[j];
      }
      if i, j :| 0 <= i < j < |keys| && pair == (keys[i], keys[j]) && Suspicious(s, events, keys[i], keys[j]) {
        assert rest[j - 1] == keys[j];
        assert i > 0 ==> rest[i - 1] == keys[i];
      }
    }
  }

  lemma RowMember(s: Setting, events: seq<Event>, a: string, others: seq<string>, pair: (string, string))
    ensures pair in RowPairs(s, events, a, others)
            <==> pair.0 == a && pair.1 in others && Suspicious(s, events, a, pair.1)
  {
    CollectMember((b: string) => if Suspicious(s, events, a, b) then [(a, b)] else [], others, pair);
  }

  lemma OverlapHasPair(s: Setting, events: seq<Event>, keys: seq<string>, tl: BoolTimeline, t: int)
    returns (pair: (string, string))
    requires Enumerates(s, events, keys)
    requires tl in OverlapList(s, events, Pairs(s, events, keys)) && t in Instants(tl)
    ensures pair.0 in keys && pair.1 in keys && FlaggedBy(s, events, pair.0, pair.1, t)
  {
    OverlapFromPair(s, events, Pairs(s, events, keys), tl);
    pair :| pair in Pairs(s, events, keys) && tl == Overlap(s, events, pair.0, pair.1);
    PairMember(s, events, keys, pair);
    SuspiciousMeaning(s, events, pair.0, pair.1);
    OverlapMeaning(s, events, pair.0, pair.1);
  }

  lemma PairHasOverlap(s: Setting, events: seq<Event>, keys: seq<string>, a: string, b: string, t: int)
    returns (tl: BoolTimeline)
    requires s.geo.Symmetric() && a in keys && b in keys && FlaggedBy(s, events, a, b, t)
    ensures tl in OverlapList(s, events, Pairs(s, events, keys)) && t in Instants(tl)
  {
    var pair := OrderedPair(s, events, keys, a, b);
    tl := Overlap(s, events, pair.0, pair.1);
    OverlapMeaning(s, events, pair.0, pair.1);
    assert BothActive(s, events, pair.0, pair.1, t);
    var _ := OpenAt(tl, t);
    OverlapFromPair(s, events, Pairs(s, events, keys), tl);
  }

  /** Together the overlaps on the list cover what the impossible pairs cover. */
  lemma OverlapListMeaning(s: Setting, events: seq<Event>, keys: seq<string>, t: int)
    requires Enumerates(s, events, keys) && s.geo.Symmetric()
    ensures InSome(OverlapList(s, events, Pairs(s, events, keys)), t)
            <==> exists a, b :: a in keys && b in keys && FlaggedBy(s, events, a, b, t)
  {
    var overlaps := OverlapList(s, events, Pairs(s, events, keys));
    if i :| 0 <= i < |overlaps| && t in Instants(overlaps[i]) {
      var pair := OverlapHasPair(s, events, keys, overlaps[i], t);
    }
    if a, b :| a in keys && b in keys && FlaggedBy(s, events, a, b, t) {
      var tl := PairHasOverlap(s, events, keys, a, b, t);
      var i :| 0 <= i < |overlaps| && overlaps[i] == tl;
    }
  }

  lemma OverlapFromPair(s: Setting, events: seq<Event>, pairs: seq<(string, string)>, tl: BoolTimeline)
    ensures tl in OverlapList(s, events, pairs)
            <==> exists pair :: pair in pairs && tl != [] && tl == Overlap(s, events, pair.0, pair.1)
  {
    CollectMember((pair: (string, string)) => NonEmptyOverlap(s, events, pair), pairs, tl);
    forall pair: (string, string)
      ensures tl in NonEmptyOverlap(s, events, pair) <==> tl != [] && tl == Overlap(s, events, pair.0, pair.1)
    {
    }
  }

  lemma PairAt(s: Setting, events: seq<Event>, keys: seq<string>, i: nat, j: nat)
    requires i < j < |keys| && ImpossiblePair(s, events, keys[i], keys[j])
    ensures (keys[i], keys[j]) in Pairs(s, events, keys)
  {
    SuspiciousMeaning(s, events, keys[i], keys[j]);
    PairMember(s, events, keys, (keys[i], keys[j]));
  }

  /** An impossible pair is on the list one way round. */
  lemma OrderedPair(s: Setting, events: seq<Event>, keys: seq<string>, a: string, b: string)
    returns (pair: (string, string))
    requires s.geo.Symmetric() && a in keys && b in keys && a != b && ImpossiblePair(s, events, a, b)
    ensures pair in Pairs(s, events, keys) && (pair == (a, b) || pair == (b, a))
  {
    var i :| 0 <= i < |keys| && keys[i] == a;
    var j :| 0 <= j < |keys| && keys[j] == b;
    if i < j {
      PairAt(s, events, keys, i, j);
      pair := (a, b);
    } else {
      ImpossibleSymmetric(s, events, a, b);
      PairAt(s, events, keys, j, i);
      pair := (b, a);
    }
  }

  // ----- Counting pairs -----

  ghost function Partners(s: Setting, events: seq<Event>, a: string, others: seq<string>): set<string> {
    set b | b in others && Counted(s, events, a, b)
  }

  lemma RowStep(s: Setting, events: seq<Event>, a: string, others: seq<string>)
    requires others != [] && a != others[|others| - 1]
    ensures |OverlapList(s, events, RowPairs(s, events, a, others))|
            == |OverlapList(s, events, RowPairs(s, events, a, others[..|others| - 1]))|
               + if Counted(s, events, a, others[|others| - 1]) then 1 else 0
  {
    var init, b := others[..|others| - 1], others[|others| - 1];
    var next := if Suspicious(s, events, a, b) then [(a, b)] else [];
    SuspiciousMeaning(s, events, a, b);
    OverlapMeaning(s, events, a, b);
    CollectConcat((pair: (string, string)) => NonEmptyOverlap(s, events, pair), RowPairs(s, events, a, init), next);
    if next != [] {
      assert next[..0] == [];
      assert OverlapList(s, events, next) == NonEmptyOverlap(s, events, (a, b));
    }
  }

  lemma PartnersStep(s: Setting, events: seq<Event>, a: string, others: seq<string>)
    requires others != []
    ensures var init, b := others[..|others| - 1], others[|others| - 1];
            Partners(s, events, a, others)
            == Partners(s, events, a, init) + if Counted(s, events, a, b) then {b} else {}
  {
    assert forall x :: x in others <==> x in others[..|others| - 1] || x == others[|others| - 1];
  }

  lemma {:induction false} RowCount(s: Setting, events: seq<Event>, a: string, others: seq<string>)
    requires a !in others && forall i, j :: 0 <= i < j < |others| ==> others[i] != others[j]
    ensures |OverlapList(s, events, RowPairs(s, events, a, others))| == |Partners(s, events, a, others)|
    decreases |others|
  {
    if others == [] {
      assert Partners(s, events, a, others) == {};
    } else {
      var init, b := others[..|others| - 1], others[|others| - 1];
      RowCount(s, events, a, init);
      RowStep(s, events, a, others);
      assert b !in init;
      PartnersStep(s, events, a, others);
    }
  }

  ghost function PairsWith(s: Setting, events: seq<Event>, a: string, others: seq<string>): set<set<string>> {
    set b | b in Partners(s, events, a, others) :: {a, b}
  }

  lemma {:induction false} PairsWithSize(a: string, partners: set<string>)
    requires a !in partners
    ensures |set b | b in partners :: {a, b}| == |partners|
    decreases partners
  {
    if partners == {} {
      assert (set b | b in partners :: {a, b}) == {};
    } else {
      var x :| x in partners;
      PairsWithSize(a, partners - {x});
      var smaller := set b | b in partners - {x} :: {a, b};
      assert (set b | b in partners :: {a, b}) == smaller + {{a, x}};
      assert forall b :: b in partners - {x} ==> x !in {a, b};
      assert {a, x} !in smaller;
    }
  }

  lemma {:induction false} PairCount(s: Setting, events: seq<Event>, keys: seq<string>)
    requires s.geo.Symmetric() && forall i, j :: 0 <= i < j < |keys| ==> keys[i] != keys[j]
    ensures |OverlapList(s, events, Pairs(s, events, keys))| == |CountedPairs(s, events, set k | k in keys)|
    decreases |keys|
  {
    if keys == [] {
      assert CountedPairs(s, events, set k | k in keys) == {};
    } else {
      var a, rest := keys[0], keys[1..];
      PairCount(s, events, rest);
      RowCount(s, events, a, rest);
      PairsWithSize(a, Partners(s, events, a, rest));
      CollectConcat((pair: (string, string)) => NonEmptyOverlap(s, events, pair),
                    RowPairs(s, events, a, rest), Pairs(s, events, rest));
      SplitCounted(s, events, keys);
    }
  }

  lemma CountedSymmetric(s: Setting, events: seq<Event>, a: string, b: string)
    requires s.geo.Symmetric() && Counted(s, events, a, b)
    ensures Counted(s, events, b, a)
  {
    ImpossibleSymmetric(s, events, a, b);
    var t :| BothActive(s, events, a, b, t);
    assert BothActive(s, events, b, a, t);
  }

  lemma CountedWith(s: Setting, events: seq<Event>, keys: seq<string>, x: string, y: string)
    requires s.geo.Symmetric() && keys != [] && x in keys && y in keys && Counted(s, events, x, y)
    ensures {x, y} in CountedPairs(s, events, set k | k in keys[1..])
            || {x, y} in PairsWith(s, events, keys[0], keys[1..])
  {
    var a, rest := keys[0], keys[1..];
    CountedSymmetric(s, events, x, y);
    assert forall k :: k in keys <==> k == a || k in rest;
    if x == a {
      assert y in Partners(s, events, a, rest);
    } else if y == a {
      assert x in Partners(s, events, a, rest);
      assert {x, y} == {a, x};
    }
  }

  lemma CountedMember(s: Setting, events: seq<Event>, keys: seq<string>, p: set<string>)
    requires s.geo.Symmetric() && keys != [] && keys[0] !in keys[1..]
    ensures p in CountedPairs(s, events, set k | k in keys)
            <==> p in CountedPairs(s, events, set k | k in keys[1..]) || p in PairsWith(s, events, keys[0], keys[1..])
    ensures p in CountedPairs(s, events, set k | k in keys[1..]) ==> keys[0] !in p
  {
    assert forall k :: k in keys <==> k == keys[0] || k in keys[1..];
    if p in CountedPairs(s, events, set k | k in keys) {
      var x, y :| x in keys && y in keys && Counted(s, events, x, y) && p == {x, y};
      CountedWith(s, events, keys, x, y);
    }
  }

  lemma SplitCounted(s: Setting, events: seq<Event>, keys: seq<string>)
    requires s.geo.Symmetric() && keys != [] && forall i, j :: 0 <= i < j < |keys| ==> keys[i] != keys[j]
    ensures |CountedPairs(s, events, set k | k in keys)|
            == |CountedPairs(s, events, set k | k in keys[1..])| + |PairsWith(s, events, keys[0], keys[1..])|
  {
    var all := CountedPairs(s, events, set k | k in keys);
    var later := CountedPairs(s, events, set k | k in keys[1..]);
    var with := PairsWith(s, events, keys[0], keys[1..]);
    forall p
      ensures p in all <==> p in later + with
      ensures p in later ==> p !in with
    {
      CountedMember(s, events, keys, p);
    }
    assert all == later + with && later !! with;
  }

  // ----- Main results -----

  lemma AllNormal(s: Setting, events: seq<Event>, keys: seq<string>)
    requires forall i, j :: 0 <= i < j < |keys| ==> keys[i] != keys[j]
    ensures forall i :: 0 <= i < |OverlapList(s, events, Pairs(s, events, keys))| ==>
              Normal(OverlapList(s, events, Pairs(s, events, keys))[i])
  {
    var overlaps := OverlapList(s, events, Pairs(s, events, keys));
    forall i | 0 <= i < |overlaps|
      ensures Normal(overlaps[i])
    {
      OverlapFromPair(s, events, Pairs(s, events, keys), overlaps[i]);
      var pair :| pair in Pairs(s, events, keys) && overlaps[i] == Overlap(s, events, pair.0, pair.1);
      PairMember(s, events, keys, pair);
      OverlapMeaning(s, events, pair.0, pair.1);
    }
  }

  lemma OrNormal(sort: IntervalSort, tls: seq<BoolTimeline>)
    requires forall i :: 0 <= i < |tls| ==> Normal(tls[i])
    ensures Normal(OrAll(sort, tls))
  {
    if |tls| >= 2 {
      OrShape(sort, tls);
    }
  }

  lemma FewEvents(s: Setting, events: seq<Event>, keys: seq<string>, t: int)
    requires Enumerates(s, events, keys) && |events| < 2
    ensures !Flagged(s, events, (set k | k in keys), t)
  {
    assert forall a, b :: a in keys && b in keys ==> a == b;
  }

  lemma DetectedShape(s: Setting, events: seq<Event>, keys: seq<string>)
    requires Enumerates(s, events, keys)
    ensures Normal(Detected(s, events, keys))
  {
    AllNormal(s, events, keys);
    OrNormal(s.bs, OverlapList(s, events, Pairs(s, events, keys)));
  }

  lemma DetectedAt(s: Setting, events: seq<Event>, keys: seq<string>, t: int)
    requires Enumerates(s, events, keys) && s.geo.Symmetric()
    ensures t in Instants(Detected(s, events, keys)) <==> Flagged(s, events, (set k | k in keys), t)
  {
    if |events| < 2 {
      FewEvents(s, events, keys, t);
    } else {
      OrMeaning(s.bs, OverlapList(s, events, Pairs(s, events, keys)));
      PairCount(s, events, keys);
      OverlapListMeaning(s, events, keys, t);
    }
  }

  /** Fraud meaning: an instant is flagged exactly when at least `minOverlaps` impossible pairs of
      locations overlap and, for one of them, both locations have an event in the window before it. */
  lemma FraudMeaning(s: Setting, events: seq<Event>, keys: seq<string>)
    requires Enumerates(s, events, keys) && s.geo.Symmetric()
    ensures Normal(Detected(s, events, keys))
    ensures forall t :: t in Instants(Detected(s, events, keys)) <==> Flagged(s, events, (set k | k in keys), t)
  {
    DetectedShape(s, events, keys);
    forall t
      ensures t in Instants(Detected(s, events, keys)) <==> Flagged(s, events, (set k | k in keys), t)
    {
      DetectedAt(s, events, keys, t);
    }
  }

  /** Settings that differ at most in their sorts. */
  ghost predicate SameRules(s: Setting, r: Setting) {
    s.geo == r.geo && s.window == r.window && s.config == r.config
  }

  lemma SamePair(s: Setting, a: seq<Event>, r: Setting, b: seq<Event>, x: string, y: string)
    requires SameRules(s, r) && forall e :: e in a <==> e in b
    ensures ImpossiblePair(s, a, x, y) <==> ImpossiblePair(r, b, x, y)
    ensures forall t :: BothActive(s, a, x, y, t) <==> BothActive(r, b, x, y, t)
    ensures Counted(s, a, x, y) <==> Counted(r, b, x, y)
    ensures forall t :: FlaggedBy(s, a, x, y, t) <==> FlaggedBy(r, b, x, y, t)
  {
    SameImpossible(s, a, r, b, x, y);
    SameImpossible(r, b, s, a, x, y);
    forall t
      ensures BothActive(s, a, x, y, t) <==> BothActive(r, b, x, y, t)
    {
    }
  }

  lemma SameImpossible(s: Setting, a: seq<Event>, r: Setting, b: seq<Event>, x: string, y: string)
    requires SameRules(s, r) && forall e :: e in a <==> e in b
    ensures ImpossiblePair(s, a, x, y) ==> ImpossiblePair(r, b, x, y)
  {
    if ImpossiblePair(s, a, x, y) {
      var e1, e2 :| e1 in a && e2 in a && AtPlace(s.geo, e1, x) && AtPlace(s.geo, e2, y)
                    && Unreachable(s, e1, e2);
      assert e1 in b && e2 in b && Unreachable(r, e1, e2);
    }
  }

  lemma SameCounted(s: Setting, a: seq<Event>, r: Setting, b: seq<Event>, keys: set<string>)
    requires SameRules(s, r) && forall e :: e in a <==> e in b
    ensures CountedPairs(s, a, keys) == CountedPairs(r, b, keys)
  {
    forall x, y
      ensures Counted(s, a, x, y) <==> Counted(r, b, x, y)
    {
      SamePair(s, a, r, b, x, y);
    }
  }

  lemma SameEvents(s: Setting, a: seq<Event>, r: Setting, b: seq<Event>, keys: set<string>, t: int)
    requires SameRules(s, r) && multiset(a) == multiset(b)
    ensures Flagged(s, a, keys, t) <==> Flagged(r, b, keys, t)
  {
    PermutationFacts(a, b);
    SameCounted(s, a, r, b, keys);
    forall x, y
      ensures FlaggedBy(s, a, x, y, t) <==> FlaggedBy(r, b, x, y, t)
    {
      SamePair(s, a, r, b, x, y);
    }
  }

  /** Order independence: the same list for every iteration order of the map, every order of the events
      and every choice of the two sorts. */
  lemma FraudOrderIndependent(s: Setting, a: seq<Event>, keysA: seq<string>, r: Setting, b: seq<Event>,
                              keysB: seq<string>)
    requires s.geo.Symmetric() && SameRules(s, r) && multiset(a) == multiset(b)
    requires Enumerates(s, a, keysA) && Enumerates(r, b, keysB)
    ensures Detected(s, a, keysA) == Detected(r, b, keysB)
  {
    PermutationFacts(a, b);
    assert (set k | k in keysA) == (set k | k in keysB);
    FraudMeaning(s, a, keysA);
    FraudMeaning(r, b, keysB);
    forall t
      ensures t in Instants(Detected(s, a, keysA)) <==> t in Instants(Detected(r, b, keysB))
    {
      SameEvents(s, a, r, b, (set k | k in keysA), t);
    }
    NormalUnique(Detected(s, a, keysA), Detected(r, b, keysB));
  }

  /** Witnesses strictly less than the window apart make their pair count; exactly the window apart
      they make it suspicious, but their own windows no longer meet. */
  lemma CloseWitnessesCount(s: Setting, events: seq<Event>, e1: Event, e2: Event, a: string, b: string)
    requires e1 in events && e2 in events && AtPlace(s.geo, e1, a) && AtPlace(s.geo, e2, b) && a != b
    requires Unreachable(s, e1, e2)
    ensures -s.window < e2.timestamp - e1.timestamp < s.window ==> Counted(s, events, a, b)
    ensures e2.timestamp - e1.timestamp == s.window || e1.timestamp - e2.timestamp == s.window ==>
              Range(e1.timestamp, e1.timestamp + s.window) !! Range(e2.timestamp, e2.timestamp + s.window)
  {
    if -s.window < e2.timestamp - e1.timestamp < s.window {
      assert BothActive(s, events, a, b, Max(e1.timestamp, e2.timestamp));
    }
  }

  /** With the default configuration: five hundred kilometres and 1045 kilometres an hour. */
  lemma DefaultReach(geo: Geography, a: Location, b: Location, apart: nat)
    requires a.kind != "online" && b.kind != "online"
    ensures var distance := geo.distance(a.lat, a.lng, b.lat, b.lng);
            PossibleTravel(geo, a, b, apart, DEFAULT_CONFIG)
            <==> distance < 500.0 || (apart > 0 && distance * 3_600_000_000_000.0 <= 1045.0 * apart as real)
  {
    PossibleIsInReach(geo, a, b, apart, DEFAULT_CONFIG);
    assert DEFAULT_CONFIG.flyingSpeedKmH * DEFAULT_CONFIG.speedBuffer == 1045.0;
  }

  /** The pairs of different keys, without regard to their order. */
  ghost function AllPairs(keys: set<string>): set<set<string>> {
    set a, b | a in keys && b in keys && a != b :: {a, b}
  }

  ghost function NewPairs(k: string, others: set<string>): set<set<string>> {
    set x | x in others :: {k, x}
  }

  lemma {:induction false} NewPairsSize(k: string, others: set<string>)
    ensures |NewPairs(k, others)| <= |others|
    decreases others
  {
    if others == {} {
      assert NewPairs(k, others) == {};
    } else {
      var x :| x in others;
      NewPairsSize(k, others - {x});
      assert NewPairs(k, others) == NewPairs(k, others - {x}) + {{k, x}};
    }
  }

  lemma PairsStepSet(keys: set<string>, k: string)
    requires k in keys
    ensures AllPairs(keys) == AllPairs(keys - {k}) + NewPairs(k, keys - {k})
  {
    forall a, b | a in keys && b in keys && a != b
      ensures {a, b} in AllPairs(keys - {k}) + NewPairs(k, keys - {k})
    {
      if b == k {
        assert {a, b} == {b, a};
      }
    }
  }

  lemma UnionSize<T>(a: set<T>, b: set<T>)
    ensures |a + b| <= |a| + |b|
  {
    assert a + b == a + (b - a);
    SubsetSize(b - a, b);
  }

  /** Twice the number of pairs of `n` things. */
  function TwicePairs(n: int): int { n * (n - 1) }

  lemma OneMore(n: int)
    ensures TwicePairs(n + 1) == TwicePairs(n) + 2 * n
  {
  }

  lemma PairsGrow(keys: set<string>, k: string)
    requires k in keys
    ensures |AllPairs(keys)| <= |AllPairs(keys - {k})| + |keys - {k}|
  {
    NewPairsSize(k, keys - {k});
    PairsStepSet(keys, k);
    UnionSize(AllPairs(keys - {k}), NewPairs(k, keys - {k}));
  }

  /** There are at most n(n - 1)/2 of them. */
  lemma {:induction false} PairsSize(keys: set<string>, n: nat)
    requires |keys| == n
    ensures 2 * |AllPairs(keys)| <= TwicePairs(n)
    decreases n
  {
    if keys == {} {
      assert AllPairs(keys) == {};
    } else {
      var k :| k in keys;
      PairsSize(keys - {k}, n - 1);
      PairsGrow(keys, k);
      OneMore(n - 1);
    }
  }

  lemma CountedSize(s: Setting, events: seq<Event>, keys: set<string>)
    ensures 2 * |CountedPairs(s, events, keys)| <= TwicePairs(|keys|)
  {
    PairsSize(keys, |keys|);
    forall p | p in CountedPairs(s, events, keys)
      ensures p in AllPairs(keys)
    {
      var a, b :| a in keys && b in keys && Counted(s, events, a, b) && p == {a, b};
    }
    SubsetSize(CountedPairs(s, events, keys), AllPairs(keys));
  }

  lemma TooFewPairs(s: Setting, events: seq<Event>, keys: seq<string>)
    requires s.geo.Symmetric() && Enumerates(s, events, keys)
    requires |CountedPairs(s, events, set k | k in keys)| < s.config.minOverlaps
    ensures Detected(s, events, keys) == []
  {
    PairCount(s, events, keys);
  }

  /** Fewer than `minOverlaps` pairs of locations are never enough: n location keys are not flagged, whatever
      the events, if n(n - 1)/2 is less than the number of overlaps the configuration asks for. */
  lemma FewLocationsNeverFlagged(s: Setting, events: seq<Event>, keys: seq<string>)
    requires s.geo.Symmetric() && Enumerates(s, events, keys)
    requires TwicePairs(|keys|) < 2 * s.config.minOverlaps
    ensures Detected(s, events, keys) == []
  {
    DistinctElements(keys);
    CountedSize(s, events, (set k | k in keys));
    TooFewPairs(s, events, keys);
  }

  /** With the default configuration two locations are never enough. */
  lemma TwoLocationsNeverFlagged(s: Setting, events: seq<Event>, keys: seq<string>)
    requires s.geo.Symmetric() && Enumerates(s, events, keys) && s.config == DEFAULT_CONFIG && |keys| <= 2
    ensures Detected(s, events, keys) == []
  {
    assert TwicePairs(0) == 0 && TwicePairs(1) == 0 && TwicePairs(2) == 2;
    FewLocationsNeverFlagged(s, events, keys);
  }

  lemma SubsetSize<T>(a: set<T>, b: set<T>)
    requires a <= b
    ensures |a| <= |b|
  {
    assert b == a + (b - a);
  }

  // ----- The code -----

  /** Looks for one event pair that shows travel to be impossible, and stops at the first. */
  method AnyImpossible(s: Setting, group1: seq<Event>, group2: seq<Event>) returns (found: bool)
    ensures found <==> exists e1, e2 :: e1 in group1 && e2 in group2 && Impossible(s, e1, e2)
  {
    for i := 0 to |group1|
      invariant forall e1, e2 :: e1 in group1[..i] && e2 in group2 ==> !Impossible(s, e1, e2)
    {
      for j := 0 to |group2|
        invariant forall e2 :: e2 in group2[..j] ==> !Impossible(s, group1[i], e2)
      {
        var timeDiff := group2[j].timestamp - group1[i].timestamp;
        if timeDiff < 0 {
          timeDiff := -timeDiff;
        }
        if timeDiff <= s.window {
          var loc1, loc2 := s.geo.normalize(group1[i].value), s.geo.normalize(group2[j].value);
          if !PossibleTravel(s.geo, loc1, loc2, timeDiff, s.config) {
            assert Impossible(s, group1[i], group2[j]);
            return true;
          }
        }
      }
      assert group2[..|group2|] == group2;
    }
    assert group1[..|group1|] == group1;
    return false;
  }

  /** The map holds the events of the location, and no empty lists. */
  ghost predicate GroupedAt(s: Setting, events: seq<Event>, groups: map<string, seq<Event>>, k: string) {
    Group(s, events, k) == (if k in groups then groups[k] else []) && (k in groups ==> groups[k] != [])
  }

  /** The map from each location to its events. */
  ghost predicate Grouped(s: Setting, events: seq<Event>, groups: map<string, seq<Event>>) {
    forall k :: GroupedAt(s, events, groups, k)
  }

  function AddEvent(groups: map<string, seq<Event>>, key: string, event: Event): map<string, seq<Event>> {
    groups[key := (if key in groups then groups[key] else []) + [event]]
  }

  lemma GroupStepAt(s: Setting, events: seq<Event>, event: Event, groups: map<string, seq<Event>>, k: string)
    requires GroupedAt(s, events, groups, k)
    ensures GroupedAt(s, events + [event], AddEvent(groups, LocationKey(s.geo, event), event), k)
  {
    GroupAppend(s, events, event, k);
    assert Group(s, events, k) + [] == Group(s, events, k);
  }

  lemma GroupStep(s: Setting, events: seq<Event>, i: nat, groups: map<string, seq<Event>>)
    requires i < |events| && Grouped(s, events[..i], groups)
    ensures Grouped(s, events[..i + 1], AddEvent(groups, LocationKey(s.geo, events[i]), events[i]))
  {
    var longer, next := events[..i + 1], AddEvent(groups, LocationKey(s.geo, events[i]), events[i]);
    assert longer == events[..i] + [events[i]];
    forall k
      ensures GroupedAt(s, longer, next, k)
    {
      GroupStepAt(s, events[..i], events[i], groups, k);
    }
  }

  lemma GroupAppend(s: Setting, events: seq<Event>, event: Event, k: string)
    ensures Group(s, events + [event], k)
            == Group(s, events, k) + if LocationKey(s.geo, event) == k then [event] else []
  {
    assert (events + [event])[..|events|] == events;
  }

  lemma GroupedKeys(s: Setting, events: seq<Event>, groups: map<string, seq<Event>>, k: string)
    requires Grouped(s, events, groups)
    ensures k in groups <==> exists e :: e in events && AtPlace(s.geo, e, k)
  {
    assert GroupedAt(s, events, groups, k);
    if k in groups {
      GroupMember(s, events, k, groups[k][0]);
    }
    if e :| e in events && AtPlace(s.geo, e, k) {
      GroupMember(s, events, k, e);
    }
  }

  method GroupByLocation(s: Setting, events: seq<Event>) returns (groups: map<string, seq<Event>>)
    ensures Grouped(s, events, groups)
  {
    groups := map[];
    for i := 0 to |events|
      invariant Grouped(s, events[..i], groups)
    {
      GroupStep(s, events, i, groups);
      var event := events[i];
      var key := LocationKey(s.geo, event);
      groups := groups[key := (if key in groups then groups[key] else []) + [event]];
    }
    assert events[..|events|] == events;
  }

  /** The keys of the map, in whatever order the iteration yields them. */
  method IterationOrder(groups: map<string, seq<Event>>) returns (keys: seq<string>)
    ensures forall i, j :: 0 <= i < j < |keys| ==> keys[i] != keys[j]
    ensures forall k :: k in keys <==> k in groups
  {
    keys := [];
    var remaining := groups.Keys;
    while remaining != {}
      invariant forall i, j :: 0 <= i < j < |keys| ==> keys[i] != keys[j]
      invariant forall k :: k in groups <==> k in keys || k in remaining
      invariant forall k :: k in keys ==> k !in remaining
      decreases remaining
    {
      var k :| k in remaining;
      remaining := remaining - {k};
      keys := keys + [k];
    }
  }

  lemma RowPrefix(s: Setting, events: seq<Event>, a: string, others: seq<string>, j: nat)
    requires j < |others|
    ensures RowPairs(s, events, a, others[..j + 1])
            == RowPairs(s, events, a, others[..j])
               + if Suspicious(s, events, a, others[j]) then [(a, others[j])] else []
  {
    assert others[..j + 1][..j] == others[..j];
  }

  method IsSuspicious(s: Setting, ghost events: seq<Event>, groups: map<string, seq<Event>>, a: string, b: string)
    returns (found: bool)
    requires Grouped(s, events, groups) && a in groups && b in groups
    ensures found <==> Suspicious(s, events, a, b)
  {
    assert GroupedAt(s, events, groups, a) && GroupedAt(s, events, groups, b);
    found := AnyImpossible(s, groups[a], groups[b]);
  }

  method SuspiciousRow(s: Setting, ghost events: seq<Event>, groups: map<string, seq<Event>>, a: string,
                       others: seq<string>)
    returns (pairs: seq<(string, string)>)
    requires Grouped(s, events, groups) && a in groups && forall k :: k in others ==> k in groups
    ensures pairs == RowPairs(s, events, a, others)
  {
    pairs := [];
    for j := 0 to |others|
      invariant pairs == RowPairs(s, events, a, others[..j])
    {
      RowPrefix(s, events, a, others, j);
      var found := IsSuspicious(s, events, groups, a, others[j]);
      if found {
        pairs := pairs + [(a, others[j])];
      }
    }
    assert others[..|others|] == others;
  }

  lemma PairsStep(s: Setting, events: seq<Event>, keys: seq<string>, i: nat)
    requires i < |keys|
    ensures Pairs(s, events, keys[i..])
            == RowPairs(s, events, keys[i], keys[i + 1..]) + Pairs(s, events, keys[i + 1..])
  {
    assert keys[i..][1..] == keys[i + 1..];
  }

  method SuspiciousPairs(s: Setting, ghost events: seq<Event>, groups: map<string, seq<Event>>, keys: seq<string>)
    returns (pairs: seq<(string, string)>)
    requires Grouped(s, events, groups) && forall k :: k in keys ==> k in groups
    ensures pairs == Pairs(s, events, keys)
  {
    pairs := [];
    ghost var all := Pairs(s, events, keys);
    for i := 0 to |keys|
      invariant pairs + Pairs(s, events, keys[i..]) == all
    {
      var row := SuspiciousRow(s, events, groups, keys[i], keys[i + 1..]);
      PairsStep(s, events, keys, i);
      pairs := pairs + row;
    }
  }

  method RelabelEvents(events: seq<Event>, key: string) returns (copies: seq<Event>)
    ensures copies == Relabelled(events, key)
  {
    copies := [];
    for i := 0 to |events|
      invariant copies == Relabelled(events[..i], key)
    {
      copies := copies + [Event(events[i].timestamp, events[i].kind, key)];
    }
    assert events[..|events|] == events;
  }

  method OverlapOf(s: Setting, ghost events: seq<Event>, groups: map<string, seq<Event>>, pair: (string, string))
    returns (overlap: array<BoolInterval>)
    requires Grouped(s, events, groups) && pair.0 in groups && pair.1 in groups
    ensures fresh(overlap) && overlap[..] == Overlap(s, events, pair.0, pair.1)
  {
    assert GroupedAt(s, events, groups, pair.0) && GroupedAt(s, events, groups, pair.1);
    var loc1Events := RelabelEvents(groups[pair.0], pair.0);
    var loc2Events := RelabelEvents(groups[pair.1], pair.1);
    var combinedEvents := loc1Events + loc2Events;
    var timelineA := HasExistedWithin(s.es, s.bs, combinedEvents, pair.0, s.window);
    var timelineB := HasExistedWithin(s.es, s.bs, combinedEvents, pair.1, s.window);
    ContentsAt([timelineA, timelineB]);
    assert Contents([timelineA, timelineB]) == [timelineA[..], timelineB[..]];
    overlap := And(s.bs, [timelineA, timelineB]);
  }

  lemma OverlapStep(s: Setting, events: seq<Event>, pairs: seq<(string, string)>, i: nat)
    requires i < |pairs|
    ensures OverlapList(s, events, pairs[..i + 1])
            == OverlapList(s, events, pairs[..i]) + NonEmptyOverlap(s, events, pairs[i])
  {
    assert pairs[..i + 1][..i] == pairs[..i];
  }

  /** The overlaps of the suspicious pairs, without the empty ones. */
  method CollectOverlaps(s: Setting, ghost events: seq<Event>, groups: map<string, seq<Event>>,
                         pairs: seq<(string, string)>)
    returns (timelines: seq<array<BoolInterval>>)
    requires Grouped(s, events, groups) && forall pair :: pair in pairs ==> pair.0 in groups && pair.1 in groups
    ensures Contents(timelines) == OverlapList(s, events, pairs)
  {
    timelines := [];
    for i := 0 to |pairs|
      invariant Contents(timelines) == OverlapList(s, events, pairs[..i])
    {
      OverlapStep(s, events, pairs, i);
      ghost var before := Contents(timelines);
      var fraudulentOverlap := OverlapOf(s, events, groups, pairs[i]);
      assert Contents(timelines) == before;
      if fraudulentOverlap.Length > 0 {
        ContentsAppend(timelines, fraudulentOverlap);
        timelines := timelines + [fraudulentOverlap];
      }
    }
    assert pairs[..|pairs|] == pairs;
  }

  /** `detectCreditCardFraudWithConfig`: the result is the one every iteration order gives. */
  method DetectCreditCardFraud(s: Setting, events: seq<Event>) returns (result: array<BoolInterval>)
    requires s.geo.Symmetric()
    ensures Normal(result[..])
    ensures forall keys :: Enumerates(s, events, keys) ==> result[..] == Detected(s, events, keys)
  {
    if |events| < 2 {
      result := new BoolInterval[0];
      return;
    }
    var eventsByLocation := GroupByLocation(s, events);
    var locationKeys := IterationOrder(eventsByLocation);
    forall k
      ensures k in locationKeys <==> exists e :: e in events && AtPlace(s.geo, e, k)
    {
      GroupedKeys(s, events, eventsByLocation, k);
    }
    var suspiciousPairs := SuspiciousPairs(s, events, eventsByLocation, locationKeys);
    forall pair | pair in suspiciousPairs
      ensures pair.0 in eventsByLocation && pair.1 in eventsByLocation
    {
      PairMember(s, events, locationKeys, pair);
    }
    var allFraudTimelines := CollectOverlaps(s, events, eventsByLocation, suspiciousPairs);
    ContentsAt(allFraudTimelines);
    if |allFraudTimelines| < s.config.minOverlaps {
      result := new BoolInterval[0];
    } else {
      result := Or(s.bs, allFraudTimelines);
    }
    EveryOrder(s, events, locationKeys, result[..]);
  }

  lemma EveryOrder(s: Setting, events: seq<Event>, keys: seq<string>, result: BoolTimeline)
    requires s.geo.Symmetric() && Enumerates(s, events, keys) && result == Detected(s, events, keys)
    ensures Normal(result)
    ensures forall other :: Enumerates(s, events, other) ==> result == Detected(s, events, other)
  {
    DetectedShape(s, events, keys);
    forall other | Enumerates(s, events, other)
      ensures result == Detected(s, events, other)
    {
      FraudOrderIndependent(s, events, keys, s, events, other);
    }
  }
}
