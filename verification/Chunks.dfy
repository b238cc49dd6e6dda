/**
 Cutting event lists into chunks, as `createEventChunks` and `partitionEvents` do, and what the
 cuts cost `LatestEventToState` when its durations are added up chunk by chunk.
 */
module Chunks {
  import opened Arithmetic
  import opened Sorting
  import opened Timeline
  import opened BooleanAlgebra
  import opened Measure
  import opened Existence
  import opened States

  datatype EventChunk<T> = EventChunk(id: int, events: seq<T>, totalChunks: int, chunkIndex: int)

  /** `s` cut after every `size` elements. */
  function Pieces<T>(s: seq<T>, size: nat): seq<seq<T>>
    requires size > 0
    decreases |s|
  {
    if s == [] then []
    else if |s| <= size then [s]
    else [s[..size]] + Pieces(s[size..], size)
  }

  lemma {:induction false} FlattenCons<T>(x: seq<T>, rest: seq<seq<T>>)
    ensures Flatten([x] + rest) == x + Flatten(rest)
    decreases |rest|
  {
    if rest == [] {
      assert [x] + rest == [x] && [x][..0] == [];
      assert Flatten([x]) == x;
    } else {
      var init := rest[..|rest| - 1];
      FlattenCons(x, init);
      assert ([x] + rest)[..|rest|] == [x] + init;
    }
  }

  /** The pieces put together are the list again; all are full except possibly the last, which is not
      empty; and there are as many as rounding up the quotient says. */
  lemma {:induction false} PiecesLaw<T>(s: seq<T>, size: nat)
    requires size > 0
    ensures Flatten(Pieces(s, size)) == s
    ensures forall k :: 0 <= k < |Pieces(s, size)| - 1 ==> |Pieces(s, size)[k]| == size
    ensures forall k :: 0 <= k < |Pieces(s, size)| ==> 0 < |Pieces(s, size)[k]| <= size
    ensures |Pieces(s, size)| == (|s| + size - 1) / size
    decreases |s|
  {
    if s == [] {
      DivSmall(size - 1, size);
    } else if |s| <= size {
      assert [s][..0] == [];
      assert Flatten([s]) == s;
      DivSmall(|s| - 1, size);
      DivStep(|s| - 1, size);
    } else {
      PiecesLaw(s[size..], size);
      FlattenCons(s[..size], Pieces(s[size..], size));
      DivStep(|s| - 1, size);
    }
  }

  /** The pieces still to be cut off from position `i` on. */
  function Remaining<T>(events: seq<T>, i: nat, size: nat): seq<seq<T>>
    requires size > 0
  {
    if i < |events| then Pieces(events[i..], size) else []
  }

  lemma NextPiece<T>(events: seq<T>, i: nat, end: nat, size: nat, done: seq<seq<T>>)
    requires size > 0 && i < |events| && end == if i + size > |events| then |events| else i + size
    ensures done + Remaining(events, i, size) == done + [events[i..end]] + Remaining(events, i + size, size)
  {
    if i + size < |events| {
      assert events[i..][size..] == events[i + size..];
      assert events[i..][..size] == events[i..end];
    } else {
      assert events[i..] == events[i..end];
    }
    assert Remaining(events, i, size) == [events[i..end]] + Remaining(events, i + size, size);
  }

  lemma PieceCount<T>(s: seq<T>, size: nat)
    requires size > 0
    ensures |Pieces(s, size)| == (|s| + size - 1) / size
  {
    PiecesLaw(s, size);
  }

  method TotalChunks<T>(events: seq<T>, chunkSize: nat) returns (totalChunks: nat)
    requires chunkSize > 0
    ensures totalChunks == |Pieces(events, chunkSize)|
  {
    PieceCount(events, chunkSize);
    totalChunks := (|events| + chunkSize - 1) / chunkSize;
  }

  method ChunkId(i: nat, chunkSize: nat, ghost k: nat) returns (id: nat)
    requires chunkSize > 0 && i == Offset(k, chunkSize)
    ensures id == k
  {
    OffsetIndex(k, chunkSize);
    id := i / chunkSize;
  }

  /** The chunks hold the pieces and carry their positions and the common total. */
  ghost predicate Numbered<T>(chunks: seq<EventChunk<T>>, pieces: seq<seq<T>>, total: int) {
    |chunks| == |pieces| && forall k :: 0 <= k < |chunks| ==> chunks[k] == EventChunk(k, pieces[k], total, k)
  }

  lemma NumberedAppend<T>(chunks: seq<EventChunk<T>>, pieces: seq<seq<T>>, total: int, piece: seq<T>)
    requires Numbered(chunks, pieces, total)
    ensures Numbered(chunks + [EventChunk(|chunks|, piece, total, |chunks|)], pieces + [piece], total)
  {
  }

  method CreateEventChunks<T>(events: seq<T>, chunkSize: nat) returns (chunks: seq<EventChunk<T>>)
    requires chunkSize > 0
    ensures Numbered(chunks, Pieces(events, chunkSize), |chunks|)
  {
    chunks := [];
    var totalChunks := TotalChunks(events, chunkSize);
    ghost var pieces := Pieces(events, chunkSize);
    assert events[0..] == events;
    ghost var done: seq<seq<T>> := [];
    var i := 0;
    while i < |events|
      invariant 0 <= i
      invariant i < |events| ==> i == Offset(|chunks|, chunkSize)
      invariant pieces == done + Remaining(events, i, chunkSize)
      invariant Numbered(chunks, done, totalChunks)
    {
      var end := i + chunkSize;
      if end > |events| {
        end := |events|;
      }
      var id := ChunkId(i, chunkSize, |chunks|);
      NextPiece(events, i, end, chunkSize, done);
      NumberedAppend(chunks, done, totalChunks, events[i..end]);
      chunks := chunks + [EventChunk(id, events[i..end], totalChunks, id)];
      done := done + [events[i..end]];
      i := i + chunkSize;
    }
  }

  /** One partition, even an empty one, when the events fit; the pieces otherwise. */
  method PartitionEvents<T>(events: seq<T>, partitionSize: nat) returns (partitions: seq<seq<T>>)
    requires partitionSize > 0
    ensures partitions == if events == [] then [events] else Pieces(events, partitionSize)
  {
    if |events| <= partitionSize {
      return [events];
    }
    partitions := [];
    ghost var pieces := Pieces(events, partitionSize);
    assert events[0..] == events;
    var i := 0;
    while i < |events|
      invariant 0 <= i
      invariant pieces == partitions + Remaining(events, i, partitionSize)
    {
      var end := i + partitionSize;
      if end > |events| {
        end := |events|;
      }
      NextPiece(events, i, end, partitionSize, partitions);
      partitions := partitions + [events[i..end]];
      i := i + partitionSize;
    }
  }

  // ----- Cuts that cost nothing -----

  /** `HasExistedWithin` on the partitions, combined with OR, is `HasExistedWithin` on the whole. */
  lemma WithinByPartitions(es: EventSort, bs: IntervalSort, events: seq<Event>, size: nat, condition: string,
                           window: int)
    requires size > 0
    ensures ExistedWithin(es, bs, events, condition, window)
            == OrAll(bs, WithinEach(es, bs, Pieces(events, size), condition, window))
  {
    PiecesLaw(events, size);
    WithinByPieces(es, bs, events, Pieces(events, size), condition, window);
  }

  // ----- The cost of the cuts -----

  ghost predicate StrictlyOrdered(events: seq<Event>) {
    forall i, j :: 0 <= i < j < |events| ==> events[i].timestamp < events[j].timestamp
  }

  lemma StrictSort(es: EventSort, events: seq<Event>)
    requires StrictlyOrdered(events)
    ensures es(events) == events && SortedBy(EventTime, events)
  {
    assert IsSortOf(EventTime, events, es(events));
    forall x, y | x in events && y in events && EventTime(x) == EventTime(y)
      ensures x == y
    {
      var i :| 0 <= i < |events| && events[i] == x;
      var j :| 0 <= j < |events| && events[j] == y;
    }
    SortUnique(EventTime, events, es(events));
  }

  /** What `DurationWhere` reports for one `LatestEventToState` result. */
  function StateTotal(es: EventSort, events: seq<Event>, equals: string): int {
    TotalTrue(AsBool(LatestStates(es, events, equals)))
  }

  /** The time the wanted state goes on past the one-nanosecond tail, up to the next event. */
  function CutGap(before: seq<Event>, after: seq<Event>, equals: string): int
    requires before != [] && after != []
  {
    var last := before[|before| - 1];
    if last.value == equals then after[0].timestamp - last.timestamp - NANOSECOND else 0
  }

  lemma StrictSorted(s: seq<Event>)
    requires StrictlyOrdered(s)
    ensures SortedBy(EventTime, s)
  {
  }

  lemma LatestBeforeCut(a: seq<Event>, b: seq<Event>, t: int)
    requires a != [] && b != [] && StrictlyOrdered(a + b) && a[0].timestamp <= t < b[0].timestamp
    ensures LatestIndex(a + b, t) == LatestIndex(a, t)
  {
    StrictParts(a, b);
    StrictSorted(a);
    StrictSorted(a + b);
    assert (a + b)[|a|] == b[0];
    LatestAt(a + b, LatestIndex(a, t), t);
  }

  lemma LatestAfterCut(a: seq<Event>, b: seq<Event>, t: int)
    requires a != [] && b != [] && StrictlyOrdered(a + b) && b[0].timestamp <= t
    ensures a[0].timestamp <= t && LatestIndex(a + b, t) == |a| + LatestIndex(b, t)
  {
    StrictParts(a, b);
    StrictSorted(b);
    StrictSorted(a + b);
    var k := LatestIndex(b, t);
    assert (a + b)[|a| + k] == b[k] && (k + 1 < |b| ==> (a + b)[|a| + k + 1] == b[k + 1]);
    LatestAt(a + b, |a| + k, t);
  }

  lemma LatestAcrossCut(a: seq<Event>, b: seq<Event>, t: int)
    requires a != [] && b != [] && StrictlyOrdered(a + b) && a[0].timestamp <= t
    ensures var i := LatestIndex(a + b, t);
            && (t < b[0].timestamp ==> (a + b)[i] == a[LatestIndex(a, t)])
            && (b[0].timestamp <= t ==> (a + b)[i] == b[LatestIndex(b, t)])
    ensures a[|a| - 1].timestamp <= t ==> LatestIndex(a, t) == |a| - 1
  {
    if t < b[0].timestamp {
      LatestBeforeCut(a, b, t);
    } else {
      LatestAfterCut(a, b, t);
    }
  }

  lemma CutInstants(a: seq<Event>, b: seq<Event>, equals: string, t: int)
    requires a != [] && b != [] && StrictlyOrdered(a + b)
    ensures LatestIs(a + b, equals, t)
            <==> LatestIs(a, equals, t) || LatestIs(b, equals, t)
                 || (a[|a| - 1].value == equals && a[|a| - 1].timestamp + NANOSECOND <= t < b[0].timestamp)
  {
    var s := a + b;
    assert s[0] == a[0] && s[|s| - 1] == b[|b| - 1] && s[|a|] == b[0] && s[|a| - 1] == a[|a| - 1];
    assert |a| > 1 ==> s[0].timestamp < s[|a| - 1].timestamp;
    assert |b| > 1 ==> s[|a|].timestamp < s[|s| - 1].timestamp;
    if a[0].timestamp <= t {
      LatestAcrossCut(a, b, t);
    }
  }

  ghost function GapInstants(a: seq<Event>, b: seq<Event>, equals: string): set<int>
    requires a != [] && b != []
  {
    if a[|a| - 1].value == equals then Range(a[|a| - 1].timestamp + NANOSECOND, b[0].timestamp) else {}
  }

  lemma CutDisjoint(a: seq<Event>, b: seq<Event>, equals: string, t: int)
    requires a != [] && b != [] && StrictlyOrdered(a + b)
    ensures t in GapInstants(a, b, equals) ==> !LatestIs(a, equals, t) && !LatestIs(b, equals, t)
    ensures LatestIs(a, equals, t) ==> !LatestIs(b, equals, t)
    ensures |GapInstants(a, b, equals)| == CutGap(a, b, equals)
  {
    var s := a + b;
    assert s[|a| - 1] == a[|a| - 1] && s[|a|] == b[0];
    assert s[|a| - 1].timestamp < s[|a|].timestamp;
  }

  lemma StrictParts(a: seq<Event>, b: seq<Event>)
    requires StrictlyOrdered(a + b)
    ensures StrictlyOrdered(a) && StrictlyOrdered(b)
  {
    assert forall k :: 0 <= k < |a| ==> (a + b)[k] == a[k];
    assert forall k :: 0 <= k < |b| ==> (a + b)[|a| + k] == b[k];
  }

  lemma CutPoint(a: seq<Event>, b: seq<Event>, equals: string, t: int)
    requires a != [] && b != [] && StrictlyOrdered(a + b)
    ensures var inA, inB, gap := StateInstants(a, equals), StateInstants(b, equals), GapInstants(a, b, equals);
            && (t in StateInstants(a + b, equals) <==> t in inA || t in inB || t in gap)
            && !(t in inA && t in inB) && !(t in inA && t in gap) && !(t in inB && t in gap)
  {
    StrictParts(a, b);
    StrictMeaning(a, equals);
    StrictMeaning(b, equals);
    StrictMeaning(a + b, equals);
    CutInstants(a, b, equals, t);
    CutDisjoint(a, b, equals, t);
  }

  lemma StrictMeaning(events: seq<Event>, equals: string)
    requires StrictlyOrdered(events) && events != []
    ensures forall t :: t in StateInstants(events, equals) <==> LatestIs(events, equals, t)
  {
    StatesMeaning(events, equals);
  }

  lemma CutSize(a: seq<Event>, b: seq<Event>, equals: string)
    requires a != [] && b != [] && StrictlyOrdered(a + b)
    ensures |StateInstants(a + b, equals)|
            == |StateInstants(a, equals)| + |StateInstants(b, equals)| + |GapInstants(a, b, equals)|
  {
    var inS, inA, inB := StateInstants(a + b, equals), StateInstants(a, equals), StateInstants(b, equals);
    var gap := GapInstants(a, b, equals);
    forall t
      ensures t in inS <==> t in inA || t in inB || t in gap
      ensures !(t in inA && t in inB) && !(t in inA && t in gap) && !(t in inB && t in gap)
    {
      CutPoint(a, b, equals, t);
    }
    assert inS == inA + inB + gap;
    assert inA !! inB && (inA + inB) !! gap;
  }

  /** One cut. */
  lemma CutLaw(es: EventSort, a: seq<Event>, b: seq<Event>, equals: string)
    requires a != [] && b != [] && StrictlyOrdered(a + b)
    ensures StateTotal(es, a + b, equals)
            == StateTotal(es, a, equals) + StateTotal(es, b, equals) + CutGap(a, b, equals)
    ensures CutGap(a, b, equals) >= 0
  {
    StrictParts(a, b);
    StrictTotal(es, a, equals);
    StrictTotal(es, b, equals);
    StrictTotal(es, a + b, equals);
    CutDisjoint(a, b, equals, 0);
    CutSize(a, b, equals);
  }

  ghost function StateInstants(events: seq<Event>, equals: string): set<int> {
    Instants(AsBool(StatesOf(events, equals)))
  }

  lemma StrictTotal(es: EventSort, events: seq<Event>, equals: string)
    requires StrictlyOrdered(events) && events != []
    ensures StateTotal(es, events, equals) == |StateInstants(events, equals)|
  {
    StrictSort(es, events);
    StatesDuration(events, equals);
  }

  function ChunkSum(es: EventSort, chunks: seq<seq<Event>>, equals: string): int {
    if chunks == [] then 0 else StateTotal(es, chunks[0], equals) + ChunkSum(es, chunks[1..], equals)
  }

  /** The gaps at all the cuts. */
  function CutSum(chunks: seq<seq<Event>>, equals: string): int
    requires forall k :: 0 <= k < |chunks| ==> chunks[k] != []
  {
    if |chunks| <= 1 then 0 else CutGap(chunks[0], chunks[1], equals) + CutSum(chunks[1..], equals)
  }

  /** Chunk-cut law: the whole is the sum over the chunks plus the gaps at the cuts after which the
      wanted state went on; so adding up chunks never reports more than the whole. */
  lemma {:induction false} ChunkCutLaw(es: EventSort, events: seq<Event>, size: nat, equals: string)
    requires size > 0 && StrictlyOrdered(events)
    ensures forall k :: 0 <= k < |Pieces(events, size)| ==> Pieces(events, size)[k] != []
    ensures StateTotal(es, events, equals)
            == ChunkSum(es, Pieces(events, size), equals) + CutSum(Pieces(events, size), equals)
    ensures ChunkSum(es, Pieces(events, size), equals) <= StateTotal(es, events, equals)
    decreases |events|
  {
    PiecesLaw(events, size);
    var pieces := Pieces(events, size);
    if events == [] {
      assert AsBool([]) == [];
    } else if |events| <= size {
      assert pieces[1..] == [];
    } else {
      var head, tail := events[..size], events[size..];
      assert events == head + tail;
      ChunkCutLaw(es, tail, size, equals);
      CutLaw(es, head, tail, equals);
      assert pieces[0] == head && pieces[1..] == Pieces(tail, size);
      assert pieces[1][0] == tail[0];
    }
  }
}
