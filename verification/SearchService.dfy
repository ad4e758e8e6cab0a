/**
 Result delivery: the direct, indexed and hybrid strategies, and the event stream
 that batches results for the user interface.

 The engine is an input: the results it would stream, in order, until its sink
 answers false.  A sink is a function of everything offered to it so far.
 */
module SearchServices {
  import opened Optional
  import opened ResultOrder
  import opened ResultMerge
  import opened Batching

  type ResultSink = seq<SearchResult> -> bool

  // ---- Strategies ------------------------------------------------------------------

  /** How many of the results are offered: up to and including the first refused. */
  function OfferedCount(results: seq<SearchResult>, sink: ResultSink, from: nat): (n: nat)
    requires from <= |results|
    ensures from <= n <= |results|
    decreases |results| - from
  {
    if from == |results| then from
    else if !sink(results[..from + 1]) then from + 1
    else OfferedCount(results, sink, from + 1)
  }

  /** What a sink receives when an engine streams to it directly. */
  function Offered(results: seq<SearchResult>, sink: ResultSink): seq<SearchResult> {
    results[..OfferedCount(results, sink, 0)]
  }

  predicate Refused(offered: seq<SearchResult>, sink: ResultSink) { offered != [] && !sink(offered) }

  /** The offered results that the sink accepted: all but a refused last one. */
  function Accepted(offered: seq<SearchResult>, sink: ResultSink): seq<SearchResult> {
    if Refused(offered, sink) then offered[..|offered| - 1] else offered
  }

  /** Offered in order, nothing after the first refusal, and all if none refuses. */
  lemma OfferedUntilRefused(results: seq<SearchResult>, sink: ResultSink)
    ensures var n := |Offered(results, sink)|;
      && n <= |results| && Offered(results, sink) == results[..n]
      && (forall k :: 0 < k < n ==> sink(results[..k]))
      && (n < |results| ==> n > 0 && !sink(results[..n]))
  {
    CountUntilRefused(results, sink, 0);
  }

  lemma {:induction false} CountUntilRefused(results: seq<SearchResult>, sink: ResultSink, from: nat)
    requires from <= |results|
    ensures var n := OfferedCount(results, sink, from);
      && (forall k :: from < k < n ==> sink(results[..k]))
      && (n < |results| ==> n > from && !sink(results[..n]))
    decreases |results| - from
  {
    if from < |results| && sink(results[..from + 1]) {
      CountUntilRefused(results, sink, from + 1);
    }
  }

  function CountIn(rs: seq<SearchResult>, keys: set<Key>): nat {
    if rs == [] then 0 else CountIn(rs[..|rs| - 1], keys) + (if rs[|rs| - 1].key in keys then 1 else 0)
  }

  /** The engine streaming to a sink. */
  method DirectSearch(results: seq<SearchResult>, sink: ResultSink) returns (offered: seq<SearchResult>)
    ensures offered == Offered(results, sink)
  {
    offered := [];
    for i := 0 to |results|
      invariant offered == results[..i]
      invariant OfferedCount(results, sink, 0) == OfferedCount(results, sink, i)
    {
      offered := offered + [results[i]];
      assert offered == results[..i + 1];
      if !sink(offered) {
        return;
      }
    }
  }

  datatype Publication = Publication(offered: seq<SearchResult>, matches: nat, hits: nat, misses: nat)

  /** The hybrid strategy: results still come from the engine, in its order; the
      index only tells hits from misses.  `stopAfter` is the number of accepted
      results at which the stop token is first seen. */
  method HybridSearch(indexed: seq<SearchResult>, results: seq<SearchResult>, sink: ResultSink, stopAfter: Option<nat>)
    returns (p: Publication)
    ensures p.offered <= Offered(results, sink)
    ensures stopAfter == None ==> p.offered == Offered(results, sink)
    ensures p.matches == p.hits + p.misses == |Accepted(p.offered, sink)|
    ensures p.hits == CountIn(Accepted(p.offered, sink), KeySet(indexed))
  {
    hide KeySet, StrictlySorted, Accepted;
    var ordered := SortAndRemoveDuplicates(indexed);
    p := Publication([], 0, 0, 0);
    AcceptedAll([], sink);
    for i := 0 to |results|
      invariant p.offered == results[..i] && p.matches == p.hits + p.misses == i
      invariant p.hits == CountIn(results[..i], KeySet(indexed))
      invariant OfferedCount(results, sink, 0) == OfferedCount(results, sink, i)
      invariant Accepted(p.offered, sink) == p.offered
    {
      var cacheHit := OrderedResultsContain(ordered, results[i]);
      p := p.(offered := p.offered + [results[i]]);
      assert p.offered == results[..i + 1];
      assert results[..i + 1][..i] == results[..i];
      if !sink(p.offered) {
        AcceptedFront(p.offered, sink);
        return;
      }
      AcceptedAll(p.offered, sink);
      if cacheHit {
        p := p.(hits := p.hits + 1);
      } else {
        p := p.(misses := p.misses + 1);
      }
      p := p.(matches := p.matches + 1);
      if stopAfter.Some? && stopAfter.value <= p.matches {
        return;
      }
    }
  }

  lemma AcceptedAll(offered: seq<SearchResult>, sink: ResultSink)
    requires !Refused(offered, sink)
    ensures Accepted(offered, sink) == offered
  {}

  lemma AcceptedFront(offered: seq<SearchResult>, sink: ResultSink)
    requires Refused(offered, sink)
    ensures Accepted(offered, sink) == offered[..|offered| - 1]
  {}

  /** The indexed strategy publishes the index's results themselves. */
  method EmitIndexedResults(indexed: seq<SearchResult>, sink: ResultSink)
    returns (offered: seq<SearchResult>, resultCount: nat, stoppedBySink: bool)
    ensures offered == Offered(indexed, sink)
    ensures resultCount == |Accepted(offered, sink)| && stoppedBySink == Refused(offered, sink)
  {
    offered, resultCount, stoppedBySink := [], 0, false;
    for i := 0 to |indexed|
      invariant offered == indexed[..i] && resultCount == i && !stoppedBySink && !Refused(offered, sink)
      invariant OfferedCount(indexed, sink, 0) == OfferedCount(indexed, sink, i)
    {
      offered := offered + [indexed[i]];
      assert offered == indexed[..i + 1];
      if !sink(offered) {
        stoppedBySink := true;
        return;
      }
      resultCount := resultCount + 1;
    }
  }

  // ---- The event stream -----------------------------------------------------------------

  datatype Summary = Summary(cancelled: bool, hasErrors: bool, partialFailure: bool)

  datatype Event = Started | ResultBatch(results: seq<SearchResult>) | Completed | Cancelled | Failed

  type EventSink = seq<Event> -> bool

  function CompletionKind(summary: Summary): Event {
    if summary.cancelled then Cancelled
    else if summary.hasErrors && !summary.partialFailure then Failed
    else Completed
  }

  /** A batch is full at the current size; a size of zero delivers one by one. */
  function FullSize(b: State): nat { Max(b.size, 1) }

  /** The results cut into batches, the size adapting after each delivery. */
  function Batches(b: State, latency: nat -> int, k: nat, results: seq<SearchResult>): seq<seq<SearchResult>>
    decreases |results|
  {
    var n := FullSize(After(b, latency, k));
    if results == [] then []
    else if |results| < n then [results]
    else [results[..n]] + Batches(b, latency, k + 1, results[n..])
  }

  function Concat(batches: seq<seq<SearchResult>>): seq<SearchResult> {
    if batches == [] then [] else batches[0] + Concat(batches[1..])
  }

  function BatchEvents(batches: seq<seq<SearchResult>>): seq<Event> {
    seq(|batches|, i requires 0 <= i < |batches| => ResultBatch(batches[i]))
  }

  /** The events up to the first `n` batches. */
  function History(batches: seq<seq<SearchResult>>, n: nat): seq<Event>
    requires n <= |batches|
  {
    [Started] + BatchEvents(batches[..n])
  }

  /** Batches are offered up to and including the first one refused. */
  predicate OfferedBatches(all: seq<seq<SearchResult>>, sink: EventSink, n: nat) {
    && n <= |all|
    && (forall k :: 0 < k < n ==> sink(History(all, k)))
    && (n < |all| ==> n > 0 && !sink(History(all, n)))
  }

  lemma HistoryGrows(batches: seq<seq<SearchResult>>, n: nat)
    requires n < |batches|
    ensures History(batches, n + 1) == History(batches, n) + [ResultBatch(batches[n])]
  {
    assert batches[..n + 1] == batches[..n] + [batches[n]];
  }

  /** Cutting keeps every result, in order, and no batch is empty. */
  lemma {:induction false} BatchesKeepResults(b: State, latency: nat -> int, k: nat, results: seq<SearchResult>)
    ensures Concat(Batches(b, latency, k, results)) == results
    ensures forall i :: 0 <= i < |Batches(b, latency, k, results)| ==> Batches(b, latency, k, results)[i] != []
    decreases |results|
  {
    hide After;
    var n := FullSize(After(b, latency, k));
    if results != [] && |results| >= n {
      BatchesKeepResults(b, latency, k + 1, results[n..]);
      assert results[..n] + results[n..] == results;
      assert Batches(b, latency, k, results)[1..] == Batches(b, latency, k + 1, results[n..]);
    } else if results != [] {
      assert Batches(b, latency, k, results)[1..] == [];
    }
  }

  /** Every batch but the last has exactly the size current at its delivery; the
      last is smaller only if it is what was left over. */
  lemma {:induction false} BatchSizesAreExact(b: State, latency: nat -> int, k: nat, results: seq<SearchResult>)
    ensures var batches := Batches(b, latency, k, results);
      && (forall i :: 0 <= i < |batches| - 1 ==> |batches[i]| == FullSize(After(b, latency, k + i)))
      && (batches != [] ==> |batches[|batches| - 1]| <= FullSize(After(b, latency, k + |batches| - 1)))
    decreases |results|
  {
    hide After, FullSize;
    var n := FullSize(After(b, latency, k));
    FullSizeIsPositive(After(b, latency, k));
    var batches := Batches(b, latency, k, results);
    if results != [] && |results| >= n {
      BatchSizesAreExact(b, latency, k + 1, results[n..]);
      var rest := Batches(b, latency, k + 1, results[n..]);
      assert batches == [results[..n]] + rest;
      forall i | 0 <= i < |batches| - 1 ensures |batches[i]| == FullSize(After(b, latency, k + i)) {
        if i > 0 { assert batches[i] == rest[i - 1] && k + i == k + 1 + (i - 1); }
      }
      if rest != [] { assert k + |batches| - 1 == k + 1 + |rest| - 1; }
    }
  }

  lemma FullSizeIsPositive(b: State)
    ensures FullSize(b) > 0
  {}

  /** With a maximum below half the 64-bit range, batch sizes stay between the
      normalized bounds for every run of latencies. */
  lemma BatchSizesStayInRange(o: Options, latency: nat -> int, results: seq<SearchResult>, i: nat)
    requires o.adaptive ==> Max(o.maximum, o.minimum) < HALF
    requires i < |Batches(Start(o), latency, 0, results)|
    ensures var batches := Batches(Start(o), latency, 0, results);
      && 1 <= |batches[i]| <= Start(o).maximum
      && (i < |batches| - 1 ==> |batches[i]| == After(Start(o), latency, i).size >= Start(o).minimum)
  {
    hide After, Batches;
    BatchSizesAreExact(Start(o), latency, 0, results);
    BatchesKeepResults(Start(o), latency, 0, results);
    StartKeepsRange(o, latency, 0);
    StartKeepsRange(o, latency, i);
    RunKeepsRange(Start(o), latency, i) by { StartInRange(o); }
  }

  lemma StartInRange(o: Options)
    requires o.adaptive ==> Max(o.maximum, o.minimum) < HALF
    ensures Start(o).InRange() && (Start(o).adaptive ==> Start(o).maximum < HALF)
  {}

  // ---- One run of the stream --------------------------------------------------------------

  /** What a run is given. */
  datatype Plan = Plan(results: seq<SearchResult>, start: State, latency: nat -> int, sink: EventSink) {
    function All(): seq<seq<SearchResult>> { Batches(start, latency, 0, results) }

    function Full(k: nat): nat { FullSize(After(start, latency, k)) }
  }

  /** `count` batches were delivered and accepted, and `pending` waits for more. */
  ghost predicate Streaming(p: Plan, count: nat, events: seq<Event>, pending: seq<SearchResult>, streamed: nat) {
    && count <= |p.All()| && streamed <= |p.results| && events == History(p.All(), count)
    && (forall k :: 0 < k <= count ==> p.sink(History(p.All(), k)))
    && |pending| < p.Full(count)
    && p.All()[count..] == Batches(p.start, p.latency, count, pending + p.results[streamed..])
    && Concat(p.All()[..count]) + pending == p.results[..streamed]
  }

  /** The batches are over: all offered and accepted, or the last one refused. */
  ghost predicate Ended(p: Plan, offered: nat, events: seq<Event>, streamed: nat, refused: bool) {
    && streamed <= |p.results| && OfferedBatches(p.All(), p.sink, offered)
    && events == History(p.All(), offered)
    && Concat(p.All()[..offered]) == p.results[..streamed]
    && refused == (offered > 0 && !p.sink(events))
  }

  lemma StreamingStarts(p: Plan)
    ensures Streaming(p, 0, [Started], [], 0)
  {
    assert p.results[0..] == p.results && [] + p.results == p.results;
    assert p.All()[0..] == p.All() && p.All()[..0] == [];
  }

  /** One more result fits the pending batch. */
  lemma OneMorePending(p: Plan, count: nat, events: seq<Event>, pending: seq<SearchResult>, streamed: nat)
    requires Streaming(p, count, events, pending, streamed) && streamed < |p.results|
    requires |pending| + 1 < p.Full(count)
    ensures Streaming(p, count, events, pending + [p.results[streamed]], streamed + 1)
  {
    hide Batches, After, FullSize, Concat, History;
    SameResults(p.results, Concat(p.All()[..count]), pending, streamed);
  }

  lemma SameResults(results: seq<SearchResult>, done: seq<SearchResult>, pending: seq<SearchResult>, streamed: nat)
    requires streamed < |results| && done + pending == results[..streamed]
    ensures pending + results[streamed..] == pending + [results[streamed]] + results[streamed + 1..]
    ensures done + (pending + [results[streamed]]) == results[..streamed + 1]
  {
    assert results[..streamed + 1] == results[..streamed] + [results[streamed]];
    assert results[streamed..] == [results[streamed]] + results[streamed + 1..];
  }

  lemma {:induction false} ConcatAppend(batches: seq<seq<SearchResult>>, last: seq<SearchResult>)
    ensures Concat(batches + [last]) == Concat(batches) + last
  {
    if batches == [] {
      assert [last][1..] == [];
    } else {
      ConcatAppend(batches[1..], last);
      assert (batches + [last])[1..] == batches[1..] + [last];
    }
  }

  /** The next batch in line is delivered: either all is well or the stream ends. */
  lemma Delivered(p: Plan, count: nat, events: seq<Event>, pending: seq<SearchResult>, batch: seq<SearchResult>,
      streamed: nat, next: nat)
    requires Streaming(p, count, events, pending, streamed) && next <= |p.results|
    requires count < |p.All()| && p.All()[count] == batch && Concat(p.All()[..count]) + batch == p.results[..next]
    ensures var more := events + [ResultBatch(batch)];
      && more == History(p.All(), count + 1) && Concat(p.All()[..count + 1]) == p.results[..next]
      && (!p.sink(more) ==> Ended(p, count + 1, more, next, true))
      && (p.sink(more) ==> forall k :: 0 < k <= count + 1 ==> p.sink(History(p.All(), k)))
  {
    hide Batches, After, FullSize, Concat;
    HistoryGrows(p.All(), count);
    hide History;
    assert p.All()[..count + 1] == p.All()[..count] + [batch];
    ConcatAppend(p.All()[..count], batch);
  }

  lemma FullBatch(p: Plan, count: nat, events: seq<Event>, pending: seq<SearchResult>, streamed: nat)
    requires Streaming(p, count, events, pending, streamed) && streamed < |p.results|
    requires |pending| + 1 == p.Full(count)
    ensures var more := events + [ResultBatch(pending + [p.results[streamed]])];
      if p.sink(more) then Streaming(p, count + 1, more, [], streamed + 1)
      else Ended(p, count + 1, more, streamed + 1, true)
  {
    hide After, FullSize, Concat, History;
    var batch, rest := pending + [p.results[streamed]], p.results[streamed + 1..];
    SameResults(p.results, Concat(p.All()[..count]), pending, streamed);
    CutFull(p, count, batch, rest);
    TailStarts(p.All(), count, batch, Batches(p.start, p.latency, count + 1, rest));
    Delivered(p, count, events, pending, batch, streamed, streamed + 1);
    FullSizeIsPositive(After(p.start, p.latency, count + 1));
    assert [] + rest == rest;
    assert Concat(p.All()[..count + 1]) + [] == Concat(p.All()[..count + 1]);
  }

  lemma CutFull(p: Plan, count: nat, batch: seq<SearchResult>, rest: seq<SearchResult>)
    requires |batch| == p.Full(count)
    ensures Batches(p.start, p.latency, count, batch + rest) == [batch] + Batches(p.start, p.latency, count + 1, rest)
  {
    hide After, FullSize;
    FullSizeIsPositive(After(p.start, p.latency, count));
    assert (batch + rest)[..|batch|] == batch && (batch + rest)[|batch|..] == rest;
  }

  lemma TailStarts<T>(all: seq<T>, count: nat, first: T, rest: seq<T>)
    requires count <= |all| && all[count..] == [first] + rest
    ensures count < |all| && all[count] == first && all[count + 1..] == rest
  {
    assert all[count..][0] == first && all[count..][1..] == all[count + 1..];
  }

  lemma FinalFlush(p: Plan, count: nat, events: seq<Event>, pending: seq<SearchResult>)
    requires Streaming(p, count, events, pending, |p.results|)
    ensures pending == [] ==> Ended(p, count, events, |p.results|, false)
    ensures pending != [] ==>
      var more := events + [ResultBatch(pending)]; Ended(p, count + 1, more, |p.results|, !p.sink(more))
  {
    hide After, FullSize, Concat, History;
    var none := p.results[|p.results|..];
    assert none == [] && pending + none == pending;
    if pending == [] {
      assert p.All()[count..] == [];
      assert Concat(p.All()[..count]) + pending == Concat(p.All()[..count]);
    } else {
      TailStarts(p.All(), count, pending, []);
      Delivered(p, count, events, pending, pending, |p.results|, |p.results|);
    }
  }

  /** Batches one delivery to the sink and lets the batcher see how long it took. */
  method EmitBatch(batcher: AdaptiveResultBatcher, events: seq<Event>, pending: seq<SearchResult>, sink: EventSink,
      elapsed: int)
    returns (more: seq<Event>, delivered: bool)
    modifies batcher
    ensures pending == [] ==> more == events && delivered && batcher.Value() == old(batcher.Value())
    ensures pending != [] ==> more == events + [ResultBatch(pending)] && delivered == sink(more)
    ensures pending != [] ==> batcher.Value() == Recorded(old(batcher.Value()), elapsed)
  {
    if pending == [] {
      return events, true;
    }
    more := events + [ResultBatch(pending)];
    delivered := sink(more);
    batcher.RecordDeliveryLatency(elapsed);
  }

  /** The results are batched as the engine streams them, then the rest is flushed. */
  method StreamBatches(results: seq<SearchResult>, o: Options, sink: EventSink, latency: nat -> int)
    returns (events: seq<Event>, streamed: nat, aborted: bool, ghost offered: nat)
    ensures Ended(Plan(results, Start(o), latency, sink), offered, events, streamed, aborted)
    ensures !aborted ==> streamed == |results|
  {
    hide After, Recorded, Start, FullSize, Streaming, Ended, Plan.Full;
    ghost var p := Plan(results, Start(o), latency, sink);
    var batcher := new AdaptiveResultBatcher(o);
    var pending: seq<SearchResult>, count: nat := [], 0;
    events, streamed := [Started], 0;
    StreamingStarts(p);
    AfterNone(p);
    while streamed < |results|
      invariant streamed <= |results| && Streaming(p, count, events, pending, streamed)
      invariant batcher.Value() == After(p.start, latency, count) && fresh(batcher)
    {
      var batch := pending + [results[streamed]];
      PendingFits(p, count, events, pending, streamed);
      IsFull(p, count, |batch|);
      if |batch| < batcher.batchSize {
        OneMorePending(p, count, events, pending, streamed);
        pending, streamed := batch, streamed + 1;
      } else {
        FullBatch(p, count, events, pending, streamed);
        AfterOneMore(p, count);
        var delivered;
        events, delivered := EmitBatch(batcher, events, batch, sink, latency(count));
        pending, count, streamed := [], count + 1, streamed + 1;
        if !delivered {
          return events, streamed, true, count;
        }
      }
    }
    FinalFlush(p, count, events, pending);
    offered := if pending == [] then count else count + 1;
    var delivered;
    events, delivered := EmitBatch(batcher, events, pending, sink, latency(count));
    aborted := !delivered;
  }

  lemma AfterNone(p: Plan)
    ensures After(p.start, p.latency, 0) == p.start
  {}

  lemma AfterOneMore(p: Plan, count: nat)
    ensures After(p.start, p.latency, count + 1) == Recorded(After(p.start, p.latency, count), p.latency(count))
  {}

  lemma PendingFits(p: Plan, count: nat, events: seq<Event>, pending: seq<SearchResult>, streamed: nat)
    requires Streaming(p, count, events, pending, streamed)
    ensures |pending| < p.Full(count)
  {}

  /** The program's comparison with the current size. */
  lemma IsFull(p: Plan, count: nat, size: nat)
    requires 0 < size <= p.Full(count)
    ensures size < After(p.start, p.latency, count).size <==> size < p.Full(count)
  {
    hide After;
  }

  /** The whole stream.  A refused start is followed by nothing.  Otherwise the
      batches come in order up to the first refusal, then exactly one terminal
      event; `streamed` results were handed over, and they are those in the batches. */
  method SearchWithEvents(results: seq<SearchResult>, o: Options, sink: EventSink, latency: nat -> int,
      engine: nat -> Summary)
    returns (events: seq<Event>, summary: Summary, streamed: nat, ghost offered: nat)
    ensures !sink([Started]) ==> events == [Started] && summary.cancelled && streamed == 0
    ensures sink([Started]) ==>
      var all := Batches(Start(o), latency, 0, results);
      && OfferedBatches(all, sink, offered) && streamed <= |results|
      && Concat(all[..offered]) == results[..streamed]
      && (var refused := offered > 0 && !sink(History(all, offered));
          var ended := engine(streamed).(cancelled := engine(streamed).cancelled || refused);
          && (!refused ==> offered == |all| && streamed == |results|)
          && events == History(all, offered) + [CompletionKind(ended)]
          && (events[|events| - 1] == Cancelled <==> ended.cancelled)
          && (events[|events| - 1] == Failed <==> !ended.cancelled && ended.hasErrors && !ended.partialFailure)
          && (events[|events| - 1] == Completed <==> !ended.cancelled && (ended.hasErrors ==> ended.partialFailure))
          && summary == ended.(cancelled := ended.cancelled || !sink(events)))
  {
    hide Start, Batches, History, Concat;
    events, streamed, offered := [Started], 0, 0;
    summary := Summary(true, false, false);
    if !sink(events) {
      return;
    }
    var aborted;
    events, streamed, aborted, offered := StreamBatches(results, o, sink, latency);
    summary := engine(streamed);
    if aborted {
      summary := summary.(cancelled := true);
    }
    events := events + [CompletionKind(summary)];
    if !sink(events) {
      summary := summary.(cancelled := true);
    }
  }
}
