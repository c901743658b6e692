// The single-threaded programs that replay a message stream into a book: one by one into
// either book, side by side for comparison, and in timed batches.
module Replay {
  import opened Market
  import opened Ledger
  import opened LedgerLaws
  import opened Levels
  import opened OrderBooks
  import opened PooledLedger
  import opened PooledOrderBooks
  import opened BookTheorems
  import opened Metrics

  lemma PrefixSteps(capacity: nat, msgs: seq<MarketMessage>, i: nat)
    requires i < |msgs|
    ensures Run([], msgs[..i + 1]) == Apply(Run([], msgs[..i]), msgs[i])
    ensures RunPooled(capacity, msgs[..i + 1]) == ApplyPooled(RunPooled(capacity, msgs[..i]), capacity, msgs[i])
    ensures Exhaustions(capacity, msgs[..i + 1]) == Exhaustions(capacity, msgs[..i])
         + if Drops(RunPooled(capacity, msgs[..i]), capacity, msgs[i]) then 1 else 0
    ensures SafeRun([], msgs[..i + 1]) <==> SafeRun([], msgs[..i]) && Safe(Run([], msgs[..i]), msgs[i])
  {
    assert msgs[..i + 1][..i] == msgs[..i];
  }

  lemma {:induction false} SafePrefix(msgs: seq<MarketMessage>, i: nat)
    requires SafeRun([], msgs) && i <= |msgs|
    ensures SafeRun([], msgs[..i])
    decreases |msgs| - i
  {
    if i == |msgs| {
      assert msgs[..i] == msgs;
    } else {
      SafePrefix(msgs, i + 1);
      PrefixSteps(0, msgs, i);
    }
  }

  lemma SafeStep(msgs: seq<MarketMessage>, i: nat)
    requires SafeRun([], msgs) && i < |msgs|
    ensures Safe(Upto(msgs, i), msgs[i]) && Upto(msgs, i + 1) == Apply(Upto(msgs, i), msgs[i])
  {
    SafePrefix(msgs, i + 1);
    PrefixSteps(0, msgs, i);
  }

  // The exact level sums of the pooled book's live orders stay below 2^31 all along.
  ghost predicate GuardedPooled(capacity: nat, msgs: seq<MarketMessage>) {
    msgs == [] || (GuardedPooled(capacity, msgs[..|msgs| - 1]) && Guarded(RunPooled(capacity, msgs)))
  }

  lemma EmptyIsGuarded()
    ensures Guarded([])
  {}

  lemma {:induction false} GuardMakesKeptSafe(capacity: nat, msgs: seq<MarketMessage>)
    requires GuardedPooled(capacity, msgs)
    ensures SafeRun([], Kept(capacity, msgs)) && Guarded(RunPooled(capacity, msgs))
  {
    if msgs == [] {
      EmptyIsGuarded();
    } else {
      var init, last := msgs[..|msgs| - 1], msgs[|msgs| - 1];
      GuardMakesKeptSafe(capacity, init);
      PooledIsBaselineOnKept(capacity, init);
      if Drops(RunPooled(capacity, init), capacity, last) {
        assert Kept(capacity, msgs) == Kept(capacity, init);
      } else {
        var kept := Kept(capacity, init);
        RunDistinct([], kept);
        GuardMakesModifySafe(Run([], kept), last);
        PrefixSteps(capacity, kept + [last], |kept|);
        assert (kept + [last])[..|kept|] == kept && (kept + [last])[..|kept| + 1] == kept + [last];
      }
    }
  }

  // No Modify of the stream makes the pooled book cut a negative total off at zero.
  ghost predicate ClampFree(capacity: nat, msgs: seq<MarketMessage>) {
    msgs == [] ||
    (ClampFree(capacity, msgs[..|msgs| - 1]) && !ClampBites(RunPooled(capacity, msgs[..|msgs| - 1]), msgs[|msgs| - 1]))
  }

  lemma ClampFreeStep(capacity: nat, msgs: seq<MarketMessage>, i: nat)
    requires i < |msgs|
    ensures ClampFree(capacity, msgs[..i + 1]) <==>
      ClampFree(capacity, msgs[..i]) && !ClampBites(RunPooled(capacity, msgs[..i]), msgs[i])
  {
    assert msgs[..i + 1][..i] == msgs[..i];
  }

  // Exact level sums below 2^31 all along are enough for that.
  lemma {:induction false} GuardMakesClampFree(capacity: nat, msgs: seq<MarketMessage>)
    requires GuardedPooled(capacity, msgs)
    ensures ClampFree(capacity, msgs)
  {
    if msgs != [] {
      var init := msgs[..|msgs| - 1];
      GuardMakesClampFree(capacity, init);
      GuardMakesKeptSafe(capacity, init);
      ExactSumsNeverClamp(RunPooled(capacity, init), msgs[|msgs| - 1]);
    }
  }

  method ReplayBaseline(msgs: seq<MarketMessage>) returns (book: OrderBook)
    requires SafeRun([], msgs)
    ensures fresh(book) && book.Valid() && book.live == Run([], msgs)
  {
    book := new OrderBook();
    for i := 0 to |msgs|
      invariant fresh(book) && book.Valid() && book.live == Upto(msgs, i)
    {
      SafeStep(msgs, i);
      book.OnMessage(msgs[i]);
    }
    assert msgs[..|msgs|] == msgs;
  }

  // The level maps of a book after each message, from before the first to after the last.
  type History = seq<(SideMap, SideMap)>

  ghost predicate ExactNow(levels: (SideMap, SideMap), capacity: nat, msgs: seq<MarketMessage>, i: nat)
    requires i <= |msgs|
  {
    Exact(levels.0, levels.1, RunPooled(capacity, msgs[..i]))
  }

  ghost predicate ExactUpTo(history: History, capacity: nat, msgs: seq<MarketMessage>, n: nat)
    requires n < |history| && n <= |msgs|
  {
    forall i :: 0 <= i <= n ==> ExactNow(history[i], capacity, msgs, i)
  }

  // The level maps after a message represent the next live orders, and their totals moved as the book moves them.
  ghost predicate Link(before: (SideMap, SideMap), after: (SideMap, SideMap), l: Orders, l': Orders, m: MarketMessage) {
    && Shape(after.0, l', Buy) && Shape(after.1, l', Sell)
    && Moved(before.0, after.0, before.1, after.1, l, l', m.kind.Modify?)
  }

  ghost predicate Linked(history: History, capacity: nat, msgs: seq<MarketMessage>, i: nat)
    requires i + 1 < |history| && i < |msgs|
  {
    Link(history[i], history[i + 1], RunPooled(capacity, msgs[..i]), RunPooled(capacity, msgs[..i + 1]), msgs[i])
  }

  // The history of a pooled book over the first n messages.
  ghost predicate Traced(history: History, capacity: nat, msgs: seq<MarketMessage>, n: nat)
    requires n < |history| && n <= |msgs|
  {
    history[0] == (map[], map[]) && forall i :: 0 <= i < n ==> Linked(history, capacity, msgs, i)
  }

  lemma ExactLink(before: (SideMap, SideMap), after: (SideMap, SideMap), l: Orders, l': Orders, capacity: nat,
                  m: MarketMessage)
    requires Distinct(l) && l' == ApplyPooled(l, capacity, m) && Link(before, after, l, l', m)
    requires Shape(before.0, l, Buy) && Shape(before.1, l, Sell) && Exact(before.0, before.1, l)
    ensures Exact(after.0, after.1, l') <==> !ClampBites(l, m)
  {
    if m.kind.Modify? {
      NothingToDrop(l, capacity, m);
      ClampBreaksTotals(before.0, after.0, before.1, after.1, l, m);
    } else {
      StayExact(before.0, after.0, before.1, after.1, l, l');
    }
  }

  lemma ShapeAt(history: History, capacity: nat, msgs: seq<MarketMessage>, n: nat)
    requires n < |history| && n <= |msgs| && Traced(history, capacity, msgs, n)
    ensures Shape(history[n].0, RunPooled(capacity, msgs[..n]), Buy)
    ensures Shape(history[n].1, RunPooled(capacity, msgs[..n]), Sell)
  {
    if n > 0 {
      assert Linked(history, capacity, msgs, n - 1);
    }
  }

  // The cached totals are exact after every message if and only if no Modify was cut off.
  lemma {:induction false} ExactIffClampFree(history: History, capacity: nat, msgs: seq<MarketMessage>, n: nat)
    requires n < |history| && n <= |msgs| && Traced(history, capacity, msgs, n)
    ensures ExactUpTo(history, capacity, msgs, n) <==> ClampFree(capacity, msgs[..n])
  {
    if n == 0 {
      assert ExactNow(history[0], capacity, msgs, 0);
      return;
    }
    var l := RunPooled(capacity, msgs[..n - 1]);
    ExactIffClampFree(history, capacity, msgs, n - 1);
    ClampFreeStep(capacity, msgs, n - 1);
    assert ExactUpTo(history, capacity, msgs, n) <==>
      ExactUpTo(history, capacity, msgs, n - 1) && ExactNow(history[n], capacity, msgs, n);
    assert ExactUpTo(history, capacity, msgs, n - 1) ==> ExactNow(history[n - 1], capacity, msgs, n - 1);
    if ExactNow(history[n - 1], capacity, msgs, n - 1) {
      PooledIsBaselineOnKept(capacity, msgs[..n - 1]);
      RunDistinct([], Kept(capacity, msgs[..n - 1]));
      ShapeAt(history, capacity, msgs, n - 1);
      PrefixSteps(capacity, msgs, n - 1);
      assert Linked(history, capacity, msgs, n - 1);
      ExactLink(history[n - 1], history[n], l, RunPooled(capacity, msgs[..n]), capacity, msgs[n - 1]);
    }
  }

  lemma TracedOneMore(history: History, capacity: nat, msgs: seq<MarketMessage>, n: nat, next: (SideMap, SideMap))
    requires |history| == n + 1 <= |msgs| && Traced(history, capacity, msgs, n)
    requires Link(history[n], next, RunPooled(capacity, msgs[..n]), RunPooled(capacity, msgs[..n + 1]), msgs[n])
    ensures Traced(history + [next], capacity, msgs, n + 1)
  {
    var longer := history + [next];
    forall i | 0 <= i < n + 1 ensures Linked(longer, capacity, msgs, i) {
      assert longer[i] == history[i] && longer[n + 1] == next;
      assert i < n ==> longer[i + 1] == history[i + 1] && Linked(history, capacity, msgs, i);
    }
  }

  method ReplayPooled(msgs: seq<MarketMessage>, capacity: nat) returns (book: PooledOrderBook, ghost history: History)
    ensures fresh(book) && book.Valid() && book.pool.capacity == capacity
    ensures book.live == RunPooled(capacity, msgs) && book.poolExhaustions == Exhaustions(capacity, msgs)
    ensures book.pool.allocations - book.pool.deallocations == |book.live|
    ensures |history| == |msgs| + 1 && history[|msgs|] == (book.bids, book.asks)
    ensures Traced(history, capacity, msgs, |msgs|)
    ensures ClampFree(capacity, msgs) ==> book.Totals()
  {
    book := new PooledOrderBook(capacity);
    history := [(book.bids, book.asks)];
    for i := 0 to |msgs|
      invariant fresh(book) && fresh(book.pool) && fresh(book.pool.storage) && fresh(book.pool.inUse)
      invariant book.Valid() && book.pool.capacity == capacity
      invariant book.live == RunPooled(capacity, msgs[..i])
      invariant book.poolExhaustions == Exhaustions(capacity, msgs[..i])
      invariant |history| == i + 1 && history[i] == (book.bids, book.asks) && Traced(history, capacity, msgs, i)
    {
      PrefixSteps(capacity, msgs, i);
      book.OnMessage(msgs[i]);
      TracedOneMore(history, capacity, msgs, i, (book.bids, book.asks));
      history := history + [(book.bids, book.asks)];
    }
    assert msgs[..|msgs|] == msgs;
    ExactIffClampFree(history, capacity, msgs, |msgs|);
    assert ClampFree(capacity, msgs) ==> ExactNow(history[|msgs|], capacity, msgs, |msgs|);
  }

  // The pooled book ends with exactly the containers of a baseline book that is fed the same stream
  // minus the dropped Adds, as long as the one never cuts a total off and the other never overflows.
  method CompareBooks(msgs: seq<MarketMessage>, capacity: nat) returns (baseline: OrderBook, pooled: PooledOrderBook)
    requires ClampFree(capacity, msgs) && SafeRun([], Kept(capacity, msgs))
    ensures baseline.Valid() && pooled.Valid()
    ensures baseline.live == pooled.live == Run([], Kept(capacity, msgs))
    ensures baseline.bids == pooled.bids && baseline.asks == pooled.asks
    ensures baseline.orderMap == Deref(pooled.orderMap, pooled.pool.inUse[..], pooled.pool.storage[..])
    ensures pooled.poolExhaustions == |msgs| - |Kept(capacity, msgs)|
  {
    PooledIsBaselineOnKept(capacity, msgs);
    baseline := ReplayBaseline(Kept(capacity, msgs));
    ghost var history;
    pooled, history := ReplayPooled(msgs, capacity);
    BooksAreEqual(baseline.orderMap, baseline.bids, baseline.asks, pooled.orders, pooled.bids, pooled.asks,
                  pooled.live);
  }

  // ---- Batches ----

  function Repeat(x: nat, k: nat): seq<nat> {
    seq(k, _ => x)
  }

  // The amortized time of one message in a batch of k that took d.
  function Share(d: nat, k: nat): nat {
    d / (if k > 1 then k else 1)
  }

  function BatchEnd(n: nat, start: nat, batchSize: nat): nat {
    if start + batchSize < n then start + batchSize else n
  }

  // The samples of all batches from `start` on: batch b of k messages took durations(b) and records
  // the k-th part of it, rounded down, k times.
  function Amortized(n: nat, start: nat, batchSize: nat, durations: nat -> nat, b: nat): seq<nat>
    requires batchSize > 0
    decreases n - start
  {
    if start >= n then [] else
      var end := BatchEnd(n, start, batchSize);
      Repeat(Share(durations(b), end - start), end - start) + Amortized(n, end, batchSize, durations, b + 1)
  }

  function Sum(xs: seq<nat>): nat {
    if xs == [] then 0 else xs[0] + Sum(xs[1..])
  }

  function TotalTime(n: nat, start: nat, batchSize: nat, durations: nat -> nat, b: nat): nat
    requires batchSize > 0
    decreases n - start
  {
    if start >= n then 0 else
      durations(b) + TotalTime(n, BatchEnd(n, start, batchSize), batchSize, durations, b + 1)
  }

  lemma {:induction false} SumConcat(xs: seq<nat>, ys: seq<nat>)
    ensures Sum(xs + ys) == Sum(xs) + Sum(ys)
  {
    if xs == [] {
      assert xs + ys == ys;
    } else {
      assert (xs + ys)[1..] == xs[1..] + ys;
      SumConcat(xs[1..], ys);
    }
  }

  lemma {:induction false} SumRepeat(x: nat, k: nat)
    ensures Sum(Repeat(x, k)) == x * k
  {
    if k > 0 {
      assert Repeat(x, k)[1..] == Repeat(x, k - 1);
      SumRepeat(x, k - 1);
    }
  }

  // A batch of k messages that took d records samples that sum to more than d - k and at most d.
  lemma BatchShare(d: nat, k: nat)
    requires k > 0
    ensures d < Sum(Repeat(Share(d, k), k)) + k && Sum(Repeat(Share(d, k), k)) <= d
  {
    SumRepeat(d / k, k);
    assert d == k * (d / k) + d % k;
  }

  // So over a whole run there is one sample per message, and the samples miss less than one
  // nanosecond per message of the measured time.
  lemma {:induction false} AmortizedSum(n: nat, start: nat, batchSize: nat, durations: nat -> nat, b: nat)
    requires batchSize > 0 && start < n
    ensures |Amortized(n, start, batchSize, durations, b)| == n - start
    ensures Sum(Amortized(n, start, batchSize, durations, b)) <= TotalTime(n, start, batchSize, durations, b)
         < Sum(Amortized(n, start, batchSize, durations, b)) + (n - start)
    decreases n - start
  {
    var end := BatchEnd(n, start, batchSize);
    var k := end - start;
    var first, rest := Repeat(Share(durations(b), k), k), Amortized(n, end, batchSize, durations, b + 1);
    BatchShare(durations(b), k);
    SumConcat(first, rest);
    if end < n {
      AmortizedSum(n, end, batchSize, durations, b + 1);
    }
  }

  // The c-th batch starts after c batches.
  function StartOf(batchSize: nat, c: nat): nat {
    if c == 0 then 0 else StartOf(batchSize, c - 1) + batchSize
  }

  function SizeOf(n: nat, start: nat, batchSize: nat): nat
    requires start <= n
  {
    if batchSize < n - start then batchSize else n - start
  }

  lemma FirstBatch(n: nat, start: nat, batchSize: nat, durations: nat -> nat, b: nat)
    requires batchSize > 0 && start < n
    ensures var k := SizeOf(n, start, batchSize);
      && BatchEnd(n, start, batchSize) == start + k
      && Amortized(n, start, batchSize, durations, b)
         == Repeat(durations(b) / k, k) + Amortized(n, start + k, batchSize, durations, b + 1)
  {}

  lemma {:induction false} AmortizedLength(n: nat, start: nat, batchSize: nat, durations: nat -> nat, b: nat)
    requires batchSize > 0 && start <= n
    ensures |Amortized(n, start, batchSize, durations, b)| == n - start
    decreases n - start
  {
    if start < n {
      FirstBatch(n, start, batchSize, durations, b);
      AmortizedLength(n, start + SizeOf(n, start, batchSize), batchSize, durations, b + 1);
    }
  }

  // Every sample of batch c is the batch's time, divided by the number of messages in it.
  lemma {:induction false} SampleIs(n: nat, start: nat, batchSize: nat, durations: nat -> nat, b: nat, c: nat, s: nat,
                                    i: nat)
    requires batchSize > 0 && b <= c && start == StartOf(batchSize, b) && s == StartOf(batchSize, c)
    requires start < n && start <= s <= i < s + batchSize && i < n
    ensures |Amortized(n, start, batchSize, durations, b)| == n - start
    ensures Amortized(n, start, batchSize, durations, b)[i - start] == durations(c) / SizeOf(n, s, batchSize)
    decreases c - b
  {
    AmortizedLength(n, start, batchSize, durations, b);
    FirstBatch(n, start, batchSize, durations, b);
    if b < c {
      StartsAscend(batchSize, b + 1, c);
      SampleIs(n, start + batchSize, batchSize, durations, b + 1, c, s, i);
    }
  }

  lemma {:induction false} StartsAscend(batchSize: nat, b: nat, c: nat)
    requires b <= c
    ensures StartOf(batchSize, b) <= StartOf(batchSize, c)
  {
    if b < c {
      StartsAscend(batchSize, b, c - 1);
    }
  }

  lemma {:induction false} StartIsProduct(batchSize: nat, c: nat)
    ensures StartOf(batchSize, c) == c * batchSize
  {
    if c > 0 {
      StartIsProduct(batchSize, c - 1);
      assert c * batchSize == (c - 1) * batchSize + batchSize;
    }
  }

  // In plain arithmetic, for all messages.
  ghost predicate SamplesAre(samples: seq<nat>, n: nat, batchSize: nat, durations: nat -> nat)
    requires batchSize > 0
  {
    && |samples| == n
    && forall i :: 0 <= i < n ==> SampleOf(samples[i], n, batchSize, durations, i)
  }

  ghost predicate SampleOf(x: nat, n: nat, batchSize: nat, durations: nat -> nat, i: nat)
    requires batchSize > 0
  {
    var c := i / batchSize;
    var left := n - c * batchSize;
    left > 0 && x == durations(c) / (if batchSize < left then batchSize else left)
  }

  lemma BatchBounds(batchSize: nat, i: nat, c: nat)
    requires batchSize > 0 && c == i / batchSize
    ensures StartOf(batchSize, c) == c * batchSize && StartOf(batchSize, c) <= i < StartOf(batchSize, c) + batchSize
  {
    StartIsProduct(batchSize, c);
    assert i == batchSize * c + i % batchSize;
    assert batchSize * c == c * batchSize;
  }

  lemma SampleFrom(x: nat, n: nat, batchSize: nat, durations: nat -> nat, i: nat, c: nat, s: nat)
    requires batchSize > 0 && c == i / batchSize && s == c * batchSize && s <= i < n
    requires x == durations(c) / SizeOf(n, s, batchSize)
    ensures SampleOf(x, n, batchSize, durations, i)
  {}

  lemma OneSample(n: nat, batchSize: nat, durations: nat -> nat, i: nat, c: nat, s: nat)
    requires batchSize > 0 && i < n && c == i / batchSize && s == StartOf(batchSize, c)
    ensures |Amortized(n, 0, batchSize, durations, 0)| == n
    ensures SampleOf(Amortized(n, 0, batchSize, durations, 0)[i], n, batchSize, durations, i)
  {
    BatchBounds(batchSize, i, c);
    SampleIs(n, 0, batchSize, durations, 0, c, s, i);
    SampleFrom(Amortized(n, 0, batchSize, durations, 0)[i], n, batchSize, durations, i, c, s);
  }

  lemma AllSamples(n: nat, batchSize: nat, durations: nat -> nat)
    requires batchSize > 0
    ensures SamplesAre(Amortized(n, 0, batchSize, durations, 0), n, batchSize, durations)
  {
    AmortizedLength(n, 0, batchSize, durations, 0);
    forall i | 0 <= i < n ensures SampleOf(Amortized(n, 0, batchSize, durations, 0)[i], n, batchSize, durations, i) {
      OneSample(n, batchSize, durations, i, i / batchSize, StartOf(batchSize, i / batchSize));
    }
  }

  lemma NothingRecorded(n: nat, batchSize: nat, durations: nat -> nat)
    requires batchSize > 0
    ensures Recorded([], n, 0, batchSize, durations, 0)
  {}

  lemma AllRecorded(samples: seq<nat>, n: nat, batchSize: nat, durations: nat -> nat, b: nat)
    requires batchSize > 0 && Recorded(samples, n, n, batchSize, durations, b)
    ensures samples == Amortized(n, 0, batchSize, durations, 0)
  {
    assert samples + [] == samples;
  }

  method ApplyBatch(book: OrderBook, msgs: seq<MarketMessage>, batchStart: nat, batchEnd: nat)
    requires SafeRun([], msgs) && batchStart <= batchEnd <= |msgs|
    requires book.Valid() && book.live == Upto(msgs, batchStart)
    modifies book
    ensures book.Valid() && book.live == Upto(msgs, batchEnd)
  {
    for i := batchStart to batchEnd
      invariant book.Valid() && book.live == Upto(msgs, i)
    {
      SafeStep(msgs, i);
      book.OnMessage(msgs[i]);
    }
  }

  // The samples so far and those still to come make up the whole.
  ghost predicate Recorded(samples: seq<nat>, n: nat, start: nat, batchSize: nat, durations: nat -> nat, b: nat)
    requires batchSize > 0
  {
    samples + Amortized(n, start, batchSize, durations, b) == Amortized(n, 0, batchSize, durations, 0)
  }

  lemma NextBatch(before: seq<nat>, after: seq<nat>, n: nat, start: nat, batchSize: nat, durations: nat -> nat, b: nat)
    requires batchSize > 0 && start < n && Recorded(before, n, start, batchSize, durations, b)
    requires var k := BatchEnd(n, start, batchSize) - start; after == before + Repeat(Share(durations(b), k), k)
    ensures Recorded(after, n, BatchEnd(n, start, batchSize), batchSize, durations, b + 1)
  {}

  method RecordBatch(recorder: LatencyRecorder, amortized: nat, processed: nat)
    modifies recorder
    ensures recorder.samples == old(recorder.samples) + Repeat(amortized, processed)
  {
    for j := 0 to processed
      invariant recorder.samples == old(recorder.samples) + Repeat(amortized, j)
    {
      recorder.Record(amortized);
    }
  }

  // The body of the batch loop: d is what the clock measures around the inner loop.
  method OneBatch(book: OrderBook, recorder: LatencyRecorder, msgs: seq<MarketMessage>, batchStart: nat,
                  batchSize: nat, d: nat)
    returns (batchEnd: nat)
    requires SafeRun([], msgs) && batchStart < |msgs| && batchSize > 0
    requires book.Valid() && book.live == Upto(msgs, batchStart)
    modifies book, recorder
    ensures batchEnd == BatchEnd(|msgs|, batchStart, batchSize) && batchStart < batchEnd <= |msgs|
    ensures book.Valid() && book.live == Upto(msgs, batchEnd)
    ensures recorder.samples == old(recorder.samples) + Repeat(Share(d, batchEnd - batchStart), batchEnd - batchStart)
  {
    batchEnd := if batchStart + batchSize < |msgs| then batchStart + batchSize else |msgs|;
    ApplyBatch(book, msgs, batchStart, batchEnd);
    var processed := batchEnd - batchStart;
    var amortized := Share(d, processed);
    RecordBatch(recorder, amortized, processed);
  }

  // One round of the loop, with what is recorded so far; b counts the batches.
  method RecordedBatch(book: OrderBook, recorder: LatencyRecorder, msgs: seq<MarketMessage>, batchStart: nat,
                       batchSize: nat, durations: nat -> nat, b: nat)
    returns (batchEnd: nat)
    requires SafeRun([], msgs) && batchStart < |msgs| && batchSize > 0
    requires book.Valid() && book.live == Upto(msgs, batchStart)
    requires Recorded(recorder.samples, |msgs|, batchStart, batchSize, durations, b)
    modifies book, recorder
    ensures batchEnd == BatchEnd(|msgs|, batchStart, batchSize) && batchStart < batchEnd <= |msgs|
    ensures book.Valid() && book.live == Upto(msgs, batchEnd)
    ensures Recorded(recorder.samples, |msgs|, batchEnd, batchSize, durations, b + 1)
  {
    ghost var before := recorder.samples;
    batchEnd := OneBatch(book, recorder, msgs, batchStart, batchSize, durations(b));
    NextBatch(before, recorder.samples, |msgs|, batchStart, batchSize, durations, b);
  }

  method RunBatches(msgs: seq<MarketMessage>, batchSize: nat, durations: nat -> nat)
    returns (book: OrderBook, recorder: LatencyRecorder)
    requires SafeRun([], msgs) && batchSize > 0
    ensures book.Valid() && book.live == Run([], msgs)
    ensures recorder.samples == Amortized(|msgs|, 0, batchSize, durations, 0)
    ensures SamplesAre(recorder.samples, |msgs|, batchSize, durations)
  {
    book := new OrderBook();
    recorder := new LatencyRecorder();
    var batchStart, b := 0, 0;
    ghost var done := 0;
    NothingRecorded(|msgs|, batchSize, durations);
    while batchStart < |msgs|
      invariant fresh(book) && fresh(recorder) && book.Valid()
      invariant done == (if batchStart < |msgs| then batchStart else |msgs|) && book.live == Upto(msgs, done)
      invariant Recorded(recorder.samples, |msgs|, done, batchSize, durations, b)
      decreases |msgs| - batchStart
    {
      var batchEnd := RecordedBatch(book, recorder, msgs, batchStart, batchSize, durations, b);
      batchStart, b, done := batchStart + batchSize, b + 1, batchEnd;
    }
    UptoWhole(msgs);
    AllRecorded(recorder.samples, |msgs|, batchSize, durations, b);
    AllSamples(|msgs|, batchSize, durations);
  }
}
