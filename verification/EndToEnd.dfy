// The pipelines with the order books at their end: any of them leaves the book of a plain
// sequential replay.
module EndToEnd {
  import opened Market
  import opened Ledger
  import opened OrderBooks
  import opened PooledLedger
  import opened Generator
  import opened Feeds
  import opened PooledOrderBooks
  import opened Replay
  import Spsc
  import MutexPipeline

  datatype PooledBook = PooledBook(live: Orders, exhaustions: nat)

  function ApplyCounted(capacity: nat, b: PooledBook, m: MarketMessage): PooledBook {
    PooledBook(ApplyPooled(b.live, capacity, m), b.exhaustions + if Drops(b.live, capacity, m) then 1 else 0)
  }

  // The baseline book, which leaves the defined behaviour with the first Modify that overflows.
  datatype BaselineBook = Defined(live: Orders) | Undefined

  function ApplyBaseline(b: BaselineBook, m: MarketMessage): BaselineBook {
    if b.Defined? && Safe(b.live, m) then Defined(Apply(b.live, m)) else Undefined
  }

  // The sequential replay: the reference run, as long as every Modify is defined.
  ghost function BaselineAfter(msgs: seq<MarketMessage>): BaselineBook {
    if SafeRun([], msgs) then Defined(Run([], msgs)) else Undefined
  }

  lemma BaselineStep(msgs: seq<MarketMessage>, n: nat)
    requires n < |msgs|
    ensures BaselineAfter(msgs[..n + 1]) == ApplyBaseline(BaselineAfter(msgs[..n]), msgs[n])
  {
    assert msgs[..n + 1][..n] == msgs[..n];
  }

  function BaselineFeed(size: nat, msgs: seq<MarketMessage>): Config<BaselineBook, MarketMessage> {
    Config(size, msgs, Defined([]), (b, m) => ApplyBaseline(b, m))
  }

  function PooledFeed(size: nat, msgs: seq<MarketMessage>, capacity: nat): Config<PooledBook, MarketMessage> {
    Config(size, msgs, PooledBook([], 0), (b, m) => ApplyCounted(capacity, b, m))
  }

  lemma {:induction false} BaselineFold(size: nat, msgs: seq<MarketMessage>, n: nat)
    requires n <= |msgs|
    ensures BookAfter(BaselineFeed(size, msgs), n) == BaselineAfter(msgs[..n])
  {
    if n > 0 {
      BaselineFold(size, msgs, n - 1);
      BaselineStep(msgs, n - 1);
    }
  }

  lemma {:induction false} PooledFold(size: nat, msgs: seq<MarketMessage>, capacity: nat, n: nat)
    requires n <= |msgs|
    ensures BookAfter(PooledFeed(size, msgs, capacity), n)
         == PooledBook(RunPooled(capacity, msgs[..n]), Exhaustions(capacity, msgs[..n]))
  {
    if n > 0 {
      PooledFold(size, msgs, capacity, n - 1);
      assert msgs[..n][..n - 1] == msgs[..n - 1];
    }
  }

  // The consumer's end of a run of the ring-buffer pipeline.
  function RingEnd<B>(cfg: Config<B, MarketMessage>, blank: Spsc.Envelope<MarketMessage>, schedule: seq<Spsc.Action>)
    : Spsc.Consumer<B, MarketMessage>
    requires cfg.size > 0
  {
    Spsc.Exec(cfg, Spsc.Init(cfg, blank), schedule).c
  }

  // The ring-buffer pipeline into the baseline book, on any interleaving that has ended: the book of the
  // sequential replay, and defined exactly when that is.
  lemma SpscBaselineBook(size: nat, msgs: seq<MarketMessage>, blank: Spsc.Envelope<MarketMessage>,
                         schedule: seq<Spsc.Action>)
    requires size > 0 && RingEnd(BaselineFeed(size, msgs), blank, schedule).pc.Exited?
    ensures RingEnd(BaselineFeed(size, msgs), blank, schedule).book == BaselineAfter(msgs)
  {
    Spsc.PipelineIsFold(BaselineFeed(size, msgs), blank, schedule);
    BaselineFold(size, msgs, |msgs|);
    assert msgs[..|msgs|] == msgs;
  }

  // The ring-buffer pipeline into the pooled book: the baseline on the messages that were not
  // dropped, and a count of those that were.
  lemma SpscPooledBook(size: nat, msgs: seq<MarketMessage>, capacity: nat, blank: Spsc.Envelope<MarketMessage>,
                       schedule: seq<Spsc.Action>)
    requires size > 0 && RingEnd(PooledFeed(size, msgs, capacity), blank, schedule).pc.Exited?
    ensures var b := RingEnd(PooledFeed(size, msgs, capacity), blank, schedule).book;
      b.live == Run([], Kept(capacity, msgs)) && b.exhaustions == |msgs| - |Kept(capacity, msgs)|
  {
    Spsc.PipelineIsFold(PooledFeed(size, msgs, capacity), blank, schedule);
    PooledFold(size, msgs, capacity, |msgs|);
    assert msgs[..|msgs|] == msgs;
    PooledIsBaselineOnKept(capacity, msgs);
  }

  // The mutex-queue pipeline into the baseline book.
  lemma MutexBaselineBook(capacity: nat, msgs: seq<MarketMessage>, schedule: seq<MutexPipeline.Action>)
    requires MutexPipeline.Exec(BaselineFeed(capacity, msgs), schedule).exited
    ensures MutexPipeline.Exec(BaselineFeed(capacity, msgs), schedule).book == BaselineAfter(msgs)
  {
    MutexPipeline.MutexPipelineIsFold(BaselineFeed(capacity, msgs), schedule);
    BaselineFold(capacity, msgs, |msgs|);
    assert msgs[..|msgs|] == msgs;
  }

  // On a generated stream, with a pool of min(N, 10000) slots or more, all three pipelines end with
  // the same live orders, whatever the queue sizes and interleavings; nothing is dropped and no
  // arithmetic of either book overflows on the way.
  lemma AllPipelinesAgree(msgs: seq<MarketMessage>, ring: nat, pooledRing: nat, queue: nat, pool: nat,
                          blank: Spsc.Envelope<MarketMessage>,
                          s1: seq<Spsc.Action>, s2: seq<Spsc.Action>, s3: seq<MutexPipeline.Action>)
    requires AllInRange(msgs) && ring > 0 && pooledRing > 0 && (pool >= |msgs| || pool >= IDS)
    requires RingEnd(BaselineFeed(ring, msgs), blank, s1).pc.Exited?
    requires RingEnd(PooledFeed(pooledRing, msgs, pool), blank, s2).pc.Exited?
    requires MutexPipeline.Exec(BaselineFeed(queue, msgs), s3).exited
    ensures RingEnd(BaselineFeed(ring, msgs), blank, s1).book == Defined(Run([], msgs))
    ensures RingEnd(PooledFeed(pooledRing, msgs, pool), blank, s2).book == PooledBook(Run([], msgs), 0)
    ensures MutexPipeline.Exec(BaselineFeed(queue, msgs), s3).book == Defined(Run([], msgs))
    ensures SafeRun([], msgs)
  {
    SpscBaselineBook(ring, msgs, blank, s1);
    Spsc.PipelineIsFold(PooledFeed(pooledRing, msgs, pool), blank, s2);
    PooledFold(pooledRing, msgs, pool, |msgs|);
    assert msgs[..|msgs|] == msgs;
    PoolNeverExhausts(msgs, pool);
    MutexBaselineBook(queue, msgs, s3);
    StreamIsSafe(msgs);
  }

  // ---- The comparison program: generate, then replay into both books ----

  lemma {:induction false} GeneratedIsGuarded(msgs: seq<MarketMessage>, pool: nat)
    requires AllInRange(msgs) && (pool >= |msgs| || pool >= IDS)
    ensures GuardedPooled(pool, msgs)
  {
    if msgs != [] {
      GeneratedIsGuarded(msgs[..|msgs| - 1], pool);
      PoolNeverExhausts(msgs, pool);
      StreamBounds(msgs);
    }
  }

  lemma NothingDropped(msgs: seq<MarketMessage>, pool: nat)
    requires AllInRange(msgs) && (pool >= |msgs| || pool >= IDS)
    ensures |Kept(pool, msgs)| == |msgs| && Run([], Kept(pool, msgs)) == Run([], msgs)
  {
    PooledIsBaselineOnKept(pool, msgs);
    PoolNeverExhausts(msgs, pool);
  }

  lemma StreamInRange(msgs: seq<MarketMessage>, draws: nat -> uint64, first: nat, symbol: string, clock: seq<uint64>)
    requires Generated(msgs, 0, draws, first, symbol, clock)
    ensures AllInRange(msgs)
  {
    forall k | 0 <= k < |msgs| ensures InRange(msgs[k]) {
      assert msgs[0 + k] == MessageAt(draws, first, symbol, k, clock[k]);
      GeneratedInRange(draws, first, symbol, k, clock[k]);
    }
  }

  method FreshStream(numMessages: uint64, symbol: string, clock: seq<uint64>) returns (msgs: seq<MarketMessage>)
    requires |clock| == numMessages
    ensures |msgs| == numMessages && AllInRange(msgs)
    ensures Generated(msgs, 0, Draws(SEED), 1, Padded(symbol), clock)
    ensures numMessages > 0 ==>
      var m := msgs[0];
      m.sequenceNumber == 1 && m.orderId == 1000 && m.price == 16017 && m.quantity == 1280 && m.side.Buy? && m.kind.Add?
  {
    var generator := new MarketDataGenerator(numMessages, symbol);
    generator.Generate(clock);
    msgs := generator.messages;
    StreamInRange(msgs, Draws(SEED), 1, Padded(symbol), clock);
    if numMessages > 0 {
      FirstMessage(msgs, Padded(symbol), clock, SEED);
    }
  }

  // Whatever the clock reads, a fresh generator's messages leave both books with the same containers,
  // and a pool of min(N, 10000) slots or more is never exhausted.
  method GenerateAndCompare(numMessages: uint64, symbol: string, clock: seq<uint64>, pool: nat)
    returns (msgs: seq<MarketMessage>, baseline: OrderBook, pooled: PooledOrderBook)
    requires |clock| == numMessages && (pool >= numMessages || pool >= IDS)
    ensures |msgs| == numMessages && Generated(msgs, 0, Draws(SEED), 1, Padded(symbol), clock)
    ensures baseline.Valid() && pooled.Valid() && baseline.live == pooled.live == Run([], msgs)
    ensures baseline.bids == pooled.bids && baseline.asks == pooled.asks
    ensures baseline.orderMap == Deref(pooled.orderMap, pooled.pool.inUse[..], pooled.pool.storage[..])
    ensures pooled.poolExhaustions == 0
  {
    msgs := FreshStream(numMessages, symbol, clock);
    GeneratedIsGuarded(msgs, pool);
    NothingDropped(msgs, pool);
    GuardMakesKeptSafe(pool, msgs);
    GuardMakesClampFree(pool, msgs);
    baseline, pooled := CompareBooks(msgs, pool);
  }
}
