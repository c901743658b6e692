// The message generator, and the bounds its ranges put on any book that replays them.
module Generator {
  import opened Market
  import opened Lcg
  import opened Ledger
  import opened LedgerLaws
  import opened OrderBooks
  import opened ObjectPools
  import opened PooledLedger

  const IDS := 10000
  const MIN_QUANTITY := 100
  const QUANTITIES := 10000
  const SEED: uint64 := 12345

  // A draw shifted and reduced.
  function Bounded(x: uint64, bound: nat): (r: nat)
    requires bound > 0
    ensures r < bound
  {
    (x / 0x1_0000) % bound
  }

  // draws(k) is the state of the generator after k draws.
  ghost predicate Chained(draws: nat -> uint64, k: nat) {
    draws(k + 1) == Next(draws(k))
  }

  ghost predicate IsDraws(draws: nat -> uint64) {
    forall k: nat :: Chained(draws, k)
  }

  // uint64 addition.
  function Plus64(x: nat, y: nat): uint64 {
    (x + y) % 0x1_0000_0000_0000_0000
  }

  lemma PlusMod(x: nat, y: nat, z: nat)
    ensures Plus64(Plus64(x, y), z) == Plus64(x, y + z)
  {}

  function KindOf(roll: nat): MessageType {
    if roll < 70 then Add else if roll < 85 then Modify else if roll < 95 then Cancel else Trade
  }

  function Assembled(sequence: uint64, timestamp: uint64, i: nat, price: nat, quantity: nat, side: nat, roll: nat,
                     symbol: string): MarketMessage
    requires price < 19000 && quantity < QUANTITIES
  {
    MarketMessage(sequence, timestamp, 1000 + i % IDS, 10000 + price, MIN_QUANTITY + quantity,
                  if side == 0 then Buy else Sell, KindOf(roll), symbol)
  }

  // The i-th message of a call to generate: each message takes four draws.
  function MessageAt(draws: nat -> uint64, sequence: nat, symbol: string, i: nat, timestamp: uint64): MarketMessage {
    Assembled(Plus64(sequence, i), timestamp, i,
              Bounded(draws(4 * i + 1), 19000), Bounded(draws(4 * i + 2), QUANTITIES),
              Bounded(draws(4 * i + 3), 2), Bounded(draws(4 * i + 4), 100), symbol)
  }

  // Eight characters, the first of the given name and then spaces.
  function Padded(symbol: string): (r: string)
    ensures |r| == 8
    ensures forall i :: 0 <= i < 8 ==> r[i] == if i < |symbol| then symbol[i] else ' '
  {
    if |symbol| >= 8 then symbol[..8] else symbol + seq(8 - |symbol|, _ => ' ')
  }

  // From position start on, msgs are the messages of one call to generate, one per clock reading.
  ghost predicate Generated(msgs: seq<MarketMessage>, start: nat, draws: nat -> uint64, first: nat, symbol: string,
                            clock: seq<uint64>)
  {
    && |msgs| == start + |clock|
    && forall k :: 0 <= k < |clock| ==> msgs[start + k] == MessageAt(draws, first, symbol, k, clock[k])
  }

  // The k-th message in plain arithmetic: x1 to x4 are the four states it is made of.
  ghost predicate FieldsAre(m: MarketMessage, k: nat, x1: uint64, x2: uint64, x3: uint64, x4: uint64, first: nat,
                            symbol: string, timestamp: uint64)
  {
    && m.sequenceNumber == (first + k) % 0x1_0000_0000_0000_0000 && m.timestampNs == timestamp && m.symbol == symbol
    && m.orderId == 1000 + k % 10000
    && m.price == 10000 + (x1 / 65536) % 19000
    && m.quantity == 100 + (x2 / 65536) % 10000
    && m.side == (if (x3 / 65536) % 2 == 0 then Buy else Sell)
    && var roll := (x4 / 65536) % 100;
       m.kind == if roll < 70 then Add else if roll < 85 then Modify else if roll < 95 then Cancel else Trade
  }

  lemma FieldsOfMessage(draws: nat -> uint64, first: nat, symbol: string, k: nat, timestamp: uint64)
    ensures FieldsAre(MessageAt(draws, first, symbol, k, timestamp), k, draws(4 * k + 1), draws(4 * k + 2),
                      draws(4 * k + 3), draws(4 * k + 4), first, symbol, timestamp)
  {}

  ghost predicate GeneratedFields(msgs: seq<MarketMessage>, start: nat, seed: uint64, first: nat, symbol: string,
                                  clock: seq<uint64>)
  {
    && |msgs| == start + |clock|
    && forall k :: 0 <= k < |clock| ==>
         FieldsAre(msgs[start + k], k, After(seed, 4 * k + 1), After(seed, 4 * k + 2), After(seed, 4 * k + 3),
                   After(seed, 4 * k + 4), first, symbol, clock[k])
  }

  lemma GeneratedMeans(msgs: seq<MarketMessage>, start: nat, seed: uint64, first: nat, symbol: string,
                       clock: seq<uint64>)
    requires Generated(msgs, start, Draws(seed), first, symbol, clock)
    ensures GeneratedFields(msgs, start, seed, first, symbol, clock)
  {
    forall k | 0 <= k < |clock|
      ensures FieldsAre(msgs[start + k], k, After(seed, 4 * k + 1), After(seed, 4 * k + 2), After(seed, 4 * k + 3),
                        After(seed, 4 * k + 4), first, symbol, clock[k])
    {
      FieldsOfMessage(Draws(seed), first, symbol, k, clock[k]);
    }
  }

  lemma FirstDraws(seed: uint64)
    requires seed == 12345
    ensures After(seed, 1) == 21562465348 && After(seed, 2) == 35891263647283923
    ensures After(seed, 3) == 11348311824757703190 && After(seed, 4) == 9021649941223248509
  {
    var x1, x2, x3, x4 := After(seed, 1), After(seed, 2), After(seed, 3), After(seed, 4);
    assert x1 == Next(After(seed, 0)) && x2 == Next(x1) && x3 == Next(x2) && x4 == Next(x3);
  }

  // What the default seed makes of the first message.
  lemma FirstMessage(msgs: seq<MarketMessage>, symbol: string, clock: seq<uint64>, seed: uint64)
    requires seed == 12345 && GeneratedFields(msgs, 0, seed, 1, symbol, clock) && clock != []
    ensures var m := msgs[0];
      m.sequenceNumber == 1 && m.orderId == 1000 && m.price == 16017 && m.quantity == 1280 && m.side.Buy? && m.kind.Add?
  {
    FirstDraws(seed);
    assert FieldsAre(msgs[0 + 0], 0, After(seed, 1), After(seed, 2), After(seed, 3), After(seed, 4), 1, symbol,
                     clock[0]);
  }

  class MarketDataGenerator {
    const numMessages: uint64
    const symbol: string
    var seed: uint64
    var sequenceNumber: uint64
    var messages: seq<MarketMessage>

    constructor (numMessages: uint64, symbol: string)
      ensures this.numMessages == numMessages && this.symbol == Padded(symbol)
      ensures seed == SEED == 12345 && sequenceNumber == 1 && messages == []
    {
      this.numMessages, this.symbol := numMessages, Padded(symbol);
      seed, sequenceNumber, messages := SEED, 1, [];
    }

    method NextRandom() returns (r: uint64)
      modifies this`seed
      ensures r == seed == Next(old(seed))
    {
      seed := (1664525 * seed + 1013904223) % TWO64;
      r := seed;
    }

    // draws and k say which draw this is.
    method RandomBounded(upper: nat, ghost draws: nat -> uint64, ghost k: nat) returns (r: nat)
      requires upper > 0 && IsDraws(draws) && seed == draws(k)
      modifies this`seed
      ensures seed == draws(k + 1) && r == Bounded(draws(k + 1), upper)
    {
      assert Chained(draws, k);
      var x := NextRandom();
      r := (x / 0x1_0000) % upper;
    }

    // The loop body; first is the sequence number the loop began with.
    method NextMessage(i: nat, timestamp: uint64, ghost draws: nat -> uint64, ghost first: nat)
      returns (m: MarketMessage)
      requires IsDraws(draws) && seed == draws(4 * i) && sequenceNumber == Plus64(first, i)
      modifies this`seed, this`sequenceNumber
      ensures seed == draws(4 * i + 4) && sequenceNumber == Plus64(first, i + 1)
      ensures m == MessageAt(draws, first, symbol, i, timestamp)
      ensures FieldsAre(m, i, draws(4 * i + 1), draws(4 * i + 2), draws(4 * i + 3), draws(4 * i + 4), first, symbol,
                        timestamp)
    {
      var sequence := sequenceNumber;
      sequenceNumber := Plus64(sequenceNumber, 1);
      PlusMod(first, i, 1);
      var price := RandomBounded(19000, draws, 4 * i);
      var quantity := RandomBounded(QUANTITIES, draws, 4 * i + 1);
      var side := RandomBounded(2, draws, 4 * i + 2);
      var roll := RandomBounded(100, draws, 4 * i + 3);
      FieldsOfMessage(draws, first, symbol, i, timestamp);
      m := Assembled(sequence, timestamp, i, price, quantity, side, roll, symbol);
    }

    // The loop; clock gives the readings of the timestamp clock, one per message.
    method Append(clock: seq<uint64>, ghost draws: nat -> uint64)
      requires |clock| == numMessages && IsDraws(draws) && seed == draws(0)
      modifies this
      ensures old(messages) <= messages
      ensures Generated(messages, |old(messages)|, draws, old(sequenceNumber), symbol, clock)
      ensures seed == draws(4 * numMessages) && sequenceNumber == Plus64(old(sequenceNumber), numMessages)
    {
      ghost var first, before := sequenceNumber, messages;
      var i := 0;
      while i < numMessages
        invariant 0 <= i <= numMessages
        invariant seed == draws(4 * i) && sequenceNumber == Plus64(first, i)
        invariant |messages| == |before| + i && before <= messages
        invariant forall k :: 0 <= k < i ==> messages[|before| + k] == MessageAt(draws, first, symbol, k, clock[k])
      {
        var m := NextMessage(i, clock[i], draws, first);
        messages := messages + [m];
        i := i + 1;
      }
    }

    method Generate(clock: seq<uint64>)
      requires |clock| == numMessages
      modifies this
      ensures old(messages) <= messages
      ensures Generated(messages, |old(messages)|, Draws(old(seed)), old(sequenceNumber), symbol, clock)
      ensures GeneratedFields(messages, |old(messages)|, old(seed), old(sequenceNumber), symbol, clock)
      ensures seed == After(old(seed), 4 * numMessages)
      ensures sequenceNumber == Plus64(old(sequenceNumber), numMessages)
    {
      ghost var from, first, start := seed, sequenceNumber, |messages|;
      DrawsChain(seed);
      Append(clock, Draws(seed));
      GeneratedMeans(messages, start, from, first, symbol, clock);
    }
  }

  function Draws(seed: uint64): nat -> uint64 {
    (k: nat) => After(seed, k)
  }

  lemma DrawsChain(seed: uint64)
    ensures IsDraws(Draws(seed)) && Draws(seed)(0) == seed
  {
    forall k: nat ensures Chained(Draws(seed), k) {
      assert After(seed, k + 1) == Next(After(seed, k));
    }
  }

  // ---- Streams in the generator's ranges ----

  predicate InRange(m: MarketMessage) {
    && 1000 <= m.orderId < 1000 + IDS
    && MIN_QUANTITY <= m.quantity < MIN_QUANTITY + QUANTITIES
  }

  ghost predicate AllInRange(msgs: seq<MarketMessage>) {
    forall i :: 0 <= i < |msgs| ==> InRange(msgs[i])
  }

  lemma GeneratedInRange(draws: nat -> uint64, sequence: nat, symbol: string, i: nat, timestamp: uint64)
    ensures var m := MessageAt(draws, sequence, symbol, i, timestamp);
      InRange(m) && 10000 <= m.price < 29000
  {}

  // Every live order has an id of the generator and a positive quantity in its range.
  ghost predicate OrdersInRange(l: Orders) {
    forall i :: 0 <= i < |l| ==> 1000 <= l[i].id < 1000 + IDS && 1 <= l[i].quantity < MIN_QUANTITY + QUANTITIES
  }

  lemma ApplyInRange(l: Orders, m: MarketMessage)
    requires OrdersInRange(l) && InRange(m)
    ensures OrdersInRange(Apply(l, m)) && |Apply(l, m)| <= |l| + 1
  {
    if IsLive(l, m.orderId) {
      var k := IndexOf(l, m.orderId);
      var mid := Outcome(l[k], m);
      var r := Splice(l, k, mid);
      forall i | 0 <= i < |r|
        ensures 1000 <= r[i].id < 1000 + IDS && 1 <= r[i].quantity < MIN_QUANTITY + QUANTITIES
      {
        assert r[i] == if i < k then l[i] else if i < k + |mid| then mid[i - k] else l[i + 1 - |mid|];
      }
    }
  }

  lemma {:induction false} RunInRange(msgs: seq<MarketMessage>)
    requires AllInRange(msgs)
    ensures OrdersInRange(Run([], msgs)) && |Run([], msgs)| <= |msgs|
  {
    if msgs != [] {
      RunInRange(msgs[..|msgs| - 1]);
      ApplyInRange(Run([], msgs[..|msgs| - 1]), msgs[|msgs| - 1]);
    }
  }

  lemma FewLiveOrders(l: Orders)
    requires Distinct(l) && OrdersInRange(l)
    ensures |l| <= IDS
  {
    var slots := seq(|l|, i requires 0 <= i < |l| => l[i].id - 1000);
    BoundedFreeList(slots, IDS);
  }

  lemma {:induction false} SumBound(l: Orders, side: Side, price: int64)
    requires OrdersInRange(l)
    ensures LevelSum(l, side, price) <= (MIN_QUANTITY + QUANTITIES - 1) * |l|
  {
    if l != [] {
      assert OrdersInRange(l[1..]) by {
        assert forall i :: 0 <= i < |l[1..]| ==> l[1..][i] == l[i + 1];
      }
      SumBound(l[1..], side, price);
    }
  }

  // After any stream in the generator's ranges at most 10000 orders are live, each of positive
  // quantity, and every level sums to at most 100,990,000, so the 32-bit totals are exact.
  lemma StreamBounds(msgs: seq<MarketMessage>)
    requires AllInRange(msgs)
    ensures var l := Run([], msgs);
      && |l| <= IDS && |l| <= |msgs|
      && (forall i :: 0 <= i < |l| ==> l[i].quantity > 0)
      && (forall side, p: int64 :: LevelSum(l, side, p) <= 100_990_000)
      && Guarded(l) && !exists m :: ClampBites(l, m)
  {
    var l := Run([], msgs);
    RunInRange(msgs);
    RunDistinct([], msgs);
    FewLiveOrders(l);
    forall side, p: int64 ensures LevelSum(l, side, p) <= 100_990_000 {
      SumBound(l, side, p);
    }
    forall m ensures !ClampBites(l, m) {
      ExactSumsNeverClamp(l, m);
    }
  }

  // So no Modify of such a stream overflows in the baseline.
  lemma {:induction false} StreamIsSafe(msgs: seq<MarketMessage>)
    requires AllInRange(msgs)
    ensures SafeRun([], msgs)
  {
    if msgs != [] {
      var init := msgs[..|msgs| - 1];
      StreamIsSafe(init);
      StreamBounds(init);
      StreamBounds(msgs);
      RunDistinct([], init);
      GuardMakesModifySafe(Run([], init), msgs[|msgs| - 1]);
    }
  }

  // And a pool of min(N, 10000) slots never exhausts: both books end alike.
  lemma PoolNeverExhausts(msgs: seq<MarketMessage>, capacity: nat)
    requires AllInRange(msgs) && (capacity >= |msgs| || capacity >= IDS)
    ensures RunPooled(capacity, msgs) == Run([], msgs) && Exhaustions(capacity, msgs) == 0
  {
    forall t | 0 <= t <= |msgs| ensures |Upto(msgs, t)| <= capacity {
      StreamBounds(msgs[..t]);
    }
    LargePoolNeverExhausts(capacity, msgs);
  }
}
