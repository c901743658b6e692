// What the book classes' invariants say about the containers themselves, and where their
// 32-bit arithmetic stops being exact.
module BookTheorems {
  import opened Market
  import opened Ledger
  import opened LedgerLaws
  import opened Levels
  import opened OrderBooks
  import opened PooledLedger

  // ---- Every live order is queued exactly once ----

  lemma QueuedExactlyOnce(l: Orders, k: nat, side: Side, price: int64)
    requires Distinct(l) && k < |l|
    ensures multiset(LevelIds(l, side, price))[l[k].id] == if At(l[k], side, price) then 1 else 0
  {
    var id, a, b := l[k].id, LevelIds(l[..k], side, price), LevelIds(l[k + 1..], side, price);
    QueueSplit(l, k, side, price);
    NotQueued(l[..k], side, price, id);
    NotQueued(l[k + 1..], side, price, id);
    CountedBetween(a, if At(l[k], side, price) then [id] else [], b, id);
  }

  lemma QueueSplit(l: Orders, k: nat, side: Side, price: int64)
    requires Distinct(l) && k < |l|
    ensures LevelIds(l, side, price)
         == LevelIds(l[..k], side, price) + (if At(l[k], side, price) then [l[k].id] else [])
            + LevelIds(l[k + 1..], side, price)
  {
    SpliceSelf(l, k);
    QueueAround(l, k, [l[k]], side, price);
  }

  lemma CountedBetween(a: seq<uint64>, mid: seq<uint64>, b: seq<uint64>, id: uint64)
    requires id !in a && id !in b
    ensures multiset(a + mid + b)[id] == multiset(mid)[id]
  {
    assert id !in multiset(a) && id !in multiset(b);
  }

  // The lengths of the queues of one side, added up.
  ghost function QueueTotal(levels: SideMap): nat
    decreases |levels|
  {
    if levels == map[] then 0 else
      var p := First(levels, Buy);
      assert |levels - {p}| < |levels| by { assert levels.Keys == (levels - {p}).Keys + {p}; }
      |levels[p].orderIds| + QueueTotal(levels - {p})
  }

  function SideCount(l: Orders, side: Side): nat {
    if l == [] then 0 else (if l[0].side == side then 1 else 0) + SideCount(l[1..], side)
  }

  function OffLevel(l: Orders, side: Side, price: int64): Orders {
    if l == [] then [] else (if At(l[0], side, price) then [] else [l[0]]) + OffLevel(l[1..], side, price)
  }

  lemma {:induction false} OffLevelCounts(l: Orders, side: Side, price: int64, q: int64)
    ensures SideCount(l, side) == |LevelIds(l, side, price)| + SideCount(OffLevel(l, side, price), side)
    ensures LevelIds(OffLevel(l, side, price), side, q) == if q == price then [] else LevelIds(l, side, q)
  {
    if l != [] {
      OffLevelCounts(l[1..], side, price, q);
      var rest := OffLevel(l[1..], side, price);
      assert At(l[0], side, price) || OffLevel(l, side, price)[1..] == rest;
      assert !At(l[0], side, price) || OffLevel(l, side, price) == rest;
    }
  }

  lemma {:induction false} QueueLengths(levels: SideMap, l: Orders, side: Side)
    requires Shape(levels, l, side)
    ensures QueueTotal(levels) == SideCount(l, side)
    decreases |levels|
  {
    if levels == map[] {
      NoLevels(levels, l, side);
      NobodyThere(l, side);
    } else {
      var p := First(levels, Buy);
      var rest, l' := levels - {p}, OffLevel(l, side, p);
      assert levels.Keys == rest.Keys + {p};
      assert LevelFits(levels, l, side, p);
      forall q: int64 ensures LevelFits(rest, l', side, q) {
        assert LevelFits(levels, l, side, q);
        OffLevelCounts(l, side, p, q);
      }
      QueueLengths(rest, l', side);
      OffLevelCounts(l, side, p, p);
    }
  }

  lemma {:induction false} NobodyThere(l: Orders, side: Side)
    requires forall i :: 0 <= i < |l| ==> l[i].side != side
    ensures SideCount(l, side) == 0
  {
    if l != [] {
      assert forall i :: 0 <= i < |l[1..]| ==> l[1..][i] == l[i + 1];
      NobodyThere(l[1..], side);
    }
  }

  lemma {:induction false} TwoSides(l: Orders)
    ensures SideCount(l, Buy) + SideCount(l, Sell) == |l|
  {
    if l != [] {
      TwoSides(l[1..]);
    }
  }

  // The three containers of a book tell the same story: the table has as many entries as the
  // queues of both sides together.
  lemma TableMatchesQueues(t: map<uint64, Order>, b: SideMap, a: SideMap, l: Orders)
    requires Holds(t, b, a, l)
    ensures |t| == QueueTotal(b) + QueueTotal(a)
  {
    TableSize(t, l);
    QueueLengths(b, l, Buy);
    QueueLengths(a, l, Sell);
    TwoSides(l);
  }

  // The live orders determine every container, so two books over the same list are equal.
  lemma BooksAreEqual(t: map<uint64, Order>, b: SideMap, a: SideMap,
                      t': map<uint64, Order>, b': SideMap, a': SideMap, l: Orders)
    requires Holds(t, b, a, l) && Exact(b, a, l)
    requires Holds(t', b', a', l) && Exact(b', a', l)
    ensures t == t' && b == b' && a == a'
  {
    forall id: uint64 ensures Get(t, id) == Get(t', id) {
      assert Get(t, id) == Find(l, id) == Get(t', id);
    }
    assert forall id: uint64 :: id in t <==> Get(t, id).Some?;
    assert forall id: uint64 :: id in t' <==> Get(t', id).Some?;
    forall id | id in t ensures t[id] == t'[id] {
      assert Get(t, id) == Get(t', id);
    }
    SidesAreEqual(b, b', l, Buy);
    SidesAreEqual(a, a', l, Sell);
  }

  lemma SidesAreEqual(x: SideMap, y: SideMap, l: Orders, side: Side)
    requires Shape(x, l, side) && TotalsAgree(x, l, side)
    requires Shape(y, l, side) && TotalsAgree(y, l, side)
    ensures x == y
  {
    forall p: int64
      ensures p in x <==> p in y
      ensures p in x ==> x[p] == y[p]
    {
      assert LevelFits(x, l, side, p) && LevelFits(y, l, side, p);
    }
  }

  // ---- Lists that make the same book ----

  // The containers that represent one of two such lists represent the other.
  lemma SameBookSameContainers(t: map<uint64, Order>, b: SideMap, a: SideMap, l: Orders, l': Orders)
    requires SameBook(l, l') && Distinct(l') && Holds(t, b, a, l) && Exact(b, a, l)
    ensures Holds(t, b, a, l') && Exact(b, a, l')
  {
    forall id: uint64 ensures Get(t, id) == Find(l', id) {
      assert Get(t, id) == Find(l, id) == Find(l', id);
    }
    forall p: int64 ensures LevelFits(b, l', Buy, p) && LevelFits(a, l', Sell, p) {
      assert LevelFits(b, l, Buy, p) && LevelFits(a, l, Sell, p);
      assert LevelIds(l, Buy, p) == LevelIds(l', Buy, p) && LevelIds(l, Sell, p) == LevelIds(l', Sell, p);
    }
    forall p: int64
      ensures p in b ==> b[p].total == LevelSum(l', Buy, p) % TWO32
      ensures p in a ==> a[p].total == LevelSum(l', Sell, p) % TWO32
    {
      assert LevelSum(l, Buy, p) == LevelSum(l', Buy, p) && LevelSum(l, Sell, p) == LevelSum(l', Sell, p);
    }
  }

  // What a message does to one level, in terms of the lookups and the level alone.
  function NextIds(o: Option<Order>, ids: seq<uint64>, m: MarketMessage, side: Side, price: int64): seq<uint64> {
    match o
    case None => ids + if m.kind.Add? && At(OrderOf(m), side, price) then [m.orderId] else []
    case Some(x) => if At(x, side, price) && Outcome(x, m) == [] then Without(ids, x.id) else ids
  }

  function NextSum(o: Option<Order>, sum: nat, m: MarketMessage, side: Side, price: int64): int {
    match o
    case None => sum + if m.kind.Add? && At(OrderOf(m), side, price) then m.quantity else 0
    case Some(x) => sum + if At(x, side, price) then QuantityOf(Outcome(x, m)) - x.quantity else 0
  }

  lemma LevelAfter(l: Orders, m: MarketMessage, side: Side, price: int64)
    requires Distinct(l)
    ensures LevelIds(Apply(l, m), side, price) == NextIds(Find(l, m.orderId), LevelIds(l, side, price), m, side, price)
    ensures LevelSum(Apply(l, m), side, price) == NextSum(Find(l, m.orderId), LevelSum(l, side, price), m, side, price)
  {
    if IsLive(l, m.orderId) {
      var k := IndexOf(l, m.orderId);
      SplicedIds(l, k, Outcome(l[k], m), side, price);
      SplicedSum(l, k, Outcome(l[k], m), side, price);
    } else {
      AppendLevel(l, OrderOf(m), side, price);
    }
  }

  // No message can tell such lists apart, so no stream can.
  lemma SameBookStays(l: Orders, l': Orders, m: MarketMessage)
    requires Distinct(l) && Distinct(l') && SameBook(l, l')
    ensures SameBook(Apply(l, m), Apply(l', m))
  {
    assert Find(l, m.orderId) == Find(l', m.orderId);
    forall id: uint64 ensures Find(Apply(l, m), id) == Find(Apply(l', m), id) {
      assert Find(l, id) == Find(l', id);
      ApplyFind(l, m, id);
      ApplyFind(l', m, id);
    }
    forall side, price: int64
      ensures LevelIds(Apply(l, m), side, price) == LevelIds(Apply(l', m), side, price)
      ensures LevelSum(Apply(l, m), side, price) == LevelSum(Apply(l', m), side, price)
    {
      LevelAfter(l, m, side, price);
      LevelAfter(l', m, side, price);
    }
  }

  lemma {:induction false} SameBookForever(l: Orders, l': Orders, msgs: seq<MarketMessage>)
    requires Distinct(l) && Distinct(l') && SameBook(l, l')
    ensures SameBook(Run(l, msgs), Run(l', msgs))
  {
    if msgs != [] {
      var init := msgs[..|msgs| - 1];
      SameBookForever(l, l', init);
      RunDistinct(l, init);
      RunDistinct(l', init);
      SameBookStays(Run(l, init), Run(l', init), msgs[|msgs| - 1]);
    }
  }

  // ---- Where exactness ends ----

  function Plain(kind: MessageType, id: uint64, quantity: uint32): MarketMessage {
    MarketMessage(0, 0, id, 100, quantity, Buy, kind, "")
  }

  // One order of 2^31 shares, modified down to one share: the int32 subtraction overflows.
  lemma BaselineModifyCanOverflow()
    ensures !SafeRun([], [Plain(Add, 1, 0x8000_0000), Plain(Modify, 1, 1)])
  {
    var m, n := Plain(Add, 1, 0x8000_0000), Plain(Modify, 1, 1);
    assert [m, n][..1] == [m];
    assert [m][..0] == [];
    assert Run([], [m]) == [OrderOf(m)];
    assert IndexOf([OrderOf(m)], 1) == 0;
  }

  // Two orders that sum to 2^32 leave a cached total of zero: taking the larger one down to zero
  // makes the pooled Modify clamp, although one share is left.
  lemma PooledClampCanBite()
    ensures ClampBites(Run([], [Plain(Add, 1, 0xFFFF_FFFF), Plain(Add, 2, 1)]), Plain(Modify, 1, 0))
  {
    var m, n := Plain(Add, 1, 0xFFFF_FFFF), Plain(Add, 2, 1);
    assert [m, n][..1] == [m];
    assert [m][..0] == [];
    assert Run([], [m]) == [OrderOf(m)];
    var l := [OrderOf(m), OrderOf(n)];
    assert IndexOf([OrderOf(m)], 2) == 1;
    assert Run([], [m, n]) == l;
    assert IndexOf(l, 1) == 0;
    assert l[1..] == [OrderOf(n)] && l[1..][1..] == [];
    assert LevelSum(l[1..], Buy, 100) == 1;
    assert LevelSum(l, Buy, 100) == 0x1_0000_0000;
  }

  // A zero-quantity Add of a fresh id is accepted.
  lemma ZeroQuantityAccepted(l: Orders, m: MarketMessage)
    requires Distinct(l) && FreshAdd(l, m) && m.quantity == 0
    ensures Find(Apply(l, m), m.orderId) == Some(OrderOf(m)) && OrderOf(m).quantity == 0
  {
    ApplyFind(l, m, m.orderId);
  }

  // A live order of quantity zero leaves with a Cancel or with any Trade, even one of quantity zero,
  // and with nothing else.
  lemma ZeroQuantityLeaves(l: Orders, m: MarketMessage, id: uint64)
    requires Distinct(l) && IsLive(l, id) && l[IndexOf(l, id)].quantity == 0
    ensures IsLive(Apply(l, m), id) <==> !(m.orderId == id && (m.kind.Cancel? || m.kind.Trade?))
  {
    ApplyFind(l, m, id);
  }

  // So it stays live, with its quantity, through any stream without a Modify, Cancel or Trade of its id.
  lemma {:induction false} ZeroQuantityLives(l: Orders, msgs: seq<MarketMessage>, id: uint64)
    requires Distinct(l) && IsLive(l, id) && l[IndexOf(l, id)].quantity == 0
    requires forall i :: 0 <= i < |msgs| && msgs[i].orderId == id ==> msgs[i].kind.Add?
    ensures Find(Run(l, msgs), id) == Find(l, id)
  {
    if msgs != [] {
      var init := msgs[..|msgs| - 1];
      ZeroQuantityLives(l, init, id);
      RunDistinct(l, init);
      ApplyFind(Run(l, init), msgs[|msgs| - 1], id);
    }
  }
}
