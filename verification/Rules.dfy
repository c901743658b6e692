// What each kind of message has to do to the live orders, in plain numbers: to the order it names, to
// all other orders, and to the sum and the queue of every price level. These rules stand beside the
// reference step, and it is proved to obey them.
module Rules {
  import opened Market
  import opened Ledger
  import opened Levels

  ghost predicate OthersKept(l: Orders, l': Orders, id: uint64) {
    forall x: uint64 :: x != id ==> Find(l', x) == Find(l, x)
  }

  // The sum of one level changes by this much, and no other sum changes.
  ghost predicate SumsMove(l: Orders, l': Orders, side: Side, price: int64, change: int) {
    forall s, p: int64 :: LevelSum(l', s, p) - LevelSum(l, s, p) == if s == side && p == price then change else 0
  }

  ghost predicate QueuesKept(l: Orders, l': Orders) {
    forall s, p: int64 :: LevelIds(l', s, p) == LevelIds(l, s, p)
  }

  // One queue has the id at its end, or has lost it; the others are kept.
  ghost predicate QueueGains(l: Orders, l': Orders, side: Side, price: int64, id: uint64) {
    forall s, p: int64 :: LevelIds(l', s, p) == LevelIds(l, s, p) + if s == side && p == price then [id] else []
  }

  ghost predicate QueueLoses(l: Orders, l': Orders, side: Side, price: int64, id: uint64) {
    forall s, p: int64 ::
      LevelIds(l', s, p) == if s == side && p == price then Without(LevelIds(l, s, p), id) else LevelIds(l, s, p)
  }

  ghost predicate AddRule(l: Orders, l': Orders, m: MarketMessage) {
    match Find(l, m.orderId)
    case Some(_) => l' == l
    case None =>
      && Find(l', m.orderId) == Some(Order(m.orderId, m.price, m.quantity, m.side)) && OthersKept(l, l', m.orderId)
      && SumsMove(l, l', m.side, m.price, m.quantity) && QueueGains(l, l', m.side, m.price, m.orderId)
  }

  ghost predicate ModifyRule(l: Orders, l': Orders, m: MarketMessage) {
    match Find(l, m.orderId)
    case None => l' == l
    case Some(o) =>
      && Find(l', m.orderId) == Some(Order(m.orderId, o.price, m.quantity, o.side)) && OthersKept(l, l', m.orderId)
      && SumsMove(l, l', o.side, o.price, m.quantity - o.quantity) && QueuesKept(l, l')
  }

  ghost predicate CancelRule(l: Orders, l': Orders, m: MarketMessage) {
    match Find(l, m.orderId)
    case None => l' == l
    case Some(o) =>
      && Find(l', m.orderId) == None && OthersKept(l, l', m.orderId)
      && SumsMove(l, l', o.side, o.price, 0 - o.quantity) && QueueLoses(l, l', o.side, o.price, m.orderId)
  }

  // A trade for less than the order leaves the difference; any other fills it, and it leaves.
  ghost predicate TradeRule(l: Orders, l': Orders, m: MarketMessage) {
    match Find(l, m.orderId)
    case None => l' == l
    case Some(o) =>
      && OthersKept(l, l', m.orderId)
      && if m.quantity < o.quantity then
           && Find(l', m.orderId) == Some(Order(m.orderId, o.price, o.quantity - m.quantity, o.side))
           && SumsMove(l, l', o.side, o.price, 0 - m.quantity) && QueuesKept(l, l')
         else
           && Find(l', m.orderId) == None
           && SumsMove(l, l', o.side, o.price, 0 - o.quantity) && QueueLoses(l, l', o.side, o.price, m.orderId)
  }

  ghost predicate Rule(l: Orders, l': Orders, m: MarketMessage) {
    match m.kind
    case Add => AddRule(l, l', m)
    case Modify => ModifyRule(l, l', m)
    case Cancel => CancelRule(l, l', m)
    case Trade => TradeRule(l, l', m)
  }

  // With a pool of limited capacity, an Add of an unknown id that finds it full does nothing.
  ghost predicate PooledRule(l: Orders, l': Orders, capacity: nat, m: MarketMessage) {
    if m.kind.Add? && Find(l, m.orderId).None? && |l| == capacity then l' == l else Rule(l, l', m)
  }

  // ---- The reference step obeys them ----

  lemma NothingHappens(l: Orders, m: MarketMessage)
    requires m.kind.Add? <==> IsLive(l, m.orderId)
    ensures Apply(l, m) == l
  {
    if IsLive(l, m.orderId) {
      SpliceSelf(l, IndexOf(l, m.orderId));
    }
  }

  lemma AddObeys(l: Orders, m: MarketMessage)
    requires Distinct(l) && m.kind.Add?
    ensures AddRule(l, Apply(l, m), m)
  {
    if IsLive(l, m.orderId) {
      NothingHappens(l, m);
      return;
    }
    forall x: uint64 ensures x != m.orderId ==> Find(Apply(l, m), x) == Find(l, x) {
      ApplyFind(l, m, x);
    }
    ApplyFind(l, m, m.orderId);
    forall s, p: int64
      ensures LevelSum(Apply(l, m), s, p) - LevelSum(l, s, p) == if s == m.side && p == m.price then m.quantity else 0
      ensures LevelIds(Apply(l, m), s, p) == LevelIds(l, s, p) + if s == m.side && p == m.price then [m.orderId] else []
    {
      AppendLevel(l, OrderOf(m), s, p);
    }
  }

  // The list after the k-th order has become `mid`, for all levels at once.
  lemma ReplacedLevels(l: Orders, k: nat, mid: Orders, l': Orders)
    requires Replaces(l, k, mid) && l' == Splice(l, k, mid)
    ensures SumsMove(l, l', l[k].side, l[k].price, QuantityOf(mid) - l[k].quantity)
    ensures mid != [] ==> QueuesKept(l, l')
    ensures mid == [] ==> QueueLoses(l, l', l[k].side, l[k].price, l[k].id)
  {
    forall s, p: int64
      ensures LevelSum(l', s, p) - LevelSum(l, s, p)
           == if s == l[k].side && p == l[k].price then QuantityOf(mid) - l[k].quantity else 0
      ensures LevelIds(l', s, p)
           == if s == l[k].side && p == l[k].price && mid == [] then Without(LevelIds(l, s, p), l[k].id)
              else LevelIds(l, s, p)
    {
      SplicedSum(l, k, mid, s, p);
      SplicedIds(l, k, mid, s, p);
    }
  }

  lemma ReplacedOrders(l: Orders, k: nat, mid: Orders, l': Orders)
    requires Replaces(l, k, mid) && l' == Splice(l, k, mid)
    ensures OthersKept(l, l', l[k].id)
    ensures Find(l', l[k].id) == if mid == [] then None else Some(mid[0])
  {
    forall x: uint64
      ensures Find(l', x) == if x != l[k].id then Find(l, x) else if mid == [] then None else Some(mid[0])
    {
      SpliceFind(l, k, mid, x);
    }
  }

  lemma OthersObey(l: Orders, m: MarketMessage)
    requires Distinct(l) && !m.kind.Add?
    ensures Rule(l, Apply(l, m), m)
  {
    if !IsLive(l, m.orderId) {
      NothingHappens(l, m);
      return;
    }
    var k := IndexOf(l, m.orderId);
    ReplacedLevels(l, k, Outcome(l[k], m), Apply(l, m));
    ReplacedOrders(l, k, Outcome(l[k], m), Apply(l, m));
  }

  lemma ApplyObeys(l: Orders, m: MarketMessage)
    requires Distinct(l)
    ensures Rule(l, Apply(l, m), m)
  {
    if m.kind.Add? {
      AddObeys(l, m);
    } else {
      OthersObey(l, m);
    }
  }
}
