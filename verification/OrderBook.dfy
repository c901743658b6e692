// The baseline order book: three containers updated in place by four handlers.
module OrderBooks {
  import opened Market
  import opened Ledger
  import opened Levels
  import opened Rules

  // ---- The order table ----

  function Get(orders: map<uint64, Order>, id: uint64): Option<Order> {
    if id in orders then Some(orders[id]) else None
  }

  ghost predicate OrdersAgree(orders: map<uint64, Order>, l: Orders) {
    forall id: uint64 :: Get(orders, id) == Find(l, id)
  }

  lemma OrdersFollow(orders: map<uint64, Order>, after: map<uint64, Order>, l: Orders, m: MarketMessage)
    requires Distinct(l) && OrdersAgree(orders, l)
    requires forall id: uint64 :: id != m.orderId ==> Get(after, id) == Get(orders, id)
    requires Get(after, m.orderId) == OutcomeFor(Get(orders, m.orderId), m)
    ensures OrdersAgree(after, Apply(l, m))
  {
    forall id: uint64 ensures Get(after, id) == Find(Apply(l, m), id) {
      assert Get(orders, id) == Find(l, id);
      ApplyFind(l, m, id);
    }
  }

  // The table after a message to a live order.
  function Put(orders: map<uint64, Order>, id: uint64, mid: Orders): map<uint64, Order>
    requires |mid| <= 1
  {
    if mid == [] then orders - {id} else orders[id := mid[0]]
  }

  lemma {:induction false} TableSize(orders: map<uint64, Order>, l: Orders)
    requires Distinct(l) && OrdersAgree(orders, l)
    ensures |orders| == |l|
    decreases |l|
  {
    if l == [] {
      forall id: uint64 ensures id !in orders {
        assert Get(orders, id) == Find(l, id);
      }
      assert orders.Keys == {};
    } else {
      var id := l[0].id;
      var rest := orders - {id};
      assert Get(orders, id) == Find(l, id) == Some(l[0]);
      forall x: uint64 ensures Get(rest, x) == Find(l[1..], x) {
        assert Get(orders, x) == Find(l, x);
      }
      TableSize(rest, l[1..]);
      assert orders.Keys == rest.Keys + {id};
    }
  }

  // ---- int32 arithmetic of the baseline Modify ----

  // static_cast from uint32: modular, so never undefined.
  function ToInt32(x: uint32): int {
    if x < 0x8000_0000 then x else x - TWO32
  }

  predicate InInt32(x: int) {
    -0x8000_0000 <= x < 0x8000_0000
  }

  // Neither the int32 subtraction nor the int32 addition overflows.
  predicate ModifyDefined(total: uint32, quantity: uint32, newQuantity: uint32) {
    var delta := ToInt32(newQuantity) - ToInt32(quantity);
    InInt32(delta) && InInt32(ToInt32(total) + delta)
  }

  // When they do not overflow, the casts cancel out and the total moves by the exact difference.
  function ModifiedTotal(total: uint32, quantity: uint32, newQuantity: uint32): (r: uint32)
    requires ModifyDefined(total, quantity, newQuantity)
    ensures r == Shifted(total, newQuantity - quantity, false)
    ensures r == (total + newQuantity - quantity) % 0x1_0000_0000
  {
    (ToInt32(total) + (ToInt32(newQuantity) - ToInt32(quantity))) % TWO32
  }

  // What the code demands of the caller of Modify: no signed overflow, stated on the live orders.
  predicate Safe(l: Orders, m: MarketMessage) {
    m.kind.Modify? && IsLive(l, m.orderId) ==>
      var o := l[IndexOf(l, m.orderId)];
      ModifyDefined(LevelSum(l, o.side, o.price) % TWO32, o.quantity, m.quantity)
  }

  ghost predicate SafeRun(l: Orders, msgs: seq<MarketMessage>) {
    msgs == [] || (SafeRun(l, msgs[..|msgs| - 1]) && Safe(Run(l, msgs[..|msgs| - 1]), msgs[|msgs| - 1]))
  }

  // Quantities and exact level sums below 2^31 are enough.
  ghost predicate Guarded(l: Orders) {
    forall side, p: int64 :: LevelSum(l, side, p) < 0x8000_0000
  }

  lemma GuardMakesModifySafe(l: Orders, m: MarketMessage)
    requires Distinct(l) && Guarded(l) && Guarded(Apply(l, m))
    ensures Safe(l, m)
  {
    if m.kind.Modify? && IsLive(l, m.orderId) {
      var k := IndexOf(l, m.orderId);
      var mid := Outcome(l[k], m);
      SplicedSum(l, k, mid, l[k].side, l[k].price);
      SumOfMember(l, k);
      SumOfMember(Apply(l, m), k);
      assert LevelSum(Apply(l, m), l[k].side, l[k].price) < 0x8000_0000;
      assert LevelSum(l, l[k].side, l[k].price) < 0x8000_0000;
    }
  }

  // The sign bit of a 32-bit value, or of any sum or difference that is reduced to one.
  predicate SignBit(x: int) {
    x % TWO32 >= 0x8000_0000
  }

  // For every list: the int32 arithmetic is defined exactly when neither step has the sign of an overflow.
  // The subtraction overflows when the quantities differ in sign and the change does not have the sign
  // of the new one; the addition when total and change agree in sign and the new total does not.
  lemma ModifySafeExactly(l: Orders, m: MarketMessage)
    requires Distinct(l) && m.kind.Modify? && IsLive(l, m.orderId)
    ensures var o := l[IndexOf(l, m.orderId)];
      var sum, sum' := LevelSum(l, o.side, o.price), LevelSum(Apply(l, m), o.side, o.price);
      var change := m.quantity - o.quantity;
      Safe(l, m) <==>
        && (SignBit(m.quantity) != SignBit(o.quantity) ==> SignBit(change) == SignBit(m.quantity))
        && (SignBit(sum) == SignBit(change) ==> SignBit(sum') == SignBit(sum))
  {
    var k := IndexOf(l, m.orderId);
    var o := l[k];
    SplicedSum(l, k, Outcome(o, m), o.side, o.price);
    DefinedBySigns(LevelSum(l, o.side, o.price), LevelSum(Apply(l, m), o.side, o.price), o.quantity, m.quantity);
  }

  lemma DefinedBySigns(sum: nat, sum': nat, quantity: uint32, newQuantity: uint32)
    requires sum' - sum == newQuantity - quantity
    ensures ModifyDefined(sum % TWO32, quantity, newQuantity) <==>
      && (SignBit(newQuantity) != SignBit(quantity) ==> SignBit(newQuantity - quantity) == SignBit(newQuantity))
      && (SignBit(sum) == SignBit(newQuantity - quantity) ==> SignBit(sum') == SignBit(sum))
  {
    ShiftExact(sum, sum');
    WrappedBySigns(sum % TWO32, quantity, newQuantity);
  }

  lemma WrappedBySigns(total: uint32, quantity: uint32, newQuantity: uint32)
    ensures ModifyDefined(total, quantity, newQuantity) <==>
      && (SignBit(newQuantity) != SignBit(quantity) ==> SignBit(newQuantity - quantity) == SignBit(newQuantity))
      && (SignBit(total) == SignBit(newQuantity - quantity) ==>
            SignBit(total + (newQuantity - quantity)) == SignBit(total))
  {}

  // From level sums below 2^31 it is defined exactly when the new sum stays below 2^31 too, or the
  // new quantity wraps to a negative number that lies close enough to zero.
  lemma ModifySafeFromGuarded(l: Orders, m: MarketMessage)
    requires Distinct(l) && Guarded(l) && m.kind.Modify? && IsLive(l, m.orderId)
    ensures var o := l[IndexOf(l, m.orderId)];
      Safe(l, m) <==> if m.quantity < 0x8000_0000 then LevelSum(Apply(l, m), o.side, o.price) < 0x8000_0000
                      else m.quantity - 0x8000_0000 >= o.quantity
  {
    var k := IndexOf(l, m.orderId);
    SplicedSum(l, k, Outcome(l[k], m), l[k].side, l[k].price);
    SumOfMember(l, k);
    assert LevelSum(l, l[k].side, l[k].price) < 0x8000_0000;
  }

  // ---- One message on all three containers ----

  // The containers of a book represent the live orders, cached totals aside.
  ghost predicate Holds(t: map<uint64, Order>, b: SideMap, a: SideMap, l: Orders) {
    Distinct(l) && OrdersAgree(t, l) && Shape(b, l, Buy) && Shape(a, l, Sell)
  }

  ghost predicate Exact(b: SideMap, a: SideMap, l: Orders) {
    TotalsAgree(b, l, Buy) && TotalsAgree(a, l, Sell)
  }

  ghost predicate Moved(b: SideMap, b': SideMap, a: SideMap, a': SideMap, l: Orders, l': Orders, clamp: bool) {
    TotalsMoved(b, b', l, l', Buy, clamp) && TotalsMoved(a, a', l, l', Sell, clamp)
  }

  lemma StayExact(b: SideMap, b': SideMap, a: SideMap, a': SideMap, l: Orders, l': Orders)
    requires Exact(b, a, l) && Moved(b, b', a, a', l, l', false)
    ensures Exact(b', a', l')
  {
    MovedTotalsAgree(b, b', l, l', Buy);
    MovedTotalsAgree(a, a', l, l', Sell);
  }

  // A message that finds nothing to do: a duplicate Add, or anything else on an unknown id.
  lemma Ignored(t: map<uint64, Order>, b: SideMap, a: SideMap, l: Orders, m: MarketMessage, clamp: bool)
    requires Holds(t, b, a, l) && (m.kind.Add? <==> m.orderId in t)
    ensures Apply(l, m) == l && Moved(b, b, a, a, l, l, clamp)
    ensures IsLive(l, m.orderId) == m.kind.Add?
  {
    assert Get(t, m.orderId) == Find(l, m.orderId);
    if IsLive(l, m.orderId) {
      SpliceSelf(l, IndexOf(l, m.orderId));
    }
  }

  lemma Added(t: map<uint64, Order>, b: SideMap, b': SideMap, a: SideMap, a': SideMap, l: Orders, m: MarketMessage)
    requires Holds(t, b, a, l) && m.kind.Add? && m.orderId !in t
    requires b' == if m.side.Buy? then AddToLevel(b, m) else b
    requires a' == if m.side.Sell? then AddToLevel(a, m) else a
    ensures Apply(l, m) == l + [OrderOf(m)] && !IsLive(l, m.orderId)
    ensures Holds(t[m.orderId := OrderOf(m)], b', a', Apply(l, m))
    ensures Moved(b, b', a, a', l, Apply(l, m), false)
  {
    assert Get(t, m.orderId) == Find(l, m.orderId);
    ApplyDistinct(l, m);
    OrdersFollow(t, t[m.orderId := OrderOf(m)], l, m);
    AddedSide(b, l, m, Buy);
    AddedSide(a, l, m, Sell);
  }

  // A known order is in the list, and its level is on its side.
  lemma Known(t: map<uint64, Order>, b: SideMap, a: SideMap, l: Orders, id: uint64)
    requires Holds(t, b, a, l) && id in t
    ensures IsLive(l, id) && t[id] == l[IndexOf(l, id)]
    ensures t[id].price in (if t[id].side.Buy? then b else a)
  {
    assert Get(t, id) == Find(l, id);
    LiveLevelExists(if t[id].side.Buy? then b else a, l, IndexOf(l, id));
  }

  lemma Updated(t: map<uint64, Order>, b: SideMap, b': SideMap, a: SideMap, a': SideMap, l: Orders, m: MarketMessage,
                clamp: bool)
    requires Holds(t, b, a, l) && !m.kind.Add? && m.orderId in t
    requires t[m.orderId].price in (if t[m.orderId].side.Buy? then b else a)
    requires var o := t[m.orderId];
      && b' == (if o.side.Buy? then Edited(b, o, Outcome(o, m), clamp) else b)
      && a' == (if o.side.Sell? then Edited(a, o, Outcome(o, m), clamp) else a)
    ensures Holds(Put(t, m.orderId, Outcome(t[m.orderId], m)), b', a', Apply(l, m))
    ensures Moved(b, b', a, a', l, Apply(l, m), clamp)
    ensures |Apply(l, m)| == |l| - 1 + |Outcome(t[m.orderId], m)|
  {
    Known(t, b, a, l, m.orderId);
    var k := IndexOf(l, m.orderId);
    var mid := Outcome(l[k], m);
    ApplyDistinct(l, m);
    OrdersFollow(t, Put(t, m.orderId, mid), l, m);
    SplicedSide(b, b', l, k, mid, Buy, clamp);
    SplicedSide(a, a', l, k, mid, Sell, clamp);
  }

  // The edits of a cancel and of a trade, in the common form.
  lemma CancelEdits(levels: SideMap, o: Order)
    requires o.price in levels
    ensures CancelAtLevel(levels, o) == Edited(levels, o, [], false)
  {}

  lemma TradeEdits(levels: SideMap, o: Order, tradeQuantity: uint32, rest: Orders)
    requires o.price in levels && tradeQuantity <= o.quantity
    requires rest == if tradeQuantity < o.quantity then [o.(quantity := o.quantity - tradeQuantity)] else []
    ensures TradeAtLevel(levels, o, tradeQuantity) == Edited(levels, o, rest, false)
  {}

  lemma Traded(t: map<uint64, Order>, b: SideMap, b': SideMap, a: SideMap, a': SideMap, l: Orders, m: MarketMessage,
               rest: Orders)
    requires Holds(t, b, a, l) && m.kind.Trade? && m.orderId in t
    requires t[m.orderId].price in (if t[m.orderId].side.Buy? then b else a)
    requires var o := t[m.orderId];
      && rest == (if m.quantity < o.quantity then [o.(quantity := o.quantity - m.quantity)] else [])
      && b' == (if o.side.Buy? then Edited(b, o, rest, false) else b)
      && a' == (if o.side.Sell? then Edited(a, o, rest, false) else a)
    ensures Holds(Put(t, m.orderId, rest), b', a', Apply(l, m))
    ensures Moved(b, b', a, a', l, Apply(l, m), false)
    ensures |Apply(l, m)| == |l| - 1 + |rest|
  {
    Updated(t, b, b', a, a', l, m, false);
  }

  lemma Cancelled(t: map<uint64, Order>, b: SideMap, b': SideMap, a: SideMap, a': SideMap, l: Orders, m: MarketMessage)
    requires Holds(t, b, a, l) && m.kind.Cancel? && m.orderId in t
    requires t[m.orderId].price in (if t[m.orderId].side.Buy? then b else a)
    requires var o := t[m.orderId];
      && b' == (if o.side.Buy? then Edited(b, o, [], false) else b)
      && a' == (if o.side.Sell? then Edited(a, o, [], false) else a)
    ensures Holds(t - {m.orderId}, b', a', Apply(l, m))
    ensures Moved(b, b', a, a', l, Apply(l, m), false)
    ensures |Apply(l, m)| == |l| - 1
  {
    Updated(t, b, b', a, a', l, m, false);
  }

  class OrderBook {
    var bids: SideMap
    var asks: SideMap
    var orderMap: map<uint64, Order>
    ghost var live: Orders

    ghost predicate Valid()
      reads this
    {
      Holds(orderMap, bids, asks, live) && Exact(bids, asks, live)
    }

    constructor ()
      ensures Valid() && live == []
    {
      bids, asks, orderMap, live := map[], map[], map[], [];
    }

    method OnMessage(m: MarketMessage)
      requires Valid() && Safe(live, m)
      modifies this
      ensures Valid() && live == Apply(old(live), m) && Rule(old(live), live, m)
    {
      match m.kind
      case Add => HandleAdd(m);
      case Modify => HandleModify(m);
      case Cancel => HandleCancel(m);
      case Trade => HandleTrade(m);
    }

    method HandleAdd(m: MarketMessage)
      requires Valid() && m.kind.Add?
      modifies this
      ensures Valid() && live == Apply(old(live), m) && AddRule(old(live), live, m)
    {
      ApplyObeys(live, m);
      if m.orderId in orderMap {
        Ignored(orderMap, bids, asks, live, m, false);
        return;
      }
      ghost var t, b, a, l := orderMap, bids, asks, live;
      orderMap := orderMap[m.orderId := OrderOf(m)];
      if m.side.Buy? {
        bids := AddToLevel(bids, m);
      } else {
        asks := AddToLevel(asks, m);
      }
      Added(t, b, bids, a, asks, l, m);
      live := Apply(l, m);
      StayExact(b, bids, a, asks, l, live);
    }

    method HandleModify(m: MarketMessage)
      requires Valid() && m.kind.Modify? && Safe(live, m)
      modifies this
      ensures Valid() && live == Apply(old(live), m) && ModifyRule(old(live), live, m)
    {
      ApplyObeys(live, m);
      if m.orderId !in orderMap {
        Ignored(orderMap, bids, asks, live, m, false);
        return;
      }
      ghost var t, b, a, l := orderMap, bids, asks, live;
      var order := orderMap[m.orderId];
      Known(t, b, a, l, m.orderId);
      if order.side.Buy? {
        if order.price in bids {
          bids := WithTotal(bids, order.price, ModifiedTotal(bids[order.price].total, order.quantity, m.quantity));
          orderMap := orderMap[m.orderId := order.(quantity := m.quantity)];
        }
      } else {
        if order.price in asks {
          asks := WithTotal(asks, order.price, ModifiedTotal(asks[order.price].total, order.quantity, m.quantity));
          orderMap := orderMap[m.orderId := order.(quantity := m.quantity)];
        }
      }
      Updated(t, b, bids, a, asks, l, m, false);
      live := Apply(l, m);
      StayExact(b, bids, a, asks, l, live);
    }

    method HandleCancel(m: MarketMessage)
      requires Valid() && m.kind.Cancel?
      modifies this
      ensures Valid() && live == Apply(old(live), m) && CancelRule(old(live), live, m)
    {
      ApplyObeys(live, m);
      if m.orderId !in orderMap {
        Ignored(orderMap, bids, asks, live, m, false);
        return;
      }
      ghost var t, b, a, l := orderMap, bids, asks, live;
      var order := orderMap[m.orderId];
      Known(t, b, a, l, m.orderId);
      if order.side.Buy? {
        if order.price in bids {
          CancelEdits(bids, order);
          bids := CancelAtLevel(bids, order);
        }
      } else {
        if order.price in asks {
          CancelEdits(asks, order);
          asks := CancelAtLevel(asks, order);
        }
      }
      orderMap := orderMap - {m.orderId};
      Cancelled(t, b, bids, a, asks, l, m);
      live := Apply(l, m);
      StayExact(b, bids, a, asks, l, live);
    }

    method HandleTrade(m: MarketMessage)
      requires Valid() && m.kind.Trade?
      modifies this
      ensures Valid() && live == Apply(old(live), m) && TradeRule(old(live), live, m)
    {
      ApplyObeys(live, m);
      if m.orderId !in orderMap {
        Ignored(orderMap, bids, asks, live, m, false);
        return;
      }
      ghost var t, b, a, l := orderMap, bids, asks, live;
      var order := orderMap[m.orderId];
      Known(t, b, a, l, m.orderId);
      var tradeQuantity := if m.quantity < order.quantity then m.quantity else order.quantity;
      ghost var rest := if m.quantity < order.quantity then [order.(quantity := order.quantity - m.quantity)] else [];
      if order.side.Buy? {
        if order.price in bids {
          TradeEdits(bids, order, tradeQuantity, rest);
          bids := TradeAtLevel(bids, order, tradeQuantity);
          orderMap := Reduced(orderMap, order, tradeQuantity);
        }
      } else {
        if order.price in asks {
          TradeEdits(asks, order, tradeQuantity, rest);
          asks := TradeAtLevel(asks, order, tradeQuantity);
          orderMap := Reduced(orderMap, order, tradeQuantity);
        }
      }
      Traded(t, b, bids, a, asks, l, m, rest);
      live := Apply(l, m);
      StayExact(b, bids, a, asks, l, live);
    }

    method BestBid() returns (best: Option<PriceLevel>)
      requires Valid()
      ensures BestOf(best, live, Buy)
      ensures best.Some? ==> forall i :: 0 <= i < |live| && live[i].side.Buy? ==> live[i].price <= best.value.price
      ensures best.Some? ==> best.value.total == LevelSum(live, Buy, best.value.price) % 0x1_0000_0000
    {
      if bids == map[] {
        NoLevels(bids, live, Buy);
        return None;
      }
      FirstIsBest(bids, live, Buy);
      best := Some(bids[First(bids, Buy)]);
    }

    method BestAsk() returns (best: Option<PriceLevel>)
      requires Valid()
      ensures BestOf(best, live, Sell)
      ensures best.Some? ==> forall i :: 0 <= i < |live| && live[i].side.Sell? ==> best.value.price <= live[i].price
      ensures best.Some? ==> best.value.total == LevelSum(live, Sell, best.value.price) % 0x1_0000_0000
    {
      if asks == map[] {
        NoLevels(asks, live, Sell);
        return None;
      }
      FirstIsBest(asks, live, Sell);
      best := Some(asks[First(asks, Sell)]);
    }

    method TotalOrders() returns (n: nat)
      requires Valid()
      ensures n == |live|
    {
      TableSize(orderMap, live);
      n := |orderMap|;
    }
  }

  // The order table after a trade: the order shrinks, and leaves at zero.
  function Reduced(orders: map<uint64, Order>, o: Order, tradeQuantity: uint32): map<uint64, Order>
    requires tradeQuantity <= o.quantity
  {
    if o.quantity - tradeQuantity == 0 then orders - {o.id}
    else orders[o.id := o.(quantity := o.quantity - tradeQuantity)]
  }

  // The true best level of a side: its price is the extreme live price and its queue is that
  // of the live orders there; there is none exactly when no order of the side is live.
  ghost predicate BestOf(best: Option<PriceLevel>, l: Orders, side: Side) {
    match best
    case None => forall i :: 0 <= i < |l| ==> l[i].side != side
    case Some(level) =>
      && (exists i :: 0 <= i < |l| && At(l[i], side, level.price))
      && (forall i :: 0 <= i < |l| && l[i].side == side ==>
            if side.Buy? then l[i].price <= level.price else level.price <= l[i].price)
      && level.orderIds == LevelIds(l, side, level.price)
  }

  lemma NoLevels(levels: SideMap, l: Orders, side: Side)
    requires Shape(levels, l, side) && levels == map[]
    ensures forall i :: 0 <= i < |l| ==> l[i].side != side
  {
    forall i | 0 <= i < |l| ensures l[i].side != side {
      if l[i].side == side {
        LiveLevelExists(levels, l, i);
      }
    }
  }

  lemma FirstIsBest(levels: SideMap, l: Orders, side: Side)
    requires Shape(levels, l, side) && levels != map[]
    ensures BestOf(Some(levels[First(levels, side)]), l, side)
    ensures levels[First(levels, side)].price == First(levels, side)
  {
    var p := First(levels, side);
    assert LevelFits(levels, l, side, p);
    LevelIdsAreLive(l, side, p, LevelIds(l, side, p)[0]);
    forall i | 0 <= i < |l| && l[i].side == side
      ensures if side.Buy? then l[i].price <= p else p <= l[i].price
    {
      LiveLevelExists(levels, l, i);
    }
  }
}
