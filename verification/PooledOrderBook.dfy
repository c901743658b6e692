// The pooled order book: the same containers, with the orders kept in recycled
// pool slots that the order table points to.
module PooledOrderBooks {
  import opened Market
  import opened Ledger
  import opened LedgerLaws
  import opened Levels
  import opened Rules
  import opened OrderBooks
  import opened ObjectPools
  import opened PooledLedger

  // ---- The order table over the slots ----

  // The table points to exactly the slots in use, which hold the objects, and each order carries its own key.
  ghost predicate Slots(table: map<uint64, nat>, inUse: seq<bool>, storage: seq<Option<Order>>) {
    && |inUse| == |storage|
    && (forall slot :: 0 <= slot < |storage| ==> (inUse[slot] <==> storage[slot].Some?))
    && (forall id :: id in table ==>
          table[id] < |storage| && storage[table[id]].Some? && storage[table[id]].value.id == id)
    && (forall slot :: 0 <= slot < |storage| && storage[slot].Some? ==>
          storage[slot].value.id in table && table[storage[slot].value.id] == slot)
  }

  // The table with every pointer followed.
  ghost function Deref(table: map<uint64, nat>, inUse: seq<bool>, storage: seq<Option<Order>>): map<uint64, Order>
    requires Slots(table, inUse, storage)
  {
    map id | id in table :: storage[table[id]].value
  }

  lemma PointAt(table: map<uint64, nat>, inUse: seq<bool>, storage: seq<Option<Order>>, slot: nat, o: Order)
    requires Slots(table, inUse, storage)
    requires slot < |storage| && !inUse[slot] && o.id !in table
    ensures Slots(table[o.id := slot], inUse[slot := true], storage[slot := Some(o)])
    ensures Deref(table[o.id := slot], inUse[slot := true], storage[slot := Some(o)])
         == Deref(table, inUse, storage)[o.id := o]
  {}

  lemma WriteThrough(table: map<uint64, nat>, inUse: seq<bool>, storage: seq<Option<Order>>, o: Order)
    requires Slots(table, inUse, storage) && o.id in table
    ensures Slots(table, inUse, storage[table[o.id] := Some(o)])
    ensures Deref(table, inUse, storage[table[o.id] := Some(o)]) == Deref(table, inUse, storage)[o.id := o]
  {}

  lemma Release(table: map<uint64, nat>, inUse: seq<bool>, storage: seq<Option<Order>>, id: uint64)
    requires Slots(table, inUse, storage) && id in table
    ensures Slots(table - {id}, inUse[table[id] := false], storage[table[id] := None])
    ensures Deref(table - {id}, inUse[table[id] := false], storage[table[id] := None])
         == Deref(table, inUse, storage) - {id}
  {}

  // The table has one pointer per live order.
  lemma PointersMatchOrders(table: map<uint64, nat>, inUse: seq<bool>, storage: seq<Option<Order>>, l: Orders)
    requires Slots(table, inUse, storage)
    requires Distinct(l) && OrdersAgree(Deref(table, inUse, storage), l)
    ensures |table| == |l|
  {
    TableSize(Deref(table, inUse, storage), l);
    assert table.Keys == Deref(table, inUse, storage).Keys;
  }

  lemma ModifyEdits(levels: SideMap, o: Order, quantity: uint32)
    requires o.price in levels
    ensures WithTotal(levels, o.price, ClampedTotal(levels[o.price].total, o.quantity, quantity))
         == Edited(levels, o, [o.(quantity := quantity)], true)
  {}

  // The table after a trade, as the code gets there: the quantity first, then the removal.
  lemma FilledTable(t: map<uint64, Order>, id: uint64, tradeQuantity: uint32, rest: Orders)
    requires id in t && tradeQuantity <= t[id].quantity
    requires var o := t[id];
      rest == if tradeQuantity < o.quantity then [o.(quantity := o.quantity - tradeQuantity)] else []
    ensures var shrunk := t[id := t[id].(quantity := t[id].quantity - tradeQuantity)];
      && Put(t, id, rest) == (if shrunk[id].quantity != 0 then shrunk else shrunk - {id})
      && |rest| == if shrunk[id].quantity != 0 then 1 else 0
  {}

  class PooledOrderBook {
    var bids: SideMap
    var asks: SideMap
    var orderMap: map<uint64, nat>
    const pool: ObjectPool<Order>
    var poolExhaustions: nat
    ghost var orders: map<uint64, Order>
    ghost var live: Orders

    // `orders` is the order table with every pointer followed.
    ghost predicate Pointed()
      reads this, pool, pool.storage, pool.inUse
    {
      && pool.Valid()
      && Slots(orderMap, pool.inUse[..], pool.storage[..])
      && orders == Deref(orderMap, pool.inUse[..], pool.storage[..])
    }

    ghost predicate Valid()
      reads this, pool, pool.storage, pool.inUse
    {
      && Pointed()
      && Holds(orders, bids, asks, live)
      && |live| + |pool.freeList| == pool.capacity
    }

    ghost predicate Totals()
      reads this
    {
      Exact(bids, asks, live)
    }

    constructor (maxOrders: nat)
      ensures Valid() && Totals() && live == [] && poolExhaustions == 0 && bids == asks == map[]
      ensures pool.capacity == maxOrders && pool.allocations == pool.deallocations == 0
      ensures fresh(pool) && fresh(pool.storage) && fresh(pool.inUse)
    {
      pool := new ObjectPool(maxOrders);
      bids, asks, orderMap, poolExhaustions, orders, live := map[], map[], map[], 0, map[], [];
    }

    // The reference step, the exhaustion counter, the pool counters and every cached total.
    twostate predicate Stepped(m: MarketMessage)
      reads this, pool, pool.storage, pool.inUse
    {
      && live == ApplyPooled(old(live), pool.capacity, m)
      && poolExhaustions == old(poolExhaustions) + (if Drops(old(live), pool.capacity, m) then 1 else 0)
      && pool.allocations == old(pool.allocations) + (if |live| > |old(live)| then 1 else 0)
      && pool.deallocations == old(pool.deallocations) + (if |live| < |old(live)| then 1 else 0)
      && Moved(old(bids), bids, old(asks), asks, old(live), live, m.kind.Modify?)
    }

    method OnMessage(m: MarketMessage)
      requires Valid()
      modifies this, pool, pool.storage, pool.inUse
      ensures Valid() && Stepped(m) && PooledRule(old(live), live, pool.capacity, m)
      ensures old(Totals()) ==> (Totals() <==> !ClampBites(old(live), m))
    {
      ghost var b, a, l := bids, asks, live;
      match m.kind {
        case Add => HandleAdd(m);
        case Modify => HandleModify(m);
        case Cancel => HandleCancel(m);
        case Trade => HandleTrade(m);
      }
      if Exact(b, a, l) {
        if m.kind.Modify? {
          ClampBreaksTotals(b, bids, a, asks, l, m);
        } else {
          StayExact(b, bids, a, asks, l, live);
        }
      }
    }

    method HandleAdd(m: MarketMessage)
      requires Valid() && m.kind.Add?
      modifies this, pool, pool.storage, pool.inUse
      ensures Valid() && Stepped(m) && PooledRule(old(live), live, pool.capacity, m)
    {
      ApplyObeys(live, m);
      ghost var t, b, a, l := orders, bids, asks, live;
      if m.orderId in orderMap {
        Ignored(t, b, a, l, m, false);
        return;
      }
      var order := NewOrder(OrderOf(m));
      if order.None? {
        poolExhaustions := poolExhaustions + 1;
        Refused(t, b, a, l, m);
        return;
      }
      if m.side.Buy? {
        bids := AddToLevel(bids, m);
      } else {
        asks := AddToLevel(asks, m);
      }
      Added(t, b, bids, a, asks, l, m);
      live := Apply(l, m);
    }

    method HandleModify(m: MarketMessage)
      requires Valid() && m.kind.Modify?
      modifies this, pool, pool.storage, pool.inUse
      ensures Valid() && Stepped(m) && ModifyRule(old(live), live, m)
    {
      ApplyObeys(live, m);
      ghost var t, b, a, l := orders, bids, asks, live;
      if m.orderId !in orderMap {
        Ignored(t, b, a, l, m, true);
        return;
      }
      Known(t, b, a, l, m.orderId);
      ModifyLevel(m.orderId, m.quantity);
      Updated(t, b, bids, a, asks, l, m, true);
      NothingToDrop(l, pool.capacity, m);
      live := Apply(l, m);
    }

    method HandleCancel(m: MarketMessage)
      requires Valid() && m.kind.Cancel?
      modifies this, pool, pool.storage, pool.inUse
      ensures Valid() && Stepped(m) && CancelRule(old(live), live, m)
    {
      ApplyObeys(live, m);
      ghost var t, b, a, l := orders, bids, asks, live;
      if m.orderId !in orderMap {
        Ignored(t, b, a, l, m, false);
        return;
      }
      Known(t, b, a, l, m.orderId);
      Remove(m.orderId);
      Cancelled(t, b, bids, a, asks, l, m);
      NothingToDrop(l, pool.capacity, m);
      live := Apply(l, m);
    }

    method HandleTrade(m: MarketMessage)
      requires Valid() && m.kind.Trade?
      modifies this, pool, pool.storage, pool.inUse
      ensures Valid() && Stepped(m) && TradeRule(old(live), live, m)
    {
      ApplyObeys(live, m);
      ghost var t, b, a, l := orders, bids, asks, live;
      if m.orderId !in orderMap {
        Ignored(t, b, a, l, m, false);
        return;
      }
      Known(t, b, a, l, m.orderId);
      ghost var rest := TradeLevel(m.orderId, m.quantity);
      Traded(t, b, bids, a, asks, l, m, rest);
      NothingToDrop(l, pool.capacity, m);
      live := Apply(l, m);
    }

    // ---- The level edits ----

    // The table knows the id, and the level of its order is on its side.
    ghost predicate OnLevel(id: uint64)
      reads this, pool, pool.storage, pool.inUse
    {
      Pointed() && id in orders && orders[id].price in (if orders[id].side.Buy? then bids else asks)
    }

    method ModifyLevel(id: uint64, quantity: uint32)
      requires OnLevel(id)
      modifies this`bids, this`asks, this`orders, pool.storage
      ensures var order := old(orders)[id]; var mid := [order.(quantity := quantity)];
        && bids == (if order.side.Buy? then Edited(old(bids), order, mid, true) else old(bids))
        && asks == (if order.side.Sell? then Edited(old(asks), order, mid, true) else old(asks))
        && Pointed() && orders == old(orders)[id := mid[0]]
    {
      var order := pool.Load(orderMap[id]);
      if order.side.Buy? {
        if order.price in bids {
          ModifyEdits(bids, order, quantity);
          bids := WithTotal(bids, order.price, ClampedTotal(bids[order.price].total, order.quantity, quantity));
          SetQuantity(id, quantity);
        }
      } else {
        if order.price in asks {
          ModifyEdits(asks, order, quantity);
          asks := WithTotal(asks, order.price, ClampedTotal(asks[order.price].total, order.quantity, quantity));
          SetQuantity(id, quantity);
        }
      }
    }

    method CancelLevel(id: uint64)
      requires OnLevel(id)
      modifies this`bids, this`asks
      ensures var order := orders[id];
        && bids == (if order.side.Buy? then Edited(old(bids), order, [], false) else old(bids))
        && asks == (if order.side.Sell? then Edited(old(asks), order, [], false) else old(asks))
    {
      var order := pool.Load(orderMap[id]);
      if order.side.Buy? {
        if order.price in bids {
          CancelEdits(bids, order);
          bids := CancelAtLevel(bids, order);
        }
      } else {
        if order.price in asks {
          CancelEdits(asks, order);
          asks := CancelAtLevel(asks, order);
        }
      }
    }

    method Remove(id: uint64)
      requires OnLevel(id)
      modifies this`bids, this`asks, this`orderMap, this`orders, pool`freeList, pool`deallocations,
               pool.storage, pool.inUse
      ensures var order := old(orders)[id];
        && bids == (if order.side.Buy? then Edited(old(bids), order, [], false) else old(bids))
        && asks == (if order.side.Sell? then Edited(old(asks), order, [], false) else old(asks))
        && Pointed() && orders == old(orders) - {id}
        && |pool.freeList| == old(|pool.freeList|) + 1
        && pool.deallocations == old(pool.deallocations) + 1
    {
      CancelLevel(id);
      Free(id);
    }

    method TradeLevel(id: uint64, quantity: uint32) returns (ghost rest: Orders)
      requires OnLevel(id)
      modifies this`bids, this`asks, this`orderMap, this`orders, pool`freeList, pool`deallocations,
               pool.storage, pool.inUse
      ensures var order := old(orders)[id];
        && rest == (if quantity < order.quantity then [order.(quantity := order.quantity - quantity)] else [])
        && bids == (if order.side.Buy? then Edited(old(bids), order, rest, false) else old(bids))
        && asks == (if order.side.Sell? then Edited(old(asks), order, rest, false) else old(asks))
        && Pointed() && orders == Put(old(orders), id, rest)
        && |pool.freeList| == old(|pool.freeList|) + 1 - |rest|
        && pool.deallocations == old(pool.deallocations) + 1 - |rest|
    {
      var order := pool.Load(orderMap[id]);
      var tradeQuantity := if quantity < order.quantity then quantity else order.quantity;
      rest := if quantity < order.quantity then [order.(quantity := order.quantity - quantity)] else [];
      if order.side.Buy? {
        if order.price in bids {
          TradeEdits(bids, order, tradeQuantity, rest);
          bids := TradeAtLevel(bids, order, tradeQuantity);
          Fill(id, tradeQuantity, rest);
        }
      } else {
        if order.price in asks {
          TradeEdits(asks, order, tradeQuantity, rest);
          asks := TradeAtLevel(asks, order, tradeQuantity);
          Fill(id, tradeQuantity, rest);
        }
      }
    }

    // ---- The edits of table and pool ----

    // Allocates a slot for an order of an unknown id and points the table to it.
    method NewOrder(o: Order) returns (order: Option<nat>)
      requires Pointed() && o.id !in orders
      modifies this`orderMap, this`orders, pool`freeList, pool`allocations, pool.storage, pool.inUse
      ensures Pointed() && (order.None? <==> old(pool.freeList) == [])
      ensures orders == if order.Some? then old(orders)[o.id := o] else old(orders)
      ensures |pool.freeList| == old(|pool.freeList|) - if order.Some? then 1 else 0
      ensures pool.allocations == old(pool.allocations) + if order.Some? then 1 else 0
    {
      ghost var p, u, s := orderMap, pool.inUse[..], pool.storage[..];
      order := pool.Allocate(o);
      if order.None? {
        return;
      }
      orderMap := orderMap[o.id := order.value];
      orders := orders[o.id := o];
      PointAt(p, u, s, order.value, o);
    }

    method SetQuantity(id: uint64, quantity: uint32)
      requires Pointed() && id in orders
      modifies this`orders, pool.storage
      ensures Pointed() && orders == old(orders)[id := old(orders)[id].(quantity := quantity)]
    {
      ghost var p, u, s := orderMap, pool.inUse[..], pool.storage[..];
      var order := pool.Load(orderMap[id]);
      order := order.(quantity := quantity);
      pool.Store(orderMap[id], order);
      orders := orders[id := order];
      WriteThrough(p, u, s, order);
    }

    // The end of a trade: the quantity shrinks, and a filled order leaves table and pool.
    method Fill(id: uint64, tradeQuantity: uint32, ghost rest: Orders)
      requires Pointed() && id in orders && tradeQuantity <= orders[id].quantity
      requires var o := orders[id];
        rest == if tradeQuantity < o.quantity then [o.(quantity := o.quantity - tradeQuantity)] else []
      modifies this`orderMap, this`orders, pool`freeList, pool`deallocations, pool.storage, pool.inUse
      ensures Pointed() && orders == Put(old(orders), id, rest)
      ensures |pool.freeList| == old(|pool.freeList|) + 1 - |rest|
      ensures pool.deallocations == old(pool.deallocations) + 1 - |rest|
    {
      FilledTable(orders, id, tradeQuantity, rest);
      var order := pool.Load(orderMap[id]);
      SetQuantity(id, order.quantity - tradeQuantity);
      order := pool.Load(orderMap[id]);
      if order.quantity != 0 {
        return;
      }
      Free(id);
    }

    // Takes an order out of the table and gives its slot back.
    method Free(id: uint64)
      requires Pointed() && id in orders
      modifies this`orderMap, this`orders, pool`freeList, pool`deallocations, pool.storage, pool.inUse
      ensures Pointed() && orders == old(orders) - {id}
      ensures |pool.freeList| == old(|pool.freeList|) + 1
      ensures pool.deallocations == old(pool.deallocations) + 1
    {
      Release(orderMap, pool.inUse[..], pool.storage[..], id);
      var slot := orderMap[id];
      orderMap := orderMap - {id};
      orders := orders - {id};
      pool.Deallocate(Some(slot));
    }

    method TotalOrders() returns (n: nat)
      requires Valid()
      ensures n == |orderMap| == |live| && n == pool.allocations - pool.deallocations
    {
      PointersMatchOrders(orderMap, pool.inUse[..], pool.storage[..], live);
      n := |orderMap|;
    }

    method BestBid() returns (best: Option<PriceLevel>)
      requires Valid()
      ensures BestOf(best, live, Buy)
      ensures best.Some? ==> forall i :: 0 <= i < |live| && live[i].side.Buy? ==> live[i].price <= best.value.price
      ensures Totals() && best.Some? ==> best.value.total == LevelSum(live, Buy, best.value.price) % 0x1_0000_0000
    {
      if bids == map[] {
        NoLevels(bids, live, Buy);
        return None;
      }
      FirstIsBest(bids, live, Buy);
      best := Some(bids[First(bids, Buy)]);
    }

    method BestAsk() returns (best: Option<PriceLevel>)
      requires Valid()
      ensures BestOf(best, live, Sell)
      ensures best.Some? ==> forall i :: 0 <= i < |live| && live[i].side.Sell? ==> best.value.price <= live[i].price
      ensures Totals() && best.Some? ==> best.value.total == LevelSum(live, Sell, best.value.price) % 0x1_0000_0000
    {
      if asks == map[] {
        NoLevels(asks, live, Sell);
        return None;
      }
      FirstIsBest(asks, live, Sell);
      best := Some(asks[First(asks, Sell)]);
    }
  }

  // The int64 Modify: exact, and zero in place of anything negative.
  function ClampedTotal(total: uint32, quantity: uint32, newQuantity: uint32): (r: uint32)
    ensures r == Shifted(total, newQuantity - quantity, true)
    ensures total + newQuantity <= quantity ==> r == 0
    ensures quantity <= total + newQuantity < quantity + 0x1_0000_0000 ==> r == total + newQuantity - quantity
  {
    var updated := total + (newQuantity - quantity);
    if updated > 0 then updated % TWO32 else 0
  }

  // A fresh Add that the full pool refuses leaves every total where it was.
  lemma Refused(t: map<uint64, Order>, b: SideMap, a: SideMap, l: Orders, m: MarketMessage)
    requires Holds(t, b, a, l) && m.kind.Add? && m.orderId !in t
    ensures FreshAdd(l, m) && Moved(b, b, a, a, l, l, false)
  {
    assert Get(t, m.orderId) == Find(l, m.orderId);
  }
}
