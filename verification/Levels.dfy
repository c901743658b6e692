// One side of a book: price levels with their id queue and cached 32-bit total,
// the in-place edits the handlers make to them, and what each edit means for
// the list of live orders.
module Levels {
  import opened Market
  import opened Ledger

  type SideMap = map<int64, PriceLevel>

  // ---- The edits ----

  // Erases the first occurrence of id, if there is one.
  function Without(ids: seq<uint64>, id: uint64): seq<uint64> {
    if ids == [] then []
    else if ids[0] == id then ids[1..]
    else [ids[0]] + Without(ids[1..], id)
  }

  function AddToLevel(levels: SideMap, m: MarketMessage): SideMap {
    if m.price in levels then
      var level := levels[m.price];
      levels[m.price := level.(orderIds := level.orderIds + [m.orderId],
                               total := (level.total + m.quantity) % TWO32)]
    else
      levels[m.price := PriceLevel(m.price, [m.orderId], m.quantity)]
  }

  function WithTotal(levels: SideMap, price: int64, total: uint32): SideMap
    requires price in levels
  {
    levels[price := levels[price].(total := total)]
  }

  // Takes id out of its queue and drops the level when the queue is empty.
  function Dequeue(levels: SideMap, price: int64, id: uint64): SideMap
    requires price in levels
  {
    var ids := Without(levels[price].orderIds, id);
    if ids == [] then levels - {price} else levels[price := levels[price].(orderIds := ids)]
  }

  function CancelAtLevel(levels: SideMap, o: Order): SideMap
    requires o.price in levels
  {
    Dequeue(WithTotal(levels, o.price, (levels[o.price].total - o.quantity) % TWO32), o.price, o.id)
  }

  function TradeAtLevel(levels: SideMap, o: Order, tradeQuantity: uint32): SideMap
    requires o.price in levels
  {
    var moved := WithTotal(levels, o.price, (levels[o.price].total - tradeQuantity) % TWO32);
    if tradeQuantity == o.quantity then Dequeue(moved, o.price, o.id) else moved
  }

  // ---- What a side means ----

  ghost predicate LevelFits(levels: SideMap, l: Orders, side: Side, p: int64) {
    && (p in levels <==> LevelIds(l, side, p) != [])
    && (p in levels ==> levels[p].price == p && levels[p].orderIds == LevelIds(l, side, p))
  }

  // The levels are exactly the non-empty queues of the live orders of that side.
  ghost predicate Shape(levels: SideMap, l: Orders, side: Side) {
    forall p: int64 :: LevelFits(levels, l, side, p)
  }

  // Every cached total is the exact sum of the live quantities, modulo 2^32.
  ghost predicate TotalsAgree(levels: SideMap, l: Orders, side: Side) {
    forall p: int64 :: p in levels ==> levels[p].total == LevelSum(l, side, p) % TWO32
  }

  // A cached total moved by d in 32-bit arithmetic, or cut off at zero first.
  function Shifted(total: uint32, d: int, clamp: bool): uint32 {
    if clamp && total + d < 0 then 0 else (total + d) % TWO32
  }

  ghost predicate TotalMoved(before: SideMap, after: SideMap, l: Orders, l': Orders, side: Side, clamp: bool,
                             p: int64)
  {
    p in after ==>
      after[p].total == if p in before
                        then Shifted(before[p].total, LevelSum(l', side, p) - LevelSum(l, side, p), clamp)
                        else LevelSum(l', side, p) % TWO32
  }

  // Every cached total moved by exactly the change of the exact sum; a new level starts at its sum.
  ghost predicate TotalsMoved(before: SideMap, after: SideMap, l: Orders, l': Orders, side: Side, clamp: bool) {
    forall p: int64 :: TotalMoved(before, after, l, l', side, clamp, p)
  }

  lemma ShiftExact(sum: nat, sum': nat)
    ensures (sum % TWO32 + (sum' - sum)) % TWO32 == sum' % TWO32
  {
    var q := sum / TWO32;
    assert sum % TWO32 + (sum' - sum) == sum' - q * TWO32;
    ModMultiple(sum', q);
  }

  lemma {:induction false} ModMultiple(x: int, q: nat)
    ensures (x - q * TWO32) % TWO32 == x % TWO32
  {
    if q > 0 {
      ModMultiple(x, q - 1);
      assert (x - (q - 1) * TWO32 - TWO32) % TWO32 == (x - (q - 1) * TWO32) % TWO32;
    }
  }

  lemma MovedTotalsAgree(before: SideMap, after: SideMap, l: Orders, l': Orders, side: Side)
    requires TotalsAgree(before, l, side)
    requires TotalsMoved(before, after, l, l', side, false)
    ensures TotalsAgree(after, l', side)
  {
    forall p: int64 | p in after ensures after[p].total == LevelSum(l', side, p) % TWO32 {
      assert TotalMoved(before, after, l, l', side, false, p);
      ShiftExact(LevelSum(l, side, p), LevelSum(l', side, p));
    }
  }

  // ---- Add ----

  lemma AppendLevel(l: Orders, o: Order, side: Side, price: int64)
    ensures LevelIds(l + [o], side, price) == LevelIds(l, side, price) + if At(o, side, price) then [o.id] else []
    ensures LevelSum(l + [o], side, price) == LevelSum(l, side, price) + if At(o, side, price) then o.quantity else 0
  {
    LevelConcat(l, [o], side, price);
  }

  lemma {:induction false} EmptyLevel(l: Orders, side: Side, price: int64)
    ensures LevelIds(l, side, price) == [] ==> LevelSum(l, side, price) == 0
  {
    if l != [] {
      EmptyLevel(l[1..], side, price);
    }
  }

  lemma AddedSide(levels: SideMap, l: Orders, m: MarketMessage, side: Side)
    requires Shape(levels, l, side)
    ensures var after, l' := if m.side == side then AddToLevel(levels, m) else levels, l + [OrderOf(m)];
      Shape(after, l', side) && TotalsMoved(levels, after, l, l', side, false)
  {
    var after, l' := if m.side == side then AddToLevel(levels, m) else levels, l + [OrderOf(m)];
    forall p: int64
      ensures LevelFits(after, l', side, p) && TotalMoved(levels, after, l, l', side, false, p)
    {
      assert LevelFits(levels, l, side, p);
      AppendLevel(l, OrderOf(m), side, p);
      EmptyLevel(l, side, p);
    }
  }

  // ---- Modify, Cancel, Trade: one entry of the list is replaced or removed ----

  lemma {:induction false} WithoutMiddle(a: seq<uint64>, id: uint64, b: seq<uint64>)
    requires id !in a
    ensures Without(a + [id] + b, id) == a + b
  {
    if a != [] {
      assert (a + [id] + b)[1..] == a[1..] + [id] + b;
      WithoutMiddle(a[1..], id, b);
      assert [a[0]] + (a[1..] + b) == a + b;
    } else {
      assert a + [id] + b == [id] + b && a + b == b;
    }
  }

  // The list after l[k] is replaced by mid, which is the same order with another quantity, or nothing.
  ghost predicate Replaces(l: Orders, k: nat, mid: Orders) {
    && Distinct(l) && k < |l|
    && |mid| <= 1
    && (mid != [] ==> mid[0] == l[k].(quantity := mid[0].quantity))
  }

  function QuantityOf(mid: Orders): nat
    requires |mid| <= 1
  {
    if mid == [] then 0 else mid[0].quantity
  }

  lemma SplicedSum(l: Orders, k: nat, mid: Orders, side: Side, price: int64)
    requires Replaces(l, k, mid)
    ensures LevelSum(Splice(l, k, mid), side, price) - LevelSum(l, side, price)
         == if At(l[k], side, price) then QuantityOf(mid) - l[k].quantity else 0
  {
    LevelSplice(l, k, mid, side, price);
    LevelSplice(l, k, [l[k]], side, price);
    SpliceSelf(l, k);
  }

  lemma SplicedIds(l: Orders, k: nat, mid: Orders, side: Side, price: int64)
    requires Replaces(l, k, mid)
    ensures var ids, ids' := LevelIds(l, side, price), LevelIds(Splice(l, k, mid), side, price);
      if At(l[k], side, price) then l[k].id in ids && ids' == (if mid == [] then Without(ids, l[k].id) else ids)
      else ids' == ids
  {
    var id, a, b := l[k].id, LevelIds(l[..k], side, price), LevelIds(l[k + 1..], side, price);
    QueueAround(l, k, [l[k]], side, price);
    QueueAround(l, k, mid, side, price);
    SpliceSelf(l, k);
    if At(l[k], side, price) {
      NotQueued(l[..k], side, price, id);
      ErasedMiddle(a, id, b);
    }
  }

  lemma ErasedMiddle(a: seq<uint64>, id: uint64, b: seq<uint64>)
    requires id !in a
    ensures id in a + [id] + b && a + [] + b == Without(a + [id] + b, id)
  {
    assert (a + [id] + b)[|a|] == id;
    assert a + [] + b == a + b;
    WithoutMiddle(a, id, b);
  }

  lemma QueueAround(l: Orders, k: nat, mid: Orders, side: Side, price: int64)
    requires Replaces(l, k, mid)
    ensures LevelIds(Splice(l, k, mid), side, price)
         == LevelIds(l[..k], side, price) + (if mid != [] && At(l[k], side, price) then [l[k].id] else [])
            + LevelIds(l[k + 1..], side, price)
  {
    LevelSplice(l, k, mid, side, price);
    assert mid != [] ==> mid[1..] == [];
  }

  // The handlers' edit of a side: shift the total, then drop the id when the order goes.
  function Edited(levels: SideMap, o: Order, mid: Orders, clamp: bool): SideMap
    requires o.price in levels && |mid| <= 1
  {
    var moved := WithTotal(levels, o.price, Shifted(levels[o.price].total, QuantityOf(mid) - o.quantity, clamp));
    if mid == [] then Dequeue(moved, o.price, o.id) else moved
  }

  lemma SplicedSide(levels: SideMap, after: SideMap, l: Orders, k: nat, mid: Orders, side: Side, clamp: bool)
    requires Replaces(l, k, mid) && Shape(levels, l, side)
    requires l[k].side != side ==> after == levels
    requires l[k].side == side ==> l[k].price in levels && after == Edited(levels, l[k], mid, clamp)
    ensures Shape(after, Splice(l, k, mid), side)
    ensures TotalsMoved(levels, after, l, Splice(l, k, mid), side, clamp)
  {
    forall p: int64
      ensures LevelFits(after, Splice(l, k, mid), side, p)
      ensures TotalMoved(levels, after, l, Splice(l, k, mid), side, clamp, p)
    {
      SplicedLevel(levels, after, l, k, mid, Splice(l, k, mid), side, clamp, p);
    }
  }

  // The edits of a level, for all prices: its queue, and its total.
  lemma EditedIds(levels: SideMap, o: Order, mid: Orders, clamp: bool, p: int64)
    requires o.price in levels && |mid| <= 1
    ensures var after := Edited(levels, o, mid, clamp);
      && (p != o.price ==> (p in after <==> p in levels) && (p in levels ==> after[p] == levels[p]))
      && (p == o.price ==>
            var ids := if mid == [] then Without(levels[p].orderIds, o.id) else levels[p].orderIds;
            && (p in after <==> mid != [] || ids != [])
            && (p in after ==> after[p].orderIds == ids && after[p].price == levels[p].price)
            && (p in after ==> after[p].total == Shifted(levels[p].total, QuantityOf(mid) - o.quantity, clamp)))
  {}

  lemma SplicedLevel(levels: SideMap, after: SideMap, l: Orders, k: nat, mid: Orders, l': Orders, side: Side,
                     clamp: bool, p: int64)
    requires Replaces(l, k, mid) && Shape(levels, l, side) && l' == Splice(l, k, mid)
    requires l[k].side != side ==> after == levels
    requires l[k].side == side ==> l[k].price in levels && after == Edited(levels, l[k], mid, clamp)
    ensures LevelFits(after, l', side, p) && TotalMoved(levels, after, l, l', side, clamp, p)
  {
    assert LevelFits(levels, l, side, p);
    SplicedSum(l, k, mid, side, p);
    SplicedIds(l, k, mid, side, p);
    if l[k].side == side {
      EditedIds(levels, l[k], mid, clamp, p);
    }
  }

  lemma LiveLevelExists(levels: SideMap, l: Orders, k: nat)
    requires k < |l| && Shape(levels, l, l[k].side)
    ensures l[k].price in levels
  {
    LevelIdsAreLive(l, l[k].side, l[k].price, l[k].id);
    assert LevelFits(levels, l, l[k].side, l[k].price);
  }

  // ---- Best price: the first entry of the ordered map ----

  predicate Better(side: Side, p: int64, q: int64) {
    if side.Buy? then p >= q else p <= q
  }

  lemma {:induction false} BestExists(prices: set<int64>, side: Side)
    requires prices != {}
    ensures exists best :: best in prices && forall p :: p in prices ==> Better(side, best, p)
    decreases |prices|
  {
    var some :| some in prices;
    var rest := prices - {some};
    if rest == {} {
      assert prices == {some};
    } else {
      BestExists(rest, side);
      var other :| other in rest && forall p :: p in rest ==> Better(side, other, p);
      var best := if Better(side, other, some) then other else some;
      assert forall p :: p in prices ==> p == some || p in rest;
      assert best in prices && forall p :: p in prices ==> Better(side, best, p);
    }
  }

  function First(levels: SideMap, side: Side): (best: int64)
    requires levels != map[]
    ensures best in levels
    ensures side.Buy? ==> forall p :: p in levels ==> p <= best
    ensures side.Sell? ==> forall p :: p in levels ==> best <= p
  {
    assert exists p :: p in levels.Keys;
    BestExists(levels.Keys, side);
    var best :| best in levels.Keys && forall p :: p in levels.Keys ==> Better(side, best, p);
    best
  }
}
