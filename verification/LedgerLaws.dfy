// Laws of the reference model over whole streams: orders are independent of
// each other, messages on different orders commute, and every price level
// queues its orders by time priority.
module LedgerLaws {
  import opened Market
  import opened Ledger

  // ---- Per-order independence ----

  function Only(msgs: seq<MarketMessage>, id: uint64): seq<MarketMessage> {
    if msgs == [] then [] else
      var init, last := msgs[..|msgs| - 1], msgs[|msgs| - 1];
      Only(init, id) + (if last.orderId == id then [last] else [])
  }

  function RunOne(o: Option<Order>, msgs: seq<MarketMessage>): Option<Order> {
    if msgs == [] then o else OutcomeFor(RunOne(o, msgs[..|msgs| - 1]), msgs[|msgs| - 1])
  }

  lemma RunOneSnoc(o: Option<Order>, msgs: seq<MarketMessage>, m: MarketMessage)
    ensures RunOne(o, msgs + [m]) == OutcomeFor(RunOne(o, msgs), m)
  {
    assert (msgs + [m])[..|msgs|] == msgs;
  }

  lemma {:induction false} RunFind(l: Orders, msgs: seq<MarketMessage>, id: uint64)
    requires Distinct(l)
    ensures Find(Run(l, msgs), id) == RunOne(Find(l, id), Only(msgs, id))
  {
    if msgs != [] {
      var init, last := msgs[..|msgs| - 1], msgs[|msgs| - 1];
      RunFind(l, init, id);
      RunDistinct(l, init);
      ApplyFind(Run(l, init), last, id);
      RunOneSnoc(Find(l, id), Only(init, id), last);
      assert Only(init, id) + [] == Only(init, id);
    }
  }

  lemma OnlySnoc(msgs: seq<MarketMessage>, m: MarketMessage, id: uint64)
    ensures Only(msgs + [m], id) == if m.orderId == id then Only(msgs, id) + [m] else Only(msgs, id)
  {
    assert (msgs + [m])[..|msgs|] == msgs;
    assert Only(msgs, id) + [] == Only(msgs, id);
  }

  lemma {:induction false} OnlyIdempotent(msgs: seq<MarketMessage>, id: uint64)
    ensures Only(Only(msgs, id), id) == Only(msgs, id)
  {
    if msgs != [] {
      var init, last := msgs[..|msgs| - 1], msgs[|msgs| - 1];
      assert msgs == init + [last];
      OnlyIdempotent(init, id);
      OnlySnoc(init, last, id);
      if last.orderId == id {
        OnlySnoc(Only(init, id), last, id);
      }
    }
  }

  // The stored state of an order after any stream is what its own messages alone produce.
  lemma Independence(msgs: seq<MarketMessage>, id: uint64)
    ensures Find(Run([], msgs), id) == Find(Run([], Only(msgs, id)), id)
  {
    RunFind([], msgs, id);
    RunFind([], Only(msgs, id), id);
    OnlyIdempotent(msgs, id);
  }

  // ---- Commutation ----

  predicate FreshAdd(l: Orders, m: MarketMessage) {
    m.kind.Add? && !IsLive(l, m.orderId)
  }

  // Two lists that make the same book, now and, since Apply keeps this, after any further stream.
  ghost predicate SameBook(a: Orders, b: Orders) {
    && (forall id: uint64 :: Find(a, id) == Find(b, id))
    && (forall side, price: int64 :: LevelIds(a, side, price) == LevelIds(b, side, price))
    && (forall side, price: int64 :: LevelSum(a, side, price) == LevelSum(b, side, price))
  }

  lemma SpliceThenAppend(l: Orders, k: nat, mid: Orders, o: Order)
    requires k < |l|
    ensures Splice(l + [o], k, mid) == Splice(l, k, mid) + [o]
  {
    assert (l + [o])[..k] == l[..k];
    assert (l + [o])[k + 1..] == l[k + 1..] + [o];
  }

  // The list after the entries at j and at k are replaced by a and b.
  function SplicedBoth(l: Orders, j: nat, k: nat, a: Orders, b: Orders): Orders
    requires j < k < |l|
  {
    l[..j] + a + l[j + 1..k] + b + l[k + 1..]
  }

  lemma EarlierFirst(l: Orders, j: nat, k: nat, a: Orders, b: Orders, x: Orders, k': nat)
    requires j < k < |l| && x == Splice(l, j, a) && k' == k - 1 + |a|
    ensures k' < |x| && x[k'] == l[k] && Splice(x, k', b) == SplicedBoth(l, j, k, a, b)
  {
    assert x == (l[..j] + a + l[j + 1..k]) + [l[k]] + l[k + 1..];
  }

  lemma LaterFirst(l: Orders, j: nat, k: nat, a: Orders, b: Orders)
    requires j < k < |l|
    ensures j < |Splice(l, k, b)| && Splice(l, k, b)[j] == l[j]
    ensures Splice(Splice(l, k, b), j, a) == SplicedBoth(l, j, k, a, b)
  {
    assert Splice(l, k, b) == l[..j] + [l[j]] + (l[j + 1..k] + b + l[k + 1..]);
    assert l[..j] + a + (l[j + 1..k] + b + l[k + 1..]) == SplicedBoth(l, j, k, a, b);
  }

  // Where an entry of another id is after one splice.
  lemma IndexAfterSplice(l: Orders, k: nat, mid: Orders, j: nat)
    requires Distinct(l) && k < |l| && j < |l| && j != k
    requires |mid| <= 1 && (mid != [] ==> mid[0].id == l[k].id)
    ensures IndexOf(Splice(l, k, mid), l[j].id) == (if k < j then j - 1 + |mid| else j) < |Splice(l, k, mid)|
  {
    var r, j' := Splice(l, k, mid), if k < j then j - 1 + |mid| else j;
    SpliceDistinct(l, k, mid);
    assert r[j'] == l[j];
    IndexOfUnique(r, j');
  }

  lemma {:induction false} LiveAfter(l: Orders, m: MarketMessage, id: uint64)
    requires Distinct(l) && id != m.orderId
    ensures IsLive(Apply(l, m), id) == IsLive(l, id)
    ensures IsLive(l, id) ==>
      (IndexOf(Apply(l, m), id) == if IsLive(l, m.orderId) && IndexOf(l, m.orderId) < IndexOf(l, id)
                                   then IndexOf(l, id) - 1 + |Outcome(l[IndexOf(l, m.orderId)], m)|
                                   else IndexOf(l, id))
  {
    var k, j := IndexOf(l, m.orderId), IndexOf(l, id);
    if !IsLive(l, m.orderId) {
      IndexOfAppend(l, OrderOf(m), id);
    } else if IsLive(l, id) {
      IndexAfterSplice(l, k, Outcome(l[k], m), j);
    } else {
      SpliceFind(l, k, Outcome(l[k], m), id);
    }
  }

  lemma ApplyAt(l: Orders, m: MarketMessage, k: nat)
    requires k < |l| && IndexOf(l, m.orderId) == k
    ensures Apply(l, m) == Splice(l, k, Outcome(l[k], m)) && |Outcome(l[k], m)| <= 1
  {}

  lemma ApplyIs(l: Orders, m: MarketMessage, k: nat, r: Orders)
    requires IndexOf(l, m.orderId) == k < |l| && r == Splice(l, k, Outcome(l[k], m))
    ensures Apply(l, m) == r
  {}

  // The second message, when the first has dealt with an earlier order.
  lemma ApplyToLater(l: Orders, j: nat, a: Orders, x: Orders, n: MarketMessage, k: nat, r: Orders)
    requires Distinct(l) && j < k == IndexOf(l, n.orderId) < |l|
    requires |a| <= 1 && (a != [] ==> a[0].id == l[j].id) && x == Splice(l, j, a)
    requires r == SplicedBoth(l, j, k, a, Outcome(l[k], n))
    ensures Apply(x, n) == r
  {
    EarlierFirst(l, j, k, a, Outcome(l[k], n), x, k - 1 + |a|);
    IndexAfterSplice(l, j, a, k);
    ApplyIs(x, n, k - 1 + |a|, r);
  }

  lemma ApplyEarlierFirst(l: Orders, m: MarketMessage, n: MarketMessage, j: nat, k: nat, r: Orders)
    requires Distinct(l) && m.orderId != n.orderId
    requires j == IndexOf(l, m.orderId) < k == IndexOf(l, n.orderId) < |l|
    requires r == SplicedBoth(l, j, k, Outcome(l[j], m), Outcome(l[k], n))
    ensures Apply(Apply(l, m), n) == r
  {
    var x := Splice(l, j, Outcome(l[j], m));
    ApplyIs(l, m, j, x);
    ApplyToLater(l, j, Outcome(l[j], m), x, n, k, r);
  }

  lemma ApplyLaterFirst(l: Orders, m: MarketMessage, n: MarketMessage, j: nat, k: nat, r: Orders)
    requires Distinct(l) && m.orderId != n.orderId
    requires j == IndexOf(l, m.orderId) < k == IndexOf(l, n.orderId) < |l|
    requires r == SplicedBoth(l, j, k, Outcome(l[j], m), Outcome(l[k], n))
    ensures Apply(Apply(l, n), m) == r
  {
    var b := Outcome(l[k], n);
    var x := Splice(l, k, b);
    LaterFirst(l, j, k, Outcome(l[j], m), b);
    IndexAfterSplice(l, k, b, j);
    ApplyIs(l, n, k, x);
    ApplyIs(x, m, j, r);
  }

  lemma BothLiveCommute(l: Orders, m: MarketMessage, n: MarketMessage)
    requires Distinct(l) && m.orderId != n.orderId
    requires IsLive(l, m.orderId) && IsLive(l, n.orderId)
    requires IndexOf(l, m.orderId) < IndexOf(l, n.orderId)
    ensures Apply(Apply(l, m), n) == Apply(Apply(l, n), m)
  {
    var j, k := IndexOf(l, m.orderId), IndexOf(l, n.orderId);
    var r := SplicedBoth(l, j, k, Outcome(l[j], m), Outcome(l[k], n));
    ApplyEarlierFirst(l, m, n, j, k, r);
    ApplyLaterFirst(l, m, n, j, k, r);
  }

  lemma OneAddCommutes(l: Orders, m: MarketMessage, n: MarketMessage)
    requires Distinct(l) && m.orderId != n.orderId
    requires FreshAdd(l, m) && !FreshAdd(l, n)
    ensures Apply(Apply(l, m), n) == Apply(Apply(l, n), m)
  {
    LiveAfter(l, m, n.orderId);
    LiveAfter(l, n, m.orderId);
    if IsLive(l, n.orderId) {
      var k := IndexOf(l, n.orderId);
      SpliceThenAppend(l, k, Outcome(l[k], n), OrderOf(m));
    }
  }

  // Messages on different ids commute exactly when they are not two accepted Adds, and the
  // book shows the difference exactly when those two Adds meet at one price level.
  lemma Commutation(l: Orders, m: MarketMessage, n: MarketMessage)
    requires Distinct(l) && m.orderId != n.orderId
    ensures Apply(Apply(l, m), n) == Apply(Apply(l, n), m) <==> !(FreshAdd(l, m) && FreshAdd(l, n))
    ensures SameBook(Apply(Apply(l, m), n), Apply(Apply(l, n), m)) <==>
      !(FreshAdd(l, m) && FreshAdd(l, n) && m.side == n.side && m.price == n.price)
  {
    LiveAfter(l, m, n.orderId);
    LiveAfter(l, n, m.orderId);
    if FreshAdd(l, m) && FreshAdd(l, n) {
      TwoAdds(l, m, n);
    } else if FreshAdd(l, m) {
      OneAddCommutes(l, m, n);
    } else if FreshAdd(l, n) {
      OneAddCommutes(l, n, m);
    } else if IsLive(l, m.orderId) && IsLive(l, n.orderId) {
      if IndexOf(l, m.orderId) < IndexOf(l, n.orderId) {
        BothLiveCommute(l, m, n);
      } else {
        BothLiveCommute(l, n, m);
      }
    }
  }

  lemma TwoAdds(l: Orders, m: MarketMessage, n: MarketMessage)
    requires Distinct(l) && m.orderId != n.orderId && FreshAdd(l, m) && FreshAdd(l, n)
    ensures Apply(Apply(l, m), n) != Apply(Apply(l, n), m)
    ensures SameBook(Apply(Apply(l, m), n), Apply(Apply(l, n), m)) <==> !(m.side == n.side && m.price == n.price)
  {
    var a, b := OrderOf(m), OrderOf(n);
    var x, y := Apply(Apply(l, m), n), Apply(Apply(l, n), m);
    LiveAfter(l, m, n.orderId);
    LiveAfter(l, n, m.orderId);
    assert x == l + [a] + [b] && y == l + [b] + [a];
    assert x[|l|] == a && y[|l|] == b;
    forall id: uint64 ensures Find(x, id) == Find(y, id) {
      ApplyDistinct(l, m);
      ApplyDistinct(l, n);
      ApplyFind(l, m, id);
      ApplyFind(l, n, id);
      ApplyFind(Apply(l, m), n, id);
      ApplyFind(Apply(l, n), m, id);
    }
    forall side, price: int64
      ensures LevelSum(x, side, price) == LevelSum(y, side, price)
      ensures LevelIds(x, side, price) == LevelIds(y, side, price) <==>
        !(At(a, side, price) && At(b, side, price))
    {
      LevelConcat(l + [a], [b], side, price);
      LevelConcat(l, [a], side, price);
      LevelConcat(l + [b], [a], side, price);
      LevelConcat(l, [b], side, price);
      var ids := LevelIds(l, side, price);
      if At(a, side, price) && At(b, side, price) {
        assert LevelIds(x, side, price)[|ids|] == a.id;
        assert LevelIds(y, side, price)[|ids|] == b.id;
      }
    }
    if m.side == n.side && m.price == n.price {
      assert LevelIds(x, m.side, m.price) != LevelIds(y, m.side, m.price);
    }
  }

  // ---- Undo and fusion ----

  lemma AddThenCancel(l: Orders, m: MarketMessage, c: MarketMessage)
    requires Distinct(l) && FreshAdd(l, m) && c.kind.Cancel? && c.orderId == m.orderId
    ensures Apply(Apply(l, m), c) == l
  {
    IndexOfAppend(l, OrderOf(m), m.orderId);
  }

  lemma TradesFuse(l: Orders, m: MarketMessage, n: MarketMessage, both: MarketMessage)
    requires Distinct(l)
    requires m.kind.Trade? && n.kind.Trade? && both.kind.Trade?
    requires m.orderId == n.orderId == both.orderId
    requires both.quantity == m.quantity + n.quantity
    ensures Apply(Apply(l, m), n) == Apply(l, both)
  {
    if IsLive(l, m.orderId) {
      var k := IndexOf(l, m.orderId);
      var mid := Outcome(l[k], m);
      var r := Splice(l, k, mid);
      SpliceFind(l, k, mid, m.orderId);
      if mid != [] {
        SpliceDistinct(l, k, mid);
        assert r[k] == mid[0];
        IndexOfUnique(r, k);
        assert r[..k] == l[..k] && r[k + 1..] == l[k + 1..];
      }
    }
  }

  // ---- Time priority ----

  // The live orders after the first t messages.
  function Upto(msgs: seq<MarketMessage>, t: nat): Orders
    requires t <= |msgs|
  {
    Run([], msgs[..t])
  }

  // The Add at position t opened the life that the order still has after the whole stream.
  ghost predicate OpenedBy(msgs: seq<MarketMessage>, t: nat, id: uint64) {
    && t < |msgs|
    && msgs[t].orderId == id
    && FreshAdd(Upto(msgs, t), msgs[t])
    && forall u :: t < u <= |msgs| ==> IsLive(Upto(msgs, u), id)
  }

  function Opening(msgs: seq<MarketMessage>, id: uint64): nat {
    if msgs == [] then 0 else
      var init, last := msgs[..|msgs| - 1], msgs[|msgs| - 1];
      if last.orderId == id && FreshAdd(Run([], init), last) then |init| else Opening(init, id)
  }

  lemma UptoInit(init: seq<MarketMessage>, last: MarketMessage, u: nat)
    requires u <= |init| + 1
    ensures Upto(init + [last], u) == if u <= |init| then Upto(init, u) else Apply(Run([], init), last)
  {
    if u <= |init| {
      assert (init + [last])[..u] == init[..u];
    } else {
      assert (init + [last])[..u] == init + [last];
      assert (init + [last])[..|init|] == init;
    }
  }

  lemma OpenedStays(init: seq<MarketMessage>, last: MarketMessage, t: nat, id: uint64)
    requires OpenedBy(init, t, id) && IsLive(Apply(Run([], init), last), id)
    ensures OpenedBy(init + [last], t, id)
  {
    UptoInit(init, last, t);
    forall u | t < u <= |init| + 1 ensures IsLive(Upto(init + [last], u), id) {
      UptoInit(init, last, u);
    }
  }

  lemma {:induction false} OpenedNow(init: seq<MarketMessage>, last: MarketMessage)
    requires FreshAdd(Run([], init), last)
    ensures OpenedBy(init + [last], |init|, last.orderId)
  {
    UptoWhole(init);
    UptoInit(init, last, |init|);
    UptoInit(init, last, |init| + 1);
    AddedIsLive(Run([], init), last);
  }

  lemma UptoWhole(msgs: seq<MarketMessage>)
    ensures Upto(msgs, |msgs|) == Run([], msgs)
  {
    assert msgs[..|msgs|] == msgs;
  }

  lemma AddedIsLive(l: Orders, m: MarketMessage)
    requires FreshAdd(l, m)
    ensures IsLive(Apply(l, m), m.orderId)
  {
    IndexOfAppend(l, OrderOf(m), m.orderId);
  }

  lemma {:induction false} OpeningOpens(msgs: seq<MarketMessage>, id: uint64)
    requires IsLive(Run([], msgs), id)
    ensures OpenedBy(msgs, Opening(msgs, id), id)
  {
    var init, last := msgs[..|msgs| - 1], msgs[|msgs| - 1];
    assert msgs == init + [last];
    if last.orderId == id && FreshAdd(Run([], init), last) {
      OpenedNow(init, last);
    } else {
      LiveBefore(init, last, id);
      OpeningOpens(init, id);
      OpenedStays(init, last, Opening(init, id), id);
    }
  }

  // An order that is live after a message that did not add it was live before, where it is now.
  lemma LiveBefore(init: seq<MarketMessage>, last: MarketMessage, id: uint64)
    requires IsLive(Apply(Run([], init), last), id)
    requires !(last.orderId == id && FreshAdd(Run([], init), last))
    ensures IsLive(Run([], init), id)
    ensures var o, o' := Find(Run([], init), id).value, Find(Apply(Run([], init), last), id).value;
      o.side == o'.side && o.price == o'.price
  {
    RunDistinct([], init);
    LiveBeforeMessage(Run([], init), last, id);
  }

  lemma LiveBeforeMessage(l: Orders, m: MarketMessage, id: uint64)
    requires Distinct(l) && IsLive(Apply(l, m), id) && !(m.orderId == id && FreshAdd(l, m))
    ensures IsLive(l, id)
    ensures Find(l, id).value.side == Find(Apply(l, m), id).value.side
    ensures Find(l, id).value.price == Find(Apply(l, m), id).value.price
  {
    ApplyFind(l, m, id);
  }

  lemma {:induction false} OpeningLevel(msgs: seq<MarketMessage>, id: uint64)
    requires IsLive(Run([], msgs), id)
    ensures Opening(msgs, id) < |msgs|
    ensures var m, o := msgs[Opening(msgs, id)], Find(Run([], msgs), id).value;
      m.side == o.side && m.price == o.price
  {
    var init, last := msgs[..|msgs| - 1], msgs[|msgs| - 1];
    if last.orderId == id && FreshAdd(Run([], init), last) {
      RunDistinct([], init);
      ApplyFind(Run([], init), last, id);
    } else {
      LiveBefore(init, last, id);
      OpeningLevel(init, id);
    }
  }

  lemma OpeningUnique(msgs: seq<MarketMessage>, t: nat, u: nat, id: uint64)
    requires OpenedBy(msgs, t, id) && OpenedBy(msgs, u, id)
    ensures t == u
  {}

  lemma OpeningUnchanged(init: seq<MarketMessage>, last: MarketMessage, id: uint64)
    requires IsLive(Run([], init), id)
    ensures Opening(init + [last], id) == Opening(init, id) < |init|
  {
    assert (init + [last])[..|init|] == init;
    OpeningOpens(init, id);
  }

  lemma {:induction false} OpeningsAscend(msgs: seq<MarketMessage>, i: nat, j: nat)
    requires i < j < |Run([], msgs)|
    ensures Opening(msgs, Run([], msgs)[i].id) < Opening(msgs, Run([], msgs)[j].id)
  {
    var init, last := msgs[..|msgs| - 1], msgs[|msgs| - 1];
    var l, r := Run([], init), Run([], msgs);
    assert msgs == init + [last];
    var i', j' := i, j;
    if IsLive(l, last.orderId) {
      var k := IndexOf(l, last.orderId);
      var mid := Outcome(l[k], last);
      ApplyAt(l, last, k);
      i', j' := if i < k + |mid| then i else i + 1 - |mid|, if j < k + |mid| then j else j + 1 - |mid|;
      SpliceIds(l, k, mid, i);
      SpliceIds(l, k, mid, j);
    }
    RunDistinct([], init);
    IndexOfUnique(l, i');
    OpeningUnchanged(init, last, l[i'].id);
    if j' < |l| {
      IndexOfUnique(l, j');
      OpeningUnchanged(init, last, l[j'].id);
      OpeningsAscend(init, i', j');
    }
  }

  lemma SpliceIds(l: Orders, k: nat, mid: Orders, i: nat)
    requires k < |l| && |mid| <= 1 && (mid != [] ==> mid[0].id == l[k].id)
    requires i < |Splice(l, k, mid)|
    ensures Splice(l, k, mid)[i].id == l[if i < k + |mid| then i else i + 1 - |mid|].id
  {}

  lemma {:induction false} ProjectionKeepsOrder(l: Orders, side: Side, price: int64, rank: uint64 -> nat, a: nat,
                                                b: nat)
    requires forall i, j :: 0 <= i < j < |l| ==> rank(l[i].id) < rank(l[j].id)
    requires a < b < |LevelIds(l, side, price)|
    ensures rank(LevelIds(l, side, price)[a]) < rank(LevelIds(l, side, price)[b])
  {
    var tail := l[1..];
    var n := if At(l[0], side, price) then 1 else 0;
    if a >= n {
      ProjectionKeepsOrder(tail, side, price, rank, a - n, b - n);
    } else {
      var id := LevelIds(tail, side, price)[b - n];
      LevelIdsAreLive(tail, side, price, id);
      var i :| 0 <= i < |tail| && tail[i].id == id;
      assert l[i + 1].id == id;
    }
  }

  // After any stream, the queue of every price level runs in the order of the Adds that
  // opened its orders: an id added again after its order left goes to the back, and no
  // Modify or partial Trade moves an order.
  lemma TimePriority(msgs: seq<MarketMessage>, side: Side, price: int64, a: nat, b: nat, ta: nat, tb: nat)
    requires a < b < |LevelIds(Run([], msgs), side, price)|
    requires OpenedBy(msgs, ta, LevelIds(Run([], msgs), side, price)[a])
    requires OpenedBy(msgs, tb, LevelIds(Run([], msgs), side, price)[b])
    ensures ta < tb
  {
    var l := Run([], msgs);
    var ids := LevelIds(l, side, price);
    forall i, j | 0 <= i < j < |l| ensures Opening(msgs, l[i].id) < Opening(msgs, l[j].id) {
      OpeningsAscend(msgs, i, j);
    }
    ProjectionKeepsOrder(l, side, price, id => Opening(msgs, id), a, b);
    UptoWhole(msgs);
    OpeningOpens(msgs, ids[a]);
    OpeningOpens(msgs, ids[b]);
    OpeningUnique(msgs, ta, Opening(msgs, ids[a]), ids[a]);
    OpeningUnique(msgs, tb, Opening(msgs, ids[b]), ids[b]);
  }

  // Every queued id has such an opening Add, at this very side and price.
  lemma QueuedOrderHasOpening(msgs: seq<MarketMessage>, side: Side, price: int64, a: nat) returns (t: nat)
    requires a < |LevelIds(Run([], msgs), side, price)|
    ensures OpenedBy(msgs, t, LevelIds(Run([], msgs), side, price)[a])
    ensures msgs[t].side == side && msgs[t].price == price
  {
    var l := Run([], msgs);
    var id := LevelIds(l, side, price)[a];
    LevelIdsAreLive(l, side, price, id);
    var i :| 0 <= i < |l| && l[i].id == id && At(l[i], side, price);
    RunDistinct([], msgs);
    FindIs(l, i);
    OpeningOpens(msgs, id);
    OpeningLevel(msgs, id);
    t := Opening(msgs, id);
  }
}
