// The reference model of the pooled book: the same list of live orders, except
// that a fresh Add is dropped and counted while the pool is full.
module PooledLedger {
  import opened Market
  import opened Ledger
  import opened LedgerLaws
  import opened Levels
  import opened OrderBooks

  predicate Drops(l: Orders, capacity: nat, m: MarketMessage) {
    FreshAdd(l, m) && |l| == capacity
  }

  function ApplyPooled(l: Orders, capacity: nat, m: MarketMessage): Orders {
    if Drops(l, capacity, m) then l else Apply(l, m)
  }

  lemma NothingToDrop(l: Orders, capacity: nat, m: MarketMessage)
    requires !m.kind.Add?
    ensures !Drops(l, capacity, m) && ApplyPooled(l, capacity, m) == Apply(l, m)
  {}

  function RunPooled(capacity: nat, msgs: seq<MarketMessage>): Orders {
    if msgs == [] then [] else ApplyPooled(RunPooled(capacity, msgs[..|msgs| - 1]), capacity, msgs[|msgs| - 1])
  }

  function Exhaustions(capacity: nat, msgs: seq<MarketMessage>): nat {
    if msgs == [] then 0 else
      var init := msgs[..|msgs| - 1];
      Exhaustions(capacity, init) + if Drops(RunPooled(capacity, init), capacity, msgs[|msgs| - 1]) then 1 else 0
  }

  // The stream minus the Adds of unknown ids that arrive while the live orders fill the pool.
  function Kept(capacity: nat, msgs: seq<MarketMessage>): seq<MarketMessage> {
    if msgs == [] then [] else
      var init, last := msgs[..|msgs| - 1], msgs[|msgs| - 1];
      Kept(capacity, init) + if Drops(RunPooled(capacity, init), capacity, last) then [] else [last]
  }

  lemma RunSnoc(l: Orders, msgs: seq<MarketMessage>, m: MarketMessage)
    ensures Run(l, msgs + [m]) == Apply(Run(l, msgs), m)
  {
    assert (msgs + [m])[..|msgs|] == msgs;
  }

  // The pooled book is the baseline on the kept messages, and it counts the others.
  lemma {:induction false} PooledIsBaselineOnKept(capacity: nat, msgs: seq<MarketMessage>)
    ensures RunPooled(capacity, msgs) == Run([], Kept(capacity, msgs))
    ensures |RunPooled(capacity, msgs)| <= capacity
    ensures |Kept(capacity, msgs)| + Exhaustions(capacity, msgs) == |msgs|
  {
    if msgs != [] {
      var init, last := msgs[..|msgs| - 1], msgs[|msgs| - 1];
      PooledIsBaselineOnKept(capacity, init);
      if Drops(RunPooled(capacity, init), capacity, last) {
        assert Kept(capacity, msgs) == Kept(capacity, init);
      } else {
        assert Kept(capacity, msgs) == Kept(capacity, init) + [last];
        RunSnoc([], Kept(capacity, init), last);
        GrowsByAdd(RunPooled(capacity, init), last);
      }
    }
  }

  lemma GrowsByAdd(l: Orders, m: MarketMessage)
    ensures |Apply(l, m)| <= |l| + if FreshAdd(l, m) then 1 else 0
  {}

  // A pool that the baseline never outgrows drops nothing.
  lemma {:induction false} LargePoolNeverExhausts(capacity: nat, msgs: seq<MarketMessage>)
    requires forall t :: 0 <= t <= |msgs| ==> |Upto(msgs, t)| <= capacity
    ensures RunPooled(capacity, msgs) == Run([], msgs) && Exhaustions(capacity, msgs) == 0
  {
    if msgs != [] {
      var init, last := msgs[..|msgs| - 1], msgs[|msgs| - 1];
      forall t | 0 <= t <= |init| ensures |Upto(init, t)| <= capacity {
        assert init[..t] == msgs[..t];
        assert Upto(init, t) == Upto(msgs, t);
      }
      LargePoolNeverExhausts(capacity, init);
      assert msgs[..|msgs|] == msgs;
      assert |Upto(msgs, |msgs|)| <= capacity;
    }
  }

  // ---- The clamp of the pooled Modify ----

  // The branch of the int64 Modify that stores zero although the difference is negative.
  ghost predicate ClampBites(l: Orders, m: MarketMessage) {
    m.kind.Modify? && IsLive(l, m.orderId) &&
    var o := l[IndexOf(l, m.orderId)];
    LevelSum(l, o.side, o.price) % TWO32 + m.quantity - o.quantity < 0
  }

  // Totals that were exact stay exact through a pooled Modify if and only if the clamp does not bite.
  lemma ClampBreaksTotals(b: SideMap, b': SideMap, a: SideMap, a': SideMap, l: Orders, m: MarketMessage)
    requires Distinct(l) && m.kind.Modify?
    requires Shape(b, l, Buy) && Shape(a, l, Sell)
    requires Shape(b', Apply(l, m), Buy) && Shape(a', Apply(l, m), Sell)
    requires Exact(b, a, l) && Moved(b, b', a, a', l, Apply(l, m), true)
    ensures Exact(b', a', Apply(l, m)) <==> !ClampBites(l, m)
  {
    ClampOnSide(b, b', l, m, Buy);
    ClampOnSide(a, a', l, m, Sell);
  }

  // A total that is moved by less than 2^32 and cut off at zero keeps up with the sum iff it is not cut off.
  lemma ClampedShift(sum: nat, sum': nat)
    requires sum' - sum > -TWO32
    ensures Shifted(sum % TWO32, sum' - sum, true) == sum' % TWO32 <==> sum % TWO32 + (sum' - sum) >= 0
  {
    ShiftExact(sum, sum');
  }

  lemma ClampOnLevel(before: SideMap, after: SideMap, l: Orders, m: MarketMessage, side: Side, p: int64)
    requires Distinct(l) && m.kind.Modify?
    requires Shape(before, l, side) && Shape(after, Apply(l, m), side)
    requires TotalsAgree(before, l, side) && TotalsMoved(before, after, l, Apply(l, m), side, true)
    requires p in after
    ensures after[p].total == LevelSum(Apply(l, m), side, p) % TWO32 <==>
      !(ClampBites(l, m) && At(l[IndexOf(l, m.orderId)], side, p))
  {
    var l' := Apply(l, m);
    assert TotalMoved(before, after, l, l', side, true, p);
    assert LevelFits(before, l, side, p) && LevelFits(after, l', side, p);
    if IsLive(l, m.orderId) {
      var k := IndexOf(l, m.orderId);
      SplicedSum(l, k, Outcome(l[k], m), side, p);
      SplicedIds(l, k, Outcome(l[k], m), side, p);
    }
    ClampedShift(LevelSum(l, side, p), LevelSum(l', side, p));
  }

  lemma ModifiedLevelStays(after: SideMap, l: Orders, m: MarketMessage)
    requires Distinct(l) && m.kind.Modify? && IsLive(l, m.orderId)
    requires Shape(after, Apply(l, m), l[IndexOf(l, m.orderId)].side)
    ensures l[IndexOf(l, m.orderId)].price in after
  {
    var k := IndexOf(l, m.orderId);
    SplicedIds(l, k, Outcome(l[k], m), l[k].side, l[k].price);
    assert LevelFits(after, Apply(l, m), l[k].side, l[k].price);
  }

  lemma ClampOnSide(before: SideMap, after: SideMap, l: Orders, m: MarketMessage, side: Side)
    requires Distinct(l) && m.kind.Modify?
    requires Shape(before, l, side) && Shape(after, Apply(l, m), side)
    requires TotalsAgree(before, l, side) && TotalsMoved(before, after, l, Apply(l, m), side, true)
    ensures TotalsAgree(after, Apply(l, m), side) <==>
      !(ClampBites(l, m) && l[IndexOf(l, m.orderId)].side == side)
  {
    forall p: int64 | p in after
      ensures after[p].total == LevelSum(Apply(l, m), side, p) % TWO32 <==>
        !(ClampBites(l, m) && At(l[IndexOf(l, m.orderId)], side, p))
    {
      ClampOnLevel(before, after, l, m, side, p);
    }
    if ClampBites(l, m) && l[IndexOf(l, m.orderId)].side == side {
      ModifiedLevelStays(after, l, m);
    }
  }

  lemma ExactSumsNeverClamp(l: Orders, m: MarketMessage)
    requires forall side, p: int64 :: LevelSum(l, side, p) < TWO32
    ensures !ClampBites(l, m)
  {
    if IsLive(l, m.orderId) {
      SumOfMember(l, IndexOf(l, m.orderId));
    }
  }
}
