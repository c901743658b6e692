// The reference model of the order book: the live orders in the order of their
// accepted Adds, and nothing else. Price levels, cached totals and best prices
// are projections of this list; both book classes are proved to maintain them.
module Ledger {
  import opened Market

  type Orders = seq<Order>

  function IndexOf(l: Orders, id: uint64): (k: nat)
    ensures k <= |l|
    ensures k < |l| ==> l[k].id == id
    ensures forall j :: 0 <= j < k ==> l[j].id != id
  {
    if l == [] || l[0].id == id then 0 else 1 + IndexOf(l[1..], id)
  }

  predicate IsLive(l: Orders, id: uint64) {
    IndexOf(l, id) < |l|
  }

  function Find(l: Orders, id: uint64): Option<Order> {
    if IsLive(l, id) then Some(l[IndexOf(l, id)]) else None
  }

  ghost predicate Distinct(l: Orders) {
    forall i, j :: 0 <= i < j < |l| ==> l[i].id != l[j].id
  }

  // The list with its k-th entry replaced by the entries of `mid`.
  function Splice(l: Orders, k: nat, mid: Orders): Orders
    requires k < |l|
  {
    l[..k] + mid + l[k + 1..]
  }

  // What one message does to a live order: the order that stays, or nothing.
  function Outcome(o: Order, m: MarketMessage): (r: Orders)
    ensures |r| <= 1 && (r != [] ==> r[0].id == o.id)
  {
    match m.kind
    case Add => [o]
    case Modify => [o.(quantity := m.quantity)]
    case Cancel => []
    case Trade => if o.quantity <= m.quantity then [] else [o.(quantity := o.quantity - m.quantity)]
  }

  function Apply(l: Orders, m: MarketMessage): Orders {
    if IsLive(l, m.orderId) then
      var k := IndexOf(l, m.orderId);
      Splice(l, k, Outcome(l[k], m))
    else if m.kind.Add? then
      l + [OrderOf(m)]
    else
      l
  }

  function Run(l: Orders, msgs: seq<MarketMessage>): Orders {
    if msgs == [] then l else Apply(Run(l, msgs[..|msgs| - 1]), msgs[|msgs| - 1])
  }

  // ---- Projections: one price level of one side ----

  predicate At(o: Order, side: Side, price: int64) {
    o.side == side && o.price == price
  }

  function LevelIds(l: Orders, side: Side, price: int64): seq<uint64> {
    if l == [] then [] else
      (if At(l[0], side, price) then [l[0].id] else []) + LevelIds(l[1..], side, price)
  }

  function LevelSum(l: Orders, side: Side, price: int64): nat {
    if l == [] then 0 else
      (if At(l[0], side, price) then l[0].quantity else 0) + LevelSum(l[1..], side, price)
  }

  lemma {:induction false} LevelConcat(a: Orders, b: Orders, side: Side, price: int64)
    ensures LevelIds(a + b, side, price) == LevelIds(a, side, price) + LevelIds(b, side, price)
    ensures LevelSum(a + b, side, price) == LevelSum(a, side, price) + LevelSum(b, side, price)
  {
    if a == [] {
      assert a + b == b;
    } else {
      assert (a + b)[1..] == a[1..] + b;
      LevelConcat(a[1..], b, side, price);
      var head := if At(a[0], side, price) then [a[0].id] else [];
      var x, y := LevelIds(a[1..], side, price), LevelIds(b, side, price);
      assert LevelIds(a + b, side, price) == head + (x + y);
      assert head + (x + y) == (head + x) + y;
    }
  }

  lemma LevelSplice(l: Orders, k: nat, mid: Orders, side: Side, price: int64)
    requires k < |l|
    ensures LevelIds(Splice(l, k, mid), side, price)
         == LevelIds(l[..k], side, price) + LevelIds(mid, side, price) + LevelIds(l[k + 1..], side, price)
    ensures LevelSum(Splice(l, k, mid), side, price)
         == LevelSum(l[..k], side, price) + LevelSum(mid, side, price) + LevelSum(l[k + 1..], side, price)
  {
    LevelConcat(l[..k] + mid, l[k + 1..], side, price);
    LevelConcat(l[..k], mid, side, price);
  }

  // Splicing in the entry that is already there changes nothing.
  lemma SpliceSelf(l: Orders, k: nat)
    requires k < |l|
    ensures Splice(l, k, [l[k]]) == l
  {}

  lemma {:induction false} LevelIdsAreLive(l: Orders, side: Side, price: int64, id: uint64)
    ensures id in LevelIds(l, side, price) ==> exists i :: 0 <= i < |l| && l[i].id == id && At(l[i], side, price)
    ensures forall i :: 0 <= i < |l| && l[i].id == id && At(l[i], side, price) ==> id in LevelIds(l, side, price)
  {
    if l != [] {
      LevelIdsAreLive(l[1..], side, price, id);
      if id in LevelIds(l[1..], side, price) {
        var i :| 0 <= i < |l[1..]| && l[1..][i].id == id && At(l[1..][i], side, price);
        assert l[i + 1].id == id && At(l[i + 1], side, price);
      }
      forall i | 0 <= i < |l| && l[i].id == id && At(l[i], side, price)
        ensures id in LevelIds(l, side, price)
      {
        if i > 0 {
          assert l[1..][i - 1].id == id;
        }
      }
    }
  }

  lemma NotQueued(l: Orders, side: Side, price: int64, id: uint64)
    requires forall i :: 0 <= i < |l| ==> l[i].id != id
    ensures id !in LevelIds(l, side, price)
  {
    LevelIdsAreLive(l, side, price, id);
  }

  lemma {:induction false} SumOfMember(l: Orders, k: nat)
    requires k < |l|
    ensures l[k].quantity <= LevelSum(l, l[k].side, l[k].price)
  {
    SpliceSelf(l, k);
    LevelSplice(l, k, [l[k]], l[k].side, l[k].price);
  }

  // ---- Identities stay distinct, so at most one live order carries an id ----

  lemma {:induction false} ApplyDistinct(l: Orders, m: MarketMessage)
    requires Distinct(l)
    ensures Distinct(Apply(l, m))
  {
    if IsLive(l, m.orderId) {
      var k := IndexOf(l, m.orderId);
      SpliceDistinct(l, k, Outcome(l[k], m));
    }
  }

  lemma {:induction false} RunDistinct(l: Orders, msgs: seq<MarketMessage>)
    requires Distinct(l)
    ensures Distinct(Run(l, msgs))
  {
    if msgs != [] {
      RunDistinct(l, msgs[..|msgs| - 1]);
      ApplyDistinct(Run(l, msgs[..|msgs| - 1]), msgs[|msgs| - 1]);
    }
  }

  lemma {:induction false} RunConcat(l: Orders, a: seq<MarketMessage>, b: seq<MarketMessage>)
    ensures Run(l, a + b) == Run(Run(l, a), b)
  {
    if b == [] {
      assert a + b == a;
    } else {
      assert (a + b)[..|a + b| - 1] == a + b[..|b| - 1];
      RunConcat(l, a, b[..|b| - 1]);
    }
  }

  lemma IndexOfUnique(l: Orders, k: nat)
    requires Distinct(l) && k < |l|
    ensures IndexOf(l, l[k].id) == k
  {}

  lemma IndexOfAppend(l: Orders, o: Order, id: uint64)
    ensures IndexOf(l + [o], id) == if IsLive(l, id) then IndexOf(l, id) else if o.id == id then |l| else |l| + 1
  {
    var k := IndexOf(l + [o], id);
    if k < |l| {
      assert (l + [o])[k] == l[k];
    }
    var k' := IndexOf(l, id);
    if k' < |l| {
      assert (l + [o])[k'] == l[k'];
    } else {
      assert (l + [o])[|l|] == o;
    }
  }

  // A message touches its own order only: the lookup of every id after one message.
  function OutcomeFor(o: Option<Order>, m: MarketMessage): Option<Order> {
    match o
    case None => if m.kind.Add? then Some(OrderOf(m)) else None
    case Some(x) => if Outcome(x, m) == [] then None else Some(Outcome(x, m)[0])
  }

  lemma {:induction false} ApplyFind(l: Orders, m: MarketMessage, id: uint64)
    requires Distinct(l)
    ensures Find(Apply(l, m), id) == if id == m.orderId then OutcomeFor(Find(l, id), m) else Find(l, id)
  {
    if IsLive(l, m.orderId) {
      var k := IndexOf(l, m.orderId);
      SpliceFind(l, k, Outcome(l[k], m), id);
    } else {
      IndexOfAppend(l, OrderOf(m), id);
    }
  }

  lemma FindIs(l: Orders, k: nat)
    requires Distinct(l) && k < |l|
    ensures Find(l, l[k].id) == Some(l[k])
  {}

  lemma SpliceDistinct(l: Orders, k: nat, mid: Orders)
    requires Distinct(l) && k < |l|
    requires |mid| <= 1 && (mid != [] ==> mid[0].id == l[k].id)
    ensures Distinct(Splice(l, k, mid))
  {
    var r := Splice(l, k, mid);
    forall i, j | 0 <= i < j < |r| ensures r[i].id != r[j].id {
      var d := 1 - |mid|;
      assert r[i].id == (if i < k + |mid| then l[i].id else l[i + d].id);
      assert r[j].id == (if j < k + |mid| then l[j].id else l[j + d].id);
    }
  }

  lemma SpliceFind(l: Orders, k: nat, mid: Orders, id: uint64)
    requires Distinct(l) && k < |l|
    requires |mid| <= 1 && (mid != [] ==> mid[0].id == l[k].id)
    ensures Find(Splice(l, k, mid), id)
         == if id != l[k].id then Find(l, id) else if mid == [] then None else Some(mid[0])
  {
    var r := Splice(l, k, mid);
    SpliceDistinct(l, k, mid);
    if id == l[k].id {
      if mid != [] {
        assert r[k] == mid[0];
        FindIs(r, k);
      } else {
        assert forall i :: 0 <= i < |r| ==> r[i] == if i < k then l[i] else l[i + 1];
      }
    } else if IsLive(l, id) {
      var j := IndexOf(l, id);
      var j' := if j < k then j else j - 1 + |mid|;
      assert r[j'] == l[j];
      FindIs(r, j');
    } else {
      assert forall i :: 0 <= i < |r| ==> r[i] in l || r[i] in mid;
    }
  }
}
