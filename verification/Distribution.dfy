// How often the generator's draws take each value. Every message takes four draws, so one field of
// consecutive messages sees every fourth state; 2^62 messages see each state of one residue modulo 4 once.
module Distribution {
  import opened Market
  import opened Lcg
  import opened Generator
  import Spsc

  const RUN: nat := 0x4000_0000_0000_0000

  // ---- The states one field sees ----

  lemma Quarters(x: int, k: int)
    ensures (x + 4 * k) % 4 == x % 4
  {}

  lemma ResidueStep(x: uint64)
    ensures Next(x) % 4 == (x % 4 + 3) % 4
  {
    var y := 1664525 * x + 1013904223;
    var q := y / TWO64;
    assert Next(x) == y + 4 * (-0x4000_0000_0000_0000 * q);
    Quarters(y, -0x4000_0000_0000_0000 * q);
    assert y == (x % 4 + 3) + 4 * (416131 * x + 253476055 + x / 4);
    Quarters(x % 4 + 3, 416131 * x + 253476055 + x / 4);
  }

  lemma FullTurn(r: nat)
    requires r < 4
    ensures ((((r + 3) % 4 + 3) % 4 + 3) % 4 + 3) % 4 == r
  {}

  // Modulo 4 the generator is back after four draws.
  lemma FourDraws(a: uint64, b: uint64, c: uint64, d: uint64, e: uint64)
    requires b == Next(a) && c == Next(b) && d == Next(c) && e == Next(d)
    ensures e % 4 == a % 4
  {
    ResidueStep(a);
    ResidueStep(b);
    ResidueStep(c);
    ResidueStep(d);
    FullTurn(a % 4);
  }

  // The state behind a field of the i-th message; fields are numbered from 1 to 4.
  function FieldState(seed: uint64, field: nat, i: nat): uint64 {
    After(seed, 4 * i + field)
  }

  lemma NextFieldState(seed: uint64, field: nat, i: nat)
    ensures FieldState(seed, field, i + 1) % 4 == FieldState(seed, field, i) % 4
  {
    var n := 4 * i + field;
    assert 4 * (i + 1) + field == n + 4;
    FourDraws(After(seed, n), After(seed, n + 1), After(seed, n + 2), After(seed, n + 3), After(seed, n + 4));
  }

  function Residue(seed: uint64, field: nat): (c: nat)
    ensures c < 4
  {
    After(seed, field) % 4
  }

  lemma {:induction false} FieldResidue(seed: uint64, field: nat, i: nat)
    ensures FieldState(seed, field, i) % 4 == Residue(seed, field)
  {
    if i > 0 {
      FieldResidue(seed, field, i - 1);
      NextFieldState(seed, field, i - 1);
    }
  }

  ghost function Seen(seed: uint64, field: nat, n: nat): set<uint64> {
    if n == 0 then {} else Seen(seed, field, n - 1) + {FieldState(seed, field, n - 1)}
  }

  // The states of one residue below 4n.
  ghost function Class(c: nat, n: nat): set<uint64>
    requires c < 4 && n <= RUN
  {
    if n == 0 then {} else Class(c, n - 1) + {4 * (n - 1) + c}
  }

  lemma {:induction false} ClassIs(c: nat, n: nat, x: uint64)
    requires c < 4 && n <= RUN
    ensures x in Class(c, n) <==> x % 4 == c && x < 4 * n
  {
    if n > 0 {
      ClassIs(c, n - 1, x);
    }
  }

  lemma {:induction false} ClassSize(c: nat, n: nat)
    requires c < 4 && n <= RUN
    ensures |Class(c, n)| == n
  {
    if n > 0 {
      ClassSize(c, n - 1);
      ClassIs(c, n - 1, 4 * (n - 1) + c);
    }
  }

  lemma StatesDiffer(seed: uint64, field: nat, i: nat, j: nat, d: nat)
    requires i < j < RUN && d == 4 * (j - i)
    ensures FieldState(seed, field, i) != FieldState(seed, field, j)
  {
    DrawsDistinct(seed, 4 * i + field, 4 * i + field + d);
    assert d % TWO64 == d;
  }

  lemma {:induction false} NotSeenBefore(seed: uint64, field: nat, i: nat, n: nat)
    requires n <= i < RUN
    ensures FieldState(seed, field, i) !in Seen(seed, field, n)
  {
    if n > 0 {
      NotSeenBefore(seed, field, i, n - 1);
      StatesDiffer(seed, field, n - 1, i, 4 * (i - (n - 1)));
    }
  }

  lemma {:induction false} SeenSize(seed: uint64, field: nat, n: nat)
    requires n <= RUN
    ensures |Seen(seed, field, n)| == n
    ensures Seen(seed, field, n) <= Class(Residue(seed, field), RUN)
  {
    if n > 0 {
      SeenSize(seed, field, n - 1);
      NotSeenBefore(seed, field, n - 1, n - 1);
      FieldResidue(seed, field, n - 1);
      ClassIs(Residue(seed, field), RUN, FieldState(seed, field, n - 1));
    }
  }

  lemma SubsetOfSameSize(a: set<uint64>, b: set<uint64>)
    requires a <= b && |a| == |b|
    ensures a == b
  {
    assert b == a + (b - a);
    assert |b| == |a| + |b - a|;
  }

  // In 2^62 consecutive messages a field sees every state of its residue, each exactly once.
  lemma EveryStateOnce(seed: uint64, field: nat)
    ensures |Seen(seed, field, RUN)| == RUN
    ensures Seen(seed, field, RUN) == Class(Residue(seed, field), RUN)
  {
    SeenSize(seed, field, RUN);
    ClassSize(Residue(seed, field), RUN);
    SubsetOfSameSize(Seen(seed, field, RUN), Class(Residue(seed, field), RUN));
  }

  // ---- Counting the states that hit ----

  function Hit(hit: nat -> bool, bound: nat, x: uint64): nat
    requires bound > 0
  {
    if hit(Bounded(x, bound)) then 1 else 0
  }

  // How many of n consecutive messages draw a hit in the field.
  function Drawn(seed: uint64, field: nat, bound: nat, hit: nat -> bool, n: nat): nat
    requires bound > 0
  {
    if n == 0 then 0 else Drawn(seed, field, bound, hit, n - 1) + Hit(hit, bound, FieldState(seed, field, n - 1))
  }

  function InClass(c: nat, bound: nat, hit: nat -> bool, n: nat): nat
    requires c < 4 && bound > 0 && n <= RUN
  {
    if n == 0 then 0 else InClass(c, bound, hit, n - 1) + Hit(hit, bound, 4 * (n - 1) + c)
  }

  ghost function Hitting(s: set<uint64>, bound: nat, hit: nat -> bool): set<uint64>
    requires bound > 0
  {
    set x | x in s && Hit(hit, bound, x) == 1
  }

  lemma OneMoreHit(s: set<uint64>, bound: nat, hit: nat -> bool, x: uint64)
    requires bound > 0 && x !in s
    ensures |Hitting(s + {x}, bound, hit)| == |Hitting(s, bound, hit)| + Hit(hit, bound, x)
  {
    if Hit(hit, bound, x) == 1 {
      assert Hitting(s + {x}, bound, hit) == Hitting(s, bound, hit) + {x};
    } else {
      assert Hitting(s + {x}, bound, hit) == Hitting(s, bound, hit);
    }
  }

  lemma {:induction false} DrawnIsSize(seed: uint64, field: nat, bound: nat, hit: nat -> bool, n: nat)
    requires bound > 0 && n <= RUN
    ensures Drawn(seed, field, bound, hit, n) == |Hitting(Seen(seed, field, n), bound, hit)|
  {
    if n == 0 {
      assert Hitting({}, bound, hit) == {};
    } else {
      DrawnIsSize(seed, field, bound, hit, n - 1);
      NotSeenBefore(seed, field, n - 1, n - 1);
      OneMoreHit(Seen(seed, field, n - 1), bound, hit, FieldState(seed, field, n - 1));
    }
  }

  lemma NotInClassYet(c: nat, n: nat, x: uint64)
    requires c < 4 && n <= RUN && x == 4 * n + c
    ensures x !in Class(c, n)
  {
    ClassIs(c, n, x);
  }

  // One step of the count, with the state given.
  lemma InClassStep(c: nat, bound: nat, hit: nat -> bool, n: nat, x: uint64)
    requires c < 4 && bound > 0 && n < RUN && x == 4 * n + c
    ensures InClass(c, bound, hit, n + 1) == InClass(c, bound, hit, n) + Hit(hit, bound, x)
    ensures Class(c, n + 1) == Class(c, n) + {x}
  {}

  lemma {:induction false} InClassIsSize(c: nat, bound: nat, hit: nat -> bool, n: nat)
    requires c < 4 && bound > 0 && n <= RUN
    ensures InClass(c, bound, hit, n) == |Hitting(Class(c, n), bound, hit)|
  {
    if n == 0 {
      assert Hitting({}, bound, hit) == {};
    } else {
      var x := 4 * (n - 1) + c;
      InClassIsSize(c, bound, hit, n - 1);
      NotInClassYet(c, n - 1, x);
      InClassStep(c, bound, hit, n - 1, x);
      OneMoreHit(Class(c, n - 1), bound, hit, x);
    }
  }

  lemma DrawnIsInClass(seed: uint64, field: nat, bound: nat, hit: nat -> bool)
    requires bound > 0
    ensures Drawn(seed, field, bound, hit, RUN) == InClass(Residue(seed, field), bound, hit, RUN)
  {
    EveryStateOnce(seed, field);
    DrawnIsSize(seed, field, bound, hit, RUN);
    InClassIsSize(Residue(seed, field), bound, hit, RUN);
  }

  // ---- Blocks: 16384 states of a residue share the bits that are used ----

  const BLOCK: nat := 0x4000
  const BLOCKS: nat := 0x1_0000_0000_0000

  // How many of the numbers below n hit, reduced or not.
  function Hits(hit: nat -> bool, n: nat): nat {
    if n == 0 then 0 else Hits(hit, n - 1) + if hit(n - 1) then 1 else 0
  }

  function Reduced(hit: nat -> bool, bound: nat): nat -> bool
    requires bound > 0
  {
    (m: nat) => hit(m % bound)
  }

  lemma BlockOf(m: nat, t: nat, c: nat)
    requires t < BLOCK && c < 4
    ensures (4 * (BLOCK * m + t) + c) / 0x1_0000 == m
  {}

  lemma {:induction false} WithinBlock(c: nat, bound: nat, hit: nat -> bool, m: nat, t: nat)
    requires c < 4 && bound > 0 && t <= BLOCK && m < BLOCKS
    ensures InClass(c, bound, hit, BLOCK * m + t)
         == InClass(c, bound, hit, BLOCK * m) + if hit(m % bound) then t else 0
  {
    if t > 0 {
      WithinBlock(c, bound, hit, m, t - 1);
      BlockOf(m, t - 1, c);
    }
  }

  lemma {:induction false} WholeBlocks(c: nat, bound: nat, hit: nat -> bool, m: nat)
    requires c < 4 && bound > 0 && m <= BLOCKS
    ensures InClass(c, bound, hit, BLOCK * m) == BLOCK * Hits(Reduced(hit, bound), m)
  {
    if m > 0 {
      WholeBlocks(c, bound, hit, m - 1);
      WithinBlock(c, bound, hit, m - 1, BLOCK);
      assert BLOCK * m == BLOCK * (m - 1) + BLOCK;
    }
  }

  // Reducing splits the numbers into rounds of the bound.
  lemma {:induction false} HitsInRounds(hit: nat -> bool, bound: nat, start: nat, q: nat, t: nat)
    requires 0 < bound && t <= bound && start == Rounds(bound, q)
    ensures Hits(Reduced(hit, bound), start + t) == Rounds(Hits(hit, bound), q) + Hits(hit, t)
    decreases q, t
  {
    if t > 0 {
      HitsInRounds(hit, bound, start, q, t - 1);
      InRound(bound, q, t - 1);
    } else if q > 0 {
      HitsInRounds(hit, bound, Rounds(bound, q - 1), q - 1, bound);
    }
  }

  // q rounds of n.
  function Rounds(n: nat, q: nat): nat {
    if q == 0 then 0 else Rounds(n, q - 1) + n
  }

  lemma {:induction false} RoundsIsProduct(n: nat, q: nat)
    ensures Rounds(n, q) == n * q
  {
    if q > 0 {
      RoundsIsProduct(n, q - 1);
    }
  }

  lemma InRound(bound: nat, q: nat, t: nat)
    requires t < bound
    ensures (Rounds(bound, q) + t) % bound == t
  {
    RoundsIsProduct(bound, q);
    Spsc.MultipleMod(q, t, bound);
  }

  // The exact distribution: among any 2^62 consecutive messages, whatever the seed, a field that is
  // reduced to `bound` values takes each of them 16384 times per round of the bound in 2^48, and
  // the first 2^48 mod bound of them 16384 times more.
  lemma FieldDistribution(seed: uint64, field: nat, bound: nat, hit: nat -> bool, q: nat, t: nat)
    requires 0 < bound && t < bound && bound * q + t == BLOCKS
    ensures Drawn(seed, field, bound, hit, RUN) == BLOCK * (Hits(hit, bound) * q + Hits(hit, t))
  {
    RoundsIsProduct(bound, q);
    RoundsIsProduct(Hits(hit, bound), q);
    HitsInRounds(hit, bound, Rounds(bound, q), q, t);
    WholeBlocks(Residue(seed, field), bound, hit, BLOCKS);
    DrawnIsInClass(seed, field, bound, hit);
  }

  // ---- Message kinds and sides ----

  function KindIs(kind: MessageType): nat -> bool {
    (v: nat) => KindOf(v) == kind
  }

  lemma {:induction false} KindHits(n: nat)
    ensures Hits(KindIs(Add), n) == (if n < 70 then n else 70)
    ensures Hits(KindIs(Modify), n) == (if n < 70 then 0 else if n < 85 then n - 70 else 15)
    ensures Hits(KindIs(Cancel), n) == (if n < 85 then 0 else if n < 95 then n - 85 else 10)
    ensures Hits(KindIs(Trade), n) == (if n < 95 then 0 else n - 95)
  {
    if n > 0 {
      KindHits(n - 1);
    }
  }

  function Percentage(kind: MessageType): nat {
    match kind
    case Add => 70
    case Modify => 15
    case Cancel => 10
    case Trade => 5
  }

  lemma KindShares(kind: MessageType, n: nat, t: nat)
    requires n == 100 && t == 56
    ensures Hits(KindIs(kind), n) == Percentage(kind) && Hits(KindIs(kind), t) == if kind.Add? then 56 else 0
  {
    KindHits(n);
    KindHits(t);
  }

  function KindCount(msgs: seq<MarketMessage>, kind: MessageType, n: nat): nat
    requires n <= |msgs|
  {
    if n == 0 then 0 else KindCount(msgs, kind, n - 1) + if msgs[n - 1].kind == kind then 1 else 0
  }

  function SideCount(msgs: seq<MarketMessage>, side: Side, n: nat): nat
    requires n <= |msgs|
  {
    if n == 0 then 0 else SideCount(msgs, side, n - 1) + if msgs[n - 1].side == side then 1 else 0
  }

  function SideIs(side: Side): nat -> bool {
    (v: nat) => (v == 0) == side.Buy?
  }

  lemma {:induction false} CountsAreDraws(msgs: seq<MarketMessage>, seed: uint64, first: nat, symbol: string,
                                          clock: seq<uint64>, kind: MessageType, side: Side, n: nat)
    requires Generated(msgs, 0, Draws(seed), first, symbol, clock) && n <= |msgs|
    ensures KindCount(msgs, kind, n) == Drawn(seed, 4, 100, KindIs(kind), n)
    ensures SideCount(msgs, side, n) == Drawn(seed, 3, 2, SideIs(side), n)
  {
    if n > 0 {
      CountsAreDraws(msgs, seed, first, symbol, clock, kind, side, n - 1);
      assert msgs[0 + (n - 1)] == MessageAt(Draws(seed), first, symbol, n - 1, clock[n - 1]);
    }
  }

  // The documented mix. Among the first 2^62 messages, from any seed, the kinds come as 70, 15, 10 and 5
  // per hundred over all whole hundreds of 2^48; the 56 * 16384 messages left over are all Adds.
  lemma KindMix(msgs: seq<MarketMessage>, seed: uint64, first: nat, symbol: string, clock: seq<uint64>,
                kind: MessageType)
    requires Generated(msgs, 0, Draws(seed), first, symbol, clock) && |msgs| >= RUN
    ensures KindCount(msgs, kind, RUN)
         == BLOCK * (2_814_749_767_106 * Percentage(kind) + if kind.Add? then 56 else 0)
  {
    CountsAreDraws(msgs, seed, first, symbol, clock, kind, Buy, RUN);
    FieldDistribution(seed, 4, 100, KindIs(kind), 2_814_749_767_106, 56);
    KindShares(kind, 100, 56);
  }

  // Both sides come equally often.
  lemma SideMix(msgs: seq<MarketMessage>, seed: uint64, first: nat, symbol: string, clock: seq<uint64>, side: Side)
    requires Generated(msgs, 0, Draws(seed), first, symbol, clock) && |msgs| >= RUN
    ensures SideCount(msgs, side, RUN) == RUN / 2
  {
    CountsAreDraws(msgs, seed, first, symbol, clock, Add, side, RUN);
    FieldDistribution(seed, 3, 2, SideIs(side), BLOCKS / 2, 0);
    assert Hits(SideIs(side), 1) == if side.Buy? then 1 else 0;
  }
}
