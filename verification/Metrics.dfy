// Latency samples and their percentiles, in exact arithmetic: linear interpolation
// between the two neighbouring samples of the sorted list, cut to an integer.
module Metrics {

  // ---- Sorting, by its specification ----

  ghost predicate IsSorted(xs: seq<nat>) {
    forall i, j :: 0 <= i <= j < |xs| ==> xs[i] <= xs[j]
  }

  lemma SortedCons(h: nat, t: seq<nat>)
    requires IsSorted(t) && (t == [] || h <= t[0])
    ensures IsSorted([h] + t)
  {
    var r := [h] + t;
    forall i, j | 0 <= i <= j < |r| ensures r[i] <= r[j] {
      if i == 0 && j > 0 {
        assert t[0] <= t[j - 1];
      } else if i > 0 {
        assert t[i - 1] <= t[j - 1];
      }
    }
  }

  lemma SortedTail(xs: seq<nat>)
    requires IsSorted(xs) && xs != []
    ensures IsSorted(xs[1..]) && xs == [xs[0]] + xs[1..]
    ensures xs[1..] != [] ==> xs[0] <= xs[1]
  {
    assert forall i :: 0 <= i < |xs[1..]| ==> xs[1..][i] == xs[i + 1];
  }

  function Insert(x: nat, xs: seq<nat>): (r: seq<nat>)
    requires IsSorted(xs)
    ensures IsSorted(r) && multiset(r) == multiset(xs) + multiset{x}
    ensures r != [] && r[0] == if xs == [] || x <= xs[0] then x else xs[0]
  {
    if xs == [] then [x]
    else if x <= xs[0] then SortedCons(x, xs); [x] + xs
    else
      SortedTail(xs);
      var rest := Insert(x, xs[1..]);
      SortedCons(xs[0], rest);
      [xs[0]] + rest
  }

  function Sort(xs: seq<nat>): (r: seq<nat>)
    ensures IsSorted(r) && multiset(r) == multiset(xs)
  {
    if xs == [] then [] else
      assert xs == [xs[0]] + xs[1..];
      Insert(xs[0], Sort(xs[1..]))
  }

  lemma SameMembers(a: seq<nat>, b: seq<nat>)
    requires multiset(a) == multiset(b)
    ensures |a| == |b| && forall x :: x in a <==> x in b
  {
    assert |multiset(a)| == |a| && |multiset(b)| == |b|;
    forall x ensures x in a <==> x in b {
      assert x in a <==> x in multiset(a);
      assert x in b <==> x in multiset(b);
    }
  }

  lemma HeadIsLeast(a: seq<nat>, x: nat)
    requires IsSorted(a) && x in a
    ensures a[0] <= x
  {
    var j :| 0 <= j < |a| && a[j] == x;
    assert a[0] <= a[j];
  }

  lemma TailMembers(a: seq<nat>)
    requires a != []
    ensures multiset(a[1..]) == multiset(a) - multiset{a[0]}
  {
    assert a == [a[0]] + a[1..];
  }

  lemma HeadsAgree(a: seq<nat>, b: seq<nat>)
    requires IsSorted(a) && IsSorted(b) && multiset(a) == multiset(b) && a != []
    ensures b != [] && a[0] == b[0]
  {
    SameMembers(a, b);
    assert a[0] in b && b[0] in a;
    HeadIsLeast(a, b[0]);
    HeadIsLeast(b, a[0]);
  }

  // Any two sorted lists of the same samples are equal, whatever sorted them.
  lemma {:induction false} SortedIsUnique(a: seq<nat>, b: seq<nat>)
    requires IsSorted(a) && IsSorted(b) && multiset(a) == multiset(b)
    ensures a == b
  {
    if a == [] {
      SameMembers(a, b);
    } else {
      HeadsAgree(a, b);
      TailMembers(a);
      TailMembers(b);
      SortedTail(a);
      SortedTail(b);
      SortedIsUnique(a[1..], b[1..]);
    }
  }

  // ---- Interpolation ----

  function Lerp(a: nat, b: nat, f: real): real {
    a as real * (1.0 - f) + b as real * f
  }

  function Ceiling(x: real): int {
    if x == x.Floor as real then x.Floor else x.Floor + 1
  }

  function IndexAt(n: nat, p: real): real {
    (p / 100.0) * (n - 1) as real
  }

  // The interpolated value at a real index.
  function ValueAt(sorted: seq<nat>, index: real): real
    requires 0.0 <= index <= (|sorted| - 1) as real
  {
    var lower, upper := index.Floor, Ceiling(index);
    if lower == upper then sorted[lower] as real
    else Lerp(sorted[lower], sorted[upper], index - lower as real)
  }

  predicate Percent(p: real) {
    0.0 <= p <= 100.0
  }

  lemma Product(x: real, y: real)
    requires x >= 0.0 && y >= 0.0
    ensures x * y >= 0.0
  {}

  lemma IndexInRange(n: nat, p: real)
    requires n > 0 && Percent(p)
    ensures 0.0 <= IndexAt(n, p) <= (n - 1) as real
  {
    var f, m := p / 100.0, (n - 1) as real;
    assert 0.0 <= f <= 1.0 && m >= 0.0;
    Product(f, m);
    Product(1.0 - f, m);
    assert f * m + (1.0 - f) * m == m;
  }

  function Percentile(sorted: seq<nat>, p: real): int
    requires Percent(p)
  {
    if sorted == [] then 0 else
      IndexInRange(|sorted|, p);
      ValueAt(sorted, IndexAt(|sorted|, p)).Floor
  }

  lemma LerpBetween(a: nat, b: nat, f: real)
    requires a <= b && 0.0 <= f <= 1.0
    ensures a as real <= Lerp(a, b, f) <= b as real
  {
    var d := b as real - a as real;
    assert Lerp(a, b, f) == a as real + d * f;
    assert d * f >= 0.0;
    assert Lerp(a, b, f) == b as real - d * (1.0 - f);
    assert d * (1.0 - f) >= 0.0;
  }

  lemma LerpMonotone(a: nat, b: nat, f: real, g: real)
    requires a <= b && f <= g
    ensures Lerp(a, b, f) <= Lerp(a, b, g)
  {
    var d := b as real - a as real;
    assert Lerp(a, b, g) - Lerp(a, b, f) == d * (g - f);
    assert d * (g - f) >= 0.0;
  }

  lemma ValueBetween(sorted: seq<nat>, x: real)
    requires IsSorted(sorted) && 0.0 <= x <= (|sorted| - 1) as real
    ensures 0 <= x.Floor <= Ceiling(x) < |sorted|
    ensures sorted[x.Floor] as real <= ValueAt(sorted, x) <= sorted[Ceiling(x)] as real
  {
    if x.Floor != Ceiling(x) {
      LerpBetween(sorted[x.Floor], sorted[Ceiling(x)], x - x.Floor as real);
    }
  }

  lemma ValueMonotone(sorted: seq<nat>, x: real, y: real)
    requires IsSorted(sorted) && 0.0 <= x <= y <= (|sorted| - 1) as real
    ensures ValueAt(sorted, x) <= ValueAt(sorted, y)
  {
    ValueBetween(sorted, x);
    ValueBetween(sorted, y);
    var i, j := x.Floor, y.Floor;
    if i < j {
      assert Ceiling(x) <= j;
      assert sorted[Ceiling(x)] <= sorted[j];
    } else if Ceiling(x) == i {
      assert sorted[i] <= sorted[j];
    } else {
      LerpMonotone(sorted[i], sorted[Ceiling(x)], x - i as real, y - i as real);
    }
  }

  // ---- The percentile ----

  lemma IndexMonotone(n: nat, p: real, q: real)
    requires n > 0 && p <= q
    ensures IndexAt(n, p) <= IndexAt(n, q)
  {
    var m := (n - 1) as real;
    assert IndexAt(n, q) - IndexAt(n, p) == (q / 100.0 - p / 100.0) * m;
    assert (q / 100.0 - p / 100.0) * m >= 0.0;
  }

  lemma PercentileMonotone(sorted: seq<nat>, p: real, q: real)
    requires IsSorted(sorted) && Percent(p) && Percent(q) && p <= q
    ensures Percentile(sorted, p) <= Percentile(sorted, q)
  {
    if sorted != [] {
      IndexInRange(|sorted|, p);
      IndexInRange(|sorted|, q);
      IndexMonotone(|sorted|, p, q);
      ValueMonotone(sorted, IndexAt(|sorted|, p), IndexAt(|sorted|, q));
    }
  }

  // The result lies between the two samples around the requested rank.
  lemma PercentileBetween(sorted: seq<nat>, p: real)
    requires IsSorted(sorted) && sorted != [] && Percent(p)
    ensures var x := IndexAt(|sorted|, p);
      && 0 <= x.Floor <= Ceiling(x) < |sorted|
      && sorted[x.Floor] <= Percentile(sorted, p) <= sorted[Ceiling(x)]
  {
    IndexInRange(|sorted|, p);
    ValueBetween(sorted, IndexAt(|sorted|, p));
  }

  lemma PercentileEnds(sorted: seq<nat>)
    requires IsSorted(sorted) && sorted != []
    ensures Percentile(sorted, 0.0) == sorted[0]
    ensures Percentile(sorted, 100.0) == sorted[|sorted| - 1]
    ensures forall i :: 0 <= i < |sorted| ==> sorted[0] <= sorted[i] <= sorted[|sorted| - 1]
  {
    var m := (|sorted| - 1) as real;
    assert IndexAt(|sorted|, 0.0) == 0.0 * m == 0.0;
    assert IndexAt(|sorted|, 100.0) == 1.0 * m == m;
  }

  // The interpolated value itself: between ranks i and i + 1 the percentile runs along the straight line
  // from one sample to the next, cut to an integer.
  lemma PercentileIsLinear(sorted: seq<nat>, p: real, i: nat, f: real)
    requires |sorted| > 1 && Percent(p) && i + 1 < |sorted| && 0.0 <= f <= 1.0
    requires p * (|sorted| - 1) as real == 100.0 * (i as real + f)
    ensures Percentile(sorted, p) == (sorted[i] as real + (sorted[i + 1] as real - sorted[i] as real) * f).Floor
  {
    IndexInRange(|sorted|, p);
    RankIs(|sorted|, p, i, f);
    ValueOnLine(sorted, IndexAt(|sorted|, p), i, f);
  }

  lemma RankIs(n: nat, p: real, i: nat, f: real)
    requires n > 1 && p * (n - 1) as real == 100.0 * (i as real + f)
    ensures IndexAt(n, p) == i as real + f
  {
    var m := (n - 1) as real;
    assert (p / 100.0) * m == (p * m) / 100.0;
  }

  lemma ValueOnLine(sorted: seq<nat>, x: real, i: nat, f: real)
    requires i + 1 < |sorted| && 0.0 <= f <= 1.0 && x == i as real + f && x <= (|sorted| - 1) as real
    ensures ValueAt(sorted, x) == sorted[i] as real + (sorted[i + 1] as real - sorted[i] as real) * f
  {
    var a, b := sorted[i] as real, sorted[i + 1] as real;
    if f == 1.0 {
      assert x.Floor == i + 1 == Ceiling(x);
      assert (b - a) * f == b - a;
    } else if f == 0.0 {
      assert x.Floor == i == Ceiling(x);
      assert (b - a) * f == 0.0;
    } else {
      assert x.Floor == i && Ceiling(x) == i + 1;
      LineIsLerp(a, b, f);
    }
  }

  lemma LineIsLerp(a: real, b: real, f: real)
    ensures a * (1.0 - f) + b * f == a + (b - a) * f
  {}

  // Recording the same samples in another order changes no percentile, however they are sorted.
  lemma PercentileOfMultiset(a: seq<nat>, b: seq<nat>, samples: seq<nat>, reordered: seq<nat>, p: real)
    requires Percent(p) && multiset(samples) == multiset(reordered)
    requires IsSorted(a) && multiset(a) == multiset(samples)
    requires IsSorted(b) && multiset(b) == multiset(reordered)
    ensures Percentile(a, p) == Percentile(b, p)
  {
    SortedIsUnique(a, b);
  }

  class LatencyRecorder {
    var samples: seq<nat>

    constructor ()
      ensures samples == []
    {
      samples := [];
    }

    method Record(latencyNs: nat)
      modifies this
      ensures samples == old(samples) + [latencyNs]
    {
      samples := samples + [latencyNs];
    }

    // min(), max() and the percentile accessors sort a copy.
    method Min() returns (r: int)
      ensures samples == [] ==> r == 0
      ensures samples != [] ==> r in samples && forall x :: x in samples ==> r <= x
    {
      if samples == [] {
        return 0;
      }
      var sorted := Sort(samples);
      SameMembers(sorted, samples);
      r := sorted[0];
    }

    method Max() returns (r: int)
      ensures samples == [] ==> r == 0
      ensures samples != [] ==> r in samples && forall x :: x in samples ==> x <= r
    {
      if samples == [] {
        return 0;
      }
      var sorted := Sort(samples);
      SameMembers(sorted, samples);
      r := sorted[|sorted| - 1];
    }

    method Quantile(p: real) returns (r: int)
      requires Percent(p)
      ensures forall sorted: seq<nat> :: IsSorted(sorted) && multiset(sorted) == multiset(samples) ==>
        r == Percentile(sorted, p)
    {
      var sorted := Sort(samples);
      r := Percentile(sorted, p);
      forall other: seq<nat> | IsSorted(other) && multiset(other) == multiset(samples)
        ensures r == Percentile(other, p)
      {
        SortedIsUnique(sorted, other);
      }
    }
  }
}
