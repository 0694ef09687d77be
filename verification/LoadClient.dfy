/** The load client's interpolated percentile. */
module LoadClient {

  ghost predicate Ascending(xs: seq<real>) {
    forall i, j :: 0 <= i <= j < |xs| ==> xs[i] <= xs[j]
  }

  function Portion(m: real, pct: real): real {
    m * (pct / 100.0)
  }

  /** Where the percentile falls among n samples, counting from 0. */
  function Rank(n: nat, pct: real): (k: real)
    requires n > 0 && 0.0 <= pct <= 100.0
    ensures 0.0 <= k <= (n - 1) as real
  {
    var m := (n - 1) as real;
    PortionRises(m, pct, 100.0);
    PortionEnds(m);
    Portion(m, pct)
  }

  function Interpolate(a: real, b: real, f: real): real {
    a + (b - a) * f
  }

  function Upper(n: nat, lo: nat): nat
    requires lo < n
  {
    if lo + 1 < n - 1 then lo + 1 else n - 1
  }

  /** `_pct`; an empty list gives 0. */
  function Percentile(xs: seq<real>, pct: real): (r: real)
    requires 0.0 <= pct <= 100.0
    ensures |xs| == 0 ==> r == 0.0
    ensures |xs| == 1 ==> r == xs[0]
  {
    if |xs| == 0 then 0.0
    else
      var k := Rank(|xs|, pct);
      var lo := k.Floor;
      Interpolate(xs[lo], xs[Upper(|xs|, lo)], k - lo as real)
  }

  // ----------------------------------------------------- multiplication, once

  lemma Scaled(d: real, f: real, g: real)
    requires 0.0 <= d && 0.0 <= f <= g
    ensures 0.0 <= d * f <= d * g
  {
    assert d * g - d * f == d * (g - f);
  }

  lemma InterpolateRises(a: real, b: real, f: real, g: real)
    requires a <= b && 0.0 <= f <= g
    ensures Interpolate(a, b, f) <= Interpolate(a, b, g)
  {
    Scaled(b - a, f, g);
  }

  lemma InterpolateEnds(a: real, b: real)
    ensures Interpolate(a, b, 0.0) == a && Interpolate(a, b, 1.0) == b
  {
  }

  lemma Distribute(x: real, y: real, d: real)
    ensures (x - y) * d == x * d - y * d && d * (x - y) == d * x - d * y
  {
  }

  lemma Convex(a: real, b: real, f: real, g: real)
    requires f + g == 1.0
    ensures Interpolate(a, b, f) == a * g + b * f
  {
    Distribute(b, a, f);
    Distribute(1.0, f, a);
  }

  lemma Weighted(x: real, y: real, d: real)
    requires x <= y && 0.0 <= d
    ensures x * d <= y * d
  {
    Scaled(y - x, 0.0, d);
    Distribute(y, x, d);
  }

  lemma InterpolateFollows(a: real, b: real, a': real, b': real, f: real)
    requires a <= a' && b <= b' && 0.0 <= f <= 1.0
    ensures Interpolate(a, b, f) <= Interpolate(a', b', f)
  {
    var g := 1.0 - f;
    var p, q, p', q' := a * g, b * f, a' * g, b' * f;
    Convex(a, b, f, g);
    Convex(a', b', f, g);
    Weighted(a, a', g);
    Weighted(b, b', f);
    assert p <= p' && q <= q';
    assert Interpolate(a, b, f) == p + q && Interpolate(a', b', f) == p' + q';
  }

  lemma PortionRises(m: real, p: real, q: real)
    requires 0.0 <= m && 0.0 <= p <= q
    ensures 0.0 <= Portion(m, p) <= Portion(m, q)
  {
    var f, g := p / 100.0, q / 100.0;
    Scaled(m, f, g);
  }

  lemma PortionEnds(m: real)
    ensures Portion(m, 0.0) == 0.0 && Portion(m, 100.0) == m
  {
    assert 0.0 / 100.0 == 0.0 && 100.0 / 100.0 == 1.0;
  }

  lemma FloorRises(j: real, k: real)
    requires j <= k
    ensures j.Floor <= k.Floor
  {
    assert j.Floor as real <= j && k < k.Floor as real + 1.0;
  }

  // ------------------------------------------------------------- the promises

  /** Between the two samples around it. */
  lemma BetweenNeighbours(xs: seq<real>, pct: real)
    requires |xs| > 0 && Ascending(xs) && 0.0 <= pct <= 100.0
    ensures var lo := Rank(|xs|, pct).Floor;
      0 <= lo < |xs| && xs[lo] <= Percentile(xs, pct) <= xs[Upper(|xs|, lo)]
  {
    var k := Rank(|xs|, pct);
    var lo := k.Floor;
    var a, b := xs[lo], xs[Upper(|xs|, lo)];
    InterpolateEnds(a, b);
    InterpolateRises(a, b, 0.0, k - lo as real);
    InterpolateRises(a, b, k - lo as real, 1.0);
  }

  /** Scaling a share of m up to a percentage of it, and back. */
  lemma PortionOf(m: real, x: real)
    requires 0.0 <= x <= m && m > 0.0
    ensures 0.0 <= 100.0 * x / m <= 100.0
    ensures Portion(m, 100.0 * x / m) == x
  {
    var pct := 100.0 * x / m;
    assert pct * m == 100.0 * x;
    assert (100.0 - pct) * m >= 0.0;
    assert m * (pct / 100.0) == m * pct / 100.0;
  }

  /** Linear interpolation: the samples stand at evenly spaced percentages, and between two of them
      the percentile runs along the straight line. */
  lemma PercentileIsLinear(xs: seq<real>, i: nat, f: real)
    requires i + 1 < |xs| && 0.0 <= f <= 1.0
    ensures 0.0 <= 100.0 * (i as real + f) / (|xs| - 1) as real <= 100.0
    ensures Percentile(xs, 100.0 * (i as real + f) / (|xs| - 1) as real) == (1.0 - f) * xs[i] + f * xs[i + 1]
  {
    var m, k := (|xs| - 1) as real, i as real + f;
    PortionOf(m, k);
    assert Rank(|xs|, 100.0 * k / m) == k;
    if f == 1.0 {
      assert k.Floor == i + 1;
      InterpolateEnds(xs[i + 1], xs[Upper(|xs|, i + 1)]);
    } else {
      assert k.Floor == i;
      Convex(xs[i], xs[i + 1], f, 1.0 - f);
    }
  }

  /** So each sample is met at its own rank, and the median of two is their mean. */
  lemma SamplesAreMet(xs: seq<real>, i: nat)
    requires |xs| >= 2 && i < |xs|
    ensures 0.0 <= 100.0 * i as real / (|xs| - 1) as real <= 100.0
    ensures Percentile(xs, 100.0 * i as real / (|xs| - 1) as real) == xs[i]
    ensures |xs| == 2 ==> Percentile(xs, 50.0) == (xs[0] + xs[1]) / 2.0
  {
    if i + 1 < |xs| {
      PercentileIsLinear(xs, i, 0.0);
    } else {
      PercentileIsLinear(xs, i - 1, 1.0);
    }
    if |xs| == 2 {
      PercentileIsLinear(xs, 0, 0.5);
    }
  }

  /** Between the least and the greatest sample, and each of them at its end of the scale. */
  lemma StaysInRange(xs: seq<real>, pct: real)
    requires |xs| > 0 && Ascending(xs) && 0.0 <= pct <= 100.0
    ensures xs[0] <= Percentile(xs, pct) <= xs[|xs| - 1]
    ensures Percentile(xs, 0.0) == xs[0] && Percentile(xs, 100.0) == xs[|xs| - 1]
  {
    PortionEnds((|xs| - 1) as real);
    BetweenNeighbours(xs, pct);
    BetweenNeighbours(xs, 100.0);
    assert ((|xs| - 1) as real).Floor == |xs| - 1;
    InterpolateEnds(xs[0], xs[Upper(|xs|, 0)]);
  }

  /** Monotone in the percentage, also across samples. */
  lemma MonotoneInPct(xs: seq<real>, p: real, q: real)
    requires Ascending(xs) && 0.0 <= p <= q <= 100.0
    ensures Percentile(xs, p) <= Percentile(xs, q)
  {
    if |xs| > 0 {
      var j, k := Rank(|xs|, p), Rank(|xs|, q);
      PortionRises((|xs| - 1) as real, p, q);
      FloorRises(j, k);
      BetweenNeighbours(xs, p);
      BetweenNeighbours(xs, q);
      if j.Floor == k.Floor {
        var lo := j.Floor;
        InterpolateRises(xs[lo], xs[Upper(|xs|, lo)], j - lo as real, k - lo as real);
      }
    }
  }

  lemma MedianBelowTail(xs: seq<real>)
    requires Ascending(xs)
    ensures Percentile(xs, 50.0) <= Percentile(xs, 95.0)
  {
    MonotoneInPct(xs, 50.0, 95.0);
  }

  /** Monotone in the samples: if no sample gets smaller, no percentile does. */
  lemma MonotoneInSamples(xs: seq<real>, ys: seq<real>, pct: real)
    requires |xs| == |ys| && 0.0 <= pct <= 100.0
    requires forall i :: 0 <= i < |xs| ==> xs[i] <= ys[i]
    ensures Percentile(xs, pct) <= Percentile(ys, pct)
  {
    if |xs| > 0 {
      var k := Rank(|xs|, pct);
      var lo := k.Floor;
      var hi := Upper(|xs|, lo);
      InterpolateFollows(xs[lo], xs[hi], ys[lo], ys[hi], k - lo as real);
    }
  }
}
