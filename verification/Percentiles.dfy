/** Percentiles of benchmark samples (benchmarking/driver/benchmark_driver.py), over exact reals. */
module Percentiles {
  import opened Sorting
  import opened Wrappers

  /** `_getMedian` of a non-empty list. */
  function Median(a: seq<real>): real
    requires a != []
  {
    var n := |a|;
    if n % 2 == 1 then a[n / 2] else (a[(n - 1) / 2] + a[n / 2]) / 2.0
  }

  /** Where a percentile falls between the first and the last of n samples. */
  function Position(n: nat, p: real): real {
    (n - 1) as real * p / 100.0
  }

  /** The weighted sum of the two samples around position `k`. */
  function Interpolate(a: seq<real>, k: real): real
    requires 0.0 <= k < |a| as real
  {
    var floor := k.Floor;
    var ceil := (k + 1.0).Floor;
    if floor as real == k || ceil >= |a| then a[floor]
    else a[floor] * (ceil as real - k) + a[ceil] * (k - floor as real)
  }

  /** `_getPercentile`, with the cases it singles out. */
  function Percentile(a: seq<real>, p: real): Result<real> {
    if a == [] || p < 0.0 || p > 100.0 then Raised
    else if p == 100.0 then Ok(a[|a| - 1])
    else if p == 50.0 then Ok(Median(a))
    else
      PositionInRange(|a|, p);
      Ok(Interpolate(a, Position(|a|, p)))
  }

  function Mix(low: real, high: real, t: real): real {
    low + (high - low) * t
  }

  lemma MixGrows(low: real, high: real, t: real, u: real)
    requires low <= high && 0.0 <= t <= u <= 1.0
    ensures low <= Mix(low, high, t) <= Mix(low, high, u) <= high
  {
    Scale(high - low, 0.0, t);
    Scale(high - low, t, u);
    Scale(high - low, u, 1.0);
  }

  /** The point above `k` on the line through the samples. */
  function Lerp(a: seq<real>, k: real): real
    requires 0.0 <= k <= (|a| - 1) as real
  {
    var i := k.Floor;
    if i as real == k then a[i] else Mix(a[i], a[i + 1], k - i as real)
  }

  lemma Scale(m: real, p: real, q: real)
    requires m >= 0.0 && p <= q
    ensures m * p <= m * q
  {
    assert m * (q - p) >= 0.0;
    assert m * (q - p) == m * q - m * p;
  }

  lemma PositionInRange(n: nat, p: real)
    requires n > 0 && 0.0 <= p <= 100.0
    ensures 0.0 <= Position(n, p) <= (n - 1) as real
    ensures p < 100.0 && n > 1 ==> Position(n, p) < (n - 1) as real
  {
    var m := (n - 1) as real;
    PartOf(m, p);
    assert Position(n, p) == m * p / 100.0;
  }

  lemma PartOf(m: real, p: real)
    requires 0.0 <= m && 0.0 <= p <= 100.0
    ensures 0.0 <= m * p / 100.0 <= m
    ensures p < 100.0 && m > 0.0 ==> m * p / 100.0 < m
  {
    assert m * (p / 100.0) == m * p / 100.0;
    var part := p / 100.0;
    Scale(m, 0.0, part);
    Scale(m, part, 1.0);
    assert m > 0.0 && part < 1.0 ==> m * (1.0 - part) > 0.0;
  }

  lemma PositionGrows(n: nat, p: real, q: real)
    requires n > 0 && p <= q
    ensures Position(n, p) <= Position(n, q)
  {
    var m := (n - 1) as real;
    Scale(m, p, q);
    Hundredth(m * p, m * q);
    assert Position(n, p) == m * p / 100.0 && Position(n, q) == m * q / 100.0;
  }

  lemma Hundredth(x: real, y: real)
    requires x <= y
    ensures x / 100.0 <= y / 100.0
  {
  }

  lemma PositionReflects(n: nat, p: real)
    requires n > 0
    ensures Position(n, 100.0 - p) == (n - 1) as real - Position(n, p)
  {
    var m := (n - 1) as real;
    assert m * (100.0 - p) == m * 100.0 - m * p;
  }

  lemma HalfWay(a: seq<real>, k: real)
    requires a != [] && k == (|a| - 1) as real / 2.0
    ensures Median(a) == Lerp(a, k)
  {
    var n := |a|;
    if n % 2 == 1 {
      assert (n / 2) as real == k;
    } else {
      assert k - (n / 2 - 1) as real == 0.5;
      assert k.Floor == n / 2 - 1;
    }
  }

  lemma MedianIsMiddle(a: seq<real>)
    requires a != []
    ensures 0.0 <= Position(|a|, 50.0) <= (|a| - 1) as real && Median(a) == Lerp(a, Position(|a|, 50.0))
  {
    assert Position(|a|, 50.0) == (|a| - 1) as real / 2.0;
    HalfWay(a, Position(|a|, 50.0));
  }

  lemma InterpolateIsLerp(a: seq<real>, k: real)
    requires 0.0 <= k < (|a| - 1) as real || (|a| == 1 && k == 0.0)
    ensures Interpolate(a, k) == Lerp(a, k)
  {
    var i := k.Floor;
    assert (k + 1.0).Floor == i + 1;
    if i as real != k {
      Weights(a[i], a[i + 1], k - i as real);
      assert (i + 1) as real - k == 1.0 - (k - i as real);
      hide Mix;
    }
  }

  /** The cases for 100 and 50, the test for an integer position and the two weights all give
      linear interpolation between neighbouring samples; nothing else is accepted. */
  lemma PercentileInterpolates(a: seq<real>, p: real)
    ensures Percentile(a, p).Raised? <==> (a == [] || p < 0.0 || p > 100.0)
    ensures a != [] && 0.0 <= p <= 100.0 ==>
      0.0 <= Position(|a|, p) <= (|a| - 1) as real && Percentile(a, p) == Ok(Lerp(a, Position(|a|, p)))
  {
    if a != [] && 0.0 <= p <= 100.0 {
      PositionInRange(|a|, p);
      if p == 100.0 {
        assert Position(|a|, p) == (|a| - 1) as real;
      } else if p == 50.0 {
        MedianIsMiddle(a);
      } else {
        assert |a| == 1 ==> Position(|a|, p) == 0.0;
        hide Position, Lerp, Interpolate;
        InterpolateIsLerp(a, Position(|a|, p));
      }
    }
  }

  lemma Weights(low: real, high: real, t: real)
    ensures low * (1.0 - t) + high * t == Mix(low, high, t)
  {
  }

  /** Between the neighbouring samples. */
  lemma LerpBetween(a: seq<real>, k: real)
    requires Ascending(a) && 0.0 <= k <= (|a| - 1) as real
    ensures a[k.Floor] <= Lerp(a, k)
    ensures k.Floor + 1 < |a| ==> Lerp(a, k) <= a[k.Floor + 1]
    ensures k.Floor as real == k ==> Lerp(a, k) == a[k.Floor]
  {
    var i := k.Floor;
    assert i + 1 < |a| ==> a[i] <= a[i + 1];
    if i as real != k {
      hide Mix;
      MixGrows(a[i], a[i + 1], k - i as real, 1.0);
    }
  }

  lemma LerpGrows(a: seq<real>, j: real, k: real)
    requires Ascending(a) && 0.0 <= j <= k <= (|a| - 1) as real
    ensures Lerp(a, j) <= Lerp(a, k)
  {
    LerpBetween(a, j);
    LerpBetween(a, k);
    if j.Floor < k.Floor {
      assert j.Floor + 1 == k.Floor || a[j.Floor + 1] <= a[k.Floor];
    } else if j.Floor as real != j {
      hide Mix;
      MixGrows(a[j.Floor], a[j.Floor + 1], j - j.Floor as real, k - j.Floor as real);
    }
  }

  function Negated(a: seq<real>): (b: seq<real>)
    ensures |b| == |a|
  {
    seq(|a|, i requires 0 <= i < |a| => -a[i])
  }

  function Reversed(a: seq<real>): (b: seq<real>)
    ensures |b| == |a|
  {
    seq(|a|, i requires 0 <= i < |a| => a[|a| - 1 - i])
  }

  lemma MixReflects(low: real, high: real, t: real)
    ensures Mix(-high, -low, t) == -Mix(low, high, 1.0 - t)
  {
  }

  lemma LerpReflects(a: seq<real>, k: real)
    requires 0.0 <= k <= (|a| - 1) as real
    ensures Lerp(Reversed(Negated(a)), k) == -Lerp(a, (|a| - 1) as real - k)
  {
    var b := Reversed(Negated(a));
    var n, i := |a|, k.Floor;
    var other := (n - 1) as real - k;
    if i as real == k {
      assert other == (n - 1 - i) as real;
      assert other.Floor == n - 1 - i;
    } else {
      assert other.Floor == n - 2 - i;
      var low, high, t := a[n - 2 - i], a[n - 1 - i], k - i as real;
      assert b[i] == -high && b[i + 1] == -low;
      MixReflects(low, high, t);
    }
  }

  // The percentiles of a list of samples, in any order

  function Quantile(samples: seq<real>, p: real): (r: real)
    requires samples != [] && 0.0 <= p <= 100.0
  {
    SortedIsAscending(samples);
    PercentileInterpolates(Sorted(samples), p);
    Percentile(Sorted(samples), p).value
  }

  lemma QuantileIsLerp(samples: seq<real>, p: real)
    requires samples != [] && 0.0 <= p <= 100.0
    ensures Ascending(Sorted(samples)) && |Sorted(samples)| == |samples|
    ensures 0.0 <= Position(|samples|, p) <= (|samples| - 1) as real
    ensures Quantile(samples, p) == Lerp(Sorted(samples), Position(|samples|, p))
  {
    SortedIsAscending(samples);
    PercentileInterpolates(Sorted(samples), p);
  }

  /** Percentiles grow with the percentage. */
  lemma QuantileGrows(samples: seq<real>, p: real, q: real)
    requires samples != [] && 0.0 <= p <= q <= 100.0
    ensures Quantile(samples, p) <= Quantile(samples, q)
  {
    QuantileIsLerp(samples, p);
    QuantileIsLerp(samples, q);
    PositionGrows(|samples|, p, q);
    LerpGrows(Sorted(samples), Position(|samples|, p), Position(|samples|, q));
  }

  /** p0 and p100 are the least and the greatest sample, so every percentile is between them. */
  lemma QuantileEnds(samples: seq<real>, v: real)
    requires v in samples
    ensures Quantile(samples, 0.0) <= v <= Quantile(samples, 100.0)
    ensures Quantile(samples, 0.0) in samples && Quantile(samples, 100.0) in samples
  {
    hide Quantile, Sorted;
    var a := Sorted(samples);
    SortedIsAscending(samples);
    InBoth(samples, v);
    InBoth(samples, a[0]);
    InBoth(samples, a[|a| - 1]);
    QuantileIsLerp(samples, 0.0);
    QuantileIsLerp(samples, 100.0);
    assert Position(|a|, 0.0) == 0.0 && Position(|a|, 100.0) == (|a| - 1) as real;
  }

  lemma {:induction false} NegatedCount(s: seq<real>, v: real)
    ensures multiset(Negated(s))[v] == multiset(s)[-v]
  {
    if s != [] {
      NegatedCount(s[1..], v);
      assert s == [s[0]] + s[1..];
      assert Negated(s) == [-s[0]] + Negated(s[1..]);
    } else {
      assert Negated(s) == [];
    }
  }

  lemma NegatedSamples(s: seq<real>, t: seq<real>)
    requires multiset(s) == multiset(t)
    ensures multiset(Negated(s)) == multiset(Negated(t))
  {
    forall v: real ensures multiset(Negated(s))[v] == multiset(Negated(t))[v] {
      NegatedCount(s, v);
      NegatedCount(t, v);
    }
  }

  lemma {:induction false} ReversedSamples(s: seq<real>)
    ensures multiset(Reversed(s)) == multiset(s)
  {
    if s != [] {
      ReversedSamples(s[1..]);
      assert s == [s[0]] + s[1..];
      assert Reversed(s) == Reversed(s[1..]) + [s[0]];
    } else {
      assert Reversed(s) == s;
    }
  }

  lemma SortedReflects(samples: seq<real>)
    ensures Sorted(Negated(samples)) == Reversed(Negated(Sorted(samples)))
  {
    var a := Sorted(samples);
    SortedIsAscending(samples);
    NegatedSamples(samples, a);
    ReversedSamples(Negated(a));
    SortedIsAscending(Negated(samples));
    AscendingIsUnique(Sorted(Negated(samples)), Reversed(Negated(a)));
  }

  /** The p-th percentile of the negated samples is minus the (100-p)-th of the samples. */
  lemma QuantileReflects(samples: seq<real>, p: real)
    requires samples != [] && 0.0 <= p <= 100.0
    ensures Quantile(Negated(samples), p) == -Quantile(samples, 100.0 - p)
  {
    hide Quantile, Sorted, Lerp, Position;
    SortedReflects(samples);
    QuantileIsLerp(samples, 100.0 - p);
    QuantileIsLerp(Negated(samples), p);
    PositionReflects(|samples|, p);
    LerpReflects(Sorted(samples), Position(|samples|, p));
  }
}
