/** What the statistics of a summary say about its samples
    (benchmarking/driver/benchmark_driver.py): quantiles, mean, standard deviation and MAD. */
module Spread {
  import opened Percentiles
  import opened Sorting
  import opened StatisticNames
  import opened Statistics
  import opened Wrappers

  // Quantiles

  lemma LerpOnLine(a: seq<real>, at: real, k: nat)
    requires k + 1 < |a| && k as real <= at <= (k + 1) as real
    ensures Lerp(a, at) == Mix(a[k], a[k + 1], at - k as real)
  {
    if at == (k + 1) as real {
      assert at.Floor == k + 1;
    } else {
      assert at.Floor == k;
    }
  }

  /** Between two neighbouring samples a percentile is on the line through them. */
  lemma BetweenNeighbours(samples: seq<real>, p: Percent, k: nat)
    requires k + 1 < |samples| == |Sorted(samples)|
    requires k as real <= (|samples| - 1) as real * p / 100.0 <= (k + 1) as real
    ensures var a := Sorted(samples);
      Quantile(samples, p) == a[k] + (a[k + 1] - a[k]) * ((|samples| - 1) as real * p / 100.0 - k as real)
  {
    hide Sorted, Quantile, Lerp;
    QuantileIsLerp(samples, p);
    LerpOnLine(Sorted(samples), Position(|samples|, p), k);
  }

  /** At least half of the values are not below the median. */
  lemma HalfNotBelow(values: seq<real>)
    requires values != []
    ensures 2 * CountBelow(values, Quantile(values, 50.0)) <= |values|
  {
    var a, median := Sorted(values), Quantile(values, 50.0);
    MedianIsQuantile(values);
    SortedIsAscending(values);
    SortedCounts(values, median);
    var h := |a| / 2;
    hide Sorted, Quantile, CountBelow;
    BelowAreFirst(a, median, h);
    if |a| % 2 == 0 {
      assert (|a| - 1) / 2 == h - 1 && a[h - 1] <= a[h];
    }
  }

  // Samples scaled and shifted

  function Line(x: real, a: real, b: real): real {
    a * x + b
  }

  function Affine(s: seq<real>, a: real, b: real): seq<real> {
    if s == [] then [] else [Line(s[0], a, b)] + Affine(s[1..], a, b)
  }

  lemma {:induction false} AffineAt(s: seq<real>, a: real, b: real, i: nat)
    ensures |Affine(s, a, b)| == |s| && (i < |s| ==> Affine(s, a, b)[i] == Line(s[i], a, b))
    decreases s
  {
    hide Line;
    if s != [] {
      AffineAt(s[1..], a, b, if i == 0 then 0 else i - 1);
    }
  }

  lemma AffineCons(x: real, s: seq<real>, a: real, b: real)
    ensures Affine([x] + s, a, b) == [Line(x, a, b)] + Affine(s, a, b)
  {
    assert ([x] + s)[1..] == s;
  }

  lemma {:induction false} InsertAffine(x: real, s: seq<real>, a: real, b: real)
    ensures multiset(Affine(Insert(x, s), a, b)) == multiset(Affine(s, a, b)) + multiset{Line(x, a, b)}
  {
    hide Line;
    AffineCons(x, s, a, b);
    if s != [] && x > s[0] {
      InsertAffine(x, s[1..], a, b);
      AffineCons(s[0], Insert(x, s[1..]), a, b);
    }
  }

  lemma {:induction false} SortedSamplesAffine(s: seq<real>, a: real, b: real)
    ensures multiset(Affine(Sorted(s), a, b)) == multiset(Affine(s, a, b))
  {
    hide Line;
    if s != [] {
      AffineCons(s[0], s[1..], a, b);
      assert s == [s[0]] + s[1..];
      SortedSamplesAffine(s[1..], a, b);
      InsertAffine(s[0], Sorted(s[1..]), a, b);
    }
  }

  lemma AffineAscends(s: seq<real>, a: real, b: real)
    requires a >= 0.0 && Ascending(s)
    ensures Ascending(Affine(s, a, b))
  {
    AffineAt(s, a, b, 0);
    forall i, j | 0 <= i < j < |s| ensures Affine(s, a, b)[i] <= Affine(s, a, b)[j] {
      AffineAt(s, a, b, i);
      AffineAt(s, a, b, j);
      hide Affine;
      Scale(a, s[i], s[j]);
    }
  }

  lemma SortedAffine(s: seq<real>, a: real, b: real)
    requires a >= 0.0
    ensures Sorted(Affine(s, a, b)) == Affine(Sorted(s), a, b)
  {
    SortedIsAscending(s);
    SortedIsAscending(Affine(s, a, b));
    AffineAscends(Sorted(s), a, b);
    SortedSamplesAffine(s, a, b);
    AscendingIsUnique(Sorted(Affine(s, a, b)), Affine(Sorted(s), a, b));
  }

  lemma MixAffine(low: real, high: real, t: real, a: real, b: real)
    ensures Mix(Line(low, a, b), Line(high, a, b), t) == Line(Mix(low, high, t), a, b)
  {
    assert (a * high + b) - (a * low + b) == a * (high - low);
    assert a * (high - low) * t == a * ((high - low) * t);
    assert a * (low + (high - low) * t) == a * low + a * ((high - low) * t);
  }

  lemma LerpAffine(s: seq<real>, k: real, a: real, b: real)
    requires 0.0 <= k <= (|s| - 1) as real
    ensures |Affine(s, a, b)| == |s| && Lerp(Affine(s, a, b), k) == Line(Lerp(s, k), a, b)
  {
    hide Mix, Line, Affine;
    var i := k.Floor;
    AffineAt(s, a, b, i);
    if i as real != k {
      AffineAt(s, a, b, i + 1);
      MixAffine(s[i], s[i + 1], k - i as real, a, b);
    }
  }

  lemma QuantileAffine(s: seq<real>, p: Percent, a: real, b: real)
    requires s != [] && a >= 0.0
    ensures Affine(s, a, b) != [] && Quantile(Affine(s, a, b), p) == Line(Quantile(s, p), a, b)
  {
    hide Quantile, Sorted, Lerp, Position, Line;
    AffineAt(s, a, b, 0);
    QuantileIsLerp(s, p);
    QuantileIsLerp(Affine(s, a, b), p);
    SortedAffine(s, a, b);
    LerpAffine(Sorted(s), Position(|s|, p), a, b);
  }

  // The median distance to the median

  function Abs(x: real): real {
    if x < 0.0 then -x else x
  }

  /** It is the median of the distances. */
  lemma MedianOfDistances(samples: seq<real>, distances: seq<real>)
    requires samples != [] && |distances| == |samples|
    requires forall i | 0 <= i < |samples| :: distances[i] == Abs(samples[i] - Quantile(samples, 50.0))
    ensures MedianDistance(samples) == Quantile(distances, 50.0)
  {
    hide Quantile;
    var center := Quantile(samples, 50.0);
    DistancesLength(samples, center);
    forall i | 0 <= i < |samples| ensures Distances(samples, center)[i] == distances[i] {
      DistanceAt(samples, center, i);
    }
    assert Distances(samples, center) == distances;
  }

  lemma {:induction false} DistanceAt(samples: seq<real>, center: real, i: nat)
    requires i < |samples|
    ensures |Distances(samples, center)| == |samples| && Distances(samples, center)[i] == Abs(samples[i] - center)
    decreases samples
  {
    DistancesLength(samples, center);
    if i > 0 {
      DistanceAt(samples[1..], center, i - 1);
    }
  }

  /** How many samples lie within a radius of a point, and how many lie at least that far away. */
  function CountNear(samples: seq<real>, center: real, radius: real): nat {
    if samples == [] then 0
    else (if Abs(samples[0] - center) <= radius then 1 else 0) + CountNear(samples[1..], center, radius)
  }

  function CountFar(samples: seq<real>, center: real, radius: real): nat {
    if samples == [] then 0
    else (if Abs(samples[0] - center) >= radius then 1 else 0) + CountFar(samples[1..], center, radius)
  }

  lemma {:induction false} FarAreNotBelow(samples: seq<real>, center: real, radius: real)
    ensures CountFar(samples, center, radius) + CountBelow(Distances(samples, center), radius) == |samples|
  {
    if samples != [] {
      FarAreNotBelow(samples[1..], center, radius);
      assert Distances(samples, center)[1..] == Distances(samples[1..], center);
    }
  }

  lemma NegatedCons(x: real, s: seq<real>)
    ensures Negated([x] + s) == [-x] + Negated(s) && ([-x] + Negated(s))[1..] == Negated(s)
  {
  }

  lemma {:induction false} NearAreNotAbove(samples: seq<real>, center: real, radius: real)
    ensures CountNear(samples, center, radius) + CountBelow(Negated(Distances(samples, center)), -radius) == |samples|
  {
    if samples != [] {
      NearAreNotAbove(samples[1..], center, radius);
      NegatedCons(Distance(samples[0], center), Distances(samples[1..], center));
      hide Negated;
    }
  }

  /** It is not negative; at least half of the samples lie within it of the median, and at least half
      lie at least as far away. */
  lemma MedianDistanceHalves(samples: seq<real>)
    requires samples != []
    ensures var center, radius := Quantile(samples, 50.0), MedianDistance(samples);
      radius >= 0.0 && 2 * CountNear(samples, center, radius) >= |samples| &&
      2 * CountFar(samples, center, radius) >= |samples|
  {
    hide Quantile, CountBelow, CountNear, CountFar, Distances, Negated;
    var center, radius := Quantile(samples, 50.0), MedianDistance(samples);
    DistancesLength(samples, center);
    var distances := Distances(samples, center);
    HalfNotBelow(distances);
    FarAreNotBelow(samples, center, radius);
    QuantileReflects(distances, 50.0);
    HalfNotBelow(Negated(distances));
    NearAreNotAbove(samples, center, radius);
    QuantileEnds(distances, distances[0]);
    QuantileGrows(distances, 0.0, 50.0);
    forall v | v in distances ensures v >= 0.0 {
      var i :| 0 <= i < |distances| && distances[i] == v;
      DistanceAt(samples, center, i);
    }
  }

  lemma DistanceAffine(x: real, center: real, a: real, b: real)
    requires a >= 0.0
    ensures Distance(Line(x, a, b), Line(center, a, b)) == Line(Distance(x, center), a, 0.0)
  {
    assert a * x - a * center == a * (x - center);
    if x < center {
      Scale(a, x, center);
    } else {
      Scale(a, center, x);
    }
  }

  lemma DistancesCons(x: real, s: seq<real>, center: real)
    ensures Distances([x] + s, center) == [Distance(x, center)] + Distances(s, center)
  {
    assert ([x] + s)[1..] == s;
  }

  lemma {:induction false} DistancesAffine(s: seq<real>, center: real, a: real, b: real)
    requires a >= 0.0
    ensures Distances(Affine(s, a, b), Line(center, a, b)) == Affine(Distances(s, center), a, 0.0)
  {
    hide Distance, Line;
    if s != [] {
      DistancesAffine(s[1..], center, a, b);
      DistanceAffine(s[0], center, a, b);
      AffineCons(Distance(s[0], center), Distances(s[1..], center), a, 0.0);
      DistancesCons(Line(s[0], a, b), Affine(s[1..], a, b), Line(center, a, b));
    }
  }

  lemma {:induction false} DistancesReflect(s: seq<real>, center: real)
    ensures Distances(Negated(s), -center) == Distances(s, center)
  {
    if s != [] {
      DistancesReflect(s[1..], center);
      NegatedCons(s[0], s[1..]);
      assert s == [s[0]] + s[1..];
    }
  }

  lemma NegatedAffine(s: seq<real>, a: real, b: real)
    ensures Affine(s, a, b) == Affine(Negated(s), -a, b)
  {
    AffineAt(s, a, b, 0);
    AffineAt(Negated(s), -a, b, 0);
    forall i | 0 <= i < |s| ensures Affine(s, a, b)[i] == Affine(Negated(s), -a, b)[i] {
      AffineAt(s, a, b, i);
      AffineAt(Negated(s), -a, b, i);
    }
  }

  lemma MedianDistanceGrows(s: seq<real>, a: real, b: real)
    requires s != [] && a >= 0.0
    ensures Affine(s, a, b) != [] && MedianDistance(Affine(s, a, b)) == a * MedianDistance(s)
  {
    hide Quantile, Affine, Distances, Line;
    var center := Quantile(s, 50.0);
    QuantileAffine(s, 50.0, a, b);
    DistancesLength(s, center);
    DistancesAffine(s, center, a, b);
    QuantileAffine(Distances(s, center), 50.0, a, 0.0);
    LineThroughZero(MedianDistance(s), a);
  }

  lemma LineThroughZero(x: real, a: real)
    ensures Line(x, a, 0.0) == a * x
  {
  }

  /** A constant added to the samples leaves it as it is, and a factor changes it by its size. */
  lemma MedianDistanceScales(s: seq<real>, a: real, b: real)
    requires s != []
    ensures Affine(s, a, b) != [] && MedianDistance(Affine(s, a, b)) == Abs(a) * MedianDistance(s)
  {
    hide Quantile, Affine, Distances;
    if a >= 0.0 {
      MedianDistanceGrows(s, a, b);
    } else {
      NegatedAffine(s, a, b);
      MedianDistanceGrows(Negated(s), -a, b);
      QuantileReflects(s, 50.0);
      DistancesReflect(s, Quantile(s, 50.0));
    }
  }

  // The mean and the standard deviation

  function Squares(samples: seq<real>): real {
    if samples == [] then 0.0 else Square(samples[0]) + Squares(samples[1..])
  }

  function Times(x: real, y: real): real {
    x * y
  }

  lemma TimesSwap(x: real, y: real)
    ensures Times(x, y) == Times(y, x)
  {
  }

  lemma TimesSum(x: real, y: real, z: real)
    ensures Times(x, y + z) == Times(x, y) + Times(x, z)
    ensures Times(x, y - z) == Times(x, y) - Times(x, z)
  {
  }

  lemma SquareIs(x: real)
    ensures Square(x) == Times(x, x) && Square(x) >= 0.0
  {
  }

  /** The sum of the squared distances to a point, from the sum of the squares and the sum. */
  function Around(squares: real, sum: real, n: real, center: real): real {
    squares - 2.0 * Times(center, sum) + Times(Times(center, center), n)
  }

  lemma AroundNothing(center: real)
    ensures Around(0.0, 0.0, 0.0, center) == 0.0
  {
  }

  lemma SquareOfDifference(x: real, y: real)
    ensures Square(x - y) == Square(x) - 2.0 * Times(y, x) + Times(y, y)
  {
    hide Times, Square;
    SquareIs(x - y);
    SquareIs(x);
    TimesSum(x - y, x, y);
    TimesSwap(x - y, x);
    TimesSwap(x - y, y);
    TimesSum(x, x, y);
    TimesSum(y, x, y);
    TimesSwap(x, y);
  }

  lemma AroundGrows(x: real, squares: real, sum: real, n: real, center: real)
    ensures Square(x - center) + Around(squares, sum, n, center) ==
            Around(Square(x) + squares, x + sum, n + 1.0, center)
    ensures Square(x - center) >= 0.0
  {
    hide Times, Square;
    SquareOfDifference(x, center);
    SquareIs(x - center);
    TimesSum(center, x, sum);
    TimesSum(Times(center, center), n, 1.0);
    TimesOne(Times(center, center));
  }

  lemma TimesOne(x: real)
    ensures Times(x, 1.0) == x
  {
  }

  lemma {:induction false} SquaredDistances(samples: seq<real>, center: real)
    ensures SquaredDistance(samples, center) == Around(Squares(samples), Sum(samples), |samples| as real, center)
    ensures SquaredDistance(samples, center) >= 0.0
  {
    hide Square, Around;
    if samples == [] {
      AroundNothing(center);
    } else {
      var rest := samples[1..];
      SquaredDistances(rest, center);
      AroundGrows(samples[0], Squares(rest), Sum(rest), |rest| as real, center);
      assert |samples| as real == |rest| as real + 1.0;
    }
  }

  /** The square root squares back, and is not negative. */
  ghost predicate IsSquareRoot(squareRoot: real -> real) {
    forall x | x >= 0.0 :: squareRoot(x) >= 0.0 && squareRoot(x) * squareRoot(x) == x
  }

  lemma MeanOfAll(samples: seq<real>)
    requires samples != []
    ensures Mean(samples) * |samples| as real == Sum(samples)
  {
  }

  lemma RootOf(samples: seq<real>, squareRoot: real -> real, square: real)
    requires samples != [] && IsSquareRoot(squareRoot)
    requires square == SquaredDistance(samples, Mean(samples)) / |samples| as real && square >= 0.0
    ensures Stdev(samples, squareRoot) >= 0.0
    ensures Stdev(samples, squareRoot) * Stdev(samples, squareRoot) == square
  {
    hide SquaredDistance, Mean;
    assert Stdev(samples, squareRoot) == squareRoot(square);
  }

  /** The n-fold square of the standard deviation is the sum of the squares less that of the mean. */
  lemma StdevSquared(samples: seq<real>, squareRoot: real -> real)
    requires samples != [] && IsSquareRoot(squareRoot)
    ensures var n, stdev, mean := |samples| as real, Stdev(samples, squareRoot), Mean(samples);
      stdev >= 0.0 && stdev * stdev * n == Squares(samples) - n * mean * mean
  {
    hide Stdev, Mean, SquaredDistance, Squares, Sum, Around, IsSquareRoot;
    var n, mean := |samples| as real, Mean(samples);
    SquaredDistances(samples, mean);
    MeanOfAll(samples);
    Share(SquaredDistance(samples, mean), n);
    RootOf(samples, squareRoot, SquaredDistance(samples, mean) / n);
    AroundMean(Squares(samples), Sum(samples), n, mean);
  }

  lemma Share(total: real, n: real)
    requires total >= 0.0 && n > 0.0
    ensures total / n >= 0.0 && total / n * n == total
  {
  }

  lemma AroundMean(squares: real, sum: real, n: real, mean: real)
    requires mean * n == sum
    ensures Around(squares, sum, n, mean) == squares - n * mean * mean
  {
    MeanTwice(n, mean);
    assert Times(mean, sum) == mean * (mean * n);
  }

  lemma MeanTwice(n: real, mean: real)
    ensures mean * (mean * n) == n * mean * mean
    ensures Times(Times(mean, mean), n) == n * mean * mean
  {
  }

  // What a summary says

  lemma HeldValue(py: Floats, summary: Summary, samples: seq<real>, asked: set<string>, stat: string)
    requires samples != [] && Holds(py, summary, samples, asked) && stat in summary
    ensures Supported(py, stat) && summary[stat] == Value(py, samples, stat)
  {
    hide Value, Supported;
  }

  lemma NotPercentile(py: Floats, stat: string)
    requires stat != "" && stat[0] != 'p'
    ensures !IsPercentile(py, stat)
  {
  }

  /** What the statistics that are no percentiles are. */
  lemma NamedValue(py: Floats, samples: seq<real>, stat: string)
    requires samples != [] && stat in {"mean", "stdev", "MAD", "cv"}
    ensures Supported(py, stat)
    ensures stat == "mean" ==> Value(py, samples, stat) == Some(Mean(samples))
    ensures stat == "stdev" ==> Value(py, samples, stat) == Some(Stdev(samples, py.squareRoot))
    ensures stat == "MAD" ==> Value(py, samples, stat) == Some(MedianDistance(samples))
    ensures stat == "cv" && Mean(samples) == 0.0 ==> Value(py, samples, stat) == None
    ensures stat == "cv" && Mean(samples) != 0.0 ==>
      Value(py, samples, stat) == Some(Stdev(samples, py.squareRoot) / Mean(samples))
  {
    hide IsPercentile, Mean, Stdev, MedianDistance, Quantile;
    NotPercentile(py, stat);
  }

  lemma HeldPercentile(py: Floats, summary: Summary, samples: seq<real>, asked: set<string>, stat: string, p: Percent)
    requires samples != [] && Holds(py, summary, samples, asked) && stat in summary
    requires PercentileArgVal(py, stat) == Some(p)
    ensures summary[stat] == Some(Quantile(samples, p))
  {
    HeldValue(py, summary, samples, asked, stat);
    hide Holds, PercentileArgVal, Quantile, Mean, Stdev, MedianDistance;
  }

  /** Every percentile is that of the samples. */
  lemma SummaryPercentiles(py: Floats, summary: Summary, samples: seq<real>, asked: set<string>)
    requires samples != [] && Holds(py, summary, samples, asked)
    ensures Summarizes(py, summary, samples)
  {
    hide Holds, Quantile, PercentileArgVal;
    forall stat | Has(summary, stat) && IsPercentile(py, stat)
      ensures summary[stat].value == Quantile(samples, PercentileArgVal(py, stat).value)
    {
      HeldPercentile(py, summary, samples, asked, stat, PercentileArgVal(py, stat).value);
    }
  }

  lemma SummaryMedian(py: Floats, summary: Summary, samples: seq<real>, asked: set<string>)
    requires samples != [] && Holds(py, summary, samples, asked) && P50 in summary
    ensures summary[P50] == Some(Quantile(samples, 50.0))
  {
    hide Holds, Quantile, PercentileArgVal, Plain;
    Fifty(py);
    HeldPercentile(py, summary, samples, asked, P50, 50.0);
  }

  lemma SummaryMean(py: Floats, summary: Summary, samples: seq<real>, asked: set<string>)
    requires samples != [] && Holds(py, summary, samples, asked) && "mean" in summary
    ensures summary["mean"].Some? && summary["mean"].value * |samples| as real == Sum(samples)
  {
    hide Holds, Value, Supported, Mean, Sum;
    HeldValue(py, summary, samples, asked, "mean");
    NamedValue(py, samples, "mean");
    MeanOfAll(samples);
  }

  /** MAD is not negative, and at least half of the samples lie within it of p50, at least half at
      least as far away; it is the median of their distances. */
  lemma SummaryMad(py: Floats, summary: Summary, samples: seq<real>, asked: set<string>, distances: seq<real>)
    requires samples != [] && Holds(py, summary, samples, asked) && "MAD" in summary && P50 in summary
    requires |distances| == |samples| && summary[P50].Some?
    requires forall i | 0 <= i < |samples| :: distances[i] == Abs(samples[i] - summary[P50].value)
    ensures summary["MAD"] == Some(Quantile(distances, 50.0))
    ensures var p50, mad := summary[P50].value, summary["MAD"].value;
      mad >= 0.0 && 2 * CountNear(samples, p50, mad) >= |samples| && 2 * CountFar(samples, p50, mad) >= |samples|
  {
    hide Holds, Value, Supported, Quantile, MedianDistance, CountNear, CountFar, Abs;
    SummaryMedian(py, summary, samples, asked);
    HeldValue(py, summary, samples, asked, "MAD");
    NamedValue(py, samples, "MAD");
    MedianDistanceHalves(samples);
    MedianOfDistances(samples, distances);
  }

  /** The standard deviation, and cv: that over the mean, or no value where the mean is zero. */
  lemma SummaryDeviation(py: Floats, summary: Summary, samples: seq<real>, asked: set<string>, mean: real)
    requires samples != [] && Holds(py, summary, samples, asked) && IsSquareRoot(py.squareRoot)
    requires "stdev" in summary && mean * |samples| as real == Sum(samples)
    ensures summary["stdev"].Some?
    ensures var n, stdev := |samples| as real, summary["stdev"].value;
      stdev >= 0.0 && stdev * stdev * n == Squares(samples) - n * mean * mean
    ensures "cv" in summary ==> (summary["cv"].None? <==> mean == 0.0)
    ensures "cv" in summary && mean != 0.0 ==> summary["cv"].value * mean == summary["stdev"].value
  {
    hide Holds, Value, Supported, Mean, Stdev, Squares, Sum, IsSquareRoot;
    MeanIs(samples, mean);
    HeldValue(py, summary, samples, asked, "stdev");
    NamedValue(py, samples, "stdev");
    StdevSquared(samples, py.squareRoot);
    if "cv" in summary {
      HeldValue(py, summary, samples, asked, "cv");
      NamedValue(py, samples, "cv");
    }
    if mean != 0.0 {
      Ratio(Stdev(samples, py.squareRoot), mean);
    }
  }

  lemma MeanIs(samples: seq<real>, mean: real)
    requires samples != [] && mean * |samples| as real == Sum(samples)
    ensures mean == Mean(samples)
  {
    hide Sum;
    Ratio(Sum(samples), |samples| as real);
    SameFactor(mean, Mean(samples), |samples| as real);
  }

  lemma SameFactor(x: real, y: real, n: real)
    requires n > 0.0 && x * n == y * n
    ensures x == y
  {
    assert (x - y) * n == 0.0;
  }

  lemma Ratio(x: real, y: real)
    requires y != 0.0
    ensures x / y * y == x
  {
  }
}
