/** Summaries of benchmark samples and the difference of two of them
    (benchmarking/driver/benchmark_driver.py), over exact reals. */
module Statistics {
  import opened Percentiles
  import opened Sorting
  import opened StatisticNames
  import opened Wrappers

  const P50 := "p50"

  /** A statistic may have no value. */
  type Summary = map<string, Option<real>>

  predicate IsPercentile(py: Floats, stat: string) {
    PercentileArgVal(py, stat).Some?
  }

  predicate Supported(py: Floats, stat: string) {
    IsPercentile(py, stat) || stat in {"mean", "stdev", "MAD", "cv"}
  }

  // What the statistics are

  function Sum(samples: seq<real>): real {
    if samples == [] then 0.0 else samples[0] + Sum(samples[1..])
  }

  function Mean(samples: seq<real>): real
    requires samples != []
  {
    Sum(samples) / |samples| as real
  }

  function Square(x: real): real {
    x * x
  }

  function SquaredDistance(samples: seq<real>, center: real): real {
    if samples == [] then 0.0
    else Square(samples[0] - center) + SquaredDistance(samples[1..], center)
  }

  /** The square root is a parameter of the model. */
  function Stdev(samples: seq<real>, squareRoot: real -> real): real
    requires samples != []
  {
    squareRoot(SquaredDistance(samples, Mean(samples)) / |samples| as real)
  }

  function Distance(x: real, y: real): real {
    if x < y then y - x else x - y
  }

  function Distances(samples: seq<real>, center: real): seq<real> {
    if samples == [] then [] else [Distance(samples[0], center)] + Distances(samples[1..], center)
  }

  lemma {:induction false} DistancesLength(samples: seq<real>, center: real)
    ensures |Distances(samples, center)| == |samples|
  {
    if samples != [] {
      DistancesLength(samples[1..], center);
    }
  }

  /** The median distance to the median. */
  function MedianDistance(samples: seq<real>): real
    requires samples != []
  {
    var center := Quantile(samples, 50.0);
    DistancesLength(samples, center);
    Quantile(Distances(samples, center), 50.0)
  }

  function Value(py: Floats, samples: seq<real>, stat: string): Option<real>
    requires samples != [] && Supported(py, stat)
  {
    if IsPercentile(py, stat) then Some(Quantile(samples, PercentileArgVal(py, stat).value))
    else if stat == "mean" then Some(Mean(samples))
    else if stat == "stdev" then Some(Stdev(samples, py.squareRoot))
    else if stat == "MAD" then Some(MedianDistance(samples))
    else if Mean(samples) == 0.0 then None
    else Some(Stdev(samples, py.squareRoot) / Mean(samples))
  }

  // None of them depends on the order of the samples

  lemma {:induction false} InsertSums(x: real, s: seq<real>, center: real)
    ensures Sum(Insert(x, s)) == x + Sum(s)
    ensures SquaredDistance(Insert(x, s), center) == Square(x - center) + SquaredDistance(s, center)
  {
    hide Square;
    assert ([x] + s)[1..] == s;
    if s != [] && x > s[0] {
      InsertSums(x, s[1..], center);
      assert ([s[0]] + Insert(x, s[1..]))[1..] == Insert(x, s[1..]);
    }
  }

  lemma {:induction false} SortedSums(s: seq<real>, center: real)
    ensures Sum(Sorted(s)) == Sum(s) && SquaredDistance(Sorted(s), center) == SquaredDistance(s, center)
  {
    hide Square;
    if s != [] {
      SortedSums(s[1..], center);
      InsertSums(s[0], Sorted(s[1..]), center);
    }
  }

  lemma {:induction false} InsertDistances(x: real, s: seq<real>, center: real)
    ensures multiset(Distances(Insert(x, s), center)) == multiset(Distances(s, center)) + multiset{Distance(x, center)}
  {
    assert ([x] + s)[1..] == s;
    if s != [] && x > s[0] {
      InsertDistances(x, s[1..], center);
      assert ([s[0]] + Insert(x, s[1..]))[1..] == Insert(x, s[1..]);
    }
  }

  lemma {:induction false} SortedDistances(s: seq<real>, center: real)
    ensures multiset(Distances(Sorted(s), center)) == multiset(Distances(s, center))
  {
    if s != [] {
      SortedDistances(s[1..], center);
      InsertDistances(s[0], Sorted(s[1..]), center);
    }
  }

  lemma SameQuantile(s: seq<real>, t: seq<real>, p: Percent)
    requires multiset(s) == multiset(t) && s != [] && t != []
    ensures Quantile(s, p) == Quantile(t, p)
  {
    SortedForgetsOrder(s, t);
  }

  lemma SameMedianDistance(s: seq<real>, t: seq<real>)
    requires Sorted(s) == Sorted(t) && multiset(s) == multiset(t) && s != [] && t != []
    ensures MedianDistance(s) == MedianDistance(t)
  {
    var center := Quantile(s, 50.0);
    SameQuantile(s, t, 50.0);
    SortedDistances(s, center);
    SortedDistances(t, center);
    DistancesLength(s, center);
    DistancesLength(t, center);
    SameQuantile(Distances(s, center), Distances(t, center), 50.0);
  }

  /** A benchmark's summary depends on its samples only, not on the order they came in. */
  lemma ValueForgetsOrder(py: Floats, s: seq<real>, t: seq<real>, stat: string)
    requires multiset(s) == multiset(t) && s != [] && Supported(py, stat)
    ensures t != [] && Value(py, s, stat) == Value(py, t, stat)
  {
    assert |s| == |multiset(s)| == |multiset(t)| == |t|;
    SortedForgetsOrder(s, t);
    var center := Mean(s);
    SortedSums(s, center);
    SortedSums(t, center);
    if IsPercentile(py, stat) {
      SameQuantile(s, t, PercentileArgVal(py, stat).value);
    } else {
      SameMedianDistance(s, t);
    }
  }

  lemma {:induction false} SumBetween(s: seq<real>, low: real, high: real)
    requires forall i | 0 <= i < |s| :: low <= s[i] <= high
    ensures |s| as real * low <= Sum(s) <= |s| as real * high
  {
    if s != [] {
      SumBetween(s[1..], low, high);
    }
  }

  lemma Average(sum: real, count: real, low: real, high: real)
    requires count > 0.0 && count * low <= sum <= count * high
    ensures low <= sum / count <= high
  {
    assert sum / count * count == sum;
  }

  /** The mean lies between p0 and p100. */
  lemma MeanBetweenEnds(samples: seq<real>)
    requires samples != []
    ensures Quantile(samples, 0.0) <= Mean(samples) <= Quantile(samples, 100.0)
  {
    hide Quantile;
    var low, high := Quantile(samples, 0.0), Quantile(samples, 100.0);
    forall i | 0 <= i < |samples| ensures low <= samples[i] <= high {
      QuantileEnds(samples, samples[i]);
    }
    SumBetween(samples, low, high);
    Average(Sum(samples), |samples| as real, low, high);
  }

  // `_getStatistics`

  lemma MedianIsQuantile(samples: seq<real>)
    requires samples != []
    ensures Sorted(samples) != [] && Median(Sorted(samples)) == Quantile(samples, 50.0)
  {
    QuantileIsLerp(samples, 50.0);
    MedianIsMiddle(Sorted(samples));
  }

  /** The sorted distances are taken from the sorted samples. */
  lemma DistanceMedian(samples: seq<real>, center: real)
    requires samples != [] && center == Quantile(samples, 50.0)
    ensures var distances := Sorted(Distances(Sorted(samples), center));
      distances != [] && Median(distances) == MedianDistance(samples)
  {
    var distances := Distances(samples, center);
    DistancesLength(samples, center);
    SortedDistances(samples, center);
    SortedForgetsOrder(Distances(Sorted(samples), center), distances);
    MedianIsQuantile(distances);
  }

  /** The statistics computed by name; p50 is among them. */
  function MetaValues(mean: real, median: real, stdev: real, distance: real): Summary {
    map[
      "mean" := Some(mean),
      P50 := Some(median),
      "stdev" := Some(stdev),
      "MAD" := Some(distance),
      "cv" := if mean != 0.0 then Some(stdev / mean) else None
    ]
  }

  lemma MetaValuesAgree(py: Floats, samples: seq<real>, meta: Summary, stat: string)
    requires samples != []
    requires meta ==
      MetaValues(Mean(samples), Quantile(samples, 50.0), Stdev(samples, py.squareRoot), MedianDistance(samples))
    ensures stat in meta <==> Supported(py, stat) && (IsPercentile(py, stat) ==> stat == P50)
    ensures stat in meta ==> meta[stat] == Value(py, samples, stat)
  {
    hide Mean, Quantile, Stdev, MedianDistance;
    Fifty(py);
  }

  function Names(stats: seq<string>): set<string> {
    set stat | stat in stats
  }

  lemma NamesGrow(stats: seq<string>, i: nat)
    requires i < |stats|
    ensures Names(stats[..i + 1]) == Names(stats[..i]) + {stats[i]} && stats[..|stats|] == stats
  {
    assert stats[..i + 1] == stats[..i] + [stats[i]];
  }

  lemma HoldsMore(py: Floats, summary: Summary, samples: seq<real>, asked: set<string>, stat: string,
                  value: Option<real>)
    requires samples != [] && Holds(py, summary, samples, asked)
    requires Supported(py, stat) && value == Value(py, samples, stat)
    ensures Holds(py, summary[stat := value], samples, asked + {stat})
  {
    hide Value, Supported;
  }

  /** The summary holds what was asked for so far. */
  ghost predicate Holds(py: Floats, summary: Summary, samples: seq<real>, asked: set<string>)
    requires samples != []
  {
    summary.Keys == asked &&
    forall stat | stat in summary :: Supported(py, stat) && summary[stat] == Value(py, samples, stat)
  }

  lemma NothingHeld(py: Floats, samples: seq<real>)
    ensures samples != [] ==> Holds(py, map[], samples, Names([]))
  {
  }

  lemma AllNamed(py: Floats, summary: Summary, samples: seq<real>, stats: seq<string>, asked: seq<string>)
    requires samples != [] && asked == if P50 in stats then stats else stats + [P50]
    requires Holds(py, summary, samples, Names(asked[..|asked|]))
    ensures Holds(py, summary, samples, Names(stats) + {P50})
    ensures forall stat | stat in stats :: Supported(py, stat)
  {
    hide Supported, Value;
    assert asked[..|asked|] == asked;
    assert Names(asked) == Names(stats) + {P50};
    assert forall stat | stat in stats :: stat in summary;
  }

  /** `_getStatistics` appends "p50" to the list it is given, the second result. No samples give
      no statistics; a name that is not known raises. */
  method GetStatistics(py: Floats, samples: seq<real>, stats: seq<string>)
    returns (results: Result<Summary>, asked: seq<string>)
    ensures samples == [] ==> results == Ok(map[]) && asked == stats
    ensures samples != [] ==> asked == if P50 in stats then stats else stats + [P50]
    ensures samples != [] ==> (results.Raised? <==> exists stat :: stat in stats && !Supported(py, stat))
    ensures samples != [] && results.Ok? ==>
      Holds(py, results.value, samples, Names(stats) + {P50})
  {
    asked := stats;
    if samples == [] {
      return Ok(map[]), asked;
    }
    if P50 !in asked {
      asked := asked + [P50];
    }
    hide Quantile, Percentile, MedianDistance, Mean, Stdev, MetaValues, Value, Supported, Median, Distances, Holds;
    var sorted := Sorted(samples);
    MedianIsQuantile(samples);
    var median := Median(sorted);
    DistanceMedian(samples, median);
    var distance := Median(Sorted(Distances(sorted, median)));
    var metaValues := MetaValues(Mean(samples), median, Stdev(samples, py.squareRoot), distance);
    var summary: Summary := map[];
    NothingHeld(py, samples);
    for i := 0 to |asked|
      invariant Holds(py, summary, samples, Names(asked[..i]))
    {
      var stat := asked[i];
      NamesGrow(asked, i);
      MetaValuesAgree(py, samples, metaValues, stat);
      PercentStatistic(py, samples, stat);
      if stat in metaValues {
        HoldsMore(py, summary, samples, Names(asked[..i]), stat, metaValues[stat]);
        summary := summary[stat := metaValues[stat]];
      } else if !IsPercentile(py, stat) {
        assert stat != P50 && !Supported(py, stat);
        return Raised, asked;
      } else {
        var value := Some(Percentile(sorted, PercentileArgVal(py, stat).value).value);
        HoldsMore(py, summary, samples, Names(asked[..i]), stat, value);
        summary := summary[stat := value];
      }
    }
    AllNamed(py, summary, samples, stats, asked);
    results := Ok(summary);
  }

  lemma PercentStatistic(py: Floats, samples: seq<real>, stat: string)
    requires samples != []
    ensures IsPercentile(py, stat) ==> Supported(py, stat)
    ensures IsPercentile(py, stat) ==> Percentile(Sorted(samples), PercentileArgVal(py, stat).value).Ok?
    ensures IsPercentile(py, stat) ==>
      Value(py, samples, stat) == Some(Percentile(Sorted(samples), PercentileArgVal(py, stat).value).value)
  {
    if IsPercentile(py, stat) {
      PercentileOfSamples(samples, PercentileArgVal(py, stat).value);
    }
  }

  lemma PercentileOfSamples(samples: seq<real>, p: Percent)
    requires samples != []
    ensures Percentile(Sorted(samples), p) == Ok(Quantile(samples, p))
  {
    QuantileIsLerp(samples, p);
    PercentileInterpolates(Sorted(samples), p);
  }

  // The difference of two summaries

  /** The statistics present with a value. */
  predicate Has(summary: Summary, stat: string) {
    stat in summary && summary[stat].Some?
  }

  ghost predicate IsDiff(py: Floats, control: Summary, treatment: Summary, diff: map<string, real>) {
    (forall stat :: stat in diff <==> Has(treatment, stat) && Has(control, Mirror(py, stat))) &&
    (forall stat | stat in diff :: diff[stat] == treatment[stat].value - control[Mirror(py, stat)].value)
  }

  /** `_createDiffOfDelay`, before rounding. */
  method CreateDiffOfDelay(py: Floats, control: Summary, treatment: Summary) returns (diff: map<string, real>)
    ensures IsDiff(py, control, treatment, diff)
    ensures forall stat | IsPercentile(py, stat) ::
      var mirror := PrintPercent(py, 100.0 - PercentileArgVal(py, stat).value);
      (stat in diff <==> Has(treatment, stat) && Has(control, mirror)) &&
      (stat in diff ==> diff[stat] == treatment[stat].value - control[mirror].value)
    ensures forall stat | !IsPercentile(py, stat) ::
      (stat in diff <==> Has(treatment, stat) && Has(control, stat)) &&
      (stat in diff ==> diff[stat] == treatment[stat].value - control[stat].value)
  {
    hide PrintPercent, PercentileArgVal;
    diff := map[];
    var keys := treatment.Keys;
    while keys != {}
      invariant keys <= treatment.Keys
      invariant forall stat :: stat in diff <==>
        stat in treatment.Keys - keys && Has(treatment, stat) && Has(control, Mirror(py, stat))
      invariant forall stat | stat in diff :: diff[stat] == treatment[stat].value - control[Mirror(py, stat)].value
    {
      var key :| key in keys;
      keys := keys - {key};
      if treatment[key].Some? {
        var arg := PercentileArgVal(py, key);
        if arg.Some? {
          var reflection := PrintPercent(py, 100.0 - arg.value);
          if reflection in control && control[reflection].Some? {
            diff := diff[key := treatment[key].value - control[reflection].value];
          }
        } else if key in control && control[key].Some? {
          diff := diff[key := treatment[key].value - control[key].value];
        }
      }
    }
  }

  /** Swapping treatment and control mirrors the entry and negates it. */
  ghost predicate Antisymmetric(py: Floats, stat: string, control: Summary, treatment: Summary) {
    forall diff, swapped | IsDiff(py, control, treatment, diff) && IsDiff(py, treatment, control, swapped) ::
      stat in diff ==> Mirror(py, stat) in swapped && swapped[Mirror(py, stat)] == -diff[stat]
  }

  /** The diff is antisymmetric in a statistic exactly when its name is spelt plainly: "p5" is,
      "p05" is not, since its mirror's mirror is "p5". */
  lemma AntisymmetricIffPlain(py: Floats, stat: string)
    requires Legible(py, stat)
    ensures (forall control, treatment :: Antisymmetric(py, stat, control, treatment)) <==> Plain(py, stat)
  {
    hide Mirror, Plain, Legible;
    MirrorTwice(py, stat);
    if Plain(py, stat) {
      forall control, treatment ensures Antisymmetric(py, stat, control, treatment) {
      }
    } else {
      NotAntisymmetric(py, stat);
    }
  }

  lemma NotAntisymmetric(py: Floats, stat: string)
    requires Mirror(py, Mirror(py, stat)) != stat
    ensures exists control, treatment :: !Antisymmetric(py, stat, control, treatment)
  {
    hide Mirror;
    var mirror := Mirror(py, stat);
    var treatment: Summary := map[stat := Some(1.0)];
    var control: Summary := map[mirror := Some(0.0)];
    var diff := map[stat := 1.0];
    var swapped: map<string, real> := map[];
    assert IsDiff(py, control, treatment, diff);
    assert forall other :: Has(control, other) ==> other == mirror;
    assert IsDiff(py, treatment, control, swapped);
    assert !Antisymmetric(py, stat, control, treatment);
  }

  /** A summary whose percentiles are those of the samples. */
  ghost predicate Summarizes(py: Floats, summary: Summary, samples: seq<real>) {
    samples != [] &&
    forall stat | Has(summary, stat) && IsPercentile(py, stat) ::
      summary[stat].value == Quantile(samples, PercentileArgVal(py, stat).value)
  }

  /** What a summary of samples gives for the mirror of a percentile. */
  lemma MirrorSummarizes(py: Floats, summary: Summary, samples: seq<real>, stat: string)
    requires Summarizes(py, summary, samples) && IsPercentile(py, stat) && Legible(py, stat)
    requires Has(summary, Mirror(py, stat))
    ensures summary[Mirror(py, stat)].value == Quantile(samples, 100.0 - PercentileArgVal(py, stat).value)
  {
    hide Mirror, Legible, Quantile;
    MirrorTwice(py, stat);
  }

  /** A percentile of the diff is the treatment's plus that of the negated control samples, so
      the percentiles of the diff grow with the percentage. */
  lemma DiffGrows(py: Floats, control: seq<real>, treatment: seq<real>, csummary: Summary, tsummary: Summary,
                  diff: map<string, real>, low: string, high: string, p: Percent, q: Percent)
    requires Summarizes(py, csummary, control) && Summarizes(py, tsummary, treatment)
    requires IsDiff(py, csummary, tsummary, diff) && low in diff && high in diff
    requires Legible(py, low) && Legible(py, high)
    requires PercentileArgVal(py, low) == Some(p) && PercentileArgVal(py, high) == Some(q) && p <= q
    ensures diff[low] == Quantile(treatment, p) + Quantile(Negated(control), p)
    ensures diff[low] <= diff[high]
  {
    hide Quantile, Mirror, Legible;
    MirrorSummarizes(py, csummary, control, low);
    MirrorSummarizes(py, csummary, control, high);
    QuantileReflects(control, p);
    QuantileGrows(treatment, p, q);
    QuantileGrows(control, 100.0 - q, 100.0 - p);
  }

  lemma DiffAtEnds(py: Floats, control: seq<real>, treatment: seq<real>, csummary: Summary, tsummary: Summary,
                   diff: map<string, real>, stat: string, p: Percent)
    requires Summarizes(py, csummary, control) && Summarizes(py, tsummary, treatment)
    requires IsDiff(py, csummary, tsummary, diff) && stat in diff
    requires PercentileArgVal(py, stat) == Some(p) && Whole(p)
    ensures diff[stat] == Quantile(treatment, p) - Quantile(control, 100.0 - p)
  {
    hide Quantile, Mirror, Legible, Whole, PercentileArgVal, IsDiff, Summarizes, Has;
    WholeIsLegible(py, stat);
    DiffEntry(py, csummary, tsummary, diff, stat);
    SummaryEntry(py, tsummary, treatment, stat, p);
    MirrorSummarizes(py, csummary, control, stat);
  }

  lemma DiffEntry(py: Floats, csummary: Summary, tsummary: Summary, diff: map<string, real>, stat: string)
    requires IsDiff(py, csummary, tsummary, diff) && stat in diff
    ensures Has(tsummary, stat) && Has(csummary, Mirror(py, stat))
    ensures diff[stat] == tsummary[stat].value - csummary[Mirror(py, stat)].value
  {
    hide Mirror;
  }

  lemma SummaryEntry(py: Floats, summary: Summary, samples: seq<real>, stat: string, p: Percent)
    requires Summarizes(py, summary, samples) && Has(summary, stat) && PercentileArgVal(py, stat) == Some(p)
    ensures samples != [] && summary[stat].value == Quantile(samples, p)
  {
    hide Quantile, PercentileArgVal;
  }

  lemma EndsBracket(control: seq<real>, treatment: seq<real>, t: real, c: real)
    requires t in treatment && c in control
    ensures Quantile(treatment, 0.0) - Quantile(control, 100.0) <= t - c <=
            Quantile(treatment, 100.0) - Quantile(control, 0.0)
    ensures Quantile(treatment, 0.0) in treatment && Quantile(treatment, 100.0) in treatment
    ensures Quantile(control, 0.0) in control && Quantile(control, 100.0) in control
  {
    hide Quantile;
    QuantileEnds(treatment, t);
    QuantileEnds(control, c);
  }

  /** p0 and p100 of the diff are the least and the greatest difference of a treatment sample
      and a control sample. */
  lemma DiffBrackets(py: Floats, control: seq<real>, treatment: seq<real>, csummary: Summary, tsummary: Summary,
                     diff: map<string, real>, p0: string, p100: string, t: real, c: real)
    requires Summarizes(py, csummary, control) && Summarizes(py, tsummary, treatment)
    requires IsDiff(py, csummary, tsummary, diff) && p0 in diff && p100 in diff
    requires PercentileArgVal(py, p0) == Some(0.0) && PercentileArgVal(py, p100) == Some(100.0)
    requires t in treatment && c in control
    ensures diff[p0] <= t - c <= diff[p100]
    ensures exists t', c' :: t' in treatment && c' in control && diff[p0] == t' - c'
    ensures exists t', c' :: t' in treatment && c' in control && diff[p100] == t' - c'
  {
    hide Quantile, Summarizes, IsDiff, PercentileArgVal;
    DiffAtEnds(py, control, treatment, csummary, tsummary, diff, p0, 0.0);
    DiffAtEnds(py, control, treatment, csummary, tsummary, diff, p100, 100.0);
    EndsBracket(control, treatment, t, c);
  }
}
