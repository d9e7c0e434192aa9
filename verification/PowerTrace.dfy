/** Finding the benchmark in a power trace (benchmarking/utils/power_utils.py). */
module PowerTrace {
  import opened Wrappers

  // ------------------------------------------------------------ the step filter

  /** The sum of the samples in [lo, hi). */
  function Sum(data: seq<real>, lo: nat, hi: nat): real
    requires hi <= |data|
    decreases hi
  {
    if hi <= lo then 0.0 else Sum(data, lo, hi - 1) + data[hi - 1]
  }

  lemma {:induction false} SumSplitsFirst(data: seq<real>, lo: nat, hi: nat)
    requires lo < hi <= |data|
    ensures Sum(data, lo, hi) == data[lo] + Sum(data, lo + 1, hi)
    decreases hi
  {
    if lo + 1 < hi {
      SumSplitsFirst(data, lo, hi - 1);
    }
  }

  /** How much more the half window from c on holds than the half window before c. */
  function Step(data: seq<real>, half: nat, c: nat): real
    requires half <= c && c + half <= |data|
  {
    Sum(data, c, c + half) - Sum(data, c - half, c)
  }

  lemma StepMoves(data: seq<real>, half: nat, i: nat)
    requires i + 2 * half < |data|
    ensures Step(data, half, i + half + 1) ==
            Step(data, half, i + half) + data[i] - 2.0 * data[i + half] + data[i + 2 * half]
  {
    SumSplitsFirst(data, i, i + half + 1);
    SumSplitsFirst(data, i + half, i + 2 * half + 1);
  }

  /** numpy's argmax and argmin: the first position of an extreme value. */
  ghost predicate IsArgMax(xs: seq<real>, k: nat) {
    k < |xs| && (forall j | 0 <= j < |xs| :: xs[j] <= xs[k]) && forall j | 0 <= j < k :: xs[j] < xs[k]
  }

  ghost predicate IsArgMin(xs: seq<real>, k: nat) {
    k < |xs| && (forall j | 0 <= j < |xs| :: xs[k] <= xs[j]) && forall j | 0 <= j < k :: xs[k] < xs[j]
  }

  method ArgMax(xs: seq<real>) returns (k: nat)
    requires xs != []
    ensures IsArgMax(xs, k)
  {
    k := 0;
    for i := 1 to |xs|
      invariant k < i && (forall j | 0 <= j < i :: xs[j] <= xs[k]) && forall j | 0 <= j < k :: xs[j] < xs[k]
    {
      if xs[i] > xs[k] {
        k := i;
      }
    }
  }

  method ArgMin(xs: seq<real>) returns (k: nat)
    requires xs != []
    ensures IsArgMin(xs, k)
  {
    k := 0;
    for i := 1 to |xs|
      invariant k < i && (forall j | 0 <= j < i :: xs[k] <= xs[j]) && forall j | 0 <= j < k :: xs[k] < xs[j]
    {
      if xs[i] < xs[k] {
        k := i;
      }
    }
  }

  /** Positions a full window can be centred on. */
  predicate Centre(data: seq<real>, half: nat, c: nat) {
    half <= c && c + half <= |data|
  }

  /** The first position with the largest step up, and the first with the largest step down. */
  ghost predicate Edges(data: seq<real>, half: nat, start: nat, end: nat) {
    Centre(data, half, start) && Centre(data, half, end) &&
    (forall c: nat | Centre(data, half, c) ::
      Step(data, half, c) <= Step(data, half, start) && Step(data, half, end) <= Step(data, half, c)) &&
    (forall c: nat | Centre(data, half, c) && c < start :: Step(data, half, c) < Step(data, half, start)) &&
    (forall c: nat | Centre(data, half, c) && c < end :: Step(data, half, end) < Step(data, half, c))
  }

  /** The incremental filter: O(n) updates compute every step of the trace. Fails, as the
      asserts of the source do, on a short trace or an odd window. */
  method GetBenchmarkStartEnd(data: seq<real>, windowSize: nat) returns (r: Result<(nat, nat)>)
    ensures r.Raised? <==> |data| < windowSize || windowSize % 2 != 0
    ensures r.Ok? ==> Edges(data, windowSize / 2, r.value.0, r.value.1)
  {
    if |data| < windowSize || windowSize % 2 != 0 {
      return Raised;
    }
    var half := windowSize / 2;
    var convOut := Sum(data, half, windowSize) - Sum(data, 0, half);
    var convOutput := [convOut];
    for i := 0 to |data| - windowSize
      invariant |convOutput| == i + 1
      invariant forall j | 0 <= j <= i :: convOutput[j] == Step(data, half, j + half)
    {
      StepMoves(data, half, i);
      convOut := convOutput[|convOutput| - 1] + data[i] - 2.0 * data[i + half] + data[i + windowSize];
      convOutput := convOutput + [convOut];
    }
    var up := ArgMax(convOutput);
    var down := ArgMin(convOutput);
    forall c: nat | Centre(data, half, c) ensures convOutput[c - half] == Step(data, half, c) {
    }
    r := Ok((up + half, down + half));
  }

  // ---------------------------------------------------------------- clean pulses

  /** The number of positions of [lo, hi) that lie in [s, e). */
  function Overlap(lo: int, hi: int, s: int, e: int): int {
    var first := if lo < s then s else lo;
    var last := if hi < e then hi else e;
    if first < last then last - first else 0
  }

  /** Every sample is within noise of a pulse of height d on [s, e) over the baseline b. */
  ghost predicate Pulse(data: seq<real>, s: nat, e: nat, b: real, d: real, noise: real) {
    s <= e <= |data| &&
    forall i | 0 <= i < |data| :: -noise <= data[i] - (if s <= i < e then b + d else b) <= noise
  }

  function Times(x: real, n: int): real {
    x * n as real
  }

  lemma TimesAdd(x: real, m: int, n: int)
    ensures Times(x, m + n) == Times(x, m) + Times(x, n)
  {
    assert (m + n) as real == m as real + n as real;
  }

  lemma OverlapGrows(lo: int, hi: int, s: int, e: int)
    requires lo < hi && s <= e
    ensures Overlap(lo, hi, s, e) == Overlap(lo, hi - 1, s, e) + (if s <= hi - 1 < e then 1 else 0)
  {
  }

  lemma {:induction false} SumOfPulse(data: seq<real>, s: nat, e: nat, b: real, d: real, noise: real, lo: nat, hi: nat)
    requires Pulse(data, s, e, b, d, noise) && lo <= hi <= |data|
    ensures var clean := Times(b, hi - lo) + Times(d, Overlap(lo, hi, s, e));
            clean - Times(noise, hi - lo) <= Sum(data, lo, hi) <= clean + Times(noise, hi - lo)
    decreases hi
  {
    if lo < hi {
      SumOfPulse(data, s, e, b, d, noise, lo, hi - 1);
      OverlapGrows(lo, hi, s, e);
      TimesAdd(b, hi - 1 - lo, 1);
      TimesAdd(noise, hi - 1 - lo, 1);
      TimesAdd(d, Overlap(lo, hi - 1, s, e), if s <= hi - 1 < e then 1 else 0);
    }
  }

  /** By how many samples of the pulse the half window from c on exceeds the one before. */
  function Rise(half: int, c: int, s: int, e: int): int {
    Overlap(c, c + half, s, e) - Overlap(c - half, c, s, e)
  }

  lemma StepOfPulse(data: seq<real>, s: nat, e: nat, b: real, d: real, noise: real, half: nat, c: nat)
    requires Pulse(data, s, e, b, d, noise) && Centre(data, half, c)
    ensures var clean, slack := Times(d, Rise(half, c, s, e)), Times(noise, 2 * half);
            clean - slack <= Step(data, half, c) <= clean + slack
  {
    hide Times;
    SumOfPulse(data, s, e, b, d, noise, c, c + half);
    SumOfPulse(data, s, e, b, d, noise, c - half, c);
    TimesAdd(noise, half, half);
    TimesAdd(d, Rise(half, c, s, e), Overlap(c - half, c, s, e));
  }

  function Distance(x: int, y: int): nat {
    if x < y then y - x else x - y
  }

  /** The clean rise peaks at s, the clean fall at e, and both lose a sample a position. */
  lemma RiseFalls(half: int, c: int, s: int, e: int)
    requires 0 <= half <= e - s
    ensures Rise(half, s, s, e) == half && Rise(half, e, s, e) == -half
    ensures Rise(half, c, s, e) <= (if Distance(c, s) < half then half - Distance(c, s) else 0)
    ensures -Rise(half, c, s, e) <= (if Distance(c, e) < half then half - Distance(c, e) else 0)
    ensures Rise(half, c, s, e) > 0 ==> 2 * c < s + e
    ensures Rise(half, c, s, e) < 0 ==> 2 * c > s + e
  {
  }

  /** A noisy pulse with half a window of baseline on both sides and at least half a window
      long, and a threshold on the noise: what the noise bound needs. */
  ghost predicate Detectable(data: seq<real>, half: nat, s: nat, e: nat, b: real, d: real, noise: real) {
    Pulse(data, s, e, b, d, noise) && 0.0 <= noise && 4.0 * noise < d &&
    0 < half <= s && half <= e - s && e + half <= |data|
  }

  lemma TimesOrder(x: real, m: int, n: int)
    requires 0.0 < x
    ensures Times(x, m) <= Times(x, n) <==> m <= n
  {
    if m <= n {
      assert x * (n - m) as real >= 0.0;
    } else {
      assert x * (m - n) as real > 0.0;
    }
    assert n as real - m as real == (n - m) as real;
  }

  /** A rise that is nearly as large as the largest one happens near its place. */
  lemma NearlyHighest(half: nat, rise: int, distance: nat, d: real, noise: real)
    requires 0 < half && 0.0 <= noise && 4.0 * noise < d
    requires Times(d, rise) + Times(noise, 2 * half) >= Times(d, half) - Times(noise, 2 * half)
    requires rise <= (if distance < half then half - distance else 0)
    ensures 0 < rise && distance < half && Times(d, distance) <= Times(noise, 4 * half)
  {
    TimesAdd(noise, 2 * half, 2 * half);
    assert Times(noise, 4 * half) < Times(d, half) by {
      assert half as real > 0.0;
      assert (4 * half) as real == 4.0 * half as real;
      assert (d - 4.0 * noise) * half as real > 0.0;
    }
    assert Times(d, 0) < Times(d, rise);
    TimesOrder(d, rise, 0);
    TimesAdd(d, half - distance, distance);
    TimesOrder(d, rise, half - distance);
  }

  /** The detected edges lie within 4 * half * noise / d of the true ones, and in their order. */
  lemma NoiseBound(data: seq<real>, half: nat, s: nat, e: nat, b: real, d: real, noise: real, start: nat, end: nat)
    requires Detectable(data, half, s, e, b, d, noise) && Edges(data, half, start, end)
    ensures Times(d, Distance(start, s)) <= Times(noise, 4 * half)
    ensures Times(d, Distance(end, e)) <= Times(noise, 4 * half)
    ensures start < end
  {
    hide Times;
    hide Step;
    RiseFalls(half, start, s, e);
    RiseFalls(half, end, s, e);
    StepOfPulse(data, s, e, b, d, noise, half, start);
    StepOfPulse(data, s, e, b, d, noise, half, s);
    StepOfPulse(data, s, e, b, d, noise, half, end);
    StepOfPulse(data, s, e, b, d, noise, half, e);
    assert Centre(data, half, s) && Centre(data, half, e);
    NearlyHighest(half, Rise(half, start, s, e), Distance(start, s), d, noise);
    var fall: int := -Rise(half, end, s, e);
    TimesNegate(d, fall);
    TimesNegate(d, half);
    NearlyHighest(half, fall, Distance(end, e), d, noise);
  }

  lemma TimesNegate(x: real, n: int)
    ensures Times(x, -n) == -Times(x, n)
  {
  }

  /** Without noise the edges are found exactly. */
  lemma ExactRecovery(data: seq<real>, half: nat, s: nat, e: nat, b: real, d: real, start: nat, end: nat)
    requires Detectable(data, half, s, e, b, d, 0.0) && Edges(data, half, start, end)
    ensures start == s && end == e
  {
    NoiseBound(data, half, s, e, b, d, 0.0, start, end);
    TimesOrder(d, Distance(start, s), 0);
    TimesOrder(d, Distance(end, e), 0);
  }

  lemma EdgesAreUnique(data: seq<real>, half: nat, start: nat, end: nat, start': nat, end': nat)
    requires Edges(data, half, start, end) && Edges(data, half, start', end')
    ensures start == start' && end == end'
  {
    assert Centre(data, half, start) && Centre(data, half, start');
    assert Centre(data, half, end) && Centre(data, half, end');
  }

  // ------------------------------------------------------------------ power

  /** The mean of a slice; numpy yields no number for an empty one. */
  function Mean(data: seq<real>, lo: nat, hi: nat): Option<real>
    requires lo <= hi <= |data|
  {
    if lo == hi then None else Some(Sum(data, lo, hi) / (hi - lo) as real)
  }

  /** Milliseconds for an iteration, from sample numbers; numpy yields no number where it divides
      by zero. */
  function Latency(start: nat, end: nat, sampleRate: nat, iterations: int): Option<real> {
    if sampleRate == 0 || iterations == 0 then None
    else
      var startTime, endTime := start as real / sampleRate as real, end as real / sampleRate as real;
      Some((endTime - startTime) / iterations as real * 1000.0)
  }

  /** All iterations together last as long as the samples between the edges. */
  lemma LatencyOfAll(start: nat, end: nat, sampleRate: nat, iterations: int)
    requires sampleRate > 0 && iterations != 0
    ensures Latency(start, end, sampleRate, iterations).Some?
    ensures Latency(start, end, sampleRate, iterations).value * iterations as real ==
            1000.0 * (end as real - start as real) / sampleRate as real
  {
    var time := end as real / sampleRate as real - start as real / sampleRate as real;
    TimeOfAll(time, iterations as real);
    Difference(end as real, start as real, sampleRate as real);
  }

  lemma TimeOfAll(time: real, iterations: real)
    requires iterations != 0.0
    ensures time / iterations * 1000.0 * iterations == 1000.0 * time
  {
    var one := time / iterations;
    assert one * iterations == time;
    assert one * 1000.0 * iterations == 1000.0 * (one * iterations);
  }

  lemma Difference(x: real, y: real, z: real)
    requires z > 0.0
    ensures 1000.0 * (x / z - y / z) == 1000.0 * (x - y) / z
  {
  }

  /** Model power, baseline power and latency. */
  datatype Power = Power(model: Option<real>, baseline: Option<real>, latency: Option<real>)

  function PowerBetween(data: seq<real>, start: nat, end: nat, sampleRate: nat, iterations: int): Power
    requires start <= end <= |data|
  {
    var benchmark, baseline := Mean(data, start, end), Mean(data, end, |data|);
    Power(if benchmark.Some? && baseline.Some? then Some(benchmark.value - baseline.value) else None, baseline,
          Latency(start, end, sampleRate, iterations))
  }

  /** A mean stands for the sum: it lies where the pulse and its noise put it. */
  lemma MeanNear(data: seq<real>, s: nat, e: nat, b: real, d: real, noise: real, lo: nat, hi: nat, mean: real)
    requires Pulse(data, s, e, b, d, noise) && lo < hi <= |data| && Mean(data, lo, hi) == Some(mean)
    ensures var n, more := hi - lo, Times(d, Overlap(lo, hi, s, e));
            Times(b - noise, n) + more <= Times(mean, n) <= Times(b + noise, n) + more
  {
    SumOfPulse(data, s, e, b, d, noise, lo, hi);
    TimesSum(b, noise, hi - lo);
    TimesSum(b - noise, noise, hi - lo);
    TimesQuotient(Sum(data, lo, hi), hi - lo);
  }

  lemma TimesSum(x: real, y: real, n: int)
    ensures Times(x + y, n) == Times(x, n) + Times(y, n)
  {
  }

  lemma TimesQuotient(x: real, n: nat)
    requires n > 0
    ensures Times(x / n as real, n) == x
  {
  }

  lemma TimesCancel(x: real, y: real, n: nat)
    requires n > 0 && Times(x, n) <= Times(y, n)
    ensures x <= y
  {
    assert x > y ==> (x - y) * n as real > 0.0;
  }

  lemma TimesGrow(x: real, m: nat, n: nat)
    requires 0.0 <= x && m <= n
    ensures 0.0 <= Times(x, m) <= Times(x, n)
  {
    assert n as real == m as real + (n - m) as real;
    assert x * m as real >= 0.0 && x * (n - m) as real >= 0.0;
  }

  /** The mean after the detected end: the part of the pulse left in it is short. */
  lemma BaselineBound(data: seq<real>, half: nat, s: nat, e: nat, b: real, d: real, noise: real, end: nat, base: real)
    requires Detectable(data, half, s, e, b, d, noise) && end + half <= |data|
    requires Times(d, Distance(end, e)) <= Times(noise, 4 * half) && Mean(data, end, |data|) == Some(base)
    ensures b - noise <= base <= b + 5.0 * noise
  {
    hide Times;
    var n, left := |data| - end, Overlap(end, |data|, s, e);
    MeanNear(data, s, e, b, d, noise, end, |data|, base);
    TimesGrow(d, 0, left);
    TimesGrow(d, left, Distance(end, e));
    TimesGrow(noise, 4 * half, 4 * n);
    TimesFour(noise, n);
    TimesSum(b + noise, 4.0 * noise, n);
    TimesCancel(b - noise, base, n) by {
      TimesZero(d);
    }
    assert b + noise + 4.0 * noise == b + 5.0 * noise;
    TimesCancel(base, b + 5.0 * noise, n);
  }

  lemma TimesZero(x: real)
    ensures Times(x, 0) == 0.0
  {
  }

  lemma TimesFour(x: real, n: nat)
    ensures Times(x, 4 * n) == Times(4.0 * x, n)
  {
    assert (4 * n) as real == 4.0 * n as real;
  }

  /** All but the misplaced samples between the detected edges belong to the pulse. */
  lemma MostlyPulse(s: nat, e: nat, start: nat, end: nat)
    requires s <= e && start < end
    ensures Overlap(start, end, s, e) <= end - start
    ensures Overlap(start, end, s, e) + Distance(start, s) + Distance(end, e) >= end - start
  {
  }

  /** The mean between the detected edges, which lies below the pulse by what they miss. */
  lemma BenchmarkBound(data: seq<real>, half: nat, s: nat, e: nat, b: real, d: real, noise: real, start: nat,
                       end: nat, mean: real)
    requires Detectable(data, half, s, e, b, d, noise) && start < end <= |data|
    requires Times(d, Distance(start, s)) <= Times(noise, 4 * half)
    requires Times(d, Distance(end, e)) <= Times(noise, 4 * half) && Mean(data, start, end) == Some(mean)
    ensures mean <= b + d + noise
    ensures Times(b + d - noise, end - start) - Times(noise, 8 * half) <= Times(mean, end - start)
  {
    hide Times;
    var n, inside, missed := end - start, Overlap(start, end, s, e), Distance(start, s) + Distance(end, e);
    MostlyPulse(s, e, start, end);
    MeanNear(data, s, e, b, d, noise, start, end, mean);
    TimesSum(b + noise, d, n);
    TimesSum(b - noise, d, n);
    TimesGrow(d, inside, n);
    TimesGrow(d, n, inside + missed);
    TimesAdd(d, inside, missed);
    TimesAdd(d, Distance(start, s), Distance(end, e));
    TimesAdd(noise, 4 * half, 4 * half);
    assert b + noise + d == b + d + noise && b - noise + d == b + d - noise;
    TimesCancel(mean, b + d + noise, n);
  }

  /** How far noise can move the powers: the baseline by five times the noise, the model power
      up by twice, and down by six times and what the misplaced edges cost. */
  ghost predicate PowerNear(power: Power, half: nat, n: nat, b: real, d: real, noise: real) {
    power.baseline.Some? && b - noise <= power.baseline.value <= b + 5.0 * noise &&
    power.model.Some? && power.model.value <= d + 2.0 * noise &&
    Times(d - power.model.value, n) <= Times(noise, 6 * n + 8 * half)
  }

  lemma PowerBound(data: seq<real>, half: nat, s: nat, e: nat, b: real, d: real, noise: real, start: nat, end: nat,
                   sampleRate: nat, iterations: int)
    requires Detectable(data, half, s, e, b, d, noise) && Edges(data, half, start, end)
    ensures start < end && PowerNear(PowerBetween(data, start, end, sampleRate, iterations), half, end - start, b, d,
                                     noise)
  {
    hide Times, Mean, Latency;
    NoiseBound(data, half, s, e, b, d, noise, start, end);
    MeanIsThere(data, start, end);
    MeanIsThere(data, end, |data|);
    var n, mean, base := end - start, Mean(data, start, end).value, Mean(data, end, |data|).value;
    BaselineBound(data, half, s, e, b, d, noise, end, base);
    BenchmarkBound(data, half, s, e, b, d, noise, start, end, mean);
    TimesAdd(noise, 6 * n, 8 * half);
    Shortfall(mean, base, b, d, noise, n);
  }

  lemma MeanIsThere(data: seq<real>, lo: nat, hi: nat)
    requires lo < hi <= |data|
    ensures Mean(data, lo, hi).Some?
  {
  }

  lemma Shortfall(mean: real, base: real, b: real, d: real, noise: real, n: nat)
    requires base <= b + 5.0 * noise
    ensures Times(d - (mean - base), n) <= Times(b + d - noise, n) - Times(mean, n) + Times(noise, 6 * n)
  {
    assert (6 * n) as real == 6.0 * n as real;
    assert (b + 5.0 * noise - base) * n as real >= 0.0;
    assert (d - (mean - base)) * n as real ==
           (b + d - noise) * n as real - mean * n as real + 6.0 * noise * n as real
           - (b + 5.0 * noise - base) * n as real;
  }

  /** The baseline is the mean of the samples after the end, and the model power what the mean of those
      before it exceeds it by; a mean of no samples has no value. */
  ghost predicate Averages(data: seq<real>, start: nat, end: nat, power: Power)
    requires start <= end <= |data|
  {
    (power.baseline.Some? <==> end < |data|) && (power.model.Some? <==> start < end < |data|) &&
    (power.baseline.Some? ==> power.baseline.value * (|data| - end) as real == Sum(data, end, |data|)) &&
    (power.model.Some? ==>
      (power.model.value + power.baseline.value) * (end - start) as real == Sum(data, start, end))
  }

  /** The latency of an iteration in milliseconds, if there are iterations and a sample rate. */
  ghost predicate Lasts(start: nat, end: nat, sampleRate: nat, iterations: int, power: Power) {
    (power.latency.Some? <==> sampleRate > 0 && iterations != 0) &&
    (power.latency.Some? ==>
      power.latency.value * iterations as real == 1000.0 * (end as real - start as real) / sampleRate as real)
  }

  lemma MeanOfAll(data: seq<real>, lo: nat, hi: nat)
    requires lo < hi <= |data|
    ensures Mean(data, lo, hi).Some? && Mean(data, lo, hi).value * (hi - lo) as real == Sum(data, lo, hi)
  {
    hide Sum;
    TimesQuotient(Sum(data, lo, hi), hi - lo);
  }

  lemma PowerAverages(data: seq<real>, start: nat, end: nat, sampleRate: nat, iterations: int)
    requires start <= end <= |data|
    ensures Averages(data, start, end, PowerBetween(data, start, end, sampleRate, iterations))
    ensures Lasts(start, end, sampleRate, iterations, PowerBetween(data, start, end, sampleRate, iterations))
  {
    if start < end {
      MeanOfAll(data, start, end);
    }
    if end < |data| {
      MeanOfAll(data, end, |data|);
    }
    if sampleRate > 0 && iterations != 0 {
      LatencyOfAll(start, end, sampleRate, iterations);
    }
    hide Latency, Sum;
  }

  /** On a clean pulse the computed model power is the height of the pulse. */
  lemma PowerIsPulseHeight(data: seq<real>, half: nat, s: nat, e: nat, b: real, d: real,
                           sampleRate: nat, iterations: int)
    requires Detectable(data, half, s, e, b, d, 0.0)
    ensures PowerBetween(data, s, e, sampleRate, iterations) ==
            Power(Some(d), Some(b), Latency(s, e, sampleRate, iterations))
  {
    hide Times, Latency;
    MeanOfPulse(data, s, e, b, d, s, e, e - s, b + d);
    MeanOfPulse(data, s, e, b, d, e, |data|, 0, b);
  }

  lemma MeanOfPulse(data: seq<real>, s: nat, e: nat, b: real, d: real, lo: nat, hi: nat, overlap: int, mean: real)
    requires Pulse(data, s, e, b, d, 0.0) && lo < hi <= |data| && overlap == Overlap(lo, hi, s, e)
    requires (overlap == hi - lo && mean == b + d) || (overlap == 0 && mean == b)
    ensures Mean(data, lo, hi) == Some(mean)
  {
    SumOfPulse(data, s, e, b, d, 0.0, lo, hi);
    assert Times(b, hi - lo) + Times(d, overlap) == Times(mean, hi - lo);
    TimesMean(mean, hi - lo);
  }

  lemma TimesMean(x: real, n: nat)
    requires n > 0
    ensures Times(x, n) / n as real == x
  {
  }

  /** The window spans ten seconds, so it is always even; the trace fails when it is short
      or when the largest drop comes before the largest rise. That never happens on a noisy
      pulse, which yields nearly its own height and baseline; a clean one yields these exactly. */
  method PostProcessPowerData(power: seq<real>, sampleRate: nat, iterations: int) returns (r: Result<Power>)
    ensures |power| < 10 * sampleRate ==> r.Raised?
    ensures |power| >= 10 * sampleRate ==>
              exists start: nat, end: nat :: Edges(power, 5 * sampleRate, start, end) &&
                (r.Raised? <==> start > end) &&
                (r.Ok? ==> Averages(power, start, end, r.value) && Lasts(start, end, sampleRate, iterations, r.value))
    ensures forall s: nat, e: nat, b, d, noise | Detectable(power, 5 * sampleRate, s, e, b, d, noise) ::
              r.Ok? && (noise == 0.0 ==> r == Ok(Power(Some(d), Some(b), Latency(s, e, sampleRate, iterations))))
    ensures forall s: nat, e: nat, b, d, noise | Detectable(power, 5 * sampleRate, s, e, b, d, noise) ::
              exists start: nat, end: nat :: Edges(power, 5 * sampleRate, start, end) && start < end &&
                r.Ok? && PowerNear(r.value, 5 * sampleRate, end - start, b, d, noise)
  {
    hide Latency, PowerNear, Averages, Lasts;
    var edges := GetBenchmarkStartEnd(power, 10 * sampleRate);
    assert 10 * sampleRate / 2 == 5 * sampleRate;
    if edges.Raised? {
      return Raised;
    }
    var (start, end) := edges.value;
    forall s: nat, e: nat, b, d, noise | Detectable(power, 5 * sampleRate, s, e, b, d, noise)
      ensures start < end
      ensures PowerNear(PowerBetween(power, start, end, sampleRate, iterations), 5 * sampleRate, end - start, b, d,
                        noise)
      ensures noise == 0.0 ==> start == s && end == e
      ensures noise == 0.0 ==>
        PowerBetween(power, s, e, sampleRate, iterations) ==
        Power(Some(d), Some(b), Latency(s, e, sampleRate, iterations))
    {
      PowerBound(power, 5 * sampleRate, s, e, b, d, noise, start, end, sampleRate, iterations);
      if noise == 0.0 {
        ExactRecovery(power, 5 * sampleRate, s, e, b, d, start, end);
        PowerIsPulseHeight(power, 5 * sampleRate, s, e, b, d, sampleRate, iterations);
      }
    }
    if start > end {
      return Raised;
    }
    PowerAverages(power, start, end, sampleRate, iterations);
    r := Ok(PowerBetween(power, start, end, sampleRate, iterations));
  }
}
