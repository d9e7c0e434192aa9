/** The delay regression detector (benchmarking/regression_detectors/), over exact reals and from
    the history lists in memory. */
module Regression {
  import opened Sets
  import opened Sorting
  import opened Wrappers

  /** The percentiles of a summary that the detector looks up. */
  datatype Digest = Digest(p50: Option<real>, p90: Option<real>)

  /** One metric of one benchmark run. */
  datatype Run = Run(kind: string, summary: Option<Digest>, diffSummary: Option<Digest>)

  // The order-statistic test

  /** A tenth of the range of the values, rounded down. */
  function Margin(values: seq<real>): int
    requires values != []
  {
    SortedIsAscending(values);
    var sorted := Sorted(values);
    ((sorted[|sorted| - 1] - sorted[0]) / 10.0).Floor
  }

  /** How many of n history values the latest must exceed: all but fewer than a tenth of them. */
  function Needed(n: nat): int {
    n - (n + 9) / 10 + 1
  }

  /** The latest value exceeds that many values of the history by more than the margin. */
  predicate Exceeds(latest: real, history: seq<real>)
    requires history != []
  {
    CountBelow(history, latest - Margin(history) as real) >= Needed(|history|)
  }

  /** The test on the value at nine tenths of the sorted history counts the values exceeded. */
  lemma IndexedTestCounts(latest: real, history: seq<real>)
    requires history != []
    ensures |Sorted(history)| == |history| && 0 <= |history| * 9 / 10 < |history|
    ensures latest > Sorted(history)[|history| * 9 / 10] + Margin(history) as real <==> Exceeds(latest, history)
  {
    hide Sorted, Margin;
    var i, bound := |history| * 9 / 10, latest - Margin(history) as real;
    SortedIsAscending(history);
    SortedCounts(history, bound);
    BelowAreFirst(Sorted(history), bound, i);
    assert Needed(|history|) == i + 1;
  }

  /** The verdict does not depend on the order of the history. */
  lemma ExceedsForgetsOrder(latest: real, history: seq<real>, other: seq<real>)
    requires history != [] && multiset(history) == multiset(other)
    ensures other != [] && (Exceeds(latest, history) <==> Exceeds(latest, other))
  {
    assert |history| == |multiset(history)| == |multiset(other)| == |other|;
    SortedForgetsOrder(history, other);
    SortedCounts(history, latest - Margin(history) as real);
    SortedCounts(other, latest - Margin(history) as real);
  }

  /** Against up to ten values the latest must exceed every one of them by more than the margin,
      which is never negative. */
  lemma ShortHistory(latest: real, history: seq<real>)
    requires 0 < |history| <= 10
    ensures Margin(history) >= 0
    ensures Exceeds(latest, history) <==>
      forall i | 0 <= i < |history| :: latest > history[i] + Margin(history) as real
  {
    MarginNotNegative(history);
    CountAtMost(history, latest - Margin(history) as real);
    assert Needed(|history|) == |history|;
  }

  lemma MarginNotNegative(history: seq<real>)
    requires history != []
    ensures Margin(history) >= 0
  {
    SortedIsAscending(history);
  }

  /** A tenth of a difference, rounded down. */
  function Tenth(x: real, y: real): int {
    ((x - y) / 10.0).Floor
  }

  /** It is the largest tenth, rounded down, of a difference of two of the values. */
  lemma MarginIsLargest(values: seq<real>)
    requires values != []
    ensures forall x, y | x in values && y in values :: Tenth(x, y) <= Margin(values)
    ensures exists x, y :: x in values && y in values && Tenth(x, y) == Margin(values)
  {
    hide Sorted;
    var sorted := Sorted(values);
    SortedIsAscending(values);
    MarginIsRange(values);
    var least, greatest := sorted[0], sorted[|sorted| - 1];
    InBoth(values, least);
    InBoth(values, greatest);
    assert Tenth(greatest, least) == Margin(values);
    forall x, y | x in values && y in values ensures Tenth(x, y) <= Margin(values) {
      InBoth(values, x);
      InBoth(values, y);
      assert least <= y && x <= greatest;
      assert (x - y) / 10.0 <= (greatest - least) / 10.0;
    }
  }

  // DelayRegressionDetector

  predicate AllHave(runs: seq<Run>) {
    forall i | 0 <= i < |runs| :: runs[i].diffSummary.Some?
  }

  /** The digest that is compared: of the difference to the control, if the control stayed the
      same and every run has one, and of the measurement otherwise. */
  function Compared(run: Run, onDiff: bool): Option<Digest> {
    if onDiff then run.diffSummary else run.summary
  }

  /** The lookups that `_detectionP50vsP90` makes succeed. */
  predicate Complete(latest: Run, history: seq<Run>, onDiff: bool) {
    Compared(latest, onDiff).Some? && Compared(latest, onDiff).value.p50.Some? &&
    forall i | 0 <= i < |history| ::
      Compared(history[i], onDiff).Some? && Compared(history[i], onDiff).value.p90.Some?
  }

  function P90s(history: seq<Run>, onDiff: bool): seq<real>
    requires forall i | 0 <= i < |history| ::
      Compared(history[i], onDiff).Some? && Compared(history[i], onDiff).value.p90.Some?
  {
    seq(|history|, i requires 0 <= i < |history| => Compared(history[i], onDiff).value.p90.value)
  }

  /** Fewer than five runs to compare with are no regression; missing percentiles raise; else
      the p50 must exceed the p90s in the sense above. */
  function Verdict(latest: Run, history: seq<Run>, onDiff: bool): Result<bool> {
    if |history| < 5 then Ok(false)
    else if !Complete(latest, history, onDiff) then Raised
    else Ok(Exceeds(Compared(latest, onDiff).value.p50.value, P90s(history, onDiff)))
  }

  /** `_detectionP50vsP90`: the index into the sorted p90s is always in range. */
  method DetectionP50VsP90(latest: Run, history: seq<Run>, onDiff: bool) returns (r: Result<bool>)
    ensures r == Verdict(latest, history, onDiff)
    ensures |history| < 5 ==> r == Ok(false)
    ensures |history| >= 5 ==> (r.Raised? <==> !Complete(latest, history, onDiff))
    ensures |history| >= 5 && r.Ok? ==>
      (r.value <==> Exceeds(Compared(latest, onDiff).value.p50.value, P90s(history, onDiff)))
  {
    hide Exceeds, Margin, Sorted;
    if |history| < 5 {
      return Ok(false);
    }
    if !Complete(latest, history, onDiff) {
      return Raised;
    }
    var latestP50 := Compared(latest, onDiff).value.p50.value;
    var p90s := P90s(history, onDiff);
    IndexedTestCounts(latestP50, p90s);
    var sorted := Sorted(p90s);
    MarginIsRange(p90s);
    var p90Range := sorted[|sorted| - 1] - sorted[0];
    var p90Index := |sorted| * 9 / 10;
    r := Ok(latestP50 > sorted[p90Index] + (p90Range / 10.0).Floor as real);
  }

  lemma MarginIsRange(values: seq<real>)
    requires values != []
    ensures Sorted(values) != []
    ensures Margin(values) == ((Sorted(values)[|Sorted(values)| - 1] - Sorted(values)[0]) / 10.0).Floor
  {
    SortedIsAscending(values);
  }

  function OnDiff(latest: Run, history: seq<Run>, controlChanged: bool): bool {
    !controlChanged && latest.diffSummary.Some? && AllHave(history)
  }

  /** `isRegressed` */
  method IsRegressed(latest: Run, history: seq<Run>, controlInCompare: bool) returns (r: Result<bool>)
    ensures r == Verdict(latest, history, OnDiff(latest, history, controlInCompare))
  {
    if controlInCompare {
      r := DetectionP50VsP90(latest, history, false);
    } else if latest.diffSummary.None? || !AllHave(history) {
      r := DetectionP50VsP90(latest, history, false);
    } else {
      r := DetectionP50VsP90(latest, history, true);
    }
  }

  // Confirmation by two runs

  /** A line of meta.txt, by the commits, the metric and the info of its run. */
  datatype Meta = Meta(commit: string, controlCommit: Option<string>, metric: string, info: string)

  /** The runs of a file, the latest first. */
  datatype File = File(runs: seq<Run>)

  /** What `_detectOneBenchmarkRegression` returns: the empty list alone, which its caller cannot
      unpack, or the regressed types with the infos, if any, of the runs from the oldest on. */
  datatype Outcome = Bare | Pair(regressed: seq<string>, infos: Option<seq<string>>)

  function ControlCommit(meta: Meta): string {
    if meta.controlCommit.Some? then meta.controlCommit.value else meta.commit
  }

  predicate ControlChanged(meta: seq<Meta>) {
    exists i, j :: 0 <= i < |meta| && 0 <= j < |meta| && ControlCommit(meta[i]) != ControlCommit(meta[j])
  }

  /** Both of the latest two runs are regressed against the runs before them. */
  function Confirmed(runs: seq<Run>, controlChanged: bool): Result<bool> {
    if |runs| < 2 then Ok(false)
    else
      var history := runs[2..];
      var latest := Verdict(runs[0], history, OnDiff(runs[0], history, controlChanged));
      if latest == Ok(true) then Verdict(runs[1], history, OnDiff(runs[1], history, controlChanged)) else latest
  }

  /** The types of the confirmed files among the first n, in file order. */
  function ConfirmedTypes(files: seq<File>, n: nat, controlChanged: bool): seq<string>
    requires n <= |files|
  {
    if n == 0 then []
    else
      var runs := files[n - 1].runs;
      ConfirmedTypes(files, n - 1, controlChanged) +
        if Confirmed(runs, controlChanged) == Ok(true) then [FirstKind(runs)] else []
  }

  /** Both of the latest two runs outdo the at least five before them. */
  predicate Regresses(runs: seq<Run>, controlChanged: bool) {
    |runs| >= 7 && Outdoes(runs, 0, controlChanged) && Outdoes(runs, 1, controlChanged)
  }

  /** A percentile is missing in the latest run or in those that it is compared with; or, if it
      outdoes these, in the run before it. */
  predicate Stumbles(runs: seq<Run>, controlChanged: bool) {
    |runs| >= 7 &&
    (Lacks(runs, 0, controlChanged) || (Outdoes(runs, 0, controlChanged) && Lacks(runs, 1, controlChanged)))
  }

  predicate SomeStumble(files: seq<File>, controlChanged: bool) {
    exists k :: 0 <= k < |files| && Stumbles(files[k].runs, controlChanged)
  }

  predicate Lacks(runs: seq<Run>, i: nat, controlChanged: bool)
    requires i < 2 < |runs|
  {
    !Complete(runs[i], runs[2..], OnDiff(runs[i], runs[2..], controlChanged))
  }

  /** The types of the files that regress, and of no others, in file order. */
  ghost predicate Reports(files: seq<File>, controlChanged: bool, types: seq<string>) {
    exists ids :: TypesOf(files, controlChanged, |files|, ids, types)
  }

  ghost predicate TypesOf(files: seq<File>, controlChanged: bool, n: nat, ids: seq<nat>, types: seq<string>) {
    |types| == |ids| &&
    (forall i, j | 0 <= i < j < |ids| :: ids[i] < ids[j]) &&
    (forall k: nat :: k in ids <==> k < n && k < |files| && Regresses(files[k].runs, controlChanged)) &&
    forall j | 0 <= j < |ids| :: ids[j] < |files| && files[ids[j]].runs != [] && types[j] == files[ids[j]].runs[0].kind
  }

  lemma ConfirmedIff(runs: seq<Run>, controlChanged: bool)
    ensures Confirmed(runs, controlChanged) == Ok(true) <==> Regresses(runs, controlChanged)
    ensures Confirmed(runs, controlChanged).Raised? <==> Stumbles(runs, controlChanged)
  {
    hide Exceeds, OnDiff, Complete;
  }

  lemma OneMoreFile(files: seq<File>, controlChanged: bool, n: nat, ids: seq<nat>, types: seq<string>)
    requires n < |files| && TypesOf(files, controlChanged, n, ids, types)
    ensures if Regresses(files[n].runs, controlChanged)
      then files[n].runs != [] && TypesOf(files, controlChanged, n + 1, ids + [n], types + [files[n].runs[0].kind])
      else TypesOf(files, controlChanged, n + 1, ids, types)
  {
    if Regresses(files[n].runs, controlChanged) {
      RegressingIsLong(files[n].runs, controlChanged);
    }
    hide Regresses;
  }

  lemma {:induction false} ConfirmedAreReported(files: seq<File>, n: nat, controlChanged: bool) returns (ids: seq<nat>)
    requires n <= |files|
    ensures TypesOf(files, controlChanged, n, ids, ConfirmedTypes(files, n, controlChanged))
    ensures n == |files| ==> Reports(files, controlChanged, ConfirmedTypes(files, n, controlChanged))
  {
    hide Confirmed, Regresses;
    ids := [];
    if n > 0 {
      hide TypesOf;
      ids := ConfirmedAreReported(files, n - 1, controlChanged);
      var runs, types := files[n - 1].runs, ConfirmedTypes(files, n - 1, controlChanged);
      ConfirmedIff(runs, controlChanged);
      OneMoreFile(files, controlChanged, n - 1, ids, types);
      if Regresses(runs, controlChanged) {
        ids := ids + [n - 1];
      } else {
        assert ConfirmedTypes(files, n, controlChanged) == types;
      }
    }
  }

  lemma RegressingIsLong(runs: seq<Run>, controlChanged: bool)
    requires Regresses(runs, controlChanged)
    ensures |runs| >= 7
  {
  }

  function FirstKind(runs: seq<Run>): string {
    if runs == [] then "" else runs[0].kind
  }

  /** `set` of the control commits has more than one element. */
  method HasControlChange(meta: seq<Meta>) returns (changed: bool)
    ensures changed <==> ControlChanged(meta)
  {
    var commits := set x | x in meta :: ControlCommit(x);
    changed := |commits| > 1;
    if changed {
      var a :| a in commits;
      assert |commits - {a}| == |commits| - 1;
      var b :| b in commits - {a};
      var i :| 0 <= i < |meta| && ControlCommit(meta[i]) == a;
      var j :| 0 <= j < |meta| && ControlCommit(meta[j]) == b;
    } else if i, j :| 0 <= i < |meta| && 0 <= j < |meta| && ControlCommit(meta[i]) != ControlCommit(meta[j]) {
      var a, b := ControlCommit(meta[i]), ControlCommit(meta[j]);
      assert meta[i] in meta && meta[j] in meta;
      assert {a, b} <= commits;
      SubsetIsNoLarger({a, b}, commits);
    }
  }

  /** `_detectOneBenchmarkRegression`; `delay` is the only metric with a detector. */
  method DetectOneBenchmarkRegression(meta: Option<seq<Meta>>, files: seq<File>) returns (r: Result<Outcome>)
    ensures meta == None ==> r == Ok(Bare)
    ensures meta.Some? && |meta.value| < 2 ==> r == Ok(Pair([], None))
    ensures meta.Some? && |meta.value| >= 2 ==>
      (r.Raised? <==> meta.value[0].metric != "delay" || SomeStumble(files, ControlChanged(meta.value)))
    ensures meta.Some? && |meta.value| >= 2 && r.Ok? ==>
      r.value.Pair? && Reports(files, ControlChanged(meta.value), r.value.regressed) &&
      (r.value.infos.None? <==> r.value.regressed == []) &&
      (r.value.infos.Some? ==> var infos := r.value.infos.value;
        |infos| == |meta.value| && forall i | 0 <= i < |infos| :: infos[i] == meta.value[|infos| - 1 - i].info)
  {
    hide Verdict, OnDiff, ControlChanged, Stumbles, Reports;
    if meta.None? {
      return Ok(Bare);
    }
    if |meta.value| < 2 {
      return Ok(Pair([], None));
    }
    var controlChange := HasControlChange(meta.value);
    if meta.value[0].metric != "delay" {
      return Raised;
    }
    var regressed: seq<string> := [];
    for i := 0 to |files|
      invariant regressed == ConfirmedTypes(files, i, controlChange)
      invariant forall k | 0 <= k < i :: Confirmed(files[k].runs, controlChange).Ok?
    {
      var oneData := files[i].runs;
      if |oneData| >= 2 {
        var latest := IsRegressed(oneData[0], oneData[2..], controlChange);
        if latest.Ok? && latest.value {
          latest := IsRegressed(oneData[1], oneData[2..], controlChange);
        }
        if latest.Raised? {
          ConfirmedIff(oneData, controlChange);
          return Raised;
        }
        if latest.value {
          regressed := regressed + [oneData[0].kind];
        }
      }
    }
    forall k | 0 <= k < |files| ensures !Stumbles(files[k].runs, controlChange) {
      ConfirmedIff(files[k].runs, controlChange);
    }
    ghost var ids := ConfirmedAreReported(files, |files|, controlChange);
    var infos := InfosReversed(meta.value);
    r := Ok(Pair(regressed, if regressed == [] then None else Some(infos)));
  }

  function InfosReversed(meta: seq<Meta>): seq<string> {
    seq(|meta|, i requires 0 <= i < |meta| => meta[|meta| - 1 - i].info)
  }

  /** A type is reported exactly if it is that of the latest run of some file that regresses. */
  lemma ReportedIff(files: seq<File>, controlChanged: bool, types: seq<string>, kind: string)
    requires Reports(files, controlChanged, types)
    ensures kind in types <==>
      exists k :: 0 <= k < |files| && Regresses(files[k].runs, controlChanged) && files[k].runs[0].kind == kind
  {
    hide Outdoes;
    var ids :| TypesOf(files, controlChanged, |files|, ids, types);
    if j :| 0 <= j < |types| && types[j] == kind {
      assert ids[j] in ids;
    }
    if k: nat :| k < |files| && Regresses(files[k].runs, controlChanged) && files[k].runs[0].kind == kind {
      assert k in ids;
      var j :| 0 <= j < |ids| && ids[j] == k;
      assert types[j] in types;
    }
  }

  /** The p50 of one of the latest two runs exceeds the p90s of the history. */
  predicate Outdoes(runs: seq<Run>, i: nat, controlChanged: bool)
    requires i < 2 < |runs|
  {
    var history := runs[2..];
    var onDiff := OnDiff(runs[i], history, controlChanged);
    Complete(runs[i], history, onDiff) &&
    Exceeds(Compared(runs[i], onDiff).value.p50.value, P90s(history, onDiff))
  }

  /** The p50 exceeds every p90 by more than a tenth, rounded down, of any difference of two p90s. */
  predicate AboveAll(p50: real, p90s: seq<real>) {
    forall x, y, z | x in p90s && y in p90s && z in p90s :: p50 > x + Tenth(y, z) as real
  }

  lemma AboveAllIff(p50: real, p90s: seq<real>)
    requires 0 < |p90s| <= 10
    ensures Exceeds(p50, p90s) <==> AboveAll(p50, p90s)
  {
    hide Exceeds;
    ShortHistory(p50, p90s);
    AboveByMargin(p50, p90s);
    hide Margin, AboveAll;
    assert forall i | 0 <= i < |p90s| :: p90s[i] in p90s;
  }

  lemma AboveByMargin(p50: real, p90s: seq<real>)
    requires p90s != []
    ensures AboveAll(p50, p90s) <==> forall x | x in p90s :: p50 > x + Margin(p90s) as real
  {
    hide Margin, Tenth;
    MarginIsLargest(p90s);
    var y, z :| y in p90s && z in p90s && Tenth(y, z) == Margin(p90s);
  }

  /** With the runs of up to twelve commits a run outdoes the history exactly if it has a p50, the
      runs before have p90s, and it exceeds them all by the margin. These are those of the difference
      to the control, if that stayed the same and each of them has one, and of the measurement
      otherwise. */
  lemma WithinTwelveCommits(runs: seq<Run>, i: nat, controlChanged: bool, digests: seq<Option<Digest>>)
    requires i < 2 && 7 <= |runs| <= 12 && |digests| == |runs|
    requires if controlChanged || runs[i].diffSummary.None? || exists h :: 2 <= h < |runs| && runs[h].diffSummary.None?
      then forall h | 0 <= h < |runs| :: digests[h] == runs[h].summary
      else forall h | 0 <= h < |runs| :: digests[h] == runs[h].diffSummary
    ensures Outdoes(runs, i, controlChanged) <==>
      digests[i].Some? && digests[i].value.p50.Some? &&
      (forall h | 2 <= h < |runs| :: digests[h].Some? && digests[h].value.p90.Some?) &&
      AboveAll(digests[i].value.p50.value, HistoryP90s(digests))
  {
    hide Exceeds, AboveAll;
    var history := runs[2..];
    var onDiff := OnDiff(runs[i], history, controlChanged);
    assert forall h | 2 <= h < |runs| :: history[h - 2] == runs[h];
    assert onDiff <==>
      !(controlChanged || runs[i].diffSummary.None? || exists h :: 2 <= h < |runs| && runs[h].diffSummary.None?);
    assert forall h | 0 <= h < |runs| :: digests[h] == Compared(runs[h], onDiff);
    if Complete(runs[i], history, onDiff) {
      assert P90s(history, onDiff) == HistoryP90s(digests);
      AboveAllIff(digests[i].value.p50.value, P90s(history, onDiff));
    }
  }

  /** The p90s of all but the latest two. */
  function HistoryP90s(digests: seq<Option<Digest>>): seq<real>
    requires |digests| >= 2
    requires forall h | 2 <= h < |digests| :: digests[h].Some? && digests[h].value.p90.Some?
  {
    seq(|digests| - 2, h requires 0 <= h < |digests| - 2 => digests[h + 2].value.p90.value)
  }

  /** The commits that runs are controlled by: their own, where they name no other. */
  lemma ControlCommits(meta: seq<Meta>)
    ensures (forall x | x in meta :: x.controlCommit.None?) ==>
      (ControlChanged(meta) <==> exists x, y :: x in meta && y in meta && x.commit != y.commit)
    ensures (forall x | x in meta :: x.controlCommit.Some?) ==>
      (ControlChanged(meta) <==> exists x, y :: x in meta && y in meta && x.controlCommit != y.controlCommit)
  {
    if i, j :| 0 <= i < |meta| && 0 <= j < |meta| && ControlCommit(meta[i]) != ControlCommit(meta[j]) {
      assert meta[i] in meta && meta[j] in meta;
    }
    if x, y :| x in meta && y in meta && ControlCommit(x) != ControlCommit(y) {
      var i, j :| 0 <= i < |meta| && 0 <= j < |meta| && meta[i] == x && meta[j] == y;
    }
  }
}
