/** The names of statistics: percentiles such as "p50" and others
    (benchmarking/driver/benchmark_driver.py). */
module StatisticNames {
  import opened Decimals
  import opened Wrappers

  type Percent = p: real | 0.0 <= p <= 100.0 witness 0.0

  /** What the model takes from Python: `float` on texts that are not just digits (None where it
      raises), `str` on numbers that are not whole, and the square root. */
  datatype Floats = Floats(read: string -> Option<real>, show: real -> string, squareRoot: real -> real)

  function ToFloat(py: Floats, text: string): Option<real> {
    if text != "" && AllDigits(text) then Some(ReadDigits(text) as real) else py.read(text)
  }

  /** `_percentileArgVal` */
  function PercentileArgVal(py: Floats, token: string): Option<Percent> {
    if |token| < 2 || token[0] != 'p' then None
    else
      var percentile := ToFloat(py, token[1..]);
      if percentile.Some? && 0.0 <= percentile.value <= 100.0 then Some(percentile.value) else None
  }

  predicate Whole(x: real) {
    x == x.Floor as real
  }

  /** How `_createDiffOfDelay` prints a percentage. */
  function PrintPercent(py: Floats, p: Percent): string {
    "p" + if Whole(p) then Decimal(p.Floor) else py.show(p)
  }

  /** The number is whole, or `float` reads back what `str` prints. */
  predicate ReadsBack(py: Floats, p: Percent) {
    Whole(p) || (py.show(p) != "" && !AllDigits(py.show(p)) && py.read(py.show(p)) == Some(p))
  }

  lemma PrintIsRead(py: Floats, p: Percent)
    requires ReadsBack(py, p)
    ensures PercentileArgVal(py, PrintPercent(py, p)) == Some(p)
  {
    var text := PrintPercent(py, p);
    assert text[1..] == if Whole(p) then Decimal(p.Floor) else py.show(p);
    if Whole(p) {
      DecimalIsRead(p.Floor);
    }
  }

  /** No percentage is above 100, or named without the "p". */
  lemma NoPercentage(py: Floats, n: nat, name: string)
    requires n > 100
    ensures PercentileArgVal(py, "p" + Decimal(n)) == None
    ensures name == "" || name[0] != 'p' ==> PercentileArgVal(py, name) == None
  {
    var text := "p" + Decimal(n);
    assert text[1..] == Decimal(n);
    DecimalIsRead(n);
  }

  /** The name that reflects a percentile: of 100 minus its percentage, as that is printed. */
  function Mirror(py: Floats, name: string): string {
    var arg := PercentileArgVal(py, name);
    if arg.Some? then PrintPercent(py, 100.0 - arg.value) else name
  }

  /** The name is spelt as its percentage is printed. */
  predicate Plain(py: Floats, name: string) {
    PercentileArgVal(py, name).Some? ==> name == PrintPercent(py, PercentileArgVal(py, name).value)
  }

  /** What is needed of the percentage of a name: that it and its reflection read back. */
  predicate Legible(py: Floats, name: string) {
    var arg := PercentileArgVal(py, name);
    arg.Some? ==> ReadsBack(py, arg.value) && ReadsBack(py, 100.0 - arg.value)
  }

  /** A name is the reflection of its reflection exactly when it is spelt plainly. */
  lemma MirrorTwice(py: Floats, name: string)
    requires Legible(py, name)
    ensures Mirror(py, Mirror(py, name)) == name <==> Plain(py, name)
    ensures PercentileArgVal(py, name).Some? ==>
      PercentileArgVal(py, Mirror(py, name)) == Some(100.0 - PercentileArgVal(py, name).value)
  {
    hide PercentileArgVal, PrintPercent, ReadsBack;
    var arg := PercentileArgVal(py, name);
    if arg.Some? {
      PrintIsRead(py, 100.0 - arg.value);
      assert 100.0 - (100.0 - arg.value) == arg.value;
    }
  }

  /** For whole percentages no more is needed. */
  lemma WholeIsLegible(py: Floats, name: string)
    requires PercentileArgVal(py, name).Some? && Whole(PercentileArgVal(py, name).value)
    ensures Legible(py, name)
  {
    var p := PercentileArgVal(py, name).value;
    assert 100.0 - p == (100 - p.Floor) as real;
  }

  /** "p50" is the 50th percentile, plainly spelt, and "p05" the fifth, but not plainly. */
  lemma Spellings(py: Floats)
    ensures PercentileArgVal(py, "p50") == Some(50.0) && Plain(py, "p50")
    ensures PercentileArgVal(py, "p05") == Some(5.0) && !Plain(py, "p05")
  {
    Fifty(py);
    Five(py);
  }

  lemma Fifty(py: Floats)
    ensures PercentileArgVal(py, "p50") == Some(50.0) && Plain(py, "p50")
  {
    assert Decimal(5) == "5";
    assert Decimal(50) == "50";
    DecimalIsRead(50);
    assert "p50"[1..] == "50";
    hide Decimal, ReadDigits;
  }

  lemma Five(py: Floats)
    ensures PercentileArgVal(py, "p05") == Some(5.0) && !Plain(py, "p05")
  {
    assert "p05"[1..] == "05" && "05"[..1] == "0" && "0"[..0] == "";
    assert ReadDigits("0") == 0 && ReadDigits("05") == 5;
    assert Decimal(5) == "5";
  }
}
