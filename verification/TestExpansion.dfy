/** Expanding the tests of a benchmark file (benchmarking/frameworks/caffe2/caffe2.py and
    benchmarking/benchmarks/benchmarks.py). */
module TestExpansion {
  import opened Decimals
  import opened TextReplace
  import opened Wrappers

  type Shape = seq<int>

  /** An input, by its shapes. */
  datatype Input = Input(name: string, shapes: seq<Shape>)

  /** A test; `inputs` are in the order of the file. */
  datatype Test = Test(metric: string, identifier: string, inputs: Option<seq<Input>>,
                       arguments: Option<string>, command: Option<string>, commands: Option<seq<string>>)

  /** A benchmark file with one model and its tests; `rest` stands for all other fields. */
  datatype Benchmark = Benchmark(rest: string, tests: seq<Test>)

  // The shape checks of `verifyBenchmarkFile`

  predicate SameDims(shapes: seq<Shape>) {
    forall i, j | 0 <= i < j < |shapes| :: |shapes[i]| == |shapes[j]|
  }

  predicate SameCounts(inputs: seq<Input>) {
    forall i, j | 0 <= i < j < |inputs| :: |inputs[i].shapes| == |inputs[j].shapes|
  }

  /** Tests with a command are not checked; others need inputs whose shapes agree. */
  predicate Checked(test: Test) {
    test.commands.Some? || test.command.Some? || test.arguments.Some? ||
    (test.inputs.Some? && SameCounts(test.inputs.value) &&
     forall i | 0 <= i < |test.inputs.value| :: SameDims(test.inputs.value[i].shapes))
  }

  /** Every input has as many shapes as every other, and all its shapes as many dimensions. */
  ghost predicate ShapesAgree(inputs: seq<Input>) {
    (forall x, y | x in inputs && y in inputs :: |x.shapes| == |y.shapes|) &&
    forall x, s, t | x in inputs && s in x.shapes && t in x.shapes :: |s| == |t|
  }

  lemma AgreeInAll(inputs: seq<Input>)
    ensures ShapesAgree(inputs) <==> SameCounts(inputs) && forall i | 0 <= i < |inputs| :: SameDims(inputs[i].shapes)
  {
    forall shapes: seq<Shape> ensures SameDims(shapes) <==> forall s, t | s in shapes && t in shapes :: |s| == |t| {
    }
  }

  /** The two nested loops, with -1 for a number not seen yet. */
  method CheckShapes(inputs: seq<Input>) returns (ok: bool)
    ensures ok <==> SameCounts(inputs) && forall i | 0 <= i < |inputs| :: SameDims(inputs[i].shapes)
    ensures ok <==> ShapesAgree(inputs)
  {
    hide ShapesAgree;
    AgreeInAll(inputs);
    var num := -1;
    for i := 0 to |inputs|
      invariant num == if i == 0 then -1 else |inputs[0].shapes|
      invariant forall k | 0 <= k < i :: |inputs[k].shapes| == num && SameDims(inputs[k].shapes)
    {
      var shapes := inputs[i].shapes;
      var dims := -1;
      for j := 0 to |shapes|
        invariant dims == if j == 0 then -1 else |shapes[0]|
        invariant forall k | 0 <= k < j :: |shapes[k]| == dims
      {
        if dims < 0 {
          dims := |shapes[j]|;
        } else if dims != |shapes[j]| {
          return false;
        }
      }
      if num < 0 {
        num := |shapes|;
      } else if |shapes| != num {
        return false;
      }
    }
    ok := true;
  }

  // Replication

  /** The number of shapes of the first input, or -1. */
  function ShapeCount(inputs: seq<Input>): int {
    if inputs == [] then -1 else |inputs[0].shapes|
  }

  /** Some input has too few shapes to take one for each of the first input's. */
  predicate RunsOut(test: Test) {
    test.inputs.Some? && ShapeCount(test.inputs.value) != 1 &&
    exists k :: 0 <= k < |test.inputs.value| && |test.inputs.value[k].shapes| < ShapeCount(test.inputs.value)
  }

  /** The inputs with their i-th shapes only. */
  function Slice(inputs: seq<Input>, i: nat): seq<Input>
    requires forall k | 0 <= k < |inputs| :: i < |inputs[k].shapes|
  {
    seq(|inputs|, k requires 0 <= k < |inputs| => inputs[k].(shapes := [inputs[k].shapes[i]]))
  }

  /** The tests that a test becomes. */
  function Replicas(test: Test): seq<Test>
    requires !RunsOut(test)
  {
    if test.inputs.None? || ShapeCount(test.inputs.value) == 1 then [test]
    else
      var inputs, num := test.inputs.value, ShapeCount(test.inputs.value);
      seq(if num < 0 then 0 else num, i requires 0 <= i < num => test.(inputs := Some(Slice(inputs, i))))
  }

  function ReplicasOf(tests: seq<Test>, n: nat): seq<Test>
    requires n <= |tests| && forall i | 0 <= i < n :: !RunsOut(tests[i])
  {
    if n == 0 then [] else ReplicasOf(tests, n - 1) + Replicas(tests[n - 1])
  }

  /** One copy for each shape of the first input, if there is one; the copies have one shape of each
      input, and differ in nothing else. */
  predicate Copies(test: Test, inputs: seq<Input>, copies: seq<Test>) {
    |copies| == (if inputs == [] then 0 else |inputs[0].shapes|) &&
    (inputs != [] && |inputs[0].shapes| == 1 ==> copies == [test]) &&
    (inputs != [] && |inputs[0].shapes| != 1 ==> forall i | 0 <= i < |copies| :: IsCopy(test, inputs, i, copies[i]))
  }

  predicate IsCopy(test: Test, inputs: seq<Input>, i: nat, copy: Test) {
    copy.inputs.Some? && copy == test.(inputs := copy.inputs) && |copy.inputs.value| == |inputs| &&
    forall k | 0 <= k < |inputs| ::
      i < |inputs[k].shapes| && copy.inputs.value[k] == Input(inputs[k].name, [inputs[k].shapes[i]])
  }

  /** One round of the loop of `_replicateTestsOnDims`; taking a shape that is not there raises. */
  method ReplicateTest(test: Test) returns (r: Result<seq<Test>>)
    ensures r.Raised? <==> RunsOut(test)
    ensures r.Ok? ==> r.value == Replicas(test)
    ensures r.Ok? && test.inputs.None? ==> r.value == [test]
    ensures r.Ok? && test.inputs.Some? ==> Copies(test, test.inputs.value, r.value)
  {
    if test.inputs.None? || ShapeCount(test.inputs.value) == 1 {
      return Ok([test]);
    }
    var inputs := test.inputs.value;
    var num := ShapeCount(inputs);
    var copies: seq<Test> := [];
    var i := 0;
    while i < num
      invariant 0 <= i && (i <= num || (num < 0 && i == 0)) && |copies| == i
      invariant forall k | 0 <= k < |inputs| :: i <= |inputs[k].shapes|
      invariant forall c | 0 <= c < i :: copies[c] == test.(inputs := Some(Slice(inputs, c)))
    {
      var shapes := TakeShapes(inputs, i);
      if shapes.Raised? {
        return Raised;
      }
      copies := copies + [test.(inputs := Some(shapes.value))];
      i := i + 1;
    }
    r := Ok(copies);
  }

  /** `_replicateTestsOnDims` */
  method ReplicateTestsOnDims(tests: seq<Test>) returns (r: Result<seq<Test>>)
    ensures r.Raised? <==> exists i :: 0 <= i < |tests| && RunsOut(tests[i])
    ensures r.Ok? ==> r.value == ReplicasOf(tests, |tests|)
  {
    hide RunsOut, Replicas;
    var newTests: seq<Test> := [];
    for t := 0 to |tests|
      invariant forall i | 0 <= i < t :: !RunsOut(tests[i])
      invariant newTests == ReplicasOf(tests, t)
    {
      var copies := ReplicateTest(tests[t]);
      if copies.Raised? {
        return Raised;
      }
      newTests := newTests + copies.value;
    }
    r := Ok(newTests);
  }

  /** Those of a test come after those of the tests before it. */
  lemma {:induction false} ReplicasInOrder(tests: seq<Test>, n: nat, i: nat)
    requires i < n <= |tests| && forall k | 0 <= k < n :: !RunsOut(tests[k])
    ensures |ReplicasOf(tests, i)| + |Replicas(tests[i])| <= |ReplicasOf(tests, n)|
    ensures ReplicasOf(tests, i) <= ReplicasOf(tests, n)
    ensures ReplicasOf(tests, n)[|ReplicasOf(tests, i)|..|ReplicasOf(tests, i)| + |Replicas(tests[i])|] ==
            Replicas(tests[i])
  {
    hide Replicas, RunsOut;
    if i < n - 1 {
      ReplicasInOrder(tests, n - 1, i);
    }
  }

  /** The innermost loop: every input's i-th shape. */
  method TakeShapes(inputs: seq<Input>, i: nat) returns (r: Result<seq<Input>>)
    ensures r.Raised? <==> exists k :: 0 <= k < |inputs| && i >= |inputs[k].shapes|
    ensures r.Ok? ==> r.value == Slice(inputs, i)
  {
    var taken: seq<Input> := inputs;
    for k := 0 to |inputs|
      invariant |taken| == |inputs| && forall j | 0 <= j < k :: i < |inputs[j].shapes|
      invariant forall j | 0 <= j < |inputs| ::
        taken[j] == if j < k then inputs[j].(shapes := [inputs[j].shapes[i]]) else inputs[j]
    {
      if i >= |inputs[k].shapes| {
        return Raised;
      }
      taken := taken[k := inputs[k].(shapes := [inputs[k].shapes[i]])];
    }
    r := Ok(taken);
  }

  /** The shapes that a list of tests has for one input, one after another. */
  function ShapesAt(tests: seq<Test>, k: nat): seq<Shape>
    requires forall i | 0 <= i < |tests| :: tests[i].inputs.Some? && k < |tests[i].inputs.value|
  {
    if tests == [] then []
    else ShapesAt(tests[..|tests| - 1], k) + tests[|tests| - 1].inputs.value[k].shapes
  }

  /** A checked test without a command is replicated once for each shape, and the replicas have
      each input's shapes in order. */
  lemma ReplicasKeepShapes(test: Test, k: nat)
    requires test.inputs.Some? && SameCounts(test.inputs.value) && k < |test.inputs.value|
    ensures !RunsOut(test) && |Replicas(test)| == |test.inputs.value[k].shapes|
    ensures forall i | 0 <= i < |Replicas(test)| ::
      Replicas(test)[i].inputs.Some? && |Replicas(test)[i].inputs.value| == |test.inputs.value| &&
      |Replicas(test)[i].inputs.value[k].shapes| == 1
    ensures ShapesAt(Replicas(test), k) == test.inputs.value[k].shapes
  {
    hide RunsOut, SameCounts, ShapeCount, ShapesAt, Replicas;
    EveryCount(test, k);
    ReplicaCount(test);
    var replicas, shapes := Replicas(test), test.inputs.value[k].shapes;
    forall i | 0 <= i < |replicas|
      ensures replicas[i].inputs.Some? && |replicas[i].inputs.value| == |test.inputs.value|
      ensures replicas[i].inputs.value[k].shapes == [shapes[i]]
    {
      ReplicaAt(test, k, i);
    }
    SlicesInOrder(test, replicas, k, |replicas|);
    assert replicas[..|replicas|] == replicas && shapes[..|shapes|] == shapes;
  }

  lemma EveryCount(test: Test, k: nat)
    requires test.inputs.Some? && SameCounts(test.inputs.value) && k < |test.inputs.value|
    ensures !RunsOut(test) && ShapeCount(test.inputs.value) == |test.inputs.value[k].shapes|
  {
  }

  lemma ReplicaCount(test: Test)
    requires test.inputs.Some? && !RunsOut(test) && ShapeCount(test.inputs.value) >= 0
    ensures |Replicas(test)| == ShapeCount(test.inputs.value)
  {
    hide RunsOut, ShapeCount, Slice;
  }

  lemma ReplicaAt(test: Test, k: nat, i: nat)
    requires test.inputs.Some? && !RunsOut(test) && k < |test.inputs.value| && i < |Replicas(test)|
    requires ShapeCount(test.inputs.value) == |test.inputs.value[k].shapes| == |Replicas(test)|
    ensures var replica := Replicas(test)[i];
      replica.inputs.Some? && |replica.inputs.value| == |test.inputs.value| &&
      replica.inputs.value[k].shapes == [test.inputs.value[k].shapes[i]]
  {
    hide ShapeCount;
  }

  lemma {:induction false} SlicesInOrder(test: Test, replicas: seq<Test>, k: nat, n: nat)
    requires test.inputs.Some? && k < |test.inputs.value| && n <= |replicas| <= |test.inputs.value[k].shapes|
    requires forall i | 0 <= i < |replicas| ::
      replicas[i].inputs.Some? && k < |replicas[i].inputs.value| &&
      replicas[i].inputs.value[k].shapes == [test.inputs.value[k].shapes[i]]
    ensures ShapesAt(replicas[..n], k) == test.inputs.value[k].shapes[..n]
  {
    if n > 0 {
      SlicesInOrder(test, replicas, k, n - 1);
      assert replicas[..n][..n - 1] == replicas[..n - 1];
      var shapes := test.inputs.value[k].shapes;
      assert shapes[..n] == shapes[..n - 1] + [shapes[n - 1]];
    }
  }

  /** A test that passed the checks runs out of shapes only if a command exempted it from them. */
  lemma OnlyCommandTestsRunOut(test: Test)
    requires Checked(test) && RunsOut(test)
    ensures test.commands.Some? || test.command.Some? || test.arguments.Some?
  {
    var k :| 0 <= k < |test.inputs.value| && |test.inputs.value[k].shapes| < ShapeCount(test.inputs.value);
    assert k > 0;
  }

  /** And that does happen: two shapes for the first input, one for the second. */
  lemma CommandTestRunsOut() returns (test: Test)
    ensures Checked(test) && RunsOut(test)
  {
    var inputs := [Input("a", [[1], [2]]), Input("b", [[1]])];
    test := Test("delay", "id", Some(inputs), None, None, Some(["{program}"]));
    assert |inputs[1].shapes| < ShapeCount(inputs);
  }

  /** A test disappears exactly when it has inputs, but no input or no shape of the first. */
  lemma DroppedIff(test: Test)
    requires !RunsOut(test)
    ensures Replicas(test) == [] <==> test.inputs.Some? && ShapeCount(test.inputs.value) <= 0
  {
  }

  // One test per benchmark

  /** The end of `_collectOneBenchmark`: a benchmark for each test, in order, that differs in
      nothing else. */
  method SplitTests(one: Benchmark) returns (benchmarks: seq<Benchmark>)
    ensures |benchmarks| == |one.tests|
    ensures forall i | 0 <= i < |benchmarks| :: benchmarks[i] == one.(tests := [one.tests[i]])
  {
    if |one.tests| == 1 {
      assert one.tests == [one.tests[0]];
      return [one];
    }
    var tests := one.tests;
    var bare := one.(tests := []);
    benchmarks := [];
    for i := 0 to |tests|
      invariant |benchmarks| == i
      invariant forall k | 0 <= k < i :: benchmarks[k] == one.(tests := [tests[k]])
    {
      var newBenchmark := bare;
      newBenchmark := newBenchmark.(tests := newBenchmark.tests + [tests[i]]);
      benchmarks := benchmarks + [newBenchmark];
    }
  }

  // Fields and identifiers

  function Given(test: Test): nat {
    (if test.arguments.Some? then 1 else 0) + (if test.command.Some? then 1 else 0) +
    (if test.commands.Some? then 1 else 0)
  }

  function CommandsOf(test: Test): Option<seq<string>> {
    if test.arguments.Some? then Some(["{program} " + test.arguments.value])
    else if test.command.Some? then Some([test.command.value])
    else test.commands
  }

  /** `_rewriteTestFields`: at most one of the three ways to give a command is allowed, and all
      become a list of commands. */
  method RewriteTestFields(test: Test) returns (r: Result<Test>)
    ensures r.Raised? <==> Given(test) > 1
    ensures r.Raised? <==>
      (test.arguments.Some? && test.command.Some?) || (test.arguments.Some? && test.commands.Some?) ||
      (test.command.Some? && test.commands.Some?)
    ensures r.Ok? ==> r.value == test.(arguments := None, commands := CommandsOf(test))
    ensures r.Ok? && test.arguments.Some? ==> r.value.commands == Some(["{program} " + test.arguments.value])
    ensures r.Ok? && test.command.Some? ==> r.value.commands == Some([test.command.value])
    ensures r.Ok? && test.arguments.None? && test.command.None? ==> r.value.commands == test.commands
  {
    var t := test;
    if t.arguments.Some? {
      if t.commands.Some? {
        return Raised;
      }
      t := t.(commands := Some(["{program} " + t.arguments.value]), arguments := None);
    }
    if t.command.Some? {
      if t.commands.Some? {
        return Raised;
      }
      t := t.(commands := Some([t.command.value]));
    }
    r := Ok(t);
  }

  /** The pattern is found in the text. */
  predicate Occurs(text: string, pattern: string) {
    |text| >= |pattern| && (text[..|pattern|] == pattern || (text != "" && Occurs(text[1..], pattern)))
  }

  /** Longer replacements give longer texts. */
  lemma {:induction false} LongerReplacement(text: string, pattern: string, a: string, b: string)
    requires pattern != "" && |a| <= |b|
    ensures |Replace(text, pattern, a)| <= |Replace(text, pattern, b)|
    ensures |a| < |b| && Occurs(text, pattern) ==> |Replace(text, pattern, a)| < |Replace(text, pattern, b)|
    decreases |text|
  {
    if |text| >= |pattern| {
      LongerReplacement(if text[..|pattern|] == pattern then text[|pattern|..] else text[1..], pattern, a, b);
    }
  }

  /** Different replacements of the same length give different texts. */
  lemma {:induction false} OtherReplacement(text: string, pattern: string, a: string, b: string)
    requires pattern != "" && |a| == |b| && a != b && Occurs(text, pattern)
    ensures Replace(text, pattern, a) != Replace(text, pattern, b)
    decreases |text|
  {
    if text[..|pattern|] == pattern {
      var rest := text[|pattern|..];
      Starts(a, Replace(rest, pattern, a));
      Starts(b, Replace(rest, pattern, b));
    } else {
      OtherReplacement(text[1..], pattern, a, b);
      assert ([text[0]] + Replace(text[1..], pattern, a))[1..] == Replace(text[1..], pattern, a);
      assert ([text[0]] + Replace(text[1..], pattern, b))[1..] == Replace(text[1..], pattern, b);
    }
  }

  lemma Starts(start: string, rest: string)
    ensures (start + rest)[..|start|] == start
  {
  }

  lemma {:induction false} NothingOccurs(text: string, pattern: string, replacement: string)
    requires pattern != "" && !Occurs(text, pattern)
    ensures Replace(text, pattern, replacement) == text
    decreases |text|
  {
    if |text| >= |pattern| {
      NothingOccurs(text[1..], pattern, replacement);
    }
  }

  function Identifier(template: string, index: nat): string {
    Replace(template, "{ID}", Decimal(index))
  }

  /** Identifiers from one template differ exactly when the template contains "{ID}". */
  lemma IdentifiersDiffer(template: string, i: nat, j: nat)
    requires i != j
    ensures Identifier(template, i) != Identifier(template, j) <==> Occurs(template, "{ID}")
  {
    hide Replace, Decimal, Occurs;
    var a, b := Decimal(i), Decimal(j);
    if Occurs(template, "{ID}") {
      DecimalDiffers(i, j);
      if |a| < |b| {
        LongerReplacement(template, "{ID}", a, b);
      } else if |b| < |a| {
        LongerReplacement(template, "{ID}", b, a);
      } else {
        OtherReplacement(template, "{ID}", a, b);
      }
    } else {
      NothingOccurs(template, "{ID}", a);
      NothingOccurs(template, "{ID}", b);
    }
  }

  /** `_updateNewTestFields`: the tests are numbered in order. */
  method UpdateNewTestFields(tests: seq<Test>) returns (r: seq<Test>)
    ensures |r| == |tests|
    ensures forall i | 0 <= i < |r| ::
      r[i] == tests[i].(identifier := Replace(tests[i].identifier, "{ID}", Decimal(i)))
  {
    r := tests;
    var idx := 0;
    for i := 0 to |tests|
      invariant idx == i && |r| == |tests|
      invariant forall k | 0 <= k < |tests| ::
        r[k] == if k < i then tests[k].(identifier := Identifier(tests[k].identifier, k)) else tests[k]
    {
      r := r[i := r[i].(identifier := Replace(r[i].identifier, "{ID}", Decimal(idx)))];
      idx := idx + 1;
    }
  }

  // A whole benchmark file

  /** A replica with its fields rewritten and its identifier filled in. */
  function Final(test: Test, index: nat): Test {
    test.(arguments := None, commands := CommandsOf(test), identifier := Identifier(test.identifier, index))
  }

  /** It has the number in place of "{ID}", and its command as a list. */
  predicate IsFinal(test: Test, index: nat, final: Test) {
    final.identifier == Replace(test.identifier, "{ID}", Decimal(index)) &&
    final.metric == test.metric && final.inputs == test.inputs && final.command == test.command &&
    final.arguments == None &&
    (test.arguments.Some? ==> final.commands == Some(["{program} " + test.arguments.value])) &&
    (test.arguments.None? && test.command.Some? ==> final.commands == Some([test.command.value])) &&
    (test.arguments.None? && test.command.None? ==> final.commands == test.commands)
  }

  lemma FinalIs(test: Test, index: nat)
    ensures IsFinal(test, index, Final(test, index))
  {
    hide Replace, Decimal;
  }

  /** Replicas with the same template, in which "{ID}" occurs, get different identifiers. */
  ghost predicate DistinctIdentifiers(replicas: seq<Test>, benchmarks: seq<Benchmark>) {
    forall i, j | 0 <= i < j < |replicas| && j < |benchmarks| &&
        replicas[i].identifier == replicas[j].identifier && Occurs(replicas[i].identifier, "{ID}") ::
      benchmarks[i].tests != [] && benchmarks[j].tests != [] &&
      benchmarks[i].tests[0].identifier != benchmarks[j].tests[0].identifier
  }

  lemma FinalIdentifiersDiffer(one: Benchmark, replicas: seq<Test>, benchmarks: seq<Benchmark>)
    requires |benchmarks| == |replicas|
    requires forall i | 0 <= i < |replicas| :: benchmarks[i] == one.(tests := [Final(replicas[i], i)])
    ensures DistinctIdentifiers(replicas, benchmarks)
  {
    hide Identifier, Occurs;
    forall i, j | 0 <= i < j < |replicas| && replicas[i].identifier == replicas[j].identifier &&
        Occurs(replicas[i].identifier, "{ID}")
      ensures benchmarks[i].tests[0].identifier != benchmarks[j].tests[0].identifier
    {
      IdentifiersDiffer(replicas[i].identifier, i, j);
    }
  }

  /** `_updateTests` and the split: generic benchmarks are only split; others become one benchmark
      for each replica, numbered in order over the whole file. */
  method ExpandBenchmark(one: Benchmark) returns (r: Result<seq<Benchmark>>)
    requires one.tests != []
    ensures one.tests[0].metric == "generic" ==>
      r.Ok? && |r.value| == |one.tests| && forall i | 0 <= i < |r.value| :: r.value[i] == one.(tests := [one.tests[i]])
    ensures one.tests[0].metric != "generic" ==>
      (r.Ok? <==> (forall i | 0 <= i < |one.tests| :: !RunsOut(one.tests[i])) &&
                  forall test | test in ReplicasOf(one.tests, |one.tests|) :: Given(test) <= 1)
    ensures one.tests[0].metric != "generic" && r.Ok? ==>
      var replicas := ReplicasOf(one.tests, |one.tests|);
      |r.value| == |replicas| &&
      forall i | 0 <= i < |replicas| :: r.value[i] == one.(tests := [Final(replicas[i], i)])
    ensures one.tests[0].metric != "generic" && r.Ok? ==> forall i | 0 <= i < |r.value| ::
      |r.value[i].tests| == 1 && IsFinal(ReplicasOf(one.tests, |one.tests|)[i], i, r.value[i].tests[0])
    ensures one.tests[0].metric != "generic" && r.Ok? ==>
      DistinctIdentifiers(ReplicasOf(one.tests, |one.tests|), r.value)
  {
    hide Replace, Decimal, Replicas, RunsOut, Given, CommandsOf, IsFinal;
    if one.tests[0].metric == "generic" {
      var split := SplitTests(one);
      return Ok(split);
    }
    var replicas := ReplicateTestsOnDims(one.tests);
    if replicas.Raised? {
      return Raised;
    }
    var tests := replicas.value;
    for i := 0 to |tests|
      invariant |tests| == |replicas.value|
      invariant forall k | i <= k < |tests| :: tests[k] == replicas.value[k]
      invariant forall k | 0 <= k < i :: Given(replicas.value[k]) <= 1
      invariant forall k | 0 <= k < i ::
        tests[k] == replicas.value[k].(arguments := None, commands := CommandsOf(replicas.value[k]))
    {
      var test := RewriteTestFields(tests[i]);
      if test.Raised? {
        assert replicas.value[i] in replicas.value;
        return Raised;
      }
      tests := tests[i := test.value];
    }
    tests := UpdateNewTestFields(tests);
    var split := SplitTests(one.(tests := tests));
    FinalIdentifiersDiffer(one, replicas.value, split);
    forall i | 0 <= i < |split| ensures IsFinal(replicas.value[i], i, split[i].tests[0]) {
      FinalIs(replicas.value[i], i);
    }
    r := Ok(split);
  }
}
