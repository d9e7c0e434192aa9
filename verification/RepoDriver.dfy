/** The builder thread and the benchmark thread of the continuous driver (benchmarking/repo_driver.py).

    The threads share one lock and one deque. Every line that touches either is a step of its
    own, and the steps of the threads interleave freely. `locked()` and the `release()` after it
    are two steps. A lock may be released by a thread that does not hold it; releasing a free
    lock raises. */
module RepoDriver {
  import opened Wrappers

  datatype Thread = Builder | Driver

  /** Where `_saveOneCommitExecutable` is. With `--same_host` the lock is awaited before the
      build, otherwise after it. */
  datatype BuilderAt =
    | Idle
    | AwaitingLock(wanted: string)
    | Building(item: string)
    | Appending(built: string)
    | Testing
    | Unlocking
    | Died

  /** Where `_runBenchmarkSuitesInQueue` is. `PoppedNothing` is a popleft on an empty queue,
      `Crashed` a release of a free lock with a popped item, if any, left unfinished. */
  datatype DriverAt =
    | Looking
    | Awaiting
    | Popping
    | UnlockingEarly(popped: string)
    | Benchmarking(running: string)
    | UnlockingLate
    | PoppedNothing
    | Crashed(unfinished: seq<string>)

  /** `builds` and `benchmarks` record the successful builds and the finished benchmarks. */
  datatype State = State(
    builder: BuilderAt, driver: DriverAt, lock: Option<Thread>, queue: seq<string>,
    builds: seq<string>, benchmarks: seq<string>)

  /** How the driver was started, and whether a build may fail (return None). */
  datatype Mode = Mode(sameHost: bool, buildsMayFail: bool)

  datatype Step =
    | StartBuild(commit: string)
    | BuilderLocks
    | EndBuild(succeeds: bool)
    | Append
    | TestLock
    | BuilderUnlocks
    | SeeWork
    | DriverLocks
    | PopLeft
    | UnlockEarly
    | EndBenchmark
    | UnlockLate

  predicate Enabled(m: Mode, s: State, step: Step) {
    match step
    case StartBuild(_) => s.builder.Idle?
    case BuilderLocks => s.builder.AwaitingLock? && s.lock == None
    case EndBuild(succeeds) => s.builder.Building? && (succeeds || m.buildsMayFail)
    case Append => s.builder.Appending?
    case TestLock => s.builder.Testing?
    case BuilderUnlocks => s.builder.Unlocking?
    case SeeWork => s.driver.Looking? && s.queue != []
    case DriverLocks => s.driver.Awaiting? && s.lock == None
    case PopLeft => s.driver.Popping?
    case UnlockEarly => s.driver.UnlockingEarly?
    case EndBenchmark => s.driver.Benchmarking?
    case UnlockLate => s.driver.UnlockingLate?
  }

  function Apply(m: Mode, s: State, step: Step): State
    requires Enabled(m, s, step)
  {
    match step
    case StartBuild(item) =>
      s.(builder := if m.sameHost then AwaitingLock(item) else Building(item))
    case BuilderLocks =>
      var item := s.builder.wanted;
      s.(lock := Some(Builder), builder := if m.sameHost then Building(item) else Appending(item))
    case EndBuild(succeeds) =>
      var item := s.builder.item;
      if !succeeds then s.(builder := Testing)
      else s.(builds := s.builds + [item], builder := if m.sameHost then Appending(item) else AwaitingLock(item))
    case Append => s.(queue := s.queue + [s.builder.built], builder := Testing)
    case TestLock => s.(builder := if s.lock.Some? then Unlocking else Idle)
    case BuilderUnlocks => s.(lock := None, builder := if s.lock.Some? then Idle else Died)
    case SeeWork => s.(driver := Awaiting)
    case DriverLocks => s.(lock := Some(Driver), driver := Popping)
    case PopLeft =>
      if s.queue == [] then s.(driver := PoppedNothing)
      else s.(queue := s.queue[1..],
              driver := if m.sameHost then Benchmarking(s.queue[0]) else UnlockingEarly(s.queue[0]))
    case UnlockEarly =>
      s.(lock := None, driver := if s.lock.Some? then Benchmarking(s.driver.popped) else Crashed([s.driver.popped]))
    case EndBenchmark =>
      s.(benchmarks := s.benchmarks + [s.driver.running], driver := if m.sameHost then UnlockingLate else Looking)
    case UnlockLate => s.(lock := None, driver := if s.lock.Some? then Looking else Crashed([]))
  }

  const START := State(Idle, Looking, None, [], [], [])

  // Runs

  /** The steps can be made in this order from the start, and the state they lead to. */
  ghost predicate CanRun(m: Mode, steps: seq<Step>)
    decreases |steps|, 0
  {
    var n := |steps|;
    n == 0 || (CanRun(m, steps[..n - 1]) && Enabled(m, After(m, steps[..n - 1]), steps[n - 1]))
  }

  ghost function After(m: Mode, steps: seq<Step>): State
    requires CanRun(m, steps)
    decreases |steps|, 1
  {
    var n := |steps|;
    if n == 0 then START else Apply(m, After(m, steps[..n - 1]), steps[n - 1])
  }

  lemma Extend(m: Mode, steps: seq<Step>, step: Step)
    requires CanRun(m, steps) && Enabled(m, After(m, steps), step)
    ensures CanRun(m, steps + [step]) && After(m, steps + [step]) == Apply(m, After(m, steps), step)
  {
    assert (steps + [step])[..|steps|] == steps;
  }

  // The work in order, in every mode

  function BuilderItems(m: Mode, at: BuilderAt): seq<string> {
    match at
    case AwaitingLock(item) => if m.sameHost then [] else [item]
    case Appending(item) => [item]
    case _ => []
  }

  function DriverItems(at: DriverAt): seq<string> {
    match at
    case UnlockingEarly(item) => [item]
    case Benchmarking(item) => [item]
    case Crashed(items) => items
    case _ => []
  }

  /** Each successful build is finished, in the driver's hands, queued or about to be queued,
      and these follow each other in build order. */
  ghost predicate InOrder(m: Mode, s: State) {
    s.builds == s.benchmarks + DriverItems(s.driver) + s.queue + BuilderItems(m, s.builder)
  }

  /** The driver found work, and nobody else takes it. */
  ghost predicate WorkStays(s: State) {
    !s.driver.PoppedNothing? && (s.driver.Awaiting? || s.driver.Popping? ==> s.queue != [])
  }

  lemma StepKeepsOrder(m: Mode, s: State, step: Step)
    requires Enabled(m, s, step) && InOrder(m, s) && WorkStays(s)
    ensures InOrder(m, Apply(m, s, step)) && WorkStays(Apply(m, s, step))
  {
    hide InOrder;
    var s' := Apply(m, s, step);
    if step.EndBuild? && step.succeeds {
      BuildInOrder(m, s, s', s.builder.item);
    } else if step.Append? {
      AppendInOrder(m, s, s', s.builder.built);
    } else if step.PopLeft? {
      PopInOrder(m, s, s');
    } else if step.EndBenchmark? {
      EndInOrder(m, s, s', s.driver.running);
    } else {
      NothingMoves(m, s, s');
    }
  }

  lemma BuildInOrder(m: Mode, s: State, s': State, item: string)
    requires InOrder(m, s) && s'.driver == s.driver && s'.queue == s.queue && s'.benchmarks == s.benchmarks
    requires BuilderItems(m, s.builder) == [] && BuilderItems(m, s'.builder) == [item] && s'.builds == s.builds + [item]
    ensures InOrder(m, s')
  {
    hide BuilderItems, DriverItems;
  }

  lemma AppendInOrder(m: Mode, s: State, s': State, item: string)
    requires InOrder(m, s) && s'.driver == s.driver && s'.benchmarks == s.benchmarks && s'.builds == s.builds
    requires BuilderItems(m, s.builder) == [item] && BuilderItems(m, s'.builder) == [] && s'.queue == s.queue + [item]
    ensures InOrder(m, s')
  {
    hide BuilderItems, DriverItems;
  }

  lemma PopInOrder(m: Mode, s: State, s': State)
    requires InOrder(m, s) && s'.builder == s.builder && s'.benchmarks == s.benchmarks && s'.builds == s.builds
    requires s.queue != [] && DriverItems(s.driver) == [] && DriverItems(s'.driver) == s.queue[..1]
    requires s'.queue == s.queue[1..]
    ensures InOrder(m, s')
  {
    hide BuilderItems, DriverItems;
    assert s.queue == s.queue[..1] + s.queue[1..];
  }

  lemma EndInOrder(m: Mode, s: State, s': State, item: string)
    requires InOrder(m, s) && s'.builder == s.builder && s'.queue == s.queue && s'.builds == s.builds
    requires DriverItems(s.driver) == [item] && DriverItems(s'.driver) == [] && s'.benchmarks == s.benchmarks + [item]
    ensures InOrder(m, s')
  {
    hide BuilderItems, DriverItems;
  }

  lemma NothingMoves(m: Mode, s: State, s': State)
    requires InOrder(m, s) && s'.queue == s.queue && s'.builds == s.builds && s'.benchmarks == s.benchmarks
    requires BuilderItems(m, s.builder) == BuilderItems(m, s'.builder)
    requires DriverItems(s.driver) == DriverItems(s'.driver)
    ensures InOrder(m, s')
  {
  }

  /** In every mode and every interleaving, whatever builds fail: no successful build is lost,
      benchmarked twice or overtaken, and popleft is never called on an empty queue. */
  lemma {:induction false} BenchmarksFollowBuilds(m: Mode, steps: seq<Step>)
    requires CanRun(m, steps)
    ensures InOrder(m, After(m, steps)) && WorkStays(After(m, steps))
    ensures After(m, steps).benchmarks <= After(m, steps).builds
    decreases |steps|
  {
    var n := |steps|;
    if n > 0 {
      BenchmarksFollowBuilds(m, steps[..n - 1]);
      StepKeepsOrder(m, After(m, steps[..n - 1]), steps[n - 1]);
    }
  }

  // The lock

  /** Where a thread believes that it holds the lock. */
  predicate BuilderHolds(m: Mode, at: BuilderAt) {
    (at.Building? && m.sameHost) || at.Appending? || at.Testing? || at.Unlocking?
  }

  predicate DriverHolds(m: Mode, at: DriverAt) {
    at.Popping? || at.UnlockingEarly? || (at.Benchmarking? && m.sameHost) || at.UnlockingLate?
  }

  /** Nobody releases a lock that it does not hold, and no thread has died of it. */
  predicate Disciplined(s: State) {
    (s.builder.Testing? || s.builder.Unlocking? ==> s.lock == Some(Builder)) &&
    (s.driver.UnlockingEarly? || s.driver.UnlockingLate? ==> s.lock == Some(Driver)) &&
    !s.builder.Died? && !s.driver.Crashed?
  }

  predicate Exclusive(s: State) {
    !(s.builder.Building? && s.driver.Benchmarking?)
  }

  ghost predicate LockInv(m: Mode, s: State) {
    (s.lock == Some(Builder) <==> BuilderHolds(m, s.builder)) &&
    (s.lock == Some(Driver) <==> DriverHolds(m, s.driver)) &&
    (s.driver.UnlockingEarly? ==> !m.sameHost) && (s.driver.UnlockingLate? ==> m.sameHost) &&
    Disciplined(s)
  }

  lemma StepKeepsLock(m: Mode, s: State, step: Step)
    requires Enabled(m, s, step) && LockInv(m, s) && WorkStays(s)
    requires m.sameHost || !m.buildsMayFail
    ensures LockInv(m, Apply(m, s, step))
  {
  }

  lemma {:induction false} RunKeepsLock(m: Mode, steps: seq<Step>)
    requires CanRun(m, steps) && (m.sameHost || !m.buildsMayFail)
    ensures LockInv(m, After(m, steps))
    decreases |steps|
  {
    var n := |steps|;
    if n > 0 {
      RunKeepsLock(m, steps[..n - 1]);
      BenchmarksFollowBuilds(m, steps[..n - 1]);
      StepKeepsLock(m, After(m, steps[..n - 1]), steps[n - 1]);
    }
  }

  /** A thread's next step, when it has one. */
  predicate Moves(step: Step, thread: Thread) {
    (step.StartBuild? || step.BuilderLocks? || step.EndBuild? || step.Append? || step.TestLock? || step.BuilderUnlocks?)
      == thread.Builder?
  }

  function NextOfHolder(s: State): Step
    requires s.lock.Some?
  {
    match s.lock.value
    case Builder =>
      (match s.builder
       case Building(_) => EndBuild(true)
       case Appending(_) => Append
       case Testing => TestLock
       case _ => BuilderUnlocks)
    case Driver =>
      (match s.driver
       case Popping => PopLeft
       case UnlockingEarly(_) => UnlockEarly
       case Benchmarking(_) => EndBenchmark
       case _ => UnlockLate)
  }

  /** The holder of the lock is never blocked, so a thread waiting for the lock waits only for
      the other to go on. */
  lemma HolderCanMove(m: Mode, steps: seq<Step>)
    requires CanRun(m, steps) && (m.sameHost || !m.buildsMayFail) && After(m, steps).lock.Some?
    ensures exists step :: Moves(step, After(m, steps).lock.value) && Enabled(m, After(m, steps), step)
  {
    RunKeepsLock(m, steps);
    var s := After(m, steps);
    var step := NextOfHolder(s);
    assert Moves(step, s.lock.value) && Enabled(m, s, step);
  }

  /** The builder by itself, in any mode, releases the lock only where it took it, and is never lost. */
  ghost predicate AloneInv(m: Mode, s: State) {
    !s.builder.Died? && s.driver.Looking? && (s.builder.Unlocking? ==> s.lock == Some(Builder)) &&
    (s.lock.Some? ==> s.lock == Some(Builder) && BuilderHolds(m, s.builder)) &&
    (s.builder.Appending? || (s.builder.Building? && m.sameHost) ==> s.lock == Some(Builder))
  }

  /** With only the builder at work, whatever builds fail, it never releases a lock that is free, and
      the lock is free whenever it is between builds. */
  lemma {:induction false} BuilderAlone(m: Mode, steps: seq<Step>)
    requires CanRun(m, steps) && forall step | step in steps :: Moves(step, Builder)
    ensures AloneInv(m, After(m, steps))
    ensures After(m, steps).builder.Idle? ==> After(m, steps).lock == None
    decreases |steps|
  {
    var n := |steps|;
    if n > 0 {
      BuilderAlone(m, steps[..n - 1]);
      assert steps[n - 1] in steps;
    }
  }

  // What goes wrong otherwise

  /** One item built, queued and taken by the driver, which holds the lock and is about to pop. */
  lemma QueueOne(m: Mode, item: string) returns (steps: seq<Step>)
    requires !m.sameHost
    ensures CanRun(m, steps) && After(m, steps) == State(Idle, Looking, None, [item], [item], [])
  {
    steps := [];
    Extend(m, steps, StartBuild(item)); steps := steps + [StartBuild(item)];
    Extend(m, steps, EndBuild(true)); steps := steps + [EndBuild(true)];
    Extend(m, steps, BuilderLocks); steps := steps + [BuilderLocks];
    Extend(m, steps, Append); steps := steps + [Append];
    Extend(m, steps, TestLock); steps := steps + [TestLock];
    Extend(m, steps, BuilderUnlocks); steps := steps + [BuilderUnlocks];
  }

  /** Without `--same_host`, a build that fails while the driver is popping releases the
      driver's lock; the driver's own release then raises, with its item never benchmarked. */
  lemma FailedBuildStealsLock(m: Mode, item: string, failing: string) returns (steps: seq<Step>)
    requires !m.sameHost && m.buildsMayFail
    ensures CanRun(m, steps) && After(m, steps).driver == Crashed([item]) && !Disciplined(After(m, steps))
  {
    hide CanRun, After;
    steps := QueueOne(m, item);
    Extend(m, steps, StartBuild(failing)); steps := steps + [StartBuild(failing)];
    Extend(m, steps, EndBuild(false)); steps := steps + [EndBuild(false)];
    Extend(m, steps, SeeWork); steps := steps + [SeeWork];
    Extend(m, steps, DriverLocks); steps := steps + [DriverLocks];
    Extend(m, steps, TestLock); steps := steps + [TestLock];
    Extend(m, steps, BuilderUnlocks); steps := steps + [BuilderUnlocks];
    Extend(m, steps, PopLeft); steps := steps + [PopLeft];
    Extend(m, steps, UnlockEarly); steps := steps + [UnlockEarly];
  }

  /** The lock discipline holds in all runs exactly when the hosts are the same or no build fails. */
  lemma DisciplineIff(m: Mode)
    ensures (forall steps | CanRun(m, steps) :: Disciplined(After(m, steps))) <==> m.sameHost || !m.buildsMayFail
  {
    if m.sameHost || !m.buildsMayFail {
      forall steps | CanRun(m, steps) ensures Disciplined(After(m, steps)) {
        RunKeepsLock(m, steps);
      }
    } else {
      var steps := FailedBuildStealsLock(m, "a", "b");
      assert CanRun(m, steps) && !Disciplined(After(m, steps));
    }
  }

  lemma BuildDuringBenchmark(m: Mode, item: string, other: string) returns (steps: seq<Step>)
    requires !m.sameHost
    ensures CanRun(m, steps) && !Exclusive(After(m, steps))
  {
    hide CanRun, After;
    steps := QueueOne(m, item);
    Extend(m, steps, SeeWork); steps := steps + [SeeWork];
    Extend(m, steps, DriverLocks); steps := steps + [DriverLocks];
    Extend(m, steps, PopLeft); steps := steps + [PopLeft];
    Extend(m, steps, UnlockEarly); steps := steps + [UnlockEarly];
    Extend(m, steps, StartBuild(other)); steps := steps + [StartBuild(other)];
  }

  /** A build and a benchmark exclude each other in all runs exactly with `--same_host`. */
  lemma ExclusionIff(m: Mode)
    ensures (forall steps | CanRun(m, steps) :: Exclusive(After(m, steps))) <==> m.sameHost
  {
    if m.sameHost {
      forall steps | CanRun(m, steps) ensures Exclusive(After(m, steps)) {
        RunKeepsLock(m, steps);
      }
    } else {
      var steps := BuildDuringBenchmark(m, "a", "b");
      assert CanRun(m, steps) && !Exclusive(After(m, steps));
    }
  }
}
