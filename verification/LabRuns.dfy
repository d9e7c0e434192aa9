/** The life of a device in one lab, and draining (benchmarking/run_lab.py, and CoolDownDevice in
    benchmarking/platforms/device_manager.py).

    A state machine: the main loop, the callbacks of finished jobs and the cooldown threads take
    steps in any order. The increment of RUNNING_JOBS and the submission of the job are separate
    steps, and so are the decrement and the rest of the callback. No device disconnects. */
module LabRuns {

  /** Where the main loop is: about to test for a stop; about to claim jobs; filling the queue of a
      round with as many jobs to choose from; about to count the first job of the queue, or to
      submit it once counted; or out of the loop. */
  datatype Phase =
    | Top
    | Claiming
    | Selecting(queue: seq<string>, jobs: nat)
    | Spawning(queue: seq<string>)
    | Submitting(queue: seq<string>)
    | Stopped(drained: bool)

  /** Devices by what they are held for: `outstanding` has that of each submitted job whose
      callback has not begun, `finishing` that of each callback that has counted its job off, and
      `cooling` that of each cooldown thread. `lost` are the devices whose callback raised or
      whose reboot failed. */
  datatype Lab = Lab(
    available: map<string, bool>, phase: Phase, outstanding: multiset<string>, finishing: multiset<string>,
    cooling: multiset<string>, lost: set<string>, runningJobs: int, drain: bool)

  datatype Step =
    | Signal
    | TestStop(fileSaysStop: bool)
    | Claim(claimed: nat)
    | Reserve(device: string)
    | EndSelection
    | CountUp
    | Submit
    | CountDown(device: string)
    | EndCallback(device: string, raises: bool)
    | EndCooldown(device: string, rebootFailed: bool)

  predicate Free(s: Lab, d: string) {
    d in s.available && s.available[d]
  }

  /** Only then does the lab ask the server for jobs. */
  predicate AnyFree(s: Lab) {
    exists d | d in s.available :: Free(s, d)
  }

  predicate Enabled(s: Lab, step: Step) {
    match step
    case Signal => true
    case TestStop(_) => s.phase.Top?
    case Claim(jobs) => s.phase.Claiming? && (jobs > 0 ==> AnyFree(s))
    case Reserve(d) => s.phase.Selecting? && s.phase.jobs > 0 && Free(s, d)
    case EndSelection => s.phase.Selecting?
    case CountUp => s.phase.Spawning? && s.phase.queue != []
    case Submit => s.phase.Submitting? && s.phase.queue != []
    case CountDown(d) => d in s.outstanding
    case EndCallback(d, _) => d in s.finishing
    case EndCooldown(d, _) => d in s.cooling
  }

  /** The loop's test `stopRun`; a status file may stop it too. */
  function AfterTest(s: Lab, fileSaysStop: bool): Phase {
    if s.drain && s.runningJobs == 0 then Stopped(true)
    else if fileSaysStop then Stopped(false)
    else Claiming
  }

  function PhaseAfter(s: Lab, step: Step): Phase
    requires Enabled(s, step)
  {
    match step
    case TestStop(fileSaysStop) => AfterTest(s, fileSaysStop)
    case Claim(jobs) => Selecting([], jobs)
    case Reserve(d) => Selecting(s.phase.queue + [d], s.phase.jobs - 1)
    case EndSelection => if s.phase.queue == [] then Top else Spawning(s.phase.queue)
    case CountUp => Submitting(s.phase.queue)
    case Submit => if |s.phase.queue| == 1 then Top else Spawning(s.phase.queue[1..])
    case _ => s.phase
  }

  /** A device is taken when it is reserved and given back when its cooldown ends well. */
  function AvailableAfter(s: Lab, step: Step): map<string, bool> {
    match step
    case Reserve(d) => s.available[d := false]
    case EndCooldown(d, rebootFailed) => if rebootFailed then s.available else s.available[d := true]
    case _ => s.available
  }

  function OutstandingAfter(s: Lab, step: Step): multiset<string>
    requires Enabled(s, step)
  {
    match step
    case Submit => s.outstanding + multiset{s.phase.queue[0]}
    case CountDown(d) => s.outstanding - multiset{d}
    case _ => s.outstanding
  }

  function FinishingAfter(s: Lab, step: Step): multiset<string> {
    match step
    case CountDown(d) => s.finishing + multiset{d}
    case EndCallback(d, _) => s.finishing - multiset{d}
    case _ => s.finishing
  }

  function CoolingAfter(s: Lab, step: Step): multiset<string> {
    match step
    case EndCallback(d, raises) => if raises then s.cooling else s.cooling + multiset{d}
    case EndCooldown(d, _) => s.cooling - multiset{d}
    case _ => s.cooling
  }

  function LostAfter(s: Lab, step: Step): set<string> {
    match step
    case EndCallback(d, raises) => if raises then s.lost + {d} else s.lost
    case EndCooldown(d, rebootFailed) => if rebootFailed then s.lost + {d} else s.lost
    case _ => s.lost
  }

  function CounterAfter(s: Lab, step: Step): int {
    match step
    case CountUp => s.runningJobs + 1
    case CountDown(_) => s.runningJobs - 1
    case _ => s.runningJobs
  }

  function Apply(s: Lab, step: Step): Lab
    requires Enabled(s, step)
  {
    Lab(AvailableAfter(s, step), PhaseAfter(s, step), OutstandingAfter(s, step), FinishingAfter(s, step),
        CoolingAfter(s, step), LostAfter(s, step), CounterAfter(s, step), s.drain || step.Signal?)
  }

  predicate Initial(s: Lab) {
    s.phase.Top? && s.outstanding == multiset{} && s.finishing == multiset{} && s.cooling == multiset{} &&
    s.lost == {} && s.runningJobs == 0 && !s.drain && forall d | d in s.available :: s.available[d]
  }

  function Queue(s: Lab): seq<string> {
    if s.phase.Selecting? || s.phase.Spawning? || s.phase.Submitting? then s.phase.queue else []
  }

  /** How often a device is in a queue. */
  function Times(queue: seq<string>, d: string): nat {
    if queue == [] then 0 else (if queue[0] == d then 1 else 0) + Times(queue[1..], d)
  }

  function Queued(s: Lab, d: string): nat {
    Times(Queue(s), d)
  }

  /** This step starts a job on the device. */
  predicate Starts(s: Lab, step: Step, d: string) {
    step.Submit? && s.phase.Submitting? && s.phase.queue != [] && s.phase.queue[0] == d
  }

  /** What a device is held for: once for each place in the queue, job, callback or cooldown. */
  function Load(s: Lab, d: string): nat {
    Queued(s, d) + s.outstanding[d] + s.finishing[d] + s.cooling[d]
  }

  ghost predicate DeviceInv(s: Lab, d: string) {
    Load(s, d) <= 1 && (d in s.lost ==> Load(s, d) == 0) && (Load(s, d) == 1 || d in s.lost ==> d in s.available) &&
    (d in s.available ==> (s.available[d] <==> Load(s, d) == 0 && d !in s.lost))
  }

  /** The counter is the number of outstanding jobs, and one more while the main loop has
      counted a job that it has not submitted. */
  ghost predicate CountInv(s: Lab) {
    s.runningJobs == |s.outstanding| + (if s.phase.Submitting? then 1 else 0) &&
    (s.phase == Stopped(true) ==> s.outstanding == multiset{}) &&
    (s.phase.Spawning? || s.phase.Submitting? ==> s.phase.queue != [])
  }

  ghost predicate Inv(s: Lab) {
    CountInv(s) && forall d :: DeviceInv(s, d)
  }

  // Runs

  ghost predicate CanRun(start: Lab, steps: seq<Step>)
    decreases |steps|, 0
  {
    var n := |steps|;
    n == 0 || (CanRun(start, steps[..n - 1]) && Enabled(After(start, steps[..n - 1]), steps[n - 1]))
  }

  ghost function After(start: Lab, steps: seq<Step>): Lab
    requires CanRun(start, steps)
    decreases |steps|, 1
  {
    var n := |steps|;
    if n == 0 then start else Apply(After(start, steps[..n - 1]), steps[n - 1])
  }

  /** How many jobs a run starts. */
  function JobsStarted(steps: seq<Step>): nat {
    var n := |steps|;
    if n == 0 then 0 else JobsStarted(steps[..n - 1]) + if steps[n - 1].Submit? then 1 else 0
  }

  lemma Extend(start: Lab, steps: seq<Step>, step: Step)
    requires CanRun(start, steps) && Enabled(After(start, steps), step)
    ensures CanRun(start, steps + [step]) && After(start, steps + [step]) == Apply(After(start, steps), step)
    ensures JobsStarted(steps + [step]) == JobsStarted(steps) + if step.Submit? then 1 else 0
  {
    assert (steps + [step])[..|steps|] == steps;
  }

  lemma QueueAfter(s: Lab, step: Step, d: string)
    requires Enabled(s, step)
    ensures Queued(Apply(s, step), d) == Queued(s, d) + (
      if step == Reserve(d) then 1 else if Starts(s, step, d) then -1 else 0)
  {
    NextQueue(s, step);
    hide Queue, Apply;
    if step.Reserve? {
      OneMore(Queue(s), step.device, d);
    }
  }

  /** A device is reserved at the end of the queue, and its job submitted from the front. */
  lemma NextQueue(s: Lab, step: Step)
    requires Enabled(s, step)
    ensures step.Submit? ==> s.phase.Submitting? && Queue(s) == s.phase.queue != []
    ensures Queue(Apply(s, step)) ==
      if step.Reserve? then Queue(s) + [step.device] else if step.Submit? then Queue(s)[1..] else Queue(s)
  {
    hide AvailableAfter, OutstandingAfter, FinishingAfter, CoolingAfter, LostAfter, CounterAfter, Free;
    if step.Submit? && |s.phase.queue| == 1 {
      assert s.phase.queue[1..] == [];
    }
  }

  lemma {:induction false} OneMore(queue: seq<string>, last: string, d: string)
    ensures Times(queue + [last], d) == Times(queue, d) + if last == d then 1 else 0
  {
    if queue != [] {
      assert (queue + [last])[1..] == queue[1..] + [last];
      OneMore(queue[1..], last, d);
    }
  }

  lemma JobsAfter(s: Lab, step: Step, d: string)
    requires Enabled(s, step)
    ensures Apply(s, step).outstanding[d] == s.outstanding[d] + (
      if Starts(s, step, d) then 1 else if step == CountDown(d) then -1 else 0)
    ensures Apply(s, step).finishing[d] == s.finishing[d] + (
      if step == CountDown(d) then 1 else if step.EndCallback? && step.device == d then -1 else 0)
    ensures step == CountDown(d) ==> s.outstanding[d] > 0
    ensures step.EndCallback? && step.device == d ==> s.finishing[d] > 0
  {
    hide PhaseAfter;
  }

  lemma CooldownsAfter(s: Lab, step: Step, d: string)
    requires Enabled(s, step)
    ensures Apply(s, step).cooling[d] == s.cooling[d] + (
      if step == EndCallback(d, false) then 1 else if step.EndCooldown? && step.device == d then -1 else 0)
    ensures step.EndCooldown? && step.device == d ==> s.cooling[d] > 0
  {
    hide PhaseAfter;
  }

  lemma LosesAfter(s: Lab, step: Step, d: string)
    requires Enabled(s, step)
    ensures d in Apply(s, step).lost <==> d in s.lost || step == EndCallback(d, true) || step == EndCooldown(d, true)
  {
    hide PhaseAfter;
  }

  lemma FreeAfter(s: Lab, step: Step, d: string)
    requires Enabled(s, step)
    ensures d in s.available || step == EndCooldown(d, false) <==> d in Apply(s, step).available
    ensures Free(Apply(s, step), d) <==> step == EndCooldown(d, false) || (Free(s, d) && step != Reserve(d))
    ensures step == Reserve(d) ==> Free(s, d)
  {
    hide PhaseAfter, OutstandingAfter, FinishingAfter, CoolingAfter, LostAfter, CounterAfter;
  }

  lemma DeviceStep(s: Lab, step: Step, d: string)
    requires DeviceInv(s, d) && Enabled(s, step)
    ensures DeviceInv(Apply(s, step), d)
  {
    hide Apply, Enabled, Queued;
    QueueAfter(s, step, d);
    JobsAfter(s, step, d);
    CooldownsAfter(s, step, d);
    LosesAfter(s, step, d);
    FreeAfter(s, step, d);
  }

  lemma JobsCounted(s: Lab, step: Step)
    requires Enabled(s, step) && CountInv(s)
    ensures CountInv(Apply(s, step))
  {
    hide AvailableAfter, FinishingAfter, CoolingAfter, LostAfter, Free;
  }

  lemma StepKeepsInv(s: Lab, step: Step)
    requires Inv(s) && Enabled(s, step)
    ensures Inv(Apply(s, step))
  {
    var s' := Apply(s, step);
    forall d ensures DeviceInv(s', d) {
      assert DeviceInv(s, d);
      DeviceStep(s, step, d);
    }
    JobsCounted(s, step);
  }

  /** In every run each device has at most one place, job, callback or cooldown, and is
      unavailable just then, unless it was lost; RUNNING_JOBS is the number of outstanding jobs,
      but for the one being submitted; and after a stop by draining no job is outstanding, then
      or later. */
  lemma {:induction false} RunKeepsInv(start: Lab, steps: seq<Step>)
    requires Initial(start) && CanRun(start, steps)
    ensures Inv(After(start, steps))
    decreases |steps|
  {
    var n := |steps|;
    if n == 0 {
      forall d ensures DeviceInv(start, d) {
      }
    } else {
      RunKeepsInv(start, steps[..n - 1]);
      StepKeepsInv(After(start, steps[..n - 1]), steps[n - 1]);
    }
  }

  // From one job of a device to the next

  /** The device has a job, a callback or a cooldown, or is lost. */
  predicate Engaged(s: Lab, d: string) {
    s.outstanding[d] + s.finishing[d] + s.cooling[d] > 0 || d in s.lost
  }

  lemma StepsEngage(s: Lab, step: Step, d: string)
    requires Inv(s) && Enabled(s, step)
    ensures Engaged(s, d) && step != EndCooldown(d, false) ==> Engaged(Apply(s, step), d)
    ensures Starts(s, step, d) ==> !Engaged(s, d) && Engaged(Apply(s, step), d)
  {
    hide Apply, Enabled, Queued, Starts;
    assert DeviceInv(s, d);
    QueueAfter(s, step, d);
    JobsAfter(s, step, d);
    CooldownsAfter(s, step, d);
    LosesAfter(s, step, d);
    FreeAfter(s, step, d);
  }

  lemma LastApart(steps: seq<Step>, i: nat)
    requires i < |steps|
    ensures steps[i..] == steps[..|steps| - 1][i..] + [steps[|steps| - 1]]
  {
  }

  lemma {:induction false} StaysEngaged(start: Lab, steps: seq<Step>, i: nat, d: string)
    requires Initial(start) && CanRun(start, steps) && i <= |steps| && CanRun(start, steps[..i])
    requires Engaged(After(start, steps[..i]), d) && EndCooldown(d, false) !in steps[i..]
    ensures Engaged(After(start, steps), d)
    decreases |steps|
  {
    var n := |steps|;
    hide Inv, Initial, Engaged, Enabled, Apply;
    if i == n {
      assert steps[..i] == steps;
    } else {
      var before := steps[..n - 1];
      assert before[..i] == steps[..i];
      assert EndCooldown(d, false) !in before[i..] && steps[n - 1] != EndCooldown(d, false) by {
        LastApart(steps, i);
      }
      StaysEngaged(start, before, i, d);
      RunKeepsInv(start, before);
      StepsEngage(After(start, before), steps[n - 1], d);
    }
  }

  /** Between two jobs of a device a cooldown of it ends, with a reboot that did not fail. */
  lemma CooldownBetweenJobs(start: Lab, steps: seq<Step>, i: nat, d: string, next: Step)
    requires Initial(start) && CanRun(start, steps) && i < |steps|
    requires CanRun(start, steps[..i]) && Starts(After(start, steps[..i]), steps[i], d)
    requires Enabled(After(start, steps), next) && Starts(After(start, steps), next, d)
    ensures EndCooldown(d, false) in steps[i + 1..]
  {
    hide Inv, Initial, Engaged, Enabled, Apply, Starts;
    var first := steps[..i];
    RunKeepsInv(start, first);
    RunKeepsInv(start, steps);
    WasEnabled(start, steps, i);
    StepsEngage(After(start, first), steps[i], d);
    StepsEngage(After(start, steps), next, d);
    if EndCooldown(d, false) !in steps[i + 1..] {
      StaysEngaged(start, steps, i + 1, d);
    }
  }

  /** The steps of a run up to one of them. */
  lemma {:induction false} WasEnabled(start: Lab, steps: seq<Step>, i: nat)
    requires CanRun(start, steps) && i < |steps|
    ensures CanRun(start, steps[..i]) && Enabled(After(start, steps[..i]), steps[i])
    ensures CanRun(start, steps[..i + 1]) && After(start, steps[..i + 1]) == Apply(After(start, steps[..i]), steps[i])
    decreases |steps|
  {
    hide Enabled, Apply;
    var n := |steps|;
    if i == n - 1 {
      assert steps[..i + 1] == steps;
    } else {
      WasEnabled(start, steps[..n - 1], i);
      assert steps[..n - 1][..i] == steps[..i] && steps[..n - 1][..i + 1] == steps[..i + 1];
    }
  }

  // Draining

  /** The devices with a cooldown, a callback or a job. */
  function Held(s: Lab): multiset<string> {
    s.cooling + s.finishing + s.outstanding
  }

  /** Some device is free, or may become so. */
  predicate MayServe(s: Lab) {
    AnyFree(s) || Held(s) != multiset{}
  }

  /** The main loop can still come to start a job: it is about to; or it has jobs to choose from,
      or is about to claim some, and a device for one; or it will come round again because jobs
      are outstanding. */
  predicate MayStart(s: Lab) {
    match s.phase
    case Spawning(_) => true
    case Submitting(_) => true
    case Selecting(queue, jobs) => queue != [] || (jobs > 0 && MayServe(s)) || s.outstanding != multiset{}
    case Claiming => MayServe(s)
    case Top => s.runningJobs > 0
    case Stopped(_) => false
  }

  /** A drained lab that cannot start a job now never can. */
  lemma NoStartStays(s: Lab, step: Step)
    requires CountInv(s) && s.drain && !MayStart(s) && Enabled(s, step)
    ensures step != Submit && Apply(s, step).drain && !MayStart(Apply(s, step))
  {
    hide MayServe, AvailableAfter, FinishingAfter, CoolingAfter, LostAfter, AnyFree, Free;
    if !MayServe(s) && !step.Submit? {
      NoneServed(s, step);
    }
  }

  lemma HeldIsNone(s: Lab)
    requires Held(s) == multiset{}
    ensures s.outstanding == multiset{} && s.finishing == multiset{} && s.cooling == multiset{}
  {
    assert s.outstanding <= Held(s);
    assert s.finishing <= Held(s);
    assert s.cooling <= Held(s);
  }

  /** Without a device free or held, none becomes so. */
  lemma NoneServed(s: Lab, step: Step)
    requires Enabled(s, step) && !MayServe(s) && !step.Submit?
    ensures !MayServe(Apply(s, step)) && s.outstanding == multiset{}
    ensures !step.Reserve? && (step.Claim? ==> step.claimed == 0)
  {
    HeldIsNone(s);
    hide PhaseAfter, CounterAfter, LostAfter;
  }

  lemma {:induction false} NoStarts(s: Lab, steps: seq<Step>)
    requires CountInv(s) && s.drain && !MayStart(s) && CanRun(s, steps)
    ensures JobsStarted(steps) == 0
    ensures CountInv(After(s, steps)) && After(s, steps).drain && !MayStart(After(s, steps))
    decreases |steps|
  {
    hide CountInv, MayStart, Apply, Enabled;
    var n := |steps|;
    if n > 0 {
      NoStarts(s, steps[..n - 1]);
      NoStartStays(After(s, steps[..n - 1]), steps[n - 1]);
      JobsCounted(After(s, steps[..n - 1]), steps[n - 1]);
    }
  }

  /** The test stops the loop exactly if the lab drains and has no job outstanding, or the status file
      says so; no thread can then make it start a job. */
  lemma TestStops(s: Lab, fileSaysStop: bool)
    requires Enabled(s, TestStop(fileSaysStop)) && CountInv(s)
    ensures var phase := Apply(s, TestStop(fileSaysStop)).phase;
      (phase.Stopped? <==> (s.drain && s.outstanding == multiset{}) || fileSaysStop) &&
      (phase == Stopped(true) <==> s.drain && s.outstanding == multiset{})
  {
  }

  predicate InLoop(step: Step) {
    step.TestStop? || step.Claim? || step.EndSelection? || step.CountUp? || step.Submit?
  }

  /** Until it is stopped the main loop can always go on, with devices and jobs or without. */
  lemma LoopCanMove(s: Lab)
    requires CountInv(s) && !s.phase.Stopped?
    ensures exists step :: InLoop(step) && Enabled(s, step)
  {
    var step := match s.phase
      case Top => TestStop(false)
      case Claiming => Claim(0)
      case Selecting(_, _) => EndSelection
      case Spawning(_) => CountUp
      case _ => Submit;
    assert InLoop(step) && Enabled(s, step);
  }

  lemma {:induction false} StoppedStays(s: Lab, steps: seq<Step>)
    requires s.phase.Stopped? && CanRun(s, steps)
    ensures After(s, steps).phase == s.phase && JobsStarted(steps) == 0
    decreases |steps|
  {
    hide AvailableAfter, OutstandingAfter, FinishingAfter, CoolingAfter, LostAfter, CounterAfter;
    var n := |steps|;
    if n > 0 {
      StoppedStays(s, steps[..n - 1]);
    }
  }

  /** A lab that the status file stops starts no more jobs, drained or not, outstanding jobs or not. */
  lemma StatusFileStops(s: Lab, steps: seq<Step>)
    requires Enabled(s, TestStop(true)) && CanRun(Apply(s, TestStop(true)), steps)
    ensures JobsStarted(steps) == 0
  {
    StoppedStays(Apply(s, TestStop(true)), steps);
  }

  /** Runs one after the other. */
  lemma {:induction false} Append(s: Lab, a: seq<Step>, b: seq<Step>)
    requires CanRun(s, a) && CanRun(After(s, a), b)
    ensures CanRun(s, a + b) && After(s, a + b) == After(After(s, a), b)
    ensures JobsStarted(a + b) == JobsStarted(a) + JobsStarted(b)
    decreases |b|
  {
    hide Enabled, Apply;
    var n := |b|;
    if n == 0 {
      assert a + b == a;
    } else {
      Append(s, a, b[..n - 1]);
      assert a + b == (a + b[..n - 1]) + [b[n - 1]];
      Extend(s, a + b[..n - 1], b[n - 1]);
    }
  }

  lemma {:induction false} CountStarts(a: seq<Step>, b: seq<Step>)
    ensures JobsStarted(a + b) == JobsStarted(a) + JobsStarted(b)
    decreases |b|
  {
    var n := |b|;
    if n == 0 {
      assert a + b == a;
    } else {
      CountStarts(a, b[..n - 1]);
      assert (a + b)[..|a + b| - 1] == a + b[..n - 1];
    }
  }

  lemma Begin(s: Lab, step: Step, rest: seq<Step>)
    requires Enabled(s, step) && CanRun(Apply(s, step), rest)
    ensures CanRun(s, [step] + rest) && After(s, [step] + rest) == After(Apply(s, step), rest)
    ensures JobsStarted([step] + rest) == JobsStarted(rest) + if step.Submit? then 1 else 0
  {
    hide Enabled, Apply;
    assert [] + [step] == [step];
    Extend(s, [], step);
    Append(s, [step], rest);
  }

  /** How far the lab is from having a free device. */
  function Wait(s: Lab): nat {
    if AnyFree(s) then 0 else if s.cooling != multiset{} then 1 else if s.finishing != multiset{} then 2 else 3
  }

  /** How far the lab is from starting a job. */
  function Rank(s: Lab): nat {
    match s.phase
    case Submitting(_) => 0
    case Spawning(_) => 1
    case Selecting(queue, jobs) =>
      if queue != [] then 2 else if jobs > 0 && MayServe(s) then 3 + Wait(s) else 12
    case Claiming => 7 + Wait(s)
    case _ => 11
  }

  /** A device that is not lost gets ready for the next job. */
  lemma Approach(s: Lab) returns (step: Step)
    requires CountInv(s) && s.drain && MayStart(s) && !s.phase.Submitting?
    ensures Enabled(s, step) && step != Submit
    ensures Apply(s, step).drain && MayStart(Apply(s, step)) && Rank(Apply(s, step)) < Rank(s)
  {
    match s.phase {
      case Spawning(_) =>
        step := CountUp;
      case Top =>
        step := TestStop(false);
        assert |s.outstanding| > 0;
        var d :| d in s.outstanding;
        assert d in Held(Apply(s, step));
      case Claiming =>
        if AnyFree(s) {
          step := Claim(1);
          assert AnyFree(Apply(s, step));
        } else {
          step := Ready(s);
        }
      case Selecting(queue, jobs) =>
        if queue != [] || jobs == 0 || !MayServe(s) {
          step := EndSelection;
        } else if AnyFree(s) {
          var d :| d in s.available && Free(s, d);
          step := Reserve(d);
        } else {
          step := Ready(s);
        }
    }
  }

  lemma CooldownFrees(s: Lab, d: string)
    requires d in s.cooling
    ensures Free(Apply(s, EndCooldown(d, false)), d)
  {
  }

  lemma CallbackCools(s: Lab, d: string)
    requires d in s.finishing
    ensures d in Apply(s, EndCallback(d, false)).cooling
  {
  }

  lemma JobFinishes(s: Lab, d: string)
    requires d in s.outstanding
    ensures d in Apply(s, CountDown(d)).finishing
  {
  }

  lemma DevicesOnly(s: Lab, step: Step)
    requires Enabled(s, step) && (step.EndCooldown? || step.EndCallback? || step.CountDown?)
    ensures Apply(s, step).drain == s.drain && Apply(s, step).phase == s.phase
  {
  }

  lemma SomeHeld(s: Lab)
    ensures Held(s) == multiset{} <==>
      s.cooling == multiset{} && s.finishing == multiset{} && s.outstanding == multiset{}
  {
    if Held(s) == multiset{} {
      HeldIsNone(s);
    }
  }

  lemma ServesIfFree(s: Lab, d: string)
    requires Free(s, d)
    ensures MayServe(s) && Wait(s) == 0
  {
  }

  /** A cooldown ends, or a callback, or a job, so that a device comes nearer to being free. */
  lemma Ready(s: Lab) returns (step: Step)
    requires !AnyFree(s) && Held(s) != multiset{}
    ensures Enabled(s, step) && step != Submit
    ensures var s' := Apply(s, step);
      s'.drain == s.drain && s'.phase == s.phase && MayServe(s') && Wait(s') < Wait(s)
  {
    hide Apply, Held, AnyFree, Free;
    SomeHeld(s);
    if s.cooling != multiset{} {
      var d :| d in s.cooling;
      step := EndCooldown(d, false);
      CooldownFrees(s, d);
      ServesIfFree(Apply(s, step), d);
    } else if s.finishing != multiset{} {
      var d :| d in s.finishing;
      step := EndCallback(d, false);
      CallbackCools(s, d);
    } else {
      var d :| d in s.outstanding;
      step := CountDown(d);
      JobFinishes(s, d);
    }
    DevicesOnly(s, step);
    SomeHeld(Apply(s, step));
  }

  lemma SubmitOne(s: Lab)
    requires CountInv(s) && s.drain && s.phase.Submitting?
    ensures Enabled(s, Submit) && MayStart(Apply(s, Submit)) && Apply(s, Submit).drain
  {
    JobsCounted(s, Submit);
    assert s.phase.queue[0] in Apply(s, Submit).outstanding;
  }

  /** A run that starts one job and can go on to start another. */
  lemma {:induction false} StartOne(s: Lab) returns (steps: seq<Step>)
    requires CountInv(s) && s.drain && MayStart(s)
    ensures CanRun(s, steps) && JobsStarted(steps) == 1
    ensures CountInv(After(s, steps)) && After(s, steps).drain && MayStart(After(s, steps))
    decreases Rank(s)
  {
    hide CountInv, MayStart, Enabled, Apply, Rank;
    var step, rest := Submit, [];
    if s.phase.Submitting? {
      SubmitOne(s);
      JobsCounted(s, step);
    } else {
      step := Approach(s);
      JobsCounted(s, step);
      rest := StartOne(Apply(s, step));
    }
    Begin(s, step, rest);
    steps := [step] + rest;
  }

  lemma {:induction false} StartMany(s: Lab, n: nat) returns (steps: seq<Step>)
    requires CountInv(s) && s.drain && MayStart(s)
    ensures CanRun(s, steps) && JobsStarted(steps) == n
    decreases n
  {
    hide CountInv, MayStart, Enabled, Apply;
    steps := [];
    if n > 0 {
      var first := StartOne(s);
      var rest := StartMany(After(s, first), n - 1);
      Append(s, first, rest);
      steps := first + rest;
    }
  }

  /** Some continuation of the run starts this many jobs. */
  ghost predicate CanStartJobs(s: Lab, n: nat) {
    exists steps :: CanRun(s, steps) && JobsStarted(steps) >= n
  }

  /** A lab that is told to drain starts another job on some continuation of its run exactly
      when it may come to start one; and then any number of them, without ever stopping. */
  lemma DrainEndsIff(start: Lab, steps: seq<Step>)
    requires Initial(start) && CanRun(start, steps) && After(start, steps).drain
    ensures var s := After(start, steps);
      (CanStartJobs(s, 1) <==> MayStart(s)) && (MayStart(s) ==> forall n: nat :: CanStartJobs(s, n))
  {
    hide MayStart, Enabled, Apply;
    var s := After(start, steps);
    RunKeepsInv(start, steps);
    if MayStart(s) {
      forall n: nat ensures CanStartJobs(s, n) {
        var more := StartMany(s, n);
      }
    } else {
      forall more | CanRun(s, more) ensures JobsStarted(more) == 0 {
        NoStarts(s, more);
      }
    }
  }

  /** The lab has no device, and never a job. */
  ghost predicate NoDevices(s: Lab) {
    s.available == map[] && s.outstanding == multiset{} && s.finishing == multiset{} && s.cooling == multiset{} &&
    (s.phase == Top || s.phase == Claiming || s.phase == Selecting([], 0) || s.phase.Stopped?)
  }

  lemma NoDevicesStay(s: Lab, step: Step)
    requires NoDevices(s) && Enabled(s, step)
    ensures step != Submit && NoDevices(Apply(s, step))
  {
    assert !AnyFree(s);
  }

  lemma {:induction false} NoDevicesNoJobs(start: Lab, steps: seq<Step>)
    requires Initial(start) && start.available == map[] && CanRun(start, steps)
    ensures NoDevices(After(start, steps)) && JobsStarted(steps) == 0
    decreases |steps|
  {
    hide Enabled, Apply;
    var n := |steps|;
    if n > 0 {
      NoDevicesNoJobs(start, steps[..n - 1]);
      NoDevicesStay(After(start, steps[..n - 1]), steps[n - 1]);
    }
  }

  /** A run that starts this many jobs after the signal to drain. */
  ghost predicate StartsAfterSignal(start: Lab, before: seq<Step>, later: seq<Step>, n: nat) {
    CanRun(start, before + [Signal] + later) && JobsStarted(later) >= n
  }

  ghost predicate CanStartAfterSignal(start: Lab, n: nat) {
    exists before, later :: StartsAfterSignal(start, before, later, n)
  }

  /** The jobs started after a signal to drain are unbounded exactly when the lab has a device:
      one is enough. */
  lemma DrainUnboundedIff(start: Lab)
    requires Initial(start)
    ensures (forall n: nat :: CanStartAfterSignal(start, n)) <==> start.available != map[]
  {
    if d :| d in start.available {
      forall n: nat ensures CanStartAfterSignal(start, n) {
        var later := StartAfterSignal(start, d, n);
        assert StartsAfterSignal(start, [TestStop(false)], later, n);
      }
    } else {
      forall before, later ensures !StartsAfterSignal(start, before, later, 1) {
        if CanRun(start, before + [Signal] + later) {
          NoDevicesNoJobs(start, before + [Signal] + later);
          CountStarts(before + [Signal], later);
        }
      }
      assert !CanStartAfterSignal(start, 1);
    }
  }

  lemma StartAfterSignal(start: Lab, d: string, n: nat) returns (later: seq<Step>)
    requires Initial(start) && d in start.available
    ensures StartsAfterSignal(start, [TestStop(false)], later, n)
  {
    var first, before := TestStop(false), [TestStop(false), Signal];
    assert [] + [first] == [first] && [first] + [Signal] == before;
    Extend(start, [], first);
    Extend(start, [first], Signal);
    var s := After(start, before);
    RunKeepsInv(start, before);
    assert d in s.available && Free(s, d) && AnyFree(s) && MayStart(s);
    later := StartMany(s, n);
    Append(start, before, later);
    assert [first] + [Signal] + later == before + later;
  }
}
