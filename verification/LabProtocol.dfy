/** Several labs working on one server (benchmarking/run_lab.py, ailab/benchmark/db_controller.py).

    The system is a state machine whose steps are the server's actions and the moves of the
    labs, in any order. Labs have distinct claimer ids, and each works on one job queue. */
module LabProtocol {
  import opened Wrappers
  import opened JobServer

  /** Where a lab is in `_runOnce`: between rounds; with the claimed jobs in hand; with the
      jobs it chose, the others released; or handing jobs now marked as running to its pool. */
  datatype Phase = Idle | Holding(held: set<nat>) | Chosen(chosen: set<nat>) | Starting(starting: set<nat>)

  /** `pool` are the jobs in the lab's process pool, `rejected` those that ended with a
      status the server did not accept. */
  datatype Lab = Lab(jobQueue: string, phase: Phase, pool: set<nat>, rejected: set<nat>)

  datatype State = State(jobs: seq<Job>, labs: map<string, Lab>)

  datatype Step =
    | Submit(devices: seq<string>, jobQueue: string, identifier: int)
    | ClaimJobs(lab: string, devices: seq<string>)
    | SelectJobs(lab: string, chosen: set<nat>)
    | RunJobs(lab: string)
    | Spawn(lab: string, job: nat)
    | Report(lab: string, job: nat, status: Status)

  /** The claimed jobs a lab has in hand. */
  function InHand(lab: Lab): set<nat> {
    match lab.phase
    case Idle => {}
    case Holding(held) => held
    case Chosen(chosen) => chosen
    case Starting(_) => {}
  }

  function BeingStarted(lab: Lab): set<nat> {
    if lab.phase.Starting? then lab.phase.starting else {}
  }

  /** The jobs a lab has started and not seen the end of. */
  function Started(lab: Lab): set<nat> {
    BeingStarted(lab) + lab.pool
  }

  /** Every job a lab keeps track of. */
  function Known(lab: Lab): set<nat> {
    InHand(lab) + Started(lab) + lab.rejected
  }

  predicate Enabled(s: State, step: Step) {
    match step
    case Submit(_, _, _) => true
    case ClaimJobs(lab, devices) => lab in s.labs && s.labs[lab].phase.Idle?
    case SelectJobs(lab, chosen) =>
      lab in s.labs && s.labs[lab].phase.Holding? && chosen <= s.labs[lab].phase.held
    case RunJobs(lab) => lab in s.labs && s.labs[lab].phase.Chosen?
    case Spawn(lab, job) => lab in s.labs && job in BeingStarted(s.labs[lab])
    case Report(lab, job, _) => lab in s.labs && job in s.labs[lab].pool
  }

  function NextPhase(chosen: set<nat>): Phase {
    if chosen == {} then Idle else Chosen(chosen)
  }

  /** What a step does to the lab that makes it; `jobs` is the table after the step. */
  function MoveLab(lab: Lab, step: Step, jobs: seq<Job>): Lab {
    match step
    case Submit(_, _, _) => lab
    case ClaimJobs(name, _) => lab.(phase := Holding(ClaimedIds(jobs, name)))
    case SelectJobs(_, chosen) => lab.(phase := NextPhase(chosen))
    case RunJobs(_) => lab.(phase := Starting(InHand(lab)))
    case Spawn(_, job) =>
      var rest := BeingStarted(lab) - {job};
      lab.(phase := if rest == {} then Idle else Starting(rest), pool := lab.pool + {job})
    case Report(_, job, status) =>
      lab.(pool := lab.pool - {job}, rejected := if Accepted(status) then lab.rejected else lab.rejected + {job})
  }

  /** What a step does to the table. */
  function MoveJobs(s: State, step: Step): seq<Job>
    requires Enabled(s, step)
  {
    match step
    case Submit(devices, jobQueue, identifier) => s.jobs + Submitted(devices, jobQueue, identifier)
    case ClaimJobs(lab, devices) => Claim(s.jobs, devices, lab, s.labs[lab].jobQueue)
    case SelectJobs(lab, chosen) => Release(s.jobs, InHand(s.labs[lab]) - chosen, s.labs[lab].jobQueue)
    case RunJobs(lab) => Start(s.jobs, InHand(s.labs[lab]), lab, s.labs[lab].jobQueue)
    case Spawn(_, _) => s.jobs
    case Report(lab, job, status) => Finish(s.jobs, job, status, s.labs[lab].jobQueue)
  }

  function Apply(s: State, step: Step): State
    requires Enabled(s, step)
  {
    var jobs := MoveJobs(s, step);
    if step.Submit? then s.(jobs := jobs)
    else State(jobs, s.labs[step.lab := MoveLab(s.labs[step.lab], step, jobs)])
  }

  /** No jobs yet, and every lab between rounds. */
  predicate Initial(s: State) {
    s.jobs == [] && forall name | name in s.labs ::
      var lab := s.labs[name]; lab.phase == Idle && lab.pool == {} && lab.rejected == {}
  }

  /** The steps can be made in this order. */
  ghost predicate CanRun(s: State, steps: seq<Step>)
    decreases |steps|, 0
  {
    var n := |steps|;
    n == 0 || (CanRun(s, steps[..n - 1]) && Enabled(After(s, steps[..n - 1]), steps[n - 1]))
  }

  ghost function After(s: State, steps: seq<Step>): State
    requires CanRun(s, steps)
    decreases |steps|, 1
  {
    var n := |steps|;
    if n == 0 then s else Apply(After(s, steps[..n - 1]), steps[n - 1])
  }

  ghost predicate Leads(s: State, step: Step, s': State) {
    Enabled(s, step) && Apply(s, step) == s'
  }

  /** Each step leads from one of the states to the next. */
  ghost predicate Follows(states: seq<State>, steps: seq<Step>) {
    |states| == |steps| + 1 &&
    forall k | 0 <= k < |steps| :: Leads(states[k], steps[k], states[k + 1])
  }

  lemma {:induction false} FollowedIsRun(states: seq<State>, steps: seq<Step>)
    requires Follows(states, steps)
    ensures CanRun(states[0], steps) && After(states[0], steps) == states[|steps|]
    decreases |steps|
  {
    hide Enabled, Apply;
    var n := |steps|;
    if n > 0 {
      assert Leads(states[n - 1], steps[n - 1], states[n]);
      FollowedIsRun(states[..n], steps[..n - 1]);
    }
  }

  // The invariant, row by row.

  /** What the server's row says a lab is doing with a job, and what the lab itself says. */
  ghost predicate RowAgrees(job: Job, i: nat, name: string, lab: Lab) {
    (i in InHand(lab) <==> IsClaimed(job, name)) &&
    (i in Started(lab) + lab.rejected <==> job.status == Running && job.claimer == Some(name)) &&
    (IsClaimed(job, name) ==> job.jobQueue == lab.jobQueue) &&
    (job.status == Running && job.claimer == Some(name) ==> job.jobQueue == lab.jobQueue)
  }

  /** A row is queued, or finished, or in the hands of a lab of the system. */
  predicate RowOwned(job: Job, labs: map<string, Lab>) {
    match job.status
    case Queued => job.claimer == None
    case Claimed => job.claimer.Some? && job.claimer.value in labs
    case Running => job.claimer.Some? && job.claimer.value in labs
    case _ => Finished(job)
  }

  ghost predicate LabAgrees(jobs: seq<Job>, name: string, lab: Lab) {
    (forall i: nat | i < |jobs| :: RowAgrees(jobs[i], i, name, lab)) &&
    (forall i | i in Known(lab) :: i < |jobs|) &&
    BeingStarted(lab) !! lab.pool && Started(lab) !! lab.rejected &&
    OnePerKind(jobs, name)
  }

  ghost predicate Inv(s: State) {
    (forall i | 0 <= i < |s.jobs| :: RowOwned(s.jobs[i], s.labs)) &&
    (forall name | name in s.labs :: LabAgrees(s.jobs, name, s.labs[name]))
  }

  // Every step keeps the invariant.

  lemma KnownRow(jobs: seq<Job>, name: string, lab: Lab, i: nat)
    requires LabAgrees(jobs, name, lab) && (i in InHand(lab) || i in Started(lab) || i in lab.rejected)
    ensures i < |jobs| && RowAgrees(jobs[i], i, name, lab)
  {
    assert i in Known(lab);
  }

  /** What is left to check when the rows of the moving lab agree. */
  lemma StillKnown(jobs: seq<Job>, name: string, lab: Lab, lab': Lab)
    requires LabAgrees(jobs, name, lab) && Known(lab') <= Known(lab)
    ensures forall i | i in Known(lab') :: i < |jobs|
  {
  }

  /** A step of one lab leaves a row alone, or the row is unclaimed or its own before and after. */
  ghost predicate OwnChange(before: Job, after: Job, name: string) {
    after == before ||
    ((before.claimer == None || before.claimer == Some(name)) && (after.claimer == None || after.claimer == Some(name)))
  }

  lemma OthersAgree(before: seq<Job>, after: seq<Job>, mover: string, name: string, lab: Lab)
    requires LabAgrees(before, name, lab) && |before| == |after| && name != mover
    requires forall i | 0 <= i < |before| :: OwnChange(before[i], after[i], mover)
    ensures LabAgrees(after, name, lab)
  {
    forall i: nat | i < |after| ensures RowAgrees(after[i], i, name, lab) {
      assert RowAgrees(before[i], i, name, lab) && OwnChange(before[i], after[i], mover);
    }
    forall i, j | 0 <= i < j < |after| && IsClaimed(after[i], name) && IsClaimed(after[j], name)
      ensures after[i].device != after[j].device
    {
      assert OwnChange(before[i], after[i], mover) && OwnChange(before[j], after[j], mover);
    }
  }

  /** A step of one lab keeps the invariant if that lab still agrees with the table and the
      rows it touches are nobody else's. */
  lemma LabStepKeepsInv(s: State, s': State, name: string)
    requires Inv(s) && name in s.labs && s'.labs.Keys == s.labs.Keys
    requires s'.labs == s.labs[name := s'.labs[name]] && |s'.jobs| == |s.jobs|
    requires LabAgrees(s'.jobs, name, s'.labs[name])
    requires forall i | 0 <= i < |s.jobs| :: RowOwned(s'.jobs[i], s.labs) && OwnChange(s.jobs[i], s'.jobs[i], name)
    ensures Inv(s')
  {
    forall other | other in s'.labs ensures LabAgrees(s'.jobs, other, s'.labs[other]) {
      if other != name {
        OthersAgree(s.jobs, s'.jobs, name, other, s.labs[other]);
      }
    }
  }

  lemma SubmitKeepsInv(s: State, step: Step)
    requires Inv(s) && step.Submit?
    ensures Inv(Apply(s, step))
  {
    var s' := Apply(s, step);
    var n := |s.jobs|;
    forall i | 0 <= i < |s'.jobs| ensures RowOwned(s'.jobs[i], s'.labs) {
      if i < n {
        assert RowOwned(s.jobs[i], s.labs);
      }
    }
    forall name | name in s'.labs ensures LabAgrees(s'.jobs, name, s'.labs[name]) {
      var lab := s.labs[name];
      assert LabAgrees(s.jobs, name, lab);
      forall i: nat | i < |s'.jobs| ensures RowAgrees(s'.jobs[i], i, name, lab) {
        assert i in Known(lab) ==> i < n;
        if i < n {
          assert RowAgrees(s.jobs[i], i, name, lab);
        }
      }
      assert OnePerKind(s'.jobs, name) by {
        forall i, j | 0 <= i < j < |s'.jobs| && IsClaimed(s'.jobs[i], name) && IsClaimed(s'.jobs[j], name)
          ensures s'.jobs[i].device != s'.jobs[j].device
        {
          assert j < n && s'.jobs[i] == s.jobs[i] && s'.jobs[j] == s.jobs[j];
        }
      }
    }
  }

  lemma ClaimedRow(before: seq<Job>, after: seq<Job>, i: nat, name: string, lab: Lab, labs: map<string, Lab>)
    requires |before| == |after| && i < |before| && ClaimedFromQueue(before[i], after[i], name, lab.jobQueue)
    requires RowAgrees(before[i], i, name, lab) && RowOwned(before[i], labs) && name in labs && lab.phase.Idle?
    ensures RowAgrees(after[i], i, name, lab.(phase := Holding(ClaimedIds(after, name))))
    ensures RowOwned(after[i], labs) && OwnChange(before[i], after[i], name)
  {
  }

  lemma ClaimKeepsInv(s: State, step: Step)
    requires Inv(s) && step.ClaimJobs? && Enabled(s, step)
    ensures Inv(Apply(s, step))
  {
    var name, lab, s' := step.lab, s.labs[step.lab], Apply(s, step);
    OwnRowsInQueue(s, name);
    ClaimEffect(s.jobs, step.devices, name, lab.jobQueue);
    hide RowAgrees, RowOwned, OwnChange, ClaimedFromQueue;
    forall i: nat | i < |s.jobs|
      ensures RowAgrees(s'.jobs[i], i, name, s'.labs[name]) && RowOwned(s'.jobs[i], s.labs)
      ensures OwnChange(s.jobs[i], s'.jobs[i], name)
    {
      ClaimedRow(s.jobs, s'.jobs, i, name, lab, s.labs);
    }
    forall i | i in Known(s'.labs[name]) ensures i < |s.jobs| {
      if i !in InHand(s'.labs[name]) {
        KnownRow(s.jobs, name, lab, i);
      }
    }
    LabStepKeepsInv(s, s', name);
  }

  lemma OwnRowsInQueue(s: State, name: string)
    requires Inv(s) && name in s.labs
    ensures OwnQueueOnly(s.jobs, name, s.labs[name].jobQueue) && OnePerKind(s.jobs, name)
  {
    forall i | 0 <= i < |s.jobs| && IsClaimed(s.jobs[i], name) ensures s.jobs[i].jobQueue == s.labs[name].jobQueue {
      assert RowAgrees(s.jobs[i], i, name, s.labs[name]);
    }
  }

  lemma SelectKeepsInv(s: State, step: Step)
    requires Inv(s) && step.SelectJobs? && Enabled(s, step)
    ensures Inv(Apply(s, step))
  {
    var name, lab, s' := step.lab, s.labs[step.lab], Apply(s, step);
    forall i: nat | i < |s.jobs|
      ensures RowAgrees(s'.jobs[i], i, name, s'.labs[name]) && RowOwned(s'.jobs[i], s.labs)
      ensures OwnChange(s.jobs[i], s'.jobs[i], name)
      ensures IsClaimed(s'.jobs[i], name) ==> s'.jobs[i] == s.jobs[i]
    {
      assert RowAgrees(s.jobs[i], i, name, lab) && RowOwned(s.jobs[i], s.labs);
    }
    StillKnown(s.jobs, name, lab, s'.labs[name]);
    LabStepKeepsInv(s, s', name);
  }

  lemma RunKeepsInv(s: State, step: Step)
    requires Inv(s) && step.RunJobs? && Enabled(s, step)
    ensures Inv(Apply(s, step))
  {
    var name, lab, s' := step.lab, s.labs[step.lab], Apply(s, step);
    forall i: nat | i < |s.jobs|
      ensures RowAgrees(s'.jobs[i], i, name, s'.labs[name]) && RowOwned(s'.jobs[i], s.labs)
      ensures OwnChange(s.jobs[i], s'.jobs[i], name)
      ensures IsClaimed(s'.jobs[i], name) ==> s'.jobs[i] == s.jobs[i]
    {
      assert RowAgrees(s.jobs[i], i, name, lab) && RowOwned(s.jobs[i], s.labs);
    }
    forall i | i in InHand(lab) ensures i !in lab.pool && i !in lab.rejected {
      KnownRow(s.jobs, name, lab, i);
    }
    StillKnown(s.jobs, name, lab, s'.labs[name]);
    LabStepKeepsInv(s, s', name);
  }

  lemma SpawnKeepsInv(s: State, step: Step)
    requires Inv(s) && step.Spawn? && Enabled(s, step)
    ensures Inv(Apply(s, step))
  {
    var name, lab, s' := step.lab, s.labs[step.lab], Apply(s, step);
    assert Started(s'.labs[name]) == Started(lab);
    forall i: nat | i < |s.jobs| ensures RowAgrees(s'.jobs[i], i, name, s'.labs[name]) {
      assert RowAgrees(s.jobs[i], i, name, lab);
    }
    StillKnown(s.jobs, name, lab, s'.labs[name]);
    LabStepKeepsInv(s, s', name);
  }

  lemma ReportedRow(s: State, step: Step, i: nat)
    requires Inv(s) && step.Report? && Enabled(s, step) && i < |s.jobs|
    ensures var before, after, lab := s.jobs[i], Apply(s, step).jobs[i], s.labs[step.lab];
            RowAgrees(after, i, step.lab, MoveLab(lab, step, Apply(s, step).jobs)) && RowOwned(after, s.labs) &&
            OwnChange(before, after, step.lab) && (IsClaimed(after, step.lab) ==> after == before)
  {
    var lab := s.labs[step.lab];
    KnownRow(s.jobs, step.lab, lab, step.job);
    assert RowAgrees(s.jobs[i], i, step.lab, lab) && RowOwned(s.jobs[i], s.labs);
    assert BeingStarted(lab) !! lab.pool && Started(lab) !! lab.rejected;
    hide Inv, LabAgrees;
  }

  lemma ReportKeepsInv(s: State, step: Step)
    requires Inv(s) && step.Report? && Enabled(s, step)
    ensures Inv(Apply(s, step))
  {
    hide RowAgrees, RowOwned, OwnChange, Accepted;
    var name, lab, s' := step.lab, s.labs[step.lab], Apply(s, step);
    assert name in s.labs && LabAgrees(s.jobs, name, lab);
    forall i: nat | i < |s.jobs|
      ensures RowAgrees(s'.jobs[i], i, name, s'.labs[name]) && RowOwned(s'.jobs[i], s.labs)
      ensures OwnChange(s.jobs[i], s'.jobs[i], name)
      ensures IsClaimed(s'.jobs[i], name) ==> s'.jobs[i] == s.jobs[i]
    {
      ReportedRow(s, step, i);
    }
    ReportedLab(lab, step, s'.jobs);
    StillKnown(s.jobs, name, lab, s'.labs[name]);
    LabStepKeepsInv(s, s', name);
  }

  lemma ReportedLab(lab: Lab, step: Step, jobs: seq<Job>)
    requires step.Report? && step.job in lab.pool && BeingStarted(lab) !! lab.pool && Started(lab) !! lab.rejected
    ensures var lab' := MoveLab(lab, step, jobs);
            Known(lab') <= Known(lab) && BeingStarted(lab') !! lab'.pool && Started(lab') !! lab'.rejected
  {
  }

  lemma StepKeepsInv(s: State, step: Step)
    requires Inv(s) && Enabled(s, step)
    ensures Inv(Apply(s, step))
  {
    match step
    case Submit(_, _, _) => SubmitKeepsInv(s, step);
    case ClaimJobs(_, _) => ClaimKeepsInv(s, step);
    case SelectJobs(_, _) => SelectKeepsInv(s, step);
    case RunJobs(_) => RunKeepsInv(s, step);
    case Spawn(_, _) => SpawnKeepsInv(s, step);
    case Report(_, _, _) => ReportKeepsInv(s, step);
  }

  lemma {:induction false} RunKeepsInvariant(s: State, steps: seq<Step>)
    requires Inv(s) && CanRun(s, steps)
    ensures Inv(After(s, steps))
    decreases |steps|
  {
    hide Inv, Enabled, Apply;
    var n := |steps|;
    if n > 0 {
      RunKeepsInvariant(s, steps[..n - 1]);
      StepKeepsInv(After(s, steps[..n - 1]), steps[n - 1]);
    }
  }

  /** A system whose run started with no jobs. */
  ghost predicate Reachable(s: State) {
    exists start, steps :: Initial(start) && CanRun(start, steps) && s == After(start, steps)
  }

  lemma ReachableInv(s: State)
    requires Reachable(s)
    ensures Inv(s)
  {
    var start, steps :| Initial(start) && CanRun(start, steps) && s == After(start, steps);
    RunKeepsInvariant(start, steps);
  }

  // No lab comes to a halt.

  /** A lab that has chosen jobs, or starts them, has some left to start. */
  predicate HasWork(lab: Lab) {
    lab.phase.Chosen? || lab.phase.Starting? ==> InHand(lab) + BeingStarted(lab) != {}
  }

  ghost predicate MovingInv(s: State) {
    forall name | name in s.labs :: HasWork(s.labs[name])
  }

  lemma StepKeepsMoving(s: State, step: Step)
    requires MovingInv(s) && Enabled(s, step)
    ensures MovingInv(Apply(s, step))
  {
    var s' := Apply(s, step);
    forall name | name in s'.labs ensures HasWork(s'.labs[name]) {
      assert name in s.labs && HasWork(s.labs[name]);
    }
  }

  lemma {:induction false} RunKeepsMoving(s: State, steps: seq<Step>)
    requires MovingInv(s) && CanRun(s, steps)
    ensures MovingInv(After(s, steps))
    decreases |steps|
  {
    hide MovingInv;
    var n := |steps|;
    if n > 0 {
      RunKeepsMoving(s, steps[..n - 1]);
      StepKeepsMoving(After(s, steps[..n - 1]), steps[n - 1]);
    }
  }

  /** A step of the lab's main loop. */
  predicate InLoop(step: Step, name: string) {
    !step.Submit? && !step.Report? && step.lab == name
  }

  /** In every reachable state every lab can go on with its round; and one that chooses no job is
      ready for the next. */
  lemma NobodyIsStuck(s: State, name: string)
    requires Reachable(s) && name in s.labs
    ensures exists step :: InLoop(step, name) && Enabled(s, step)
    ensures Enabled(s, SelectJobs(name, {})) ==> Enabled(Apply(s, SelectJobs(name, {})), ClaimJobs(name, []))
  {
    var start, steps :| Initial(start) && CanRun(start, steps) && s == After(start, steps);
    RunKeepsMoving(start, steps);
    var lab := s.labs[name];
    assert HasWork(lab);
    match lab.phase
    case Idle => assert InLoop(ClaimJobs(name, []), name) && Enabled(s, ClaimJobs(name, []));
    case Holding(_) => assert InLoop(SelectJobs(name, {}), name) && Enabled(s, SelectJobs(name, {}));
    case Chosen(_) => assert InLoop(RunJobs(name), name) && Enabled(s, RunJobs(name));
    case Starting(starting) =>
      assert InHand(lab) + BeingStarted(lab) == starting;
      var job :| job in starting;
      assert InLoop(Spawn(name, job), name) && Enabled(s, Spawn(name, job));
  }

  // What the invariant says about every reachable state.

  /** The jobs a lab has in hand are exactly the server's rows claimed by it, and at most one
      of each device kind. */
  lemma InHandIsClaimed(s: State, name: string)
    requires Reachable(s) && name in s.labs
    ensures InHand(s.labs[name]) == ClaimedIds(s.jobs, name)
    ensures OnePerKind(s.jobs, name)
  {
    ReachableInv(s);
    var lab := s.labs[name];
    assert LabAgrees(s.jobs, name, lab);
    forall i: nat | i in InHand(lab) ensures i in ClaimedIds(s.jobs, name) {
      KnownRow(s.jobs, name, lab, i);
    }
    forall i: nat | i in ClaimedIds(s.jobs, name) ensures i in InHand(lab) {
      assert RowAgrees(s.jobs[i], i, name, lab);
    }
  }

  /** Where a job is: waiting, done with, or with exactly one lab, in hand or started. */
  datatype Place = Waiting | Ended | With(lab: string, started: bool)

  function PlaceOf(job: Job): Place {
    match job.status
    case Queued => Waiting
    case Claimed => With(if job.claimer.Some? then job.claimer.value else "", false)
    case Running => With(if job.claimer.Some? then job.claimer.value else "", true)
    case _ => Ended
  }

  /** No job is lost or held twice: each is in the one place its row names, and no lab but
      that one has it in hand, started, or ended with a rejected status. */
  lemma EveryJobHasOnePlace(s: State, i: nat, name: string)
    requires Reachable(s) && i < |s.jobs| && name in s.labs
    ensures i in InHand(s.labs[name]) <==> PlaceOf(s.jobs[i]) == With(name, false)
    ensures i in Started(s.labs[name]) + s.labs[name].rejected <==> PlaceOf(s.jobs[i]) == With(name, true)
    ensures PlaceOf(s.jobs[i]).With? ==> PlaceOf(s.jobs[i]).lab in s.labs
    ensures BeingStarted(s.labs[name]) !! s.labs[name].pool && Started(s.labs[name]) !! s.labs[name].rejected
  {
    ReachableInv(s);
    assert RowOwned(s.jobs[i], s.labs);
    assert LabAgrees(s.jobs, name, s.labs[name]);
    assert RowAgrees(s.jobs[i], i, name, s.labs[name]);
  }

  /** A row changes only along its life: it keeps its request, and once ended it stays as it is. */
  predicate Later(before: Job, after: Job) {
    SameRequest(before, after) && (Finished(before) ==> after == before)
  }

  lemma StepIsLater(s: State, step: Step, i: nat)
    requires Inv(s) && Enabled(s, step) && i < |s.jobs|
    ensures |s.jobs| <= |Apply(s, step).jobs| && Later(s.jobs[i], Apply(s, step).jobs[i])
  {
    if !step.Submit? {
      var name := step.lab;
      var lab := s.labs[name];
      assert LabAgrees(s.jobs, name, lab) && RowAgrees(s.jobs[i], i, name, lab);
      if step.ClaimJobs? {
        OwnRowsInQueue(s, name);
        ClaimEffect(s.jobs, step.devices, name, lab.jobQueue);
        assert ClaimedFromQueue(s.jobs[i], Apply(s, step).jobs[i], name, lab.jobQueue);
      }
    }
  }

  /** In every run jobs are only added, requests never change, and a finished job keeps its
      outcome: it never returns to the queue. */
  lemma {:induction false} RunIsLater(s: State, steps: seq<Step>, i: nat)
    requires Inv(s) && CanRun(s, steps) && i < |s.jobs|
    ensures |s.jobs| <= |After(s, steps).jobs| && Later(s.jobs[i], After(s, steps).jobs[i])
    decreases |steps|
  {
    var n := |steps|;
    if n > 0 {
      RunIsLater(s, steps[..n - 1], i);
      RunKeepsInvariant(s, steps[..n - 1]);
      StepIsLater(After(s, steps[..n - 1]), steps[n - 1], i);
    }
  }

  /** The jobs in hand that a lab does not choose return to the queue as they were requested, free
      for any lab; the chosen ones stay claimed. */
  lemma UnchosenAreQueued(s: State, name: string, chosen: set<nat>, i: nat)
    requires Inv(s) && Enabled(s, SelectJobs(name, chosen)) && i in InHand(s.labs[name])
    ensures var s' := Apply(s, SelectJobs(name, chosen));
            i < |s.jobs| == |s'.jobs| &&
            if i in chosen then s'.jobs[i] == s.jobs[i] && IsClaimed(s'.jobs[i], name)
            else s'.jobs[i] == Job(Queued, None, s.jobs[i].device, s.jobs[i].jobQueue, s.jobs[i].identifier)
  {
    KnownRow(s.jobs, name, s.labs[name], i);
  }

  /** This step reports the job with a status that the server takes. */
  predicate Ends(step: Step, i: nat) {
    step.Report? && step.job == i && step.status in {Done, Failed, UserError}
  }

  predicate IsOver(s: State, i: nat) {
    i < |s.jobs| && s.jobs[i].status in {Done, Failed, UserError}
  }

  lemma StepEnds(s: State, step: Step, i: nat)
    requires Inv(s) && Enabled(s, step)
    ensures IsOver(Apply(s, step), i) <==> IsOver(s, i) || Ends(step, i)
    ensures Ends(step, i) ==> !IsOver(s, i) && Apply(s, step).jobs[i].status == step.status
    ensures IsOver(s, i) ==> Apply(s, step).jobs[i] == s.jobs[i]
  {
    if step.ClaimJobs? {
      var lab := s.labs[step.lab];
      OwnRowsInQueue(s, step.lab);
      ClaimEffect(s.jobs, step.devices, step.lab, lab.jobQueue);
      if i < |s.jobs| {
        assert ClaimedFromQueue(s.jobs[i], Apply(s, step).jobs[i], step.lab, lab.jobQueue);
      }
      hide Claim;
    } else if step.Report? {
      KnownRow(s.jobs, step.lab, s.labs[step.lab], step.job);
    } else if !step.Submit? && i < |s.jobs| {
      assert LabAgrees(s.jobs, step.lab, s.labs[step.lab]);
      assert RowAgrees(s.jobs[i], i, step.lab, s.labs[step.lab]);
    }
  }

  /** In every run a job ends exactly by being reported with a status that the server takes, and
      with that status, for good. */
  lemma {:induction false} EndsIffReported(s: State, steps: seq<Step>, i: nat)
    requires Inv(s) && CanRun(s, steps)
    ensures IsOver(After(s, steps), i) <==> IsOver(s, i) || exists k :: 0 <= k < |steps| && Ends(steps[k], i)
    ensures forall k | 0 <= k < |steps| && Ends(steps[k], i) :: After(s, steps).jobs[i].status == steps[k].status
    decreases |steps|
  {
    hide IsOver, Ends, Apply, Enabled, Inv;
    var n := |steps|;
    if n > 0 {
      EndsIffReported(s, steps[..n - 1], i);
      RunKeepsInvariant(s, steps[..n - 1]);
      StepEnds(After(s, steps[..n - 1]), steps[n - 1], i);
    }
  }

  lemma {:induction false} RejectedStays(s: State, steps: seq<Step>, name: string, i: nat)
    requires CanRun(s, steps) && name in s.labs && i in s.labs[name].rejected
    ensures name in After(s, steps).labs && i in After(s, steps).labs[name].rejected
    decreases |steps|
  {
    if steps != [] {
      RejectedStays(s, steps[..|steps| - 1], name, i);
    }
  }

  /** A job whose final status the server rejects keeps its row as running, for good. */
  lemma RejectedStaysRunning(s: State, steps: seq<Step>, name: string, i: nat)
    requires Inv(s) && CanRun(s, steps) && name in s.labs && i in s.labs[name].rejected
    ensures var s' := After(s, steps);
            name in s'.labs && i in s'.labs[name].rejected && i < |s'.jobs| &&
            s'.jobs[i].status == Running && s'.jobs[i].claimer == Some(name)
  {
    RejectedStays(s, steps, name, i);
    RunKeepsInvariant(s, steps);
    var s' := After(s, steps);
    KnownRow(s'.jobs, name, s'.labs[name], i);
  }

  /** A reported job has ended on the server, in every continuation, exactly when the server
      accepts its status. */
  lemma ReportEndsIff(s: State, name: string, job: nat, status: Status, steps: seq<Step>)
    requires Inv(s) && Enabled(s, Report(name, job, status)) && CanRun(Apply(s, Report(name, job, status)), steps)
    ensures var s' := After(Apply(s, Report(name, job, status)), steps);
            job < |s'.jobs| && (Finished(s'.jobs[job]) <==> Accepted(status)) &&
            (Accepted(status) ==> s'.jobs[job].status == status)
  {
    var reported := Apply(s, Report(name, job, status));
    KnownRow(s.jobs, name, s.labs[name], job);
    StepKeepsInv(s, Report(name, job, status));
    RunIsLater(reported, steps, job);
    if !Accepted(status) {
      RejectedStaysRunning(reported, steps, name, job);
    }
  }

  /** The steps that bring one job to a lab, run it and report it. */
  function OneJob(lab: string, jobQueue: string, device: string, status: Status): seq<Step> {
    [Submit([device], jobQueue, 0), ClaimJobs(lab, [device]), SelectJobs(lab, {0}), RunJobs(lab), Spawn(lab, 0),
     Report(lab, 0, status)]
  }

  lemma ClaimOnly(lab: string, jobQueue: string, device: string)
    ensures Claim([Job(Queued, None, device, jobQueue, 0)], [device], lab, jobQueue) ==
            [Job(Claimed, Some(lab), device, jobQueue, 0)]
  {
    var jobs := [Job(Queued, None, device, jobQueue, 0)];
    assert IsQueued(jobs[0], device, jobQueue) && FirstQueued(jobs, device, jobQueue) == 0;
    var after := ClaimOne(jobs, device, lab, jobQueue);
    assert after == [Job(Claimed, Some(lab), device, jobQueue, 0)];
    assert [device][1..] == [] && Claim(after, [], lab, jobQueue) == after;
  }

  /** A system of one lab and one job. */
  function OneLab(lab: string, job: Job, phase: Phase, pool: set<nat>, rejected: set<nat>): State {
    State([job], map[lab := Lab(job.jobQueue, phase, pool, rejected)])
  }

  /** The states on the way, the first of them without jobs. */
  function OneJobStates(lab: string, queued: Job): (states: seq<State>)
    ensures |states| == 7
  {
    var claimed := queued.(status := Claimed, claimer := Some(lab));
    var running := claimed.(status := Running);
    [State([], map[lab := Lab(queued.jobQueue, Idle, {}, {})]), OneLab(lab, queued, Idle, {}, {}),
     OneLab(lab, claimed, Holding({0}), {}, {}), OneLab(lab, claimed, Chosen({0}), {}, {}),
     OneLab(lab, running, Starting({0}), {}, {}), OneLab(lab, running, Idle, {0}, {}),
     OneLab(lab, running, Idle, {}, {0})]
  }

  lemma JobSubmitted(lab: string, queued: Job)
    requires queued.status == Queued && queued.claimer == None && queued.identifier == 0
    ensures Leads(State([], map[lab := Lab(queued.jobQueue, Idle, {}, {})]),
                  Submit([queued.device], queued.jobQueue, 0), OneLab(lab, queued, Idle, {}, {}))
  {
  }

  lemma JobClaimed(lab: string, queued: Job)
    requires queued.status == Queued && queued.claimer == None && queued.identifier == 0
    ensures Leads(OneLab(lab, queued, Idle, {}, {}), ClaimJobs(lab, [queued.device]),
                  OneLab(lab, queued.(status := Claimed, claimer := Some(lab)), Holding({0}), {}, {}))
  {
    ClaimOnly(lab, queued.jobQueue, queued.device);
    hide Claim;
    assert ClaimedIds([queued.(status := Claimed, claimer := Some(lab))], lab) == {0};
  }

  lemma JobChosen(lab: string, job: Job)
    requires IsClaimed(job, lab)
    ensures Leads(OneLab(lab, job, Holding({0}), {}, {}), SelectJobs(lab, {0}), OneLab(lab, job, Chosen({0}), {}, {}))
  {
  }

  lemma JobStarted(lab: string, job: Job)
    requires IsClaimed(job, lab)
    ensures Leads(OneLab(lab, job, Chosen({0}), {}, {}), RunJobs(lab),
                  OneLab(lab, job.(status := Running), Starting({0}), {}, {}))
  {
  }

  lemma JobSpawned(lab: string, job: Job)
    ensures Leads(OneLab(lab, job, Starting({0}), {}, {}), Spawn(lab, 0), OneLab(lab, job, Idle, {0}, {}))
  {
    var one: set<nat>, none: set<nat> := {0}, {};
    assert one - {0} == none && none + {0} == one;
  }

  lemma JobRejected(lab: string, job: Job, status: Status)
    requires !Accepted(status)
    ensures Leads(OneLab(lab, job, Idle, {0}, {}), Report(lab, 0, status), OneLab(lab, job, Idle, {}, {0}))
  {
    var one: set<nat>, none: set<nat> := {0}, {};
    assert one - {0} == none && none + {0} == one;
  }

  lemma OneJobFollows(lab: string, jobQueue: string, device: string, status: Status)
    requires !Accepted(status)
    ensures Follows(OneJobStates(lab, Job(Queued, None, device, jobQueue, 0)), OneJob(lab, jobQueue, device, status))
  {
    hide Leads, OneLab;
    var queued := Job(Queued, None, device, jobQueue, 0);
    var claimed := queued.(status := Claimed, claimer := Some(lab));
    var running := claimed.(status := Running);
    var states, steps := OneJobStates(lab, queued), OneJob(lab, jobQueue, device, status);
    forall k | 0 <= k < 6 ensures Leads(states[k], steps[k], states[k + 1]) {
      match k
      case 0 => JobSubmitted(lab, queued);
      case 1 => JobClaimed(lab, queued);
      case 2 => JobChosen(lab, claimed);
      case 3 => JobStarted(lab, claimed);
      case 4 => JobSpawned(lab, running);
      case _ => JobRejected(lab, running, status);
    }
  }

  /** From the start, a job may end as KILLED or TIMEOUT, and then stays running. */
  lemma RejectionHappens(lab: string, jobQueue: string, device: string, status: Status) returns (start: State)
    requires !Accepted(status)
    ensures Initial(start) && CanRun(start, OneJob(lab, jobQueue, device, status))
    ensures var s := After(start, OneJob(lab, jobQueue, device, status));
            lab in s.labs && 0 in s.labs[lab].rejected && |s.jobs| == 1 && s.jobs[0].status == Running
  {
    hide Leads;
    var states := OneJobStates(lab, Job(Queued, None, device, jobQueue, 0));
    var steps := OneJob(lab, jobQueue, device, status);
    start := states[0];
    OneJobFollows(lab, jobQueue, device, status);
    FollowedIsRun(states, steps);
  }

  /** After a claim every kind the lab listed is either in its hands or not waiting for it. */
  lemma ClaimServesEveryKind(s: State, name: string, devices: seq<string>, n: nat)
    requires Inv(s) && Enabled(s, ClaimJobs(name, devices)) && n < |devices|
    ensures Served(Apply(s, ClaimJobs(name, devices)).jobs, devices[n], name, s.labs[name].jobQueue)
  {
    var lab := s.labs[name];
    OwnRowsInQueue(s, name);
    ClaimEffect(s.jobs, devices, name, lab.jobQueue);
  }
}
