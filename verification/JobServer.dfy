/** The job table of the server and the actions on it (ailab/benchmark/db_controller.py). */
module JobServer {
  import opened Wrappers

  datatype Status = Queued | Claimed | Running | Done | Failed | UserError | Killed | TimedOut

  /** A row of the table; its index in the table is its id. */
  datatype Job = Job(status: Status, claimer: Option<string>, device: string, jobQueue: string, identifier: int)

  predicate Accepted(status: Status) {
    status == Done || status == Failed || status == UserError
  }

  predicate Finished(job: Job) {
    Accepted(job.status)
  }

  /** What no action ever changes in a row. */
  predicate SameRequest(a: Job, b: Job) {
    a.device == b.device && a.jobQueue == b.jobQueue && a.identifier == b.identifier
  }

  // What the actions do to the table.

  predicate IsClaimed(job: Job, claimer: string) {
    job.status == Claimed && job.claimer == Some(claimer)
  }

  predicate HoldsKind(job: Job, claimer: string, device: string, jobQueue: string) {
    IsClaimed(job, claimer) && job.device == device && job.jobQueue == jobQueue
  }

  predicate IsQueued(job: Job, device: string, jobQueue: string) {
    job.status == Queued && job.device == device && job.jobQueue == jobQueue
  }

  /** The rows a claimer holds, of whatever queue. */
  function ClaimedIds(jobs: seq<Job>, claimer: string): set<nat> {
    set i: nat | i < |jobs| && IsClaimed(jobs[i], claimer)
  }

  function FirstQueued(jobs: seq<Job>, device: string, jobQueue: string): (i: nat)
    ensures i <= |jobs|
    ensures i < |jobs| ==> IsQueued(jobs[i], device, jobQueue)
    ensures forall k | 0 <= k < i :: !IsQueued(jobs[k], device, jobQueue)
  {
    if jobs == [] || IsQueued(jobs[0], device, jobQueue) then 0
    else 1 + FirstQueued(jobs[1..], device, jobQueue)
  }

  function ClaimOne(jobs: seq<Job>, device: string, claimer: string, jobQueue: string): seq<Job> {
    if exists k | 0 <= k < |jobs| :: HoldsKind(jobs[k], claimer, device, jobQueue) then jobs
    else
      var i := FirstQueued(jobs, device, jobQueue);
      if i == |jobs| then jobs else jobs[i := jobs[i].(status := Claimed, claimer := Some(claimer))]
  }

  function Claim(jobs: seq<Job>, devices: seq<string>, claimer: string, jobQueue: string): seq<Job>
    decreases |devices|
  {
    if devices == [] then jobs
    else Claim(ClaimOne(jobs, devices[0], claimer, jobQueue), devices[1..], claimer, jobQueue)
  }

  lemma ClaimNext(jobs: seq<Job>, devices: seq<string>, n: nat, claimer: string, jobQueue: string)
    requires n <= |devices|
    ensures Claim(jobs, devices[n..], claimer, jobQueue) ==
            if n == |devices| then jobs
            else Claim(ClaimOne(jobs, devices[n], claimer, jobQueue), devices[n + 1..], claimer, jobQueue)
  {
    hide ClaimOne;
    if n < |devices| {
      assert devices[n..][1..] == devices[n + 1..];
    }
  }

  function Start(jobs: seq<Job>, ids: set<nat>, claimer: string, jobQueue: string): (after: seq<Job>)
    ensures |after| == |jobs|
  {
    seq(|jobs|, (i: int) requires 0 <= i < |jobs| =>
      if i in ids && jobs[i].claimer == Some(claimer) && jobs[i].jobQueue == jobQueue
      then jobs[i].(status := Running) else jobs[i])
  }

  function Release(jobs: seq<Job>, ids: set<nat>, jobQueue: string): (after: seq<Job>)
    ensures |after| == |jobs|
  {
    seq(|jobs|, (i: int) requires 0 <= i < |jobs| =>
      if i in ids && jobs[i].jobQueue == jobQueue
      then jobs[i].(status := Queued, claimer := None) else jobs[i])
  }

  function Finish(jobs: seq<Job>, id: nat, status: Status, jobQueue: string): seq<Job> {
    if id < |jobs| && jobs[id].jobQueue == jobQueue && Accepted(status)
    then jobs[id := jobs[id].(status := status)] else jobs
  }

  function Submitted(devices: seq<string>, jobQueue: string, identifier: int): seq<Job> {
    seq(|devices|, (i: int) requires 0 <= i < |devices| => Job(Queued, None, devices[i], jobQueue, identifier))
  }

  /** The server: each action is one atomic update of the table. */
  class Server {
    var jobs: seq<Job>

    method AddAction(devices: seq<string>, jobQueue: string, identifier: int)
      modifies this
      ensures jobs == old(jobs) + Submitted(devices, jobQueue, identifier)
      ensures |jobs| == |old(jobs)| + |devices| && old(jobs) <= jobs
      ensures forall i | 0 <= i < |devices| ::
        jobs[|old(jobs)| + i] == Job(Queued, None, devices[i], jobQueue, identifier)
    {
      for i := 0 to |devices|
        invariant jobs == old(jobs) + Submitted(devices, jobQueue, identifier)[..i]
      {
        jobs := jobs + [Job(Queued, None, devices[i], jobQueue, identifier)];
      }
      assert Submitted(devices, jobQueue, identifier)[..|devices|] == Submitted(devices, jobQueue, identifier);
    }

    method ClaimAction(devices: seq<string>, claimer: string, jobQueue: string) returns (values: set<nat>)
      modifies this
      ensures jobs == Claim(old(jobs), devices, claimer, jobQueue)
      ensures values == ClaimedIds(jobs, claimer)
      ensures forall i: nat :: i in values <==>
        i < |jobs| && jobs[i].status == Claimed && jobs[i].claimer == Some(claimer)
    {
      hide Claim, FirstQueued;
      assert devices[0..] == devices;
      for n := 0 to |devices|
        invariant Claim(old(jobs), devices, claimer, jobQueue) == Claim(jobs, devices[n..], claimer, jobQueue)
      {
        var device := devices[n];
        ClaimNext(jobs, devices, n, claimer, jobQueue);
        if !(exists k | 0 <= k < |jobs| :: HoldsKind(jobs[k], claimer, device, jobQueue)) {
          var i := FirstQueued(jobs, device, jobQueue);
          if i < |jobs| {
            jobs := jobs[i := jobs[i].(status := Claimed, claimer := Some(claimer))];
          }
        }
      }
      ClaimNext(jobs, devices, |devices|, claimer, jobQueue);
      values := ClaimedIds(jobs, claimer);
    }

    method RunAction(ids: set<nat>, claimer: string, jobQueue: string)
      modifies this
      ensures jobs == Start(old(jobs), ids, claimer, jobQueue)
      ensures |jobs| == |old(jobs)| && forall i: nat | i < |jobs| ::
        var row := old(jobs)[i];
        jobs[i] == if i in ids && row.claimer == Some(claimer) && row.jobQueue == jobQueue
                   then row.(status := Running) else row
    {
      ghost var before := jobs;
      for i := 0 to |jobs|
        invariant |jobs| == |before|
        invariant forall k | 0 <= k < |jobs| ::
          jobs[k] == if k < i then Start(before, ids, claimer, jobQueue)[k] else before[k]
      {
        if i in ids && jobs[i].claimer == Some(claimer) && jobs[i].jobQueue == jobQueue {
          jobs := jobs[i := jobs[i].(status := Running)];
        }
      }
    }

    method ReleaseAction(ids: set<nat>, jobQueue: string)
      modifies this
      ensures jobs == Release(old(jobs), ids, jobQueue)
      ensures |jobs| == |old(jobs)| && forall i: nat | i < |jobs| ::
        var row := old(jobs)[i];
        jobs[i] == if i in ids && row.jobQueue == jobQueue
                   then Job(Queued, None, row.device, row.jobQueue, row.identifier) else row
    {
      ghost var before := jobs;
      for i := 0 to |jobs|
        invariant |jobs| == |before|
        invariant forall k | 0 <= k < |jobs| ::
          jobs[k] == if k < i then Release(before, ids, jobQueue)[k] else before[k]
      {
        if i in ids && jobs[i].jobQueue == jobQueue {
          jobs := jobs[i := jobs[i].(status := Queued, claimer := None)];
        }
      }
    }

    /** A status the server does not accept raises, and changes nothing. */
    method DoneAction(id: nat, status: Status, jobQueue: string) returns (r: Result<()>)
      modifies this
      ensures r.Raised? <==> status !in {Done, Failed, UserError}
      ensures jobs == Finish(old(jobs), id, status, jobQueue)
      ensures |jobs| == |old(jobs)| && forall i: nat | i < |jobs| ::
        var row := old(jobs)[i];
        jobs[i] == if r.Ok? && i == id && row.jobQueue == jobQueue then row.(status := status) else row
    {
      if !Accepted(status) {
        return Raised;
      }
      if id < |jobs| && jobs[id].jobQueue == jobQueue {
        jobs := jobs[id := jobs[id].(status := status)];
      }
      r := Ok(());
    }
  }

  // What claiming guarantees.

  /** A row is left alone, or taken from the claimer's own queue. */
  predicate ClaimedFromQueue(before: Job, after: Job, claimer: string, jobQueue: string) {
    after == before ||
    (before.status == Queued && before.jobQueue == jobQueue &&
     after == before.(status := Claimed, claimer := Some(claimer)))
  }

  ghost predicate ClaimStep(before: seq<Job>, after: seq<Job>, claimer: string, jobQueue: string) {
    |before| == |after| && forall i | 0 <= i < |before| :: ClaimedFromQueue(before[i], after[i], claimer, jobQueue)
  }

  /** At most one claimed row of each device kind. */
  ghost predicate OnePerKind(jobs: seq<Job>, claimer: string) {
    forall i, j | 0 <= i < j < |jobs| && IsClaimed(jobs[i], claimer) && IsClaimed(jobs[j], claimer) ::
      jobs[i].device != jobs[j].device
  }

  ghost predicate OwnQueueOnly(jobs: seq<Job>, claimer: string, jobQueue: string) {
    forall i | 0 <= i < |jobs| && IsClaimed(jobs[i], claimer) :: jobs[i].jobQueue == jobQueue
  }

  /** The claimer holds a job of this kind, or its queue has none. */
  ghost predicate Served(jobs: seq<Job>, device: string, claimer: string, jobQueue: string) {
    (exists k | 0 <= k < |jobs| :: HoldsKind(jobs[k], claimer, device, jobQueue)) ||
    forall k | 0 <= k < |jobs| :: !IsQueued(jobs[k], device, jobQueue)
  }

  /** Only rows of the listed kinds are taken, and of each kind the one with the lowest id. */
  ghost predicate OldestOfListed(before: seq<Job>, after: seq<Job>, devices: seq<string>, jobQueue: string) {
    |before| == |after| && forall j | 0 <= j < |before| && after[j] != before[j] ::
      before[j].device in devices && forall i | 0 <= i < j :: !IsQueued(before[i], before[j].device, jobQueue)
  }

  lemma ClaimOneEffect(jobs: seq<Job>, device: string, claimer: string, jobQueue: string)
    requires OnePerKind(jobs, claimer) && OwnQueueOnly(jobs, claimer, jobQueue)
    ensures var after := ClaimOne(jobs, device, claimer, jobQueue);
            ClaimStep(jobs, after, claimer, jobQueue) && OnePerKind(after, claimer) &&
            OwnQueueOnly(after, claimer, jobQueue) && Served(after, device, claimer, jobQueue) &&
            OldestOfListed(jobs, after, [device], jobQueue)
  {
    var i, after := FirstQueued(jobs, device, jobQueue), ClaimOne(jobs, device, claimer, jobQueue);
    if after != jobs {
      assert HoldsKind(after[i], claimer, device, jobQueue);
      forall k | 0 <= k < |jobs| && IsClaimed(jobs[k], claimer) ensures jobs[k].device != device {
        assert !HoldsKind(jobs[k], claimer, device, jobQueue);
      }
    }
  }

  lemma ServedStays(before: seq<Job>, after: seq<Job>, device: string, claimer: string, jobQueue: string)
    requires ClaimStep(before, after, claimer, jobQueue) && Served(before, device, claimer, jobQueue)
    ensures Served(after, device, claimer, jobQueue)
  {
    if k :| 0 <= k < |before| && HoldsKind(before[k], claimer, device, jobQueue) {
      assert ClaimedFromQueue(before[k], after[k], claimer, jobQueue);
      assert HoldsKind(after[k], claimer, device, jobQueue);
    } else {
      forall k | 0 <= k < |after| ensures !IsQueued(after[k], device, jobQueue) {
        assert ClaimedFromQueue(before[k], after[k], claimer, jobQueue);
      }
    }
  }

  lemma ClaimNothing(jobs: seq<Job>, claimer: string, jobQueue: string)
    ensures ClaimStep(jobs, jobs, claimer, jobQueue) && OldestOfListed(jobs, jobs, [], jobQueue)
  {
  }

  lemma ClaimTwice(before: seq<Job>, mid: seq<Job>, after: seq<Job>, claimer: string, jobQueue: string)
    requires ClaimStep(before, mid, claimer, jobQueue) && ClaimStep(mid, after, claimer, jobQueue)
    ensures ClaimStep(before, after, claimer, jobQueue)
  {
    forall i | 0 <= i < |before| ensures ClaimedFromQueue(before[i], after[i], claimer, jobQueue) {
      assert ClaimedFromQueue(before[i], mid[i], claimer, jobQueue);
      assert ClaimedFromQueue(mid[i], after[i], claimer, jobQueue);
    }
  }

  lemma OldestTwice(before: seq<Job>, mid: seq<Job>, after: seq<Job>, devices: seq<string>, claimer: string,
                    jobQueue: string)
    requires devices != [] && OldestOfListed(before, mid, [devices[0]], jobQueue)
    requires OldestOfListed(mid, after, devices[1..], jobQueue) && OnePerKind(after, claimer)
    requires ClaimStep(before, mid, claimer, jobQueue) && ClaimStep(mid, after, claimer, jobQueue)
    ensures OldestOfListed(before, after, devices, jobQueue)
  {
    forall j | 0 <= j < |before| && after[j] != before[j]
      ensures before[j].device in devices
      ensures forall i | 0 <= i < j :: !IsQueued(before[i], before[j].device, jobQueue)
    {
      assert ClaimedFromQueue(before[j], mid[j], claimer, jobQueue);
      assert ClaimedFromQueue(mid[j], after[j], claimer, jobQueue);
      if mid[j] == before[j] {
        forall i | 0 <= i < j ensures !IsQueued(before[i], before[j].device, jobQueue) {
          assert ClaimedFromQueue(before[i], mid[i], claimer, jobQueue);
          assert ClaimedFromQueue(mid[i], after[i], claimer, jobQueue);
        }
      }
    }
  }

  /** Claiming takes rows from the claimer's own queue only, the oldest of each listed kind and at
      most one of each however often it is listed, and leaves no listed kind waiting that it could
      serve. */
  lemma {:induction false} ClaimEffect(jobs: seq<Job>, devices: seq<string>, claimer: string, jobQueue: string)
    requires OnePerKind(jobs, claimer) && OwnQueueOnly(jobs, claimer, jobQueue)
    ensures var after := Claim(jobs, devices, claimer, jobQueue);
            ClaimStep(jobs, after, claimer, jobQueue) && OnePerKind(after, claimer) &&
            OwnQueueOnly(after, claimer, jobQueue) && OldestOfListed(jobs, after, devices, jobQueue) &&
            forall n | 0 <= n < |devices| :: Served(after, devices[n], claimer, jobQueue)
    decreases |devices|
  {
    hide ClaimOne, ClaimStep, OnePerKind, OwnQueueOnly, Served, OldestOfListed;
    if devices == [] {
      ClaimNothing(jobs, claimer, jobQueue);
    } else {
      var mid, after := ClaimOne(jobs, devices[0], claimer, jobQueue), Claim(jobs, devices, claimer, jobQueue);
      ClaimOneEffect(jobs, devices[0], claimer, jobQueue);
      ClaimEffect(mid, devices[1..], claimer, jobQueue);
      ServedStays(mid, after, devices[0], claimer, jobQueue);
      ClaimTwice(jobs, mid, after, claimer, jobQueue);
      OldestTwice(jobs, mid, after, devices, claimer, jobQueue);
      forall n | 0 <= n < |devices| ensures Served(after, devices[n], claimer, jobQueue) {
        if n > 0 {
          assert devices[n] == devices[1..][n - 1];
        }
      }
    }
  }
}
