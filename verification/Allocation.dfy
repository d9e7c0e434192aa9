/** How a lab matches the jobs it claimed to its devices (benchmarking/run_lab.py). */
module Allocation {
  import opened Sets
  import opened Wrappers

  datatype Device = Device(hash: string, available: bool)

  /** A job asks for a kind of device, and perhaps for one device by its hash. */
  datatype Job = Job(id: int, kind: string, hash: Option<string>)

  /** The lab's devices: kinds, and the devices of a kind in the order they were added. */
  type Devices = map<string, seq<Device>>

  datatype Slot = Slot(kind: string, index: nat)

  predicate Free(devices: Devices, slot: Slot) {
    slot.kind in devices && slot.index < |devices[slot.kind]| && devices[slot.kind][slot.index].available
  }

  predicate Wants(job: Job, device: Device) {
    job.hash == None || job.hash == Some(device.hash)
  }

  predicate CanServe(devices: Devices, job: Job, slot: Slot) {
    Free(devices, slot) && slot.kind == job.kind && Wants(job, devices[slot.kind][slot.index])
  }

  /** The first available device of a kind that the job wants. */
  function FirstFit(ds: seq<Device>, job: Job): (i: nat)
    ensures i <= |ds|
    ensures i < |ds| ==> ds[i].available && Wants(job, ds[i])
    ensures forall k | 0 <= k < i :: !(ds[k].available && Wants(job, ds[k]))
  {
    if ds == [] || (ds[0].available && Wants(job, ds[0])) then 0 else 1 + FirstFit(ds[1..], job)
  }

  function Pick(devices: Devices, job: Job): Option<Slot> {
    if job.kind !in devices then None
    else
      var i := FirstFit(devices[job.kind], job);
      if i < |devices[job.kind]| then Some(Slot(job.kind, i)) else None
  }

  function Occupy(devices: Devices, choice: Option<Slot>): Devices
    requires choice.Some? ==> choice.value.kind in devices && choice.value.index < |devices[choice.value.kind]|
  {
    if choice == None then devices
    else
      var (kind, i) := (choice.value.kind, choice.value.index);
      devices[kind := devices[kind][i := devices[kind][i].(available := false)]]
  }

  /** The devices once the first n jobs have been served, first come, first served. */
  function DevicesAt(devices: Devices, jobs: seq<Job>, n: nat): Devices
    requires n <= |jobs|
  {
    if n == 0 then devices
    else Occupy(DevicesAt(devices, jobs, n - 1), Pick(DevicesAt(devices, jobs, n - 1), jobs[n - 1]))
  }

  /** The device the i-th job gets. */
  function Choice(devices: Devices, jobs: seq<Job>, i: nat): Option<Slot>
    requires i < |jobs|
  {
    Pick(DevicesAt(devices, jobs, i), jobs[i])
  }

  function HashOf(devices: Devices, slot: Slot): string {
    if slot.kind in devices && slot.index < |devices[slot.kind]| then devices[slot.kind][slot.index].hash else ""
  }

  /** Of the first n jobs those that got a device, each now naming it, and those that did not. */
  function Served(devices: Devices, jobs: seq<Job>, n: nat): seq<Job>
    requires n <= |jobs|
  {
    if n == 0 then []
    else
      var choice := Choice(devices, jobs, n - 1);
      Served(devices, jobs, n - 1) +
      if choice.Some? then [jobs[n - 1].(hash := Some(HashOf(devices, choice.value)))] else []
  }

  function Unserved(devices: Devices, jobs: seq<Job>, n: nat): seq<Job>
    requires n <= |jobs|
  {
    if n == 0 then []
    else Unserved(devices, jobs, n - 1) + if Choice(devices, jobs, n - 1).None? then [jobs[n - 1]] else []
  }

  class Lab {
    var devices: Devices

    /** Queued and remaining jobs; a queued job's device is no longer available. */
    method SelectBenchmarks(jobs: seq<Job>) returns (jobsQueue: seq<Job>, remainingJobs: seq<Job>)
      modifies this
      ensures jobsQueue == Served(old(devices), jobs, |jobs|)
      ensures remainingJobs == Unserved(old(devices), jobs, |jobs|)
      ensures devices == DevicesAt(old(devices), jobs, |jobs|)
    {
      remainingJobs, jobsQueue := [], [];
      ghost var before := devices;
      NothingSelected(before, jobs);
      hide DevicesAt, Served, Unserved, Wants;
      for n := 0 to |jobs|
        invariant devices == DevicesAt(before, jobs, n)
        invariant jobsQueue == Served(before, jobs, n) && remainingJobs == Unserved(before, jobs, n)
      {
        var job := jobs[n];
        SelectOne(before, jobs, n);
        if job.kind !in devices {
          remainingJobs := remainingJobs + [job];
        } else {
          var ds := devices[job.kind];
          var i := 0;
          while i < |ds| && !(ds[i].available && Wants(job, ds[i]))
            invariant 0 <= i <= |ds|
            invariant forall k | 0 <= k < i :: !(ds[k].available && Wants(job, ds[k]))
          {
            i := i + 1;
          }
          assert i == FirstFit(ds, job) by {
            FirstIsUnique(ds, job, i);
          }
          if i < |ds| {
            jobsQueue := jobsQueue + [job.(hash := Some(ds[i].hash))];
            devices := devices[job.kind := ds[i := ds[i].(available := false)]];
          } else {
            remainingJobs := remainingJobs + [job];
          }
        }
      }
    }
  }

  /** Serving jobs changes no device but for its availability. */
  lemma {:induction false} HashesStay(devices: Devices, jobs: seq<Job>, n: nat)
    requires n <= |jobs|
    ensures var after := DevicesAt(devices, jobs, n);
            after.Keys == devices.Keys && forall kind | kind in devices ::
              |after[kind]| == |devices[kind]| &&
              forall i | 0 <= i < |devices[kind]| :: after[kind][i].hash == devices[kind][i].hash
  {
    if n > 0 {
      HashesStay(devices, jobs, n - 1);
    }
  }

  lemma FirstIsUnique(ds: seq<Device>, job: Job, i: nat)
    requires i <= |ds| && forall k | 0 <= k < i :: !(ds[k].available && Wants(job, ds[k]))
    requires i < |ds| ==> ds[i].available && Wants(job, ds[i])
    ensures i == FirstFit(ds, job)
  {
    hide Wants;
    var first := FirstFit(ds, job);
  }

  lemma NothingSelected(devices: Devices, jobs: seq<Job>)
    ensures Served(devices, jobs, 0) == [] && Unserved(devices, jobs, 0) == [] && DevicesAt(devices, jobs, 0) == devices
  {
  }

  /** What becomes of the n-th job. */
  lemma SelectOne(devices: Devices, jobs: seq<Job>, n: nat)
    requires n < |jobs|
    ensures var now: Devices, job: Job := DevicesAt(devices, jobs, n), jobs[n];
            if job.kind in now && FirstFit(now[job.kind], job) < |now[job.kind]|
            then
              var i := FirstFit(now[job.kind], job);
              Served(devices, jobs, n + 1) == Served(devices, jobs, n) + [job.(hash := Some(now[job.kind][i].hash))] &&
              Unserved(devices, jobs, n + 1) == Unserved(devices, jobs, n) &&
              DevicesAt(devices, jobs, n + 1) ==
              now[job.kind := now[job.kind][i := now[job.kind][i].(available := false)]]
            else
              Served(devices, jobs, n + 1) == Served(devices, jobs, n) &&
              Unserved(devices, jobs, n + 1) == Unserved(devices, jobs, n) + [job] &&
              DevicesAt(devices, jobs, n + 1) == now
  {
    hide FirstFit;
    HashesStay(devices, jobs, n);
  }

  /** The queued jobs are those with a choice, in order, each now naming the device chosen; the
      remaining jobs are the others, in order and as they were. */
  ghost predicate Splits(devices: Devices, jobs: seq<Job>, n: nat, queued: seq<Job>, remaining: seq<Job>,
                         served: seq<nat>, left: seq<nat>)
    requires n <= |jobs|
  {
    |served| == |queued| && |left| == |remaining| && Increasing(served) && Increasing(left) &&
    (forall i: nat :: i in served <==> i < n && Choice(devices, jobs, i).Some?) &&
    (forall i: nat :: i in left <==> i < n && Choice(devices, jobs, i).None?) &&
    (forall j | 0 <= j < |served| :: served[j] < n && Named(devices, jobs, served[j], queued[j])) &&
    forall j | 0 <= j < |left| :: left[j] < n && remaining[j] == jobs[left[j]]
  }

  predicate Increasing(s: seq<nat>) {
    forall i, j | 0 <= i < j < |s| :: s[i] < s[j]
  }

  /** The job with the hash of the device it gets. */
  predicate Named(devices: Devices, jobs: seq<Job>, i: nat, job: Job)
    requires i < |jobs|
  {
    match Choice(devices, jobs, i)
    case None => false
    case Some(slot) =>
      slot.kind in devices && slot.index < |devices[slot.kind]| &&
      job == Job(jobs[i].id, jobs[i].kind, Some(devices[slot.kind][slot.index].hash))
  }

  lemma OneMoreServed(devices: Devices, jobs: seq<Job>, n: nat, queued: seq<Job>, remaining: seq<Job>,
                      served: seq<nat>, left: seq<nat>, job: Job)
    requires n < |jobs| && Splits(devices, jobs, n, queued, remaining, served, left)
    requires Choice(devices, jobs, n).Some? && Named(devices, jobs, n, job)
    ensures Splits(devices, jobs, n + 1, queued + [job], remaining, served + [n], left)
  {
    hide Choice, Named;
  }

  lemma OneMoreLeft(devices: Devices, jobs: seq<Job>, n: nat, queued: seq<Job>, remaining: seq<Job>,
                    served: seq<nat>, left: seq<nat>)
    requires n < |jobs| && Splits(devices, jobs, n, queued, remaining, served, left) && Choice(devices, jobs, n).None?
    ensures Splits(devices, jobs, n + 1, queued, remaining + [jobs[n]], served, left + [n])
  {
    hide Choice, Named;
  }

  lemma NothingToSplit(devices: Devices, jobs: seq<Job>)
    ensures Splits(devices, jobs, 0, [], [], [], [])
  {
  }

  lemma {:induction false} SelectionSplits(devices: Devices, jobs: seq<Job>, n: nat)
    returns (served: seq<nat>, left: seq<nat>)
    requires n <= |jobs|
    ensures Splits(devices, jobs, n, Served(devices, jobs, n), Unserved(devices, jobs, n), served, left)
  {
    hide Choice, Named, Splits;
    if n == 0 {
      served, left := [], [];
      NothingToSplit(devices, jobs);
    } else {
      served, left := SelectionSplits(devices, jobs, n - 1);
      var queued, remaining := Served(devices, jobs, n - 1), Unserved(devices, jobs, n - 1);
      if Choice(devices, jobs, n - 1).Some? {
        ChosenIsNamed(devices, jobs, n - 1);
        var job := jobs[n - 1].(hash := Some(HashOf(devices, Choice(devices, jobs, n - 1).value)));
        OneMoreServed(devices, jobs, n - 1, queued, remaining, served, left, job);
        assert Unserved(devices, jobs, n) == remaining;
        served := served + [n - 1];
      } else {
        assert Served(devices, jobs, n) == queued;
        OneMoreLeft(devices, jobs, n - 1, queued, remaining, served, left);
        left := left + [n - 1];
      }
    }
  }

  lemma ChosenIsNamed(devices: Devices, jobs: seq<Job>, i: nat)
    requires i < |jobs| && Choice(devices, jobs, i).Some?
    ensures Named(devices, jobs, i, jobs[i].(hash := Some(HashOf(devices, Choice(devices, jobs, i).value))))
  {
    HashesStay(devices, jobs, i);
    hide DevicesAt, FirstFit;
  }

  // What the allocation guarantees.

  lemma PickServes(devices: Devices, job: Job, slot: Slot)
    ensures Pick(devices, job).Some? ==> CanServe(devices, job, Pick(devices, job).value)
    ensures Pick(devices, job).None? ==> !CanServe(devices, job, slot)
  {
  }

  lemma OccupyTakes(devices: Devices, job: Job, slot: Slot)
    ensures var choice := Pick(devices, job);
            Free(Occupy(devices, choice), slot) <==> Free(devices, slot) && choice != Some(slot)
  {
    PickServes(devices, job, slot);
  }

  /** One of the first n jobs got this device. */
  ghost predicate TakenBy(devices: Devices, jobs: seq<Job>, n: nat, slot: Slot)
    requires n <= |jobs|
  {
    exists i | 0 <= i < n :: Choice(devices, jobs, i) == Some(slot)
  }

  /** A device is free exactly when it was free before and no job got it. */
  lemma {:induction false} FreeAt(devices: Devices, jobs: seq<Job>, n: nat, slot: Slot)
    requires n <= |jobs|
    ensures Free(DevicesAt(devices, jobs, n), slot) <==> Free(devices, slot) && !TakenBy(devices, jobs, n, slot)
  {
    if n > 0 {
      FreeAt(devices, jobs, n - 1, slot);
      OccupyTakes(DevicesAt(devices, jobs, n - 1), jobs[n - 1], slot);
      assert Choice(devices, jobs, n - 1) == Pick(DevicesAt(devices, jobs, n - 1), jobs[n - 1]);
    }
  }

  lemma CanServeAt(devices: Devices, jobs: seq<Job>, n: nat, job: Job, slot: Slot)
    requires n <= |jobs|
    ensures CanServe(DevicesAt(devices, jobs, n), job, slot) <==>
            CanServe(devices, job, slot) && !TakenBy(devices, jobs, n, slot)
  {
    FreeAt(devices, jobs, n, slot);
    HashesStay(devices, jobs, n);
  }

  /** Every choice is a device that was free, of the right kind and with the right hash, and
      that no earlier job got. */
  lemma ChoiceServes(devices: Devices, jobs: seq<Job>, i: nat)
    requires i < |jobs| && Choice(devices, jobs, i).Some?
    ensures var slot := Choice(devices, jobs, i).value;
            CanServe(devices, jobs[i], slot) && !TakenBy(devices, jobs, i, slot)
  {
    var slot := Choice(devices, jobs, i).value;
    PickServes(DevicesAt(devices, jobs, i), jobs[i], slot);
    CanServeAt(devices, jobs, i, jobs[i], slot);
  }

  /** A job is left over only if every device that could have served it went to another job. */
  lemma LeftoverIsStuck(devices: Devices, jobs: seq<Job>, i: nat, slot: Slot)
    requires i < |jobs| && Choice(devices, jobs, i).None? && CanServe(devices, jobs[i], slot)
    ensures TakenBy(devices, jobs, |jobs|, slot)
  {
    PickServes(DevicesAt(devices, jobs, i), jobs[i], slot);
    CanServeAt(devices, jobs, i, jobs[i], slot);
    var k :| 0 <= k < i && Choice(devices, jobs, k) == Some(slot);
  }

  /** Hence no remaining job could be served by a device that is still free. */
  lemma NoRemainingJobFits(devices: Devices, jobs: seq<Job>, i: nat, slot: Slot)
    requires i < |jobs| && Choice(devices, jobs, i).None?
    ensures !CanServe(DevicesAt(devices, jobs, |jobs|), jobs[i], slot)
  {
    CanServeAt(devices, jobs, |jobs|, jobs[i], slot);
    if CanServe(devices, jobs[i], slot) {
      LeftoverIsStuck(devices, jobs, i, slot);
    }
  }

  function Ids(jobs: seq<Job>): seq<int> {
    seq(|jobs|, (i: int) requires 0 <= i < |jobs| => jobs[i].id)
  }

  lemma IdsAppend(jobs: seq<Job>, job: Job)
    ensures multiset(Ids(jobs + [job])) == multiset(Ids(jobs)) + multiset{job.id}
  {
    assert Ids(jobs + [job]) == Ids(jobs) + [job.id];
  }

  /** Every job is either queued or remaining, and none is both. */
  lemma {:induction false} SelectionSplitsJobs(devices: Devices, jobs: seq<Job>, n: nat)
    requires n <= |jobs|
    ensures multiset(Ids(Served(devices, jobs, n))) + multiset(Ids(Unserved(devices, jobs, n))) ==
            multiset(Ids(jobs[..n]))
  {
    hide Choice;
    hide HashOf;
    hide Ids;
    if n == 0 {
      assert Served(devices, jobs, 0) == jobs[..0] == Unserved(devices, jobs, 0);
      NoIds();
    } else {
      SelectionSplitsJobs(devices, jobs, n - 1);
      var (job, choice) := (jobs[n - 1], Choice(devices, jobs, n - 1));
      assert jobs[..n] == jobs[..n - 1] + [job];
      IdsAppend(jobs[..n - 1], job);
      if choice.Some? {
        IdsAppend(Served(devices, jobs, n - 1), job.(hash := Some(HashOf(devices, choice.value))));
        assert Unserved(devices, jobs, n) == Unserved(devices, jobs, n - 1);
      } else {
        IdsAppend(Unserved(devices, jobs, n - 1), job);
        assert Served(devices, jobs, n) == Served(devices, jobs, n - 1);
      }
    }
  }

  lemma NoIds()
    ensures Ids([]) == []
  {
  }

  // How many jobs are served, against any other way of serving them.

  /** Jobs, by their index, given devices that can serve them, no device twice. */
  ghost predicate ValidAssignment(devices: Devices, jobs: seq<Job>, a: map<nat, Slot>) {
    (forall i | i in a :: i < |jobs| && CanServe(devices, jobs[i], a[i])) &&
    (forall i, j | i in a && j in a && i != j :: a[i] != a[j])
  }

  /** The allocation as an assignment of the first n jobs. */
  function Greedy(devices: Devices, jobs: seq<Job>, n: nat): map<nat, Slot>
    requires n <= |jobs|
  {
    map i: nat | i < n && Choice(devices, jobs, i).Some? :: Choice(devices, jobs, i).value
  }

  lemma GreedyIsValid(devices: Devices, jobs: seq<Job>)
    ensures ValidAssignment(devices, jobs, Greedy(devices, jobs, |jobs|))
  {
    var a := Greedy(devices, jobs, |jobs|);
    forall i | i in a
      ensures CanServe(devices, jobs[i], a[i]) && !TakenBy(devices, jobs, i, a[i])
    {
      ChoiceServes(devices, jobs, i);
    }
    forall i, j | i in a && j in a && i != j ensures a[i] != a[j] {
      var (low, high) := if i < j then (i, j) else (j, i);
      assert Choice(devices, jobs, low) == Some(a[low]);
    }
  }

  lemma GreedyStep(devices: Devices, jobs: seq<Job>, n: nat)
    requires n < |jobs|
    ensures |Greedy(devices, jobs, n + 1)| ==
            |Greedy(devices, jobs, n)| + if Choice(devices, jobs, n).Some? then 1 else 0
  {
    GreedyGrows(devices, jobs, n);
    hide Greedy, Choice;
  }

  lemma GreedyGrows(devices: Devices, jobs: seq<Job>, n: nat)
    requires n < |jobs|
    ensures var (choice, a) := (Choice(devices, jobs, n), Greedy(devices, jobs, n));
            n !in a && Greedy(devices, jobs, n + 1) == if choice.Some? then a[n := choice.value] else a
  {
    hide Choice;
    var (a, rest) := (Greedy(devices, jobs, n + 1), Greedy(devices, jobs, n));
    assert a.Keys == rest.Keys + (if Choice(devices, jobs, n).Some? then {n} else {});
  }

  lemma {:induction false} ServedCount(devices: Devices, jobs: seq<Job>, n: nat)
    requires n <= |jobs|
    ensures |Served(devices, jobs, n)| == |Greedy(devices, jobs, n)|
  {
    hide Choice;
    hide HashOf;
    hide Greedy;
    if n == 0 {
      NothingServed(devices, jobs);
    } else {
      ServedCount(devices, jobs, n - 1);
      GreedyStep(devices, jobs, n - 1);
    }
  }

  lemma NothingServed(devices: Devices, jobs: seq<Job>)
    ensures Greedy(devices, jobs, 0) == map[]
  {
  }

  lemma {:induction false} InjectionBound(f: map<nat, nat>, targets: set<nat>)
    requires forall i | i in f :: f[i] in targets
    requires forall i, j | i in f && j in f && i != j :: f[i] != f[j]
    ensures |f| <= |targets|
    decreases |f|
  {
    if f.Keys != {} {
      var x :| x in f;
      var rest := map i | i in f && i != x :: f[i];
      assert rest.Keys == f.Keys - {x};
      InjectionBound(rest, targets - {f[x]});
    }
  }

  /** The first of the jobs from index i on that got a device. */
  function Holder(devices: Devices, jobs: seq<Job>, slot: Slot, i: nat): (k: nat)
    requires i <= |jobs|
    ensures i <= k <= |jobs|
    ensures k < |jobs| ==> Choice(devices, jobs, k) == Some(slot)
    ensures k == |jobs| ==> forall j | i <= j < |jobs| :: Choice(devices, jobs, j) != Some(slot)
    decreases |jobs| - i
  {
    if i == |jobs| || Choice(devices, jobs, i) == Some(slot) then i else Holder(devices, jobs, slot, i + 1)
  }

  lemma Disjoint(all: set<nat>, a: set<nat>, b: set<nat>)
    requires all <= a + b
    ensures |all| <= |a| + |b|
  {
    SubsetIsNoLarger(all, a + b);
  }

  /** No way of serving the jobs serves more than twice as many: a job of another assignment
      is served here too, or its device serves another job here. */
  lemma HalfOfAnyAssignment(devices: Devices, jobs: seq<Job>, a: map<nat, Slot>)
    requires ValidAssignment(devices, jobs, a)
    ensures |a| <= 2 * |Served(devices, jobs, |jobs|)|
  {
    hide Choice;
    hide CanServe;
    var greedy := Greedy(devices, jobs, |jobs|);
    ServedCount(devices, jobs, |jobs|);
    var byDevice := map i | i in a && i !in greedy :: Holder(devices, jobs, a[i], 0);
    forall i | i in byDevice
      ensures byDevice[i] in greedy.Keys && Choice(devices, jobs, byDevice[i]) == Some(a[i])
    {
      LeftoverIsStuck(devices, jobs, i, a[i]);
    }
    InjectionBound(byDevice, greedy.Keys);
    Disjoint(a.Keys, byDevice.Keys, greedy.Keys);
    assert |a| == |a.Keys| && |byDevice| == |byDevice.Keys| && |greedy| == |greedy.Keys|;
  }

  /** Some job of this kind that names no hash was left over. */
  ghost predicate Saturated(devices: Devices, jobs: seq<Job>, kind: string) {
    exists i | 0 <= i < |jobs| :: Choice(devices, jobs, i).None? && jobs[i].kind == kind && jobs[i].hash == None
  }

  lemma SaturatedIsTaken(devices: Devices, jobs: seq<Job>, i: nat, slot: Slot)
    requires i < |jobs| && CanServe(devices, jobs[i], slot) && Saturated(devices, jobs, jobs[i].kind)
    ensures var k := Holder(devices, jobs, slot, 0);
            k < |jobs| && Choice(devices, jobs, k) == Some(slot) && jobs[k].kind == jobs[i].kind
  {
    var j :| 0 <= j < |jobs| && Choice(devices, jobs, j).None? && jobs[j].kind == jobs[i].kind && jobs[j].hash == None;
    LeftoverIsStuck(devices, jobs, j, slot);
    ChoiceServes(devices, jobs, Holder(devices, jobs, slot, 0));
  }

  /** This device goes to a job that asks for the same kind and hash as the i-th. */
  ghost predicate HeldByNamesake(devices: Devices, jobs: seq<Job>, i: nat, slot: Slot)
    requires i < |jobs|
  {
    var k := Holder(devices, jobs, slot, 0);
    k < |jobs| && jobs[k].kind == jobs[i].kind && jobs[k].hash == jobs[i].hash
  }

  /** A job that names a hash or is of a saturated kind is charged to the job that got its device
      here, any other to itself. */
  ghost predicate Charged(devices: Devices, jobs: seq<Job>, i: nat)
    requires i < |jobs|
  {
    jobs[i].hash.Some? || Saturated(devices, jobs, jobs[i].kind)
  }

  ghost function ChargedTo(devices: Devices, jobs: seq<Job>, i: nat, slot: Slot): nat
    requires i < |jobs|
  {
    if Charged(devices, jobs, i) then Holder(devices, jobs, slot, 0) else i
  }

  lemma ChargedIsServed(devices: Devices, jobs: seq<Job>, i: nat, slot: Slot)
    requires i < |jobs| && CanServe(devices, jobs[i], slot)
    requires jobs[i].hash.Some? ==> HeldByNamesake(devices, jobs, i, slot)
    ensures var k := ChargedTo(devices, jobs, i, slot);
      k < |jobs| && Choice(devices, jobs, k).Some? && jobs[k].kind == jobs[i].kind &&
      (jobs[i].hash.Some? ==> jobs[k].hash.Some?) &&
      (Charged(devices, jobs, i) ==> Choice(devices, jobs, k) == Some(slot))
  {
    hide Choice, CanServe;
    if jobs[i].hash == None && Charged(devices, jobs, i) {
      SaturatedIsTaken(devices, jobs, i, slot);
    }
  }

  lemma ChargedApart(devices: Devices, jobs: seq<Job>, i: nat, j: nat, slot: Slot, other: Slot)
    requires i < |jobs| && j < |jobs| && i != j && slot != other
    requires CanServe(devices, jobs[i], slot) && CanServe(devices, jobs[j], other)
    requires jobs[i].hash.Some? ==> HeldByNamesake(devices, jobs, i, slot)
    requires jobs[j].hash.Some? ==> HeldByNamesake(devices, jobs, j, other)
    ensures ChargedTo(devices, jobs, i, slot) != ChargedTo(devices, jobs, j, other)
  {
    hide Choice, CanServe, HeldByNamesake, Saturated;
    ChargedIsServed(devices, jobs, i, slot);
    ChargedIsServed(devices, jobs, j, other);
  }

  /** If the devices that jobs get for their hash elsewhere go to namesakes here, no way of
      serving the jobs serves more. */
  lemma OptimalByHolders(devices: Devices, jobs: seq<Job>, a: map<nat, Slot>)
    requires ValidAssignment(devices, jobs, a)
    requires forall i | i in a && jobs[i].hash.Some? :: HeldByNamesake(devices, jobs, i, a[i])
    ensures |a| <= |Served(devices, jobs, |jobs|)|
  {
    hide Choice, CanServe, HeldByNamesake, ChargedTo;
    var greedy := Greedy(devices, jobs, |jobs|);
    ServedCount(devices, jobs, |jobs|);
    var f := map i | i in a :: ChargedTo(devices, jobs, i, a[i]);
    forall i | i in f ensures f[i] in greedy.Keys {
      ChargedIsServed(devices, jobs, i, a[i]);
    }
    forall i, j | i in f && j in f && i != j ensures f[i] != f[j] {
      ChargedApart(devices, jobs, i, j, a[i], a[j]);
    }
    InjectionBound(f, greedy.Keys);
    assert f.Keys == a.Keys;
    assert |f| == |f.Keys| && |a| == |a.Keys| && |greedy| == |greedy.Keys|;
  }

  /** Where no job names a hash, no way of serving the jobs serves more, on any lab. */
  lemma OptimalWithoutHashes(devices: Devices, jobs: seq<Job>, a: map<nat, Slot>)
    requires ValidAssignment(devices, jobs, a)
    requires forall i | 0 <= i < |jobs| :: jobs[i].hash == None
    ensures |a| <= |Served(devices, jobs, |jobs|)|
  {
    OptimalByHolders(devices, jobs, a);
  }

  // When the choice is optimal on every lab

  /** Devices of a kind are known by their hashes. */
  predicate DistinctHashes(devices: Devices) {
    forall kind | kind in devices ::
      forall i, j | 0 <= i < j < |devices[kind]| :: devices[kind][i].hash != devices[kind][j].hash
  }

  predicate SameWish(a: Job, b: Job) {
    a.kind == b.kind && a.hash == b.hash
  }

  /** The first job that asks for this device of its kind by its hash. */
  predicate FirstToName(jobs: seq<Job>, j: nat)
    requires j < |jobs|
  {
    jobs[j].hash.Some? && forall k | 0 <= k < j :: !SameWish(jobs[k], jobs[j])
  }

  /** No job without a hash precedes the first job of its kind that names some hash. */
  predicate NamedFirst(jobs: seq<Job>) {
    forall i, j | 0 <= i < j < |jobs| && FirstToName(jobs, j) && jobs[i].kind == jobs[j].kind :: jobs[i].hash.Some?
  }

  lemma {:induction false} FirstNamer(jobs: seq<Job>, i: nat, n: nat) returns (f: nat)
    requires n <= i < |jobs| && jobs[i].hash.Some? && forall k | 0 <= k < n :: !SameWish(jobs[k], jobs[i])
    ensures f <= i && SameWish(jobs[f], jobs[i]) && FirstToName(jobs, f)
    decreases i - n
  {
    if SameWish(jobs[n], jobs[i]) {
      f := n;
    } else {
      f := FirstNamer(jobs, i, n + 1);
    }
  }

  /** The first job to name an available device gets it. */
  lemma FirstNamerIsServed(devices: Devices, jobs: seq<Job>, f: nat, slot: Slot)
    requires DistinctHashes(devices) && NamedFirst(jobs) && f < |jobs| && FirstToName(jobs, f)
    requires CanServe(devices, jobs[f], slot)
    ensures Choice(devices, jobs, f) == Some(slot)
  {
    assert !TakenBy(devices, jobs, f, slot) by {
      forall e | 0 <= e < f ensures Choice(devices, jobs, e) != Some(slot) {
        assert !SameWish(jobs[e], jobs[f]);
        if Choice(devices, jobs, e) == Some(slot) {
          ChoiceServes(devices, jobs, e);
        }
      }
    }
    CanServeAt(devices, jobs, f, jobs[f], slot);
    PickServes(DevicesAt(devices, jobs, f), jobs[f], slot);
    ChoiceServes(devices, jobs, f);
  }

  lemma NamesakeHolds(devices: Devices, jobs: seq<Job>, i: nat, slot: Slot)
    requires DistinctHashes(devices) && NamedFirst(jobs) && i < |jobs| && jobs[i].hash.Some?
    requires CanServe(devices, jobs[i], slot)
    ensures HeldByNamesake(devices, jobs, i, slot)
  {
    var f := FirstNamer(jobs, i, 0);
    FirstNamerIsServed(devices, jobs, f, slot);
    var k := Holder(devices, jobs, slot, 0);
    assert k < |jobs|;
    ChoiceServes(devices, jobs, k);
    ChoiceServes(devices, jobs, f);
    assert k == f;
  }

  /** Then the choice serves as many jobs as any valid assignment. */
  lemma OptimalIfNamedFirst(devices: Devices, jobs: seq<Job>, a: map<nat, Slot>)
    requires DistinctHashes(devices) && NamedFirst(jobs) && ValidAssignment(devices, jobs, a)
    ensures |a| <= |Served(devices, jobs, |jobs|)|
  {
    forall i | i in a && jobs[i].hash.Some? ensures HeldByNamesake(devices, jobs, i, a[i]) {
      NamesakeHolds(devices, jobs, i, a[i]);
    }
    OptimalByHolders(devices, jobs, a);
  }

  // A lab on which it is not

  function Longest(jobs: seq<Job>, n: nat): nat
    requires n <= |jobs|
  {
    if n == 0 then 0
    else
      var rest, length := Longest(jobs, n - 1), if jobs[n - 1].hash.Some? then |jobs[n - 1].hash.value| else 0;
      if rest < length then length else rest
  }

  lemma {:induction false} LongestBounds(jobs: seq<Job>, n: nat, i: nat)
    requires i < n <= |jobs| && jobs[i].hash.Some?
    ensures |jobs[i].hash.value| <= Longest(jobs, n)
  {
    if i < n - 1 {
      LongestBounds(jobs, n - 1, i);
    }
  }

  predicate Unnamed(job: Job, kind: string) {
    job.kind == kind && job.hash == None
  }

  /** How many of the first n jobs ask for any device of a kind. */
  function UnnamedBefore(jobs: seq<Job>, kind: string, n: nat): nat
    requires n <= |jobs|
  {
    if n == 0 then 0 else UnnamedBefore(jobs, kind, n - 1) + if Unnamed(jobs[n - 1], kind) then 1 else 0
  }

  lemma {:induction false} UnnamedGrows(jobs: seq<Job>, kind: string, m: nat, n: nat)
    requires m < n <= |jobs|
    ensures UnnamedBefore(jobs, kind, m) <= UnnamedBefore(jobs, kind, n)
    ensures Unnamed(jobs[m], kind) ==> UnnamedBefore(jobs, kind, m) < UnnamedBefore(jobs, kind, n)
  {
    if m < n - 1 {
      UnnamedGrows(jobs, kind, m, n - 1);
    }
  }

  /** A hash of a given length. */
  function Spare(length: nat): (hash: string)
    ensures |hash| == length
  {
    seq(length, _ => 'g')
  }

  /** One device that a job names, and a spare that none names for each job that names none. */
  function Contested(jobs: seq<Job>, kind: string, hash: string): seq<Device> {
    [Device(hash, true)] +
    seq(UnnamedBefore(jobs, kind, |jobs|), k requires 0 <= k => Device(Spare(Longest(jobs, |jobs|) + 1 + k), true))
  }

  /** The lab with the device that the j-th job names, and the spares. */
  function ContestedLab(jobs: seq<Job>, j: nat): Devices
    requires j < |jobs| && jobs[j].hash.Some?
  {
    map[jobs[j].kind := Contested(jobs, jobs[j].kind, jobs[j].hash.value)]
  }

  lemma ContestedAt(jobs: seq<Job>, kind: string, hash: string, k: nat)
    ensures var ds := Contested(jobs, kind, hash);
      |ds| == 1 + UnnamedBefore(jobs, kind, |jobs|) &&
      (k < |ds| ==> ds[k] == Device(if k == 0 then hash else Spare(Longest(jobs, |jobs|) + k), true))
  {
  }

  lemma ContestedIsDistinct(jobs: seq<Job>, j: nat)
    requires j < |jobs| && jobs[j].hash.Some?
    ensures DistinctHashes(ContestedLab(jobs, j))
  {
    LongestBounds(jobs, |jobs|, j);
    var ds := Contested(jobs, jobs[j].kind, jobs[j].hash.value);
    forall m, n | 0 <= m < n < |ds| ensures ds[m].hash != ds[n].hash {
      ContestedAt(jobs, jobs[j].kind, jobs[j].hash.value, m);
      ContestedAt(jobs, jobs[j].kind, jobs[j].hash.value, n);
      assert |ds[m].hash| < |ds[n].hash|;
    }
  }

  /** A job without a hash takes the first device, unless it is taken already. */
  lemma FirstIsTaken(devices: Devices, jobs: seq<Job>, i: nat, n: nat)
    requires i < n <= |jobs| && jobs[i].hash == None && Free(devices, Slot(jobs[i].kind, 0))
    ensures TakenBy(devices, jobs, n, Slot(jobs[i].kind, 0))
  {
    var slot := Slot(jobs[i].kind, 0);
    FreeAt(devices, jobs, i, slot);
    if !TakenBy(devices, jobs, i, slot) {
      assert FirstFit(DevicesAt(devices, jobs, i)[slot.kind], jobs[i]) == 0;
      assert Choice(devices, jobs, i) == Some(slot);
    }
  }

  /** On this lab only jobs without a hash are served. */
  lemma OnlyUnnamedServed(devices: Devices, jobs: seq<Job>, i: nat, j: nat, n: nat)
    requires i < j < |jobs| && jobs[i].hash == None && jobs[i].kind == jobs[j].kind && FirstToName(jobs, j)
    requires devices == ContestedLab(jobs, j)
    requires n < |jobs| && Choice(devices, jobs, n).Some?
    ensures Unnamed(jobs[n], jobs[j].kind)
  {
    hide Contested, Choice;
    ChoiceServes(devices, jobs, n);
    if jobs[n].hash.Some? {
      OnlyFirstIsNamed(jobs, j, n, Choice(devices, jobs, n).value.index);
      FirstIsFree(jobs, j);
      assert SameWish(jobs[n], jobs[j]);
      FirstIsTaken(devices, jobs, i, n);
    }
  }

  lemma FirstIsFree(jobs: seq<Job>, j: nat)
    requires j < |jobs| && jobs[j].hash.Some?
    ensures Free(ContestedLab(jobs, j), Slot(jobs[j].kind, 0))
  {
  }

  lemma OnlyFirstIsNamed(jobs: seq<Job>, j: nat, n: nat, index: nat)
    requires j < |jobs| && n < |jobs| && jobs[j].hash.Some? && jobs[n].hash.Some?
    requires var ds := Contested(jobs, jobs[j].kind, jobs[j].hash.value); index < |ds| && Wants(jobs[n], ds[index])
    ensures index == 0 && jobs[n].hash == jobs[j].hash
  {
    hide Contested;
    LongestBounds(jobs, |jobs|, n);
    ContestedAt(jobs, jobs[j].kind, jobs[j].hash.value, index);
  }

  function BetterSlot(jobs: seq<Job>, j: nat, n: nat): Slot
    requires j < |jobs| && n < |jobs|
  {
    Slot(jobs[j].kind, if n == j then 0 else 1 + UnnamedBefore(jobs, jobs[j].kind, n))
  }

  lemma BetterSlotServes(jobs: seq<Job>, j: nat, n: nat)
    requires j < |jobs| && n < |jobs| && jobs[j].hash.Some? && (n == j || Unnamed(jobs[n], jobs[j].kind))
    ensures CanServe(ContestedLab(jobs, j), jobs[n], BetterSlot(jobs, j, n))
  {
    hide Contested;
    UnnamedGrows(jobs, jobs[j].kind, n, |jobs|);
    ContestedAt(jobs, jobs[j].kind, jobs[j].hash.value, BetterSlot(jobs, j, n).index);
  }

  lemma BetterSlotsDiffer(jobs: seq<Job>, j: nat, m: nat, n: nat)
    requires j < |jobs| && m < n < |jobs| && jobs[j].hash.Some?
    requires (m == j || Unnamed(jobs[m], jobs[j].kind)) && (n == j || Unnamed(jobs[n], jobs[j].kind))
    ensures BetterSlot(jobs, j, m) != BetterSlot(jobs, j, n)
  {
    UnnamedGrows(jobs, jobs[j].kind, m, n);
  }

  function UnnamedJobs(jobs: seq<Job>, kind: string): set<nat> {
    set n: nat | n < |jobs| && Unnamed(jobs[n], kind)
  }

  /** The named device for the job that names it, and the spares for the others. */
  function Better(jobs: seq<Job>, j: nat): map<nat, Slot>
    requires j < |jobs| && jobs[j].hash.Some?
  {
    map n | n in UnnamedJobs(jobs, jobs[j].kind) + {j} :: BetterSlot(jobs, j, n)
  }

  lemma BetterSize(jobs: seq<Job>, j: nat)
    requires j < |jobs| && jobs[j].hash.Some?
    ensures |Better(jobs, j)| == |UnnamedJobs(jobs, jobs[j].kind)| + 1
  {
    assert Better(jobs, j).Keys == UnnamedJobs(jobs, jobs[j].kind) + {j};
    assert |Better(jobs, j)| == |Better(jobs, j).Keys|;
  }

  lemma BetterIsValid(jobs: seq<Job>, j: nat)
    requires j < |jobs| && jobs[j].hash.Some?
    ensures ValidAssignment(ContestedLab(jobs, j), jobs, Better(jobs, j))
  {
    hide CanServe, BetterSlot, ContestedLab;
    var a := Better(jobs, j);
    forall n | n in a ensures CanServe(ContestedLab(jobs, j), jobs[n], a[n]) {
      BetterSlotServes(jobs, j, n);
    }
    forall m, n | m in a && n in a && m != n ensures a[m] != a[n] {
      if m < n {
        BetterSlotsDiffer(jobs, j, m, n);
      } else {
        BetterSlotsDiffer(jobs, j, n, m);
      }
    }
  }

  /** The choice is optimal on every lab exactly when no job without a hash precedes the first
      job of its kind that names some hash. */
  lemma OptimalIff(jobs: seq<Job>)
    ensures (forall devices, a | DistinctHashes(devices) && ValidAssignment(devices, jobs, a) ::
              |a| <= |Served(devices, jobs, |jobs|)|) <==> NamedFirst(jobs)
  {
    hide Choice, CanServe, Served, ContestedLab, DistinctHashes, ValidAssignment, Better, UnnamedJobs;
    if NamedFirst(jobs) {
      forall devices, a | DistinctHashes(devices) && ValidAssignment(devices, jobs, a)
        ensures |a| <= |Served(devices, jobs, |jobs|)|
      {
        OptimalIfNamedFirst(devices, jobs, a);
      }
    } else {
      var i, j :| 0 <= i < j < |jobs| && FirstToName(jobs, j) && jobs[i].kind == jobs[j].kind && jobs[i].hash == None;
      var devices, a := ContestedLab(jobs, j), Better(jobs, j);
      ContestedIsDistinct(jobs, j);
      BetterIsValid(jobs, j);
      BetterSize(jobs, j);
      FewerServed(jobs, i, j);
      assert DistinctHashes(devices) && ValidAssignment(devices, jobs, a) && |a| > |Served(devices, jobs, |jobs|)|;
    }
  }

  lemma FewerServed(jobs: seq<Job>, i: nat, j: nat)
    requires i < j < |jobs| && jobs[i].hash == None && jobs[i].kind == jobs[j].kind && FirstToName(jobs, j)
    ensures |Served(ContestedLab(jobs, j), jobs, |jobs|)| <= |UnnamedJobs(jobs, jobs[j].kind)|
  {
    hide Choice, Served, ContestedLab;
    var devices := ContestedLab(jobs, j);
    var greedy := Greedy(devices, jobs, |jobs|);
    ServedCount(devices, jobs, |jobs|);
    forall n | n in greedy.Keys ensures n in UnnamedJobs(jobs, jobs[j].kind) {
      OnlyUnnamedServed(devices, jobs, i, j, n);
    }
    SubsetIsNoLarger(greedy.Keys, UnnamedJobs(jobs, jobs[j].kind));
    assert |greedy| == |greedy.Keys|;
  }

  /** Two free devices, and a job that takes the one that a later job names. */
  const TWO := [Device("x", true), Device("y", true)]
  const ONE_LEFT := [Device("x", false), Device("y", true)]
  const RIVALS := [Job(0, "phone", None), Job(1, "phone", Some("x"))]

  lemma SecondIsLeft()
    ensures FirstFit(TWO, RIVALS[0]) == 0 && FirstFit(ONE_LEFT, RIVALS[1]) == 2
  {
    FirstIsUnique(ONE_LEFT, RIVALS[1], 2);
  }

  lemma OnlyOneServed(devices: Devices)
    requires devices == map["phone" := TWO]
    ensures |Served(devices, RIVALS, 2)| == 1
  {
    hide FirstFit, Served, Unserved, DevicesAt, Choice;
    NothingSelected(devices, RIVALS);
    SecondIsLeft();
    SelectOne(devices, RIVALS, 0);
    assert DevicesAt(devices, RIVALS, 1)["phone"] == ONE_LEFT;
    SelectOne(devices, RIVALS, 1);
  }

  /** Jobs that name a hash can cost half: the first job takes the device the second names. */
  lemma HalfIsReached() returns (devices: Devices, jobs: seq<Job>, a: map<nat, Slot>)
    ensures DistinctHashes(devices) && !NamedFirst(jobs)
    ensures ValidAssignment(devices, jobs, a) && |a| == 2 && |Served(devices, jobs, |jobs|)| == 1
  {
    hide Served;
    devices, jobs := map["phone" := TWO], RIVALS;
    a := map[0 := Slot("phone", 1), 1 := Slot("phone", 0)];
    OnlyOneServed(devices);
    assert FirstToName(jobs, 1) && jobs[0].kind == jobs[1].kind;
  }
}
