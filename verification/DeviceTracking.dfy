/** What the disconnect monitor does to one device over a run of checks
    (benchmarking/platforms/device_manager.py). */
module DeviceTracking {
  import opened DeviceMonitor
  import opened Wrappers

  /** What the monitor knows of a hash: nothing, or an online device and its count of misses. */
  function Track(m: Manager, h: string): Option<nat> {
    if Lists(m.online, h) then Some(Count(m, h)) else None
  }

  function DeviceFor(m: Manager, h: string): Device
    requires Lists(m.online, h)
  {
    m.online[IndexOf(m.online, h)]
  }

  lemma TheDevice(m: Manager, d: Device)
    requires Inv(m) && d in m.online
    ensures Lists(m.online, d.hash) && DeviceFor(m, d.hash) == d
  {
    SameHash(m.online, d, DeviceFor(m, d.hash));
  }

  /** The entries of the devices with one hash. */
  predicate SameEntries(m: Manager, m': Manager, h: string) {
    forall d: Device | d.hash == h && d in m.entries :: d in m'.entries && m'.entries[d] == m.entries[d]
  }

  /** What a miss does to a device's count. */
  function MissStep(count: nat, paused: bool, reconnects: bool): Option<nat> {
    if paused then Some(count)
    else if count + 1 < THRESHOLD then Some(count + 1)
    else if reconnects then Some(0)
    else None
  }

  // One step of a check, seen from one hash

  lemma SeenTracks(m: Manager, h0: string, h: string)
    requires Inv(m)
    ensures Track(Seen(m, h0), h) == if h == h0 && Track(m, h).Some? then Some(0) else Track(m, h)
    ensures h != h0 ==> SameEntries(m, Seen(m, h0), h)
  {
  }

  lemma {:induction false} SeenAllTracks(m: Manager, hashes: seq<string>, n: nat, h: string)
    requires Inv(m) && n <= |hashes|
    ensures Track(SeenAll(m, hashes, n), h) == if h in hashes[..n] && Track(m, h).Some? then Some(0) else Track(m, h)
    ensures h !in hashes[..n] ==> SameEntries(m, SeenAll(m, hashes, n), h)
  {
    hide Inv, Seen, Track;
    if n > 0 {
      SeenAllTracks(m, hashes, n - 1, h);
      SeenAllKeepsInv(m, hashes, n - 1);
      SeenTracks(SeenAll(m, hashes, n - 1), hashes[n - 1], h);
      assert hashes[..n] == hashes[..n - 1] + [hashes[n - 1]];
    }
  }

  lemma MissedOthers(m: Manager, device: Device, check: Check, h: string)
    requires Inv(m) && device in m.online && device.hash != h
    ensures Track(Missed(m, device, check), h) == Track(m, h) && SameEntries(m, Missed(m, device, check), h)
  {
    OnlineHasEntry(m, device);
    CountIsLow(m, device.hash);
    WithoutKeepsOthers(m.online, device.hash, h);
    hide Inv, Lists, Without, DistinctHashes;
    var entries := MissedForms(m, device, check);
    hide Missed;
  }

  lemma MissedItself(m: Manager, device: Device, check: Check)
    requires Inv(m) && device in m.online
    ensures Track(Missed(m, device, check), device.hash) ==
      MissStep(Count(m, device.hash), Paused(m, device, check.portsOff), device.hash in check.reconnects)
  {
    hide Lists, Without, DistinctHashes, Paused, Disabling;
    OnlineHasEntry(m, device);
    CountIsLow(m, device.hash);
    TheDevice(m, device);
    Dropped(m, device.hash);
    hide Inv;
  }

  lemma Dropped(m: Manager, hash: string)
    requires Inv(m)
    ensures !Lists(Without(m.online, hash), hash)
  {
    WithoutKeepsOthers(m.online, hash, hash);
  }

  lemma MissedTracks(m: Manager, device: Device, check: Check, h: string)
    requires Inv(m) && device in m.online
    ensures Track(Missed(m, device, check), h) ==
      if device.hash == h then MissStep(Count(m, h), Paused(m, device, check.portsOff), h in check.reconnects)
      else Track(m, h)
    ensures device.hash != h ==> SameEntries(m, Missed(m, device, check), h)
  {
    hide *;
    if device.hash == h {
      MissedItself(m, device, check);
    } else {
      MissedOthers(m, device, check, h);
    }
  }

  /** Missing other devices leaves a device alone. */
  lemma {:induction false} OthersMissed(m: Manager, devices: seq<Device>, check: Check, n: nat, h: string)
    requires Inv(m) && DistinctHashes(devices) && n <= |devices| && forall d | d in devices :: d in m.online
    requires forall i | 0 <= i < n :: devices[i].hash != h
    ensures Track(MissedAll(m, devices, check, n), h) == Track(m, h)
    ensures SameEntries(m, MissedAll(m, devices, check, n), h)
  {
    hide Inv, Missed, Track;
    if n > 0 {
      OthersMissed(m, devices, check, n - 1, h);
      MissedAllKeepsInv(m, devices, check, n - 1);
      MissedTracks(MissedAll(m, devices, check, n - 1), devices[n - 1], check, h);
    }
  }

  lemma {:induction false} OneMissed(m: Manager, devices: seq<Device>, check: Check, n: nat, k: nat)
    requires Inv(m) && DistinctHashes(devices) && k < n <= |devices| && forall d | d in devices :: d in m.online
    ensures var h := devices[k].hash;
      Track(MissedAll(m, devices, check, n), h) ==
        MissStep(Count(m, h), Paused(m, devices[k], check.portsOff), h in check.reconnects)
  {
    hide Inv, Missed, MissStep;
    var before, h := MissedAll(m, devices, check, n - 1), devices[k].hash;
    MissedAllKeepsInv(m, devices, check, n - 1);
    MissedTracks(before, devices[n - 1], check, h);
    if k == n - 1 {
      OthersMissed(m, devices, check, k, h);
      OnlineHasEntry(m, devices[k]);
      TheDevice(m, devices[k]);
    } else {
      OneMissed(m, devices, check, n - 1, k);
    }
  }

  /** A device's track after the misses of a check: no other device matters. */
  lemma MissesTrack(m: Manager, check: Check, h: string)
    requires Inv(m)
    ensures Track(AfterMisses(m, check), h) ==
      if !Lists(m.online, h) then None
      else if h in check.seen then Some(0)
      else MissStep(Count(m, h), Paused(m, DeviceFor(m, h), check.portsOff), h in check.reconnects)
  {
    hide Inv, Missed, MissStep, Seen;
    var n := |check.seen|;
    var seen := SeenAll(m, check.seen, n);
    var devices := Unseen(seen.online, check.seen);
    assert check.seen[..n] == check.seen;
    SeenAllTracks(m, check.seen, n, h);
    MissesKeepInv(m, check);
    UnseenHash(m, check, h);
    if Lists(devices, h) {
      var k := IndexOf(devices, h);
      OneMissed(seen, devices, check, |devices|, k);
      TheDevice(m, devices[k]);
      OnlineHasEntry(m, devices[k]);
    } else {
      OthersMissed(seen, devices, check, |devices|, h);
    }
  }

  lemma UnseenHash(m: Manager, check: Check, h: string)
    requires Inv(m)
    ensures Lists(Unseen(m.online, check.seen), h) <==> Lists(m.online, h) && h !in check.seen
  {
    var devices := Unseen(m.online, check.seen);
    UnseenDevices(m.online, check.seen);
    if Lists(devices, h) {
      var i :| 0 <= i < |devices| && devices[i].hash == h;
      assert devices[i] in m.online;
    }
    if Lists(m.online, h) && h !in check.seen {
      var i :| 0 <= i < |m.online| && m.online[i].hash == h;
      assert m.online[i] in devices;
    }
  }

  lemma {:induction false} FoundAllTracks(m: Manager, devices: seq<Device>, n: nat, h: string)
    requires n <= |devices|
    ensures Track(FoundAll(m, devices, n), h) ==
      if exists i :: 0 <= i < n && devices[i].hash == h then Some(0) else Track(m, h)
  {
    if n > 0 {
      FoundAllTracks(m, devices, n - 1, h);
      FoundTracks(FoundAll(m, devices, n - 1), devices[n - 1], h);
    }
  }

  lemma FoundTracks(m: Manager, device: Device, h: string)
    ensures Track(Found(m, device), h) == if device.hash == h then Some(0) else Track(m, h)
  {
    var more := m.online + [device];
    assert more[|m.online|] == device;
    assert Lists(m.online, h) ==> more[IndexOf(m.online, h)].hash == h;
    assert Lists(more, h) <==> Lists(m.online, h) || device.hash == h;
  }

  /** A check asks for new devices, and this hash is among the answers. */
  predicate Reported(m: Manager, check: Check, h: string) {
    SeesNew(AfterMisses(m, check), check.seen) && Lists(check.found, h)
  }

  /** New devices are asked for exactly if some hash was seen that is not online. */
  lemma AsksIff(m: Manager, check: Check)
    requires Inv(m)
    ensures SeesNew(AfterMisses(m, check), check.seen) <==>
      exists h :: h in check.seen && forall d | d in m.online :: d.hash != h
  {
    hide Inv, AfterMisses;
    forall h | h in check.seen
      ensures Lists(AfterMisses(m, check).online, h) <==> exists d :: d in m.online && d.hash == h
    {
      MissesTrack(m, check, h);
    }
  }

  /** A whole check seen from one hash. */
  lemma CheckTracks(m: Manager, check: Check, h: string)
    requires Inv(m)
    ensures Track(Checked(m, check), h) ==
      if Reported(m, check, h) then Some(0)
      else if !Lists(m.online, h) then None
      else if h in check.seen then Some(0)
      else MissStep(Count(m, h), Paused(m, DeviceFor(m, h), check.portsOff), h in check.reconnects)
  {
    hide Inv, AfterMisses, FoundAll, MissStep;
    MissesTrack(m, check, h);
    FoundAllTracks(AfterMisses(m, check), check.found, |check.found|, h);
  }

  // Runs

  /** A check, or a change of the lab's entries by the threads that run jobs. */
  datatype Event = Monitored(check: Check) | Others(entries: map<Device, Entry>)

  /** Those threads add and remove no entries and mark none as live. */
  ghost predicate Allowed(m: Manager, event: Event) {
    event.Others? ==>
      event.entries.Keys == m.entries.Keys &&
      forall d | d in event.entries :: event.entries[d].live ==> m.entries[d].live
  }

  function Next(m: Manager, event: Event): Manager {
    if event.Monitored? then Checked(m, event.check) else m.(entries := event.entries)
  }

  function At(start: Manager, events: seq<Event>, n: nat): Manager
    requires n <= |events|
  {
    if n == 0 then start else Next(At(start, events, n - 1), events[n - 1])
  }

  /** The run starts as the constructor leaves the manager. */
  ghost predicate IsRun(start: Manager, events: seq<Event>) {
    Inv(start) && start.counts == map[] &&
    forall i | 0 <= i < |events| :: Allowed(At(start, events, i), events[i])
  }

  lemma EventKeepsInv(m: Manager, event: Event)
    requires Inv(m) && Allowed(m, event)
    ensures Inv(Next(m, event))
  {
    if event.Monitored? {
      CheckKeepsInv(m, event.check);
    }
  }

  /** In every run the stored counts are 1 or 2, and counted hashes are online and not live. */
  lemma {:induction false} RunKeepsInv(start: Manager, events: seq<Event>, n: nat)
    requires IsRun(start, events) && n <= |events|
    ensures Inv(At(start, events, n))
  {
    hide Inv, Next;
    if n > 0 {
      RunKeepsInv(start, events, n - 1);
      EventKeepsInv(At(start, events, n - 1), events[n - 1]);
    }
  }

  /** A check that sees the device or has it reported as new. */
  predicate Sights(m: Manager, event: Event, h: string) {
    event.Monitored? && (h in event.check.seen || Reported(m, event.check, h))
  }

  /** A check that misses the online device while it is neither rebooting nor switched off. */
  predicate Misses(m: Manager, event: Event, h: string) {
    event.Monitored? && Lists(m.online, h) && h !in event.check.seen &&
    !Paused(m, DeviceFor(m, h), event.check.portsOff)
  }

  /** How many of the events from i to n are misses. */
  function MissCount(start: Manager, events: seq<Event>, i: nat, n: nat, h: string): nat
    requires i <= n <= |events|
  {
    if n == i then 0
    else MissCount(start, events, i, n - 1, h) + if Misses(At(start, events, n - 1), events[n - 1], h) then 1 else 0
  }

  predicate Unsighted(start: Manager, events: seq<Event>, i: nat, n: nat, h: string)
    requires i <= n <= |events|
  {
    forall k | i <= k < n :: !Sights(At(start, events, k), events[k], h)
  }

  lemma EventTracks(m: Manager, event: Event, h: string)
    requires Inv(m) && Allowed(m, event) && !Sights(m, event, h)
    ensures Track(Next(m, event), h) ==
      if Misses(m, event, h) then MissStep(Count(m, h), false, h in event.check.reconnects) else Track(m, h)
  {
    hide Inv;
    if event.Monitored? {
      hide Checked, Paused, Reported;
      CheckTracks(m, event.check, h);
    }
  }

  /** Unsighted from a moment with no misses counted, the count is the number of misses since. */
  lemma {:induction false} CountsMisses(start: Manager, events: seq<Event>, i: nat, n: nat, h: string)
    requires IsRun(start, events) && i <= n <= |events|
    requires Track(At(start, events, i), h) == Some(0) && Unsighted(start, events, i, n, h)
    requires MissCount(start, events, i, n, h) < THRESHOLD
    ensures Track(At(start, events, n), h) == Some(MissCount(start, events, i, n, h))
  {
    hide Inv, Next, Misses, Sights;
    if n > i {
      CountsMisses(start, events, i, n - 1, h);
      RunKeepsInv(start, events, n - 1);
      EventTracks(At(start, events, n - 1), events[n - 1], h);
    }
  }

  /** Every count of an online device is such a number. */
  lemma {:induction false} CountsOnlyMisses(start: Manager, events: seq<Event>, n: nat, h: string) returns (i: nat)
    requires IsRun(start, events) && n <= |events| && Track(At(start, events, n), h).Some?
    ensures i <= n && Track(At(start, events, i), h) == Some(0) && Unsighted(start, events, i, n, h)
    ensures Track(At(start, events, n), h) == Some(MissCount(start, events, i, n, h))
  {
    hide Inv, Next, Misses, Sights, Lists, Count, IsRun;
    i := n;
    if Track(At(start, events, n), h) != Some(0) {
      StartsUncounted(start, events, h);
      RunKeepsInv(start, events, n - 1);
      AllowedAt(start, events, n - 1);
      var before := At(start, events, n - 1);
      SightedIsOnline(before, events[n - 1], h);
      EventTracks(before, events[n - 1], h);
      MissesOnline(before, events[n - 1], h);
      i := CountsOnlyMisses(start, events, n - 1, h);
    }
  }

  /** A sighting clears the count of an online device; a device that was offline starts at zero. */
  lemma SightedIsOnline(m: Manager, event: Event, h: string)
    requires Inv(m)
    ensures Sights(m, event, h) && Lists(m.online, h) ==> Track(Next(m, event), h) == Some(0)
    ensures Sights(m, event, h) ==> Track(Next(m, event), h) in {Some(0), None}
  {
    if event.Monitored? {
      hide Inv, Checked, Reported;
      CheckTracks(m, event.check, h);
    }
  }

  lemma MissesOnline(m: Manager, event: Event, h: string)
    ensures Misses(m, event, h) ==> Track(m, h) == Some(Count(m, h))
  {
  }

  lemma StartsUncounted(start: Manager, events: seq<Event>, h: string)
    requires IsRun(start, events)
    ensures Track(start, h) in {Some(0), None}
  {
  }

  lemma AllowedAt(start: Manager, events: seq<Event>, n: nat)
    requires IsRun(start, events) && n < |events|
    ensures Allowed(At(start, events, n), events[n])
  {
  }

  /** An online device is dropped by an event exactly when that event is its third miss, since
      a moment at which none was counted, without a sighting, and the reconnect fails. */
  lemma DroppedAtThirdMiss(start: Manager, events: seq<Event>, n: nat, h: string)
    requires IsRun(start, events) && n < |events| && Track(At(start, events, n), h).Some?
    ensures Track(At(start, events, n + 1), h) == None <==>
      Misses(At(start, events, n), events[n], h) && h !in events[n].check.reconnects &&
      exists i :: 0 <= i <= n && Track(At(start, events, i), h) == Some(0) &&
        Unsighted(start, events, i, n + 1, h) && MissCount(start, events, i, n + 1, h) == THRESHOLD
  {
    hide Inv, Next, Sights, Lists, Count, IsRun;
    var m, event := At(start, events, n), events[n];
    InRun(start, events, n, h);
    SightedIsOnline(m, event, h);
    if Track(Next(m, event), h) == None {
      EventTracks(m, event, h);
      var i := CountsOnlyMisses(start, events, n, h);
      assert Unsighted(start, events, i, n + 1, h) && MissCount(start, events, i, n + 1, h) == THRESHOLD;
    } else if Misses(m, event, h) && h !in event.check.reconnects {
      forall i | 0 <= i <= n && Track(At(start, events, i), h) == Some(0) && Unsighted(start, events, i, n + 1, h)
        ensures MissCount(start, events, i, n + 1, h) != THRESHOLD
      {
        assert !Sights(m, event, h) by {
          assert !Sights(At(start, events, n), events[n], h);
        }
        EventTracks(m, event, h);
        if MissCount(start, events, i, n, h) < THRESHOLD {
          CountsMisses(start, events, i, n, h);
        }
      }
    }
  }

  lemma InRun(start: Manager, events: seq<Event>, n: nat, h: string)
    requires IsRun(start, events) && n < |events|
    ensures Inv(At(start, events, n)) && Allowed(At(start, events, n), events[n])
    ensures Count(At(start, events, n), h) < THRESHOLD
    ensures Track(At(start, events, n), h).Some? ==>
      Lists(At(start, events, n).online, h) && Track(At(start, events, n), h) == Some(Count(At(start, events, n), h))
  {
    RunKeepsInv(start, events, n);
  }

  // What becomes of a device's entry

  lemma SeenEntry(m: Manager, h0: string, d: Device)
    requires Inv(m) && d in m.online
    ensures d in m.entries && d in Seen(m, h0).entries
    ensures Seen(m, h0).entries[d] == if d.hash == h0 && h0 in m.counts then FRESH else m.entries[d]
    ensures d.hash in Seen(m, h0).counts <==> d.hash in m.counts && d.hash != h0
  {
    TheDevice(m, d);
  }

  lemma {:induction false} SeenAllEntry(m: Manager, hashes: seq<string>, n: nat, d: Device)
    requires Inv(m) && d in m.online && n <= |hashes|
    ensures d in m.entries && d in SeenAll(m, hashes, n).entries
    ensures SeenAll(m, hashes, n).entries[d] ==
      if d.hash in hashes[..n] && d.hash in m.counts then FRESH else m.entries[d]
    ensures d.hash in SeenAll(m, hashes, n).counts <==> d.hash in m.counts && d.hash !in hashes[..n]
  {
    hide Inv, Seen;
    OnlineHasEntry(m, d);
    if n > 0 {
      SeenAllEntry(m, hashes, n - 1, d);
      SeenAllKeepsInv(m, hashes, n - 1);
      SeenEntry(SeenAll(m, hashes, n - 1), hashes[n - 1], d);
      assert hashes[..n] == hashes[..n - 1] + [hashes[n - 1]];
    }
  }

  lemma MissedEntry(m: Manager, device: Device, check: Check)
    requires Inv(m) && device in m.online
    ensures device in m.entries && device in Missed(m, device, check).entries
    ensures Missed(m, device, check).entries[device] ==
      if Paused(m, device, check.portsOff) || Count(m, device.hash) > 0 then m.entries[device]
      else Disabled(m.entries[device])
  {
  }

  lemma {:induction false} OneMissedEntry(m: Manager, devices: seq<Device>, check: Check, n: nat, k: nat)
    requires Inv(m) && DistinctHashes(devices) && k < n <= |devices| && forall d | d in devices :: d in m.online
    ensures var d := devices[k];
      d in m.entries && d in MissedAll(m, devices, check, n).entries &&
      MissedAll(m, devices, check, n).entries[d] ==
        if Paused(m, d, check.portsOff) || Count(m, d.hash) > 0 then m.entries[d] else Disabled(m.entries[d])
  {
    hide Inv, Missed;
    var before, d := MissedAll(m, devices, check, n - 1), devices[k];
    MissedAllKeepsInv(m, devices, check, n - 1);
    OnlineHasEntry(m, d);
    if k == n - 1 {
      OthersMissed(m, devices, check, k, d.hash);
      TheDevice(m, d);
      MissedEntry(before, d, check);
    } else {
      OneMissedEntry(m, devices, check, n - 1, k);
      MissedTracks(before, devices[n - 1], check, d.hash);
    }
  }

  /** A sighting gives a counted device a fresh entry; a miss disables a device on which none was
      counted; all else leaves the entry. */
  function EntryAfter(m: Manager, check: Check, d: Device): Entry
    requires d in m.entries
  {
    var counted := Count(m, d.hash) > 0;
    if d.hash in check.seen then (if counted then Entry(true, true, false) else m.entries[d])
    else if counted || m.entries[d].rebooting || d.hash in check.portsOff then m.entries[d]
    else Entry(false, false, m.entries[d].rebooting)
  }

  lemma MissesEntry(m: Manager, check: Check, d: Device)
    requires Inv(m) && d in m.online
    ensures d in m.entries && d in AfterMisses(m, check).entries
    ensures AfterMisses(m, check).entries[d] == EntryAfter(m, check, d)
  {
    hide Inv, Missed, Seen, Unseen;
    var n := |check.seen|;
    var seen := SeenAll(m, check.seen, n);
    var devices := Unseen(seen.online, check.seen);
    assert check.seen[..n] == check.seen;
    SeenAllEntry(m, check.seen, n, d);
    SeenAllTracks(m, check.seen, n, d.hash);
    MissesKeepInv(m, check);
    UnseenHash(m, check, d.hash);
    InUnseen(m, check, d);
    CountedIsPositive(m, d.hash);
    if d.hash in check.seen {
      OthersMissed(seen, devices, check, |devices|, d.hash);
    } else {
      var k :| 0 <= k < |devices| && devices[k] == d;
      OneMissedEntry(seen, devices, check, |devices|, k);
    }
  }

  lemma CountedIsPositive(m: Manager, h: string)
    requires Inv(m)
    ensures h in m.counts <==> Count(m, h) > 0
    ensures forall d | d in m.online && d.hash == h && Count(m, h) > 0 :: d in m.entries && !m.entries[d].live
  {
  }

  lemma InUnseen(m: Manager, check: Check, d: Device)
    requires Inv(m) && d in m.online
    ensures d in Unseen(m.online, check.seen) <==> d.hash !in check.seen
    ensures Lists(m.online, d.hash)
  {
    UnseenDevices(m.online, check.seen);
  }

  lemma {:induction false} FoundAllEntry(m: Manager, devices: seq<Device>, n: nat, d: Device)
    requires n <= |devices| && d in m.entries && forall i | 0 <= i < n :: devices[i].hash != d.hash
    ensures d in FoundAll(m, devices, n).entries && FoundAll(m, devices, n).entries[d] == m.entries[d]
    ensures d in m.online ==> d in FoundAll(m, devices, n).online
  {
    if n > 0 {
      FoundAllEntry(m, devices, n - 1, d);
    }
  }

  lemma {:induction false} FoundAllFresh(m: Manager, devices: seq<Device>, n: nat, i: nat)
    requires i < n <= |devices|
    ensures var after := FoundAll(m, devices, n);
      devices[i] in after.entries && after.entries[devices[i]] == Entry(true, true, false)
  {
    if i < n - 1 {
      FoundAllFresh(m, devices, n - 1, i);
    }
  }

  /** A device that is reported when new ones are asked for is online, uncounted, available and live. */
  lemma ReportedIsFresh(m: Manager, check: Check, d: Device)
    requires Inv(m) && SeesNew(AfterMisses(m, check), check.seen) && d in check.found
    ensures Track(Checked(m, check), d.hash) == Some(0)
    ensures d in Checked(m, check).entries && Checked(m, check).entries[d] == Entry(true, true, false)
  {
    hide Inv, AfterMisses, SeesNew, FoundAll;
    var i :| 0 <= i < |check.found| && check.found[i] == d;
    assert Lists(check.found, d.hash);
    CheckTracks(m, check, d.hash);
    FoundAllFresh(AfterMisses(m, check), check.found, |check.found|, i);
  }

  /** What a check that does not report an online device as new does to its entry. */
  lemma CheckEntry(m: Manager, check: Check, d: Device)
    requires Inv(m) && d in m.online && !Reported(m, check, d.hash)
    ensures d in m.entries && d in Checked(m, check).entries
    ensures Checked(m, check).entries[d] == EntryAfter(m, check, d)
    ensures d in AfterMisses(m, check).online ==> d in Checked(m, check).online
  {
    hide Inv, AfterMisses, Paused, EntryAfter;
    MissesEntry(m, check, d);
    var after := AfterMisses(m, check);
    if SeesNew(after, check.seen) {
      FoundAllEntry(after, check.found, |check.found|, d);
    }
  }

  /** Online and uncounted, but marked as not live. */
  predicate Stranded(m: Manager, d: Device) {
    d in m.online && d.hash !in m.counts && d in m.entries && !m.entries[d].live
  }

  lemma StillOnline(m: Manager, check: Check, d: Device)
    requires Inv(m) && d in m.online
    ensures Lists(AfterMisses(m, check).online, d.hash) ==> d in AfterMisses(m, check).online
  {
    var n := |check.seen|;
    var seen := SeenAll(m, check.seen, n);
    var devices := Unseen(seen.online, check.seen);
    MissesKeepInv(m, check);
    OnlyOnline(seen, devices, check, |devices|);
    var after := AfterMisses(m, check);
    if i :| 0 <= i < |after.online| && after.online[i].hash == d.hash {
      SameHash(m.online, after.online[i], d);
    }
  }

  lemma {:induction false} OnlyOnline(m: Manager, devices: seq<Device>, check: Check, n: nat)
    requires Inv(m) && DistinctHashes(devices) && n <= |devices| && forall d | d in devices :: d in m.online
    ensures forall d | d in MissedAll(m, devices, check, n).online :: d in m.online
  {
    hide Inv;
    if n > 0 {
      OnlyOnline(m, devices, check, n - 1);
      MissedAllKeepsInv(m, devices, check, n - 1);
      OnlyFewer(MissedAll(m, devices, check, n - 1), devices[n - 1], check);
    }
  }

  lemma OnlyFewer(m: Manager, device: Device, check: Check)
    requires Inv(m)
    ensures forall d | d in Missed(m, device, check).online :: d in m.online
  {
    WithoutKeepsOthers(m.online, device.hash, device.hash);
  }

  /** A third miss whose reconnect succeeds strands the device: it stays marked as not live, and
      as unavailable if it was. */
  lemma ReconnectStrands(m: Manager, check: Check, d: Device)
    requires Inv(m) && d in m.online && Track(m, d.hash) == Some(2)
    requires Misses(m, Monitored(check), d.hash) && d.hash in check.reconnects && !Reported(m, check, d.hash)
    ensures Stranded(Checked(m, check), d)
    ensures d in m.entries && Checked(m, check).entries[d] == m.entries[d]
  {
    hide Inv, AfterMisses, Checked, Reported;
    TheDevice(m, d);
    CheckTracks(m, check, d.hash);
    MissesTrack(m, check, d.hash);
    StillOnline(m, check, d);
    CheckEntry(m, check, d);
    CountedIsPositive(m, d.hash);
    CheckKeepsInv(m, check);
    Uncounted(Checked(m, check), d);
  }

  lemma Uncounted(m: Manager, d: Device)
    requires Inv(m) && Track(m, d.hash) == Some(0)
    ensures d.hash !in m.counts
  {
  }

  /** Unless it is reported as new, a check strands an online device exactly when this is its third
      miss and the reconnect succeeds. */
  lemma StrandsIff(m: Manager, check: Check, d: Device)
    requires Inv(m) && d in m.online && !Stranded(m, d) && !Reported(m, check, d.hash)
    ensures Stranded(Checked(m, check), d) <==>
      Track(m, d.hash) == Some(2) && Misses(m, Monitored(check), d.hash) && d.hash in check.reconnects
  {
    hide Inv, AfterMisses, Checked, Reported;
    TheDevice(m, d);
    CheckTracks(m, check, d.hash);
    CheckEntry(m, check, d);
    CountedIsPositive(m, d.hash);
    CheckKeepsInv(m, check);
    CountedIsPositive(Checked(m, check), d.hash);
    TrackOnline(m, d);
    if Track(m, d.hash) == Some(2) && Misses(m, Monitored(check), d.hash) && d.hash in check.reconnects {
      ReconnectStrands(m, check, d);
    } else {
      TrackOnline(Checked(m, check), d);
    }
  }

  lemma TrackOnline(m: Manager, d: Device)
    requires Inv(m)
    ensures d in m.online ==> Track(m, d.hash) == Some(Count(m, d.hash)) && Count(m, d.hash) < THRESHOLD
  {
  }

  /** No other thread makes the device available. */
  predicate NotFreed(event: Event, d: Device) {
    event.Others? && d in event.entries ==> !event.entries[d].available
  }

  /** A stranded device stays so as long as every check sees it: being seen enables it no more. It
      gets no job either unless another thread makes it available. */
  lemma {:induction false} StaysStranded(start: Manager, events: seq<Event>, i: nat, n: nat, d: Device)
    requires IsRun(start, events) && i <= n <= |events| && Stranded(At(start, events, i), d)
    requires forall k | i <= k < n && events[k].Monitored? ::
      d.hash in events[k].check.seen && !Reported(At(start, events, k), events[k].check, d.hash)
    ensures Stranded(At(start, events, n), d)
    ensures !At(start, events, i).entries[d].available && (forall k | i <= k < n :: NotFreed(events[k], d)) ==>
      !At(start, events, n).entries[d].available
  {
    hide Inv, Checked, Reported, Next, Allowed, NotFreed;
    if n > i {
      StaysStranded(start, events, i, n - 1, d);
      RunKeepsInv(start, events, n - 1);
      NextStranded(At(start, events, n - 1), events[n - 1], d);
    }
  }

  lemma NextStranded(m: Manager, event: Event, d: Device)
    requires Inv(m) && Allowed(m, event) && Stranded(m, d)
    requires event.Monitored? ==> d.hash in event.check.seen && !Reported(m, event.check, d.hash)
    ensures Stranded(Next(m, event), d)
    ensures !m.entries[d].available && NotFreed(event, d) ==> !Next(m, event).entries[d].available
  {
    if event.Monitored? {
      SeenStaysStranded(m, event.check, d);
    }
  }

  lemma SeenStaysStranded(m: Manager, check: Check, d: Device)
    requires Inv(m) && Stranded(m, d) && d.hash in check.seen && !Reported(m, check, d.hash)
    ensures Stranded(Checked(m, check), d) && Checked(m, check).entries[d] == m.entries[d]
  {
    hide Inv, AfterMisses, Checked, Reported;
    TheDevice(m, d);
    CheckTracks(m, check, d.hash);
    MissesTrack(m, check, d.hash);
    StillOnline(m, check, d);
    CheckEntry(m, check, d);
    CountedIsPositive(m, d.hash);
    CheckKeepsInv(m, check);
    Uncounted(Checked(m, check), d);
  }

  /** Unless it is reported as new, a stranded device stays so through a check exactly when it is
      seen, or missed while it is rebooting or switched off: only another disconnect helps. */
  lemma StrandedIff(m: Manager, check: Check, d: Device)
    requires Inv(m) && Stranded(m, d) && !Reported(m, check, d.hash)
    ensures Stranded(Checked(m, check), d) <==> d.hash in check.seen || Paused(m, d, check.portsOff)
  {
    hide Inv, AfterMisses, Checked, Reported, Paused;
    TheDevice(m, d);
    CheckTracks(m, check, d.hash);
    MissesTrack(m, check, d.hash);
    StillOnline(m, check, d);
    CheckEntry(m, check, d);
    CountedIsPositive(m, d.hash);
    CheckKeepsInv(m, check);
    if d.hash in check.seen || Paused(m, d, check.portsOff) {
      Uncounted(Checked(m, check), d);
    } else {
      CountedIsPositive(Checked(m, check), d.hash);
    }
  }

  // How a device gets there

  /** A check that sees nothing. */
  function Blind(reconnects: set<string>): Check {
    Check([], {}, reconnects, [])
  }

  /** A miss of a device that is not rebooting counts it and leaves it disabled. */
  lemma MissCounts(m: Manager, d: Device, count: nat)
    requires Inv(m) && d in m.online && Track(m, d.hash) == Some(count) && count < 2
    requires d in m.entries && !m.entries[d].rebooting && (count > 0 ==> m.entries[d] == Disabled(FRESH))
    requires count == 0 ==> m.entries[d] == FRESH
    ensures var m' := Checked(m, Blind({}));
      Inv(m') && d in m'.online && Track(m', d.hash) == Some(count + 1) &&
      d in m'.entries && m'.entries[d] == Disabled(FRESH)
  {
    hide Inv, AfterMisses, Checked;
    TheDevice(m, d);
    CheckTracks(m, Blind({}), d.hash);
    MissesTrack(m, Blind({}), d.hash);
    StillOnline(m, Blind({}), d);
    CheckEntry(m, Blind({}), d);
    CheckKeepsInv(m, Blind({}));
  }

  lemma Third(m: Manager, d: Device)
    requires Inv(m) && d in m.online && Track(m, d.hash) == Some(2) && d in m.entries && !m.entries[d].rebooting
    ensures Stranded(Checked(m, Blind({d.hash})), d) && Checked(m, Blind({d.hash})).entries[d] == m.entries[d]
  {
    TheDevice(m, d);
    ReconnectStrands(m, Blind({d.hash}), d);
  }

  lemma OneDevice(d: Device)
    ensures var start := Manager([d], map[d := FRESH], map[]);
      Inv(start) && d in start.online && Track(start, d.hash) == Some(0)
  {
    assert [d][0].hash == d.hash;
  }

  lemma AtNext(start: Manager, events: seq<Event>, n: nat)
    requires n < |events|
    ensures At(start, events, 0) == start && At(start, events, n + 1) == Next(At(start, events, n), events[n])
  {
  }

  /** From the start: two misses, and a third whose reconnect succeeds, leave the device online
      and uncounted, but neither live nor available. */
  lemma StrandingHappens(d: Device) returns (start: Manager, events: seq<Event>)
    ensures start == Manager([d], map[d := FRESH], map[]) && |events| == 3 && IsRun(start, events)
    ensures Stranded(At(start, events, 3), d) && !At(start, events, 3).entries[d].available
  {
    hide Checked, At, Inv, Track;
    start := Manager([d], map[d := FRESH], map[]);
    events := [Monitored(Blind({})), Monitored(Blind({})), Monitored(Blind({d.hash}))];
    OneDevice(d);
    var one := Checked(start, Blind({}));
    MissCounts(start, d, 0);
    MissCounts(one, d, 1);
    Third(Checked(one, Blind({})), d);
    AtNext(start, events, 0);
    AtNext(start, events, 1);
    AtNext(start, events, 2);
  }
}
