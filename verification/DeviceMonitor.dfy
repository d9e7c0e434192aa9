/** The monitor that counts device disconnects (benchmarking/platforms/device_manager.py).

    A check is one atomic step. Between checks other threads may change the lab's device
    entries, but nothing besides a check ever marks one as live. */
module DeviceMonitor {

  datatype Device = Device(kind: string, hash: string)

  datatype Entry = Entry(available: bool, live: bool, rebooting: bool)

  const FRESH := Entry(true, true, false)
  const THRESHOLD: nat := 3

  /** `online_devices`, `lab_devices` and `device_dc_count`. */
  datatype Manager = Manager(online: seq<Device>, entries: map<Device, Entry>, counts: map<string, nat>)

  /** What a check meets: the hashes seen, those whose USB port is switched off, those that a
      reconnect would bring back, and the devices reported for newly seen hashes. */
  datatype Check = Check(seen: seq<string>, portsOff: set<string>, reconnects: set<string>, found: seq<Device>)

  // Lists of devices with distinct hashes

  predicate Lists(devices: seq<Device>, hash: string) {
    exists i :: 0 <= i < |devices| && devices[i].hash == hash
  }

  predicate DistinctHashes(devices: seq<Device>) {
    forall i, j | 0 <= i < j < |devices| :: devices[i].hash != devices[j].hash
  }

  /** The first device with a hash, or the length. */
  function IndexOf(devices: seq<Device>, hash: string): (i: nat)
    ensures i <= |devices| && (i < |devices| <==> Lists(devices, hash))
    ensures i < |devices| ==> devices[i].hash == hash
  {
    if devices == [] then 0
    else if devices[0].hash == hash then 0
    else
      assert forall k | 0 < k < |devices| :: devices[k] == devices[1..][k - 1];
      1 + IndexOf(devices[1..], hash)
  }

  /** `list.remove` of the first device with a hash. */
  function Without(devices: seq<Device>, hash: string): seq<Device> {
    var i := IndexOf(devices, hash);
    if i == |devices| then devices else devices[..i] + devices[i + 1..]
  }

  lemma OneTakenOut(devices: seq<Device>, i: nat, rest: seq<Device>)
    requires DistinctHashes(devices) && i < |devices| && rest == devices[..i] + devices[i + 1..]
    ensures DistinctHashes(rest)
    ensures forall d :: d in rest <==> d in devices && d.hash != devices[i].hash
  {
    assert forall k | 0 <= k < |rest| :: rest[k] == devices[if k < i then k else k + 1];
    forall k | 0 <= k < |devices| && k != i ensures devices[k] in rest {
      assert rest[if k < i then k else k - 1] == devices[k];
    }
  }

  lemma ListsIff(devices: seq<Device>, hash: string)
    ensures Lists(devices, hash) <==> exists d :: d in devices && d.hash == hash
  {
  }

  lemma WithoutKeepsOthers(devices: seq<Device>, hash: string, other: string)
    requires DistinctHashes(devices)
    ensures DistinctHashes(Without(devices, hash))
    ensures Lists(Without(devices, hash), other) <==> Lists(devices, other) && other != hash
    ensures forall d | d in Without(devices, hash) :: d in devices
    ensures forall d | d in devices && d.hash != hash :: d in Without(devices, hash)
  {
    hide DistinctHashes, Lists;
    var i, rest := IndexOf(devices, hash), Without(devices, hash);
    ListsIff(devices, hash);
    ListsIff(devices, other);
    ListsIff(rest, other);
    if i < |devices| {
      OneTakenOut(devices, i, rest);
    }
  }

  // The steps of a check

  /** A counted device is seen again. */
  function Seen(m: Manager, hash: string): Manager {
    var i := IndexOf(m.online, hash);
    if hash in m.counts && i < |m.online| then
      m.(counts := m.counts - {hash}, entries := m.entries[m.online[i] := FRESH])
    else m
  }

  function SeenAll(m: Manager, hashes: seq<string>, n: nat): Manager
    requires n <= |hashes|
  {
    if n == 0 then m else Seen(SeenAll(m, hashes, n - 1), hashes[n - 1])
  }

  predicate Paused(m: Manager, device: Device, portsOff: set<string>) {
    (device in m.entries && m.entries[device].rebooting) || device.hash in portsOff
  }

  function Count(m: Manager, hash: string): nat {
    if hash in m.counts then m.counts[hash] else 0
  }

  /** `_disableDevice` */
  function Disabled(entry: Entry): Entry {
    entry.(available := false, live := false)
  }

  function Disabling(m: Manager, device: Device): map<Device, Entry>
    requires device in m.entries
  {
    m.entries[device := Disabled(m.entries[device])]
  }

  /** An online device is missed. */
  function Missed(m: Manager, device: Device, check: Check): Manager {
    var hash := device.hash;
    if device !in m.entries || Paused(m, device, check.portsOff) then m
    else
      var count := Count(m, hash) + 1;
      var entries := if hash in m.counts then m.entries else Disabling(m, device);
      if count < THRESHOLD then m.(entries := entries, counts := m.counts[hash := count])
      else if count == THRESHOLD then
        Manager(if hash in check.reconnects then m.online else Without(m.online, hash), entries, m.counts - {hash})
      else m.(entries := entries, counts := m.counts[hash := count])
  }

  function MissedAll(m: Manager, devices: seq<Device>, check: Check, n: nat): Manager
    requires n <= |devices|
  {
    if n == 0 then m else Missed(MissedAll(m, devices, check, n - 1), devices[n - 1], check)
  }

  /** The online devices that are not among the hashes seen, in order. */
  function Unseen(online: seq<Device>, hashes: seq<string>): seq<Device> {
    if online == [] then []
    else (if online[0].hash in hashes then [] else [online[0]]) + Unseen(online[1..], hashes)
  }

  /** `_handleDCDevices` */
  function AfterMisses(m: Manager, check: Check): Manager {
    var seen := SeenAll(m, check.seen, |check.seen|);
    var devices := Unseen(seen.online, check.seen);
    MissedAll(seen, devices, check, |devices|)
  }

  /** A device reported for the newly seen hashes. */
  function Found(m: Manager, device: Device): Manager {
    Manager(if Lists(m.online, device.hash) then m.online else m.online + [device],
            m.entries[device := FRESH], m.counts - {device.hash})
  }

  function FoundAll(m: Manager, devices: seq<Device>, n: nat): Manager
    requires n <= |devices|
  {
    if n == 0 then m else Found(FoundAll(m, devices, n - 1), devices[n - 1])
  }

  /** Some hash seen is not online. */
  predicate SeesNew(m: Manager, hashes: seq<string>) {
    exists h :: h in hashes && !Lists(m.online, h)
  }

  /** `_handleNewDevices` */
  function AfterNew(m: Manager, check: Check): Manager {
    if SeesNew(m, check.seen) then FoundAll(m, check.found, |check.found|) else m
  }

  /** `_checkDevices` */
  function Checked(m: Manager, check: Check): Manager {
    AfterNew(AfterMisses(m, check), check)
  }

  // The invariant

  ghost predicate Inv(m: Manager) {
    DistinctHashes(m.online) &&
    (forall d | d in m.online :: d in m.entries) &&
    (forall h | h in m.counts :: Lists(m.online, h) && 1 <= m.counts[h] < THRESHOLD) &&
    (forall d | d in m.online && d.hash in m.counts :: !m.entries[d].live)
  }

  lemma SameHash(online: seq<Device>, d: Device, e: Device)
    requires DistinctHashes(online) && d in online && e in online && d.hash == e.hash
    ensures d == e
  {
  }

  lemma SeenKeepsInv(m: Manager, hash: string)
    requires Inv(m)
    ensures Inv(Seen(m, hash)) && Seen(m, hash).online == m.online
  {
  }

  /** Disabling a device and counting it. */
  lemma CountingKeepsInv(m: Manager, device: Device, entries: map<Device, Entry>, count: nat)
    requires Inv(m) && device in m.online && 1 <= count < THRESHOLD
    requires entries == m.entries || entries == Disabling(m, device)
    requires device.hash in m.counts || entries != m.entries || !m.entries[device].live
    ensures Inv(m.(entries := entries, counts := m.counts[device.hash := count]))
  {
    forall d | d in m.online && d.hash == device.hash ensures !entries[d].live {
      SameHash(m.online, d, device);
    }
  }

  lemma ForgettingKeepsInv(m: Manager, device: Device, entries: map<Device, Entry>)
    requires Inv(m) && device in m.online
    requires entries == m.entries || entries == Disabling(m, device)
    ensures Inv(Manager(m.online, entries, m.counts - {device.hash}))
    ensures Inv(Manager(Without(m.online, device.hash), entries, m.counts - {device.hash}))
  {
    WithoutKeepsOthers(m.online, device.hash, device.hash);
    forall h | h in m.counts && h != device.hash ensures Lists(Without(m.online, device.hash), h) {
      WithoutKeepsOthers(m.online, device.hash, h);
    }
  }

  lemma OnlineHasEntry(m: Manager, device: Device)
    requires Inv(m) && device in m.online
    ensures device in m.entries
  {
  }

  lemma CountIsLow(m: Manager, hash: string)
    requires Inv(m)
    ensures Count(m, hash) < THRESHOLD
  {
  }

  /** Nothing happens; or the device is counted; or it is forgotten, and dropped or not. */
  lemma MissedForms(m: Manager, device: Device, check: Check) returns (entries: map<Device, Entry>)
    requires device in m.entries && Count(m, device.hash) < THRESHOLD
    ensures entries == if device.hash in m.counts then m.entries else Disabling(m, device)
    ensures var (m', hash, count) := (Missed(m, device, check), device.hash, Count(m, device.hash) + 1);
      m' == m || (count < THRESHOLD && m' == m.(entries := entries, counts := m.counts[hash := count])) ||
      m' == Manager(m.online, entries, m.counts - {hash}) ||
      m' == Manager(Without(m.online, hash), entries, m.counts - {hash})
  {
    hide Without, Paused;
    entries := if device.hash in m.counts then m.entries else Disabling(m, device);
  }

  lemma DisabledIsNotLive(m: Manager, device: Device)
    requires device in m.entries
    ensures Disabling(m, device) != m.entries || !m.entries[device].live
  {
    assert !Disabling(m, device)[device].live;
  }

  lemma OthersStay(m: Manager, hash: string)
    requires Inv(m)
    ensures forall d | d in m.online && d.hash != hash :: d in Without(m.online, hash)
  {
    WithoutKeepsOthers(m.online, hash, hash);
  }

  lemma MissedKeepsInv(m: Manager, device: Device, check: Check)
    requires Inv(m) && device in m.online
    ensures Inv(Missed(m, device, check))
    ensures forall d | d in m.online && d.hash != device.hash :: d in Missed(m, device, check).online
  {
    hide Inv, Without, Missed, Disabling;
    OnlineHasEntry(m, device);
    CountIsLow(m, device.hash);
    OthersStay(m, device.hash);
    var entries := MissedForms(m, device, check);
    DisabledIsNotLive(m, device);
    ForgettingKeepsInv(m, device, entries);
    if Count(m, device.hash) + 1 < THRESHOLD {
      CountingKeepsInv(m, device, entries, Count(m, device.hash) + 1);
    }
  }

  lemma FoundKeepsInv(m: Manager, device: Device)
    requires Inv(m)
    ensures Inv(Found(m, device))
  {
    var m' := Found(m, device);
    forall h | h in m'.counts ensures Lists(m'.online, h) {
      var i :| 0 <= i < |m.online| && m.online[i].hash == h;
      assert m'.online[i] == m.online[i];
    }
  }

  lemma {:induction false} SeenAllKeepsInv(m: Manager, hashes: seq<string>, n: nat)
    requires Inv(m) && n <= |hashes|
    ensures Inv(SeenAll(m, hashes, n)) && SeenAll(m, hashes, n).online == m.online
  {
    hide Inv, Seen;
    if n > 0 {
      SeenAllKeepsInv(m, hashes, n - 1);
      SeenKeepsInv(SeenAll(m, hashes, n - 1), hashes[n - 1]);
    }
  }

  lemma {:induction false} UnseenDevices(online: seq<Device>, hashes: seq<string>)
    requires DistinctHashes(online)
    ensures DistinctHashes(Unseen(online, hashes))
    ensures forall d :: d in Unseen(online, hashes) <==> d in online && d.hash !in hashes
  {
    if online != [] {
      UnseenDevices(online[1..], hashes);
      var rest := Unseen(online[1..], hashes);
      assert online == [online[0]] + online[1..];
      forall j | 0 <= j < |rest| ensures rest[j].hash != online[0].hash {
        assert rest[j] in online[1..];
      }
    }
  }

  /** The devices still to be missed stay online until it is their turn. */
  lemma {:induction false} MissedAllKeepsInv(m: Manager, devices: seq<Device>, check: Check, n: nat)
    requires Inv(m) && DistinctHashes(devices) && n <= |devices| && forall d | d in devices :: d in m.online
    ensures Inv(MissedAll(m, devices, check, n))
    ensures forall i | n <= i < |devices| :: devices[i] in MissedAll(m, devices, check, n).online
  {
    hide Inv, Missed;
    if n > 0 {
      MissedAllKeepsInv(m, devices, check, n - 1);
      MissedKeepsInv(MissedAll(m, devices, check, n - 1), devices[n - 1], check);
    }
  }

  lemma {:induction false} FoundAllKeepsInv(m: Manager, devices: seq<Device>, n: nat)
    requires Inv(m) && n <= |devices|
    ensures Inv(FoundAll(m, devices, n))
  {
    hide Inv, Found;
    if n > 0 {
      FoundAllKeepsInv(m, devices, n - 1);
      FoundKeepsInv(FoundAll(m, devices, n - 1), devices[n - 1]);
    }
  }

  lemma MissesKeepInv(m: Manager, check: Check)
    requires Inv(m)
    ensures Inv(AfterMisses(m, check))
    ensures var seen := SeenAll(m, check.seen, |check.seen|); var devices := Unseen(seen.online, check.seen);
      seen.online == m.online && Inv(seen) && DistinctHashes(devices) && forall d | d in devices :: d in seen.online
  {
    SeenAllKeepsInv(m, check.seen, |check.seen|);
    UnseenDevices(m.online, check.seen);
    var seen := SeenAll(m, check.seen, |check.seen|);
    var devices := Unseen(seen.online, check.seen);
    MissedAllKeepsInv(seen, devices, check, |devices|);
  }

  lemma CheckKeepsInv(m: Manager, check: Check)
    requires Inv(m)
    ensures Inv(Checked(m, check))
  {
    hide Inv, AfterMisses, FoundAll;
    MissesKeepInv(m, check);
    FoundAllKeepsInv(AfterMisses(m, check), check.found, |check.found|);
  }

  // The monitor itself

  class DeviceManager {
    var onlineDevices: seq<Device>
    var labDevices: map<Device, Entry>
    var deviceDcCount: map<string, nat>

    function Now(): Manager
      reads this
    {
      Manager(onlineDevices, labDevices, deviceDcCount)
    }

    /** `_initializeDevices`; the invariant holds if the devices found have distinct hashes. */
    constructor (devices: seq<Device>)
      ensures onlineDevices == devices && deviceDcCount == map[]
      ensures labDevices == map d | d in devices :: Entry(true, true, false)
      ensures Inv(Now()) <==> DistinctHashes(devices)
    {
      onlineDevices := devices;
      labDevices := map d | d in devices :: FRESH;
      deviceDcCount := map[];
    }

    method DisableDevice(device: Device)
      requires device in labDevices
      modifies `labDevices
      ensures labDevices == Disabling(old(Now()), device)
    {
      labDevices := labDevices[device := labDevices[device].(available := false, live := false)];
    }

    method EnableDevice(device: Device)
      modifies `labDevices
      ensures labDevices == old(labDevices)[device := FRESH]
    {
      labDevices := labDevices[device := FRESH];
    }

    /** The lookup `[0]` among the online devices finds every counted hash. */
    method SeeOne(h: string)
      requires Inv(Now())
      modifies this
      ensures Now() == Seen(old(Now()), h)
    {
      if h in deviceDcCount {
        CountedIsOnline(Now(), h);
        var device := onlineDevices[IndexOf(onlineDevices, h)];
        deviceDcCount := deviceDcCount - {h};
        EnableDevice(device);
      }
    }

    method HandleDCDevices(check: Check)
      requires Inv(Now())
      modifies this
      ensures Now() == AfterMisses(old(Now()), check) && Inv(Now())
    {
      hide Inv, Seen, Missed, Unseen, DistinctHashes;
      MissesKeepInv(Now(), check);
      for i := 0 to |check.seen|
        invariant Now() == SeenAll(old(Now()), check.seen, i) && Inv(Now())
      {
        SeenKeepsInv(Now(), check.seen[i]);
        SeeOne(check.seen[i]);
      }
      ghost var seen := Now();
      var dcDevices := Unseen(onlineDevices, check.seen);
      for i := 0 to |dcDevices|
        invariant Now() == MissedAll(seen, dcDevices, check, i) && Inv(Now())
        invariant forall k | i <= k < |dcDevices| :: dcDevices[k] in onlineDevices
      {
        MissedKeepsInv(Now(), dcDevices[i], check);
        OnlineHasEntry(Now(), dcDevices[i]);
        MissOne(dcDevices[i], check);
      }
    }

    method MissOne(device: Device, check: Check)
      requires device in labDevices
      modifies this
      ensures Now() == Missed(old(Now()), device, check)
    {
      var hash := device.hash;
      var labDevice := labDevices[device];
      var usbDisabled := hash in check.portsOff;
      if !labDevice.rebooting && !usbDisabled {
        if hash !in deviceDcCount {
          DisableDevice(device);
          deviceDcCount := deviceDcCount[hash := 0];
        }
        deviceDcCount := deviceDcCount[hash := deviceDcCount[hash] + 1];
        if deviceDcCount[hash] == THRESHOLD {
          if hash !in check.reconnects {
            onlineDevices := Without(onlineDevices, hash);
          }
          deviceDcCount := deviceDcCount - {hash};
        }
      }
    }

    method HandleNewDevices(check: Check)
      requires Inv(Now())
      modifies this
      ensures Now() == AfterNew(old(Now()), check) && Inv(Now())
    {
      hide Inv, Found, SeesNew, Lists;
      if SeesNew(Now(), check.seen) {
        for i := 0 to |check.found|
          invariant Now() == FoundAll(old(Now()), check.found, i) && Inv(Now())
        {
          FoundKeepsInv(Now(), check.found[i]);
          FindOne(check.found[i]);
        }
      }
    }

    method FindOne(d: Device)
      modifies this
      ensures Now() == Found(old(Now()), d)
    {
      EnableDevice(d);
      if !Lists(onlineDevices, d.hash) {
        onlineDevices := onlineDevices + [d];
      }
      deviceDcCount := deviceDcCount - {d.hash};
    }

    method CheckDevices(check: Check)
      requires Inv(Now())
      modifies this
      ensures Now() == Checked(old(Now()), check) && Inv(Now())
    {
      HandleDCDevices(check);
      HandleNewDevices(check);
    }
  }

  lemma CountedIsOnline(m: Manager, h: string)
    requires Inv(m) && h in m.counts
    ensures IndexOf(m.online, h) < |m.online|
  {
  }
}
