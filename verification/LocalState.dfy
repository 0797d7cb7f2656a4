/** Devices, credential profiles, SSH trust records and keyring secrets: four stores kept consistent by ordered and
    compensating writes. */
module LocalState {
  import opened Wrappers

  datatype Device = Device(name: string, host: string, port: nat, credential: string, trust: Option<string>)
  datatype Profile = Profile(name: string, username: string)
  datatype Pin = Pin(algorithm: string, fingerprint: string)
  datatype TrustRecord = TrustRecord(name: string, host: string, port: nat, pin: Pin)

  /** The contents of the four stores at one moment. */
  datatype Snapshot = Snapshot(
    devices: map<string, Device>, profiles: map<string, Profile>, hosts: map<string, TrustRecord>,
    secrets: map<string, string>)

  const EMPTY := Snapshot(map[], map[], map[], map[])

  datatype Error =
    | UnknownName | AlreadyExists | NotReady | NoTrust | InUse | EmptySecret | StoreFailed | BrokenReference

  /* ---------- Referential integrity ---------- */

  predicate DeviceBound(s: Snapshot, name: string)
    requires name in s.devices
  {
    var d := s.devices[name];
    && d.name == name && d.trust == Some(name) && d.credential in s.profiles
    && name in s.hosts && s.hosts[name].host == d.host && s.hosts[name].port == d.port
  }

  predicate Integrity(s: Snapshot)
  {
    && (forall name | name in s.devices :: DeviceBound(s, name))
    && (forall name | name in s.profiles :: s.profiles[name].name == name && name in s.secrets && s.secrets[name] != "")
    && (forall name | name in s.hosts :: s.hosts[name].name == name)
  }

  /** What `load_inventory` checks of one device. */
  predicate Resolves(s: Snapshot, d: Device)
  {
    && d.credential in s.profiles && d.trust.Some? && d.trust.value in s.hosts
    && s.hosts[d.trust.value].host == d.host && s.hosts[d.trust.value].port == d.port
  }

  predicate AllIntact(trace: seq<Snapshot>)
  {
    forall i | 0 <= i < |trace| :: Integrity(trace[i])
  }

  lemma IntactGrows(trace: seq<Snapshot>, s: Snapshot)
    ensures AllIntact(trace) && Integrity(s) ==> AllIntact(trace + [s])
  {
  }

  lemma StoredUnderItsName(s: Snapshot)
    requires Integrity(s)
    ensures forall n | n in s.devices :: s.devices[n].name == n && s.devices[n].trust == Some(n)
    ensures forall n | n in s.profiles :: s.profiles[n].name == n
  {
  }

  /** Every trust record of a stored device that a replacement touches keeps the device's address. */
  predicate SameAddressStored(s: Snapshot, name: string, host: string, port: nat)
  {
    forall n | n in s.devices && s.devices[n].trust == Some(name) :: s.devices[n].host == host && s.devices[n].port == port
  }

  function Replaced(s: Snapshot, record: TrustRecord): Snapshot
  {
    s.(hosts := s.hosts[record.name := record])
  }

  /** Replacing a trust record keeps integrity if and only if the record has the address of the device stored under
      its name; a device value read before the device was removed and added again need not. */
  lemma ReplacementKeepsIntegrity(s: Snapshot, record: TrustRecord)
    requires Integrity(s) && record.name in s.hosts
    ensures Integrity(Replaced(s, record)) <==> SameAddressStored(s, record.name, record.host, record.port)
  {
  }

  lemma DeviceAdded(s: Snapshot, d: Device)
    requires Integrity(s) && d.trust == Some(d.name) && d.credential in s.profiles
    requires d.name in s.hosts && s.hosts[d.name].host == d.host && s.hosts[d.name].port == d.port
    ensures Integrity(s.(devices := s.devices[d.name := d]))
  {
  }

  lemma HostAdded(s: Snapshot, r: TrustRecord)
    requires Integrity(s) && r.name !in s.hosts
    ensures Integrity(s.(hosts := s.hosts[r.name := r]))
  {
  }

  lemma HostRemoved(s: Snapshot, name: string)
    requires Integrity(s) && name !in s.devices
    ensures Integrity(s.(hosts := s.hosts - {name}))
  {
  }

  lemma DeviceRemoved(s: Snapshot, name: string)
    requires Integrity(s)
    ensures Integrity(s.(devices := s.devices - {name}))
  {
  }

  lemma SecretSet(s: Snapshot, name: string, secret: string)
    requires Integrity(s) && secret != ""
    ensures Integrity(s.(secrets := s.secrets[name := secret]))
  {
  }

  lemma SecretDeleted(s: Snapshot, name: string)
    requires Integrity(s) && name !in s.profiles
    ensures Integrity(s.(secrets := s.secrets - {name}))
  {
  }

  lemma ProfileAdded(s: Snapshot, p: Profile)
    requires Integrity(s) && p.name in s.secrets && s.secrets[p.name] != ""
    ensures Integrity(s.(profiles := s.profiles[p.name := p]))
  {
  }

  predicate Referenced(s: Snapshot, profile: string)
  {
    exists n | n in s.devices :: s.devices[n].credential == profile
  }

  lemma ReferencedBy(s: Snapshot, profile: string)
    ensures Referenced(s, profile) <==> exists n | n in s.devices :: s.devices[n].credential == profile
  {
  }

  lemma ProfileRemoved(s: Snapshot, name: string)
    requires Integrity(s) && !Referenced(s, name)
    ensures Integrity(s.(profiles := s.profiles - {name}))
  {
  }

  lemma Removable(s: Snapshot, name: string)
    requires Integrity(s) && !Referenced(s, name) && name in s.profiles
    ensures s.profiles[name].name == name
    ensures var without := s.(profiles := s.profiles - {name});
            Integrity(without) && Integrity(without.(secrets := s.secrets - {name}))
  {
    ProfileRemoved(s, name);
    SecretDeleted(s.(profiles := s.profiles - {name}), name);
  }

  lemma PutBack(profiles: map<string, Profile>, name: string)
    requires name in profiles
    ensures (profiles - {name})[name := profiles[name]] == profiles
  {
  }

  /* ---------- The stores ---------- */

  /** Every access may fail, and then changes nothing. `trace` records the stores after every attempted write and
      `faults` counts the failures. */
  class Stores {
    var devices: map<string, Device>
    var profiles: map<string, Profile>
    var hosts: map<string, TrustRecord>
    var secrets: map<string, string>
    ghost var trace: seq<Snapshot>
    ghost var faults: nat

    constructor ()
      ensures View() == EMPTY && trace == [] && faults == 0
    {
      devices, profiles, hosts, secrets := map[], map[], map[], map[];
      trace, faults := [], 0;
    }

    function View(): Snapshot
      reads this
    {
      Snapshot(devices, profiles, hosts, secrets)
    }

    /** Whether the environment lets the next access happen. */
    method Attempt() returns (ok: bool)
      modifies this`faults
      ensures faults == if ok then old(faults) else old(faults) + 1
    {
      ok := *;
      if !ok { faults := faults + 1; }
    }

    method AddDevice(d: Device) returns (r: Option<Error>)
      modifies this
      ensures trace == old(trace) + [View()]
      ensures r == Some(AlreadyExists) || r == Some(StoreFailed) || r == None
      ensures d.name in old(devices) ==> r.Some?
      ensures r == Some(AlreadyExists) ==> d.name in old(devices)
      ensures View() == if r.Some? then old(View()) else old(View()).(devices := old(devices)[d.name := d])
      ensures faults == if r == Some(StoreFailed) then old(faults) + 1 else old(faults)
    {
      var ok := Attempt();
      if !ok {
        r := Some(StoreFailed);
      } else if d.name in devices {
        r := Some(AlreadyExists);
      } else {
        devices := devices[d.name := d];
        r := None;
      }
      trace := trace + [View()];
    }

    method RemoveDevice(name: string) returns (r: Result<Device, Error>)
      modifies this
      ensures trace == old(trace) + [View()]
      ensures r == Err(UnknownName) || r == Err(StoreFailed) || (name in old(devices) && r == Ok(old(devices)[name]))
      ensures r == Err(UnknownName) ==> name !in old(devices)
      ensures View() == if r.Err? then old(View()) else old(View()).(devices := old(devices) - {name})
      ensures faults == if r == Err(StoreFailed) then old(faults) + 1 else old(faults)
    {
      var ok := Attempt();
      if !ok {
        r := Err(StoreFailed);
      } else if name !in devices {
        r := Err(UnknownName);
      } else {
        r := Ok(devices[name]);
        devices := devices - {name};
      }
      trace := trace + [View()];
    }

    method AddHost(record: TrustRecord) returns (r: Option<Error>)
      modifies this
      ensures trace == old(trace) + [View()]
      ensures r == Some(AlreadyExists) || r == Some(StoreFailed) || r == None
      ensures record.name in old(hosts) ==> r.Some?
      ensures r == Some(AlreadyExists) ==> record.name in old(hosts)
      ensures View() == if r.Some? then old(View()) else old(View()).(hosts := old(hosts)[record.name := record])
      ensures faults == if r == Some(StoreFailed) then old(faults) + 1 else old(faults)
    {
      var ok := Attempt();
      if !ok {
        r := Some(StoreFailed);
      } else if record.name in hosts {
        r := Some(AlreadyExists);
      } else {
        hosts := hosts[record.name := record];
        r := None;
      }
      trace := trace + [View()];
    }

    method ReplaceHost(record: TrustRecord) returns (r: Option<Error>)
      modifies this
      ensures trace == old(trace) + [View()]
      ensures r == Some(UnknownName) || r == Some(StoreFailed) || r == None
      ensures record.name !in old(hosts) ==> r.Some?
      ensures r == Some(UnknownName) ==> record.name !in old(hosts)
      ensures View() == if r.Some? then old(View()) else Replaced(old(View()), record)
      ensures faults == if r == Some(StoreFailed) then old(faults) + 1 else old(faults)
    {
      var ok := Attempt();
      if !ok {
        r := Some(StoreFailed);
      } else if record.name !in hosts {
        r := Some(UnknownName);
      } else {
        hosts := hosts[record.name := record];
        r := None;
      }
      trace := trace + [View()];
    }

    /** `remove(name, missing_ok=True)` */
    method DropHost(name: string) returns (r: Option<Error>)
      modifies this
      ensures trace == old(trace) + [View()]
      ensures r == Some(StoreFailed) || r == None
      ensures View() == if r.Some? then old(View()) else old(View()).(hosts := old(hosts) - {name})
      ensures faults == if r.Some? then old(faults) + 1 else old(faults)
    {
      var ok := Attempt();
      if ok {
        if name !in hosts { assert hosts - {name} == hosts; }
        hosts := hosts - {name};
        r := None;
      } else {
        r := Some(StoreFailed);
      }
      trace := trace + [View()];
    }

    method AddProfile(p: Profile) returns (r: Option<Error>)
      modifies this
      ensures trace == old(trace) + [View()]
      ensures r == Some(AlreadyExists) || r == Some(StoreFailed) || r == None
      ensures p.name in old(profiles) ==> r.Some?
      ensures r == Some(AlreadyExists) ==> p.name in old(profiles)
      ensures View() == if r.Some? then old(View()) else old(View()).(profiles := old(profiles)[p.name := p])
      ensures faults == if r == Some(StoreFailed) then old(faults) + 1 else old(faults)
    {
      var ok := Attempt();
      if !ok {
        r := Some(StoreFailed);
      } else if p.name in profiles {
        r := Some(AlreadyExists);
      } else {
        profiles := profiles[p.name := p];
        r := None;
      }
      trace := trace + [View()];
    }

    method RemoveProfile(name: string) returns (r: Option<Error>)
      modifies this
      ensures trace == old(trace) + [View()]
      ensures r == Some(UnknownName) || r == Some(StoreFailed) || r == None
      ensures name !in old(profiles) ==> r.Some?
      ensures r == Some(UnknownName) ==> name !in old(profiles)
      ensures View() == if r.Some? then old(View()) else old(View()).(profiles := old(profiles) - {name})
      ensures faults == if r == Some(StoreFailed) then old(faults) + 1 else old(faults)
    {
      var ok := Attempt();
      if !ok {
        r := Some(StoreFailed);
      } else if name !in profiles {
        r := Some(UnknownName);
      } else {
        profiles := profiles - {name};
        r := None;
      }
      trace := trace + [View()];
    }

    method SetSecret(name: string, secret: string) returns (r: Option<Error>)
      modifies this
      ensures trace == old(trace) + [View()]
      ensures r == Some(EmptySecret) || r == Some(StoreFailed) || r == None
      ensures secret == "" ==> r.Some?
      ensures r == Some(EmptySecret) ==> secret == ""
      ensures View() == if r.Some? then old(View()) else old(View()).(secrets := old(secrets)[name := secret])
      ensures faults == if r == Some(StoreFailed) then old(faults) + 1 else old(faults)
    {
      var ok := Attempt();
      if !ok {
        r := Some(StoreFailed);
      } else if secret == "" {
        r := Some(EmptySecret);
      } else {
        secrets := secrets[name := secret];
        r := None;
      }
      trace := trace + [View()];
    }

    /** `delete_secret(name, missing_ok=True)`: a refused deletion may be reported as a missing password and is then
        passed over in silence. */
    method DropSecret(name: string) returns (r: Option<Error>)
      modifies this
      ensures trace == old(trace) + [View()]
      ensures r == Some(StoreFailed) || r == None
      ensures faults == old(faults) ==> r == None && View() == old(View()).(secrets := old(secrets) - {name})
      ensures faults != old(faults) ==> faults == old(faults) + 1 && View() == old(View())
    {
      var ok := Attempt();
      r := None;
      if ok {
        secrets := secrets - {name};
      } else {
        var silent: bool := *;
        if !silent { r := Some(StoreFailed); }
      }
      trace := trace + [View()];
    }

    /* ---------- The operations ---------- */

    /** `load_inventory`: the devices, or the first reference that does not resolve. */
    method LoadInventory() returns (r: Result<map<string, Device>, Error>)
      ensures r.Ok? <==> forall n | n in devices :: Resolves(View(), devices[n])
      ensures r.Ok? ==> r.value == devices
      ensures Integrity(View()) ==> r.Ok?
    {
      assert Integrity(View()) ==> forall n | n in devices :: DeviceBound(View(), n) && Resolves(View(), devices[n]);
      var left := devices.Keys;
      while left != {}
        invariant left <= devices.Keys
        invariant forall n | n in devices && n !in left :: Resolves(View(), devices[n])
        decreases |left|
      {
        var n :| n in left;
        var device := devices[n];
        if device.credential !in profiles { return Err(BrokenReference); }
        if device.trust == None || device.trust.value !in hosts { return Err(BrokenReference); }
        var trust := hosts[device.trust.value];
        if trust.host != device.host || trust.port != device.port { return Err(BrokenReference); }
        left := left - {n};
      }
      return Ok(devices);
    }

    /** What every operation keeps: integrity now and between any two of its writes. */
    twostate predicate Keeps()
      reads this
    {
      Integrity(old(View())) && AllIntact(old(trace)) ==>
        Integrity(View()) && AllIntact(trace) && old(trace) <= trace && old(faults) <= faults
    }

    /** `ready` is the verdict of the connection test, which the model leaves open. */
    method OnboardDevice(name: string, host: string, port: nat, credential: string, pin: Pin, ready: bool)
      returns (r: Option<Error>)
      modifies this
      ensures Keeps()
      ensures r == None ==>
                && credential in old(profiles) && name !in old(devices) && name !in old(hosts) && ready
                && View() == old(View()).(
                               devices := old(devices)[name := Device(name, host, port, credential, Some(name))],
                               hosts := old(hosts)[name := TrustRecord(name, host, port, pin)])
      ensures r.Some? && faults <= old(faults) + 1 ==> View() == old(View())
      ensures faults == old(faults) ==>
                r == if credential !in old(profiles) then Some(UnknownName)
                     else if name in old(devices) then Some(AlreadyExists)
                     else if !ready then Some(NotReady)
                     else if name in old(hosts) then Some(AlreadyExists) else None
      ensures r.Some? && View() != old(View()) ==>
                && name !in old(hosts)
                && View() == old(View()).(hosts := old(hosts)[name := TrustRecord(name, host, port, pin)])
    {
      hide Integrity, AllIntact, Referenced, SameAddressStored;
      if credential !in profiles { return Some(UnknownName); }
      if name in devices { return Some(AlreadyExists); }
      var device := Device(name, host, port, credential, Some(name));
      if !ready { return Some(NotReady); }
      var record := TrustRecord(name, host, port, pin);
      ghost var s, before := View(), trace;
      if Integrity(s) && name !in hosts { HostAdded(s, record); }
      before := trace;
      r := AddHost(record);
      IntactGrows(before, View());
      if r.Some? { return; }
      ghost var t := View();
      if Integrity(t) { DeviceAdded(t, device); HostRemoved(t, name); }
      before := trace;
      r := AddDevice(device);
      IntactGrows(before, View());
      if r.Some? {
        assert hosts - {name} == s.hosts;
        before := trace;
        var rollback := DropHost(name);
        IntactGrows(before, View());
        return r;
      }
    }

    method OffboardDevice(name: string) returns (r: Option<Error>)
      modifies this
      ensures Keeps()
      ensures r == None && Integrity(old(View())) ==>
                && name in old(devices)
                && View() == old(View()).(devices := old(devices) - {name}, hosts := old(hosts) - {name})
      ensures r.Some? && Integrity(old(View())) && faults <= old(faults) + 1 ==> View() == old(View())
      ensures faults == old(faults) ==> r == if name in old(devices) then None else Some(UnknownName)
      ensures r.Some? && Integrity(old(View())) ==>
                View() == old(View()) || View() == old(View()).(devices := old(devices) - {name})
    {
      hide Integrity, AllIntact, Referenced, SameAddressStored;
      ghost var s, before := View(), trace;
      if Integrity(s) { DeviceRemoved(s, name); }
      before := trace;
      var removed := RemoveDevice(name);
      IntactGrows(before, View());
      if removed.Err? { return Some(removed.error); }
      var device := removed.value;
      assert s.devices[name := device] == s.devices;
      if Integrity(s) {
        StoredUnderItsName(s);
        HostRemoved(View(), name);
      }
      if device.trust.Some? {
        before := trace;
        r := DropHost(device.trust.value);
        IntactGrows(before, View());
        if r.Some? {
          assert devices[name := device] == s.devices;
          before := trace;
          var restored := AddDevice(device);
          IntactGrows(before, View());
          return r;
        }
      }
      return None;
    }

    method ReplaceTrust(device: Device, pin: Pin) returns (r: Option<Error>)
      modifies this
      ensures device.trust.Some? && SameAddressStored(old(View()), device.trust.value, device.host, device.port) ==> Keeps()
      ensures r.Some? ==> View() == old(View())
      ensures r == None ==> device.trust.Some? &&
                            View() == Replaced(old(View()), TrustRecord(device.trust.value, device.host, device.port, pin))
      ensures faults == old(faults) ==>
                r == if device.trust == None then Some(NoTrust)
                     else if device.trust.value !in old(hosts) then Some(UnknownName) else None
      ensures old(trace) <= trace && old(faults) <= faults
    {
      if device.trust == None { return Some(NoTrust); }
      var record := TrustRecord(device.trust.value, device.host, device.port, pin);
      hide Integrity, AllIntact, Referenced, SameAddressStored;
      ghost var s, before := View(), trace;
      if Integrity(s) && record.name in hosts { ReplacementKeepsIntegrity(s, record); }
      before := trace;
      r := ReplaceHost(record);
      IntactGrows(before, View());
    }

    method AddPasswordProfile(name: string, username: string, secret: string) returns (r: Option<Error>)
      modifies this
      ensures Keeps()
      ensures r == None ==>
                && name !in old(profiles) && secret != ""
                && View() == old(View()).(
                               profiles := old(profiles)[name := Profile(name, username)],
                               secrets := old(secrets)[name := secret])
      ensures r.Some? && faults <= old(faults) + 1 && name !in old(secrets) ==> View() == old(View())
      // A failure after the secret was stored restores everything exactly if no orphaned secret had that name.
      ensures r.Some? && faults <= old(faults) + 1 && |trace| > |old(trace)| + 1 ==>
                && View() == old(View()).(secrets := old(secrets) - {name})
                && (View() == old(View()) <==> name !in old(secrets))
      ensures r.Some? ==> View().(secrets := map[]) == old(View()).(secrets := map[])
      ensures r.Some? && |trace| <= |old(trace)| + 1 ==> View() == old(View())
      ensures faults == old(faults) ==>
                && (r.Some? ==> View() == old(View()))
                && r == if name in old(profiles) then Some(AlreadyExists)
                        else if secret == "" then Some(EmptySecret) else None
    {
      hide Integrity, AllIntact, Referenced, SameAddressStored;
      var profile := Profile(name, username);
      if name in profiles { return Some(AlreadyExists); }
      ghost var s, before := View(), trace;
      if Integrity(s) && secret != "" {
        SecretSet(s, name, secret);
        SecretDeleted(s.(secrets := s.secrets[name := secret]), name);
        ProfileAdded(s.(secrets := s.secrets[name := secret]), profile);
      }
      before := trace;
      r := SetSecret(name, secret);
      IntactGrows(before, View());
      if r.Some? { return; }
      before := trace;
      r := AddProfile(profile);
      IntactGrows(before, View());
      if r.Some? {
        assert secrets - {name} == s.secrets - {name} && (name !in s.secrets ==> secrets - {name} == s.secrets);
        before := trace;
        var rollback := DropSecret(name);
        IntactGrows(before, View());
        return r;
      }
    }

    method RemoveUnusedProfile(name: string) returns (r: Option<Error>)
      modifies this
      ensures Keeps()
      ensures r == Some(InUse) ==> Referenced(old(View()), name)
      ensures Referenced(old(View()), name) ==> View() == old(View()) && r.Some?
      ensures r == None ==>
                && name in old(profiles)
                && (View() == old(View()).(profiles := old(profiles) - {name}, secrets := old(secrets) - {name})
                    || View() == old(View()).(profiles := old(profiles) - {name}))
      ensures r == None && faults == old(faults) ==>
                View() == old(View()).(profiles := old(profiles) - {name}, secrets := old(secrets) - {name})
      ensures faults == old(faults) ==>
                r == if name !in old(profiles) then Some(UnknownName)
                     else if Referenced(old(View()), name) then Some(InUse) else None
      ensures r.Some? && Integrity(old(View())) && faults <= old(faults) + 1 ==> View() == old(View())
    {
      hide Integrity, AllIntact, Referenced, SameAddressStored;
      if name !in profiles { return Some(UnknownName); }
      var profile := profiles[name];
      ghost var s, before := View(), trace;
      if exists n | n in devices :: devices[n].credential == name {
        ReferencedBy(s, name);
        return Some(InUse);
      }
      ReferencedBy(s, name);
      if Integrity(s) { Removable(s, name); }
      before := trace;
      r := RemoveProfile(name);
      IntactGrows(before, View());
      if r.Some? { return; }
      before := trace;
      r := DropSecret(name);
      IntactGrows(before, View());
      if r.Some? {
        PutBack(s.profiles, name);
        before := trace;
        var restored := AddProfile(profile);
        IntactGrows(before, View());
        return r;
      }
    }

    method RotateSecret(name: string, secret: string) returns (r: Option<Error>)
      modifies this
      ensures Keeps()
      ensures r == None ==> name in old(profiles) && secret != ""
      ensures View() == if r.Some? then old(View()) else old(View()).(secrets := old(secrets)[name := secret])
      ensures faults == old(faults) ==>
                r == if name !in old(profiles) then Some(UnknownName)
                     else if secret == "" then Some(EmptySecret) else None
      ensures old(faults) <= faults
    {
      if name !in profiles { return Some(UnknownName); }
      hide Integrity, AllIntact, Referenced, SameAddressStored;
      ghost var s, before := View(), trace;
      if Integrity(s) && secret != "" { SecretSet(s, name, secret); }
      before := trace;
      r := SetSecret(name, secret);
      IntactGrows(before, View());
    }
  }

  /* ---------- Whole runs ---------- */

  datatype Command =
    | AddCommand(name: string, host: string, port: nat, credential: string, pin: Pin, ready: bool)
    | RemoveCommand(name: string)
    | ReplaceTrustCommand(name: string, pin: Pin)
    | AddProfileCommand(name: string, username: string, secret: string)
    | RemoveProfileCommand(name: string)
    | RotateCommand(name: string, secret: string)

  /** What refuses a command when nothing fails. */
  function Objection(s: Snapshot, command: Command): Option<Error>
  {
    match command
    case AddCommand(name, _, _, credential, _, ready) =>
      if credential !in s.profiles then Some(UnknownName)
      else if name in s.devices then Some(AlreadyExists)
      else if !ready then Some(NotReady)
      else if name in s.hosts then Some(AlreadyExists) else None
    case RemoveCommand(name) => if name in s.devices then None else Some(UnknownName)
    case ReplaceTrustCommand(name, _) => if name in s.devices then None else Some(UnknownName)
    case AddProfileCommand(name, _, secret) =>
      if name in s.profiles then Some(AlreadyExists) else if secret == "" then Some(EmptySecret) else None
    case RemoveProfileCommand(name) =>
      if name !in s.profiles then Some(UnknownName) else if Referenced(s, name) then Some(InUse) else None
    case RotateCommand(name, secret) =>
      if name !in s.profiles then Some(UnknownName) else if secret == "" then Some(EmptySecret) else None
  }

  /** What a command makes of the stores when nothing fails. */
  function Effect(s: Snapshot, command: Command): Snapshot
  {
    if Objection(s, command).Some? then s
    else match command
      case AddCommand(name, host, port, credential, pin, _) =>
        s.(devices := s.devices[name := Device(name, host, port, credential, Some(name))],
           hosts := s.hosts[name := TrustRecord(name, host, port, pin)])
      case RemoveCommand(name) => s.(devices := s.devices - {name}, hosts := s.hosts - {name})
      case ReplaceTrustCommand(name, pin) =>
        Replaced(s, TrustRecord(name, s.devices[name].host, s.devices[name].port, pin))
      case AddProfileCommand(name, username, secret) =>
        s.(profiles := s.profiles[name := Profile(name, username)], secrets := s.secrets[name := secret])
      case RemoveProfileCommand(name) => s.(profiles := s.profiles - {name}, secrets := s.secrets - {name})
      case RotateCommand(name, secret) => s.(secrets := s.secrets[name := secret])
  }

  function AfterAll(s: Snapshot, commands: seq<Command>): Snapshot
  {
    if commands == [] then s else Effect(AfterAll(s, commands[..|commands| - 1]), commands[|commands| - 1])
  }

  method Perform(stores: Stores, command: Command) returns (r: Option<Error>)
    requires Integrity(stores.View()) && AllIntact(stores.trace)
    modifies stores
    ensures Integrity(stores.View()) && AllIntact(stores.trace) && old(stores.faults) <= stores.faults
    ensures stores.faults == old(stores.faults) ==>
              r == Objection(old(stores.View()), command) && stores.View() == Effect(old(stores.View()), command)
    ensures r.Some? && stores.faults <= old(stores.faults) + 1 && !command.AddProfileCommand? ==>
              stores.View() == old(stores.View())
  {
    hide Integrity, AllIntact, Resolves, Referenced;
    match command {
      case AddCommand(name, host, port, credential, pin, ready) =>
        r := stores.OnboardDevice(name, host, port, credential, pin, ready);
      case RemoveCommand(name) =>
        r := stores.OffboardDevice(name);
      case ReplaceTrustCommand(name, pin) =>
        var inventory := stores.LoadInventory();
        if inventory.Err? { return Some(inventory.error); }
        if name !in inventory.value { return Some(UnknownName); }
        StoredAddress(stores.View(), name);
        TrustedUnderItsName(stores.View(), name);
        r := stores.ReplaceTrust(inventory.value[name], pin);
      case AddProfileCommand(name, username, secret) =>
        r := stores.AddPasswordProfile(name, username, secret);
      case RemoveProfileCommand(name) =>
        r := stores.RemoveUnusedProfile(name);
      case RotateCommand(name, secret) =>
        r := stores.RotateSecret(name, secret);
    }
  }

  lemma TrustedUnderItsName(s: Snapshot, name: string)
    requires Integrity(s) && name in s.devices
    ensures s.devices[name].trust == Some(name) && name in s.hosts
  {
    assert DeviceBound(s, name);
  }

  lemma StoredAddress(s: Snapshot, name: string)
    requires Integrity(s) && name in s.devices
    ensures var d := s.devices[name];
            d.trust.Some? && SameAddressStored(s, d.trust.value, d.host, d.port)
  {
  }

  /** From empty stores, whatever is asked and whatever fails, every intermediate state has integrity, and the
      inventory can always be loaded. */
  method Session(commands: seq<Command>) returns (stores: Stores, inventory: Result<map<string, Device>, Error>)
    ensures fresh(stores) && Integrity(stores.View()) && AllIntact(stores.trace)
    ensures inventory == Ok(stores.devices)
    ensures stores.faults == 0 ==> stores.View() == AfterAll(EMPTY, commands)
  {
    hide Effect;
    stores := new Stores();
    var i := 0;
    while i < |commands|
      invariant 0 <= i <= |commands| && fresh(stores)
      invariant Integrity(stores.View()) && AllIntact(stores.trace)
      invariant stores.faults == 0 ==> stores.View() == AfterAll(EMPTY, commands[..i])
    {
      var outcome := Perform(stores, commands[i]);
      assert commands[..i + 1][..i] == commands[..i];
      i := i + 1;
    }
    assert commands[..i] == commands;
    inventory := stores.LoadInventory();
  }
}
