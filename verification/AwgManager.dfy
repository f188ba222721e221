/** The embedded AmneziaWG manager (internal/amneziawgnet/manager.go): it keeps
    one device per wanted inbound and chooses, for every ensure, between doing
    nothing, reconfiguring in place and rebuilding.

    Devices, their UDP relays and port forwards, and the `ip` command are
    environment objects. Building, configuring and IpcSet may each fail; a failed
    IpcSet leaves the device's configuration as it was. */
module AwgManager {
  import opened Runs
  import opened Text
  import opened Collections
  import opened AwgTypes
  import opened V6Alias

  // An instance with the UAPI text its options render to, if they do.
  datatype Desire = Desire(inst: Instance, uapi: Option<string>)

  datatype Env = Env(ipcOk: bool, buildOk: bool, configureOk: bool, broken: set<Alias>)

  // What was built: the identity it was built with, its live config, and the
  // UDP relay and port forwards set up on it, which are closed one by one.
  datatype Device = Device(open: bool, relayOpen: bool, forwardsOpen: bool, fp: string, conf: Option<string>)

  // served is the instance the port forwards were last reconciled with.
  datatype Managed = Managed(dev: nat, inst: Instance, structFP: string, uapi: string, served: Instance)

  datatype Action =
    | IpcSet(dev: nat)
    | Built(dev: nat)
    | DeviceClosed(dev: nat)
    | RelayClosed(dev: nat)
    | ForwardsClosed(dev: nat)
    | Ip(add: set<Alias>, remove: set<Alias>)

  datatype State = State(ifaces: map<int, Managed>, devices: map<nat, Device>, next: nat,
                         aliases: set<Alias>, log: seq<Action>)

  const INIT := State(map[], map[], 0, {}, [])

  // -----------------------------------------------------------------------
  // The steps, as functions on states
  // -----------------------------------------------------------------------

  function MoveAliases(s: State, oldInst: Instance, newInst: Instance, broken: set<Alias>): State {
    var add := Dropped(Desired(newInst), Desired(oldInst));
    var remove := Dropped(Desired(oldInst), Desired(newInst));
    s.(aliases := s.aliases + (add - broken) - (remove - broken),
       log := s.log + (if add == {} && remove == {} then [] else [Ip(add, remove)]))
  }

  function CloseDevice(s: State, dev: nat): State
    requires dev in s.devices
  {
    s.(devices := s.devices[dev := s.devices[dev].(open := false)], log := s.log + [DeviceClosed(dev)])
  }

  function CloseRelay(s: State, dev: nat): State
    requires dev in s.devices
  {
    s.(devices := s.devices[dev := s.devices[dev].(relayOpen := false)], log := s.log + [RelayClosed(dev)])
  }

  function CloseForwards(s: State, dev: nat): State
    requires dev in s.devices
  {
    s.(devices := s.devices[dev := s.devices[dev].(forwardsOpen := false)], log := s.log + [ForwardsClosed(dev)])
  }

  function ClosedDown(d: Device): Device {
    d.(open := false, relayOpen := false, forwardsOpen := false)
  }

  // The close of a managed interface: the device between forwards and relay.
  function CloseManaged(s: State, dev: nat): (t: State)
    ensures dev in s.devices ==>
      t == s.(devices := s.devices[dev := ClosedDown(s.devices[dev])],
              log := s.log + [ForwardsClosed(dev), DeviceClosed(dev), RelayClosed(dev)])
  {
    if dev !in s.devices then s
    else CloseRelay(CloseDevice(CloseForwards(s, dev), dev), dev)
  }

  // A failed Configure closes the device itself; relay and forwards follow.
  function Abandon(s: State, dev: nat): (t: State)
    requires dev in s.devices
    ensures t == s.(devices := s.devices[dev := ClosedDown(s.devices[dev])],
                    log := s.log + [DeviceClosed(dev), RelayClosed(dev), ForwardsClosed(dev)])
  {
    CloseForwards(CloseRelay(CloseDevice(s, dev), dev), dev)
  }

  function Stop(s: State, id: int, broken: set<Alias>): State {
    if id !in s.ifaces then s
    else
      var cur := s.ifaces[id];
      var s1 := CloseManaged(MoveAliases(s, cur.inst, NO_INSTANCE, broken), cur.dev);
      s1.(ifaces := s1.ifaces - {id})
  }

  // The old device is closed and forgotten before the new one is built.
  function Discard(s: State, id: int): State {
    if id !in s.ifaces then s
    else
      var s1 := CloseManaged(s, s.ifaces[id].dev);
      s1.(ifaces := s1.ifaces - {id})
  }

  function Build(s: State, oldInst: Instance, d: Desire, env: Env): State {
    if !env.buildOk then s
    else
      var fp, dev := AddressFingerprint(d.inst), s.next;
      var s2 := s.(devices := s.devices[dev := Device(true, true, true, fp, None)], next := dev + 1,
                   log := s.log + [Built(dev)]);
      if d.uapi.None? || !env.configureOk then Abandon(s2, dev)
      else
        var s3 := s2.(devices := s2.devices[dev := s2.devices[dev].(conf := d.uapi)],
                      ifaces := s2.ifaces[d.inst.id := Managed(dev, d.inst, fp, d.uapi.value, d.inst)],
                      log := s2.log + [IpcSet(dev)]);
        MoveAliases(s3, oldInst, d.inst, env.broken)
  }

  function Rebuild(s: State, d: Desire, env: Env): State {
    var oldInst := if d.inst.id in s.ifaces then s.ifaces[d.inst.id].inst else NO_INSTANCE;
    Build(Discard(s, d.inst.id), oldInst, d, env)
  }

  predicate Reusable(s: State, d: Desire) {
    d.inst.id in s.ifaces && s.ifaces[d.inst.id].structFP == AddressFingerprint(d.inst)
  }

  function Ensure(s: State, d: Desire, env: Env): State {
    if !Reusable(s, d) then Rebuild(s, d, env)
    else if d.uapi.None? then s
    else
      var id, cur, conf := d.inst.id, s.ifaces[d.inst.id], d.uapi.value;
      if conf == cur.uapi then
        MoveAliases(s.(ifaces := s.ifaces[id := cur.(inst := d.inst, served := d.inst)]), cur.inst, d.inst, env.broken)
      else
        var s1 := s.(log := s.log + [IpcSet(cur.dev)]);
        if !env.ipcOk || cur.dev !in s.devices then s1
        else
          var s2 := s1.(devices := s1.devices[cur.dev := s1.devices[cur.dev].(conf := Some(conf))],
                        ifaces := s1.ifaces[id := cur.(inst := d.inst, uapi := conf, served := d.inst)]);
          MoveAliases(s2, cur.inst, d.inst, env.broken)
  }

  // Whether an ensure reports success.
  predicate Succeeds(s: State, d: Desire, env: Env) {
    if !Reusable(s, d) then env.buildOk && d.uapi.Some? && env.configureOk
    else d.uapi.Some? && (d.uapi.value == s.ifaces[d.inst.id].uapi || env.ipcOk)
  }

  datatype Step = StepStop(id: int, broken: set<Alias>) | StepEnsure(d: Desire, env: Env)

  function Do(s: State, step: Step): State {
    match step
    case StepStop(id, broken) => Stop(s, id, broken)
    case StepEnsure(d, env) => Ensure(s, d, env)
  }

  function Run(s: State, steps: seq<Step>): State {
    Fold(s, steps, Do)
  }

  // A whole Reconcile: the unwanted interfaces in some order, then the wanted.
  function Stops(ids: seq<int>, broken: set<Alias>): seq<Step> {
    seq(|ids|, i requires 0 <= i < |ids| => StepStop(ids[i], broken))
  }

  function Ensures(desired: seq<Desire>, envs: seq<Env>): seq<Step>
    requires |envs| == |desired|
  {
    seq(|desired|, i requires 0 <= i < |desired| => StepEnsure(desired[i], envs[i]))
  }

  function WantedIds(desired: seq<Desire>): set<int> {
    set d | d in desired :: d.inst.id
  }

  ghost predicate Enumerates(ids: seq<int>, all: set<int>) {
    && (forall i :: 0 <= i < |ids| ==> ids[i] in all)
    && (forall x :: x in all ==> x in ids)
    && (forall i, j :: 0 <= i < j < |ids| ==> ids[i] != ids[j])
  }

  // -----------------------------------------------------------------------
  // The manager object
  // -----------------------------------------------------------------------

  class Manager {
    var ifaces: map<int, Managed>
    var devices: map<nat, Device>
    var next: nat
    var log: seq<Action>
    const host: Host

    ghost function Abs(): State
      reads this, host
    {
      State(ifaces, devices, next, host.aliases, log)
    }

    ghost predicate Valid()
      reads this, host
    {
      Inv(Abs())
    }

    constructor ()
      ensures Valid() && Abs() == INIT && fresh(host)
    {
      ifaces, devices, next, log := map[], map[], 0, [];
      host := new Host();
      new;
      InitInv();
    }

    method ApplyAliasDiff(oldInst: Instance, newInst: Instance, broken: set<Alias>)
      modifies this, host
      ensures Abs() == MoveAliases(old(Abs()), oldInst, newInst, broken)
    {
      var add, remove := DiffV6Aliases(oldInst, newInst);
      EffectsAll(host.aliases, add, remove, broken);
      host.ApplyV6Aliases(add, remove, broken);
      if add != [] || remove != [] {
        assert add != [] ==> add[0] in Elements(add);
        assert remove != [] ==> remove[0] in Elements(remove);
        log := log + [Ip(Elements(add), Elements(remove))];
      }
    }

    method DevClose(dev: nat)
      requires dev in devices
      modifies this
      ensures Abs() == CloseDevice(old(Abs()), dev)
    {
      devices := devices[dev := devices[dev].(open := false)];
      log := log + [DeviceClosed(dev)];
    }

    method RelayClose(dev: nat)
      requires dev in devices
      modifies this
      ensures Abs() == CloseRelay(old(Abs()), dev)
    {
      devices := devices[dev := devices[dev].(relayOpen := false)];
      log := log + [RelayClosed(dev)];
    }

    method ForwardsClose(dev: nat)
      requires dev in devices
      modifies this
      ensures Abs() == CloseForwards(old(Abs()), dev)
    {
      devices := devices[dev := devices[dev].(forwardsOpen := false)];
      log := log + [ForwardsClosed(dev)];
    }

    method Close(dev: nat)
      modifies this
      ensures Abs() == CloseManaged(old(Abs()), dev)
    {
      if dev in devices {
        ForwardsClose(dev);
        DevClose(dev);
        RelayClose(dev);
      }
    }

    // Configure has failed, and closed the device before it returned.
    method CloseAfterFailure(dev: nat)
      requires dev in devices
      modifies this
      ensures Abs() == Abandon(old(Abs()), dev)
    {
      DevClose(dev);
      RelayClose(dev);
      ForwardsClose(dev);
    }

    // What it opens and closes is PortForwardSet's.
    method ReconcileForwards(inst: Instance)
      requires inst.id in ifaces
      modifies this
      ensures Abs() == old(Abs()).(ifaces := old(ifaces)[inst.id := old(ifaces[inst.id]).(served := inst)])
    {
      ifaces := ifaces[inst.id := ifaces[inst.id].(served := inst)];
    }

    // The part that keeps the running device.
    method ReconfigureLocked(d: Desire, env: Env) returns (ok: bool)
      requires Reusable(Abs(), d) && ifaces[d.inst.id].dev in devices
      modifies this, host
      ensures Abs() == Ensure(old(Abs()), d, env)
      ensures ok == Succeeds(old(Abs()), d, env)
    {
      var inst := d.inst;
      var cur := ifaces[inst.id];
      if d.uapi.None? {
        return false;
      }
      var conf := d.uapi.value;
      if conf == cur.uapi {
        ifaces := ifaces[inst.id := cur.(inst := inst)];
        ApplyAliasDiff(cur.inst, inst, env.broken);
        ReconcileForwards(inst);
        return true;
      }
      log := log + [IpcSet(cur.dev)];
      if !env.ipcOk {
        return false;
      }
      devices := devices[cur.dev := devices[cur.dev].(conf := Some(conf))];
      ifaces := ifaces[inst.id := cur.(inst := inst, uapi := conf)];
      ApplyAliasDiff(cur.inst, inst, env.broken);
      ReconcileForwards(inst);
      return true;
    }

    // The part that replaces it.
    method RebuildLocked(d: Desire, env: Env) returns (ok: bool)
      modifies this, host
      ensures Abs() == Rebuild(old(Abs()), d, env)
      ensures ok == (env.buildOk && d.uapi.Some? && env.configureOk)
    {
      var oldInst := NO_INSTANCE;
      if d.inst.id in ifaces {
        oldInst := ifaces[d.inst.id].inst;
        Close(ifaces[d.inst.id].dev);
        ifaces := ifaces - {d.inst.id};
      }
      ok := BuildLocked(oldInst, d, env);
    }

    method BuildLocked(oldInst: Instance, d: Desire, env: Env) returns (ok: bool)
      modifies this, host
      ensures Abs() == Build(old(Abs()), oldInst, d, env)
      ensures ok == (env.buildOk && d.uapi.Some? && env.configureOk)
    {
      var inst := d.inst;
      var structFP := AddressFingerprint(inst);
      if !env.buildOk {
        return false;
      }
      var dev := next;
      devices := devices[dev := Device(true, true, true, structFP, None)];
      next := dev + 1;
      log := log + [Built(dev)];
      if d.uapi.None? || !env.configureOk {
        CloseAfterFailure(dev);
        return false;
      }
      log := log + [IpcSet(dev)];
      devices := devices[dev := devices[dev].(conf := d.uapi)];
      ifaces := ifaces[inst.id := Managed(dev, inst, structFP, d.uapi.value, NO_INSTANCE)];
      ApplyAliasDiff(oldInst, inst, env.broken);
      ReconcileForwards(inst);
      return true;
    }

    method EnsureLocked(d: Desire, env: Env) returns (ok: bool)
      requires Valid()
      modifies this, host
      ensures Valid() && Abs() == Ensure(old(Abs()), d, env)
      ensures ok == Succeeds(old(Abs()), d, env)
    {
      EnsureKeepsInv(Abs(), d, env);
      if d.inst.id in ifaces && ifaces[d.inst.id].structFP == AddressFingerprint(d.inst) {
        assert Describes(Abs(), d.inst.id);
        ok := ReconfigureLocked(d, env);
      } else {
        ok := RebuildLocked(d, env);
      }
    }

    method Remove(id: int, broken: set<Alias>)
      requires Valid()
      modifies this, host
      ensures Valid()
      ensures Abs() == Stop(old(Abs()), id, broken)
    {
      StopKeepsInv(Abs(), id, broken);
      if id !in ifaces {
        return;
      }
      var cur := ifaces[id];
      ApplyAliasDiff(cur.inst, NO_INSTANCE, broken);
      Close(cur.dev);
      ifaces := ifaces - {id};
    }

    // Stops the interfaces with the given ids, in whatever order the map yields.
    method StopThese(ids: set<int>, broken: set<Alias>) returns (ghost order: seq<int>)
      requires Valid()
      modifies this, host
      ensures Valid()
      ensures Enumerates(order, ids)
      ensures Abs() == Run(old(Abs()), Stops(order, broken))
    {
      order := [];
      var pending := ids;
      while pending != {}
        invariant Valid() && pending <= ids
        invariant Enumerates(order, ids - pending)
        invariant Abs() == Run(old(Abs()), Stops(order, broken))
        decreases pending
      {
        EmptyOrInhabited(pending);
        var id :| id in pending;
        Remove(id, broken);
        assert Stops(order + [id], broken) == Stops(order, broken) + [StepStop(id, broken)];
        FoldOne(old(Abs()), Stops(order, broken), StepStop(id, broken), Do);
        order := order + [id];
        pending := pending - {id};
      }
    }

    method Reconcile(desired: seq<Desire>, broken: set<Alias>, envs: seq<Env>) returns (ghost order: seq<int>)
      requires Valid() && |envs| == |desired|
      modifies this, host
      ensures Valid()
      ensures Enumerates(order, old(ifaces.Keys) - WantedIds(desired))
      ensures Abs() == Run(old(Abs()), Stops(order, broken) + Ensures(desired, envs))
    {
      var want := set d | d in desired :: d.inst.id;
      order := StopThese(ifaces.Keys - want, broken);
      ghost var mid := Abs();
      for i := 0 to |desired|
        invariant Valid() && Abs() == Run(mid, Ensures(desired, envs)[..i])
      {
        var _ := EnsureLocked(desired[i], envs[i]);
        ghost var steps := Ensures(desired, envs);
        assert steps[..i + 1] == steps[..i] + [steps[i]];
        FoldOne(mid, steps[..i], steps[i], Do);
      }
      assert Ensures(desired, envs)[..|desired|] == Ensures(desired, envs);
      FoldAppend(old(Abs()), Stops(order, broken), Ensures(desired, envs), Do);
    }

    method StopAll(broken: set<Alias>) returns (ghost order: seq<int>)
      requires Valid()
      modifies this, host
      ensures Valid()
      ensures Enumerates(order, old(ifaces.Keys))
      ensures Abs() == Run(old(Abs()), Stops(order, broken))
    {
      order := StopThese(ifaces.Keys, broken);
    }
  }

  // -----------------------------------------------------------------------
  // Every device is either described by its entry or closed
  // -----------------------------------------------------------------------

  ghost predicate Describes(s: State, id: int)
    requires id in s.ifaces
  {
    var cur := s.ifaces[id];
    && cur.inst.id == id && cur.served == cur.inst
    && cur.structFP == AddressFingerprint(cur.inst)
    && cur.dev in s.devices
    && s.devices[cur.dev] == Device(true, true, true, cur.structFP, Some(cur.uapi))
  }

  ghost predicate Owned(s: State, dev: nat) {
    exists id :: id in s.ifaces && s.ifaces[id].dev == dev
  }

  ghost predicate IsClosed(d: Device) {
    !d.open && !d.relayOpen && !d.forwardsOpen
  }

  ghost predicate Inv(s: State) {
    && (forall id :: id in s.ifaces ==> Describes(s, id))
    && (forall i, j :: i in s.ifaces && j in s.ifaces && i != j ==> s.ifaces[i].dev != s.ifaces[j].dev)
    && (forall dev :: dev in s.devices ==> dev < s.next && (Owned(s, dev) || IsClosed(s.devices[dev])))
  }

  // The aliases and the log play no part in the device invariant.
  ghost predicate SameDevices(s: State, t: State) {
    s.ifaces == t.ifaces && s.devices == t.devices && s.next == t.next
  }

  lemma InvOfDevices(s: State, t: State)
    requires Inv(s) && SameDevices(s, t)
    ensures Inv(t)
  {
    forall dev | dev in t.devices ensures Owned(t, dev) || IsClosed(t.devices[dev]) {
      if Owned(s, dev) {
        var id :| id in s.ifaces && s.ifaces[id].dev == dev;
        assert id in t.ifaces && t.ifaces[id].dev == dev;
      }
    }
  }

  lemma InitInv()
    ensures Inv(INIT)
  {
  }

  lemma DiscardKeepsInv(s: State, id: int)
    requires Inv(s)
    ensures Inv(Discard(s, id))
    ensures id !in Discard(s, id).ifaces && Discard(s, id).next == s.next
  {
    if id in s.ifaces {
      var t := Discard(s, id);
      assert Describes(s, id);
      forall i | i in t.ifaces ensures Describes(t, i) {
        assert Describes(s, i);
      }
      forall dev | dev in t.devices ensures Owned(t, dev) || IsClosed(t.devices[dev]) {
        if dev != s.ifaces[id].dev && Owned(s, dev) {
          var i :| i in s.ifaces && s.ifaces[i].dev == dev;
          assert i in t.ifaces && t.ifaces[i].dev == dev;
        }
      }
    }
  }

  lemma StopKeepsInv(s: State, id: int, broken: set<Alias>)
    requires Inv(s)
    ensures Inv(Stop(s, id, broken))
  {
    DiscardKeepsInv(s, id);
    InvOfDevices(Discard(s, id), Stop(s, id, broken));
  }

  // A device built and closed again leaves the rest as it was.
  lemma FailedBuildKeepsInv(s: State, t: State, d: Device)
    requires Inv(s) && IsClosed(d)
    requires t.ifaces == s.ifaces && t.devices == s.devices[s.next := d] && t.next == s.next + 1
    ensures Inv(t)
  {
    forall i | i in t.ifaces ensures Describes(t, i) {
      assert Describes(s, i);
    }
    forall dev | dev in t.devices ensures Owned(t, dev) || IsClosed(t.devices[dev]) {
      if dev != s.next && Owned(s, dev) {
        var i :| i in s.ifaces && s.ifaces[i].dev == dev;
        assert i in t.ifaces && t.ifaces[i].dev == dev;
      }
    }
  }

  lemma BuildKeepsInv(s: State, t: State, d: Desire)
    requires Inv(s) && d.inst.id !in s.ifaces && d.uapi.Some?
    requires var fp := AddressFingerprint(d.inst);
      && t.ifaces == s.ifaces[d.inst.id := Managed(s.next, d.inst, fp, d.uapi.value, d.inst)]
      && t.devices == s.devices[s.next := Device(true, true, true, fp, d.uapi)]
      && t.next == s.next + 1
    ensures Inv(t)
  {
    forall i | i in t.ifaces ensures Describes(t, i) {
      if i != d.inst.id {
        assert Describes(s, i);
      }
    }
    assert t.ifaces[d.inst.id].dev == s.next;
    forall i, j | i in t.ifaces && j in t.ifaces && i != j ensures t.ifaces[i].dev != t.ifaces[j].dev {
      if i != d.inst.id { assert Describes(s, i); }
      if j != d.inst.id { assert Describes(s, j); }
    }
    forall dev | dev in t.devices ensures Owned(t, dev) || IsClosed(t.devices[dev]) {
      if dev != s.next && Owned(s, dev) {
        var i :| i in s.ifaces && s.ifaces[i].dev == dev;
        assert i in t.ifaces && t.ifaces[i].dev == dev;
      }
    }
  }

  lemma RebuildKeepsInv(s: State, d: Desire, env: Env)
    requires Inv(s)
    ensures Inv(Rebuild(s, d, env))
  {
    DiscardKeepsInv(s, d.inst.id);
    var s1 := Discard(s, d.inst.id);
    var t := Rebuild(s, d, env);
    if env.buildOk {
      if d.uapi.None? || !env.configureOk {
        FailedBuildKeepsInv(s1, t, t.devices[s1.next]);
      } else {
        BuildKeepsInv(s1, t, d);
      }
    }
  }

  // As long as every entry keeps its device, ownership is as before.
  lemma SameOwners(s: State, t: State)
    requires s.ifaces.Keys == t.ifaces.Keys
    requires forall i :: i in s.ifaces ==> t.ifaces[i].dev == s.ifaces[i].dev
    ensures forall dev: nat :: Owned(s, dev) ==> Owned(t, dev)
  {
    forall dev: nat | Owned(s, dev) ensures Owned(t, dev) {
      var i :| i in s.ifaces && s.ifaces[i].dev == dev;
      assert i in t.ifaces && t.ifaces[i].dev == dev;
    }
  }

  // In place: the entry and its device change together.
  ghost predicate InPlace(s: State, t: State, id: int, inst: Instance, conf: string)
    requires id in s.ifaces && s.ifaces[id].dev in s.devices
  {
    var cur := s.ifaces[id];
    && inst.id == id && cur.structFP == AddressFingerprint(inst)
    && t.ifaces == s.ifaces[id := cur.(inst := inst, uapi := conf, served := inst)]
    && t.devices == s.devices[cur.dev := s.devices[cur.dev].(conf := Some(conf))]
    && t.next == s.next
  }

  lemma InPlaceDescribes(s: State, t: State, id: int, inst: Instance, conf: string)
    requires Inv(s) && id in s.ifaces && s.ifaces[id].dev in s.devices && InPlace(s, t, id, inst, conf)
    ensures forall i :: i in t.ifaces ==> Describes(t, i)
  {
    assert Describes(s, id);
    forall i | i in t.ifaces ensures Describes(t, i) {
      assert Describes(s, i);
    }
  }

  lemma InPlaceKeepsInv(s: State, t: State, id: int, inst: Instance, conf: string)
    requires Inv(s) && id in s.ifaces && s.ifaces[id].dev in s.devices && InPlace(s, t, id, inst, conf)
    ensures Inv(t)
  {
    InPlaceDescribes(s, t, id, inst, conf);
    assert t.ifaces.Keys == s.ifaces.Keys;
    SameOwners(s, t);
  }

  lemma EnsureKeepsInv(s: State, d: Desire, env: Env)
    requires Inv(s)
    ensures Inv(Ensure(s, d, env))
  {
    if !Reusable(s, d) {
      RebuildKeepsInv(s, d, env);
    } else if d.uapi.Some? {
      var id := d.inst.id;
      var cur := s.ifaces[id];
      assert Describes(s, id);
      var t := Ensure(s, d, env);
      if d.uapi.value == cur.uapi || env.ipcOk {
        InPlaceKeepsInv(s, t, id, d.inst, d.uapi.value);
      } else {
        InvOfDevices(s, t);
      }
    }
  }

  /** After every run from any state the manager can be in, with any failures:
      each entry's fingerprint and UAPI text describe its own open device, no
      two entries share one, and every other device ever built is closed with
      its relay and forwards. */
  lemma {:induction false} RunKeepsInv(s: State, steps: seq<Step>)
    requires Inv(s)
    ensures Inv(Run(s, steps))
  {
    if steps != [] {
      var n := |steps| - 1;
      RunKeepsInv(s, steps[..n]);
      var mid := Run(s, steps[..n]);
      match steps[n]
      case StepStop(id, broken) => StopKeepsInv(mid, id, broken);
      case StepEnsure(d, env) => EnsureKeepsInv(mid, d, env);
    }
  }

  // -----------------------------------------------------------------------
  // Which edits a running device survives
  // -----------------------------------------------------------------------

  // What a device is built for and cannot change afterwards.
  ghost predicate SameNetstack(a: Instance, b: Instance) {
    EffectiveMTU(a.mtu, a.s4) == EffectiveMTU(b.mtu, b.s4) && a.address == b.address && a.listenFP == b.listenFP
  }

  // No device was built, closed or given another identity.
  ghost predicate SameRunning(s: State, t: State) {
    && t.next == s.next && t.devices.Keys == s.devices.Keys
    && forall dev :: dev in s.devices ==> t.devices[dev] == s.devices[dev].(conf := t.devices[dev].conf)
  }

  lemma SameNetstackReusable(s: State, d: Desire)
    requires Inv(s) && d.inst.id in s.ifaces && SameNetstack(s.ifaces[d.inst.id].inst, d.inst)
    ensures Reusable(s, d)
  {
    assert Describes(s, d.inst.id);
  }

  /** An edit that leaves MTU, addresses and listen value alone keeps the running
      device: at most its configuration changes, by exactly one IpcSet, and only
      when the text differs. One that fails, in rendering or in IpcSet, changes
      nothing but the log. */
  lemma EditInPlace(s: State, d: Desire, env: Env)
    requires Inv(s) && d.inst.id in s.ifaces && SameNetstack(s.ifaces[d.inst.id].inst, d.inst)
    ensures var t, cur := Ensure(s, d, env), s.ifaces[d.inst.id];
      && SameRunning(s, t) && t.ifaces.Keys == s.ifaces.Keys && t.ifaces[d.inst.id].dev == cur.dev
      && (d.uapi.None? ==> t == s)
      && (d.uapi.Some? ==>
            var same := d.uapi.value == cur.uapi;
            var ipc := if same then [] else [IpcSet(cur.dev)];
            && (!same && !env.ipcOk ==> t == s.(log := s.log + ipc))
            && (same || env.ipcOk ==>
                  && t.ifaces == s.ifaces[d.inst.id := cur.(inst := d.inst, uapi := d.uapi.value, served := d.inst)]
                  && t.devices == s.devices[cur.dev := s.devices[cur.dev].(conf := d.uapi)]
                  && t.log == s.log + ipc + AliasActions(cur.inst, d.inst)))
  {
    SameNetstackReusable(s, d);
    assert Describes(s, d.inst.id);
    if d.uapi.Some? {
      MovedLog(s, s.ifaces[d.inst.id].inst, d.inst, env.broken);
    }
    assert s.log + [] == s.log;
  }

  lemma MovedLog(s: State, oldInst: Instance, newInst: Instance, broken: set<Alias>)
    ensures var t := MoveAliases(s, oldInst, newInst, broken);
      t == s.(aliases := t.aliases, log := s.log + AliasActions(oldInst, newInst))
  {
  }

  // One `ip` action, if any alias moves.
  ghost function AliasActions(oldInst: Instance, newInst: Instance): seq<Action> {
    var add, remove := Dropped(Desired(newInst), Desired(oldInst)), Dropped(Desired(oldInst), Desired(newInst));
    if add == {} && remove == {} then [] else [Ip(add, remove)]
  }

  lemma OtherNetstackRebuilds(s: State, d: Desire)
    requires Inv(s) && WellFormed(d.inst)
    requires d.inst.id in s.ifaces ==> WellFormed(s.ifaces[d.inst.id].inst)
    requires d.inst.id in s.ifaces ==> !SameNetstack(s.ifaces[d.inst.id].inst, d.inst)
    ensures !Reusable(s, d)
  {
    if d.inst.id in s.ifaces {
      assert Describes(s, d.inst.id);
      FingerprintFaithful(s.ifaces[d.inst.id].inst, d.inst);
    }
  }

  /** Any other ensure closes the device the interface had, relay and forwards
      included, before it builds; it ends with a new open device that has the
      wanted configuration, or, if something failed, without an entry. */
  lemma EditRebuilds(s: State, d: Desire, env: Env)
    requires Inv(s) && WellFormed(d.inst)
    requires d.inst.id in s.ifaces ==> WellFormed(s.ifaces[d.inst.id].inst)
    requires d.inst.id in s.ifaces ==> !SameNetstack(s.ifaces[d.inst.id].inst, d.inst)
    ensures var t, id := Ensure(s, d, env), d.inst.id;
      && (id in s.ifaces ==> s.ifaces[id].dev in t.devices && IsClosed(t.devices[s.ifaces[id].dev]))
      && t.next == (if env.buildOk then s.next + 1 else s.next)
      && if env.buildOk && d.uapi.Some? && env.configureOk then
           && id in t.ifaces && t.ifaces[id].dev == s.next && t.ifaces[id].inst == d.inst == t.ifaces[id].served
           && s.next in t.devices && t.devices[s.next].open && t.devices[s.next].relayOpen
           && t.devices[s.next].forwardsOpen && t.devices[s.next].conf == d.uapi
         else id !in t.ifaces
  {
    OtherNetstackRebuilds(s, d);
    if d.inst.id in s.ifaces {
      assert Describes(s, d.inst.id);
    }
  }

  /** So a device is built or closed if and only if a managed interface changes
      MTU, addresses or listen value, or a new one can be built. */
  lemma RebuildsIff(s: State, d: Desire, env: Env)
    requires Inv(s) && WellFormed(d.inst)
    requires d.inst.id in s.ifaces ==> WellFormed(s.ifaces[d.inst.id].inst)
    ensures !SameRunning(s, Ensure(s, d, env)) <==>
      if d.inst.id in s.ifaces then !SameNetstack(s.ifaces[d.inst.id].inst, d.inst) else env.buildOk
  {
    var id := d.inst.id;
    if id in s.ifaces && SameNetstack(s.ifaces[id].inst, d.inst) {
      EditInPlace(s, d, env);
    } else {
      EditRebuilds(s, d, env);
      if id in s.ifaces {
        assert Describes(s, id);
      }
    }
  }

  // -----------------------------------------------------------------------
  // No relay is swept while its device still delivers
  // -----------------------------------------------------------------------

  ghost predicate DeviceFirst(log: seq<Action>) {
    forall i :: 0 <= i < |log| && log[i].RelayClosed? ==> DeviceClosed(log[i].dev) in log[..i]
  }

  lemma OneMore(log: seq<Action>, action: Action)
    requires DeviceFirst(log) && (action.RelayClosed? ==> DeviceClosed(action.dev) in log)
    ensures DeviceFirst(log + [action])
  {
    var all := log + [action];
    forall i | 0 <= i < |all| && all[i].RelayClosed? ensures DeviceClosed(all[i].dev) in all[..i] {
      assert all[..i] == log[..i];
      assert i == |log| ==> log[..i] == log;
    }
  }

  lemma MoveAliasesInOrder(s: State, oldInst: Instance, newInst: Instance, broken: set<Alias>)
    requires DeviceFirst(s.log)
    ensures DeviceFirst(MoveAliases(s, oldInst, newInst, broken).log)
  {
    var add, remove := Dropped(Desired(newInst), Desired(oldInst)), Dropped(Desired(oldInst), Desired(newInst));
    OneMore(s.log, Ip(add, remove));
    assert s.log + [] == s.log;
  }

  lemma CloseManagedInOrder(s: State, dev: nat)
    requires DeviceFirst(s.log)
    ensures DeviceFirst(CloseManaged(s, dev).log)
  {
    if dev in s.devices {
      var log1 := s.log + [ForwardsClosed(dev)];
      var log2 := log1 + [DeviceClosed(dev)];
      OneMore(s.log, ForwardsClosed(dev));
      OneMore(log1, DeviceClosed(dev));
      OneMore(log2, RelayClosed(dev));
      assert CloseManaged(s, dev).log == log2 + [RelayClosed(dev)];
    }
  }

  lemma AbandonInOrder(s: State, dev: nat)
    requires DeviceFirst(s.log) && dev in s.devices
    ensures DeviceFirst(Abandon(s, dev).log)
  {
    var log1 := s.log + [DeviceClosed(dev)];
    var log2 := log1 + [RelayClosed(dev)];
    OneMore(s.log, DeviceClosed(dev));
    OneMore(log1, RelayClosed(dev));
    OneMore(log2, ForwardsClosed(dev));
    assert Abandon(s, dev).log == log2 + [ForwardsClosed(dev)];
  }

  lemma BuildInOrder(s: State, oldInst: Instance, d: Desire, env: Env)
    requires DeviceFirst(s.log)
    ensures DeviceFirst(Build(s, oldInst, d, env).log)
  {
    if env.buildOk {
      var fp, dev := AddressFingerprint(d.inst), s.next;
      var s2 := s.(devices := s.devices[dev := Device(true, true, true, fp, None)], next := dev + 1,
                   log := s.log + [Built(dev)]);
      OneMore(s.log, Built(dev));
      if d.uapi.None? || !env.configureOk {
        AbandonInOrder(s2, dev);
      } else {
        var s3 := s2.(devices := s2.devices[dev := s2.devices[dev].(conf := d.uapi)],
                      ifaces := s2.ifaces[d.inst.id := Managed(dev, d.inst, fp, d.uapi.value, d.inst)],
                      log := s2.log + [IpcSet(dev)]);
        OneMore(s2.log, IpcSet(dev));
        MoveAliasesInOrder(s3, oldInst, d.inst, env.broken);
      }
    }
  }

  lemma RebuildInOrder(s: State, d: Desire, env: Env)
    requires DeviceFirst(s.log)
    ensures DeviceFirst(Rebuild(s, d, env).log)
  {
    var id := d.inst.id;
    if id in s.ifaces {
      CloseManagedInOrder(s, s.ifaces[id].dev);
    }
    BuildInOrder(Discard(s, id), if id in s.ifaces then s.ifaces[id].inst else NO_INSTANCE, d, env);
  }

  lemma InPlaceInOrder(s: State, d: Desire, env: Env)
    requires DeviceFirst(s.log) && Reusable(s, d) && d.uapi.Some?
    ensures DeviceFirst(Ensure(s, d, env).log)
  {
    var id, cur, conf := d.inst.id, s.ifaces[d.inst.id], d.uapi.value;
    if conf == cur.uapi {
      MoveAliasesInOrder(s.(ifaces := s.ifaces[id := cur.(inst := d.inst, served := d.inst)]),
                         cur.inst, d.inst, env.broken);
    } else {
      var s1 := s.(log := s.log + [IpcSet(cur.dev)]);
      OneMore(s.log, IpcSet(cur.dev));
      if env.ipcOk && cur.dev in s.devices {
        var s2 := s1.(devices := s1.devices[cur.dev := s1.devices[cur.dev].(conf := Some(conf))],
                      ifaces := s1.ifaces[id := cur.(inst := d.inst, uapi := conf, served := d.inst)]);
        MoveAliasesInOrder(s2, cur.inst, d.inst, env.broken);
      }
    }
  }

  lemma EnsureInOrder(s: State, d: Desire, env: Env)
    requires DeviceFirst(s.log)
    ensures DeviceFirst(Ensure(s, d, env).log)
  {
    if !Reusable(s, d) {
      RebuildInOrder(s, d, env);
    } else if d.uapi.Some? {
      InPlaceInOrder(s, d, env);
    }
  }

  lemma StopInOrder(s: State, id: int, broken: set<Alias>)
    requires DeviceFirst(s.log)
    ensures DeviceFirst(Stop(s, id, broken).log)
  {
    if id in s.ifaces {
      var cur := s.ifaces[id];
      MoveAliasesInOrder(s, cur.inst, NO_INSTANCE, broken);
      CloseManagedInOrder(MoveAliases(s, cur.inst, NO_INSTANCE, broken), cur.dev);
    }
  }

  /** In every run, on the failure paths too, a relay is closed only after its
      device: packet delivery has stopped by the time the sessions are swept. */
  lemma {:induction false} RelayClosesAfterDevice(steps: seq<Step>)
    ensures DeviceFirst(Run(INIT, steps).log)
  {
    if steps != [] {
      var n := |steps| - 1;
      RelayClosesAfterDevice(steps[..n]);
      var mid := Run(INIT, steps[..n]);
      match steps[n]
      case StepStop(id, broken) => StopInOrder(mid, id, broken);
      case StepEnsure(d, env) => EnsureInOrder(mid, d, env);
    }
  }

  // -----------------------------------------------------------------------
  // A settled system is left alone
  // -----------------------------------------------------------------------

  ghost predicate Settled(s: State, d: Desire) {
    && d.inst.id in s.ifaces
    && s.ifaces[d.inst.id].inst == d.inst == s.ifaces[d.inst.id].served
    && s.ifaces[d.inst.id].structFP == AddressFingerprint(d.inst)
    && d.uapi == Some(s.ifaces[d.inst.id].uapi)
  }

  lemma SuccessSettlesOne(s: State, d: Desire, env: Env)
    requires Inv(s) && Succeeds(s, d, env)
    ensures Settled(Ensure(s, d, env), d)
  {
    if Reusable(s, d) {
      assert Describes(s, d.inst.id);
    }
  }

  lemma OthersStaySettled(s: State, d: Desire, env: Env, other: Desire)
    requires Settled(s, other) && other.inst.id != d.inst.id
    ensures Settled(Ensure(s, d, env), other)
  {
  }

  lemma SettledIsNoop(s: State, d: Desire, env: Env)
    requires Settled(s, d)
    ensures Ensure(s, d, env) == s && Succeeds(s, d, env)
  {
    var cur := s.ifaces[d.inst.id];
    assert s.ifaces[d.inst.id := cur.(inst := d.inst, served := d.inst)] == s.ifaces;
    assert Dropped(Desired(d.inst), Desired(d.inst)) == {};
    var t := MoveAliases(s, d.inst, d.inst, env.broken);
    assert t.aliases == s.aliases && t.log == s.log;
  }

  ghost predicate DistinctIds(desired: seq<Desire>) {
    forall i, j :: 0 <= i < j < |desired| ==> desired[i].inst.id != desired[j].inst.id
  }

  ghost predicate EnsureSucceeds(s: State, step: Step) {
    step.StepEnsure? && Succeeds(s, step.d, step.env)
  }

  ghost predicate EnsureSettled(s: State, step: Step) {
    step.StepEnsure? && Settled(s, step.d)
  }

  // Every ensure of the run reported success.
  ghost predicate AllEnsured(s: State, desired: seq<Desire>, envs: seq<Env>)
    requires |envs| == |desired|
  {
    AllSucceed(s, Ensures(desired, envs), Do, EnsureSucceeds)
  }

  // One more successful ensure settles its own desire and unsettles none.
  lemma {:induction false} EnsuresSettle(desired: seq<Desire>, envs: seq<Env>)
    requires |envs| == |desired| && DistinctIds(desired)
    ensures Settles(Ensures(desired, envs), Do, Inv, EnsureSucceeds, EnsureSettled)
  {
    var steps := Ensures(desired, envs);
    forall t: State, i, j | 0 <= j <= i < |steps| && Inv(t) && EnsureSucceeds(t, steps[i])
                         && (j < i ==> EnsureSettled(t, steps[j]))
      ensures EnsureSettled(Do(t, steps[i]), steps[j])
    {
      if j == i {
        SuccessSettlesOne(t, desired[i], envs[i]);
      } else {
        OthersStaySettled(t, desired[i], envs[i], desired[j]);
      }
    }
  }

  ghost predicate SettledUpTo(s: State, desired: seq<Desire>, k: nat)
    requires k <= |desired|
  {
    forall i :: 0 <= i < k ==> Settled(s, desired[i])
  }

  lemma {:induction false} SuccessfulRunSettles(s: State, desired: seq<Desire>, envs: seq<Env>, k: nat)
    requires Inv(s) && |envs| == |desired| && DistinctIds(desired) && AllEnsured(s, desired, envs)
    requires k <= |desired|
    ensures SettledUpTo(Run(s, Ensures(desired, envs)[..k]), desired, k)
  {
    var steps := Ensures(desired, envs);
    EnsuresSettle(desired, envs);
    forall t: State, i | 0 <= i < |steps| && Inv(t) ensures Inv(Do(t, steps[i])) {
      EnsureKeepsInv(t, desired[i], envs[i]);
    }
    SuccessSettles(s, steps, k, Do, Inv, EnsureSucceeds, EnsureSettled);
    AsDesired(Run(s, steps[..k]), desired, envs, k);
  }

  lemma AsDesired(s: State, desired: seq<Desire>, envs: seq<Env>, k: nat)
    requires |envs| == |desired| && k <= |desired|
    requires forall j :: 0 <= j < k ==> EnsureSettled(s, Ensures(desired, envs)[j])
    ensures SettledUpTo(s, desired, k)
  {
    forall i | 0 <= i < k ensures Settled(s, desired[i]) {
      assert EnsureSettled(s, Ensures(desired, envs)[i]);
    }
  }

  lemma {:induction false} SettledRunIsNoop(s: State, desired: seq<Desire>, envs: seq<Env>)
    requires |envs| == |desired| && SettledUpTo(s, desired, |desired|)
    ensures Run(s, Ensures(desired, envs)) == s
  {
    forall i | 0 <= i < |desired| ensures Do(s, Ensures(desired, envs)[i]) == s {
      SettledIsNoop(s, desired[i], envs[i]);
    }
    FixedIsLeftAlone(s, Ensures(desired, envs), Do);
  }

  lemma {:induction false} StopsLeaveKeys(s: State, order: seq<int>, broken: set<Alias>)
    ensures forall id :: id in Run(s, Stops(order, broken)).ifaces ==> id in s.ifaces && id !in order
    decreases |order|
  {
    if order != [] {
      var n := |order| - 1;
      StopsLeaveKeys(s, order[..n], broken);
      assert Stops(order, broken)[..n] == Stops(order[..n], broken);
      assert order == order[..n] + [order[n]];
    }
  }

  lemma EnsureAddsOne(s: State, d: Desire, env: Env)
    ensures forall id :: id in Ensure(s, d, env).ifaces ==> id in s.ifaces || id == d.inst.id
  {
  }

  lemma {:induction false} EnsuresAddWanted(s: State, desired: seq<Desire>, envs: seq<Env>)
    requires |envs| == |desired|
    ensures forall id :: id in Run(s, Ensures(desired, envs)).ifaces ==> id in s.ifaces || id in WantedIds(desired)
    decreases |desired|
  {
    if desired != [] {
      var n := |desired| - 1;
      EnsuresAddWanted(s, desired[..n], envs[..n]);
      assert Ensures(desired, envs)[..n] == Ensures(desired[..n], envs[..n]);
      EnsureAddsOne(Run(s, Ensures(desired[..n], envs[..n])), desired[n], envs[n]);
      assert WantedIds(desired[..n]) <= WantedIds(desired);
      assert desired[n] in desired;
    }
  }

  ghost predicate FullySettled(s: State, desired: seq<Desire>) {
    && (forall id :: id in s.ifaces ==> id in WantedIds(desired))
    && SettledUpTo(s, desired, |desired|)
  }

  lemma {:induction false} UnwantedStopped(s: State, order: seq<int>, broken: set<Alias>, wanted: set<int>)
    requires Enumerates(order, s.ifaces.Keys - wanted)
    ensures forall id :: id in Run(s, Stops(order, broken)).ifaces ==> id in wanted
  {
    StopsLeaveKeys(s, order, broken);
  }

  lemma {:induction false} EnumeratesCount(order: seq<int>, all: set<int>)
    requires Enumerates(order, all)
    ensures |order| == |all|
  {
    if order == [] {
      EmptyOrInhabited(all);
    } else {
      var n := |order| - 1;
      var rest := order[..n];
      forall x | x in all - {order[n]} ensures x in rest {
        var i :| 0 <= i < |order| && order[i] == x;
        assert rest[i] == x;
      }
      EnumeratesCount(rest, all - {order[n]});
    }
  }

  lemma NothingUnwanted(order: seq<int>, managed: set<int>, wanted: set<int>)
    requires Enumerates(order, managed - wanted) && forall id :: id in managed ==> id in wanted
    ensures order == []
  {
    EnumeratesCount(order, managed - wanted);
    EmptyOrInhabited(managed - wanted);
  }

  lemma {:induction false} ReconcileSettles(s: State, order: seq<int>, broken: set<Alias>,
                                            desired: seq<Desire>, envs: seq<Env>)
    requires Inv(s) && |envs| == |desired| && DistinctIds(desired)
    requires Enumerates(order, s.ifaces.Keys - WantedIds(desired))
    requires AllEnsured(Run(s, Stops(order, broken)), desired, envs)
    ensures FullySettled(Run(s, Stops(order, broken) + Ensures(desired, envs)), desired)
  {
    var mid := Run(s, Stops(order, broken));
    FoldAppend(s, Stops(order, broken), Ensures(desired, envs), Do);
    RunKeepsInv(s, Stops(order, broken));
    UnwantedStopped(s, order, broken, WantedIds(desired));
    EnsuresAddWanted(mid, desired, envs);
    SuccessfulRunSettles(mid, desired, envs, |desired|);
    assert Ensures(desired, envs)[..|desired|] == Ensures(desired, envs);
  }

  lemma WithoutStops(broken: set<Alias>, rest: seq<Step>)
    ensures Stops([], broken) + rest == rest
  {
  }

  lemma {:induction false} SettledReconcileIsNoop(t: State, order: seq<int>, broken: set<Alias>,
                                                  desired: seq<Desire>, envs: seq<Env>)
    requires |envs| == |desired| && FullySettled(t, desired)
    requires Enumerates(order, t.ifaces.Keys - WantedIds(desired))
    ensures Run(t, Stops(order, broken) + Ensures(desired, envs)) == t
  {
    NothingUnwanted(order, t.ifaces.Keys, WantedIds(desired));
    WithoutStops(broken, Ensures(desired, envs));
    SettledRunIsNoop(t, desired, envs);
  }

  /** The promise behind every quiet tick: once a Reconcile has succeeded,
      repeating it with the same list changes nothing at all. No device is
      rebuilt or closed, no IpcSet and no `ip` command is issued, whatever
      the environment would have answered. */
  lemma {:induction false} ReconcileIsIdempotent(
      s: State, order: seq<int>, broken: set<Alias>, desired: seq<Desire>, envs: seq<Env>,
      order': seq<int>, broken': set<Alias>, envs': seq<Env>)
    requires Inv(s) && |envs| == |desired| && |envs'| == |desired| && DistinctIds(desired)
    requires Enumerates(order, s.ifaces.Keys - WantedIds(desired))
    requires AllEnsured(Run(s, Stops(order, broken)), desired, envs)
    requires var t := Run(s, Stops(order, broken) + Ensures(desired, envs));
             Enumerates(order', t.ifaces.Keys - WantedIds(desired))
    ensures var t := Run(s, Stops(order, broken) + Ensures(desired, envs));
            Run(t, Stops(order', broken') + Ensures(desired, envs')) == t
  {
    ReconcileSettles(s, order, broken, desired, envs);
    SettledReconcileIsNoop(Run(s, Stops(order, broken) + Ensures(desired, envs)), order', broken', desired, envs');
  }
}
