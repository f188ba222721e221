/** The AmneziaWG outbound manager (internal/amneziawgnet/outbound_manager.go)
    and the egress registry it keeps in step (internal/amneziawgnet/egress.go).

    Rendering, building, configuring, IpcSet and binding the listener may each
    fail; a failed IpcSet leaves the device's configuration as it was. */
module OutboundManager {
  import opened Runs
  import opened Text

  // An outbound with its address/MTU fingerprint, the UAPI text its options
  // render to (if they do) and its normalized DNS server ("" for none).
  datatype Desire = Desire(tag: string, fp: string, uapi: Option<string>, dns: string)

  datatype Env = Env(ipcOk: bool, buildOk: bool, configureOk: bool)

  datatype Device = Device(open: bool, fp: string, conf: Option<string>)

  datatype Managed = Managed(dev: nat, uapi: string, structFP: string)

  // What the egress server holds: the device and DNS server of each tag,
  // whether it listens, and the tags whose DNS cache it has flushed.
  datatype Registry =
    Registry(stacks: map<string, nat>, dns: map<string, string>, listening: bool, flushed: seq<string>)

  datatype State = State(iface: map<string, Managed>, devices: map<nat, Device>, next: nat,
                         ipcSets: seq<nat>, egress: Registry)

  const INIT := State(map[], map[], 0, [], Registry(map[], map[], false, []))

  // -----------------------------------------------------------------------
  // The registry
  // -----------------------------------------------------------------------

  function WithStack(r: Registry, tag: string, dev: nat, norm: string): Registry {
    var prevDNS := if tag in r.dns then r.dns[tag] else "";
    var changed := !(tag in r.stacks && r.stacks[tag] == dev) || prevDNS != norm;
    r.(stacks := r.stacks[tag := dev],
       dns := if norm != "" then r.dns[tag := norm] else r.dns - {tag},
       flushed := if changed then r.flushed + [tag] else r.flushed)
  }

  function WithoutStack(r: Registry, tag: string): Registry {
    r.(stacks := r.stacks - {tag}, dns := r.dns - {tag}, flushed := r.flushed + [tag])
  }

  class EgressServer {
    var stacks: map<string, nat>
    var dns: map<string, string>
    var tracked: set<nat>
    var listening: bool
    var flushed: seq<string>

    ghost function Abs(): Registry
      reads this
    {
      Registry(stacks, dns, listening, flushed)
    }

    constructor ()
      ensures Abs() == INIT.egress && tracked == {}
    {
      stacks, dns, tracked, listening, flushed := map[], map[], {}, false, [];
    }

    method SetStack(tag: string, dev: nat, norm: string)
      modifies this
      ensures Abs() == WithStack(old(Abs()), tag, dev, norm) && tracked == old(tracked)
    {
      var samePrev := tag in stacks && stacks[tag] == dev;
      var prevDNS := if tag in dns then dns[tag] else "";
      stacks := stacks[tag := dev];
      if norm != "" {
        dns := dns[tag := norm];
      } else {
        dns := dns - {tag};
      }
      if !samePrev || prevDNS != norm {
        flushed := flushed + [tag];
      }
    }

    method DeleteStack(tag: string)
      modifies this
      ensures Abs() == WithoutStack(old(Abs()), tag) && tracked == old(tracked)
    {
      stacks := stacks - {tag};
      dns := dns - {tag};
      flushed := flushed + [tag];
    }

    // Idempotent; a failed bind is retried by the next reconcile.
    method Listen(bindOk: bool) returns (ok: bool)
      modifies this
      ensures ok == (old(listening) || bindOk)
      ensures Abs() == old(Abs()).(listening := ok) && tracked == old(tracked)
    {
      if !listening && bindOk {
        listening := true;
      }
      ok := listening;
    }

    // Stops the listener and drops every connection it was serving.
    method Close()
      modifies this
      ensures Abs() == old(Abs()).(listening := false)
      ensures tracked == if old(listening) then {} else old(tracked)
    {
      if !listening {
        return;
      }
      listening := false;
      tracked := {};
    }
  }

  // -----------------------------------------------------------------------
  // The steps, as functions on states
  // -----------------------------------------------------------------------

  function CloseDevice(s: State, dev: nat): State {
    if dev in s.devices then s.(devices := s.devices[dev := s.devices[dev].(open := false)]) else s
  }

  // Close, unregister, forget.
  function Stop(s: State, tag: string): State {
    if tag !in s.iface then s
    else
      var s1 := CloseDevice(s, s.iface[tag].dev);
      s1.(iface := s1.iface - {tag}, egress := WithoutStack(s1.egress, tag))
  }

  function Build(s: State, d: Desire, conf: string, env: Env): State {
    if !env.buildOk then s
    else
      var dev := s.next;
      var built := s.(devices := s.devices[dev := Device(true, d.fp, None)], next := dev + 1);
      if !env.configureOk then CloseDevice(built, dev)
      else
        built.(devices := built.devices[dev := Device(true, d.fp, Some(conf))],
               ipcSets := built.ipcSets + [dev],
               iface := built.iface[d.tag := Managed(dev, conf, d.fp)],
               egress := WithStack(built.egress, d.tag, dev, d.dns))
  }

  function Ensure(s: State, d: Desire, env: Env): State {
    if d.uapi.None? then s
    else
      var conf := d.uapi.value;
      if d.tag in s.iface && s.iface[d.tag].structFP == d.fp then
        var cur := s.iface[d.tag];
        if conf == cur.uapi then s.(egress := WithStack(s.egress, d.tag, cur.dev, d.dns))
        else
          var s1 := s.(ipcSets := s.ipcSets + [cur.dev]);
          if !env.ipcOk || cur.dev !in s.devices then s1
          else
            s1.(devices := s1.devices[cur.dev := s1.devices[cur.dev].(conf := Some(conf))],
                iface := s1.iface[d.tag := cur.(uapi := conf)],
                egress := WithStack(s1.egress, d.tag, cur.dev, d.dns))
      else Build(Stop(s, d.tag), d, conf, env)
  }

  predicate Succeeds(s: State, d: Desire, env: Env) {
    d.uapi.Some? &&
    if d.tag in s.iface && s.iface[d.tag].structFP == d.fp
    then d.uapi.value == s.iface[d.tag].uapi || env.ipcOk
    else env.buildOk && env.configureOk
  }

  datatype Step =
    | StepListen(bindOk: bool)
    | StepHangUp
    | StepStop(tag: string)
    | StepEnsure(d: Desire, env: Env)

  function Do(s: State, step: Step): State {
    match step
    case StepListen(bindOk) => s.(egress := s.egress.(listening := s.egress.listening || bindOk))
    case StepHangUp => s.(egress := s.egress.(listening := false))
    case StepStop(tag) => Stop(s, tag)
    case StepEnsure(d, env) => Ensure(s, d, env)
  }

  function Run(s: State, steps: seq<Step>): State {
    Fold(s, steps, Do)
  }

  function Stops(tags: seq<string>): seq<Step> {
    seq(|tags|, i requires 0 <= i < |tags| => StepStop(tags[i]))
  }

  function Ensures(desired: seq<Desire>, envs: seq<Env>): seq<Step>
    requires |envs| == |desired|
  {
    seq(|desired|, i requires 0 <= i < |desired| => StepEnsure(desired[i], envs[i]))
  }

  // Everything a Reconcile does, given the order in which it met the tags.
  function ReconcileSteps(order: seq<string>, bindOk: bool, desired: seq<Desire>, envs: seq<Env>): seq<Step>
    requires |envs| == |desired|
  {
    if desired == [] then Stops(order) + [StepHangUp]
    else [StepListen(bindOk)] + Stops(order) + Ensures(desired, envs)
  }

  function WantedTags(desired: seq<Desire>): set<string> {
    set d | d in desired :: d.tag
  }

  ghost predicate Enumerates(order: seq<string>, all: set<string>) {
    forall tag :: tag in order <==> tag in all
  }

  // -----------------------------------------------------------------------
  // Manager and registry agree
  // -----------------------------------------------------------------------

  ghost predicate Agrees(s: State, tag: string)
    requires tag in s.iface
  {
    var cur := s.iface[tag];
    && tag in s.egress.stacks && s.egress.stacks[tag] == cur.dev
    && cur.dev in s.devices
    && s.devices[cur.dev] == Device(true, cur.structFP, Some(cur.uapi))
  }

  ghost predicate Owned(s: State, dev: nat) {
    exists tag :: tag in s.iface && s.iface[tag].dev == dev
  }

  /** The registry's tags and devices are exactly the manager's, none of them
      closed; no two tags share a device; every other device built is closed;
      DNS servers are kept only for registered tags. */
  ghost predicate Inv(s: State) {
    && KeysAgree(s)
    && (forall tag :: tag in s.iface ==> Agrees(s, tag))
    && Apart(s.iface)
    && (forall dev :: dev in s.devices ==> dev < s.next && (Owned(s, dev) || !s.devices[dev].open))
  }

  ghost predicate KeysAgree(s: State) {
    s.egress.stacks.Keys == s.iface.Keys && s.egress.dns.Keys <= s.iface.Keys
  }

  ghost predicate Apart(iface: map<string, Managed>) {
    forall t, u :: t in iface && u in iface && t != u ==> iface[t].dev != iface[u].dev
  }

  // As long as every entry keeps its device, what was owned stays owned.
  lemma OwnersStay(s: State, t: State)
    requires forall tag :: tag in s.iface ==> tag in t.iface && t.iface[tag].dev == s.iface[tag].dev
    ensures forall dev: nat :: Owned(s, dev) ==> Owned(t, dev)
  {
    forall dev: nat | Owned(s, dev) ensures Owned(t, dev) {
      var tag :| tag in s.iface && s.iface[tag].dev == dev;
      assert tag in t.iface && t.iface[tag].dev == dev;
    }
  }

  lemma StopKeepsInv(s: State, tag: string)
    requires Inv(s)
    ensures Inv(Stop(s, tag)) && tag !in Stop(s, tag).iface && Stop(s, tag).next == s.next
  {
    if tag in s.iface {
      var t := Stop(s, tag);
      assert Agrees(s, tag);
      forall u | u in t.iface ensures Agrees(t, u) {
        assert Agrees(s, u);
      }
      forall dev | dev in t.devices ensures Owned(t, dev) || !t.devices[dev].open {
        if dev != s.iface[tag].dev && Owned(s, dev) {
          var u :| u in s.iface && s.iface[u].dev == dev;
          assert u in t.iface && t.iface[u].dev == dev;
        }
      }
    }
  }

  // t is s with one more device, open, registered under tag.
  ghost predicate IsBuilt(s: State, t: State, tag: string, fp: string, conf: string) {
    && t.iface == s.iface[tag := Managed(s.next, conf, fp)]
    && t.devices == s.devices[s.next := Device(true, fp, Some(conf))] && t.next == s.next + 1
    && t.egress.stacks == s.egress.stacks[tag := s.next] && t.egress.dns.Keys <= t.iface.Keys
  }

  lemma BuiltAgrees(s: State, t: State, tag: string, fp: string, conf: string)
    requires Inv(s) && tag !in s.iface && IsBuilt(s, t, tag, fp, conf)
    ensures KeysAgree(t) && forall u :: u in t.iface ==> Agrees(t, u)
    ensures forall u :: u in s.iface ==> s.iface[u].dev != s.next
  {
    forall u | u in s.iface ensures Agrees(t, u) && s.iface[u].dev != s.next {
      assert Agrees(s, u);
    }
  }

  lemma BuiltOwned(s: State, t: State, tag: string, fp: string, conf: string)
    requires Inv(s) && tag !in s.iface && IsBuilt(s, t, tag, fp, conf)
    ensures forall dev :: dev in t.devices ==> dev < t.next && (Owned(t, dev) || !t.devices[dev].open)
  {
    OwnersStay(s, t);
    assert Owned(t, s.next) by { assert t.iface[tag].dev == s.next; }
  }

  lemma BuiltKeepsInv(s: State, t: State, tag: string, fp: string, conf: string)
    requires Inv(s) && tag !in s.iface && IsBuilt(s, t, tag, fp, conf)
    ensures Inv(t)
  {
    BuiltAgrees(s, t, tag, fp, conf);
    BuiltOwned(s, t, tag, fp, conf);
    StayApart(s.iface, tag, t.iface[tag]);
  }

  lemma StayApart(iface: map<string, Managed>, tag: string, m: Managed)
    requires Apart(iface) && forall u :: u in iface && u != tag ==> iface[u].dev != m.dev
    ensures Apart(iface[tag := m])
  {
  }

  lemma FailedBuildKeepsInv(s: State, t: State, fp: string)
    requires Inv(s)
    requires t.iface == s.iface && t.egress == s.egress
    requires t.devices == s.devices[s.next := Device(false, fp, None)] && t.next == s.next + 1
    ensures Inv(t)
  {
    OwnersStay(s, t);
    forall u | u in t.iface ensures Agrees(t, u) {
      assert Agrees(s, u);
    }
  }

  lemma BuildKeepsInv(s: State, d: Desire, conf: string, env: Env)
    requires Inv(s) && d.tag !in s.iface
    ensures Inv(Build(s, d, conf, env))
  {
    if env.buildOk && env.configureOk {
      BuiltKeepsInv(s, Build(s, d, conf, env), d.tag, d.fp, conf);
    } else if env.buildOk {
      FailedBuildKeepsInv(s, Build(s, d, conf, env), d.fp);
    }
  }

  // In place: entry, device and registration change together or not at all.
  lemma InPlaceKeepsInv(s: State, t: State, tag: string, conf: string)
    requires Inv(s) && tag in s.iface && s.iface[tag].dev in s.devices
    requires var cur := s.iface[tag];
      && t.iface == s.iface[tag := cur.(uapi := conf)]
      && t.devices == s.devices[cur.dev := s.devices[cur.dev].(conf := Some(conf))]
      && t.next == s.next
    requires t.egress.stacks == s.egress.stacks && t.egress.dns.Keys <= s.iface.Keys
    ensures Inv(t)
  {
    OwnersStay(s, t);
    assert Agrees(s, tag);
    assert KeysAgree(t) by { assert t.iface.Keys == s.iface.Keys; }
    forall u | u in t.iface ensures Agrees(t, u) {
      assert Agrees(s, u);
    }
    StayApart(s.iface, tag, t.iface[tag]);
  }

  lemma SameRegistration(r: Registry, tag: string, dev: nat, norm: string)
    requires tag in r.stacks && r.stacks[tag] == dev
    ensures WithStack(r, tag, dev, norm).stacks == r.stacks
    ensures WithStack(r, tag, dev, norm).dns.Keys <= r.dns.Keys + {tag}
  {
  }

  lemma EnsureKeepsInv(s: State, d: Desire, env: Env)
    requires Inv(s)
    ensures Inv(Ensure(s, d, env))
  {
    if d.uapi.Some? {
      if d.tag in s.iface && s.iface[d.tag].structFP == d.fp {
        var t, cur := Ensure(s, d, env), s.iface[d.tag];
        assert Agrees(s, d.tag);
        SameRegistration(s.egress, d.tag, cur.dev, d.dns);
        InPlaceKeepsInv(s, t, d.tag, if d.uapi.value == cur.uapi || env.ipcOk then d.uapi.value else cur.uapi);
      } else {
        StopKeepsInv(s, d.tag);
        BuildKeepsInv(Stop(s, d.tag), d, d.uapi.value, env);
      }
    }
  }

  lemma ListenerKeepsInv(s: State, on: bool)
    requires Inv(s)
    ensures Inv(s.(egress := s.egress.(listening := on)))
  {
    var t := s.(egress := s.egress.(listening := on));
    OwnersStay(s, t);
    forall u | u in t.iface ensures Agrees(t, u) {
      assert Agrees(s, u);
    }
  }

  lemma DoKeepsInv(s: State, step: Step)
    requires Inv(s)
    ensures Inv(Do(s, step))
  {
    match step
    case StepListen(bindOk) => ListenerKeepsInv(s, s.egress.listening || bindOk);
    case StepHangUp => ListenerKeepsInv(s, false);
    case StepStop(tag) => StopKeepsInv(s, tag);
    case StepEnsure(d, env) => EnsureKeepsInv(s, d, env);
  }

  /** Over every run of steps with any failures, the registry hands out
      exactly the manager's live devices. */
  lemma {:induction false} RunKeepsInv(s: State, steps: seq<Step>)
    requires Inv(s)
    ensures Inv(Run(s, steps))
  {
    if steps != [] {
      var n := |steps| - 1;
      RunKeepsInv(s, steps[..n]);
      DoKeepsInv(Run(s, steps[..n]), steps[n]);
    }
  }

  lemma {:induction false} StopsClear(s: State, order: seq<string>)
    ensures forall tag :: tag in Run(s, Stops(order)).iface ==> tag in s.iface && tag !in order
    decreases |order|
  {
    if order != [] {
      var n := |order| - 1;
      StopsClear(s, order[..n]);
      assert Stops(order)[..n] == Stops(order[..n]);
      assert order == order[..n] + [order[n]];
    }
  }

  /** Converging to "no tunnels" empties manager and registry and releases the
      listener; this is an empty Reconcile and a StopAll alike. */
  lemma {:induction false} EmptyReconcileClears(s: State, order: seq<string>, bindOk: bool)
    requires Inv(s) && Enumerates(order, s.iface.Keys)
    ensures var t := Run(s, ReconcileSteps(order, bindOk, [], []));
            t.iface == map[] && t.egress.stacks == map[] && t.egress.dns == map[] && !t.egress.listening
    ensures var t := Run(s, ReconcileSteps(order, bindOk, [], []));
            forall dev :: dev in t.devices ==> !t.devices[dev].open
  {
    var mid := Run(s, Stops(order));
    var t := Run(s, ReconcileSteps(order, bindOk, [], []));
    FoldOne(s, Stops(order), StepHangUp, Do);
    StopsClear(s, order);
    RunKeepsInv(s, ReconcileSteps(order, bindOk, [], []));
    assert mid.iface.Keys == {};
    assert t.iface == map[] && t.egress.stacks.Keys == {} && t.egress.dns.Keys == {};
    forall dev | dev in t.devices ensures !t.devices[dev].open {
      assert !Owned(t, dev);
    }
  }

  // -----------------------------------------------------------------------
  // A settled system is left alone
  // -----------------------------------------------------------------------

  ghost predicate Settled(s: State, d: Desire) {
    && d.tag in s.iface
    && s.iface[d.tag].structFP == d.fp
    && d.uapi == Some(s.iface[d.tag].uapi)
    && d.tag in s.egress.stacks && s.egress.stacks[d.tag] == s.iface[d.tag].dev
    && (if d.dns == "" then d.tag !in s.egress.dns else d.tag in s.egress.dns && s.egress.dns[d.tag] == d.dns)
  }

  lemma SuccessSettlesOne(s: State, d: Desire, env: Env)
    requires Inv(s) && Succeeds(s, d, env)
    ensures Settled(Ensure(s, d, env), d)
  {
    if d.tag in s.iface {
      assert Agrees(s, d.tag);
    }
  }

  // Nothing recorded about a tag differs.
  ghost predicate SameAt(s: State, t: State, tag: string) {
    && (tag in s.iface <==> tag in t.iface) && (tag in s.iface ==> t.iface[tag] == s.iface[tag])
    && SameRegistered(s.egress, t.egress, tag)
  }

  ghost predicate SameRegistered(r: Registry, q: Registry, tag: string) {
    && (tag in r.stacks <==> tag in q.stacks) && (tag in r.stacks ==> q.stacks[tag] == r.stacks[tag])
    && (tag in r.dns <==> tag in q.dns) && (tag in r.dns ==> q.dns[tag] == r.dns[tag])
  }

  lemma StopTouchesOne(s: State, tag: string, other: string)
    requires other != tag
    ensures SameAt(s, Stop(s, tag), other)
  {
  }

  lemma BuildTouchesOne(s: State, d: Desire, conf: string, env: Env, other: string)
    requires other != d.tag
    ensures SameAt(s, Build(s, d, conf, env), other)
  {
  }

  lemma EnsureTouchesOne(s: State, d: Desire, env: Env, other: string)
    requires other != d.tag
    ensures SameAt(s, Ensure(s, d, env), other)
  {
    if d.uapi.Some? && !(d.tag in s.iface && s.iface[d.tag].structFP == d.fp) {
      StopTouchesOne(s, d.tag, other);
      BuildTouchesOne(Stop(s, d.tag), d, d.uapi.value, env, other);
    }
  }

  lemma OthersStaySettled(s: State, d: Desire, env: Env, other: Desire)
    requires Settled(s, other) && other.tag != d.tag
    ensures Settled(Ensure(s, d, env), other)
  {
    EnsureTouchesOne(s, d, env, other.tag);
    StaysSettled(s, Ensure(s, d, env), other);
  }

  lemma StaysSettled(s: State, t: State, d: Desire)
    requires Settled(s, d) && SameAt(s, t, d.tag)
    ensures Settled(t, d)
  {
  }

  lemma SettledIsNoop(s: State, d: Desire, env: Env)
    requires Settled(s, d)
    ensures Ensure(s, d, env) == s
  {
    var r := WithStack(s.egress, d.tag, s.iface[d.tag].dev, d.dns);
    assert r.stacks == s.egress.stacks && r.dns == s.egress.dns && r.flushed == s.egress.flushed;
  }

  ghost predicate DistinctTags(desired: seq<Desire>) {
    forall i, j :: 0 <= i < j < |desired| ==> desired[i].tag != desired[j].tag
  }

  ghost predicate EnsureSucceeds(s: State, step: Step) {
    step.StepEnsure? && Succeeds(s, step.d, step.env)
  }

  ghost predicate EnsureSettled(s: State, step: Step) {
    step.StepEnsure? && Settled(s, step.d)
  }

  // Every ensure of the run reported success.
  ghost predicate AllEnsured(s: State, desired: seq<Desire>, envs: seq<Env>)
    requires |envs| == |desired|
  {
    AllSucceed(s, Ensures(desired, envs), Do, EnsureSucceeds)
  }

  ghost predicate AllSettled(s: State, desired: seq<Desire>) {
    forall i :: 0 <= i < |desired| ==> Settled(s, desired[i])
  }

  // One more successful ensure settles its own desire and unsettles none.
  lemma {:induction false} EnsuresSettle(desired: seq<Desire>, envs: seq<Env>)
    requires |envs| == |desired| && DistinctTags(desired)
    ensures Settles(Ensures(desired, envs), Do, Inv, EnsureSucceeds, EnsureSettled)
  {
    var steps := Ensures(desired, envs);
    forall t: State, i, j | 0 <= j <= i < |steps| && Inv(t) && EnsureSucceeds(t, steps[i])
                         && (j < i ==> EnsureSettled(t, steps[j]))
      ensures EnsureSettled(Do(t, steps[i]), steps[j])
    {
      if j == i {
        SuccessSettlesOne(t, desired[i], envs[i]);
      } else {
        OthersStaySettled(t, desired[i], envs[i], desired[j]);
      }
    }
  }

  lemma {:induction false} SuccessfulRunSettles(s: State, desired: seq<Desire>, envs: seq<Env>)
    requires Inv(s) && |envs| == |desired| && DistinctTags(desired) && AllEnsured(s, desired, envs)
    ensures AllSettled(Run(s, Ensures(desired, envs)), desired)
  {
    var steps := Ensures(desired, envs);
    EnsuresSettle(desired, envs);
    forall t: State, i | 0 <= i < |steps| && Inv(t) ensures Inv(Do(t, steps[i])) {
      DoKeepsInv(t, steps[i]);
    }
    SuccessSettles(s, steps, |steps|, Do, Inv, EnsureSucceeds, EnsureSettled);
    assert steps[..|steps|] == steps;
    AsDesired(Run(s, steps), desired, envs);
  }

  lemma AsDesired(s: State, desired: seq<Desire>, envs: seq<Env>)
    requires |envs| == |desired|
    requires forall j :: 0 <= j < |desired| ==> EnsureSettled(s, Ensures(desired, envs)[j])
    ensures AllSettled(s, desired)
  {
    forall i | 0 <= i < |desired| ensures Settled(s, desired[i]) {
      assert EnsureSettled(s, Ensures(desired, envs)[i]);
    }
  }

  lemma {:induction false} SettledRunIsNoop(s: State, desired: seq<Desire>, envs: seq<Env>)
    requires |envs| == |desired| && AllSettled(s, desired)
    ensures Run(s, Ensures(desired, envs)) == s
  {
    forall i | 0 <= i < |desired| ensures Do(s, Ensures(desired, envs)[i]) == s {
      SettledIsNoop(s, desired[i], envs[i]);
    }
    FixedIsLeftAlone(s, Ensures(desired, envs), Do);
  }

  /** Ensuring a list again after it succeeded touches no device, issues no
      IpcSet, re-registers nothing new and flushes no DNS cache. */
  lemma {:induction false} EnsuresAreIdempotent(s: State, desired: seq<Desire>, envs: seq<Env>, envs': seq<Env>)
    requires Inv(s) && |envs| == |desired| && |envs'| == |desired| && DistinctTags(desired)
    requires AllEnsured(s, desired, envs)
    ensures Run(Run(s, Ensures(desired, envs)), Ensures(desired, envs')) == Run(s, Ensures(desired, envs))
  {
    SuccessfulRunSettles(s, desired, envs);
    SettledRunIsNoop(Run(s, Ensures(desired, envs)), desired, envs');
  }

  // -----------------------------------------------------------------------
  // A whole reconcile, repeated
  // -----------------------------------------------------------------------

  lemma EnsureAddsOne(s: State, d: Desire, env: Env)
    ensures forall tag :: tag in Ensure(s, d, env).iface ==> tag in s.iface || tag == d.tag
  {
  }

  lemma {:induction false} EnsuresAddWanted(s: State, desired: seq<Desire>, envs: seq<Env>)
    requires |envs| == |desired|
    ensures forall tag :: tag in Run(s, Ensures(desired, envs)).iface ==> tag in s.iface || tag in WantedTags(desired)
    decreases |desired|
  {
    if desired != [] {
      var n := |desired| - 1;
      EnsuresAddWanted(s, desired[..n], envs[..n]);
      assert Ensures(desired, envs)[..n] == Ensures(desired[..n], envs[..n]);
      EnsureAddsOne(Run(s, Ensures(desired[..n], envs[..n])), desired[n], envs[n]);
      assert WantedTags(desired[..n]) <= WantedTags(desired);
      assert desired[n] in desired;
    }
  }

  // No device was built, closed or given another identity.
  ghost predicate SameRunning(s: State, t: State) {
    && t.next == s.next && t.devices.Keys == s.devices.Keys
    && forall dev :: dev in s.devices ==> t.devices[dev] == s.devices[dev].(conf := t.devices[dev].conf)
  }

  ghost function DnsOf(r: Registry, tag: string): string {
    if tag in r.dns then r.dns[tag] else ""
  }

  // The tag keeps its device and gets the DNS server; its cache is flushed if
  // that is another one than before, and only then.
  ghost predicate FollowsDns(r: Registry, r': Registry, tag: string, dns: string) {
    && r'.stacks == r.stacks && DnsOf(r', tag) == dns && r'.listening == r.listening
    && r'.dns - {tag} == r.dns - {tag}
    && r'.flushed == r.flushed + (if DnsOf(r, tag) == dns then [] else [tag])
  }

  lemma SameStackFollowsDns(r: Registry, tag: string, dev: nat, dns: string)
    requires tag in r.stacks && r.stacks[tag] == dev
    ensures FollowsDns(r, WithStack(r, tag, dev, dns), tag, dns)
  {
    var r' := WithStack(r, tag, dev, dns);
    assert r'.stacks == r.stacks;
    assert r.flushed + [] == r.flushed;
    assert r'.dns - {tag} == r.dns - {tag};
  }

  /** With address and MTU as they were, the running device is kept: its
      configuration changes by exactly one IpcSet, and only when the text
      differs; the registry follows the DNS server. A failed IpcSet changes
      nothing else. */
  lemma EditInPlace(s: State, d: Desire, env: Env)
    requires Inv(s) && d.tag in s.iface && s.devices[s.iface[d.tag].dev].fp == d.fp && d.uapi.Some?
    ensures var t, cur := Ensure(s, d, env), s.iface[d.tag];
      var same := d.uapi.value == cur.uapi;
      && SameRunning(s, t) && t.iface.Keys == s.iface.Keys && t.iface[d.tag].dev == cur.dev
      && t.ipcSets == s.ipcSets + (if same then [] else [cur.dev])
      && (if same || env.ipcOk then
            && t.iface == s.iface[d.tag := cur.(uapi := d.uapi.value)]
            && t.devices == s.devices[cur.dev := s.devices[cur.dev].(conf := d.uapi)]
            && FollowsDns(s.egress, t.egress, d.tag, d.dns)
          else t == s.(ipcSets := t.ipcSets))
  {
    assert Agrees(s, d.tag);
    SameStackFollowsDns(s.egress, d.tag, s.iface[d.tag].dev, d.dns);
    assert s.ipcSets + [] == s.ipcSets;
  }

  /** With another address or MTU, or a new tag, the old device is closed first;
      the tag then has a new open device with the wanted configuration, or, if
      something failed, none at all. Text that does not render changes nothing. */
  lemma EditRebuilds(s: State, d: Desire, env: Env)
    requires Inv(s) && (d.tag in s.iface ==> s.devices[s.iface[d.tag].dev].fp != d.fp)
    ensures var t := Ensure(s, d, env);
      if d.uapi.None? then t == s
      else
        && (d.tag in s.iface ==> s.iface[d.tag].dev in t.devices && !t.devices[s.iface[d.tag].dev].open)
        && t.next == (if env.buildOk then s.next + 1 else s.next)
        && if env.buildOk && env.configureOk then
             && d.tag in t.iface && t.iface[d.tag].dev == s.next
             && d.tag in t.egress.stacks && t.egress.stacks[d.tag] == s.next && DnsOf(t.egress, d.tag) == d.dns
             && t.egress.flushed != [] && t.egress.flushed[|t.egress.flushed| - 1] == d.tag
             && s.next in t.devices && t.devices[s.next] == Device(true, d.fp, d.uapi)
           else d.tag !in t.iface && d.tag !in t.egress.stacks
  {
    if d.tag in s.iface {
      assert Agrees(s, d.tag);
    }
  }

  /** Removing a tag closes its device, takes it out of manager and registry and
      flushes its cache; a tag that is not there is left alone. */
  lemma RemoveOutcome(s: State, tag: string)
    requires Inv(s)
    ensures var t := Stop(s, tag);
      if tag !in s.iface then t == s
      else
        && t.iface == s.iface - {tag} && t.next == s.next && t.ipcSets == s.ipcSets
        && t.devices == s.devices[s.iface[tag].dev := s.devices[s.iface[tag].dev].(open := false)]
        && t.egress.stacks == s.egress.stacks - {tag} && t.egress.dns == s.egress.dns - {tag}
        && t.egress.flushed == s.egress.flushed + [tag] && t.egress.listening == s.egress.listening
  {
    if tag in s.iface {
      assert Agrees(s, tag);
    }
  }

  /** So a device is built or closed if and only if the text renders and either
      a known tag changes address or MTU, or a new one can be built. */
  lemma RebuildsIff(s: State, d: Desire, env: Env)
    requires Inv(s)
    ensures !SameRunning(s, Ensure(s, d, env)) <==>
      d.uapi.Some? && if d.tag in s.iface then s.devices[s.iface[d.tag].dev].fp != d.fp else env.buildOk
  {
    if d.tag in s.iface && s.devices[s.iface[d.tag].dev].fp == d.fp {
      if d.uapi.Some? {
        EditInPlace(s, d, env);
      }
    } else {
      EditRebuilds(s, d, env);
      if d.tag in s.iface {
        assert Agrees(s, d.tag);
      }
    }
  }

  // A reconcile of a list that is not empty, in three parts.
  lemma {:induction false} ReconcileParts(s: State, order: seq<string>, bindOk: bool,
                                          desired: seq<Desire>, envs: seq<Env>)
    requires |envs| == |desired| && desired != []
    ensures Run(s, ReconcileSteps(order, bindOk, desired, envs))
         == Run(Run(Do(s, StepListen(bindOk)), Stops(order)), Ensures(desired, envs))
  {
    FoldOne(s, [], StepListen(bindOk), Do);
    assert [] + [StepListen(bindOk)] == [StepListen(bindOk)];
    FoldAppend(s, [StepListen(bindOk)], Stops(order), Do);
    FoldAppend(s, [StepListen(bindOk)] + Stops(order), Ensures(desired, envs), Do);
  }

  // Exactly the wanted tunnels, as wanted.
  ghost predicate FullySettled(s: State, desired: seq<Desire>) {
    AllSettled(s, desired) && forall tag :: tag in s.iface ==> tag in WantedTags(desired)
  }

  lemma {:induction false} ReconcileSettles(s: State, order: seq<string>, bindOk: bool,
                                            desired: seq<Desire>, envs: seq<Env>)
    requires Inv(s) && |envs| == |desired| && desired != [] && DistinctTags(desired)
    requires Enumerates(order, s.iface.Keys - WantedTags(desired))
    requires AllEnsured(Run(Do(s, StepListen(bindOk)), Stops(order)), desired, envs)
    ensures FullySettled(Run(s, ReconcileSteps(order, bindOk, desired, envs)), desired)
  {
    var s1 := Do(s, StepListen(bindOk));
    var mid := Run(s1, Stops(order));
    ReconcileParts(s, order, bindOk, desired, envs);
    DoKeepsInv(s, StepListen(bindOk));
    RunKeepsInv(s1, Stops(order));
    SuccessfulRunSettles(mid, desired, envs);
    StopsClear(s1, order);
    EnsuresAddWanted(mid, desired, envs);
  }

  lemma FirstIsListed(order: seq<string>, all: set<string>)
    requires Enumerates(order, all)
    ensures order != [] ==> order[0] in all
  {
    if order != [] {
      assert order[0] in order;
    }
  }

  // On a settled system a reconcile can at most start listening.
  lemma {:induction false} SettledReconcile(t: State, order: seq<string>, bindOk: bool,
                                            desired: seq<Desire>, envs: seq<Env>)
    requires |envs| == |desired| && desired != [] && FullySettled(t, desired)
    requires Enumerates(order, t.iface.Keys - WantedTags(desired))
    ensures Run(t, ReconcileSteps(order, bindOk, desired, envs)) == Do(t, StepListen(bindOk))
  {
    FirstIsListed(order, t.iface.Keys - WantedTags(desired));
    assert order == [];
    ReconcileParts(t, order, bindOk, desired, envs);
    var t1 := Do(t, StepListen(bindOk));
    assert Stops(order) == [] && Run(t1, Stops(order)) == t1;
    forall i | 0 <= i < |desired| ensures Settled(t1, desired[i]) {
      StaysSettled(t, t1, desired[i]);
    }
    SettledRunIsNoop(t1, desired, envs);
  }

  /** The whole Reconcile, repeated with the same list after it succeeded: no
      device is built, closed or reconfigured, no registration or DNS cache
      touched. It changes nothing at all exactly when the egress already
      listened, or cannot bind this time either. */
  lemma {:induction false} ReconcileIsIdempotent(
      s: State, order: seq<string>, bindOk: bool, desired: seq<Desire>, envs: seq<Env>,
      order': seq<string>, bindOk': bool, envs': seq<Env>)
    requires Inv(s) && |envs| == |desired| && |envs'| == |desired| && desired != [] && DistinctTags(desired)
    requires Enumerates(order, s.iface.Keys - WantedTags(desired))
    requires AllEnsured(Run(Do(s, StepListen(bindOk)), Stops(order)), desired, envs)
    requires var t := Run(s, ReconcileSteps(order, bindOk, desired, envs));
             Enumerates(order', t.iface.Keys - WantedTags(desired))
    ensures var t := Run(s, ReconcileSteps(order, bindOk, desired, envs));
      var t' := Run(t, ReconcileSteps(order', bindOk', desired, envs'));
      && t' == t.(egress := t.egress.(listening := t.egress.listening || bindOk'))
      && (t' == t <==> t.egress.listening || !bindOk')
  {
    ReconcileSettles(s, order, bindOk, desired, envs);
    SettledReconcile(Run(s, ReconcileSteps(order, bindOk, desired, envs)), order', bindOk', desired, envs');
  }

  /** An empty Reconcile, repeated, changes nothing. */
  lemma {:induction false} EmptyReconcileIsIdempotent(s: State, order: seq<string>, bindOk: bool,
                                                      order': seq<string>, bindOk': bool)
    requires Inv(s) && Enumerates(order, s.iface.Keys)
    requires Enumerates(order', Run(s, ReconcileSteps(order, bindOk, [], [])).iface.Keys)
    ensures var t := Run(s, ReconcileSteps(order, bindOk, [], []));
            Run(t, ReconcileSteps(order', bindOk', [], [])) == t
  {
    var t := Run(s, ReconcileSteps(order, bindOk, [], []));
    EmptyReconcileClears(s, order, bindOk);
    FirstIsListed(order', t.iface.Keys);
    assert order' == [] && Stops(order') == [];
    FoldOne(t, Stops(order'), StepHangUp, Do);
    assert t.egress.(listening := false) == t.egress;
  }

  // -----------------------------------------------------------------------
  // The manager object
  // -----------------------------------------------------------------------

  class Manager {
    var iface: map<string, Managed>
    var devices: map<nat, Device>
    var next: nat
    var ipcSets: seq<nat>
    const egress: EgressServer

    ghost function Abs(): State
      reads this, egress
    {
      State(iface, devices, next, ipcSets, egress.Abs())
    }

    ghost predicate Valid()
      reads this, egress
    {
      Inv(Abs())
    }

    constructor ()
      ensures Valid() && Abs() == INIT && fresh(egress)
    {
      iface, devices, next, ipcSets := map[], map[], 0, [];
      egress := new EgressServer();
    }

    method CloseAt(dev: nat)
      modifies this
      ensures Abs() == CloseDevice(old(Abs()), dev)
    {
      if dev in devices {
        devices := devices[dev := devices[dev].(open := false)];
      }
    }

    method Remove(tag: string)
      requires Valid()
      modifies this, egress
      ensures Valid() && Abs() == Stop(old(Abs()), tag)
    {
      StopKeepsInv(Abs(), tag);
      if tag !in iface {
        return;
      }
      Forget(tag);
    }

    // Called with the lock held; StopKeepsInv says it keeps Valid().
    method Forget(tag: string)
      requires tag in iface
      modifies this, egress
      ensures Abs() == Stop(old(Abs()), tag)
    {
      CloseAt(iface[tag].dev);
      egress.DeleteStack(tag);
      iface := iface - {tag};
    }

    // Called with the lock held; EnsureKeepsInv says it keeps Valid().
    method EnsureLocked(d: Desire, env: Env) returns (ok: bool)
      requires d.tag in iface ==> iface[d.tag].dev in devices
      modifies this, egress
      ensures Abs() == Ensure(old(Abs()), d, env)
      ensures ok == Succeeds(old(Abs()), d, env)
    {
      if d.uapi.None? {
        return false;
      }
      var conf := d.uapi.value;
      if d.tag in iface {
        var cur := iface[d.tag];
        if cur.structFP == d.fp {
          if conf == cur.uapi {
            egress.SetStack(d.tag, cur.dev, d.dns);
            return true;
          }
          ipcSets := ipcSets + [cur.dev];
          if !env.ipcOk {
            return false;
          }
          devices := devices[cur.dev := devices[cur.dev].(conf := Some(conf))];
          iface := iface[d.tag := cur.(uapi := conf)];
          egress.SetStack(d.tag, cur.dev, d.dns);
          return true;
        }
        Forget(d.tag);
      }
      ok := BuildAndRegister(d, conf, env);
    }

    method BuildAndRegister(d: Desire, conf: string, env: Env) returns (ok: bool)
      modifies this, egress
      ensures Abs() == Build(old(Abs()), d, conf, env)
      ensures ok == (env.buildOk && env.configureOk)
    {
      if !env.buildOk {
        return false;
      }
      var dev := next;
      devices := devices[dev := Device(true, d.fp, None)];
      next := dev + 1;
      if !env.configureOk {
        CloseAt(dev);
        return false;
      }
      ipcSets := ipcSets + [dev];
      devices := devices[dev := Device(true, d.fp, Some(conf))];
      iface := iface[d.tag := Managed(dev, conf, d.fp)];
      egress.SetStack(d.tag, dev, d.dns);
      return true;
    }

    method StopThese(tags: set<string>) returns (ghost order: seq<string>)
      requires Valid()
      modifies this, egress
      ensures Valid() && Enumerates(order, tags)
      ensures Abs() == Run(old(Abs()), Stops(order))
    {
      order := [];
      var pending := tags;
      while pending != {}
        invariant Valid() && pending <= tags
        invariant Enumerates(order, tags - pending)
        invariant Abs() == Run(old(Abs()), Stops(order))
        decreases pending
      {
        var tag :| tag in pending;
        Remove(tag);
        assert Stops(order + [tag]) == Stops(order) + [StepStop(tag)];
        FoldOne(old(Abs()), Stops(order), StepStop(tag), Do);
        order := order + [tag];
        pending := pending - {tag};
      }
    }

    // Stops every tunnel and releases the listener.
    method Clear() returns (ghost order: seq<string>)
      requires Valid()
      modifies this, egress
      ensures Valid() && Enumerates(order, old(iface.Keys))
      ensures Abs() == Run(old(Abs()), Stops(order) + [StepHangUp])
      ensures iface == map[] && egress.stacks == map[] && !egress.listening
    {
      order := StopThese(iface.Keys);
      ListenerKeepsInv(Abs(), false);
      egress.Close();
      FoldOne(old(Abs()), Stops(order), StepHangUp, Do);
      EmptyReconcileClears(old(Abs()), order, false);
    }

    method StopAll() returns (ghost order: seq<string>)
      requires Valid()
      modifies this, egress
      ensures Valid() && Enumerates(order, old(iface.Keys))
      ensures Abs() == Run(old(Abs()), ReconcileSteps(order, false, [], []))
      ensures iface == map[] && egress.stacks == map[] && !egress.listening
    {
      order := Clear();
    }

    // The loop over the wanted tunnels.
    method EnsureAll(desired: seq<Desire>, envs: seq<Env>)
      requires Valid() && |envs| == |desired|
      modifies this, egress
      ensures Valid() && Abs() == Run(old(Abs()), Ensures(desired, envs))
    {
      ghost var steps := Ensures(desired, envs);
      for i := 0 to |desired|
        invariant Valid() && Abs() == Run(old(Abs()), steps[..i])
      {
        assert desired[i].tag in iface ==> Agrees(Abs(), desired[i].tag);
        EnsureKeepsInv(Abs(), desired[i], envs[i]);
        var _ := EnsureLocked(desired[i], envs[i]);
        assert steps[..i + 1] == steps[..i] + [steps[i]];
        FoldOne(old(Abs()), steps[..i], steps[i], Do);
      }
      assert steps[..|desired|] == steps;
    }

    method Reconcile(desired: seq<Desire>, bindOk: bool, envs: seq<Env>) returns (ghost order: seq<string>)
      requires Valid() && |envs| == |desired|
      modifies this, egress
      ensures Valid() && Enumerates(order, old(iface.Keys) - WantedTags(desired))
      ensures Abs() == Run(old(Abs()), ReconcileSteps(order, bindOk, desired, envs))
      ensures desired == [] ==> iface == map[] && egress.stacks == map[] && !egress.listening
    {
      if |desired| == 0 {
        order := Clear();
        return;
      }
      ListenerKeepsInv(Abs(), egress.listening || bindOk);
      FoldOne(Abs(), [], StepListen(bindOk), Do);
      var _ := egress.Listen(bindOk);
      var want := set d | d in desired :: d.tag;
      order := StopThese(iface.Keys - want);
      EnsureAll(desired, envs);
      FoldAppend(old(Abs()), [StepListen(bindOk)], Stops(order), Do);
      FoldAppend(old(Abs()), [StepListen(bindOk)] + Stops(order), Ensures(desired, envs), Do);
    }
  }
}
