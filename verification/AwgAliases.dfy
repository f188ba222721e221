/** The host's IPv6 aliases over runs of the AmneziaWG manager: exactly when they
    are the ones the managed interfaces want, and when a peer can be without
    one while they move. */
module AwgAliases {
  import opened Collections
  import opened Runs
  import opened Text
  import opened AwgTypes
  import opened V6Alias
  import opened AwgManager

  // -----------------------------------------------------------------------
  // The host's aliases over runs
  // -----------------------------------------------------------------------

  // What the managed interfaces want, leaving out one id.
  ghost function WantedExcept(s: State, id: int): set<Alias> {
    set i, e | i in s.ifaces && i != id && e in Desired(s.ifaces[i].inst) :: Desired(s.ifaces[i].inst)[e]
  }

  ghost function WantedAliases(s: State): set<Alias> {
    set i, e | i in s.ifaces && e in Desired(s.ifaces[i].inst) :: Desired(s.ifaces[i].inst)[e]
  }

  ghost predicate AliasesExact(s: State) {
    s.aliases == WantedAliases(s)
  }

  ghost function DesiredOf(s: State, id: int): map<string, Alias> {
    if id in s.ifaces then Desired(s.ifaces[id].inst) else map[]
  }

  lemma WantedSplit(s: State, id: int)
    ensures WantedAliases(s) == WantedExcept(s, id) + Values(DesiredOf(s, id))
  {
    forall a | a in WantedAliases(s) ensures a in WantedExcept(s, id) + Values(DesiredOf(s, id)) {
      var i, e :| i in s.ifaces && e in Desired(s.ifaces[i].inst) && Desired(s.ifaces[i].inst)[e] == a;
      if i == id {
        assert DesiredOf(s, id)[e] in Values(DesiredOf(s, id));
      } else {
        assert a in WantedExcept(s, id);
      }
    }
    forall a | a in WantedExcept(s, id) + Values(DesiredOf(s, id)) ensures a in WantedAliases(s) {
      if a in WantedExcept(s, id) {
        var i, e :| i in s.ifaces && i != id && e in Desired(s.ifaces[i].inst) && Desired(s.ifaces[i].inst)[e] == a;
      } else {
        var e :| e in DesiredOf(s, id) && DesiredOf(s, id)[e] == a;
        assert id in s.ifaces && e in Desired(s.ifaces[id].inst);
      }
    }
  }

  // Only the entry of one id differs.
  ghost predicate OthersSame(s: State, t: State, id: int) {
    && (forall i :: i in s.ifaces && i != id ==> i in t.ifaces && t.ifaces[i].inst == s.ifaces[i].inst)
    && (forall i :: i in t.ifaces && i != id ==> i in s.ifaces)
  }

  lemma WantedOthersSame(s: State, t: State, id: int)
    requires OthersSame(s, t, id)
    ensures WantedExcept(s, id) == WantedExcept(t, id)
  {
    forall a | a in WantedExcept(s, id) ensures a in WantedExcept(t, id) {
      var i, e :| i in s.ifaces && i != id && e in Desired(s.ifaces[i].inst) && Desired(s.ifaces[i].inst)[e] == a;
      assert i in t.ifaces && e in Desired(t.ifaces[i].inst) && Desired(t.ifaces[i].inst)[e] == a;
    }
    forall a | a in WantedExcept(t, id) ensures a in WantedExcept(s, id) {
      var i, e :| i in t.ifaces && i != id && e in Desired(t.ifaces[i].inst) && Desired(t.ifaces[i].inst)[e] == a;
      assert i in s.ifaces && e in Desired(s.ifaces[i].inst) && Desired(s.ifaces[i].inst)[e] == a;
    }
  }

  // Replacing the aliases of one id by a new map is safe exactly when
  // nothing removed is still wanted.
  ghost predicate SafeMove(s: State, id: int, after: map<string, Alias>) {
    Dropped(DesiredOf(s, id), after) !! (WantedExcept(s, id) + Values(after))
  }

  // Can this step leave the host with an alias too many or too few? Decided
  // before the step from the state and what the step is about to meet.
  ghost predicate SafeStep(s: State, step: Step) {
    match step
    case StepStop(id, _) => SafeMove(s, id, map[])
    case StepEnsure(d, env) =>
      if Succeeds(s, d, env) then SafeMove(s, d.inst.id, Desired(d.inst))
      else if Reusable(s, d) then true
      else Values(DesiredOf(s, d.inst.id)) <= WantedExcept(s, d.inst.id)
  }

  ghost predicate NoIpFailure(step: Step) {
    match step
    case StepStop(_, broken) => broken == {}
    case StepEnsure(_, env) => env.broken == {}
  }

  lemma NothingDesired()
    ensures Desired(NO_INSTANCE) == map[]
  {
  }

  // A step that moves id's aliases from the old map to the new one.
  lemma MoveStepExact(s: State, t: State, id: int, after: map<string, Alias>)
    requires AliasesExact(s) && OthersSame(s, t, id) && DesiredOf(t, id) == after
    requires t.aliases == s.aliases + Dropped(after, DesiredOf(s, id)) - Dropped(DesiredOf(s, id), after)
    ensures AliasesExact(t) <==> SafeMove(s, id, after)
  {
    WantedSplit(s, id);
    WantedSplit(t, id);
    WantedOthersSame(s, t, id);
    MoveExact(s.aliases, WantedExcept(s, id), DesiredOf(s, id), after);
  }

  lemma StopExact(s: State, id: int)
    requires AliasesExact(s)
    ensures AliasesExact(Stop(s, id, {})) <==> SafeStep(s, StepStop(id, {}))
  {
    NothingDesired();
    var t := Stop(s, id, {});
    if id in s.ifaces {
      MoveStepExact(s, t, id, map[]);
    } else {
      MoveStepExact(s, s, id, map[]);
    }
  }

  lemma EnsureSuccessExact(s: State, d: Desire, env: Env)
    requires Inv(s) && AliasesExact(s) && env.broken == {} && Succeeds(s, d, env)
    ensures AliasesExact(Ensure(s, d, env)) <==> SafeMove(s, d.inst.id, Desired(d.inst))
  {
    SuccessMoves(s, d, env);
    MoveStepExact(s, Ensure(s, d, env), d.inst.id, Desired(d.inst));
  }

  // A successful ensure moves the aliases from the old instance's to the new's.
  lemma EnsureMoves(s: State, d: Desire, env: Env)
    requires Inv(s) && Succeeds(s, d, env)
    ensures var was, now := DesiredOf(s, d.inst.id), Desired(d.inst);
      Ensure(s, d, env).aliases == s.aliases + (Dropped(now, was) - env.broken) - (Dropped(was, now) - env.broken)
  {
    NothingDesired();
    if Reusable(s, d) {
      assert Describes(s, d.inst.id);
    }
  }

  lemma EnsureRecords(s: State, d: Desire, env: Env)
    requires Inv(s) && Succeeds(s, d, env)
    ensures var t, id := Ensure(s, d, env), d.inst.id;
      OthersSame(s, t, id) && id in t.ifaces && t.ifaces[id].inst == d.inst
  {
    if Reusable(s, d) {
      assert Describes(s, d.inst.id);
    }
  }

  lemma SuccessMoves(s: State, d: Desire, env: Env)
    requires Inv(s) && env.broken == {} && Succeeds(s, d, env)
    ensures var t, id := Ensure(s, d, env), d.inst.id;
      && OthersSame(s, t, id) && id in t.ifaces && t.ifaces[id].inst == d.inst
      && t.aliases ==
        s.aliases + Dropped(Desired(d.inst), DesiredOf(s, id)) - Dropped(DesiredOf(s, id), Desired(d.inst))
  {
    EnsureMoves(s, d, env);
    EnsureRecords(s, d, env);
  }

  lemma FailedBuildShape(s: State, oldInst: Instance, d: Desire, env: Env)
    requires !(env.buildOk && d.uapi.Some? && env.configureOk)
    ensures Build(s, oldInst, d, env).aliases == s.aliases && Build(s, oldInst, d, env).ifaces == s.ifaces
  {
  }

  // A failed rebuild forgets the instance and touches no alias.
  lemma FailedRebuildShape(s: State, d: Desire, env: Env)
    requires !Succeeds(s, d, env) && !Reusable(s, d)
    ensures Ensure(s, d, env).aliases == s.aliases && Ensure(s, d, env).ifaces == s.ifaces - {d.inst.id}
  {
    var oldInst := if d.inst.id in s.ifaces then s.ifaces[d.inst.id].inst else NO_INSTANCE;
    FailedBuildShape(Discard(s, d.inst.id), oldInst, d, env);
  }

  // An ensure that fails in place changes nothing that matters here.
  lemma FailedInPlaceShape(s: State, d: Desire, env: Env)
    requires !Succeeds(s, d, env) && Reusable(s, d)
    ensures Ensure(s, d, env).aliases == s.aliases && Ensure(s, d, env).ifaces == s.ifaces
  {
  }

  lemma ForgottenExact(s: State, t: State, id: int)
    requires AliasesExact(s) && t.aliases == s.aliases && t.ifaces == s.ifaces - {id}
    ensures AliasesExact(t) <==> Values(DesiredOf(s, id)) <= WantedExcept(s, id)
  {
    WantedSplit(s, id);
    WantedSplit(t, id);
    WantedOthersSame(s, t, id);
  }

  lemma EnsureFailureExact(s: State, d: Desire, env: Env)
    requires Inv(s) && AliasesExact(s) && !Succeeds(s, d, env)
    ensures AliasesExact(Ensure(s, d, env)) <==> SafeStep(s, StepEnsure(d, env))
  {
    var t := Ensure(s, d, env);
    if Reusable(s, d) {
      FailedInPlaceShape(s, d, env);
      assert WantedAliases(t) == WantedAliases(s);
    } else {
      FailedRebuildShape(s, d, env);
      ForgottenExact(s, t, d.inst.id);
    }
  }

  lemma StepExact(s: State, step: Step)
    requires Inv(s) && AliasesExact(s) && NoIpFailure(step)
    ensures AliasesExact(Do(s, step)) <==> SafeStep(s, step)
  {
    match step
    case StepStop(id, broken) => StopExact(s, id);
    case StepEnsure(d, env) =>
      if Succeeds(s, d, env) {
        EnsureSuccessExact(s, d, env);
      } else {
        EnsureFailureExact(s, d, env);
      }
  }

  lemma InitExact()
    ensures Inv(INIT) && AliasesExact(INIT)
  {
    InitInv();
  }

  ghost predicate ExactAt(steps: seq<Step>, k: nat)
    requires k <= |steps|
  {
    AliasesExact(Run(INIT, steps[..k]))
  }

  ghost predicate SafeAt(steps: seq<Step>, k: nat)
    requires k < |steps|
  {
    SafeStep(Run(INIT, steps[..k]), steps[k])
  }

  ghost predicate ExactThroughout(steps: seq<Step>) {
    forall k :: 0 <= k <= |steps| ==> ExactAt(steps, k)
  }

  ghost predicate SafeThroughout(steps: seq<Step>) {
    forall k :: 0 <= k < |steps| ==> SafeAt(steps, k)
  }

  lemma {:induction false} ExactThroughoutStep(before: seq<Step>, step: Step)
    ensures ExactThroughout(before + [step]) <==> ExactThroughout(before) && AliasesExact(Run(INIT, before + [step]))
  {
    var steps, n := before + [step], |before|;
    forall k | 0 <= k <= n ensures ExactAt(steps, k) == ExactAt(before, k) {
      assert steps[..k] == before[..k];
    }
    assert ExactAt(steps, n + 1) == AliasesExact(Run(INIT, steps)) by {
      assert steps[..n + 1] == steps;
    }
  }

  lemma {:induction false} SafeThroughoutStep(before: seq<Step>, step: Step)
    ensures SafeThroughout(before + [step]) <==> SafeThroughout(before) && SafeStep(Run(INIT, before), step)
  {
    var steps, n := before + [step], |before|;
    forall k | 0 <= k < n ensures SafeAt(steps, k) == SafeAt(before, k) {
      assert steps[..k] == before[..k] && steps[k] == before[k];
    }
    assert SafeAt(steps, n) == SafeStep(Run(INIT, before), step) by {
      assert steps[..n] == before;
    }
  }

  ghost predicate ExactIffSafe(steps: seq<Step>) {
    ExactThroughout(steps) <==> SafeThroughout(steps)
  }

  lemma NoStepsExact(steps: seq<Step>)
    requires steps == []
    ensures ExactThroughout(steps) && SafeThroughout(steps)
  {
    InitExact();
    assert ExactAt(steps, 0) by { assert steps[..0] == []; }
  }

  /** When no `ip` command fails, the host holds exactly the aliases the managed
      interfaces want at every point of a run, if and only if every step of the
      run was safe: no removed alias still wanted, and no rebuild that failed
      while holding aliases nobody else wants. */
  lemma {:induction false} AliasesExactIff(steps: seq<Step>)
    requires forall i :: 0 <= i < |steps| ==> NoIpFailure(steps[i])
    ensures ExactThroughout(steps) <==> SafeThroughout(steps)
  {
    NoStepsExact([]);
    forall before, step | ExactIffSafe(before) && NoIpFailure(step) ensures ExactIffSafe(before + [step]) {
      OneMoreStep(before, step);
    }
    EveryRun(steps, NoIpFailure, ExactIffSafe);
  }

  lemma {:induction false} OneMoreStep(before: seq<Step>, step: Step)
    requires NoIpFailure(step) && ExactIffSafe(before)
    ensures ExactIffSafe(before + [step])
  {
    ExactThroughoutStep(before, step);
    SafeThroughoutStep(before, step);
    if ExactThroughout(before) {
      assert ExactAt(before, |before|) && before[..|before|] == before;
      InitExact();
      RunKeepsInv(INIT, before);
      StepExact(Run(INIT, before), step);
      FoldOne(INIT, before, step, Do);
    }
  }

  // -----------------------------------------------------------------------
  // A peer is never without an alias
  // -----------------------------------------------------------------------

  // The commands a successful ensure issues, in some order of its maps.
  ghost predicate IssuedBy(s: State, d: Desire, add: seq<Alias>, remove: seq<Alias>) {
    && Elements(add) == Dropped(Desired(d.inst), DesiredOf(s, d.inst.id))
    && Elements(remove) == Dropped(DesiredOf(s, d.inst.id), Desired(d.inst))
  }

  /** At every step of every run that found the aliases as wanted, whatever `ip`
      commands fail: a peer that keeps an alias has its old or its new one while
      the step's commands run, if and only if that is safe. After the last
      command the host is as the step leaves it. */
  lemma {:induction false} PeerAliasedIff(steps: seq<Step>, d: Desire, env: Env,
                                          add: seq<Alias>, remove: seq<Alias>, e: string)
    requires var s := Run(INIT, steps);
      && AliasesExact(s) && Succeeds(s, d, env) && IssuedBy(s, d, add, remove)
      && d.inst.id in s.ifaces && e in DesiredOf(s, d.inst.id) && e in Desired(d.inst)
    ensures var s := Run(INIT, steps);
      var before, after := DesiredOf(s, d.inst.id)[e], Desired(d.inst)[e];
      && (AlwaysAliased(s.aliases, add, remove, env.broken, before, after) <==>
          SafeAlias(s.aliases, Elements(remove), env.broken, before, after))
      && HostAfter(s.aliases, add, remove, env.broken, |add| + |remove|) == Ensure(s, d, env).aliases
  {
    var s := Run(INIT, steps);
    InitExact();
    RunKeepsInv(INIT, steps);
    WantedSplit(s, d.inst.id);
    NeverUnaliased(s.aliases, s.ifaces[d.inst.id].inst, d.inst, add, remove, env.broken, e);
    EnsureMoves(s, d, env);
    EffectsAll(s.aliases, add, remove, env.broken);
    assert Commands(add, remove)[..|add| + |remove|] == Commands(add, remove);
  }

  /** So in a run of safe steps in which no `ip` command fails, a peer whose
      address changes always has its old or its new alias. */
  lemma {:induction false} SafeRunKeepsPeersAliased(steps: seq<Step>, d: Desire, env: Env,
                                                    add: seq<Alias>, remove: seq<Alias>, e: string)
    requires forall i :: 0 <= i < |steps| ==> NoIpFailure(steps[i])
    requires SafeThroughout(steps) && env.broken == {}
    requires var s := Run(INIT, steps);
      && Succeeds(s, d, env) && SafeStep(s, StepEnsure(d, env)) && IssuedBy(s, d, add, remove)
      && d.inst.id in s.ifaces && e in DesiredOf(s, d.inst.id) && e in Desired(d.inst)
    ensures var s := Run(INIT, steps);
      AlwaysAliased(s.aliases, add, remove, {}, DesiredOf(s, d.inst.id)[e], Desired(d.inst)[e])
  {
    AliasesExactIff(steps);
    assert ExactAt(steps, |steps|) && steps[..|steps|] == steps;
    PeerAliasedIff(steps, d, env, add, remove, e);
    assert Desired(d.inst)[e] in Values(Desired(d.inst));
  }

  // -----------------------------------------------------------------------
  // Both unsafe branches occur
  // -----------------------------------------------------------------------

  // An interface with two peers that have these addresses.
  function TwoPeers(mtu: int, x: string, y: string): Instance {
    Instance(1, mtu, 0, ["10.8.0.1/24"], "", [Peer("p", "", x, ""), Peer("q", "", y, "")], "eth0", true, "")
  }

  const ALL_WELL := Env(true, true, true, {})

  lemma TwoPeersWant(mtu: int, x: string, y: string)
    requires x != "" && y != ""
    ensures Desired(TwoPeers(mtu, x, y)) == map["p" := Alias(x, "eth0"), "q" := Alias(y, "eth0")]
    ensures Values(Desired(TwoPeers(mtu, x, y))) == {Alias(x, "eth0"), Alias(y, "eth0")}
  {
    var peers := TwoPeers(mtu, x, y).peers;
    assert peers[..1] == [peers[0]] && peers[..1][..0] == [];
    assert PeerAliases(peers[..1], "eth0") == map["p" := Alias(x, "eth0")];
    var want := Desired(TwoPeers(mtu, x, y));
    assert want == map["p" := Alias(x, "eth0"), "q" := Alias(y, "eth0")];
    assert want["p"] in Values(want) && want["q"] in Values(want);
  }

  // The state of an interface with these two peers, brought up alone.
  ghost predicate IsUp(s: State, inst: Instance, x: string, y: string) {
    && Inv(s) && AliasesExact(s) && s.aliases == {Alias(x, "eth0"), Alias(y, "eth0")}
    && s.ifaces.Keys == {1} && s.ifaces[1].inst == inst
  }

  lemma BroughtUp(mtu: int, x: string, y: string, conf: string)
    requires x != "" && y != ""
    ensures IsUp(Ensure(INIT, Desire(TwoPeers(mtu, x, y), Some(conf)), ALL_WELL), TwoPeers(mtu, x, y), x, y)
  {
    var d := Desire(TwoPeers(mtu, x, y), Some(conf));
    InitExact();
    EnsureKeepsInv(INIT, d, ALL_WELL);
    TwoPeersWant(mtu, x, y);
    EnsureMoves(INIT, d, ALL_WELL);
    EnsureRecords(INIT, d, ALL_WELL);
    assert Dropped(map[], Desired(d.inst)) == {};
    assert Dropped(Desired(d.inst), map[]) == Values(Desired(d.inst));
    StepExact(INIT, StepEnsure(d, ALL_WELL));
  }

  // From such a state, the edit that swaps the addresses.
  lemma SwapFrom(s: State, mtu: int, x: string, y: string, conf: string)
    requires x != "" && y != "" && x != y && IsUp(s, TwoPeers(mtu, x, y), x, y)
    ensures var d := Desire(TwoPeers(mtu, y, x), Some(conf));
      var t := Ensure(s, d, ALL_WELL);
      && Succeeds(s, d, ALL_WELL) && t.aliases == {}
      && {Alias(x, "eth0"), Alias(y, "eth0")} <= WantedAliases(t)
  {
    var d := Desire(TwoPeers(mtu, y, x), Some(conf));
    TwoPeersWant(mtu, x, y);
    TwoPeersWant(mtu, y, x);
    SuccessMoves(s, d, ALL_WELL);
    var was, now := DesiredOf(s, 1), Desired(d.inst);
    assert was["p"] != now["p"] && was["q"] != now["q"];
    assert Dropped(was, now) == Values(was) && Dropped(now, was) == Values(now);
    WantedSplit(Ensure(s, d, ALL_WELL), 1);
  }

  /** Additions run before removals, so two peers of one interface that swap
      addresses in an edit both lose their alias, though nothing fails. */
  lemma SwapLosesBoth(mtu: int, x: string, y: string, conf: string, conf': string)
    requires x != "" && y != "" && x != y
    ensures var s := Ensure(INIT, Desire(TwoPeers(mtu, x, y), Some(conf)), ALL_WELL);
      var d := Desire(TwoPeers(mtu, y, x), Some(conf'));
      var t := Ensure(s, d, ALL_WELL);
      && AliasesExact(s) && Succeeds(s, d, ALL_WELL)
      && t.aliases == {} && {Alias(x, "eth0"), Alias(y, "eth0")} <= WantedAliases(t) && !AliasesExact(t)
  {
    BroughtUp(mtu, x, y, conf);
    SwapFrom(Ensure(INIT, Desire(TwoPeers(mtu, x, y), Some(conf)), ALL_WELL), mtu, x, y, conf');
  }

  lemma OtherMtu(x: string, y: string)
    ensures AddressFingerprint(TwoPeers(1400, x, y)) != AddressFingerprint(TwoPeers(1300, x, y))
  {
    FingerprintFaithful(TwoPeers(1400, x, y), TwoPeers(1300, x, y));
  }

  // From such a state, a rebuild that cannot build.
  lemma FailedRebuildFrom(s: State, x: string, y: string, d: Desire, env: Env)
    requires IsUp(s, TwoPeers(1400, x, y), x, y) && d.inst == TwoPeers(1300, x, y) && !env.buildOk
    ensures var t := Ensure(s, d, env);
      t.ifaces == map[] && t.aliases == s.aliases && WantedAliases(t) == {}
  {
    assert Describes(s, 1);
    OtherMtu(x, y);
    FailedRebuildShape(s, d, env);
    assert Ensure(s, d, env).ifaces.Keys == {};
  }

  /** A rebuild that fails has already forgotten the old interface: its aliases
      stay on the host although nobody wants them. */
  lemma FailedRebuildLeavesAliases(x: string, y: string, conf: string, env: Env)
    requires x != "" && y != "" && !env.buildOk
    ensures var s := Ensure(INIT, Desire(TwoPeers(1400, x, y), Some(conf)), ALL_WELL);
      var t := Ensure(s, Desire(TwoPeers(1300, x, y), Some(conf)), env);
      && AliasesExact(s) && t.ifaces == map[] && t.aliases == {Alias(x, "eth0"), Alias(y, "eth0")}
      && WantedAliases(t) == {} && !AliasesExact(t)
  {
    BroughtUp(1400, x, y, conf);
    var s := Ensure(INIT, Desire(TwoPeers(1400, x, y), Some(conf)), ALL_WELL);
    FailedRebuildFrom(s, x, y, Desire(TwoPeers(1300, x, y), Some(conf)), env);
    assert Alias(x, "eth0") in s.aliases;
  }
}
