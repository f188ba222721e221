/** The MTProto manager (internal/mtproto/manager.go): the map of managed mtg
    processes, and the traffic collector that scrapes them without holding the
    manager's lock.

    A process incarnation stands for one `managed` record with its own API port
    and bearer token, so a scrape made with a snapshot's credentials can only
    answer for the incarnation that snapshot names. Process control, HTTP and
    the clock are environment choices. */
module MtprotoManager {
  import opened Collections
  import opened Int64

  type Email = string

  // What mtg counts: bytes, in an int64.
  type Count = x: int | 0 <= x <= MAX_INT64

  datatype Counters = Counters(up: Count, down: Count)

  // The cumulative counters one scrape shows; a client may be missing from it.
  type Reading = map<Email, Counters>

  datatype Incarnation = Incarnation(id: int, serial: nat)

  datatype Managed = Managed(inc: Incarnation, structuralFP: string, secretsFP: string,
                             tag: string, multiplierBps: int, viaXray: bool, last: Reading)

  datatype Instance = Instance(id: int, structuralFP: string, secretsFP: string,
                               tag: string, multiplierBps: int, viaXray: bool)

  // What the environment answers during one ensure: is the process running,
  // could the config be rewritten, did mtg take the secrets, did a start work.
  datatype Env = Env(running: bool, configOk: bool, reloadOk: bool, startOk: bool)

  type Procs = map<int, Managed>

  // -----------------------------------------------------------------------
  // Ensure, Remove, Reconcile, StopAll
  // -----------------------------------------------------------------------

  datatype EnsureAction = Noop | Reload | Restart

  function EnsureActionFor(running: bool, cur: Managed, inst: Instance): EnsureAction {
    if !running || cur.structuralFP != inst.structuralFP then Restart
    else if cur.secretsFP != inst.secretsFP then Reload
    else Noop
  }

  function Retagged(cur: Managed, inst: Instance): Managed {
    cur.(tag := inst.tag, multiplierBps := inst.multiplierBps, viaXray := inst.viaXray)
  }

  function StartFresh(procs: Procs, next: nat, inst: Instance, env: Env): (Procs, nat) {
    if env.startOk then
      (procs[inst.id := Managed(Incarnation(inst.id, next), inst.structuralFP, inst.secretsFP,
                                inst.tag, inst.multiplierBps, inst.viaXray, map[])], next + 1)
    else (procs, next)
  }

  function Ensure(procs: Procs, next: nat, inst: Instance, env: Env): (Procs, nat) {
    if inst.id !in procs then StartFresh(procs, next, inst, env)
    else
      var cur := procs[inst.id];
      match EnsureActionFor(env.running, cur, inst)
      case Noop => (procs[inst.id := Retagged(cur, inst)], next)
      case Reload =>
        if !env.configOk then (procs, next)
        else if env.reloadOk then
          (procs[inst.id := Retagged(cur, inst).(secretsFP := inst.secretsFP)], next)
        else StartFresh(procs - {inst.id}, next, inst, env)
      case Restart => StartFresh(procs - {inst.id}, next, inst, env)
  }

  function EnsureAll(procs: Procs, next: nat, desired: seq<Instance>, envs: seq<Env>): (Procs, nat)
    requires |envs| == |desired|
  {
    if desired == [] then (procs, next)
    else
      var k := |desired| - 1;
      var (p, n) := EnsureAll(procs, next, desired[..k], envs[..k]);
      Ensure(p, n, desired[k], envs[k])
  }

  function Wanted(desired: seq<Instance>): set<int> {
    set i | i in desired :: i.id
  }

  function Reconciled(procs: Procs, next: nat, desired: seq<Instance>, envs: seq<Env>): (Procs, nat)
    requires |envs| == |desired|
  {
    EnsureAll(map id | id in procs && id in Wanted(desired) :: procs[id], next, desired, envs)
  }

  class Manager {
    var procs: Procs
    var next: nat

    constructor ()
      ensures procs == map[] && next == 0
    {
      procs, next := map[], 0;
    }

    method EnsureLocked(inst: Instance, env: Env)
      modifies this
      ensures (procs, next) == Ensure(old(procs), old(next), inst, env)
    {
      if inst.id in procs {
        var cur := procs[inst.id];
        var action := EnsureActionFor(env.running, cur, inst);
        if action == Noop {
          procs := procs[inst.id := Retagged(cur, inst)];
          return;
        }
        if action == Reload {
          if !env.configOk {
            return;
          }
          if env.reloadOk {
            procs := procs[inst.id := Retagged(cur, inst).(secretsFP := inst.secretsFP)];
            return;
          }
        }
        procs := procs - {inst.id};
      }
      if env.startOk {
        procs := procs[inst.id := Managed(Incarnation(inst.id, next), inst.structuralFP, inst.secretsFP,
                                          inst.tag, inst.multiplierBps, inst.viaXray, map[])];
        next := next + 1;
      }
    }

    method Remove(id: int)
      modifies this
      ensures procs == old(procs) - {id} && next == old(next)
    {
      if id in procs {
        procs := procs - {id};
      }
    }

    method Reconcile(desired: seq<Instance>, envs: seq<Env>)
      requires |envs| == |desired|
      modifies this
      ensures (procs, next) == Reconciled(old(procs), old(next), desired, envs)
    {
      var want := set i | i in desired :: i.id;
      var pending := procs.Keys;
      while pending != {}
        invariant pending <= procs.Keys
        invariant procs == map id | id in old(procs) && (id in want || id in pending) :: old(procs)[id]
        invariant next == old(next)
        decreases pending
      {
        EmptyOrInhabited(pending);
        var id :| id in pending;
        if id !in want {
          procs := procs - {id};
        }
        pending := pending - {id};
      }
      ghost var kept := procs;
      for k := 0 to |desired|
        invariant (procs, next) == EnsureAll(kept, old(next), desired[..k], envs[..k])
      {
        EnsureLocked(desired[k], envs[k]);
        assert desired[..k + 1][..k] == desired[..k] && envs[..k + 1][..k] == envs[..k];
      }
      assert desired[..|desired|] == desired && envs[..|desired|] == envs;
      assert kept == map id | id in old(procs) && id in Wanted(desired) :: old(procs)[id];
    }

    method StopAll()
      modifies this
      ensures procs == map[] && next == old(next)
    {
      while procs.Keys != {}
        invariant next == old(next)
        decreases |procs|
      {
        EmptyOrInhabited(procs.Keys);
        var id :| id in procs.Keys;
        procs := procs - {id};
      }
    }

    // The first lock section of the collector: copy what a scrape needs.
    method TakeSnapshots(running: set<int>) returns (snaps: seq<Snap>)
      ensures forall i :: 0 <= i < |snaps| ==>
        snaps[i].id in procs && snaps[i] == SnapOf(snaps[i].id, procs[snaps[i].id])
      ensures forall i, j :: 0 <= i < j < |snaps| ==> snaps[i].id != snaps[j].id
      ensures forall id :: (exists i :: 0 <= i < |snaps| && snaps[i].id == id) <==> id in procs && id in running
    {
      snaps := [];
      var pending := procs.Keys;
      while pending != {}
        invariant pending <= procs.Keys
        invariant forall i :: 0 <= i < |snaps| ==>
          && snaps[i].id in procs.Keys - pending && snaps[i].id in running
          && snaps[i] == SnapOf(snaps[i].id, procs[snaps[i].id])
        invariant forall i, j :: 0 <= i < j < |snaps| ==> snaps[i].id != snaps[j].id
        invariant forall id :: id in procs && id !in pending && id in running ==>
          exists i :: 0 <= i < |snaps| && snaps[i].id == id
        decreases pending
      {
        EmptyOrInhabited(pending);
        var id :| id in pending;
        pending := pending - {id};
        if id in running {
          ghost var before := snaps;
          snaps := snaps + [SnapOf(id, procs[id])];
          assert snaps[|before|].id == id;
          assert forall i :: 0 <= i < |before| ==> snaps[i] == before[i];
        }
      }
    }

    // The last lock section: store the baseline only in the entry that was
    // scraped, never in one that replaced it.
    method StoreBaseline(snap: Snap, newLast: Reading)
      modifies this
      ensures procs == Published(old(procs), snap, newLast) && next == old(next)
    {
      if snap.id in procs && procs[snap.id].inc == snap.inc {
        procs := procs[snap.id := procs[snap.id].(last := newLast)];
      }
    }
  }

  // -----------------------------------------------------------------------
  // What an ensure leads to
  // -----------------------------------------------------------------------

  // The entry carries all the instance asks for.
  ghost predicate AsWanted(cur: Managed, inst: Instance) {
    && cur.structuralFP == inst.structuralFP && cur.secretsFP == inst.secretsFP
    && cur.tag == inst.tag && cur.multiplierBps == inst.multiplierBps && cur.viaXray == inst.viaXray
  }

  // A live process whose structure is the wanted one.
  ghost predicate Serves(procs: Procs, inst: Instance, env: Env) {
    inst.id in procs && env.running && procs[inst.id].structuralFP == inst.structuralFP
  }

  // It goes on: its secrets are the wanted ones already, or it takes them live.
  ghost predicate GoesOn(procs: Procs, inst: Instance, env: Env) {
    Serves(procs, inst, env) && (procs[inst.id].secretsFP == inst.secretsFP || (env.configOk && env.reloadOk))
  }

  // It needs new secrets and their config cannot be written.
  ghost predicate CannotWrite(procs: Procs, inst: Instance, env: Env) {
    Serves(procs, inst, env) && procs[inst.id].secretsFP != inst.secretsFP && !env.configOk
  }

  // The very process of before, with its baseline.
  ghost predicate Continued(procs: Procs, procs': Procs, id: int) {
    id in procs && id in procs' && procs'[id].inc == procs[id].inc && procs'[id].last == procs[id].last
  }

  ghost predicate Started(procs': Procs, id: int, serial: nat) {
    id in procs' && procs'[id].inc == Incarnation(id, serial) && procs'[id].last == map[]
  }

  ghost predicate SerialsPast(procs: Procs, next: nat) {
    forall id :: id in procs ==> procs[id].inc.serial < next
  }

  /** One ensure, decided by the fingerprints and the environment alone. A
      structural change or a dead process means a new process; a change of the
      secrets alone is taken live if it can be. */
  lemma EnsureOutcome(procs: Procs, next: nat, inst: Instance, env: Env)
    ensures var (procs', next') := Ensure(procs, next, inst, env);
      && procs' - {inst.id} == procs - {inst.id}
      && if GoesOn(procs, inst, env) then
           Continued(procs, procs', inst.id) && AsWanted(procs'[inst.id], inst) && next' == next
         else if CannotWrite(procs, inst, env) then procs' == procs && next' == next
         else if env.startOk then
           Started(procs', inst.id, next) && AsWanted(procs'[inst.id], inst) && next' == next + 1
         else inst.id !in procs' && next' == next
  {
    var (procs', next') := Ensure(procs, next, inst, env);
    assert forall id :: id != inst.id ==> (id in procs' <==> id in procs);
  }

  /** So a client's counters survive an ensure if and only if the process does. */
  lemma EnsureContinuesIff(procs: Procs, next: nat, inst: Instance, env: Env)
    requires SerialsPast(procs, next)
    ensures var procs' := Ensure(procs, next, inst, env).0;
      Continued(procs, procs', inst.id) <==> GoesOn(procs, inst, env) || CannotWrite(procs, inst, env)
  {
    EnsureOutcome(procs, next, inst, env);
  }

  ghost predicate DistinctIds(desired: seq<Instance>) {
    forall i, j :: 0 <= i < j < |desired| ==> desired[i].id != desired[j].id
  }

  ghost predicate NoneFails(envs: seq<Env>) {
    forall i :: 0 <= i < |envs| ==> envs[i].configOk && envs[i].startOk
  }

  // The first k instances are served as wanted, each by the process it had or
  // by one started since; all other ids are as they were.
  ghost predicate EnsuredUpTo(procs: Procs, next: nat, procs': Procs, desired: seq<Instance>, envs: seq<Env>, k: nat)
    requires k <= |desired| == |envs|
  {
    && (forall i :: 0 <= i < k ==>
          && desired[i].id in procs' && AsWanted(procs'[desired[i].id], desired[i])
          && (if GoesOn(procs, desired[i], envs[i]) then Continued(procs, procs', desired[i].id)
              else procs'[desired[i].id].inc.serial >= next && procs'[desired[i].id].last == map[]))
    && (forall id :: id !in Wanted(desired[..k]) ==> Same(procs, procs', id))
  }

  ghost predicate Same(procs: Procs, procs': Procs, id: int) {
    (id in procs <==> id in procs') && (id in procs ==> procs'[id] == procs[id])
  }

  lemma WantedNext(desired: seq<Instance>, k: nat)
    requires k < |desired| && DistinctIds(desired)
    ensures Wanted(desired[..k + 1]) == Wanted(desired[..k]) + {desired[k].id}
    ensures desired[k].id !in Wanted(desired[..k])
    ensures forall i :: 0 <= i < k ==> desired[i].id in Wanted(desired[..k])
  {
    assert desired[..k + 1] == desired[..k] + [desired[k]];
    forall i | 0 <= i < k ensures desired[i].id in Wanted(desired[..k]) {
      assert desired[..k][i] == desired[i];
    }
  }

  lemma {:induction false} EnsuredNext(procs: Procs, next: nat, mid: Procs, n: nat,
                                       desired: seq<Instance>, envs: seq<Env>, k: nat)
    requires k < |desired| == |envs| && DistinctIds(desired) && NoneFails(envs) && next <= n
    requires EnsuredUpTo(procs, next, mid, desired, envs, k)
    ensures var (procs', n') := Ensure(mid, n, desired[k], envs[k]);
      EnsuredUpTo(procs, next, procs', desired, envs, k + 1) && next <= n'
  {
    var d, env := desired[k], envs[k];
    var (procs', n') := Ensure(mid, n, d, env);
    EnsureOutcome(mid, n, d, env);
    WantedNext(desired, k);
    assert Same(procs, mid, d.id);
    assert GoesOn(mid, d, env) <==> GoesOn(procs, d, env);
    forall id | id != d.id ensures Same(mid, procs', id) {
      assert id in procs' - {d.id} <==> id in mid - {d.id};
      assert id in mid ==> (procs' - {d.id})[id] == (mid - {d.id})[id];
    }
    forall i | 0 <= i < k ensures Same(mid, procs', desired[i].id) {
      assert desired[i].id != d.id;
    }
  }

  lemma {:induction false} AllEnsured(procs: Procs, next: nat, desired: seq<Instance>, envs: seq<Env>)
    requires |envs| == |desired| && DistinctIds(desired) && NoneFails(envs)
    ensures var (procs', next') := EnsureAll(procs, next, desired, envs);
      EnsuredUpTo(procs, next, procs', desired, envs, |desired|) && next <= next'
    decreases |desired|
  {
    if desired != [] {
      var k := |desired| - 1;
      AllEnsured(procs, next, desired[..k], envs[..k]);
      var (mid, n) := EnsureAll(procs, next, desired[..k], envs[..k]);
      EnsuredPrefix(procs, next, mid, desired, envs, k);
      EnsuredNext(procs, next, mid, n, desired, envs, k);
    }
  }

  lemma EnsuredPrefix(procs: Procs, next: nat, mid: Procs, desired: seq<Instance>, envs: seq<Env>, k: nat)
    requires k <= |desired| == |envs| && EnsuredUpTo(procs, next, mid, desired[..k], envs[..k], k)
    ensures EnsuredUpTo(procs, next, mid, desired, envs, k)
  {
    assert desired[..k][..k] == desired[..k];
    forall i | 0 <= i < k ensures desired[..k][i] == desired[i] && envs[..k][i] == envs[i] {
    }
  }

  lemma {:induction false} KeysAreWanted(kept: Procs, next: nat, procs': Procs, desired: seq<Instance>, envs: seq<Env>)
    requires |desired| == |envs| && kept.Keys <= Wanted(desired)
    requires EnsuredUpTo(kept, next, procs', desired, envs, |desired|)
    ensures procs'.Keys == Wanted(desired)
  {
    assert desired[..|desired|] == desired;
    forall id ensures id in procs' <==> id in Wanted(desired) {
      if id in Wanted(desired) {
        var i :| 0 <= i < |desired| && desired[i].id == id;
      } else {
        assert Same(kept, procs', id);
      }
    }
  }

  lemma OneContinuedIff(procs: Procs, next: nat, kept: Procs, procs': Procs,
                        desired: seq<Instance>, envs: seq<Env>, i: nat)
    requires i < |desired| == |envs| && SerialsPast(procs, next)
    requires EnsuredUpTo(kept, next, procs', desired, envs, |desired|) && Same(procs, kept, desired[i].id)
    ensures desired[i].id in procs' && AsWanted(procs'[desired[i].id], desired[i])
    ensures Continued(procs, procs', desired[i].id) <==> GoesOn(procs, desired[i], envs[i])
  {
    assert GoesOn(kept, desired[i], envs[i]) <==> GoesOn(procs, desired[i], envs[i]);
  }

  /** A reconcile in which nothing fails leaves exactly the wanted processes, as
      wanted; one that was there goes on, with its baseline, if and only if it
      was alive with the wanted structure and had or took the wanted secrets. */
  lemma {:induction false} ReconcileOutcome(procs: Procs, next: nat, desired: seq<Instance>, envs: seq<Env>)
    requires |envs| == |desired| && DistinctIds(desired) && NoneFails(envs) && SerialsPast(procs, next)
    ensures var procs' := Reconciled(procs, next, desired, envs).0;
      && procs'.Keys == Wanted(desired)
      && forall i :: 0 <= i < |desired| ==>
           && desired[i].id in procs' && AsWanted(procs'[desired[i].id], desired[i])
           && (Continued(procs, procs', desired[i].id) <==> GoesOn(procs, desired[i], envs[i]))
  {
    var kept := map id | id in procs && id in Wanted(desired) :: procs[id];
    var procs' := EnsureAll(kept, next, desired, envs).0;
    AllEnsured(kept, next, desired, envs);
    KeysAreWanted(kept, next, procs', desired, envs);
    forall i | 0 <= i < |desired|
      ensures desired[i].id in procs' && AsWanted(procs'[desired[i].id], desired[i])
      ensures Continued(procs, procs', desired[i].id) <==> GoesOn(procs, desired[i], envs[i])
    {
      assert desired[i] in desired;
      assert Same(procs, kept, desired[i].id);
      OneContinuedIff(procs, next, kept, procs', desired, envs, i);
    }
  }

  lemma {:induction false} ServedIsLeftAlone(procs: Procs, next: nat, desired: seq<Instance>, envs: seq<Env>)
    requires |envs| == |desired| && forall i :: 0 <= i < |envs| ==> envs[i].running
    requires forall i :: 0 <= i < |desired| ==> desired[i].id in procs && AsWanted(procs[desired[i].id], desired[i])
    ensures EnsureAll(procs, next, desired, envs) == (procs, next)
    decreases |desired|
  {
    if desired != [] {
      var k := |desired| - 1;
      ServedIsLeftAlone(procs, next, desired[..k], envs[..k]);
      assert procs[desired[k].id := procs[desired[k].id]] == procs;
    }
  }

  /** Repeating a reconcile that succeeded changes nothing while the processes
      run: nothing is restarted, reloaded or forgotten, whatever else would fail. */
  lemma {:induction false} ReconcileIsIdempotent(procs: Procs, next: nat, desired: seq<Instance>, envs: seq<Env>,
                                                 envs': seq<Env>)
    requires |envs| == |desired| == |envs'| && DistinctIds(desired) && NoneFails(envs) && SerialsPast(procs, next)
    requires forall i :: 0 <= i < |envs'| ==> envs'[i].running
    ensures var (procs', next') := Reconciled(procs, next, desired, envs);
      Reconciled(procs', next', desired, envs') == (procs', next')
  {
    ReconcileOutcome(procs, next, desired, envs);
    var (procs', next') := Reconciled(procs, next, desired, envs);
    assert (map id | id in procs' && id in Wanted(desired) :: procs'[id]) == procs';
    ServedIsLeftAlone(procs', next', desired, envs');
  }

  // -----------------------------------------------------------------------
  // One scrape: the deltas it bills
  // -----------------------------------------------------------------------

  function Positive(x: int): nat {
    if x < 0 then 0 else x
  }

  function DeltaOf(prev: Counters, cur: Counters): Counters {
    Counters(Positive(cur.up - prev.up), Positive(cur.down - prev.down))
  }

  // What one scrape bills: the non-zero deltas of clients seen before.
  function Deltas(last: Reading, users: Reading): Reading {
    map e | e in users && e in last && (users[e].up > last[e].up || users[e].down > last[e].down)
      :: DeltaOf(last[e], users[e])
  }

  datatype StatsUser = StatsUser(connections: int, bytesIn: Count, bytesOut: Count)
  datatype Traffic = Traffic(tag: string, email: Email, up: Count, down: Count, multiplierBps: int, viaXray: bool)

  function ReadingOf(users: map<Email, StatsUser>): Reading {
    map e | e in users :: Counters(users[e].bytesIn, users[e].bytesOut)
  }

  // A bill as a row, with the policy the snapshot recorded.
  function RowOf(snap: Snap, e: Email, bill: Counters): Traffic {
    Traffic(snap.tag, e, bill.up, bill.down, snap.multiplierBps, snap.viaXray)
  }

  ghost predicate IsRow(snap: Snap, bills: Reading, t: Traffic) {
    t.email in bills && t == RowOf(snap, t.email, bills[t.email])
  }

  // One scrape's rows: every bill once, in whatever order the map yields.
  ghost predicate AreRows(snap: Snap, bills: Reading, out: seq<Traffic>) {
    DistinctEmails(out) && forall t :: t in out <==> IsRow(snap, bills, t)
  }

  /** A row, direction by direction: up is the growth of the bytes in, down that
      of the bytes out, of a client seen before that grew in either. */
  lemma RowDirections(snap: Snap, users: map<Email, StatsUser>, t: Traffic)
    ensures IsRow(snap, Deltas(snap.last, ReadingOf(users)), t) <==>
      && t.email in users && t.email in snap.last
      && t.up == Positive(users[t.email].bytesIn - snap.last[t.email].up)
      && t.down == Positive(users[t.email].bytesOut - snap.last[t.email].down)
      && t.up + t.down > 0
      && t.tag == snap.tag && t.multiplierBps == snap.multiplierBps && t.viaXray == snap.viaXray
  {
  }

  ghost predicate DistinctEmails(out: seq<Traffic>) {
    forall i, j :: 0 <= i < j < |out| ==> out[i].email != out[j].email
  }

  // The differences fit an int64; a counter that went down counts as no growth.
  method Growth(prev: Counters, cur: Counters) returns (growth: Counters)
    ensures growth == DeltaOf(prev, cur)
  {
    var du, dd := cur.up - prev.up, cur.down - prev.down;
    assert IsInt64(du) && IsInt64(dd);
    if du < 0 {
      du := 0;
    }
    if dd < 0 {
      dd := 0;
    }
    growth := Counters(du, dd);
  }

  method ScrapeDeltas(snap: Snap, users: map<Email, StatsUser>)
    returns (out: seq<Traffic>, newLast: Reading, online: set<Email>)
    ensures newLast == ReadingOf(users)
    ensures AreRows(snap, Deltas(snap.last, newLast), out)
    ensures online == set e | e in users && users[e].connections > 0
  {
    out, newLast, online := [], map[], {};
    var pending := users.Keys;
    ghost var reading := ReadingOf(users);
    ghost var bills := Deltas(snap.last, reading);
    while pending != {}
      invariant pending <= users.Keys
      invariant newLast == map e | e in users && e !in pending :: reading[e]
      invariant DistinctEmails(out)
      invariant forall t :: t in out <==> IsRow(snap, bills, t) && t.email !in pending
      invariant online == set e | e in users && e !in pending && users[e].connections > 0
      decreases pending
    {
      var email :| email in pending;
      var u := users[email];
      var cur := Counters(u.bytesIn, u.bytesOut);
      newLast := newLast[email := cur];
      if u.connections > 0 {
        online := online + {email};
      }
      pending := pending - {email};
      if email in snap.last {
        var growth := Growth(snap.last[email], cur);
        if growth.up > 0 || growth.down > 0 {
          assert bills[email] == growth;
          out := out + [RowOf(snap, email, growth)];
        }
      }
    }
    assert newLast == reading;
  }

  // -----------------------------------------------------------------------
  // The collector interleaved with the manager
  // -----------------------------------------------------------------------

  // What the collector copies of an entry under the lock.
  datatype Snap = Snap(id: int, inc: Incarnation, tag: string, multiplierBps: int, viaXray: bool, last: Reading)

  function SnapOf(id: int, cur: Managed): Snap {
    Snap(id, cur.inc, cur.tag, cur.multiplierBps, cur.viaXray, cur.last)
  }

  // Between two lock sections the collector holds snapshots still to scrape,
  // or a scraped reading it has billed but not yet published as the baseline.
  datatype Collector =
    | Idle
    | Collecting(todo: seq<Snap>)
    | Scraped(snap: Snap, newLast: Reading, rest: seq<Snap>)

  // The run so far: every scrape's charges, and every answer an incarnation
  // gave, oldest first.
  datatype Bills = NoBills | Billing(before: Bills, snap: Snap, amounts: Reading)
  datatype Readings = NoReadings | Then(before: Readings, latest: Reading)

  datatype State = State(procs: Procs, next: nat, collector: Collector,
                         bills: Bills, readings: map<Incarnation, Readings>)

  const INIT := State(map[], 0, Idle, NoBills, map[])

  datatype Op =
    | DoEnsure(inst: Instance, env: Env)
    | DoRemove(id: int)
    | DoReconcile(desired: seq<Instance>, envs: seq<Env>)
    | DoStopAll
    | Snapshot(ids: seq<int>)
    | Scrape(users: Reading)
    | ScrapeFailed
    | Publish
    | Finish

  ghost predicate Enabled(s: State, op: Op) {
    match op
    case DoEnsure(_, _) => true
    case DoRemove(_) => true
    case DoReconcile(desired, envs) => |envs| == |desired|
    case DoStopAll => true
    case Snapshot(ids) =>
      && s.collector.Idle?
      && (forall i :: 0 <= i < |ids| ==> ids[i] in s.procs)
      && (forall i, j :: 0 <= i < j < |ids| ==> ids[i] != ids[j])
    case Scrape(_) => s.collector.Collecting? && s.collector.todo != []
    case ScrapeFailed => s.collector.Collecting? && s.collector.todo != []
    case Publish => s.collector.Scraped?
    case Finish => s.collector == Collecting([])
  }

  function ReadingsOf(s: State, inc: Incarnation): Readings {
    if inc in s.readings then s.readings[inc] else NoReadings
  }

  function WithProcs(s: State, r: (Procs, nat)): State {
    s.(procs := r.0, next := r.1)
  }

  function Published(procs: Procs, snap: Snap, newLast: Reading): Procs {
    if snap.id in procs && procs[snap.id].inc == snap.inc
    then procs[snap.id := procs[snap.id].(last := newLast)]
    else procs
  }

  // One atomic section; an operation that is not enabled does not happen.
  ghost function Step(s: State, op: Op): State {
    if !Enabled(s, op) then s
    else match op
      case DoEnsure(inst, env) => WithProcs(s, Ensure(s.procs, s.next, inst, env))
      case DoRemove(id) => s.(procs := s.procs - {id})
      case DoReconcile(desired, envs) => WithProcs(s, Reconciled(s.procs, s.next, desired, envs))
      case DoStopAll => s.(procs := map[])
      case Snapshot(ids) =>
        s.(collector := Collecting(seq(|ids|, i requires 0 <= i < |ids| && ids[i] in s.procs =>
             SnapOf(ids[i], s.procs[ids[i]]))))
      case Scrape(users) =>
        var snap := s.collector.todo[0];
        s.(collector := Scraped(snap, users, s.collector.todo[1..]),
           bills := Billing(s.bills, snap, Deltas(snap.last, users)),
           readings := s.readings[snap.inc := Then(ReadingsOf(s, snap.inc), users)])
      case ScrapeFailed => s.(collector := Collecting(s.collector.todo[1..]))
      case Publish =>
        s.(procs := Published(s.procs, s.collector.snap, s.collector.newLast),
           collector := Collecting(s.collector.rest))
      case Finish => s.(collector := Idle)
  }

  ghost function Run(ops: seq<Op>): State {
    if ops == [] then INIT else Step(Run(ops[..|ops| - 1]), ops[|ops| - 1])
  }

  // What a run of scrapes ought to bill a client: the positive increments
  // between consecutive readings that both show it.
  ghost function Increments(rs: Readings, e: Email, dir: Direction): int {
    match rs
    case NoReadings => 0
    case Then(before, latest) => Increments(before, e, dir) + Increment(Latest(before), latest, e, dir)
  }

  datatype Direction = Up | Down

  ghost function Of(c: Counters, dir: Direction): int {
    if dir == Up then c.up else c.down
  }

  ghost function Increment(last: Reading, users: Reading, e: Email, dir: Direction): int {
    if e in last && e in users then Positive(Of(users[e], dir) - Of(last[e], dir)) else 0
  }

  ghost function Latest(rs: Readings): Reading {
    match rs
    case NoReadings => map[]
    case Then(_, latest) => latest
  }

  ghost function Billed(bills: Bills, inc: Incarnation, e: Email, dir: Direction): int {
    match bills
    case NoBills => 0
    case Billing(before, snap, amounts) =>
      Billed(before, inc, e, dir) + (if snap.inc == inc && e in amounts then Of(amounts[e], dir) else 0)
  }

  ghost function LastReading(s: State, inc: Incarnation): Reading {
    Latest(ReadingsOf(s, inc))
  }

  // How the procs map may change under the manager's lock: an entry either is
  // the old one with its baseline intact, or a fresh incarnation without one.
  ghost predicate Evolves(p: Procs, n: nat, p': Procs, n': nat) {
    && n <= n'
    && forall id :: id in p' ==>
         || (id in p && p'[id].inc == p[id].inc && p'[id].last == p[id].last)
         || (p'[id].inc.id == id && n <= p'[id].inc.serial < n' && p'[id].last == map[])
  }

  lemma EvolvesTransitive(p: Procs, n: nat, p1: Procs, n1: nat, p2: Procs, n2: nat)
    requires Evolves(p, n, p1, n1) && Evolves(p1, n1, p2, n2)
    ensures Evolves(p, n, p2, n2)
  {
  }

  lemma EnsureEvolves(procs: Procs, next: nat, inst: Instance, env: Env)
    ensures var r := Ensure(procs, next, inst, env); Evolves(procs, next, r.0, r.1)
  {
  }

  lemma {:induction false} EnsureAllEvolves(procs: Procs, next: nat, desired: seq<Instance>, envs: seq<Env>)
    requires |envs| == |desired|
    ensures var r := EnsureAll(procs, next, desired, envs); Evolves(procs, next, r.0, r.1)
    decreases |desired|
  {
    if desired != [] {
      var k := |desired| - 1;
      var r := EnsureAll(procs, next, desired[..k], envs[..k]);
      EnsureAllEvolves(procs, next, desired[..k], envs[..k]);
      EnsureEvolves(r.0, r.1, desired[k], envs[k]);
      var r' := Ensure(r.0, r.1, desired[k], envs[k]);
      EvolvesTransitive(procs, next, r.0, r.1, r'.0, r'.1);
    }
  }

  lemma ReconciledEvolves(procs: Procs, next: nat, desired: seq<Instance>, envs: seq<Env>)
    requires |envs| == |desired|
    ensures var r := Reconciled(procs, next, desired, envs); Evolves(procs, next, r.0, r.1)
  {
    var kept := map id | id in procs && id in Wanted(desired) :: procs[id];
    EnsureAllEvolves(kept, next, desired, envs);
    var r := EnsureAll(kept, next, desired, envs);
    EvolvesTransitive(procs, next, kept, next, r.0, r.1);
  }

  // -----------------------------------------------------------------------
  // The invariant
  // -----------------------------------------------------------------------

  ghost function Pending(c: Collector): seq<Snap> {
    match c
    case Idle => []
    case Collecting(todo) => todo
    case Scraped(_, _, rest) => rest
  }

  ghost predicate IsScraping(c: Collector, inc: Incarnation) {
    c.Scraped? && c.snap.inc == inc
  }

  // Entries sit at their own id, were issued a past serial, and their
  // baseline is the last reading, unless the collector is about to store it.
  ghost predicate ProcsInv(s: State) {
    forall id :: id in s.procs ==>
      && s.procs[id].inc.id == id
      && s.procs[id].inc.serial < s.next
      && (!IsScraping(s.collector, s.procs[id].inc) ==> s.procs[id].last == LastReading(s, s.procs[id].inc))
  }

  ghost predicate SnapInv(s: State, snap: Snap) {
    snap.inc.id == snap.id && snap.inc.serial < s.next
  }

  // Every snapshot still to be scraped carries its incarnation's last reading.
  ghost predicate CollectorInv(s: State) {
    var todo := Pending(s.collector);
    && (forall i :: 0 <= i < |todo| ==> SnapInv(s, todo[i]) && todo[i].last == LastReading(s, todo[i].inc))
    && (forall i, j :: 0 <= i < j < |todo| ==> todo[i].inc != todo[j].inc)
    && (s.collector.Scraped? ==>
          && SnapInv(s, s.collector.snap)
          && s.collector.newLast == LastReading(s, s.collector.snap.inc)
          && forall i :: 0 <= i < |todo| ==> todo[i].inc != s.collector.snap.inc)
  }

  ghost predicate HistoryInv(s: State) {
    && (forall inc :: inc in s.readings ==> inc.serial < s.next)
    && (forall inc, e, dir :: Billed(s.bills, inc, e, dir) == Increments(ReadingsOf(s, inc), e, dir))
  }

  ghost predicate Inv(s: State) {
    ProcsInv(s) && CollectorInv(s) && HistoryInv(s)
  }

  lemma {:induction false} EvolvesKeepsInv(s: State, p: Procs, n: nat)
    requires Inv(s) && Evolves(s.procs, s.next, p, n)
    ensures Inv(s.(procs := p, next := n))
  {
    var s' := s.(procs := p, next := n);
    forall id | id in p
      ensures p[id].inc.id == id && p[id].inc.serial < n
      ensures !IsScraping(s'.collector, p[id].inc) ==> p[id].last == LastReading(s', p[id].inc)
    {
      if p[id].inc.serial >= s.next {
        assert p[id].inc !in s.readings;
      }
    }
  }

  lemma {:induction false} SnapshotKeepsInv(s: State, ids: seq<int>)
    requires Inv(s) && Enabled(s, Snapshot(ids))
    ensures Inv(Step(s, Snapshot(ids)))
  {
    var s' := Step(s, Snapshot(ids));
    var todo := s'.collector.todo;
    forall i | 0 <= i < |todo|
      ensures SnapInv(s', todo[i]) && todo[i].last == LastReading(s', todo[i].inc)
    {
      assert ids[i] in s.procs;
    }
  }

  lemma BillIsIncrement(last: Reading, users: Reading, e: Email, dir: Direction)
    ensures var bill := Deltas(last, users);
            (if e in bill then Of(bill[e], dir) else 0) == Increment(last, users, e, dir)
  {
  }

  lemma {:induction false} ScrapeKeepsHistory(s: State, users: Reading)
    requires Inv(s) && Enabled(s, Scrape(users))
    ensures HistoryInv(Step(s, Scrape(users)))
  {
    var s' := Step(s, Scrape(users));
    var todo := Pending(s.collector);
    assert SnapInv(s, todo[0]) && todo[0].last == LastReading(s, todo[0].inc);
    forall inc: Incarnation, e: Email, dir: Direction
      ensures Billed(s'.bills, inc, e, dir) == Increments(ReadingsOf(s', inc), e, dir)
    {
      assert Billed(s.bills, inc, e, dir) == Increments(ReadingsOf(s, inc), e, dir);
      BillIsIncrement(todo[0].last, users, e, dir);
    }
  }

  lemma {:induction false} ScrapeKeepsInv(s: State, users: Reading)
    requires Inv(s) && Enabled(s, Scrape(users))
    ensures Inv(Step(s, Scrape(users)))
  {
    ScrapeKeepsHistory(s, users);
    var s' := Step(s, Scrape(users));
    var todo := Pending(s.collector);
    var snap, rest := todo[0], todo[1..];
    assert SnapInv(s, snap);
    assert forall inc :: inc != snap.inc ==> LastReading(s', inc) == LastReading(s, inc);
    forall i | 0 <= i < |rest|
      ensures SnapInv(s', rest[i]) && rest[i].last == LastReading(s', rest[i].inc) && rest[i].inc != snap.inc
      ensures forall j :: i < j < |rest| ==> rest[i].inc != rest[j].inc
    {
      assert rest[i] == todo[i + 1] && SnapInv(s, todo[i + 1]);
      assert forall j :: i < j < |rest| ==> rest[j] == todo[j + 1];
    }
    assert Pending(s'.collector) == rest;
  }

  lemma {:induction false} PublishKeepsInv(s: State)
    requires Inv(s) && Enabled(s, Publish)
    ensures Inv(Step(s, Publish))
  {
    var s' := Step(s, Publish);
    var snap := s.collector.snap;
    var todo := Pending(s.collector);
    assert Pending(s'.collector) == todo;
    forall i | 0 <= i < |todo|
      ensures SnapInv(s', todo[i]) && todo[i].last == LastReading(s', todo[i].inc)
    {
      assert SnapInv(s, todo[i]);
    }
    forall id | id in s'.procs
      ensures s'.procs[id].last == LastReading(s', s'.procs[id].inc)
    {
      if s'.procs[id].inc == snap.inc {
        assert id == snap.id;
      }
    }
  }

  lemma {:induction false} FailureKeepsInv(s: State)
    requires Inv(s) && Enabled(s, ScrapeFailed)
    ensures Inv(Step(s, ScrapeFailed))
  {
    var s' := Step(s, ScrapeFailed);
    var todo, rest := Pending(s.collector), s.collector.todo[1..];
    assert Pending(s'.collector) == rest;
    forall i | 0 <= i < |rest|
      ensures SnapInv(s', rest[i]) && rest[i].last == LastReading(s', rest[i].inc)
      ensures forall j :: i < j < |rest| ==> rest[i].inc != rest[j].inc
    {
      assert rest[i] == todo[i + 1] && SnapInv(s, todo[i + 1]);
      assert forall j :: i < j < |rest| ==> rest[j] == todo[j + 1];
    }
  }

  lemma {:induction false} StepKeepsInv(s: State, op: Op)
    requires Inv(s)
    ensures Inv(Step(s, op))
  {
    if Enabled(s, op) {
      match op
      case DoEnsure(inst, env) =>
        EnsureEvolves(s.procs, s.next, inst, env);
        var r := Ensure(s.procs, s.next, inst, env);
        EvolvesKeepsInv(s, r.0, r.1);
      case DoRemove(id) => EvolvesKeepsInv(s, s.procs - {id}, s.next);
      case DoReconcile(desired, envs) =>
        ReconciledEvolves(s.procs, s.next, desired, envs);
        var r := Reconciled(s.procs, s.next, desired, envs);
        EvolvesKeepsInv(s, r.0, r.1);
      case DoStopAll => EvolvesKeepsInv(s, map[], s.next);
      case Snapshot(ids) => SnapshotKeepsInv(s, ids);
      case Scrape(users) => ScrapeKeepsInv(s, users);
      case ScrapeFailed => FailureKeepsInv(s);
      case Publish => PublishKeepsInv(s);
      case Finish =>
    }
  }

  lemma {:induction false} RunKeepsInv(ops: seq<Op>)
    ensures Inv(Run(ops))
  {
    if ops != [] {
      RunKeepsInv(ops[..|ops| - 1]);
      StepKeepsInv(Run(ops[..|ops| - 1]), ops[|ops| - 1]);
    }
  }

  // -----------------------------------------------------------------------
  // Billing over every run
  // -----------------------------------------------------------------------

  /** In every interleaving, what an incarnation's client has been billed is
      the sum of the positive increments of that incarnation's own readings:
      a restart neither bills bytes twice nor measures against old counters. */
  lemma BilledIsIncrements(ops: seq<Op>, inc: Incarnation, e: Email, dir: Direction)
    ensures Billed(Run(ops).bills, inc, e, dir) == Increments(ReadingsOf(Run(ops), inc), e, dir)
  {
    RunKeepsInv(ops);
    assert HistoryInv(Run(ops));
  }

  datatype Seen = Never | At(c: Counters)

  ghost function LastSeen(rs: Readings, e: Email): Seen {
    match rs
    case NoReadings => Never
    case Then(before, latest) => if e in latest then At(latest[e]) else LastSeen(before, e)
  }

  ghost function FirstSeen(rs: Readings, e: Email): Seen {
    match rs
    case NoReadings => Never
    case Then(before, latest) =>
      if FirstSeen(before, e).At? then FirstSeen(before, e)
      else if e in latest then At(latest[e])
      else Never
  }

  // The process's counter for the client never went down between readings.
  ghost predicate Monotone(rs: Readings, e: Email, dir: Direction) {
    match rs
    case NoReadings => true
    case Then(before, latest) =>
      && Monotone(before, e, dir)
      && (e in latest && LastSeen(before, e).At? ==> Of(LastSeen(before, e).c, dir) <= Of(latest[e], dir))
  }

  ghost predicate AlwaysShown(rs: Readings, e: Email) {
    match rs
    case NoReadings => true
    case Then(before, latest) => AlwaysShown(before, e) && e in latest
  }

  // At most the growth between the first and last sight of the client, and
  // exactly that when it was never out of sight.
  ghost predicate WithinGrowth(total: int, rs: Readings, e: Email, dir: Direction) {
    if FirstSeen(rs, e).At? && LastSeen(rs, e).At? then
      var growth := Of(LastSeen(rs, e).c, dir) - Of(FirstSeen(rs, e).c, dir);
      0 <= total <= growth && (AlwaysShown(rs, e) ==> total == growth)
    else
      FirstSeen(rs, e) == LastSeen(rs, e) && total == 0
  }

  lemma LatestSeen(rs: Readings, e: Email)
    ensures e in Latest(rs) ==> LastSeen(rs, e) == At(Latest(rs)[e])
    ensures AlwaysShown(rs, e) ==> e in Latest(rs) || LastSeen(rs, e).Never?
  {
  }

  lemma {:induction false} IncrementsBounded(rs: Readings, e: Email, dir: Direction)
    requires Monotone(rs, e, dir)
    ensures WithinGrowth(Increments(rs, e, dir), rs, e, dir)
  {
    match rs
    case NoReadings =>
    case Then(before, latest) =>
      IncrementsBounded(before, e, dir);
      LatestSeen(before, e);
  }

  /** With counters that do not run backwards, a client is never billed more
      than its counter grew between the first and the last scrape that showed
      it, and exactly that much when every scrape showed it. */
  lemma BilledWithinGrowth(ops: seq<Op>, inc: Incarnation, e: Email, dir: Direction)
    requires Monotone(ReadingsOf(Run(ops), inc), e, dir)
    ensures WithinGrowth(Billed(Run(ops).bills, inc, e, dir), ReadingsOf(Run(ops), inc), e, dir)
  {
    BilledIsIncrements(ops, inc, e, dir);
    IncrementsBounded(ReadingsOf(Run(ops), inc), e, dir);
  }

  // A whole round of the collector over one process, uninterrupted.
  ghost function Collected(s: State, id: int, users: Reading): State {
    Step(Step(Step(Step(s, Snapshot([id])), Scrape(users)), Publish), Finish)
  }

  /** A round bills the growth since the baseline and makes the reading the new
      baseline; nothing else of the manager changes. */
  lemma {:induction false} RoundBillsAndStores(s: State, id: int, users: Reading)
    requires s.collector.Idle? && id in s.procs
    ensures var t, cur := Collected(s, id, users), s.procs[id];
      && t.procs == s.procs[id := cur.(last := users)] && t.next == s.next && t.collector.Idle?
      && t.bills == Billing(s.bills, SnapOf(id, cur), Deltas(cur.last, users))
      && ReadingsOf(t, cur.inc) == Then(ReadingsOf(s, cur.inc), users)
  {
    var cur, snap := s.procs[id], SnapOf(id, s.procs[id]);
    var shot := Step(s, Snapshot([id]));
    assert shot.collector == Collecting([snap]);
    var scraped := Step(shot, Scrape(users));
    assert [snap][1..] == [];
    assert scraped.collector == Scraped(snap, users, []);
  }
}
