/** The UDP relay's session table (internal/amneziawgnet/relay.go): every source
    gets one SOCKS5 UDP session, associated without holding the lock, published
    under it, and retired by the session's own reply pump.

    The protocol is a state machine whose steps are the code between two lock
    boundaries, taken by any number of packet handlers, pumps and a Close in any
    order. Sockets fail and go idle as the environment likes. */
module UdpRelay {

  type Source = string
  type SessionId = nat

  // -----------------------------------------------------------------------
  // The lock sections
  // -----------------------------------------------------------------------

  // Publish a fresh session, unless another one already holds the source.
  function PublishIn(table: map<Source, SessionId>, src: Source, sid: SessionId): map<Source, SessionId> {
    if src in table then table else table[src := sid]
  }

  // Retire only one's own entry.
  function RetireFrom(table: map<Source, SessionId>, src: Source, sess: SessionId): map<Source, SessionId> {
    if src in table && table[src] == sess then table - {src} else table
  }

  class UDPRelay {
    var sessions: map<Source, SessionId>
    // Sessions whose sockets have been closed.
    var closed: set<SessionId>

    constructor ()
      ensures sessions == map[] && closed == {}
    {
      sessions, closed := map[], {};
    }

    // The second half of Handle's slow path: the session to send on, which is
    // the fresh one exactly when it won the source.
    method PublishOrYield(src: Source, sid: SessionId) returns (sess: SessionId, won: bool)
      modifies this
      ensures sessions == PublishIn(old(sessions), src, sid)
      ensures won == (src !in old(sessions)) && src in sessions && sess == sessions[src]
      ensures closed == if won then old(closed) else old(closed) + {sid}
    {
      if src in sessions {
        sess, won := sessions[src], false;
        closed := closed + {sid};
      } else {
        sessions := sessions[src := sid];
        sess, won := sid, true;
      }
    }

    // The pump's deferred cleanup.
    method Retire(src: Source, sess: SessionId)
      modifies this
      ensures sessions == RetireFrom(old(sessions), src, sess)
      ensures closed == old(closed) + {sess}
      ensures forall s :: s in old(sessions) && old(sessions)[s] != sess ==>
        s in sessions && sessions[s] == old(sessions)[s]
    {
      if src in sessions && sessions[src] == sess {
        sessions := sessions - {src};
      }
      closed := closed + {sess};
    }

    method Close()
      modifies this
      ensures sessions == map[]
      ensures closed == old(closed) + old(sessions).Values
    {
      while sessions.Keys != {}
        invariant sessions.Keys <= old(sessions).Keys
        invariant forall s :: s in sessions ==> sessions[s] == old(sessions)[s]
        invariant forall i :: i in closed <==>
          i in old(closed) || exists s :: s in old(sessions) && s !in sessions && old(sessions)[s] == i
        decreases sessions.Keys
      {
        var k :| k in sessions.Keys;
        closed := closed + {sessions[k]};
        sessions := sessions - {k};
      }
      forall i ensures i in closed <==> i in old(closed) + old(sessions).Values {
        if i in old(sessions).Values {
          var s :| s in old(sessions) && old(sessions)[s] == i;
        }
      }
    }
  }

  // -----------------------------------------------------------------------
  // The protocol
  // -----------------------------------------------------------------------

  // A session's reply pump; retired means its entry is gone but its socket
  // is not closed yet.
  datatype Pump = NotStarted | Running | Retired | Exited

  datatype Session = Session(src: Source, published: bool, closed: bool, pump: Pump)

  // Where a packet handler is between two lock sections.
  datatype Handler =
    | Associating(src: Source)   // missed, dialling off-lock
    | Holding(sid: SessionId)    // has a fresh session, not yet published
    | Yielding(sid: SessionId)   // lost the race, about to close its own
    | Starting(sid: SessionId)   // won, about to start the pump

  datatype State = State(table: map<Source, SessionId>, sessions: map<SessionId, Session>,
                         handlers: map<nat, Handler>, next: SessionId)

  const INIT := State(map[], map[], map[], 0)

  datatype Op =
    | Miss(h: nat, src: Source)
    | DialFailed(h: nat)
    | Dialled(h: nat)
    | Publish(h: nat)
    | CloseLoser(h: nat)
    | StartPump(h: nat)
    | PumpRetire(sid: SessionId)
    | PumpClose(sid: SessionId)
    | SweepAll

  predicate Enabled(s: State, op: Op) {
    match op
    case Miss(h, src) => h !in s.handlers && src !in s.table
    case DialFailed(h) => h in s.handlers && s.handlers[h].Associating?
    case Dialled(h) => h in s.handlers && s.handlers[h].Associating?
    case Publish(h) => h in s.handlers && s.handlers[h].Holding? && s.handlers[h].sid in s.sessions
    case CloseLoser(h) => h in s.handlers && s.handlers[h].Yielding? && s.handlers[h].sid in s.sessions
    case StartPump(h) => h in s.handlers && s.handlers[h].Starting? && s.handlers[h].sid in s.sessions
    case PumpRetire(sid) => sid in s.sessions && s.sessions[sid].pump == Running
    case PumpClose(sid) => sid in s.sessions && s.sessions[sid].pump == Retired
    case SweepAll => true
  }

  // One atomic section; an operation that is not enabled does not happen.
  function Step(s: State, op: Op): State {
    if !Enabled(s, op) then s
    else match op
      case Miss(h, src) => s.(handlers := s.handlers[h := Associating(src)])
      case DialFailed(h) => s.(handlers := s.handlers - {h})
      case Dialled(h) =>
        s.(sessions := s.sessions[s.next := Session(s.handlers[h].src, false, false, NotStarted)],
           handlers := s.handlers[h := Holding(s.next)],
           next := s.next + 1)
      case Publish(h) =>
        var sid := s.handlers[h].sid;
        var src := s.sessions[sid].src;
        if src in s.table then s.(handlers := s.handlers[h := Yielding(sid)])
        else s.(table := PublishIn(s.table, src, sid),
                sessions := s.sessions[sid := s.sessions[sid].(published := true)],
                handlers := s.handlers[h := Starting(sid)])
      case CloseLoser(h) =>
        var sid := s.handlers[h].sid;
        s.(sessions := s.sessions[sid := s.sessions[sid].(closed := true)], handlers := s.handlers - {h})
      case StartPump(h) =>
        var sid := s.handlers[h].sid;
        s.(sessions := s.sessions[sid := s.sessions[sid].(pump := Running)], handlers := s.handlers - {h})
      case PumpRetire(sid) =>
        s.(table := RetireFrom(s.table, s.sessions[sid].src, sid),
           sessions := s.sessions[sid := s.sessions[sid].(pump := Retired)])
      case PumpClose(sid) =>
        s.(sessions := s.sessions[sid := s.sessions[sid].(closed := true, pump := Exited)])
      case SweepAll =>
        s.(table := map[],
           sessions := map sid | sid in s.sessions ::
             if sid in s.table.Values then s.sessions[sid].(closed := true) else s.sessions[sid])
  }

  function Run(ops: seq<Op>): State {
    if ops == [] then INIT else Step(Run(ops[..|ops| - 1]), ops[|ops| - 1])
  }

  // -----------------------------------------------------------------------
  // The invariant
  // -----------------------------------------------------------------------

  // A published session that neither its pump nor a Close has given up.
  ghost predicate Live(x: Session) {
    x.published && !x.closed && (x.pump == NotStarted || x.pump == Running)
  }

  ghost predicate Holds(h: Handler, sid: SessionId) {
    !h.Associating? && h.sid == sid
  }

  ghost predicate HeldBySome(s: State, sid: SessionId) {
    exists h :: h in s.handlers && Holds(s.handlers[h], sid)
  }

  // The table is exactly the live sessions, each under its own source.
  ghost predicate TableInv(s: State) {
    && (forall src :: src in s.table ==>
          && s.table[src] in s.sessions
          && s.sessions[s.table[src]].src == src
          && Live(s.sessions[s.table[src]]))
    && (forall sid :: sid in s.sessions && Live(s.sessions[sid]) ==>
          s.sessions[sid].src in s.table && s.table[s.sessions[sid].src] == sid)
  }

  ghost predicate HandlerInv(s: State, h: nat)
    requires h in s.handlers
  {
    match s.handlers[h]
    case Associating(_) => true
    case Holding(sid) => sid in s.sessions && s.sessions[sid] == Session(s.sessions[sid].src, false, false, NotStarted)
    case Yielding(sid) => sid in s.sessions && s.sessions[sid] == Session(s.sessions[sid].src, false, false, NotStarted)
    case Starting(sid) => sid in s.sessions && s.sessions[sid].published && s.sessions[sid].pump == NotStarted
  }

  ghost predicate HandlersInv(s: State) {
    && (forall h :: h in s.handlers ==> HandlerInv(s, h))
    && (forall g, h :: g in s.handlers && h in s.handlers && g != h ==>
          s.handlers[g].Associating? || s.handlers[h].Associating? || s.handlers[g].sid != s.handlers[h].sid)
  }

  // Nobody's session is forgotten: what is neither closed for good nor in the
  // pump's care is in some handler's hands.
  ghost predicate SessionsInv(s: State) {
    forall sid :: sid in s.sessions ==>
      && sid < s.next
      && (!s.sessions[sid].published && !s.sessions[sid].closed ==> HeldBySome(s, sid))
      && (s.sessions[sid].published && s.sessions[sid].pump == NotStarted ==> HeldBySome(s, sid))
      && (!s.sessions[sid].published ==> s.sessions[sid].pump == NotStarted)
      && (s.sessions[sid].pump == Exited ==> s.sessions[sid].closed)
  }

  ghost predicate Inv(s: State) {
    TableInv(s) && HandlersInv(s) && SessionsInv(s)
  }

  // A handler's step leaves the others holding what they held.
  lemma StillHeld(s: State, t: State, h: nat, sid: SessionId)
    requires HeldBySome(s, sid)
    requires h in s.handlers && !Holds(s.handlers[h], sid)
    requires forall g :: g in s.handlers && g != h ==> g in t.handlers && t.handlers[g] == s.handlers[g]
    ensures HeldBySome(t, sid)
  {
    var g :| g in s.handlers && Holds(s.handlers[g], sid);
    assert g in t.handlers && Holds(t.handlers[g], sid);
  }

  // A step that gives up no handler's session.
  lemma AllStillHeld(s: State, t: State)
    requires forall g :: g in s.handlers && !s.handlers[g].Associating? ==>
      g in t.handlers && !t.handlers[g].Associating? && t.handlers[g].sid == s.handlers[g].sid
    ensures forall sid :: HeldBySome(s, sid) ==> HeldBySome(t, sid)
  {
    forall sid | HeldBySome(s, sid) ensures HeldBySome(t, sid) {
      var g :| g in s.handlers && Holds(s.handlers[g], sid);
      assert g in t.handlers && Holds(t.handlers[g], sid);
    }
  }

  lemma DialledKeepsInv(s: State, h: nat)
    requires Inv(s) && Enabled(s, Dialled(h))
    ensures Inv(Step(s, Dialled(h)))
  {
    var t := Step(s, Dialled(h));
    assert s.next !in s.sessions;
    AllStillHeld(s, t);
    assert h in t.handlers && Holds(t.handlers[h], s.next);
    DialledHandlers(s, h);
  }

  lemma DialledHandlers(s: State, h: nat)
    requires Inv(s) && Enabled(s, Dialled(h)) && s.next !in s.sessions
    ensures HandlersInv(Step(s, Dialled(h)))
  {
    var t := Step(s, Dialled(h));
    forall g | g in t.handlers
      ensures HandlerInv(t, g)
      ensures g != h && !t.handlers[g].Associating? ==> t.handlers[g].sid != s.next
    {
      assert g in s.handlers && HandlerInv(s, g);
    }
  }

  lemma YieldKeepsInv(s: State, h: nat)
    requires Inv(s) && Enabled(s, Publish(h)) && s.sessions[s.handlers[h].sid].src in s.table
    ensures Inv(Step(s, Publish(h)))
  {
    var t := Step(s, Publish(h));
    AllStillHeld(s, t);
    forall g | g in t.handlers ensures HandlerInv(t, g) {
      assert HandlerInv(s, g);
    }
  }

  lemma WinKeepsInv(s: State, h: nat)
    requires Inv(s) && Enabled(s, Publish(h)) && s.sessions[s.handlers[h].sid].src !in s.table
    ensures Inv(Step(s, Publish(h)))
  {
    var t := Step(s, Publish(h));
    assert HandlerInv(s, h);
    AllStillHeld(s, t);
    assert Holds(t.handlers[h], s.handlers[h].sid);
    forall g | g in t.handlers ensures HandlerInv(t, g) {
      assert HandlerInv(s, g);
    }
  }

  lemma PublishKeepsInv(s: State, h: nat)
    requires Inv(s) && Enabled(s, Publish(h))
    ensures Inv(Step(s, Publish(h)))
  {
    if s.sessions[s.handlers[h].sid].src in s.table {
      YieldKeepsInv(s, h);
    } else {
      WinKeepsInv(s, h);
    }
  }

  lemma CloseLoserKeepsInv(s: State, h: nat)
    requires Inv(s) && Enabled(s, CloseLoser(h))
    ensures Inv(Step(s, CloseLoser(h)))
  {
    var t := Step(s, CloseLoser(h));
    var sid := s.handlers[h].sid;
    assert HandlerInv(s, h);
    forall g | g in t.handlers ensures HandlerInv(t, g) {
      assert HandlerInv(s, g);
    }
    forall x | x in t.sessions && x != sid && HeldBySome(s, x) ensures HeldBySome(t, x) {
      StillHeld(s, t, h, x);
    }
  }

  lemma StartPumpKeepsInv(s: State, h: nat)
    requires Inv(s) && Enabled(s, StartPump(h))
    ensures Inv(Step(s, StartPump(h)))
  {
    var t := Step(s, StartPump(h));
    var sid := s.handlers[h].sid;
    assert HandlerInv(s, h);
    forall g | g in t.handlers ensures HandlerInv(t, g) {
      assert HandlerInv(s, g);
    }
    forall x | x in t.sessions && x != sid && HeldBySome(s, x) ensures HeldBySome(t, x) {
      StillHeld(s, t, h, x);
    }
  }

  lemma PumpKeepsInv(s: State, op: Op)
    requires Inv(s) && Enabled(s, op) && (op.PumpRetire? || op.PumpClose?)
    ensures Inv(Step(s, op))
  {
    var t := Step(s, op);
    AllStillHeld(s, t);
    forall g | g in t.handlers ensures HandlerInv(t, g) {
      assert HandlerInv(s, g);
    }
  }

  lemma SweepKeepsInv(s: State)
    requires Inv(s)
    ensures Inv(Step(s, SweepAll))
  {
    var t := Step(s, SweepAll);
    AllStillHeld(s, t);
    forall g | g in t.handlers ensures HandlerInv(t, g) {
      assert HandlerInv(s, g);
      if !s.handlers[g].Associating? && s.handlers[g].sid in s.table.Values {
        var src :| src in s.table && s.table[src] == s.handlers[g].sid;
      }
    }
    forall sid | sid in t.sessions ensures !Live(t.sessions[sid]) {
      if Live(s.sessions[sid]) {
        assert s.table[s.sessions[sid].src] == sid;
        assert sid in s.table.Values;
      }
    }
  }

  lemma AssociationKeepsInv(s: State, op: Op)
    requires Inv(s) && Enabled(s, op) && (op.Miss? || op.DialFailed?)
    ensures Inv(Step(s, op))
  {
    var t := Step(s, op);
    AllStillHeld(s, t);
    forall g | g in t.handlers ensures HandlerInv(t, g) {
      if g in s.handlers {
        assert HandlerInv(s, g);
      }
    }
  }

  lemma StepKeepsInv(s: State, op: Op)
    requires Inv(s)
    ensures Inv(Step(s, op))
  {
    if Enabled(s, op) {
      match op
      case Miss(_, _) => AssociationKeepsInv(s, op);
      case DialFailed(_) => AssociationKeepsInv(s, op);
      case Dialled(h) => DialledKeepsInv(s, h);
      case Publish(h) => PublishKeepsInv(s, h);
      case CloseLoser(h) => CloseLoserKeepsInv(s, h);
      case StartPump(h) => StartPumpKeepsInv(s, h);
      case PumpRetire(_) => PumpKeepsInv(s, op);
      case PumpClose(_) => PumpKeepsInv(s, op);
      case SweepAll => SweepKeepsInv(s);
    }
  }

  lemma {:induction false} RunKeepsInv(ops: seq<Op>)
    ensures Inv(Run(ops))
  {
    if ops != [] {
      RunKeepsInv(ops[..|ops| - 1]);
      StepKeepsInv(Run(ops[..|ops| - 1]), ops[|ops| - 1]);
    }
  }

  // -----------------------------------------------------------------------
  // What every run guarantees
  // -----------------------------------------------------------------------

  /** In every interleaving the table is exactly the live published sessions:
      each is reachable under its own source, so a source never has two. */
  lemma TableIsLiveSessions(ops: seq<Op>, sid: SessionId)
    requires sid in Run(ops).sessions
    ensures var s := Run(ops);
      Live(s.sessions[sid]) <==> s.sessions[sid].src in s.table && s.table[s.sessions[sid].src] == sid
  {
    RunKeepsInv(ops);
  }

  lemma OneLiveSessionPerSource(ops: seq<Op>, a: SessionId, b: SessionId)
    requires a in Run(ops).sessions && b in Run(ops).sessions
    requires Live(Run(ops).sessions[a]) && Live(Run(ops).sessions[b])
    requires Run(ops).sessions[a].src == Run(ops).sessions[b].src
    ensures a == b
  {
    TableIsLiveSessions(ops, a);
    TableIsLiveSessions(ops, b);
  }

  // A pump that exits late, after its source got a new session, leaves the
  // new one in place.
  lemma RetireSparesOthers(ops: seq<Op>, sid: SessionId, other: SessionId)
    requires other in Run(ops).sessions && other != sid && Live(Run(ops).sessions[other])
    ensures var t := Step(Run(ops), PumpRetire(sid));
      t.sessions[other].src in t.table && t.table[t.sessions[other].src] == other
  {
    TableIsLiveSessions(ops, other);
  }

  /** No session leaks: when no handler is mid-flight and every started pump
      has finished, every session ever associated is closed (the losers of a
      race included) and the table is empty. */
  lemma QuiescentMeansClosed(ops: seq<Op>)
    requires Run(ops).handlers == map[]
    requires forall sid :: sid in Run(ops).sessions ==>
      Run(ops).sessions[sid].pump == NotStarted || Run(ops).sessions[sid].pump == Exited
    ensures forall sid :: sid in Run(ops).sessions ==> Run(ops).sessions[sid].closed
    ensures Run(ops).table == map[]
  {
    RunKeepsInv(ops);
    var s := Run(ops);
    forall sid | sid in s.sessions ensures s.sessions[sid].closed {
      assert !HeldBySome(s, sid);
    }
    assert forall sid :: sid in s.sessions ==> !Live(s.sessions[sid]);
    assert s.table.Keys == {};
  }

  // The steps of one packet from a new source, uninterrupted.
  ghost function Handled(s: State, h: nat, src: Source): State {
    Step(Step(Step(Step(s, Miss(h, src)), Dialled(h)), Publish(h)), StartPump(h))
  }

  /** A packet from a source without a session gets one: it is published under
      that source with its pump running, and nothing else changes. */
  lemma PacketGetsSession(s: State, h: nat, src: Source)
    requires Inv(s) && h !in s.handlers && src !in s.table
    ensures Handled(s, h, src) == s.(table := s.table[src := s.next], next := s.next + 1,
                                     sessions := s.sessions[s.next := Session(src, true, false, Running)])
  {
    var dialled := Step(Step(s, Miss(h, src)), Dialled(h));
    assert dialled.handlers == s.handlers[h := Holding(s.next)];
    var published := Step(dialled, Publish(h));
    assert published.handlers == s.handlers[h := Starting(s.next)];
    assert published.handlers - {h} == s.handlers;
  }

  // -----------------------------------------------------------------------
  // Closing for good
  // -----------------------------------------------------------------------

  // The device has stopped: no further packet reaches a handler.
  ghost predicate NoMiss(ops: seq<Op>) {
    forall i :: 0 <= i < |ops| ==> !ops[i].Miss?
  }

  // A packet is still on its way to a session of its own.
  ghost predicate Unpublished(h: Handler) {
    h.Associating? || h.Holding?
  }

  ghost predicate InFlight(s: State) {
    exists h :: h in s.handlers && Unpublished(s.handlers[h])
  }

  ghost function Swept(ops: seq<Op>, more: seq<Op>): State {
    Run(ops + [SweepAll] + more)
  }

  ghost predicate StaysEmpty(ops: seq<Op>) {
    forall more :: NoMiss(more) ==> Swept(ops, more).table == map[]
  }

  lemma SweptFirst(ops: seq<Op>)
    ensures Swept(ops, []) == Step(Run(ops), SweepAll)
  {
    var all := ops + [SweepAll] + [];
    assert all[..|all| - 1] == ops;
  }

  lemma SweptNext(ops: seq<Op>, more: seq<Op>, op: Op)
    ensures Swept(ops, more + [op]) == Step(Swept(ops, more), op)
  {
    var all := ops + [SweepAll] + (more + [op]);
    assert all[..|all| - 1] == ops + [SweepAll] + more;
  }

  lemma NothingPublished(s: State, op: Op)
    requires s.table == map[] && !InFlight(s) && !op.Miss?
    ensures Step(s, op).table == map[] && !InFlight(Step(s, op))
  {
    var t := Step(s, op);
    forall h | h in t.handlers ensures !Unpublished(t.handlers[h]) {
      assert h in s.handlers && !Unpublished(s.handlers[h]);
    }
  }

  lemma {:induction false} SweptStaysEmpty(ops: seq<Op>, more: seq<Op>)
    requires !InFlight(Run(ops)) && NoMiss(more)
    ensures Swept(ops, more).table == map[] && !InFlight(Swept(ops, more))
    decreases |more|
  {
    if more == [] {
      SweptFirst(ops);
    } else {
      var n := |more| - 1;
      SweptStaysEmpty(ops, more[..n]);
      assert more == more[..n] + [more[n]];
      SweptNext(ops, more[..n], more[n]);
      NothingPublished(Swept(ops, more[..n]), more[n]);
    }
  }

  // A handler with a fresh session publishes it into the swept table.
  lemma HoldingPublishes(s: State, h: nat)
    requires s.table == map[] && Enabled(s, Publish(h))
    ensures Step(s, Publish(h)).table != map[]
  {
    assert s.sessions[s.handlers[h].sid].src in Step(s, Publish(h)).table;
  }

  lemma {:induction false} LatePublish(ops: seq<Op>, h: nat) returns (more: seq<Op>)
    requires h in Run(ops).handlers && Unpublished(Run(ops).handlers[h])
    ensures NoMiss(more) && Swept(ops, more).table != map[]
  {
    SweptFirst(ops);
    more := [];
    if Run(ops).handlers[h].Associating? {
      more := [Dialled(h)];
      assert [] + [Dialled(h)] == more;
      SweptNext(ops, [], Dialled(h));
    } else {
      RunKeepsInv(ops);
      assert HandlerInv(Run(ops), h);
    }
    HoldingPublishes(Swept(ops, more), h);
    SweptNext(ops, more, Publish(h));
    more := more + [Publish(h)];
  }

  /** What closing the device before the relay is for: once no packet comes in
      any more, the table stays empty after the sweep whatever happens next, if
      and only if no handler was still on its way to a session. */
  lemma {:induction false} SweepIsFinalIff(ops: seq<Op>)
    ensures StaysEmpty(ops) <==> !InFlight(Run(ops))
  {
    if InFlight(Run(ops)) {
      var h :| h in Run(ops).handlers && Unpublished(Run(ops).handlers[h]);
      var more := LatePublish(ops, h);
    } else {
      forall more | NoMiss(more) ensures Swept(ops, more).table == map[] {
        SweptStaysEmpty(ops, more);
      }
    }
  }
}
