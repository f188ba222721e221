/** The in-process event bus (internal/eventbus/bus.go): a bounded main buffer,
    one dispatch loop that fans every event out to bounded per-subscriber queues,
    and one worker per subscriber.

    The bus is a state machine over the atomic steps of publishers, the dispatch
    loop (which holds the read lock from the first queue to the last), workers,
    and the Subscribe, Unsubscribe and Stop calls that take the write lock.
    Events are numbered in the order the main buffer accepted them. */
module EventBus {
  import opened Collections

  const DEFAULT_BUFFER_SIZE := 256
  const QUEUE_SIZE := 64

  type Event = string

  // One subscriber incarnation. The worker has taken `handled` from the queue,
  // the last one possibly still in progress. `since` and `offers` record what
  // was offered to it: the k-th number of `offers` is how long its queue was
  // when event since + k came by.
  datatype Subscriber = Subscriber(name: string, queue: seq<nat>, handled: seq<nat>, busy: bool,
                                   quit: bool, exited: bool, since: nat, offers: seq<nat>)

  datatype Dispatcher =
    | Waiting
    | Took(e: nat)                 // off the main buffer, lock not yet taken
    | Fanning(e: nat, pos: nat)    // holding the read lock
    | Gone

  datatype State = State(size: nat, published: seq<Event>, ch: seq<nat>, taken: nat,
                         subs: seq<nat>, incs: map<nat, Subscriber>, next: nat,
                         dispatcher: Dispatcher, stopped: bool, done: bool)

  function New(bufSize: int): State {
    State(if bufSize <= 0 then DEFAULT_BUFFER_SIZE else bufSize, [], [], 0, [], map[], 0, Waiting, false, false)
  }

  datatype Op =
    | Publish(event: Event)
    | Subscribe(name: string)
    | Unsubscribe(name: string)
    | DispatchTake
    | DispatchLock
    | DispatchOffer
    | DispatchUnlock
    | DispatchExit
    | WorkerTake(k: nat)
    | WorkerDone(k: nat)
    | WorkerExit(k: nat)
    | StopMark
    | StopSignal

  // The position of a name among the subscribers, or their number.
  function FindName(subs: seq<nat>, incs: map<nat, Subscriber>, name: string): (i: nat)
    ensures i <= |subs|
    ensures i < |subs| ==> subs[i] in incs && incs[subs[i]].name == name
    ensures forall j :: 0 <= j < i && subs[j] in incs ==> incs[subs[j]].name != name
  {
    if subs == [] then 0
    else if subs[0] in incs && incs[subs[0]].name == name then 0
    else 1 + FindName(subs[1..], incs, name)
  }

  // Unsubscribing closes the quit channel and removes the entry.
  function Without(s: State, name: string): State {
    var i := FindName(s.subs, s.incs, name);
    if i == |s.subs| then s
    else s.(subs := s.subs[..i] + s.subs[i + 1..],
            incs := s.incs[s.subs[i] := s.incs[s.subs[i]].(quit := true)])
  }

  // The first event a subscriber arriving now will be offered.
  function NextOffer(s: State): int {
    if s.dispatcher.Took? then s.taken - 1 else s.taken
  }

  function WithNew(s: State, name: string): State
    requires NextOffer(s) >= 0
  {
    s.(subs := s.subs + [s.next],
       incs := s.incs[s.next := Subscriber(name, [], [], false, false, false, NextOffer(s), [])],
       next := s.next + 1)
  }

  // A non-blocking send: a full queue drops the event.
  function Offered(sub: Subscriber, e: nat): Subscriber {
    sub.(queue := if |sub.queue| < QUEUE_SIZE then sub.queue + [e] else sub.queue,
         offers := sub.offers + [|sub.queue|])
  }

  predicate CanOffer(s: State) {
    s.dispatcher.Fanning? && s.dispatcher.pos < |s.subs| && s.subs[s.dispatcher.pos] in s.incs
  }

  function OfferOne(s: State): State {
    if !CanOffer(s) then s
    else
      var k := s.subs[s.dispatcher.pos];
      s.(incs := s.incs[k := Offered(s.incs[k], s.dispatcher.e)],
         dispatcher := s.dispatcher.(pos := s.dispatcher.pos + 1))
  }

  predicate Enabled(s: State, op: Op) {
    match op
    case Publish(_) => true
    case Subscribe(_) => !s.dispatcher.Fanning? && NextOffer(s) >= 0
    case Unsubscribe(_) => !s.dispatcher.Fanning?
    case DispatchTake => s.dispatcher.Waiting? && s.ch != []
    case DispatchLock => s.dispatcher.Took?
    case DispatchOffer => CanOffer(s)
    case DispatchUnlock => s.dispatcher.Fanning? && s.dispatcher.pos == |s.subs|
    case DispatchExit => s.dispatcher.Waiting? && s.done
    case WorkerTake(k) => k in s.incs && !s.incs[k].exited && !s.incs[k].busy && s.incs[k].queue != []
    case WorkerDone(k) => k in s.incs && s.incs[k].busy
    case WorkerExit(k) => k in s.incs && !s.incs[k].exited && !s.incs[k].busy && (s.incs[k].quit || s.done)
    case StopMark => !s.dispatcher.Fanning?
    case StopSignal => s.stopped
  }

  // One atomic step; an operation that is not enabled does not happen.
  function Step(s: State, op: Op): State {
    if !Enabled(s, op) then s
    else match op
      case Publish(event) =>
        if |s.ch| < s.size then s.(published := s.published + [event], ch := s.ch + [|s.published|])
        else s
      case Subscribe(name) => if s.stopped then s else WithNew(Without(s, name), name)
      case Unsubscribe(name) => Without(s, name)
      case DispatchTake => s.(ch := s.ch[1..], taken := s.taken + 1, dispatcher := Took(s.ch[0]))
      case DispatchLock => s.(dispatcher := Fanning(s.dispatcher.e, 0))
      case DispatchOffer => OfferOne(s)
      case DispatchUnlock => s.(dispatcher := Waiting)
      case DispatchExit => s.(dispatcher := Gone)
      case WorkerTake(k) =>
        var sub := s.incs[k];
        s.(incs := s.incs[k := sub.(queue := sub.queue[1..], handled := sub.handled + [sub.queue[0]], busy := true)])
      case WorkerDone(k) => s.(incs := s.incs[k := s.incs[k].(busy := false)])
      case WorkerExit(k) => s.(incs := s.incs[k := s.incs[k].(exited := true)])
      case StopMark => s.(stopped := true)
      case StopSignal => s.(done := true)
  }

  function Run(bufSize: int, ops: seq<Op>): State {
    if ops == [] then New(bufSize) else Step(Run(bufSize, ops[..|ops| - 1]), ops[|ops| - 1])
  }

  // -----------------------------------------------------------------------
  // The invariant
  // -----------------------------------------------------------------------

  // The events that found room: of the consecutive events from `since` on, in
  // order, those offered while the queue was short of QUEUE_SIZE.
  ghost function Accepted(since: nat, offers: seq<nat>): seq<nat> {
    if offers == [] then []
    else
      var n := |offers| - 1;
      Accepted(since, offers[..n]) + (if offers[n] < QUEUE_SIZE then [since + n] else [])
  }

  ghost predicate SubscriberInv(sub: Subscriber) {
    && |sub.queue| <= QUEUE_SIZE
    && sub.handled + sub.queue == Accepted(sub.since, sub.offers)
  }

  // The event after the last one offered to a subscriber.
  ghost function UpTo(sub: Subscriber): nat {
    sub.since + |sub.offers|
  }

  // Where a registered subscriber stands: up to the event being fanned out,
  // if its turn has not come yet, and otherwise past every event taken.
  ghost function Expected(s: State, i: nat): int {
    match s.dispatcher
    case Waiting => s.taken
    case Gone => s.taken
    case Took(_) => s.taken - 1
    case Fanning(_, pos) => if i < pos then s.taken else s.taken - 1
  }

  ghost predicate BufferInv(s: State) {
    && |s.ch| <= s.size
    && s.taken + |s.ch| == |s.published|
    && (forall i :: 0 <= i < |s.ch| ==> s.ch[i] == s.taken + i)
    && (s.dispatcher.Took? || s.dispatcher.Fanning? ==> s.taken > 0 && s.dispatcher.e == s.taken - 1)
    && (s.dispatcher.Fanning? ==> s.dispatcher.pos <= |s.subs|)
  }

  ghost predicate IncarnationsInv(s: State) {
    forall k :: k in s.incs ==> k < s.next && SubscriberInv(s.incs[k]) && UpTo(s.incs[k]) <= s.taken
  }

  ghost predicate StandingInv(s: State) {
    forall i :: 0 <= i < |s.subs| ==> s.subs[i] in s.incs && UpTo(s.incs[s.subs[i]]) == Expected(s, i)
  }

  ghost predicate NamesInv(subs: seq<nat>, incs: map<nat, Subscriber>) {
    forall i, j :: 0 <= i < j < |subs| && subs[i] in incs && subs[j] in incs ==>
      subs[i] != subs[j] && incs[subs[i]].name != incs[subs[j]].name
  }

  ghost predicate RegistryInv(s: State) {
    IncarnationsInv(s) && StandingInv(s) && NamesInv(s.subs, s.incs)
  }

  ghost predicate Inv(s: State) {
    BufferInv(s) && RegistryInv(s)
  }

  lemma {:induction false} OfferKeepsSubscriber(sub: Subscriber, e: nat)
    requires SubscriberInv(sub) && e == UpTo(sub)
    ensures SubscriberInv(Offered(sub, e)) && UpTo(Offered(sub, e)) == UpTo(sub) + 1
    ensures Offered(sub, e).name == sub.name
  {
    var next := Offered(sub, e);
    var n := |sub.offers|;
    assert next.offers[..n] == sub.offers && next.offers[n] == |sub.queue|;
    if |sub.queue| < QUEUE_SIZE {
      assert next.handled + next.queue == sub.handled + sub.queue + [e];
    }
  }

  lemma {:induction false} TakeKeepsSubscriber(sub: Subscriber, next: Subscriber)
    requires SubscriberInv(sub) && sub.queue != []
    requires next == sub.(queue := sub.queue[1..], handled := sub.handled + [sub.queue[0]], busy := true)
    ensures SubscriberInv(next) && UpTo(next) == UpTo(sub)
  {
    assert next.handled + next.queue == sub.handled + sub.queue;
  }

  // What is left after taking position i out.
  lemma {:induction false} RemovedAt(subs: seq<nat>, i: nat, j: nat)
    requires i < |subs| && j < |subs| - 1
    ensures (subs[..i] + subs[i + 1..])[j] == subs[if j < i then j else j + 1]
  {
  }

  lemma {:induction false} WithoutKeepsNames(s: State, name: string)
    requires Inv(s)
    ensures var t := Without(s, name);
      && NamesInv(t.subs, t.incs)
      && forall j :: 0 <= j < |t.subs| ==> t.subs[j] in t.incs && t.incs[t.subs[j]].name != name
  {
    var i := FindName(s.subs, s.incs, name);
    var t := Without(s, name);
    if i < |s.subs| {
      forall j | 0 <= j < |t.subs|
        ensures t.subs[j] in t.incs && t.incs[t.subs[j]].name != name
        ensures t.subs[j] == s.subs[if j < i then j else j + 1]
      {
        RemovedAt(s.subs, i, j);
        var j' := if j < i then j else j + 1;
        assert s.subs[j'] in s.incs && s.subs[i] in s.incs;
      }
    }
  }

  lemma {:induction false} WithoutKeepsStanding(s: State, name: string)
    requires Inv(s) && !s.dispatcher.Fanning?
    ensures StandingInv(Without(s, name))
  {
    var i := FindName(s.subs, s.incs, name);
    var t := Without(s, name);
    if i < |s.subs| {
      forall j | 0 <= j < |t.subs|
        ensures t.subs[j] in t.incs && UpTo(t.incs[t.subs[j]]) == Expected(t, j)
      {
        RemovedAt(s.subs, i, j);
        var j' := if j < i then j else j + 1;
        assert UpTo(s.incs[s.subs[j']]) == Expected(s, j');
      }
    }
  }

  lemma {:induction false} WithoutKeepsInv(s: State, name: string)
    requires Inv(s) && !s.dispatcher.Fanning?
    ensures Inv(Without(s, name))
    ensures forall i :: 0 <= i < |Without(s, name).subs| ==>
      Without(s, name).incs[Without(s, name).subs[i]].name != name
  {
    WithoutKeepsNames(s, name);
    WithoutKeepsStanding(s, name);
    assert IncarnationsInv(Without(s, name));
  }

  lemma {:induction false} WithNewKeepsInv(s: State, name: string)
    requires Inv(s) && !s.dispatcher.Fanning? && NextOffer(s) >= 0
    requires forall i :: 0 <= i < |s.subs| ==> s.incs[s.subs[i]].name != name
    ensures Inv(WithNew(s, name))
  {
    var t := WithNew(s, name);
    var sub := t.incs[s.next];
    assert SubscriberInv(sub) && UpTo(sub) == NextOffer(s);
    assert s.next !in s.incs;
    assert IncarnationsInv(t);
    forall i | 0 <= i < |s.subs|
      ensures t.subs[i] == s.subs[i] && t.subs[i] in s.incs && t.incs[t.subs[i]] == s.incs[s.subs[i]]
      ensures UpTo(t.incs[t.subs[i]]) == Expected(t, i)
    {
      assert UpTo(s.incs[s.subs[i]]) == Expected(s, i);
    }
    NewNameApart(s, t);
  }

  lemma {:induction false} NewNameApart(s: State, t: State)
    requires Inv(s) && |t.subs| == |s.subs| + 1 && t.subs[|s.subs|] in t.incs
    requires forall i :: 0 <= i < |s.subs| ==>
      t.subs[i] == s.subs[i] && t.subs[i] in s.incs && t.subs[i] in t.incs && t.incs[t.subs[i]] == s.incs[s.subs[i]]
    requires forall i :: 0 <= i < |s.subs| ==>
      s.subs[i] in s.incs && s.subs[i] != t.subs[|s.subs|] && s.incs[s.subs[i]].name != t.incs[t.subs[|s.subs|]].name
    ensures NamesInv(t.subs, t.incs)
  {
  }

  lemma {:induction false} OfferKeepsStanding(s: State)
    requires Inv(s) && CanOffer(s)
    ensures IncarnationsInv(OfferOne(s)) && StandingInv(OfferOne(s))
    ensures OfferOne(s).incs[s.subs[s.dispatcher.pos]].name == s.incs[s.subs[s.dispatcher.pos]].name
  {
    var t, pos := OfferOne(s), s.dispatcher.pos;
    var k := s.subs[pos];
    assert UpTo(s.incs[k]) == Expected(s, pos);
    OfferKeepsSubscriber(s.incs[k], s.dispatcher.e);
    forall i | 0 <= i < |t.subs|
      ensures t.subs[i] in t.incs && UpTo(t.incs[t.subs[i]]) == Expected(t, i)
    {
      assert UpTo(s.incs[s.subs[i]]) == Expected(s, i);
      if i != pos {
        assert s.subs[i] != k by { assert s.subs[i] in s.incs && k in s.incs; }
      }
    }
  }

  lemma {:induction false} SameNames(subs: seq<nat>, incs: map<nat, Subscriber>, k: nat, sub: Subscriber)
    requires NamesInv(subs, incs) && k in incs && sub.name == incs[k].name
    ensures NamesInv(subs, incs[k := sub])
  {
  }

  lemma {:induction false} OfferKeepsInv(s: State)
    requires Inv(s) && CanOffer(s)
    ensures Inv(OfferOne(s))
  {
    OfferKeepsStanding(s);
    var k := s.subs[s.dispatcher.pos];
    SameNames(s.subs, s.incs, k, OfferOne(s).incs[k]);
  }

  // A worker's step changes neither what was offered nor the name.
  lemma {:induction false} WorkerKeepsInv(s: State, k: nat, sub: Subscriber)
    requires Inv(s) && k in s.incs
    requires SubscriberInv(sub) && UpTo(sub) == UpTo(s.incs[k]) && sub.name == s.incs[k].name
    ensures Inv(s.(incs := s.incs[k := sub]))
  {
    var t := s.(incs := s.incs[k := sub]);
    forall i | 0 <= i < |t.subs|
      ensures t.subs[i] in t.incs && UpTo(t.incs[t.subs[i]]) == Expected(t, i)
    {
      assert UpTo(s.incs[s.subs[i]]) == Expected(s, i);
    }
    SameNames(s.subs, s.incs, k, sub);
  }

  lemma {:induction false} DispatcherKeepsInv(s: State, op: Op)
    requires Inv(s) && Enabled(s, op)
    requires op.DispatchTake? || op.DispatchLock? || op.DispatchUnlock? || op.DispatchExit?
    ensures Inv(Step(s, op))
  {
    var t := Step(s, op);
    forall i | 0 <= i < |t.subs|
      ensures t.subs[i] in t.incs && UpTo(t.incs[t.subs[i]]) == Expected(t, i)
    {
      assert UpTo(s.incs[s.subs[i]]) == Expected(s, i);
    }
  }

  lemma {:induction false} SameRegistry(s: State, t: State)
    requires Inv(s) && BufferInv(t)
    requires t.subs == s.subs && t.incs == s.incs && t.next == s.next
    requires t.taken == s.taken && t.dispatcher == s.dispatcher
    ensures Inv(t)
  {
    forall i | 0 <= i < |t.subs|
      ensures t.subs[i] in t.incs && UpTo(t.incs[t.subs[i]]) == Expected(t, i)
    {
      assert UpTo(s.incs[s.subs[i]]) == Expected(s, i);
    }
  }

  // Publishing and the two halves of Stop.
  lemma {:induction false} BufferStepKeepsInv(s: State, op: Op)
    requires Inv(s) && Enabled(s, op) && (op.Publish? || op.StopMark? || op.StopSignal?)
    ensures Inv(Step(s, op))
  {
    SameRegistry(s, Step(s, op));
  }

  lemma {:induction false} RegistryStepKeepsInv(s: State, op: Op)
    requires Inv(s) && Enabled(s, op) && (op.Subscribe? || op.Unsubscribe?)
    ensures Inv(Step(s, op))
  {
    WithoutKeepsInv(s, op.name);
    if op.Subscribe? && !s.stopped {
      WithNewKeepsInv(Without(s, op.name), op.name);
    }
  }

  lemma {:induction false} WorkerStepKeepsInv(s: State, op: Op)
    requires Inv(s) && Enabled(s, op) && (op.WorkerTake? || op.WorkerDone? || op.WorkerExit?)
    ensures Inv(Step(s, op))
  {
    var next := Step(s, op).incs[op.k];
    if op.WorkerTake? {
      TakeKeepsSubscriber(s.incs[op.k], next);
    }
    WorkerKeepsInv(s, op.k, next);
  }

  lemma {:induction false} StepKeepsInv(s: State, op: Op)
    requires Inv(s)
    ensures Inv(Step(s, op))
  {
    if Enabled(s, op) {
      match op
      case Publish(_) => BufferStepKeepsInv(s, op);
      case Subscribe(_) => RegistryStepKeepsInv(s, op);
      case Unsubscribe(_) => RegistryStepKeepsInv(s, op);
      case DispatchTake => DispatcherKeepsInv(s, op);
      case DispatchLock => DispatcherKeepsInv(s, op);
      case DispatchOffer => OfferKeepsInv(s);
      case DispatchUnlock => DispatcherKeepsInv(s, op);
      case DispatchExit => DispatcherKeepsInv(s, op);
      case WorkerTake(_) => WorkerStepKeepsInv(s, op);
      case WorkerDone(_) => WorkerStepKeepsInv(s, op);
      case WorkerExit(_) => WorkerStepKeepsInv(s, op);
      case StopMark => BufferStepKeepsInv(s, op);
      case StopSignal => BufferStepKeepsInv(s, op);
    }
  }

  lemma {:induction false} RunKeepsInv(bufSize: int, ops: seq<Op>)
    ensures Inv(Run(bufSize, ops))
  {
    if ops != [] {
      RunKeepsInv(bufSize, ops[..|ops| - 1]);
      StepKeepsInv(Run(bufSize, ops[..|ops| - 1]), ops[|ops| - 1]);
    }
  }

  // -----------------------------------------------------------------------
  // The bus object
  // -----------------------------------------------------------------------

  // The read-locked fan-out as steps: n queues offered the event in turn.
  function Times(step: State -> State, s: State, n: nat): State {
    if n == 0 then s else step(Times(step, s, n - 1))
  }

  function Offers(s: State, n: nat): State {
    Times(OfferOne, s, n)
  }

  lemma {:induction false} TimesKeeps(step: State -> State, s: State, n: nat, holds: (State, nat) -> bool)
    requires holds(s, 0)
    requires forall t, i: nat :: i < n && holds(t, i) ==> holds(step(t), i + 1)
    ensures holds(Times(step, s, n), n)
  {
    if n > 0 {
      TimesKeeps(step, s, n - 1, holds);
    }
  }

  class Bus {
    const size: nat
    var published: seq<Event>
    var ch: seq<nat>
    var taken: nat
    var subs: seq<nat>
    var incs: map<nat, Subscriber>
    var next: nat
    var dispatcher: Dispatcher
    var stopped: bool
    var done: bool

    ghost function Abs(): State
      reads this
    {
      State(size, published, ch, taken, subs, incs, next, dispatcher, stopped, done)
    }

    ghost predicate Valid()
      reads this
    {
      Inv(Abs())
    }

    constructor (bufSize: int)
      ensures Valid() && Abs() == New(bufSize)
    {
      size := if bufSize <= 0 then DEFAULT_BUFFER_SIZE else bufSize;
      published, ch, taken, subs, incs, next := [], [], 0, [], map[], 0;
      dispatcher, stopped, done := Waiting, false, false;
    }

    // Never blocks: a full buffer drops the event.
    method PublishEvent(event: Event)
      requires Valid()
      modifies this
      ensures Valid() && Abs() == Step(old(Abs()), Publish(event))
    {
      StepKeepsInv(Abs(), Publish(event));
      if |ch| < size {
        ch := ch + [|published|];
        published := published + [event];
      }
    }

    method FindSubscriber(name: string) returns (i: nat)
      requires AllKnown(Abs())
      ensures i == FindName(subs, incs, name)
    {
      i := 0;
      while i < |subs| && incs[subs[i]].name != name
        invariant i <= |subs|
        invariant forall j :: 0 <= j < i ==> incs[subs[j]].name != name
      {
        i := i + 1;
      }
    }

    // Called with the lock held; WithoutKeepsInv says it keeps Valid().
    method RemoveName(name: string)
      requires AllKnown(Abs())
      modifies this
      ensures Abs() == Without(old(Abs()), name)
    {
      var i := FindSubscriber(name);
      if i < |subs| {
        incs := incs[subs[i] := incs[subs[i]].(quit := true)];
        subs := subs[..i] + subs[i + 1..];
      }
    }

    method UnsubscribeName(name: string)
      requires Valid() && !dispatcher.Fanning?
      modifies this
      ensures Valid() && Abs() == Step(old(Abs()), Unsubscribe(name))
    {
      WithoutKeepsInv(Abs(), name);
      RemoveName(name);
    }

    // A name that is already registered is replaced.
    method SubscribeName(name: string)
      requires Valid() && !dispatcher.Fanning?
      modifies this
      ensures Valid() && Abs() == Step(old(Abs()), Subscribe(name))
    {
      if stopped {
        return;
      }
      WithoutKeepsInv(Abs(), name);
      RemoveName(name);
      AddName(name);
    }

    method AddName(name: string)
      requires Valid() && !dispatcher.Fanning?
      requires forall i :: 0 <= i < |subs| ==> subs[i] in incs && incs[subs[i]].name != name
      modifies this
      ensures Valid() && NextOffer(old(Abs())) >= 0 && Abs() == WithNew(old(Abs()), name)
    {
      WithNewKeepsInv(Abs(), name);
      var since := if dispatcher.Took? then taken - 1 else taken;
      incs := incs[next := Subscriber(name, [], [], false, false, false, since, [])];
      subs := subs + [next];
      next := next + 1;
    }

    // The non-blocking send to the subscriber whose turn it is.
    method OfferNext()
      requires CanOffer(Abs())
      modifies this
      ensures Abs() == OfferOne(old(Abs()))
    {
      var k := subs[dispatcher.pos];
      incs := incs[k := Offered(incs[k], dispatcher.e)];
      dispatcher := dispatcher.(pos := dispatcher.pos + 1);
    }

    // One offer to every registered subscriber, in order.
    method OfferAll(ghost locked: State)
      requires Abs() == locked && AllKnown(locked)
      requires dispatcher.Fanning? && dispatcher.pos == 0
      modifies this
      ensures Abs() == Offers(locked, |old(subs)|)
    {
      for i := 0 to |subs|
        invariant subs == locked.subs
        invariant Abs() == Offers(locked, i)
      {
        OffersReady(locked, i);
        OfferNext();
        OffersReady(locked, i + 1);
      }
    }

    // The body of the dispatch loop for one event, with no worker in between.
    method FanOut()
      requires Valid() && dispatcher.Took?
      modifies this
      ensures Valid()
      ensures Abs() == Step(Offers(Step(old(Abs()), DispatchLock), |old(subs)|), DispatchUnlock)
    {
      FanOutKeepsInv(Abs());
      LockOfferUnlock();
    }

    method LockOfferUnlock()
      requires AllKnown(Abs()) && dispatcher.Took?
      modifies this
      ensures Abs() == Step(Offers(Step(old(Abs()), DispatchLock), |old(subs)|), DispatchUnlock)
    {
      dispatcher := Fanning(dispatcher.e, 0);
      ghost var locked := Abs();
      OffersReady(locked, |subs|);
      OfferAll(locked);
      dispatcher := Waiting;
    }
  }

  ghost predicate AllKnown(s: State) {
    forall i :: 0 <= i < |s.subs| ==> s.subs[i] in s.incs.Keys
  }

  lemma OfferShape(s: State)
    requires CanOffer(s)
    ensures var t := OfferOne(s);
      t.subs == s.subs && t.incs.Keys == s.incs.Keys && t.dispatcher == s.dispatcher.(pos := s.dispatcher.pos + 1)
  {
  }

  lemma {:induction false} OffersReady(s: State, n: nat)
    requires s.dispatcher.Fanning? && s.dispatcher.pos == 0 && AllKnown(s) && n <= |s.subs|
    ensures var t := Offers(s, n);
      && t.subs == s.subs && t.incs.Keys == s.incs.Keys && t.dispatcher == s.dispatcher.(pos := n)
      && (n < |s.subs| ==> CanOffer(t))
  {
    if n > 0 {
      OffersReady(s, n - 1);
      OfferShape(Offers(s, n - 1));
    }
  }

  ghost predicate MidFan(t: State, pos: nat, subs: seq<nat>, e: nat) {
    Inv(t) && t.subs == subs && t.dispatcher == Fanning(e, pos)
  }

  // One more offer in the middle of a fan-out.
  lemma {:induction false} OfferInTurn(t: State, subs: seq<nat>, e: nat, pos: nat)
    requires MidFan(t, pos, subs, e) && pos < |subs|
    ensures MidFan(OfferOne(t), pos + 1, subs, e)
  {
    assert t.subs[pos] in t.incs;
    OfferKeepsInv(t);
  }

  lemma {:induction false} OffersKeepInv(s: State, n: nat)
    requires Inv(s) && s.dispatcher.Fanning? && s.dispatcher.pos == 0 && n <= |s.subs|
    ensures Inv(Offers(s, n)) && Offers(s, n).subs == s.subs && Offers(s, n).dispatcher == Fanning(s.dispatcher.e, n)
  {
    var subs, e := s.subs, s.dispatcher.e;
    forall t: State, i: nat | i < n && MidFan(t, i, subs, e) ensures MidFan(OfferOne(t), i + 1, subs, e) {
      OfferInTurn(t, subs, e, i);
    }
    TimesKeeps(OfferOne, s, n, (t: State, i: nat) => MidFan(t, i, subs, e));
    assert MidFan(Offers(s, n), n, subs, e);
  }

  lemma {:induction false} FanOutKeepsInv(s: State)
    requires Inv(s) && s.dispatcher.Took?
    ensures AllKnown(s)
    ensures Inv(Step(Offers(Step(s, DispatchLock), |s.subs|), DispatchUnlock))
  {
    var locked := Step(s, DispatchLock);
    StepKeepsInv(s, DispatchLock);
    OffersKeepInv(locked, |s.subs|);
    StepKeepsInv(Offers(locked, |s.subs|), DispatchUnlock);
  }

  // -----------------------------------------------------------------------
  // What every run guarantees
  // -----------------------------------------------------------------------

  lemma {:induction false} IncreasingAppend(xs: seq<nat>, y: nat)
    requires StrictlyIncreasing(xs) && forall x :: x in xs ==> x < y
    ensures StrictlyIncreasing(xs + [y])
  {
    forall i | 0 <= i < |xs| ensures xs[i] < y {
      assert xs[i] in xs;
    }
  }

  lemma {:induction false} AcceptedMember(since: nat, offers: seq<nat>, x: nat)
    ensures x in Accepted(since, offers) <==> since <= x < since + |offers| && offers[x - since] < QUEUE_SIZE
  {
    if offers != [] {
      var n := |offers| - 1;
      AcceptedMember(since, offers[..n], x);
      assert since <= x < since + n ==> offers[..n][x - since] == offers[x - since];
    }
  }

  lemma {:induction false} AcceptedIncreases(since: nat, offers: seq<nat>)
    ensures StrictlyIncreasing(Accepted(since, offers))
    ensures forall x :: x in Accepted(since, offers) ==> x < since + |offers|
  {
    if offers != [] {
      var n := |offers| - 1;
      AcceptedIncreases(since, offers[..n]);
      IncreasingAppend(Accepted(since, offers[..n]), since + n);
    }
  }

  // The accepted events are in publication order, without repeats, and are
  // exactly the offers that found room.
  lemma {:induction false} AcceptedIsOrdered(since: nat, offers: seq<nat>)
    ensures StrictlyIncreasing(Accepted(since, offers))
    ensures forall x :: x in Accepted(since, offers) <==>
      since <= x < since + |offers| && offers[x - since] < QUEUE_SIZE
  {
    AcceptedIncreases(since, offers);
    forall x: nat
      ensures x in Accepted(since, offers) <==> since <= x < since + |offers| && offers[x - since] < QUEUE_SIZE
    {
      AcceptedMember(since, offers, x);
    }
  }

  // A subscriber's events: in publication order without repeats, and exactly
  // those from since on that found room.
  ghost predicate Delivered(sub: Subscriber) {
    var seen := sub.handled + sub.queue;
    && StrictlyIncreasing(seen)
    && (forall x :: x in seen <==> sub.since <= x < UpTo(sub) && sub.offers[x - sub.since] < 64)
  }

  lemma {:induction false} SubscriberDelivered(sub: Subscriber)
    requires SubscriberInv(sub)
    ensures Delivered(sub)
  {
    AcceptedIsOrdered(sub.since, sub.offers);
  }

  /** In every run: what a subscriber incarnation has handled, followed by its
      queue, is in publication order without repeats; it consists of exactly
      the events dispatched since it subscribed that found fewer than 64 waiting;
      and queues and main buffer stay within their sizes. */
  lemma {:induction false} DeliveryInOrder(bufSize: int, ops: seq<Op>, k: nat)
    requires k in Run(bufSize, ops).incs
    ensures
      var s := Run(bufSize, ops);
      var sub := s.incs[k];
      && Delivered(sub)
      && UpTo(sub) <= s.taken <= |s.published|
      && |sub.queue| <= 64 && |s.ch| <= s.size
  {
    RunKeepsInv(bufSize, ops);
    SubscriberDelivered(Run(bufSize, ops).incs[k]);
  }

  lemma {:induction false} StandingMissNothing(s: State, i: nat, x: nat)
    requires Inv(s) && s.dispatcher.Waiting? && i < |s.subs|
    requires s.subs[i] in s.incs && s.incs[s.subs[i]].since <= x < s.taken
    ensures var sub := s.incs[s.subs[i]];
      x - sub.since < |sub.offers| && (x in sub.handled + sub.queue <==> sub.offers[x - sub.since] < 64)
  {
    assert UpTo(s.incs[s.subs[i]]) == Expected(s, i);
    SubscriberDelivered(s.incs[s.subs[i]]);
  }

  /** A registered subscriber has been offered every event fanned out since it
      subscribed: it misses one only by having 64 undelivered before it. */
  lemma {:induction false} RegisteredMissNothing(bufSize: int, ops: seq<Op>, i: nat, x: nat)
    requires i < |Run(bufSize, ops).subs| && Run(bufSize, ops).subs[i] in Run(bufSize, ops).incs
    requires Run(bufSize, ops).dispatcher.Waiting?
    requires var s := Run(bufSize, ops); s.incs[s.subs[i]].since <= x < s.taken
    ensures
      var s := Run(bufSize, ops);
      var sub := s.incs[s.subs[i]];
      x - sub.since < |sub.offers| && (x in sub.handled + sub.queue <==> sub.offers[x - sub.since] < 64)
  {
    RunKeepsInv(bufSize, ops);
    StandingMissNothing(Run(bufSize, ops), i, x);
  }

  lemma {:induction false} NamesStayDistinct(bufSize: int, ops: seq<Op>, i: nat, j: nat)
    requires i < j < |Run(bufSize, ops).subs|
    ensures var s := Run(bufSize, ops);
      && s.subs[i] in s.incs && s.subs[j] in s.incs
      && s.incs[s.subs[i]].name != s.incs[s.subs[j]].name
  {
    RunKeepsInv(bufSize, ops);
    var s := Run(bufSize, ops);
    assert s.subs[i] in s.incs && s.subs[j] in s.incs;
  }

  // -----------------------------------------------------------------------
  // What the calls do to the registry and the buffer
  // -----------------------------------------------------------------------

  ghost predicate Named(incs: map<nat, Subscriber>, k: nat, name: string) {
    k in incs && incs[k].name == name
  }

  ghost function NamesOf(s: State): set<string> {
    set k | k in s.subs && k in s.incs :: s.incs[k].name
  }

  // The registered incarnations with another name, in place.
  ghost function Others(subs: seq<nat>, incs: map<nat, Subscriber>, name: string): seq<nat> {
    if subs == [] then []
    else
      var n := |subs| - 1;
      Others(subs[..n], incs, name) + (if Named(incs, subs[n], name) then [] else [subs[n]])
  }

  lemma {:induction false} OthersAll(subs: seq<nat>, incs: map<nat, Subscriber>, name: string)
    requires forall i :: 0 <= i < |subs| ==> !Named(incs, subs[i], name)
    ensures Others(subs, incs, name) == subs
  {
    if subs != [] {
      OthersAll(subs[..|subs| - 1], incs, name);
    }
  }

  // One of them has the name: it alone is left out.
  lemma {:induction false} OthersWithout(subs: seq<nat>, incs: map<nat, Subscriber>, name: string, i: nat)
    requires i < |subs| && Named(incs, subs[i], name)
    requires forall j :: 0 <= j < |subs| && j != i ==> !Named(incs, subs[j], name)
    ensures Others(subs, incs, name) == subs[..i] + subs[i + 1..]
  {
    var n := |subs| - 1;
    if i == n {
      OthersAll(subs[..n], incs, name);
    } else {
      OthersWithout(subs[..n], incs, name, i);
      assert subs[i + 1..] == subs[..n][i + 1..] + [subs[n]];
    }
  }

  // The events fanned out so far: those neither in the buffer nor just taken.
  ghost function FannedOut(s: State): int {
    |s.published| - |s.ch| - (if s.dispatcher.Took? then 1 else 0)
  }

  // Only the one with the name is told to quit.
  ghost predicate ToldToQuit(subs: seq<nat>, incs: map<nat, Subscriber>, incs': map<nat, Subscriber>, name: string) {
    forall k :: k in incs ==>
      k in incs' && incs'[k] == if k in subs && incs[k].name == name then incs[k].(quit := true) else incs[k]
  }

  ghost predicate AllIn(subs: seq<nat>, incs: map<nat, Subscriber>) {
    forall i :: 0 <= i < |subs| ==> subs[i] in incs
  }

  lemma {:induction false} FoundAlone(subs: seq<nat>, incs: map<nat, Subscriber>, name: string)
    requires AllIn(subs, incs) && NamesInv(subs, incs)
    ensures var i := FindName(subs, incs, name);
      forall j :: 0 <= j < |subs| && j != i ==> !Named(incs, subs[j], name)
  {
  }

  lemma {:induction false} OthersAreKept(subs: seq<nat>, incs: map<nat, Subscriber>, name: string)
    requires AllIn(subs, incs) && NamesInv(subs, incs)
    ensures var i := FindName(subs, incs, name);
      Others(subs, incs, name) == if i == |subs| then subs else subs[..i] + subs[i + 1..]
  {
    var i := FindName(subs, incs, name);
    FoundAlone(subs, incs, name);
    if i == |subs| {
      OthersAll(subs, incs, name);
    } else {
      OthersWithout(subs, incs, name, i);
    }
  }

  lemma {:induction false} FoundQuits(subs: seq<nat>, incs: map<nat, Subscriber>, name: string)
    requires AllIn(subs, incs) && NamesInv(subs, incs)
    ensures var i := FindName(subs, incs, name);
      ToldToQuit(subs, incs, if i == |subs| then incs else incs[subs[i] := incs[subs[i]].(quit := true)], name)
  {
    var i := FindName(subs, incs, name);
    FoundAlone(subs, incs, name);
    forall k | k in incs && k in subs && incs[k].name == name ensures i < |subs| && k == subs[i] {
      var j :| 0 <= j < |subs| && subs[j] == k;
      assert Named(incs, subs[j], name);
    }
  }

  // Without the name, and otherwise as before.
  ghost predicate Removed(s: State, t: State, name: string) {
    && t == s.(subs := Others(s.subs, s.incs, name), incs := t.incs)
    && t.incs.Keys == s.incs.Keys && ToldToQuit(s.subs, s.incs, t.incs, name)
  }

  lemma {:induction false} WithoutRemoves(s: State, name: string)
    requires AllIn(s.subs, s.incs) && NamesInv(s.subs, s.incs)
    ensures Removed(s, Without(s, name), name)
  {
    OthersAreKept(s.subs, s.incs, name);
    FoundQuits(s.subs, s.incs, name);
    var i := FindName(s.subs, s.incs, name);
    assert i < |s.subs| ==> s.incs[s.subs[i] := s.incs[s.subs[i]].(quit := true)].Keys == s.incs.Keys;
  }

  /** Unsubscribe takes out the entry of the name, and no other, and tells it to
      quit; what is queued and offered stays as it is. */
  lemma {:induction false} UnsubscribeOutcome(s: State, name: string)
    requires Inv(s) && !s.dispatcher.Fanning?
    ensures Removed(s, Step(s, Unsubscribe(name)), name)
  {
    SubsApart(s);
    assert Step(s, Unsubscribe(name)) == Without(s, name);
    WithoutRemoves(s, name);
  }

  lemma SubsApart(s: State)
    requires RegistryInv(s)
    ensures AllIn(s.subs, s.incs) && NamesInv(s.subs, s.incs)
  {
  }

  // The name at the end, as a fresh incarnation.
  ghost predicate Registered(s: State, t: State, name: string) {
    && FannedOut(s) >= 0 && s.next !in s.incs
    && t == s.(subs := Others(s.subs, s.incs, name) + [s.next], incs := t.incs, next := s.next + 1)
    && t.incs.Keys == s.incs.Keys + {s.next} && ToldToQuit(s.subs, s.incs, t.incs, name)
    && t.incs[s.next] == Subscriber(name, [], [], false, false, false, FannedOut(s), [])
  }

  lemma {:induction false} WithNewRegisters(s: State, mid: State, name: string)
    requires Inv(s) && NextOffer(s) >= 0
    requires Removed(s, mid, name)
    ensures Registered(s, WithNew(mid, name), name)
  {
    assert s.next !in s.incs;
  }

  /** Subscribe registers the name at the end, as a fresh incarnation with an
      empty queue that starts at the next event to be fanned out; an entry the
      name had is taken out and told to quit, all others keep place, queue and
      offers. After Stop nothing happens. */
  lemma {:induction false} SubscribeOutcome(s: State, name: string)
    requires Inv(s) && !s.dispatcher.Fanning?
    ensures var t := Step(s, Subscribe(name));
      if s.stopped then t == s else Registered(s, t, name) && NamesOf(t) == NamesOf(s) + {name}
  {
    if !s.stopped {
      SubsApart(s);
      WithoutRemoves(s, name);
      WithNewRegisters(s, Without(s, name), name);
      NamesAfter(s, Step(s, Subscribe(name)), name);
    }
  }

  lemma {:induction false} OthersMembers(subs: seq<nat>, incs: map<nat, Subscriber>, name: string, k: nat)
    ensures k in Others(subs, incs, name) <==> k in subs && !Named(incs, k, name)
  {
    if subs != [] {
      var n := |subs| - 1;
      OthersMembers(subs[..n], incs, name, k);
      assert subs == subs[..n] + [subs[n]];
    }
  }

  lemma {:induction false} NamesAfter(s: State, t: State, name: string)
    requires Registered(s, t, name)
    ensures NamesOf(t) == NamesOf(s) + {name}
  {
    forall x ensures x in NamesOf(t) <==> x in NamesOf(s) + {name} {
      if x in NamesOf(t) {
        var k :| k in t.subs && k in t.incs && t.incs[k].name == x;
        OthersMembers(s.subs, s.incs, name, k);
      }
      if x in NamesOf(s) && x != name {
        var k :| k in s.subs && k in s.incs && s.incs[k].name == x;
        OthersMembers(s.subs, s.incs, name, k);
        assert k in t.subs && k in t.incs && t.incs[k].name == x;
      }
      assert s.next in t.subs && s.next in t.incs;
    }
  }

  /** An event is accepted exactly when the buffer has room, and then comes
      last in it; nothing else changes either way. */
  lemma PublishOutcome(s: State, event: Event)
    requires Inv(s)
    ensures var t := Step(s, Publish(event));
      if |s.ch| == s.size then t == s
      else t == s.(published := s.published + [event], ch := s.ch + [s.taken + |s.ch|])
  {
  }

  // -----------------------------------------------------------------------
  // A fan-out reaches every registered subscriber
  // -----------------------------------------------------------------------

  // The first n have been offered the event, nobody else anything.
  ghost function OfferedTo(subs: seq<nat>, incs: map<nat, Subscriber>, n: nat, e: nat): map<nat, Subscriber>
    requires n <= |subs|
  {
    map k | k in incs :: if k in subs[..n] then Offered(incs[k], e) else incs[k]
  }

  lemma {:induction false} OfferedNext(subs: seq<nat>, incs: map<nat, Subscriber>, n: nat, e: nat)
    requires n < |subs| && AllIn(subs, incs) && NamesInv(subs, incs)
    ensures var mid := OfferedTo(subs, incs, n, e);
      OfferedTo(subs, incs, n + 1, e) == mid[subs[n] := Offered(mid[subs[n]], e)]
  {
    assert subs[..n + 1] == subs[..n] + [subs[n]];
    assert subs[n] !in subs[..n];
  }

  // In the middle of the fan-out that started in s.
  ghost predicate Reached(s: State, t: State, n: nat, e: nat) {
    n <= |s.subs| && t == s.(incs := OfferedTo(s.subs, s.incs, n, e), dispatcher := Fanning(e, n))
  }

  lemma {:induction false} ReachedNext(s: State, t: State, n: nat, e: nat)
    requires AllIn(s.subs, s.incs) && NamesInv(s.subs, s.incs) && n < |s.subs| && Reached(s, t, n, e)
    ensures Reached(s, OfferOne(t), n + 1, e)
  {
    assert s.subs[n] in t.incs;
    OfferedNext(s.subs, s.incs, n, e);
  }

  lemma {:induction false} OffersReach(s: State, n: nat)
    requires AllIn(s.subs, s.incs) && NamesInv(s.subs, s.incs) && s.dispatcher.Fanning? && s.dispatcher.pos == 0
    requires n <= |s.subs|
    ensures Reached(s, Offers(s, n), n, s.dispatcher.e)
  {
    var e := s.dispatcher.e;
    forall t: State, i: nat | i < n && Reached(s, t, i, e) ensures Reached(s, OfferOne(t), i + 1, e) {
      ReachedNext(s, t, i, e);
    }
    assert OfferedTo(s.subs, s.incs, 0, e) == s.incs;
    TimesKeeps(OfferOne, s, n, (t: State, i: nat) => Reached(s, t, i, e));
  }

  // One event taken off the buffer and fanned out, with no worker in between.
  function Dispatched(s: State): State {
    var locked := Step(Step(s, DispatchTake), DispatchLock);
    Step(Offers(locked, |s.subs|), DispatchUnlock)
  }

  /** The oldest event in the buffer reaches every registered subscriber that
      has room for it, and only those; the others drop it. */
  lemma {:induction false} DispatchReachesAll(s: State)
    requires Inv(s) && s.dispatcher.Waiting? && s.ch != []
    ensures var t := Dispatched(s);
      && t == s.(ch := s.ch[1..], taken := s.taken + 1, incs := t.incs) && t.incs.Keys == s.incs.Keys
      && (forall k :: k in s.subs ==> k in s.incs && t.incs[k] == Offered(s.incs[k], s.ch[0]))
      && (forall k :: k in s.incs && k !in s.subs ==> t.incs[k] == s.incs[k])
  {
    assert AllIn(s.subs, s.incs);
    var locked := Step(Step(s, DispatchTake), DispatchLock);
    OffersReach(locked, |s.subs|);
    assert s.subs[..|s.subs|] == s.subs;
    forall k | k in s.subs ensures k in s.incs {
      var i :| 0 <= i < |s.subs| && s.subs[i] == k;
    }
  }

  /** Subscribing is worth it: in any run that is not stopped and has emptied its
      buffer, a subscriber that registers now has the next published event in
      its queue as soon as it is dispatched. */
  lemma {:induction false} SubscriberGetsNextEvent(bufSize: int, ops: seq<Op>, name: string, event: Event)
    requires var s := Run(bufSize, ops); s.dispatcher.Waiting? && s.ch == [] && !s.stopped
    ensures var s := Run(bufSize, ops);
      var t := Dispatched(Step(Step(s, Subscribe(name)), Publish(event)));
      && t.published == s.published + [event]
      && s.next in t.subs && s.next in t.incs && t.incs[s.next].name == name
      && t.incs[s.next].queue == [|s.published|]
  {
    var s := Run(bufSize, ops);
    RunKeepsInv(bufSize, ops);
    SizeIsPositive(bufSize, ops);
    JoinedAndSent(s, name, event);
    DispatchReachesAll(Step(Step(s, Subscribe(name)), Publish(event)));
  }

  // The new subscriber is registered with nothing queued, the event alone in
  // the buffer.
  lemma {:induction false} JoinedAndSent(s: State, name: string, event: Event)
    requires Inv(s) && s.dispatcher.Waiting? && s.ch == [] && !s.stopped && s.size > 0
    ensures var t := Step(Step(s, Subscribe(name)), Publish(event));
      && Inv(t) && t.dispatcher.Waiting? && t.ch == [|s.published|] && t.published == s.published + [event]
      && s.next in t.subs && s.next in t.incs
      && t.incs[s.next] == Subscriber(name, [], [], false, false, false, |s.published|, [])
  {
    var joined := Step(s, Subscribe(name));
    StepKeepsInv(s, Subscribe(name));
    SubscribeOutcome(s, name);
    StepKeepsInv(joined, Publish(event));
    PublishOutcome(joined, event);
    assert joined.subs[|joined.subs| - 1] == s.next;
  }

  lemma {:induction false} SizeIsPositive(bufSize: int, ops: seq<Op>)
    ensures Run(bufSize, ops).size == (if bufSize <= 0 then 256 else bufSize)
  {
    if ops != [] {
      SizeIsPositive(bufSize, ops[..|ops| - 1]);
    }
  }

  /** After Stop nobody is registered any more, whatever else goes on. */
  lemma {:induction false} StopIsFinal(s: State, more: seq<Op>)
    requires !s.dispatcher.Fanning?
    ensures var t := After(Step(s, StopMark), more); t.stopped && t.next == s.next
    decreases |more|
  {
    if more != [] {
      StopIsFinal(s, more[..|more| - 1]);
    }
  }

  function After(s: State, more: seq<Op>): State {
    if more == [] then s else Step(After(s, more[..|more| - 1]), more[|more| - 1])
  }

  // A worker that handles n events, one after the other.
  function Worked(s: State, k: nat, n: nat): State {
    if n == 0 then s else Step(Step(Worked(s, k, n - 1), WorkerTake(k)), WorkerDone(k))
  }

  /** A worker left alone handles its queue in order, oldest first, and changes
      nothing else. */
  lemma {:induction false} WorkerDrains(s: State, k: nat, n: nat)
    requires k in s.incs && !s.incs[k].exited && !s.incs[k].busy && n <= |s.incs[k].queue|
    ensures var sub := s.incs[k];
      Worked(s, k, n) == s.(incs := s.incs[k := sub.(handled := sub.handled + sub.queue[..n], queue := sub.queue[n..])])
  {
    if n == 0 {
      OneUnchanged(s, k);
    } else {
      WorkerDrains(s, k, n - 1);
      OneHandled(s.incs[k].handled, s.incs[k].queue, n);
      WorkOne(Worked(s, k, n - 1), k);
    }
  }

  lemma WorkOne(s: State, k: nat)
    requires k in s.incs && !s.incs[k].exited && !s.incs[k].busy && s.incs[k].queue != []
    ensures var sub := s.incs[k];
      Step(Step(s, WorkerTake(k)), WorkerDone(k))
        == s.(incs := s.incs[k := sub.(handled := sub.handled + [sub.queue[0]], queue := sub.queue[1..])])
  {
  }

  lemma OneUnchanged(s: State, k: nat)
    requires k in s.incs
    ensures var sub := s.incs[k];
      s.(incs := s.incs[k := sub.(handled := sub.handled + sub.queue[..0], queue := sub.queue[0..])]) == s
  {
    var sub := s.incs[k];
    assert sub.handled + sub.queue[..0] == sub.handled && sub.queue[0..] == sub.queue;
    assert s.incs[k := sub] == s.incs;
  }

  lemma OneHandled(handled: seq<nat>, queue: seq<nat>, n: nat)
    requires 0 < n <= |queue|
    ensures queue[n - 1..] != [] && queue[n - 1..][1..] == queue[n..]
    ensures handled + queue[..n - 1] + [queue[n - 1..][0]] == handled + queue[..n]
  {
    assert queue[..n] == queue[..n - 1] + [queue[n - 1]];
  }
}
