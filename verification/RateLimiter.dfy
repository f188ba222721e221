/** The notification rate limiter (internal/eventbus/filter.go), with its sweep
    of expired entries, against a limiter that never forgets.

    Times are nanoseconds since Go's zero time, which is also what a missing
    map entry reads as; differences saturate at the int64 range as
    time.Time.Sub does. The clock is a parameter of every call. */
module RateLimiter {
  import opened Int64
  import opened Text

  // time.Time.Sub.
  function Sub(a: int, b: int): (d: int)
    ensures IsInt64(d)
  {
    if a - b > MAX_INT64 then MAX_INT64
    else if a - b < MIN_INT64 then MIN_INT64
    else a - b
  }

  function LastSent(m: map<string, int>, key: string): int {
    if key in m then m[key] else 0
  }

  function Key(eventType: string, source: string): string {
    eventType + ":" + source
  }

  // Event types contain no colon, so a key names one type and source.
  lemma KeyInjective(t1: string, s1: string, t2: string, s2: string)
    requires ':' !in t1 && ':' !in t2
    ensures Key(t1, s1) == Key(t2, s2) <==> t1 == t2 && s1 == s2
  {
    assert Key(t1, s1) == t1 + [':'] + s1 && Key(t2, s2) == t2 + [':'] + s2;
    CutJoined(t1, ':', s1);
    CutJoined(t2, ':', s2);
  }

  // -----------------------------------------------------------------------
  // The two limiters
  // -----------------------------------------------------------------------

  datatype Limiter = Limiter(lastSent: map<string, int>, lastPrune: int)

  function Prune(l: Limiter, cooldown: int, now: int): Limiter {
    if Sub(now, l.lastPrune) < cooldown then l
    else Limiter(map k | k in l.lastSent && Sub(now, l.lastSent[k]) < cooldown :: l.lastSent[k], now)
  }

  function AllowSpec(l: Limiter, cooldown: int, key: string, now: int): (bool, Limiter) {
    var p := Prune(l, cooldown, now);
    if Sub(now, LastSent(p.lastSent, key)) < cooldown then (false, p)
    else (true, p.(lastSent := p.lastSent[key := now]))
  }

  // The limiter that never prunes.
  function AllowRef(m: map<string, int>, cooldown: int, key: string, now: int): (bool, map<string, int>) {
    if Sub(now, LastSent(m, key)) < cooldown then (false, m) else (true, m[key := now])
  }

  class RateLimiter {
    var lastSent: map<string, int>
    const cooldown: int
    var lastPrune: int

    ghost function Abs(): Limiter
      reads this
    {
      Limiter(lastSent, lastPrune)
    }

    constructor (cooldown: int)
      ensures Abs() == Limiter(map[], 0) && this.cooldown == cooldown
    {
      lastSent, this.cooldown, lastPrune := map[], cooldown, 0;
    }

    method PruneLocked(now: int)
      modifies this
      ensures Abs() == Prune(old(Abs()), cooldown, now)
      ensures lastPrune == now && Sub(now, old(lastPrune)) >= cooldown ==>
        forall k :: k in lastSent ==> Sub(now, lastSent[k]) < cooldown
    {
      if Sub(now, lastPrune) < cooldown {
        return;
      }
      lastPrune := now;
      var pending := lastSent.Keys;
      while pending != {}
        invariant pending <= lastSent.Keys <= old(lastSent).Keys
        invariant lastPrune == now
        invariant lastSent ==
          map k | k in old(lastSent) && (k in pending || Sub(now, old(lastSent)[k]) < cooldown) :: old(lastSent)[k]
        decreases pending
      {
        var k :| k in pending;
        if Sub(now, lastSent[k]) >= cooldown {
          lastSent := lastSent - {k};
        }
        pending := pending - {k};
      }
    }

    method Allow(eventType: string, source: string, now: int) returns (ok: bool)
      modifies this
      ensures (ok, Abs()) == AllowSpec(old(Abs()), cooldown, Key(eventType, source), now)
    {
      var key := Key(eventType, source);
      PruneLocked(now);
      if Sub(now, LastSent(lastSent, key)) < cooldown {
        return false;
      }
      lastSent := lastSent[key := now];
      return true;
    }
  }

  // -----------------------------------------------------------------------
  // Runs of the two limiters
  // -----------------------------------------------------------------------

  datatype Call = Call(key: string, now: int)

  // No clock reads earlier than Go's zero time.
  ghost predicate AfterZero(calls: seq<Call>) {
    forall i :: 0 <= i < |calls| ==> 0 <= calls[i].now
  }

  // Callers read the clock before they take the lock, so this is not given.
  ghost predicate ForwardClock(calls: seq<Call>) {
    AfterZero(calls) && forall i, j :: 0 <= i < j < |calls| ==> calls[i].now <= calls[j].now
  }

  ghost function RunPruning(calls: seq<Call>, cooldown: int): Limiter {
    if calls == [] then Limiter(map[], 0)
    else
      var n := |calls| - 1;
      AllowSpec(RunPruning(calls[..n], cooldown), cooldown, calls[n].key, calls[n].now).1
  }

  ghost function RunRef(calls: seq<Call>, cooldown: int): map<string, int> {
    if calls == [] then map[]
    else
      var n := |calls| - 1;
      AllowRef(RunRef(calls[..n], cooldown), cooldown, calls[n].key, calls[n].now).1
  }

  ghost predicate Answer(calls: seq<Call>, cooldown: int, i: nat)
    requires i < |calls|
  {
    AllowSpec(RunPruning(calls[..i], cooldown), cooldown, calls[i].key, calls[i].now).0
  }

  ghost predicate RefAnswer(calls: seq<Call>, cooldown: int, i: nat)
    requires i < |calls|
  {
    AllowRef(RunRef(calls[..i], cooldown), cooldown, calls[i].key, calls[i].now).0
  }

  lemma PrefixSteps(calls: seq<Call>, n: nat)
    requires n < |calls|
    ensures calls[..n + 1][..n] == calls[..n] && calls[..n + 1][n] == calls[n]
  {
  }

  // -----------------------------------------------------------------------
  // What a sweep has dropped
  // -----------------------------------------------------------------------

  // When the last sweep was; the clock readings alone decide it.
  ghost function SweepTime(calls: seq<Call>, cooldown: int): int {
    if calls == [] then 0
    else
      var n := |calls| - 1;
      var last := SweepTime(calls[..n], cooldown);
      if Sub(calls[n].now, last) < cooldown then last else calls[n].now
  }

  // The keys the reference remembers past their cooldown, judged by `now`.
  ghost function Expired(m: map<string, int>, cooldown: int, now: int): set<string> {
    set k | k in m && Sub(now, m[k]) >= cooldown
  }

  // Keys the reference remembers and sweeps have dropped. A sweep drops what
  // has expired by the reading of the call that makes it; an allowed call
  // brings its key back.
  ghost function Forgotten(calls: seq<Call>, cooldown: int): set<string> {
    if calls == [] then {}
    else
      var n := |calls| - 1;
      var before, m := calls[..n], RunRef(calls[..n], cooldown);
      var swept :=
        if Sub(calls[n].now, SweepTime(before, cooldown)) < cooldown then Forgotten(before, cooldown)
        else Forgotten(before, cooldown) + Expired(m, cooldown, calls[n].now);
      if RefAnswer(calls, cooldown, n) then swept - {calls[n].key} else swept
  }

  /** Call i's key is still inside its cooldown, but a sweep made with a later
      reading has dropped it, and the zero time it then reads as is long past.
      Only the readings and the reference decide this. */
  ghost predicate SweptEarly(calls: seq<Call>, cooldown: int, i: nat)
    requires i < |calls|
  {
    var key, now, m := calls[i].key, calls[i].now, RunRef(calls[..i], cooldown);
    && key in m && Sub(now, m[key]) < cooldown
    && key in Forgotten(calls[..i], cooldown)
    && Sub(now, 0) >= cooldown
  }

  ghost predicate NeverSweptEarly(calls: seq<Call>, cooldown: int, n: nat)
    requires n <= |calls|
  {
    forall i :: 0 <= i < n ==> !SweptEarly(calls, cooldown, i)
  }

  // The pruning limiter holds the reference's entries but the forgotten.
  ghost predicate Tracks(l: Limiter, m: map<string, int>, gone: set<string>, last: int) {
    l == Limiter(m - gone, last)
  }

  lemma {:induction false} AllowTracks(l: Limiter, m: map<string, int>, gone: set<string>,
                                       cooldown: int, key: string, now: int)
    requires Tracks(l, m, gone, l.lastPrune)
    requires forall k :: k in m ==> 0 <= m[k]
    ensures AllowSpec(l, cooldown, key, now).0 == AllowRef(m, cooldown, key, now).0
       <==> !(key in m && Sub(now, m[key]) < cooldown && key in gone && Sub(now, 0) >= cooldown)
    ensures AllowSpec(l, cooldown, key, now).0 == AllowRef(m, cooldown, key, now).0 ==>
      var due := Sub(now, l.lastPrune) >= cooldown;
      var swept := if due then gone + Expired(m, cooldown, now) else gone;
      Tracks(AllowSpec(l, cooldown, key, now).1, AllowRef(m, cooldown, key, now).1,
             if AllowRef(m, cooldown, key, now).0 then swept - {key} else swept,
             if due then now else l.lastPrune)
  {
    var p := Prune(l, cooldown, now);
    var swept := if Sub(now, l.lastPrune) >= cooldown then gone + Expired(m, cooldown, now) else gone;
    assert p.lastSent == m - swept;
    if key in m {
      assert Sub(now, 0) >= Sub(now, m[key]);
    }
    if AllowSpec(l, cooldown, key, now).0 && AllowRef(m, cooldown, key, now).0 {
      assert p.lastSent[key := now] == m[key := now] - (swept - {key});
    }
  }

  lemma {:induction false} RefIsAfterZero(calls: seq<Call>, cooldown: int)
    requires AfterZero(calls)
    ensures forall k :: k in RunRef(calls, cooldown) ==> 0 <= RunRef(calls, cooldown)[k]
  {
    if calls != [] {
      RefIsAfterZero(calls[..|calls| - 1], cooldown);
    }
  }

  ghost predicate TracksAt(calls: seq<Call>, cooldown: int, n: nat)
    requires n <= |calls|
  {
    var done := calls[..n];
    Tracks(RunPruning(done, cooldown), RunRef(done, cooldown), Forgotten(done, cooldown), SweepTime(done, cooldown))
  }

  lemma {:induction false} TracksStep(calls: seq<Call>, cooldown: int, n: nat)
    requires AfterZero(calls) && n < |calls| && TracksAt(calls, cooldown, n)
    ensures Answer(calls, cooldown, n) == RefAnswer(calls, cooldown, n) <==> !SweptEarly(calls, cooldown, n)
    ensures !SweptEarly(calls, cooldown, n) ==> TracksAt(calls, cooldown, n + 1)
  {
    var done := calls[..n];
    PrefixSteps(calls, n);
    RefIsAfterZero(done, cooldown);
    AllowTracks(RunPruning(done, cooldown), RunRef(done, cooldown), Forgotten(done, cooldown), cooldown,
                calls[n].key, calls[n].now);
  }

  lemma TracksAtFirst(calls: seq<Call>, cooldown: int)
    ensures TracksAt(calls, cooldown, 0)
  {
    assert calls[..0] == [];
  }

  lemma {:induction false} TracksWhileNotSwept(calls: seq<Call>, cooldown: int, n: nat)
    requires AfterZero(calls) && n <= |calls| && NeverSweptEarly(calls, cooldown, n)
    ensures TracksAt(calls, cooldown, n)
    ensures forall i :: 0 <= i < n ==> Answer(calls, cooldown, i) == RefAnswer(calls, cooldown, i)
  {
    if n == 0 {
      TracksAtFirst(calls, cooldown);
    } else {
      TracksWhileNotSwept(calls, cooldown, n - 1);
      assert !SweptEarly(calls, cooldown, n - 1);
      TracksStep(calls, cooldown, n - 1);
    }
  }

  // The first early sweep among the first n calls.
  lemma {:induction false} FirstSwept(calls: seq<Call>, cooldown: int, n: nat) returns (i: nat)
    requires n <= |calls| && !NeverSweptEarly(calls, cooldown, n)
    ensures i < n && SweptEarly(calls, cooldown, i) && NeverSweptEarly(calls, cooldown, i)
  {
    if NeverSweptEarly(calls, cooldown, n - 1) {
      i := n - 1;
    } else {
      i := FirstSwept(calls, cooldown, n - 1);
    }
  }

  // -----------------------------------------------------------------------
  // Exactly when pruning is invisible
  // -----------------------------------------------------------------------

  ghost predicate SameAnswers(calls: seq<Call>, cooldown: int) {
    forall i :: 0 <= i < |calls| ==> Answer(calls, cooldown, i) == RefAnswer(calls, cooldown, i)
  }

  /** For every sequence of calls, clock readings in any order: the pruning
      limiter gives all the answers of one that never prunes if and only if no
      call's key was swept early. */
  lemma {:induction false} PruningInvisibleIff(calls: seq<Call>, cooldown: int)
    requires AfterZero(calls)
    ensures SameAnswers(calls, cooldown) <==> NeverSweptEarly(calls, cooldown, |calls|)
  {
    if NeverSweptEarly(calls, cooldown, |calls|) {
      TracksWhileNotSwept(calls, cooldown, |calls|);
    } else {
      var i := FirstSwept(calls, cooldown, |calls|);
      TracksWhileNotSwept(calls, cooldown, i);
      TracksStep(calls, cooldown, i);
    }
  }

  // Under a forward clock what a sweep dropped stays past its cooldown.
  lemma {:induction false} ForgottenStaysExpired(calls: seq<Call>, cooldown: int, now: int)
    requires ForwardClock(calls) && (calls != [] ==> calls[|calls| - 1].now <= now)
    ensures forall k :: k in Forgotten(calls, cooldown) ==>
      k in RunRef(calls, cooldown) && Sub(now, RunRef(calls, cooldown)[k]) >= cooldown
  {
    if calls != [] {
      var n := |calls| - 1;
      var m := RunRef(calls[..n], cooldown);
      ForgottenStaysExpired(calls[..n], cooldown, calls[n].now);
      forall k | k in Forgotten(calls, cooldown)
        ensures k in RunRef(calls, cooldown) && Sub(now, RunRef(calls, cooldown)[k]) >= cooldown
      {
        assert k in m && Sub(calls[n].now, m[k]) >= cooldown;
        assert Sub(now, m[k]) >= Sub(calls[n].now, m[k]);
      }
    }
  }

  lemma {:induction false} ForwardIsNeverSwept(calls: seq<Call>, cooldown: int)
    requires ForwardClock(calls)
    ensures NeverSweptEarly(calls, cooldown, |calls|)
  {
    forall i | 0 <= i < |calls| ensures !SweptEarly(calls, cooldown, i) {
      ForgottenStaysExpired(calls[..i], cooldown, calls[i].now);
    }
  }

  /** So under a clock that does not run backwards pruning changes no answer. */
  lemma PruningIsInvisible(calls: seq<Call>, cooldown: int, i: nat)
    requires ForwardClock(calls) && i < |calls|
    ensures Answer(calls, cooldown, i) == RefAnswer(calls, cooldown, i)
  {
    ForwardIsNeverSwept(calls, cooldown);
    PruningInvisibleIff(calls, cooldown);
  }

  // Two callers whose readings reach the lock out of order: the sweep of the
  // later reading lets through what the reference holds back, 9 after 100.
  lemma BackwardClockDiffers()
    ensures
      var calls := [Call("a", 100), Call("b", 110), Call("a", 109)];
      Answer(calls, 10, 0) && Answer(calls, 10, 2) && !RefAnswer(calls, 10, 2)
  {
    var calls := [Call("a", 100), Call("b", 110), Call("a", 109)];
    var one, two := calls[..1], calls[..2];
    assert calls[..0] == [] && one[..0] == [] && two[..1] == one && one[0] == calls[0] && two[1] == calls[1];
    assert RunRef(one[..0], 10) == map[] && RunPruning(one[..0], 10) == Limiter(map[], 0);
    assert RunRef(one, 10) == map["a" := 100];
    assert RunPruning(one, 10) == Limiter(map["a" := 100], 100);
    assert RunRef(two, 10) == map["a" := 100, "b" := 110];
    assert RunPruning(two, 10) == Limiter(map["b" := 110], 110);
  }

  // -----------------------------------------------------------------------
  // Allowed events are a cooldown apart
  // -----------------------------------------------------------------------

  // Calls i and j were both allowed, with one key.
  ghost predicate BothAllowed(calls: seq<Call>, cooldown: int, i: nat, j: nat)
    requires i < |calls| && j < |calls|
  {
    calls[i].key == calls[j].key && Answer(calls, cooldown, i) && Answer(calls, cooldown, j)
  }

  ghost predicate AllowedApart(calls: seq<Call>, cooldown: int) {
    forall i, j :: 0 <= i < j < |calls| && BothAllowed(calls, cooldown, i, j) ==>
      calls[j].now - calls[i].now >= cooldown
  }

  // The reference remembers a time at least as late as any allowed call.
  lemma {:induction false} RefRemembers(calls: seq<Call>, cooldown: int, i: nat, n: nat)
    requires 0 <= cooldown && i < n <= |calls| && RefAnswer(calls, cooldown, i)
    ensures calls[i].key in RunRef(calls[..n], cooldown)
    ensures calls[i].now <= RunRef(calls[..n], cooldown)[calls[i].key]
    decreases n
  {
    PrefixSteps(calls, n - 1);
    if i < n - 1 {
      RefRemembers(calls, cooldown, i, n - 1);
    }
  }

  // What the reference remembers is the time of some allowed call.
  lemma {:induction false} RefRecalls(calls: seq<Call>, cooldown: int, key: string, n: nat) returns (i: nat)
    requires n <= |calls| && key in RunRef(calls[..n], cooldown)
    ensures i < n && calls[i].key == key && RefAnswer(calls, cooldown, i)
    ensures calls[i].now == RunRef(calls[..n], cooldown)[key]
  {
    assert n > 0;
    PrefixSteps(calls, n - 1);
    if calls[n - 1].key == key && RefAnswer(calls, cooldown, n - 1) {
      i := n - 1;
    } else {
      i := RefRecalls(calls, cooldown, key, n - 1);
    }
  }

  /** The limiter's purpose has the same exact condition: two allowed events with
      one key are always at least the cooldown apart if and only if no call's
      key was swept early. */
  lemma {:induction false} AllowedApartIff(calls: seq<Call>, cooldown: int)
    requires AfterZero(calls) && 0 <= cooldown && IsInt64(cooldown)
    ensures AllowedApart(calls, cooldown) <==> NeverSweptEarly(calls, cooldown, |calls|)
  {
    if NeverSweptEarly(calls, cooldown, |calls|) {
      TracksWhileNotSwept(calls, cooldown, |calls|);
      forall i, j | 0 <= i < j < |calls| && BothAllowed(calls, cooldown, i, j)
        ensures calls[j].now - calls[i].now >= cooldown
      {
        RefRemembers(calls, cooldown, i, j);
      }
    } else {
      var j := FirstSwept(calls, cooldown, |calls|);
      TracksWhileNotSwept(calls, cooldown, j);
      TracksStep(calls, cooldown, j);
      var i := RefRecalls(calls, cooldown, calls[j].key, j);
      assert BothAllowed(calls, cooldown, i, j);
      assert calls[j].now - calls[i].now < cooldown;
    }
  }

  /** Under a clock that does not run backwards they always are. */
  lemma AllowedAreApart(calls: seq<Call>, cooldown: int, i: nat, j: nat)
    requires IsInt64(cooldown) && ForwardClock(calls) && i < j < |calls| && BothAllowed(calls, cooldown, i, j)
    ensures calls[j].now - calls[i].now >= cooldown
  {
    if cooldown >= 0 {
      ForwardIsNeverSwept(calls, cooldown);
      AllowedApartIff(calls, cooldown);
    }
  }

  // -----------------------------------------------------------------------
  // When an event is allowed
  // -----------------------------------------------------------------------

  // Call j, before call i, was allowed with the same key.
  ghost predicate AllowedEarlier(calls: seq<Call>, cooldown: int, j: int, i: nat)
    requires i < |calls|
  {
    0 <= j < i && calls[j].key == calls[i].key && Answer(calls, cooldown, j)
  }

  lemma SubAtLeast(a: int, b: int, cooldown: int)
    requires IsInt64(cooldown) && a >= b
    ensures Sub(a, b) >= cooldown <==> a - b >= cooldown
  {
  }

  // The time the reference compares with is that of some earlier allowed call,
  // and not before any of them.
  lemma {:induction false} RefComparesLatest(calls: seq<Call>, cooldown: int, i: nat)
    requires IsInt64(cooldown) && ForwardClock(calls) && i < |calls|
    ensures RefAnswer(calls, cooldown, i) <==>
      && calls[i].now >= cooldown
      && forall j :: 0 <= j < i && calls[j].key == calls[i].key && RefAnswer(calls, cooldown, j) ==>
           calls[i].now - calls[j].now >= cooldown
  {
    var m, key, now := RunRef(calls[..i], cooldown), calls[i].key, calls[i].now;
    if cooldown >= 0 {
      forall j | 0 <= j < i && calls[j].key == key && RefAnswer(calls, cooldown, j)
        ensures key in m && calls[j].now <= m[key]
      {
        RefRemembers(calls, cooldown, j, i);
      }
    }
    if key in m {
      var j := RefRecalls(calls, cooldown, key, i);
      assert 0 <= calls[j].now <= now;
      SubAtLeast(now, m[key], cooldown);
    } else {
      SubAtLeast(now, 0, cooldown);
    }
  }

  /** Under a clock that does not run backwards an event is sent if and only if a
      cooldown has passed since every event sent before with its key, and since
      the zero time that stands for "never". */
  lemma {:induction false} AllowedIff(calls: seq<Call>, cooldown: int, i: nat)
    requires IsInt64(cooldown) && ForwardClock(calls) && i < |calls|
    ensures Answer(calls, cooldown, i) <==>
      && calls[i].now >= cooldown
      && forall j :: AllowedEarlier(calls, cooldown, j, i) ==> calls[i].now - calls[j].now >= cooldown
  {
    RefComparesLatest(calls, cooldown, i);
    forall j: nat | j <= i ensures Answer(calls, cooldown, j) == RefAnswer(calls, cooldown, j) {
      PruningIsInvisible(calls, cooldown, j);
    }
    assert forall j :: AllowedEarlier(calls, cooldown, j, i) <==>
      0 <= j < i && calls[j].key == calls[i].key && RefAnswer(calls, cooldown, j);
  }

  // -----------------------------------------------------------------------
  // Memory stays bounded by age
  // -----------------------------------------------------------------------

  ghost predicate Young(l: Limiter, cooldown: int, now: int) {
    && 0 <= l.lastPrune <= now
    && forall k :: k in l.lastSent ==>
         l.lastPrune - cooldown < l.lastSent[k] <= now && now - l.lastSent[k] < 2 * cooldown
  }

  /** Right after a call no remembered entry is two cooldowns old, however
      many keys have ever been seen. */
  lemma {:induction false} EntriesStayYoung(calls: seq<Call>, cooldown: int)
    requires 0 < cooldown && IsInt64(cooldown) && ForwardClock(calls) && calls != []
    ensures Young(RunPruning(calls, cooldown), cooldown, calls[|calls| - 1].now)
  {
    var n := |calls| - 1;
    if n > 0 {
      EntriesStayYoung(calls[..n], cooldown);
      assert calls[..n][n - 1] == calls[n - 1];
    } else {
      assert calls[..0] == [];
    }
  }
}
