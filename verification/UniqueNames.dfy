/** Making names unique by numbering: the Clash proxy names of clash_service.go
    and the client e-mails that two migrations of db.go invent. All three try the
    name itself, then name-2, name-3, … until one is free. */
module UniqueNames {
  import opened Collections
  import opened Text

  // The n-th name tried, counting from 1.
  function Candidate(base: string, n: nat): string {
    if n <= 1 then base else base + "-" + Itoa(n)
  }

  lemma CandidateLonger(base: string, n: nat)
    requires n > 1
    ensures |Candidate(base, n)| > |base|
  {
  }

  lemma CandidateInjective(base: string, m: nat, n: nat)
    requires 1 <= m && 1 <= n && Candidate(base, m) == Candidate(base, n)
    ensures m == n
  {
    if m > 1 {
      CandidateLonger(base, m);
    }
    if n > 1 {
      CandidateLonger(base, n);
    }
    if m > 1 && n > 1 {
      var stem := base + "-";
      assert Itoa(m) == (stem + Itoa(m))[|stem|..] == (stem + Itoa(n))[|stem|..] == Itoa(n);
      ItoaInjective(m, n);
    }
  }

  // name is the first candidate that is not used.
  ghost predicate IsFirstFree(base: string, used: set<string>, name: string) {
    name !in used &&
    exists n: nat ::
      n >= 1 && name == Candidate(base, n) && forall k :: 1 <= k < n ==> Candidate(base, k) in used
  }

  lemma FirstFreeUnique(base: string, used: set<string>, a: string, b: string)
    requires IsFirstFree(base, used, a) && IsFirstFree(base, used, b)
    ensures a == b
  {
    var m: nat :| m >= 1 && a == Candidate(base, m) && forall k :: 1 <= k < m ==> Candidate(base, k) in used;
    var n: nat :| n >= 1 && b == Candidate(base, n) && forall k :: 1 <= k < n ==> Candidate(base, k) in used;
  }

  // A base that is itself free is kept; a result is never shorter than its base.
  lemma FirstFreeKeeps(base: string, used: set<string>, name: string)
    requires IsFirstFree(base, used, name)
    ensures base !in used ==> name == base
    ensures base <= name
  {
    var n: nat :| n >= 1 && name == Candidate(base, n) && forall k :: 1 <= k < n ==> Candidate(base, k) in used;
    if n > 1 {
      assert Candidate(base, 1) in used;
      assert Candidate(base, n)[..|base|] == base;
    }
  }

  function Tried(base: string, n: nat): (s: set<string>)
    ensures forall k :: 1 <= k <= n ==> Candidate(base, k) in s
    ensures forall x :: x in s ==> exists k :: 1 <= k <= n && x == Candidate(base, k)
  {
    if n == 0 then {} else Tried(base, n - 1) + {Candidate(base, n)}
  }

  lemma {:induction false} TriedSize(base: string, n: nat)
    ensures |Tried(base, n)| == n
  {
    if n > 0 {
      TriedSize(base, n - 1);
      if Candidate(base, n) in Tried(base, n - 1) {
        var k :| 1 <= k <= n - 1 && Candidate(base, n) == Candidate(base, k);
        CandidateInjective(base, n, k);
      }
    }
  }

  // Pigeonhole: the first n candidates cannot all be used by fewer than n names.
  lemma TriedWithin(base: string, n: nat, used: set<string>)
    requires forall k :: 1 <= k <= n ==> Candidate(base, k) in used
    ensures n <= |used|
  {
    TriedSize(base, n);
    SubsetSize(Tried(base, n), used);
  }

  /** The search loop. It always ends, after at most |used| + 1 tries. */
  method FirstFree(base: string, used: set<string>) returns (name: string)
    ensures IsFirstFree(base, used, name)
  {
    name := base;
    var n := 2;
    while name in used
      invariant n >= 2 && name == Candidate(base, n - 1)
      invariant forall k :: 1 <= k < n - 1 ==> Candidate(base, k) in used
      decreases |used| + 2 - n
    {
      TriedWithin(base, n - 1, used);
      name := base + "-" + Itoa(n);
      n := n + 1;
    }
  }

  // -----------------------------------------------------------------------
  // Naming a whole list
  // -----------------------------------------------------------------------

  // Every name is the first one free after used and the names before it.
  ghost predicate Assigned(bases: seq<string>, used: set<string>, names: seq<string>) {
    |names| == |bases| &&
    forall i :: 0 <= i < |names| ==> IsFirstFree(bases[i], used + Elements(names[..i]), names[i])
  }

  lemma AssignedStep(bases: seq<string>, used: set<string>, names: seq<string>, base: string, name: string)
    requires Assigned(bases, used, names)
    requires IsFirstFree(base, used + Elements(names), name)
    ensures Assigned(bases + [base], used, names + [name])
    ensures Elements(names + [name]) == Elements(names) + {name}
  {
    var longer := names + [name];
    forall i | 0 <= i < |longer|
      ensures IsFirstFree((bases + [base])[i], used + Elements(longer[..i]), longer[i])
    {
      assert longer[..i] == names[..i];
      if i == |names| {
        assert names[..i] == names;
      }
    }
  }

  /** The names are pairwise distinct and none was used before. */
  lemma AssignedDistinct(bases: seq<string>, used: set<string>, names: seq<string>)
    requires Assigned(bases, used, names)
    ensures forall i :: 0 <= i < |names| ==> names[i] !in used
    ensures forall i, j :: 0 <= i < j < |names| ==> names[i] != names[j]
  {
    forall i, j | 0 <= i < j < |names|
      ensures names[i] != names[j]
    {
      assert IsFirstFree(bases[j], used + Elements(names[..j]), names[j]);
      assert names[..j][i] == names[i];
    }
  }

  /** A name that is new and distinct from the final names before it is kept. */
  lemma AssignedKeeps(bases: seq<string>, used: set<string>, names: seq<string>, i: nat)
    requires Assigned(bases, used, names) && i < |bases|
    ensures bases[i] !in used && bases[i] !in names[..i] ==> names[i] == bases[i]
    ensures bases[i] <= names[i]
  {
    FirstFreeKeeps(bases[i], used + Elements(names[..i]), names[i]);
  }

  lemma AssignedPrefix(bases: seq<string>, used: set<string>, names: seq<string>, n: nat)
    requires Assigned(bases, used, names) && n <= |bases|
    ensures Assigned(bases[..n], used, names[..n])
  {
    forall i | 0 <= i < n
      ensures IsFirstFree(bases[..n][i], used + Elements(names[..n][..i]), names[..n][i])
    {
      assert names[..n][..i] == names[..i];
    }
  }

  /** The outcome is determined by the wanted names. */
  lemma {:induction false} AssignedUnique(bases: seq<string>, used: set<string>, a: seq<string>, b: seq<string>)
    requires Assigned(bases, used, a) && Assigned(bases, used, b)
    ensures a == b
  {
    if bases != [] {
      var n := |bases| - 1;
      AssignedPrefix(bases, used, a, n);
      AssignedPrefix(bases, used, b, n);
      AssignedUnique(bases[..n], used, a[..n], b[..n]);
      FirstFreeUnique(bases[n], used + Elements(a[..n]), a[n], b[n]);
      assert a == a[..n] + [a[n]] && b == b[..n] + [b[n]];
    }
  }

  /** Names that are distinct and unused already all stay: naming is idempotent. */
  lemma {:induction false} DistinctStay(bases: seq<string>, used: set<string>, names: seq<string>)
    requires Assigned(bases, used, names)
    requires forall i :: 0 <= i < |bases| ==> bases[i] !in used
    requires forall i, j :: 0 <= i < j < |bases| ==> bases[i] != bases[j]
    ensures names == bases
  {
    if bases != [] {
      var n := |bases| - 1;
      AssignedPrefix(bases, used, names, n);
      DistinctStay(bases[..n], used, names[..n]);
      assert bases[n] !in bases[..n];
      AssignedKeeps(bases, used, names, n);
      assert names == names[..n] + [names[n]] && bases == bases[..n] + [bases[n]];
    }
  }

  // -----------------------------------------------------------------------
  // clash_service.go
  // -----------------------------------------------------------------------

  // A field of a proxy: a string, or anything else by the text it prints as.
  datatype Value = Str(text: string) | Other(printed: string)

  type Fields = map<string, Value>

  // A proxy is one map, shared by reference and updated in place.
  class Proxy {
    var fields: Fields

    constructor (fields: Fields)
      ensures this.fields == fields
    {
      this.fields := fields;
    }
  }

  // proxy[key].(string), empty when absent or of another type.
  function StringField(fields: Fields, key: string): string {
    if key in fields && fields[key].Str? then fields[key].text else ""
  }

  function PrintedField(fields: Fields, key: string): string {
    if key !in fields then "<nil>"
    else match fields[key] case Str(t) => t case Other(p) => p
  }

  function FallbackProxyName(fields: Fields, idx: nat): (name: string)
    ensures name != ""
  {
    var typ, server := StringField(fields, "type"), StringField(fields, "server");
    if typ != "" && server != "" then typ + "-" + server + "-" + PrintedField(fields, "port")
    else "proxy-" + Itoa(idx + 1)
  }

  function BaseName(fields: Fields, idx: nat): (name: string)
    ensures name != ""
  {
    var base := StringField(fields, "name");
    if base == "" then FallbackProxyName(fields, idx) else base
  }

  function BaseNames(all: seq<Fields>): (bases: seq<string>)
    ensures |bases| == |all|
    ensures forall i :: 0 <= i < |all| ==> bases[i] == BaseName(all[i], i)
  {
    seq(|all|, i requires 0 <= i < |all| => BaseName(all[i], i))
  }

  function FieldsOf(proxies: seq<Proxy>): (all: seq<Fields>)
    reads proxies
    ensures |all| == |proxies|
    ensures forall i :: 0 <= i < |proxies| ==> all[i] == proxies[i].fields
  {
    seq(|proxies|, i requires 0 <= i < |proxies| reads proxies => proxies[i].fields)
  }

  // One turn of the loop.
  method RenameProxy(proxy: Proxy, idx: nat, seen: set<string>) returns (name: string)
    modifies proxy
    ensures IsFirstFree(BaseName(old(proxy.fields), idx), seen, name)
    ensures proxy.fields == old(proxy.fields)["name" := Str(name)]
  {
    var base := StringField(proxy.fields, "name");
    if base == "" {
      base := FallbackProxyName(proxy.fields, idx);
    }
    name := FirstFree(base, seen);
    proxy.fields := proxy.fields["name" := Str(name)];
  }

  ghost predicate AllApart(proxies: seq<Proxy>) {
    forall i, j :: 0 <= i < j < |proxies| ==> proxies[i] != proxies[j]
  }

  // The last of the first i turns that was this proxy's, or -1.
  ghost function LastTurn(proxies: seq<Proxy>, p: Proxy, i: nat): (j: int)
    requires i <= |proxies|
    ensures -1 <= j < i
    ensures j >= 0 ==> proxies[j] == p
    ensures forall k :: j < k < i ==> proxies[k] != p
  {
    if i == 0 then -1 else if proxies[i - 1] == p then i - 1 else LastTurn(proxies, p, i - 1)
  }

  // Each proxy has the name of its last turn, if it had one, and nothing else
  // of it was touched.
  ghost predicate Renamed(proxies: seq<Proxy>, before: seq<Fields>, now: seq<Fields>, names: seq<string>) {
    && |now| == |before| == |proxies| && |names| <= |proxies|
    && forall k :: 0 <= k < |proxies| ==>
         var j := LastTurn(proxies, proxies[k], |names|);
         now[k] == if j < 0 then before[k] else before[k]["name" := Str(names[j])]
  }

  // What turn k starts from: the name an earlier turn gave the proxy, or its own.
  ghost function BaseInTurn(proxies: seq<Proxy>, before: seq<Fields>, names: seq<string>, k: nat): string
    requires |before| == |proxies| && k < |proxies| && k <= |names|
  {
    var j := LastTurn(proxies, proxies[k], k);
    if j < 0 then BaseName(before[k], k) else names[j]
  }

  ghost function BasesInTurn(proxies: seq<Proxy>, before: seq<Fields>, names: seq<string>): (bases: seq<string>)
    requires |before| == |proxies| && |names| <= |proxies|
    ensures |bases| == |names|
  {
    seq(|names|, k requires 0 <= k < |names| => BaseInTurn(proxies, before, names, k))
  }

  ghost predicate NamesDiffer(all: seq<Fields>) {
    forall i, j :: 0 <= i < j < |all| ==> StringField(all[i], "name") != StringField(all[j], "name")
  }

  ghost predicate AllNamed(all: seq<Fields>) {
    forall i :: 0 <= i < |all| ==> StringField(all[i], "name") != ""
  }

  // One map in two places has one content.
  ghost predicate Shared(proxies: seq<Proxy>, all: seq<Fields>) {
    |all| == |proxies| && forall i, j :: 0 <= i < j < |all| && proxies[i] == proxies[j] ==> all[i] == all[j]
  }

  // The names so far, each the first free one, and all in use.
  ghost predicate NamedSoFar(bases: seq<string>, names: seq<string>, seen: set<string>) {
    && Assigned(bases, {}, names) && {} + Elements(names) == seen
    && forall k :: 0 <= k < |names| ==> names[k] != ""
  }

  // After as many turns as there are names.
  ghost predicate Turned(proxies: seq<Proxy>, before: seq<Fields>, now: seq<Fields>, names: seq<string>,
                         seen: set<string>) {
    && Shared(proxies, before) && Renamed(proxies, before, now, names)
    && NamedSoFar(BasesInTurn(proxies, before, names), names, seen)
  }

  // The turn reads the base it should.
  lemma TurnReadsBase(proxies: seq<Proxy>, before: seq<Fields>, now: seq<Fields>, names: seq<string>)
    requires Renamed(proxies, before, now, names) && |names| < |proxies|
    requires forall k :: 0 <= k < |names| ==> names[k] != ""
    ensures BaseName(now[|names|], |names|) == BaseInTurn(proxies, before, names, |names|)
  {
    var j := LastTurn(proxies, proxies[|names|], |names|);
    if j >= 0 {
      assert StringField(now[|names|], "name") == names[j];
    }
  }

  lemma BasesNext(proxies: seq<Proxy>, before: seq<Fields>, names: seq<string>, name: string)
    requires |before| == |proxies| && |names| < |proxies|
    ensures BasesInTurn(proxies, before, names + [name])
         == BasesInTurn(proxies, before, names) + [BaseInTurn(proxies, before, names, |names|)]
  {
    var longer := names + [name];
    forall k | 0 <= k <= |names|
      ensures BaseInTurn(proxies, before, longer, k) == BaseInTurn(proxies, before, names, k)
    {
    }
  }

  // Every place of the proxy shows the new name, no other place changes.
  ghost predicate Updated(proxies: seq<Proxy>, now: seq<Fields>, after: seq<Fields>, i: nat, name: string)
    requires i < |proxies|
  {
    && |after| == |now| == |proxies|
    && after[i] == now[i]["name" := Str(name)]
    && forall k :: 0 <= k < |proxies| ==> after[k] == if proxies[k] == proxies[i] then after[i] else now[k]
  }

  lemma RenamedNext(proxies: seq<Proxy>, before: seq<Fields>, now: seq<Fields>, after: seq<Fields>,
                    names: seq<string>, name: string)
    requires Shared(proxies, before) && Renamed(proxies, before, now, names) && |names| < |proxies|
    requires Updated(proxies, now, after, |names|, name)
    ensures Renamed(proxies, before, after, names + [name])
  {
    var i, longer := |names|, names + [name];
    forall k | 0 <= k < |proxies|
      ensures var j := LastTurn(proxies, proxies[k], |longer|);
        after[k] == if j < 0 then before[k] else before[k]["name" := Str(longer[j])]
    {
      if proxies[k] == proxies[i] {
        assert before[k] == before[i];
        assert after[i] == before[i]["name" := Str(name)];
      } else {
        assert LastTurn(proxies, proxies[k], i + 1) == LastTurn(proxies, proxies[k], i);
      }
    }
  }

  lemma NamesNext(bases: seq<string>, names: seq<string>, seen: set<string>, base: string, name: string)
    requires NamedSoFar(bases, names, seen) && base != "" && IsFirstFree(base, seen, name)
    ensures NamedSoFar(bases + [base], names + [name], seen + {name})
  {
    FirstFreeKeeps(base, seen, name);
    AssignedStep(bases, {}, names, base, name);
  }

  lemma TurnNext(proxies: seq<Proxy>, before: seq<Fields>, now: seq<Fields>, after: seq<Fields>,
                 names: seq<string>, seen: set<string>, name: string)
    requires Turned(proxies, before, now, names, seen) && |names| < |proxies|
    requires IsFirstFree(BaseName(now[|names|], |names|), seen, name)
    requires Updated(proxies, now, after, |names|, name)
    ensures Turned(proxies, before, after, names + [name], seen + {name})
  {
    TurnReadsBase(proxies, before, now, names);
    NamesNext(BasesInTurn(proxies, before, names), names, seen, BaseName(now[|names|], |names|), name);
    BasesNext(proxies, before, names, name);
    RenamedNext(proxies, before, now, after, names, name);
  }

  // The loop.
  method RenameAll(proxies: seq<Proxy>) returns (names: seq<string>, ghost seen: set<string>)
    modifies proxies
    ensures |names| == |proxies| && Turned(proxies, old(FieldsOf(proxies)), FieldsOf(proxies), names, seen)
  {
    var used := {};
    names := [];
    ghost var before := FieldsOf(proxies);
    for i := 0 to |proxies|
      invariant |names| == i && Turned(proxies, before, FieldsOf(proxies), names, used)
    {
      ghost var now := FieldsOf(proxies);
      var name := RenameProxy(proxies[i], i, used);
      TurnNext(proxies, before, now, FieldsOf(proxies), names, used, name);
      used := used + {name};
      names := names + [name];
    }
    seen := used;
  }

  // Each place has its own name, and nothing else of it was touched.
  ghost predicate NamedOnce(before: seq<Fields>, now: seq<Fields>, names: seq<string>) {
    |before| == |now| == |names| && forall k :: 0 <= k < |now| ==> now[k] == before[k]["name" := Str(names[k])]
  }

  // No map twice: every turn is its proxy's first and last.
  lemma TurnsApart(proxies: seq<Proxy>, before: seq<Fields>, now: seq<Fields>, names: seq<string>)
    requires Renamed(proxies, before, now, names) && |names| == |proxies| && AllApart(proxies)
    ensures NamedOnce(before, now, names)
    ensures BasesInTurn(proxies, before, names) == BaseNames(before)
  {
    forall k | 0 <= k < |proxies|
      ensures LastTurn(proxies, proxies[k], |proxies|) == k && LastTurn(proxies, proxies[k], k) == -1
    {
    }
  }

  lemma RenamedNamed(proxies: seq<Proxy>, before: seq<Fields>, now: seq<Fields>, names: seq<string>)
    requires Renamed(proxies, before, now, names) && |names| == |proxies|
    requires forall k :: 0 <= k < |names| ==> names[k] != ""
    ensures AllNamed(now)
  {
    forall k | 0 <= k < |proxies| ensures StringField(now[k], "name") != "" {
      var j := LastTurn(proxies, proxies[k], |names|);
      assert j >= k;
    }
  }

  lemma RenamedDiffer(before: seq<Fields>, now: seq<Fields>, names: seq<string>)
    requires Assigned(BaseNames(before), {}, names) && NamedOnce(before, now, names)
    ensures NamesDiffer(now)
  {
    AssignedDistinct(BaseNames(before), {}, names);
    assert forall k :: 0 <= k < |now| ==> StringField(now[k], "name") == names[k];
  }

  lemma TurnedAll(proxies: seq<Proxy>, before: seq<Fields>, now: seq<Fields>, names: seq<string>, seen: set<string>)
    requires Turned(proxies, before, now, names, seen) && |names| == |proxies| && Shared(proxies, now)
    ensures AllNamed(now) && (NamesDiffer(now) <==> AllApart(proxies))
    ensures AllApart(proxies) ==>
      BasesInTurn(proxies, before, names) == BaseNames(before) && NamedOnce(before, now, names)
  {
    RenamedNamed(proxies, before, now, names);
    if AllApart(proxies) {
      TurnsApart(proxies, before, now, names);
      RenamedDiffer(before, now, names);
    }
  }

  /** Renames in place, whatever the list: each turn takes the first free name
      after those before it, starting from the name its proxy then has; in the
      end each proxy has the name of its last turn and is named, and no other
      field has changed. The names differ if and only if no map stands in the
      list twice, and then every turn starts from the proxy's original name. */
  method EnsureUniqueProxyNames(proxies: seq<Proxy>) returns (names: seq<string>)
    modifies proxies
    ensures |names| == |proxies| && Renamed(proxies, old(FieldsOf(proxies)), FieldsOf(proxies), names)
    ensures Assigned(BasesInTurn(proxies, old(FieldsOf(proxies)), names), {}, names)
    ensures AllNamed(FieldsOf(proxies))
    ensures NamesDiffer(FieldsOf(proxies)) <==> AllApart(proxies)
    ensures AllApart(proxies) ==>
      && BasesInTurn(proxies, old(FieldsOf(proxies)), names) == BaseNames(old(FieldsOf(proxies)))
      && NamedOnce(old(FieldsOf(proxies)), FieldsOf(proxies), names)
  {
    ghost var before := FieldsOf(proxies);
    ghost var seen;
    names, seen := RenameAll(proxies);
    TurnedAll(proxies, before, FieldsOf(proxies), names, seen);
  }

  /** What the Clash client needs of the result: no empty and no repeated name;
      and a list that already satisfied that keeps all its names. */
  lemma ProxyNamesAcceptable(all: seq<Fields>, names: seq<string>)
    requires Assigned(BaseNames(all), {}, names)
    ensures forall i :: 0 <= i < |names| ==> names[i] != ""
    ensures forall i, j :: 0 <= i < j < |names| ==> names[i] != names[j]
    ensures (forall i :: 0 <= i < |all| ==> StringField(all[i], "name") != "") &&
            (forall i, j :: 0 <= i < j < |all| ==> StringField(all[i], "name") != StringField(all[j], "name"))
       ==> forall i :: 0 <= i < |all| ==> names[i] == StringField(all[i], "name")
  {
    var bases := BaseNames(all);
    AssignedDistinct(bases, {}, names);
    forall i | 0 <= i < |names|
      ensures names[i] != ""
    {
      AssignedKeeps(bases, {}, names, i);
      assert bases[i] != "";
    }
    if (forall i :: 0 <= i < |all| ==> StringField(all[i], "name") != "") &&
       (forall i, j :: 0 <= i < j < |all| ==> StringField(all[i], "name") != StringField(all[j], "name"))
    {
      assert forall i :: 0 <= i < |all| ==> bases[i] == StringField(all[i], "name");
      DistinctStay(bases, {}, names);
    }
  }

  // -----------------------------------------------------------------------
  // db.go
  // -----------------------------------------------------------------------

  predicate NoSpace(s: string) {
    ' ' !in s
  }

  lemma {:induction false} ItoaHasNoSpace(n: nat)
    ensures NoSpace(Itoa(n))
  {
    ItoaValue(n);
    assert forall i :: 0 <= i < |Itoa(n)| ==> IsDigit(Itoa(n)[i]);
  }

  lemma FirstFreeHasNoSpace(base: string, used: set<string>, name: string)
    requires IsFirstFree(base, used, name) && NoSpace(base)
    ensures NoSpace(name)
  {
    var n: nat :| n >= 1 && name == Candidate(base, n) && forall k :: 1 <= k < n ==> Candidate(base, k) in used;
    ItoaHasNoSpace(n);
  }

  // A legacy WireGuard peer; an entry that is not an object is skipped, but its
  // position still counts.
  datatype RawPeer = NotAnObject | Peer(comment: Option<string>)

  function PeerEmailBase(remark: string, peer: RawPeer, index: nat): (email: string)
    requires peer.Peer?
    ensures NoSpace(email) && email != ""
  {
    var base := if TrimSpace(remark) == "" then "wg" else TrimSpace(remark);
    var suffix :=
      if peer.comment.Some? && TrimSpace(peer.comment.value) != "" then TrimSpace(peer.comment.value)
      else Itoa(index + 1);
    ReplaceAll(base + "-" + suffix, ' ', '-')
  }

  function PeerEmailBases(remark: string, peers: seq<RawPeer>): seq<string> {
    if peers == [] then []
    else
      var n := |peers| - 1;
      PeerEmailBases(remark, peers[..n]) +
      if peers[n].Peer? then [PeerEmailBase(remark, peers[n], n)] else []
  }

  lemma PeerEmailBasesStep(remark: string, peers: seq<RawPeer>, i: nat)
    requires i < |peers|
    ensures PeerEmailBases(remark, peers[..i + 1])
         == PeerEmailBases(remark, peers[..i]) +
            if peers[i].Peer? then [PeerEmailBase(remark, peers[i], i)] else []
  {
    assert peers[..i + 1][..i] == peers[..i];
  }

  method WireguardPeerEmail(remark: string, peer: RawPeer, index: nat, used: set<string>) returns (email: string)
    requires peer.Peer?
    ensures IsFirstFree(PeerEmailBase(remark, peer, index), used, email)
    ensures NoSpace(email) && email != ""
  {
    var base := TrimSpace(remark);
    if base == "" {
      base := "wg";
    }
    var suffix := Itoa(index + 1);
    if peer.comment.Some? && TrimSpace(peer.comment.value) != "" {
      suffix := TrimSpace(peer.comment.value);
    }
    var wanted := ReplaceAll(base + "-" + suffix, ' ', '-');
    email := FirstFree(wanted, used);
    FirstFreeHasNoSpace(wanted, used, email);
    FirstFreeKeeps(wanted, used, email);
  }

  method MtprotoInboundClientEmail(remark: string, used: set<string>) returns (email: string)
    ensures IsFirstFree(
      ReplaceAll(if TrimSpace(remark) == "" then "mtproto" else TrimSpace(remark), ' ', '-'), used, email)
    ensures NoSpace(email) && email != ""
  {
    var base := TrimSpace(remark);
    if base == "" {
      base := "mtproto";
    }
    var wanted := ReplaceAll(base, ' ', '-');
    email := FirstFree(wanted, used);
    FirstFreeHasNoSpace(wanted, used, email);
    FirstFreeKeeps(wanted, used, email);
  }

  /** One inbound's share of the WireGuard migration: its peers get e-mails that
      are pairwise distinct and new, and used grows by exactly those. */
  method MigratePeers(remark: string, peers: seq<RawPeer>, usedBefore: set<string>)
    returns (emails: seq<string>, used: set<string>)
    ensures Assigned(PeerEmailBases(remark, peers), usedBefore, emails)
    ensures used == usedBefore + Elements(emails)
    ensures forall i, j :: 0 <= i < j < |emails| ==> emails[i] != emails[j]
    ensures forall i :: 0 <= i < |emails| ==> emails[i] !in usedBefore && NoSpace(emails[i])
  {
    emails, used := [], usedBefore;
    ghost var bases: seq<string> := [];
    for i := 0 to |peers|
      invariant bases == PeerEmailBases(remark, peers[..i])
      invariant Assigned(bases, usedBefore, emails)
      invariant used == usedBefore + Elements(emails)
      invariant forall k :: 0 <= k < |emails| ==> NoSpace(emails[k])
    {
      PeerEmailBasesStep(remark, peers, i);
      if peers[i].Peer? {
        var email := WireguardPeerEmail(remark, peers[i], i, used);
        AssignedStep(bases, usedBefore, emails, PeerEmailBase(remark, peers[i], i), email);
        bases := bases + [PeerEmailBase(remark, peers[i], i)];
        used := used + {email};
        emails := emails + [email];
      }
    }
    assert peers[..|peers|] == peers;
    AssignedDistinct(PeerEmailBases(remark, peers), usedBefore, emails);
  }
}
