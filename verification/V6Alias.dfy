/** Host-owned IPv6 aliases of AmneziaWG peers (internal/amneziawgnet/v6alias.go):
    the aliases an instance wants, the difference between two instances, and the
    `ip -6 addr` commands that move the host from one to the other. A command
    may fail; "already there" and "already gone" count as success, as they do in
    the code. */
module V6Alias {
  import opened Collections
  import opened AwgTypes

  datatype Alias = Alias(addr: string, iface: string)

  function EffectiveIPv6ExternalInterface(inst: Instance): string {
    if inst.ipv6ExternalInterface != "" then inst.ipv6ExternalInterface else inst.externalInterface
  }

  predicate V6AliasesActive(inst: Instance) {
    inst.ipv6Enabled && EffectiveIPv6ExternalInterface(inst) != ""
  }

  predicate Eligible(p: Peer) {
    p.email != "" && p.firstIPv6 != ""
  }

  // The alias of each email: that of its last eligible peer.
  function PeerAliases(peers: seq<Peer>, iface: string): map<string, Alias> {
    if peers == [] then map[]
    else
      var before := PeerAliases(peers[..|peers| - 1], iface);
      var p := peers[|peers| - 1];
      if Eligible(p) then before[p.email := Alias(p.firstIPv6, iface)] else before
  }

  function Desired(inst: Instance): map<string, Alias> {
    if V6AliasesActive(inst) then PeerAliases(inst.peers, EffectiveIPv6ExternalInterface(inst)) else map[]
  }

  method DesiredV6Aliases(inst: Instance) returns (out: map<string, Alias>)
    ensures out == Desired(inst)
  {
    out := map[];
    if !V6AliasesActive(inst) {
      return;
    }
    var iface := EffectiveIPv6ExternalInterface(inst);
    for i := 0 to |inst.peers|
      invariant out == PeerAliases(inst.peers[..i], iface)
    {
      var p := inst.peers[i];
      assert inst.peers[..i + 1][..i] == inst.peers[..i];
      if p.email == "" {
        continue;
      }
      if p.firstIPv6 != "" {
        out := out[p.email := Alias(p.firstIPv6, iface)];
      }
    }
    assert inst.peers[..|inst.peers|] == inst.peers;
  }

  lemma {:induction false} AliasesFilled(peers: seq<Peer>, iface: string, e: string)
    requires e != ""
    ensures var filled := Filled(peers, (p: Peer) => p.email == e && p.firstIPv6 != "", (p: Peer) => p.firstIPv6);
      if filled.Nothing? then e !in PeerAliases(peers, iface)
      else e in PeerAliases(peers, iface) && PeerAliases(peers, iface)[e] == Alias(filled.value, iface)
  {
    if peers != [] {
      AliasesFilled(peers[..|peers| - 1], iface, e);
    }
  }

  lemma {:induction false} NoAliasUnnamed(peers: seq<Peer>, iface: string)
    ensures "" !in PeerAliases(peers, iface)
  {
    if peers != [] {
      NoAliasUnnamed(peers[..|peers| - 1], iface);
    }
  }

  /** An alias is wanted exactly for an email with an IPv6 address, when IPv6 is
      on and an interface is named; it carries the address of the last such
      peer, on the IPv6 interface if one is named and the general one if not. */
  lemma {:induction false} DesiredAliases(inst: Instance, e: string) returns (i: int)
    ensures IsLast(inst.peers, (p: Peer) => p.email == e && p.firstIPv6 != "", i)
    ensures
      var iface := if inst.ipv6ExternalInterface != "" then inst.ipv6ExternalInterface else inst.externalInterface;
      && (e in Desired(inst) <==> inst.ipv6Enabled && iface != "" && e != "" && i >= 0)
      && (e in Desired(inst) ==> Desired(inst)[e] == Alias(inst.peers[i].firstIPv6, iface))
  {
    i := FilledIsLast(inst.peers, (p: Peer) => p.email == e && p.firstIPv6 != "", (p: Peer) => p.firstIPv6);
    if e == "" {
      NoAliasUnnamed(inst.peers, EffectiveIPv6ExternalInterface(inst));
    } else {
      AliasesFilled(inst.peers, EffectiveIPv6ExternalInterface(inst), e);
    }
  }

  // -----------------------------------------------------------------------
  // The difference of two instances
  // -----------------------------------------------------------------------

  // Aliases of a that b does not keep under the same email.
  function Dropped(a: map<string, Alias>, b: map<string, Alias>): set<Alias> {
    set e | e in a && !(e in b && b[e] == a[e]) :: a[e]
  }

  function Values(a: map<string, Alias>): set<Alias> {
    set e | e in a :: a[e]
  }

  method CollectDropped(a: map<string, Alias>, b: map<string, Alias>) returns (out: seq<Alias>)
    ensures Elements(out) == Dropped(a, b)
    ensures Dropped(a, b) == {} ==> out == []
  {
    out := [];
    var pending := a.Keys;
    while pending != {}
      invariant pending <= a.Keys
      invariant Elements(out) == set e | e in a && e !in pending && !(e in b && b[e] == a[e]) :: a[e]
      invariant Elements(out) <= Dropped(a, b)
      decreases pending
    {
      var e :| e in pending;
      pending := pending - {e};
      if !(e in b && b[e] == a[e]) {
        assert a[e] in Dropped(a, b);
        ghost var before := out;
        out := out + [a[e]];
        assert Elements(out) == Elements(before) + {a[e]};
      }
    }
    if out != [] {
      assert out[0] in Elements(out);
    }
  }

  method DiffV6Aliases(oldInst: Instance, newInst: Instance) returns (add: seq<Alias>, remove: seq<Alias>)
    ensures Elements(add) == Dropped(Desired(newInst), Desired(oldInst))
    ensures Elements(remove) == Dropped(Desired(oldInst), Desired(newInst))
    ensures Dropped(Desired(newInst), Desired(oldInst)) == {} ==> add == []
    ensures Dropped(Desired(oldInst), Desired(newInst)) == {} ==> remove == []
  {
    var oldSet := DesiredV6Aliases(oldInst);
    var newSet := DesiredV6Aliases(newInst);
    remove := CollectDropped(oldSet, newSet);
    add := CollectDropped(newSet, oldSet);
  }

  // -----------------------------------------------------------------------
  // Commands and the host
  // -----------------------------------------------------------------------

  datatype Command = Add(alias: Alias) | Del(alias: Alias)

  // The host after one command; commands on a broken alias fail.
  function Effect(host: set<Alias>, c: Command, broken: set<Alias>): set<Alias> {
    if c.alias in broken then host
    else match c
      case Add(a) => host + {a}
      case Del(a) => host - {a}
  }

  function Effects(host: set<Alias>, cs: seq<Command>, broken: set<Alias>): set<Alias> {
    if cs == [] then host
    else Effect(Effects(host, cs[..|cs| - 1], broken), cs[|cs| - 1], broken)
  }

  function Adds(add: seq<Alias>): (cs: seq<Command>)
    ensures |cs| == |add|
  {
    seq(|add|, i requires 0 <= i < |add| => Add(add[i]))
  }

  function Dels(remove: seq<Alias>): (cs: seq<Command>)
    ensures |cs| == |remove|
  {
    seq(|remove|, i requires 0 <= i < |remove| => Del(remove[i]))
  }

  // Every addition before any removal.
  function Commands(add: seq<Alias>, remove: seq<Alias>): seq<Command> {
    Adds(add) + Dels(remove)
  }

  lemma {:induction false} EffectsStep(host: set<Alias>, cs: seq<Command>, k: nat, broken: set<Alias>)
    requires k < |cs|
    ensures cs[..k + 1] == cs[..k] + [cs[k]]
    ensures Effects(host, cs[..k + 1], broken) == Effect(Effects(host, cs[..k], broken), cs[k], broken)
  {
    assert cs[..k + 1][..k] == cs[..k];
  }

  lemma {:induction false} EffectsConcat(host: set<Alias>, a: seq<Command>, b: seq<Command>, broken: set<Alias>)
    ensures Effects(host, a + b, broken) == Effects(Effects(host, a, broken), b, broken)
  {
    if b == [] {
      assert a + b == a;
    } else {
      var n := |b| - 1;
      assert (a + b)[..|a + b| - 1] == a + b[..n];
      EffectsConcat(host, a, b[..n], broken);
    }
  }

  /** The host's aliases and the `ip` commands issued so far. */
  class Host {
    var aliases: set<Alias>
    var log: seq<Command>

    constructor ()
      ensures aliases == {} && log == []
    {
      aliases, log := {}, [];
    }

    method RunIP(c: Command, broken: set<Alias>)
      modifies this
      ensures aliases == Effect(old(aliases), c, broken)
      ensures log == old(log) + [c]
    {
      log := log + [c];
      if c.alias !in broken {
        match c
        case Add(a) => aliases := aliases + {a};
        case Del(a) => aliases := aliases - {a};
      }
    }

    method AddAll(add: seq<Alias>, broken: set<Alias>)
      modifies this
      ensures log == old(log) + Adds(add)
      ensures aliases == Effects(old(aliases), Adds(add), broken)
    {
      ghost var cs := Adds(add);
      for i := 0 to |add|
        invariant log == old(log) + cs[..i]
        invariant aliases == Effects(old(aliases), cs[..i], broken)
      {
        RunIP(Add(add[i]), broken);
        EffectsStep(old(aliases), cs, i, broken);
      }
      assert cs[..|add|] == cs;
    }

    method RemoveAll(remove: seq<Alias>, broken: set<Alias>)
      modifies this
      ensures log == old(log) + Dels(remove)
      ensures aliases == Effects(old(aliases), Dels(remove), broken)
    {
      ghost var cs := Dels(remove);
      for i := 0 to |remove|
        invariant log == old(log) + cs[..i]
        invariant aliases == Effects(old(aliases), cs[..i], broken)
      {
        RunIP(Del(remove[i]), broken);
        EffectsStep(old(aliases), cs, i, broken);
      }
      assert cs[..|remove|] == cs;
    }

    method ApplyV6Aliases(add: seq<Alias>, remove: seq<Alias>, broken: set<Alias>)
      modifies this
      ensures log == old(log) + Commands(add, remove)
      ensures aliases == Effects(old(aliases), Commands(add, remove), broken)
    {
      AddAll(add, broken);
      RemoveAll(remove, broken);
      EffectsConcat(old(aliases), Adds(add), Dels(remove), broken);
    }
  }

  // -----------------------------------------------------------------------
  // What the host has after k commands
  // -----------------------------------------------------------------------

  ghost function Take(s: seq<Alias>, k: int): seq<Alias> {
    if k <= 0 then [] else if k < |s| then s[..k] else s
  }

  lemma {:induction false} AddsEffect(host: set<Alias>, add: seq<Alias>, broken: set<Alias>)
    ensures Effects(host, Adds(add), broken) == host + (Elements(add) - broken)
  {
    if add != [] {
      var n := |add| - 1;
      assert Adds(add)[..n] == Adds(add[..n]);
      AddsEffect(host, add[..n], broken);
      ElementsMore(add);
    }
  }

  lemma {:induction false} DelsEffect(host: set<Alias>, remove: seq<Alias>, broken: set<Alias>)
    ensures Effects(host, Dels(remove), broken) == host - (Elements(remove) - broken)
  {
    if remove != [] {
      var n := |remove| - 1;
      assert Dels(remove)[..n] == Dels(remove[..n]);
      DelsEffect(host, remove[..n], broken);
      ElementsMore(remove);
    }
  }

  lemma {:induction false} ElementsMore(s: seq<Alias>)
    requires s != []
    ensures Elements(s) == Elements(s[..|s| - 1]) + {s[|s| - 1]}
  {
    assert s == s[..|s| - 1] + [s[|s| - 1]];
  }

  // The additions made so far, less the removals so far, failures left out.
  lemma {:induction false} EffectsAfter(host: set<Alias>, add: seq<Alias>, remove: seq<Alias>,
                                        broken: set<Alias>, k: nat)
    requires k <= |add| + |remove|
    ensures Effects(host, Commands(add, remove)[..k], broken)
         == host + (Elements(Take(add, k)) - broken) - (Elements(Take(remove, k - |add|)) - broken)
  {
    var added, removed := Take(add, k), Take(remove, k - |add|);
    CommandsTaken(add, remove, k);
    EffectsConcat(host, Adds(added), Dels(removed), broken);
    AddsEffect(host, added, broken);
    DelsEffect(host + (Elements(added) - broken), removed, broken);
  }

  lemma {:induction false} CommandsTaken(add: seq<Alias>, remove: seq<Alias>, k: nat)
    requires k <= |add| + |remove|
    ensures Commands(add, remove)[..k] == Adds(Take(add, k)) + Dels(Take(remove, k - |add|))
  {
  }

  lemma EffectsAll(host: set<Alias>, add: seq<Alias>, remove: seq<Alias>, broken: set<Alias>)
    ensures Effects(host, Commands(add, remove), broken)
         == host + (Elements(add) - broken) - (Elements(remove) - broken)
  {
    var cs := Commands(add, remove);
    EffectsAfter(host, add, remove, broken, |cs|);
    assert cs[..|cs|] == cs;
  }

  // -----------------------------------------------------------------------
  // When the host ends up with what is wanted
  // -----------------------------------------------------------------------

  /** The host held what one instance and the others want. After the move to
      the new instance it holds exactly what is wanted then if and only if no
      alias being removed is still wanted by anyone. */
  lemma MoveExact(host: set<Alias>, others: set<Alias>, a: map<string, Alias>, b: map<string, Alias>)
    requires host == others + Values(a)
    ensures (host + Dropped(b, a) - Dropped(a, b) == others + Values(b))
       <==> Dropped(a, b) !! (others + Values(b))
  {
    var after := host + Dropped(b, a) - Dropped(a, b);
    var wanted := others + Values(b);
    assert Values(a) <= Values(b) + Dropped(a, b) by {
      forall x | x in Values(a) ensures x in Values(b) + Dropped(a, b) {
        var e :| e in a && a[e] == x;
        if e in b && b[e] == a[e] {
          assert b[e] in Values(b);
        } else {
          assert a[e] in Dropped(a, b);
        }
      }
    }
    assert Values(b) <= Values(a) + Dropped(b, a) by {
      forall x | x in Values(b) ensures x in Values(a) + Dropped(b, a) {
        var e :| e in b && b[e] == x;
        if e in a && a[e] == b[e] {
          assert a[e] in Values(a);
        } else {
          assert b[e] in Dropped(b, a);
        }
      }
    }
    assert Dropped(b, a) <= Values(b);
    assert after == wanted - Dropped(a, b);
  }

  // What the host holds after k of the commands that move it.
  ghost function HostAfter(host: set<Alias>, add: seq<Alias>, remove: seq<Alias>,
                           broken: set<Alias>, k: nat): set<Alias>
    requires k <= |add| + |remove|
  {
    Effects(host, Commands(add, remove)[..k], broken)
  }

  // One of the two aliases is there, however many commands have run.
  ghost predicate AlwaysAliased(host: set<Alias>, add: seq<Alias>, remove: seq<Alias>, broken: set<Alias>,
                                before: Alias, after: Alias) {
    forall k :: 0 <= k <= |add| + |remove| ==>
      before in HostAfter(host, add, remove, broken, k) || after in HostAfter(host, add, remove, broken, k)
  }

  // Can a peer lose its alias while the commands run? Not if its old one
  // cannot be removed; otherwise its new one must get there and stay.
  ghost predicate SafeAlias(host: set<Alias>, remove: set<Alias>, broken: set<Alias>, before: Alias, after: Alias) {
    before in broken || (if after in broken then after in host else after !in remove)
  }

  lemma {:induction false} SafeAliasSuffices(host: set<Alias>, add: seq<Alias>, remove: seq<Alias>,
                                             broken: set<Alias>, before: Alias, after: Alias)
    requires before in host && (before == after || after in Elements(add))
    requires SafeAlias(host, Elements(remove), broken, before, after)
    ensures AlwaysAliased(host, add, remove, broken, before, after)
  {
    forall k | 0 <= k <= |add| + |remove|
      ensures before in HostAfter(host, add, remove, broken, k) || after in HostAfter(host, add, remove, broken, k)
    {
      EffectsAfter(host, add, remove, broken, k);
      assert Elements(Take(remove, k - |add|)) <= Elements(remove);
      if k <= |add| {
        assert Take(remove, k - |add|) == [];
      } else {
        assert Take(add, k) == add;
      }
    }
  }

  /** While the commands run, any of which may fail, a peer that keeps an alias
      has its old or its new one at every moment, if and only if that is safe. */
  lemma {:induction false} NeverUnaliased(host: set<Alias>, oldInst: Instance, newInst: Instance,
                                          add: seq<Alias>, remove: seq<Alias>, broken: set<Alias>, e: string)
    requires e in Desired(oldInst) && e in Desired(newInst)
    requires Values(Desired(oldInst)) <= host
    requires Elements(add) == Dropped(Desired(newInst), Desired(oldInst))
    requires Elements(remove) == Dropped(Desired(oldInst), Desired(newInst))
    ensures var before, after := Desired(oldInst)[e], Desired(newInst)[e];
      AlwaysAliased(host, add, remove, broken, before, after) <==>
      SafeAlias(host, Elements(remove), broken, before, after)
  {
    var before, after := Desired(oldInst)[e], Desired(newInst)[e];
    assert before in Values(Desired(oldInst));
    assert before == after || (before in Elements(remove) && after in Elements(add));
    if SafeAlias(host, Elements(remove), broken, before, after) {
      SafeAliasSuffices(host, add, remove, broken, before, after);
    } else {
      var k := |add| + |remove|;
      EffectsAfter(host, add, remove, broken, k);
      assert Take(remove, k - |add|) == remove;
      var now := HostAfter(host, add, remove, broken, k);
      assert before !in now && after !in now;
    }
  }
}
