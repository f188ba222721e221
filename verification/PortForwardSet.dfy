/** The port-forward supervisor of one embedded interface
    (internal/amneziawgnet/portfwd.go): which listeners an instance wants, who
    owns a port, and the reconcile that opens and closes real sockets.

    A bind fails when a listener of this very set has the socket, or for reasons
    of its own, attempt by attempt; the sockets are an environment object listing
    what is open. */
module PortForwardSet {
  import opened Collections
  import opened Text
  import opened AwgTypes
  import opened ForwardedPorts

  datatype Proto = Tcp | Udp

  datatype Key = Key(email: string, port: nat, proto: Proto)

  // -----------------------------------------------------------------------
  // What an instance wants
  // -----------------------------------------------------------------------

  // The peer's tunnel-internal address: v4 first, v6 only when enabled.
  function TargetOf(p: Peer, ipv6Enabled: bool): string {
    if p.firstIPv4 != "" then p.firstIPv4
    else if ipv6Enabled then p.firstIPv6
    else ""
  }

  function PeerTargets(peers: seq<Peer>, ipv6Enabled: bool): map<string, string> {
    if peers == [] then map[]
    else
      var before := PeerTargets(peers[..|peers| - 1], ipv6Enabled);
      var p := peers[|peers| - 1];
      if p.email == "" || TargetOf(p, ipv6Enabled) == "" then before
      else before[p.email := TargetOf(p, ipv6Enabled)]
  }

  function Targets(inst: Instance): map<string, string> {
    PeerTargets(inst.peers, inst.ipv6Enabled)
  }

  method DesiredPeerTargets(inst: Instance) returns (out: map<string, string>)
    ensures out == Targets(inst)
  {
    out := map[];
    for i := 0 to |inst.peers|
      invariant out == PeerTargets(inst.peers[..i], inst.ipv6Enabled)
    {
      assert inst.peers[..i + 1][..i] == inst.peers[..i];
      var p := inst.peers[i];
      if p.email == "" {
        continue;
      }
      var raw := p.firstIPv4;
      if raw == "" && inst.ipv6Enabled {
        raw := p.firstIPv6;
      }
      if raw == "" {
        continue;
      }
      out := out[p.email := raw];
    }
    assert inst.peers[..|inst.peers|] == inst.peers;
  }

  // An IPv4 address, or an IPv6 address that may be used.
  ghost predicate Reachable(p: Peer, ipv6Enabled: bool) {
    p.firstIPv4 != "" || (ipv6Enabled && p.firstIPv6 != "")
  }

  ghost function AddressOf(p: Peer): string {
    if p.firstIPv4 != "" then p.firstIPv4 else p.firstIPv6
  }

  lemma {:induction false} TargetsFilled(peers: seq<Peer>, ipv6Enabled: bool, e: string)
    requires e != ""
    ensures var filled := Filled(peers, (p: Peer) => p.email == e && Reachable(p, ipv6Enabled), AddressOf);
      if filled.Nothing? then e !in PeerTargets(peers, ipv6Enabled)
      else e in PeerTargets(peers, ipv6Enabled) && PeerTargets(peers, ipv6Enabled)[e] == filled.value
  {
    if peers != [] {
      TargetsFilled(peers[..|peers| - 1], ipv6Enabled, e);
    }
  }

  lemma {:induction false} NoTargetUnnamed(peers: seq<Peer>, ipv6Enabled: bool)
    ensures "" !in PeerTargets(peers, ipv6Enabled)
  {
    if peers != [] {
      NoTargetUnnamed(peers[..|peers| - 1], ipv6Enabled);
    }
  }

  /** A target is known exactly for an email with a reachable peer: it is the
      IPv4 address of the last such peer, and its IPv6 address only if it has
      no other. */
  lemma {:induction false} TargetsOfPeers(inst: Instance, e: string) returns (i: int)
    ensures IsLast(inst.peers, (p: Peer) => p.email == e && Reachable(p, inst.ipv6Enabled), i)
    ensures e in Targets(inst) <==> e != "" && i >= 0
    ensures e in Targets(inst) ==> Targets(inst)[e] == AddressOf(inst.peers[i])
  {
    i := FilledIsLast(inst.peers, (p: Peer) => p.email == e && Reachable(p, inst.ipv6Enabled), AddressOf);
    if e == "" {
      NoTargetUnnamed(inst.peers, inst.ipv6Enabled);
    } else {
      TargetsFilled(inst.peers, inst.ipv6Enabled, e);
    }
  }

  // A host listener needs an email, a port spec and a resolvable target.
  predicate Forwards(p: Peer, targets: map<string, string>) {
    p.email != "" && p.forwardedPorts != "" && p.email in targets
  }

  ghost predicate Wants(inst: Instance, k: Key) {
    exists p :: p in inst.peers && Forwards(p, Targets(inst)) && Provides(p, k)
  }

  ghost predicate Provides(p: Peer, k: Key) {
    p.email == k.email && k.port in PortsOf(p)
  }

  // What ExpandForwardedPorts lists for the peer.
  function PortsOf(p: Peer): seq<nat> {
    Expansion(p.forwardedPorts, MAX_FORWARDED_PORTS)
  }

  /** A peer provides only ports its text names, and all of them when they are
      no more than the cap. */
  lemma ProvidedPorts(p: Peer, k: Key)
    requires p.email == k.email
    ensures Provides(p, k) ==> k.port in Covered(p.forwardedPorts)
    ensures |Covered(p.forwardedPorts)| <= MAX_FORWARDED_PORTS && k.port in Covered(p.forwardedPorts) ==> Provides(p, k)
  {
    ExpansionIsCapped(p.forwardedPorts, MAX_FORWARDED_PORTS);
  }

  method ForwardingPeers(inst: Instance) returns (out: seq<Peer>)
    ensures AreForwarding(inst, out)
  {
    var targets := DesiredPeerTargets(inst);
    out := [];
    for i := 0 to |inst.peers|
      invariant forall p :: p in out <==> p in inst.peers[..i] && Forwards(p, Targets(inst))
    {
      var p := inst.peers[i];
      assert inst.peers[..i + 1] == inst.peers[..i] + [p];
      if p.email == "" || p.forwardedPorts == "" {
        continue;
      }
      if p.email !in targets {
        continue;
      }
      out := out + [p];
    }
    assert inst.peers[..|inst.peers|] == inst.peers;
  }

  ghost predicate AreForwarding(inst: Instance, peers: seq<Peer>) {
    forall p :: p in peers <==> p in inst.peers && Forwards(p, Targets(inst))
  }

  lemma WantsFrom(inst: Instance, peers: seq<Peer>, k: Key)
    requires AreForwarding(inst, peers)
    ensures Wants(inst, k) <==> exists j :: 0 <= j < |peers| && Provides(peers[j], k)
  {
    if Wants(inst, k) {
      var p :| p in inst.peers && Forwards(p, Targets(inst)) && Provides(p, k);
      assert p in peers;
      var j :| 0 <= j < |peers| && peers[j] == p;
      assert Provides(peers[j], k);
    }
    if j :| 0 <= j < |peers| && Provides(peers[j], k) {
      assert peers[j] in peers;
    }
  }

  // One TCP and one UDP key per forwarded port of a peer.
  method AddKeys(keys: set<Key>, email: string, ports: seq<nat>) returns (out: set<Key>)
    ensures forall k :: k in out <==> k in keys || (k.email == email && k.port in ports)
  {
    out := keys;
    for i := 0 to |ports|
      invariant forall k :: k in out <==> k in keys || (k.email == email && k.port in ports[..i])
    {
      out := out + {Key(email, ports[i], Tcp), Key(email, ports[i], Udp)};
      assert ports[..i + 1] == ports[..i] + [ports[i]];
      assert forall k: Key :: k.proto == Tcp || k.proto == Udp;
    }
    assert ports[..|ports|] == ports;
  }

  ghost function KeysFor(p: Peer): set<Key> {
    (set port | port in PortsOf(p) :: Key(p.email, port, Tcp)) +
    (set port | port in PortsOf(p) :: Key(p.email, port, Udp))
  }

  lemma KeysForProvides(p: Peer, k: Key)
    ensures k in KeysFor(p) <==> Provides(p, k)
  {
    assert k.proto == Tcp || k.proto == Udp;
    assert k == Key(k.email, k.port, k.proto);
  }

  lemma KeysWanted(inst: Instance, peers: seq<Peer>, k: Key)
    requires AreForwarding(inst, peers)
    ensures k in UnionOf(peers, KeysFor) <==> Wants(inst, k)
  {
    UnionMembers(peers, KeysFor, k);
    WantsFrom(inst, peers, k);
    forall j | 0 <= j < |peers| ensures k in KeysFor(peers[j]) <==> Provides(peers[j], k) {
      KeysForProvides(peers[j], k);
    }
  }

  method AddPeer(keys: set<Key>, p: Peer) returns (out: set<Key>)
    ensures out == keys + KeysFor(p)
  {
    var ports := ExpandForwardedPorts(p.forwardedPorts);
    out := AddKeys(keys, p.email, ports);
    forall k ensures k in out <==> k in keys + KeysFor(p) {
      KeysForProvides(p, k);
    }
  }

  method DesiredPortForwardKeys(inst: Instance) returns (out: set<Key>)
    ensures forall k :: k in out <==> Wants(inst, k)
  {
    out := {};
    var peers := ForwardingPeers(inst);
    for i := 0 to |peers|
      invariant out == UnionOf(peers[..i], KeysFor)
    {
      out := AddPeer(out, peers[i]);
      UnionNext(peers, KeysFor, i);
    }
    assert peers[..|peers|] == peers;
    forall k ensures k in out <==> Wants(inst, k) {
      KeysWanted(inst, peers, k);
    }
  }

  method Lists(p: Peer, port: nat) returns (listed: bool)
    ensures listed ==> Key(p.email, port, Tcp) in KeysFor(p) && Key(p.email, port, Udp) in KeysFor(p)
    ensures !listed ==> forall k :: k in KeysFor(p) ==> k.port != port
  {
    var ports := ExpandForwardedPorts(p.forwardedPorts);
    listed := port in ports;
  }

  lemma OwnerWants(inst: Instance, peers: seq<Peer>, i: nat, k: Key)
    requires AreForwarding(inst, peers) && i < |peers| && k in KeysFor(peers[i])
    ensures Wants(inst, k)
  {
    KeysWanted(inst, peers, k);
    UnionMembers(peers, KeysFor, k);
  }

  /** Names the peer that forwards a port; it finds one exactly when some
      wanted listener uses the port, and then names an owner of one. */
  method ForwardedPortOwner(inst: Instance, port: nat) returns (email: string, found: bool)
    ensures found <==> exists k :: Wants(inst, k) && k.port == port
    ensures found ==> Wants(inst, Key(email, port, Tcp)) && Wants(inst, Key(email, port, Udp))
  {
    var peers := ForwardingPeers(inst);
    for i := 0 to |peers|
      invariant forall k :: k in UnionOf(peers[..i], KeysFor) ==> k.port != port
    {
      UnionNext(peers, KeysFor, i);
      var listed := Lists(peers[i], port);
      if listed {
        email, found := peers[i].email, true;
        OwnerWants(inst, peers, i, Key(email, port, Tcp));
        OwnerWants(inst, peers, i, Key(email, port, Udp));
        return;
      }
    }
    assert peers[..|peers|] == peers;
    forall k | Wants(inst, k) ensures k.port != port {
      KeysWanted(inst, peers, k);
    }
    return "", false;
  }

  // -----------------------------------------------------------------------
  // The supervisor
  // -----------------------------------------------------------------------

  datatype Socket = Socket(port: nat, proto: Proto)

  function SocketOf(k: Key): Socket {
    Socket(k.port, k.proto)
  }

  class PortForwards {
    var peerTargets: map<string, string>
    var listeners: map<Key, nat>
    // The host's open listeners, by identity, and the next identity.
    var open: map<nat, Key>
    var next: nat

    /** Every open listener is recorded exactly once, under its own key, and no
        two of them hold the same socket. */
    ghost predicate Valid()
      reads this
    {
      && (forall k :: k in listeners ==> listeners[k] in open && open[listeners[k]] == k)
      && (forall id :: id in open ==> open[id] in listeners && listeners[open[id]] == id)
      && (forall id :: id in open ==> id < next)
      && (forall k, l :: k in listeners && l in listeners && k != l ==> SocketOf(k) != SocketOf(l))
    }

    /** In line with an instance: what is open is wanted and has a target. */
    ghost predicate Serves(inst: Instance)
      reads this
    {
      && peerTargets == Targets(inst)
      && forall k :: k in listeners ==> Wants(inst, k) && k.email in peerTargets
    }

    constructor ()
      ensures Valid() && listeners == map[] && peerTargets == map[] && open == map[]
    {
      peerTargets, listeners, open, next := map[], map[], map[], 0;
    }

    method CloseListener(k: Key)
      requires Valid() && k in listeners
      modifies this
      ensures Valid() && listeners == old(listeners) - {k} && open == old(open) - {old(listeners[k])}
      ensures next == old(next) && peerTargets == old(peerTargets)
    {
      open := open - {listeners[k]};
      listeners := listeners - {k};
    }

    predicate InUse(sock: Socket)
      reads this
    {
      exists k :: k in listeners && SocketOf(k) == sock
    }

    // Binds unless this attempt is refused or another listener holds the socket.
    method OpenListener(k: Key, refused: set<Key>)
      requires Valid() && k !in listeners
      modifies this
      ensures Valid() && peerTargets == old(peerTargets) && next >= old(next)
      ensures if k in refused || old(InUse(SocketOf(k)))
              then listeners == old(listeners)
              else listeners == old(listeners)[k := old(next)]
    {
      if k in refused || InUse(SocketOf(k)) {
        return;
      }
      listeners := listeners[k := next];
      open := open[next := k];
      next := next + 1;
    }

    /** Closes what is no longer wanted, then tries once to open each that is
        missing. Listeners still wanted keep their identity, whatever binds are
        refused; and the socket of every wanted key that was not ends up served. */
    method Reconcile(inst: Instance, refused: set<Key>)
      requires Valid()
      modifies this
      ensures Valid() && Serves(inst)
      ensures forall k :: k in old(listeners) && Wants(inst, k) ==> k in listeners && listeners[k] == old(listeners[k])
      ensures forall k :: k in listeners && k !in old(listeners) ==> listeners[k] >= old(next) && k !in refused
      ensures forall k :: Wants(inst, k) && k !in refused ==> InUse(SocketOf(k))
    {
      var wantTargets := DesiredPeerTargets(inst);
      var wantKeys := DesiredPortForwardKeys(inst);
      peerTargets := wantTargets;
      CloseUnwanted(wantKeys);
      OpenMissing(wantKeys, refused);
      forall k | k in listeners ensures Wants(inst, k) && k.email in peerTargets {
        assert k in wantKeys;
      }
    }

    method OpenMissing(wantKeys: set<Key>, refused: set<Key>)
      requires Valid() && listeners.Keys <= wantKeys
      modifies this
      ensures Valid() && peerTargets == old(peerTargets) && listeners.Keys <= wantKeys
      ensures forall k :: k in old(listeners) ==> k in listeners && listeners[k] == old(listeners[k])
      ensures forall k :: k in listeners && k !in old(listeners) ==> listeners[k] >= old(next) && k !in refused
      ensures forall k :: k in wantKeys && k !in refused ==> InUse(SocketOf(k))
    {
      var toOpen := wantKeys - listeners.Keys;
      while toOpen != {}
        invariant Valid() && toOpen <= wantKeys && peerTargets == old(peerTargets)
        invariant toOpen !! listeners.Keys && listeners.Keys <= wantKeys
        invariant next >= old(next)
        invariant forall k :: k in old(listeners) ==> k in listeners && listeners[k] == old(listeners[k])
        invariant forall k :: k in listeners && k !in old(listeners) ==> listeners[k] >= old(next) && k !in refused
        invariant forall k :: k in wantKeys && k !in toOpen && k !in refused ==> InUse(SocketOf(k))
        decreases toOpen
      {
        var k :| k in toOpen;
        ghost var before := listeners;
        OpenListener(k, refused);
        toOpen := toOpen - {k};
        forall l | l in before ensures InUse(SocketOf(l)) {
          assert l in listeners;
        }
        assert k in listeners ==> InUse(SocketOf(k));
      }
    }

    method CloseUnwanted(wantKeys: set<Key>)
      requires Valid()
      modifies this
      ensures Valid() && next == old(next) && peerTargets == old(peerTargets)
      ensures listeners == map k | k in old(listeners) && k in wantKeys :: old(listeners)[k]
    {
      var pending := listeners.Keys;
      while pending != {}
        invariant Valid() && next == old(next) && peerTargets == old(peerTargets)
        invariant pending <= listeners.Keys
        invariant listeners == map k | k in old(listeners) && (k in wantKeys || k in pending) :: old(listeners)[k]
        decreases pending
      {
        var k :| k in pending;
        if k !in wantKeys {
          CloseListener(k);
        }
        pending := pending - {k};
      }
    }

    // Leaves nothing open.
    method Close()
      requires Valid()
      modifies this
      ensures Valid() && listeners == map[] && open == map[] && peerTargets == old(peerTargets)
    {
      CloseUnwanted({});
      assert listeners == map[];
      assert open.Keys == {};
    }
  }
}
