/** The AmneziaWG shapes shared by the manager, the IPv6 aliases and the
    port forwards (internal/amneziawg/types.go), with the fields those parts
    read. Parsed views replace the AllowedIPs: firstIPv4 and firstIPv6 are what
    FirstIPv4 and FirstIPv6 return for them. */
module AwgTypes {
  import opened Text

  datatype Peer = Peer(email: string, firstIPv4: string, firstIPv6: string, forwardedPorts: string)

  datatype Instance = Instance(
    id: int,
    mtu: int,
    s4: int,
    address: seq<string>,
    listenFP: string, // what normalizedListenFP makes of the listen address
    peers: seq<Peer>,
    externalInterface: string,
    ipv6Enabled: bool,
    ipv6ExternalInterface: string)

  // Go's zero Instance.
  const NO_INSTANCE := Instance(0, 0, 0, [], "", [], "", false, "")

  const DEFAULT_MTU := 1420

  // Go's min and max builtins, spelled out where the source uses them.
  function EffectiveMTU(configured: int, s4: int): (mtu: int)
    ensures configured <= 0 ==> 1280 <= mtu <= DEFAULT_MTU
  {
    if configured > 0 then configured
    else
      var headroom := DEFAULT_MTU - (if s4 > 0 then s4 else 0);
      if headroom > 1280 then headroom else 1280
  }

  /** Without a configured MTU, every byte of S4 junk takes one off the default,
      down to 1280. */
  lemma MtuLeavesRoom(configured: int, s4: int)
    ensures configured > 0 ==> EffectiveMTU(configured, s4) == configured
    ensures configured <= 0 && s4 <= 0 ==> EffectiveMTU(configured, s4) == 1420
    ensures configured <= 0 && 0 <= s4 <= 140 ==> EffectiveMTU(configured, s4) + s4 == 1420
    ensures configured <= 0 && s4 >= 140 ==> EffectiveMTU(configured, s4) == 1280
  {
  }

  function IntText(n: int): string {
    if n < 0 then "-" + Itoa(-n) else Itoa(n)
  }

  // The Bind and netstack identity that IpcSet cannot change.
  function AddressFingerprint(inst: Instance): string {
    IntText(EffectiveMTU(inst.mtu, inst.s4)) + "|" + Join(inst.address, ',') + "|" + inst.listenFP
  }

  // Addresses and listen values as the code accepts them: a prefix has
  // neither a comma nor a bar, and a parsed listen address has no bar.
  ghost predicate WellFormed(inst: Instance) {
    && inst.address != []
    && NoneContains(inst.address, ',') && NoneContains(inst.address, '|')
    && '|' !in inst.listenFP
  }

  lemma {:induction false} JoinLacks(parts: seq<string>, c: char, d: char)
    requires c != d && NoneContains(parts, c)
    ensures c !in Join(parts, d)
  {
    if |parts| > 1 {
      JoinLacks(parts[1..], c, d);
    }
  }

  lemma IntTextInjective(m: int, n: int)
    requires IntText(m) == IntText(n)
    ensures m == n
  {
    assert m >= 0 ==> IsDigit(IntText(m)[0]);
    assert n >= 0 ==> IsDigit(IntText(n)[0]);
    if m >= 0 && n >= 0 {
      ItoaInjective(m, n);
    } else if m < 0 && n < 0 {
      assert IntText(m)[1..] == Itoa(-m) && IntText(n)[1..] == Itoa(-n);
      ItoaInjective(-m, -n);
    } else {
      assert false;
    }
  }

  /** Two instances with one fingerprint need the same netstack: reusing the
      running device in place is never wrong about MTU, addresses or Bind. */
  lemma FingerprintFaithful(a: Instance, b: Instance)
    requires WellFormed(a) && WellFormed(b)
    ensures AddressFingerprint(a) == AddressFingerprint(b)
       <==> EffectiveMTU(a.mtu, a.s4) == EffectiveMTU(b.mtu, b.s4) && a.address == b.address && a.listenFP == b.listenFP
  {
    if AddressFingerprint(a) == AddressFingerprint(b) {
      var ma, mb := IntText(EffectiveMTU(a.mtu, a.s4)), IntText(EffectiveMTU(b.mtu, b.s4));
      var ja, jb := Join(a.address, ','), Join(b.address, ',');
      JoinLacks(a.address, '|', ',');
      JoinLacks(b.address, '|', ',');
      var ta, tb := ja + ['|'] + a.listenFP, jb + ['|'] + b.listenFP;
      assert AddressFingerprint(a) == ma + ['|'] + ta && AddressFingerprint(b) == mb + ['|'] + tb;
      CutJoined(ma, '|', ta);
      CutJoined(mb, '|', tb);
      CutJoined(ja, '|', a.listenFP);
      CutJoined(jb, '|', b.listenFP);
      IntTextInjective(EffectiveMTU(a.mtu, a.s4), EffectiveMTU(b.mtu, b.s4));
      JoinInjective(a.address, b.address, ',');
    }
  }
}
