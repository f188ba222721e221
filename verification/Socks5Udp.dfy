/** The SOCKS5 UDP datagram codec, section 7 of RFC 1928, as written twice in the
    repository: relay.go (sendTo, receive) on the inbound side and egress.go (the
    association reader and pumpUDPEgress) on the outbound side.

    Address types are 0x01 (IPv4), 0x03 (domain name) and 0x04 (IPv6). Resolving
    a domain is outside this model; parsing an address literal is a parameter. */
module Socks5Udp {
  import opened Int64
  import opened Text

  type uint16 = x: int | 0 <= x < 0x1_0000

  type Bytes4 = s: seq<byte> | |s| == 4 witness [0, 0, 0, 0]
  type Bytes16 = s: seq<byte> | |s| == 16 witness [0, 0, 0, 0, 0, 0, 0, 0, 0, 0, 0, 0, 0, 0, 0, 0]

  // netip.Addr: its zero value, an IPv4 address, or an IPv6 address with an
  // optional zone.
  datatype Addr = NoAddr | V4(v4: Bytes4) | V6(v6: Bytes16, zone: string)

  datatype AddrPort = AddrPort(addr: Addr, port: uint16)

  // netip.Addr.As16 for an address that is not IPv4.
  function As16(a: Addr): Bytes16
    requires !a.V4?
  {
    if a.V6? then a.v6 else [0, 0, 0, 0, 0, 0, 0, 0, 0, 0, 0, 0, 0, 0, 0, 0]
  }

  function PortBytes(p: uint16): seq<byte> {
    [p / 256, p % 256]
  }

  function PortOf(b: seq<byte>): uint16
    requires |b| >= 2
  {
    b[0] as int * 256 + b[1] as int
  }

  // -----------------------------------------------------------------------
  // Encoding
  // -----------------------------------------------------------------------

  function AddrBytes(a: Addr): seq<byte> {
    if a.V4? then [0x01] + a.v4 else [0x04] + As16(a)
  }

  // RSV RSV FRAG ATYP ADDR PORT DATA.
  function Datagram(dest: AddrPort, payload: seq<byte>): seq<byte> {
    [0x00, 0x00, 0x00] + AddrBytes(dest.addr) + PortBytes(dest.port) + payload
  }

  /** relay.go: wraps a payload for the SOCKS5 server. */
  method SendTo(dest: AddrPort, payload: seq<byte>) returns (hdr: seq<byte>)
    ensures hdr == Datagram(dest, payload)
  {
    hdr := [0x00, 0x00, 0x00];
    if dest.addr.V4? {
      hdr := hdr + [0x01];
      hdr := hdr + dest.addr.v4;
    } else {
      hdr := hdr + [0x04];
      hdr := hdr + As16(dest.addr);
    }
    hdr := hdr + PortBytes(dest.port);
    hdr := hdr + payload;
  }

  /** egress.go: wraps what a tunnel endpoint answered, n bytes of its buffer. */
  method PumpReply(dst: AddrPort, buf: seq<byte>, n: nat) returns (hdr: seq<byte>)
    requires n <= |buf|
    ensures hdr == Datagram(dst, buf[..n])
  {
    hdr := [0x00, 0x00, 0x00];
    if dst.addr.V4? {
      hdr := hdr + [0x01];
      hdr := hdr + dst.addr.v4;
    } else {
      hdr := hdr + [0x04];
      hdr := hdr + As16(dst.addr);
    }
    hdr := hdr + PortBytes(dst.port);
    hdr := hdr + buf[..n];
  }

  // -----------------------------------------------------------------------
  // Decoding: relay.go
  // -----------------------------------------------------------------------

  // The address at the head of b and what follows it.
  function SplitSocks5Addr(b: seq<byte>, atyp: byte, parse: seq<byte> -> Option<Addr>): Option<(Addr, seq<byte>)> {
    if atyp == 0x01 then
      if |b| < 4 then None else Some((V4(b[..4]), b[4..]))
    else if atyp == 0x04 then
      if |b| < 16 then None else Some((V6(b[..16], ""), b[16..]))
    else if atyp == 0x03 then
      if |b| < 1 || |b| < 1 + b[0] as int then None
      else
        var literal := parse(b[1..1 + b[0] as int]);
        if literal.None? then None else Some((literal.value, b[1 + b[0] as int..]))
    else None
  }

  datatype Received = Received(src: AddrPort, payload: seq<byte>)

  function Receive(data: seq<byte>, parse: seq<byte> -> Option<Addr>): Option<Received> {
    if |data| < 4 then None
    else
      var split := SplitSocks5Addr(data[4..], data[3], parse);
      if split.None? then None
      else
        var (addr, rest) := split.value;
        if |rest| < 2 then None
        else Some(Received(AddrPort(addr, PortOf(rest)), rest[2..]))
  }

  // -----------------------------------------------------------------------
  // Decoding: egress.go
  // -----------------------------------------------------------------------

  function AddrLen(atyp: byte): int {
    if atyp == 0x01 then 4 else if atyp == 0x04 then 16 else -1
  }

  function ParseDatagramHeader(hdr: seq<byte>): Option<AddrPort> {
    if |hdr| < 4 then None
    else
      var body := hdr[4..];
      if hdr[3] == 0x01 then
        if |body| < 6 then None else Some(AddrPort(V4(body[..4]), PortOf(body[4..6])))
      else if hdr[3] == 0x04 then
        if |body| < 18 then None else Some(AddrPort(V6(body[..16], ""), PortOf(body[16..18])))
      else None
  }

  datatype DomainHeader = DomainHeader(name: seq<byte>, port: uint16, hdrLen: nat)

  function ParseDatagramDomainHeader(data: seq<byte>): (r: Option<DomainHeader>)
    ensures r.Some? ==> r.value.hdrLen <= |data| && r.value.hdrLen == 7 + |r.value.name|
  {
    if |data| < 5 then None
    else
      var l: int := data[4];
      var hdrLen := 4 + 1 + l + 2;
      if l == 0 || |data| < hdrLen then None
      else Some(DomainHeader(data[5..5 + l], PortOf(data[5 + l..7 + l]), hdrLen))
  }

  // What the association reader does with one datagram from its client.
  datatype Delivery =
    | Ignored
    | ToAddr(dst: AddrPort, payload: seq<byte>)
    | ToDomain(name: seq<byte>, port: uint16, payload: seq<byte>)

  function ReadDatagram(data: seq<byte>): Delivery {
    if |data| < 4 then Ignored
    else if data[3] == 0x03 then
      match ParseDatagramDomainHeader(data)
      case None => Ignored
      case Some(h) => ToDomain(h.name, h.port, data[h.hdrLen..])
    else
      var hdrLen := 4 + AddrLen(data[3]) + 2;
      if hdrLen <= 6 || |data| < hdrLen then Ignored
      else match ParseDatagramHeader(data[..hdrLen])
        case None => Ignored
        case Some(dst) => ToAddr(dst, data[hdrLen..])
  }

  // -----------------------------------------------------------------------
  // Round trips
  // -----------------------------------------------------------------------

  lemma PortRoundTrip(p: uint16)
    ensures PortOf(PortBytes(p)) == p
  {
  }

  // What the wire format can carry of an address.
  function OnWire(a: Addr): Addr {
    if a.V4? then a else V6(As16(a), "")
  }

  // A header of four, an address, two bytes of port and the rest.
  lemma PartsOf<T>(header: seq<T>, addr: seq<T>, port: seq<T>, payload: seq<T>)
    requires |header| == 4 && |port| == 2
    ensures var d, n := header + addr + port + payload, |addr|;
      && |d| == 6 + n + |payload| && d[..4] == header
      && d[4..][..n] == addr && d[4..][n..][..2] == port && d[4..][n..][2..] == payload
  {
    var d, body := header + addr + port + payload, addr + port + payload;
    assert d == header + body && d[4..] == body;
    assert body == addr + (port + payload) && body[|addr|..] == port + payload;
  }

  function AddrBody(a: Addr): seq<byte> {
    if a.V4? then a.v4 else As16(a)
  }

  lemma DatagramParts(dest: AddrPort, payload: seq<byte>)
    ensures var d, n := Datagram(dest, payload), if dest.addr.V4? then 4 else 16;
      && |d| == 6 + n + |payload|
      && d[3] == (if dest.addr.V4? then 0x01 else 0x04)
      && d[4..][..n] == AddrBody(dest.addr)
      && d[4..][n..][..2] == PortBytes(dest.port)
      && d[4..][n..][2..] == payload
  {
    var header: seq<byte> := [0x00, 0x00, 0x00] + [if dest.addr.V4? then 0x01 else 0x04];
    PartsOf(header, AddrBody(dest.addr), PortBytes(dest.port), payload);
    DatagramHeader(dest, payload, header);
    assert header[3] == Datagram(dest, payload)[..4][3];
  }

  /** Byte for byte: no fragment, the type, the address as it is, the port with
      its high byte first, and the payload. */
  lemma NetworkOrder(dest: AddrPort, payload: seq<byte>)
    ensures var d, n := Datagram(dest, payload), if dest.addr.V4? then 4 else 16;
      && |d| == 6 + n + |payload| && d[0] == d[1] == d[2] == 0
      && d[3] == (if dest.addr.V4? then 0x01 else 0x04)
      && (dest.addr.V4? ==> d[4..8] == dest.addr.v4) && (dest.addr.V6? ==> d[4..20] == dest.addr.v6)
      && dest.port == 256 * d[4 + n] as int + d[5 + n] as int
      && d[6 + n..] == payload
  {
    DatagramParts(dest, payload);
    var d, n := Datagram(dest, payload), if dest.addr.V4? then 4 else 16;
    assert d[4..][n..] == d[4 + n..] && d[4..][n..][2..] == d[6 + n..] && d[4..][..n] == d[4..4 + n];
    assert d[4 + n] == d[4..][n..][..2][0] && d[5 + n] == d[4..][n..][..2][1];
    PortSplit(dest.port);
  }

  lemma PortSplit(p: uint16)
    ensures |PortBytes(p)| == 2 && p == 256 * PortBytes(p)[0] as int + PortBytes(p)[1] as int
  {
  }

  lemma DatagramHeader(dest: AddrPort, payload: seq<byte>, header: seq<byte>)
    requires header == [0x00, 0x00, 0x00] + [if dest.addr.V4? then 0x01 else 0x04]
    ensures Datagram(dest, payload) == header + AddrBody(dest.addr) + PortBytes(dest.port) + payload
  {
    var head := AddrBytes(dest.addr);
    assert head == [header[3]] + AddrBody(dest.addr);
    assert [0x00, 0x00, 0x00] + head == header + AddrBody(dest.addr);
  }

  /** Either decoder recovers from either encoder's output the port, the payload
      and everything of the address that the format can carry. */
  lemma RoundTrip(dest: AddrPort, payload: seq<byte>, parse: seq<byte> -> Option<Addr>)
    ensures Receive(Datagram(dest, payload), parse) == Some(Received(AddrPort(OnWire(dest.addr), dest.port), payload))
    ensures ReadDatagram(Datagram(dest, payload)) == ToAddr(AddrPort(OnWire(dest.addr), dest.port), payload)
  {
    var d, n := Datagram(dest, payload), if dest.addr.V4? then 4 else 16;
    DatagramParts(dest, payload);
    PortRoundTrip(dest.port);
    var rest := d[4..][n..];
    assert rest[..2] == PortBytes(dest.port) && PortOf(rest) == PortOf(rest[..2]);
    DecodersAgree(d, parse);
  }

  /** So an address survives the trip exactly when it is a real address without
      a zone: every IPv4 and every plain IPv6 address does. */
  lemma RoundTripExact(dest: AddrPort, payload: seq<byte>, parse: seq<byte> -> Option<Addr>)
    ensures Receive(Datagram(dest, payload), parse) == Some(Received(dest, payload))
       <==> dest.addr.V4? || (dest.addr.V6? && dest.addr.zone == "")
    ensures ReadDatagram(Datagram(dest, payload)) == ToAddr(dest, payload)
       <==> dest.addr.V4? || (dest.addr.V6? && dest.addr.zone == "")
  {
    RoundTrip(dest, payload, parse);
  }

  // -----------------------------------------------------------------------
  // Arbitrary datagrams
  // -----------------------------------------------------------------------

  // Cutting the header off first or last gives the same pieces.
  lemma HeaderSlices<T>(data: seq<T>, n: nat)
    requires |data| >= 6 + n
    ensures data[..6 + n][4..][..n] == data[4..][..n]
    ensures data[..6 + n][4..][n..n + 2] == data[4..][n..][..2]
    ensures data[6 + n..] == data[4..][n..][2..]
  {
    var body := data[..6 + n][4..];
    assert body == data[4..6 + n];
    assert forall i | 0 <= i < n + 2 :: body[i] == data[4 + i];
  }

  /** On every byte string that does not claim a domain, the two decoders agree:
      both reject it, or both read the same address, port and payload. */
  lemma DecodersAgree(data: seq<byte>, parse: seq<byte> -> Option<Addr>)
    requires |data| < 4 || data[3] != 0x03
    ensures match Receive(data, parse)
      case None => ReadDatagram(data) == Ignored
      case Some(r) => ReadDatagram(data) == ToAddr(r.src, r.payload)
  {
    if |data| >= 4 && (data[3] == 0x01 || data[3] == 0x04) {
      var n := AddrLen(data[3]);
      var hdrLen := 4 + n + 2;
      if |data| >= hdrLen {
        HeaderSlices(data, n);
      }
    }
  }

  // By type and length, a datagram the relay can take apart: a domain must
  // hold an address literal.
  ghost predicate RelayShape(data: seq<byte>, parse: seq<byte> -> Option<Addr>)
    requires |data| >= 4
  {
    || (data[3] == 0x01 && |data| >= 10)
    || (data[3] == 0x04 && |data| >= 22)
    || (data[3] == 0x03 && |data| >= 5 && |data| >= 7 + data[4] as int && parse(data[5..5 + data[4] as int]).Some?)
  }

  // Likewise for the egress: a domain must have a name.
  ghost predicate EgressShape(data: seq<byte>)
    requires |data| >= 4
  {
    || (data[3] == 0x01 && |data| >= 10)
    || (data[3] == 0x04 && |data| >= 22)
    || (data[3] == 0x03 && |data| >= 5 && data[4] > 0 && |data| >= 7 + data[4] as int)
  }

  /** Exactly which byte strings each decoder accepts; shorter ones are rejected. */
  lemma AcceptedIff(data: seq<byte>, parse: seq<byte> -> Option<Addr>)
    ensures Receive(data, parse).Some? <==> |data| >= 4 && RelayShape(data, parse)
    ensures ReadDatagram(data) != Ignored <==> |data| >= 4 && EgressShape(data)
  {
    if |data| >= 5 && data[3] == 0x03 && |data| >= 5 + data[4] as int {
      assert data[4..][1..1 + data[4] as int] == data[5..5 + data[4] as int];
    }
  }

  /** Decoding loses only the three header bytes it never looks at: encoding the
      result again gives the datagram with RSV and FRAG zeroed. */
  lemma ReencodeExact(data: seq<byte>, parse: seq<byte> -> Option<Addr>)
    requires |data| >= 4 && data[3] != 0x03 && Receive(data, parse).Some?
    ensures var r := Receive(data, parse).value;
      && Datagram(r.src, r.payload) == [0x00, 0x00, 0x00] + data[3..]
      && (Datagram(r.src, r.payload) == data <==> data[..3] == [0x00, 0x00, 0x00])
  {
    var r := Receive(data, parse).value;
    var n := AddrLen(data[3]);
    var rest := data[4..][n..];
    assert PortBytes(r.src.port) == rest[..2];
    assert data[3..] == [data[3]] + data[4..][..n] + rest[..2] + rest[2..];
    var again := Datagram(r.src, r.payload);
    assert again == [0x00, 0x00, 0x00] + data[3..];
    assert again[..3] == [0x00, 0x00, 0x00] && again[3..] == data[3..];
    assert data == data[..3] + data[3..];
  }

  // A domain datagram as a client writes it.
  function DomainDatagram(name: seq<byte>, port: uint16, payload: seq<byte>): seq<byte>
    requires |name| < 256
  {
    [0x00, 0x00, 0x00, 0x03, |name|] + name + PortBytes(port) + payload
  }

  // A header of five, a name, two bytes of port and the rest.
  lemma DomainParts<T>(header: seq<T>, name: seq<T>, port: seq<T>, payload: seq<T>)
    requires |header| == 5 && |port| == 2
    ensures var d, l := header + name + port + payload, |name|;
      && |d| == 7 + l + |payload| && d[..5] == header && d[3] == header[3] && d[4] == header[4]
      && d[5..5 + l] == name && d[5 + l..7 + l] == port && d[7 + l..] == payload
      && d[4..][0] == header[4] && d[4..][1..1 + l] == name
      && d[4..][1 + l..][..2] == port && d[4..][1 + l..][2..] == payload
  {
    var d, l := header + name + port + payload, |name|;
    PartsOf(header[..4], [header[4]] + name, port, payload);
    assert d == header[..4] + ([header[4]] + name) + port + payload;
    var tail := d[4..];
    assert tail[..1 + l] == [header[4]] + name && tail[1..1 + l] == tail[..1 + l][1..];
    assert d[5..5 + l] == tail[1..1 + l] && d[5 + l..7 + l] == tail[1 + l..][..2] && d[7 + l..] == tail[1 + l..][2..];
  }

  /** Read back by the egress as a name to resolve, unless it is empty, and by
      the relay as the address it is a literal of, if it is one. */
  lemma DomainRoundTrip(name: seq<byte>, port: uint16, payload: seq<byte>, parse: seq<byte> -> Option<Addr>)
    requires |name| < 256
    ensures ReadDatagram(DomainDatagram(name, port, payload))
         == if name == [] then Ignored else ToDomain(name, port, payload)
    ensures Receive(DomainDatagram(name, port, payload), parse)
         == if parse(name).None? then None else Some(Received(AddrPort(parse(name).value, port), payload))
  {
    var d, l := DomainDatagram(name, port, payload), |name|;
    DomainParts([0x00, 0x00, 0x00, 0x03, l], name, PortBytes(port), payload);
    assert d == [0x00, 0x00, 0x00, 0x03, l] + name + PortBytes(port) + payload;
    PortRoundTrip(port);
    assert PortOf(d[4..][1 + l..]) == PortOf(d[4..][1 + l..][..2]);
  }

  // -----------------------------------------------------------------------
  // Fragments
  // -----------------------------------------------------------------------

  /** Neither decoder looks at FRAG, on any byte string: whatever stands there, it
      returns the same. */
  lemma FragIsIgnored(data: seq<byte>, frag: byte, parse: seq<byte> -> Option<Addr>)
    requires |data| >= 4
    ensures Receive(data[2 := frag], parse) == Receive(data, parse)
    ensures ReadDatagram(data[2 := frag]) == ReadDatagram(data)
  {
    var d := data[2 := frag];
    assert d[3] == data[3] && d[4..] == data[4..];
    if data[3] == 0x03 {
      SameTails(d, data);
    } else {
      DecodersAgree(d, parse);
      DecodersAgree(data, parse);
    }
  }

  lemma SameTails<T>(d: seq<T>, data: seq<T>)
    requires |d| == |data| >= 4 && d[4..] == data[4..]
    ensures |d| >= 5 ==> d[4] == data[4]
    ensures forall i, j :: 4 <= i <= j <= |d| ==> d[i..j] == data[i..j]
    ensures forall i :: 4 <= i <= |d| ==> d[i..] == data[i..]
  {
    assert forall k :: 4 <= k < |d| ==> d[k] == d[4..][k - 4] && data[k] == data[4..][k - 4];
  }

  /** Section 7 of RFC 1928 has an implementation without reassembly drop every
      fragment. The decoders keep that rule exactly on the datagrams that are
      not fragments and on those their type and length reject anyway. */
  lemma FragmentRuleIff(data: seq<byte>, parse: seq<byte> -> Option<Addr>)
    requires |data| >= 4
    ensures (Receive(data, parse).Some? ==> data[2] == 0) <==> data[2] == 0 || !RelayShape(data, parse)
    ensures (ReadDatagram(data) != Ignored ==> data[2] == 0) <==> data[2] == 0 || !EgressShape(data)
  {
    AcceptedIff(data, parse);
  }

  // So every datagram of either encoder, made a fragment, is still taken whole.
  lemma FragmentsAreNotDropped(dest: AddrPort, payload: seq<byte>, frag: byte, parse: seq<byte> -> Option<Addr>)
    ensures var d := Datagram(dest, payload)[2 := frag];
      && Receive(d, parse) == Some(Received(AddrPort(OnWire(dest.addr), dest.port), payload))
      && ReadDatagram(d) == ToAddr(AddrPort(OnWire(dest.addr), dest.port), payload)
  {
    RoundTrip(dest, payload, parse);
    FragIsIgnored(Datagram(dest, payload), frag, parse);
  }
}
