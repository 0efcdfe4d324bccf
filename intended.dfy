/** The encoder Header.WriteTo is evidently meant to be: the inverse of
    Header.ReadFrom. It writes one address block (protocol byte, big-endian
    length, payload) instead of two, the ports big-endian, and IPv4
    addresses in their 4-byte form whatever width they are held in. A LOCAL
    header without an address carries protocol byte 0 (UNSPEC, UNSPEC). */
module IntendedEncoding {
  import opened Wire
  import opened Streams
  import opened Version
  import opened Address
  import opened ProxyHeader
  import opened HeaderProperties

  /** The addresses the encoder can lay out: the IP variants need TCP or
      UDP endpoints to take a port from. */
  predicate Encodable(a: ProxyAddress)
  {
    match a
    case IPv4Address(src, dst) => !src.Unix? && !dst.Unix?
    case IPv6Address(src, dst) => !src.Unix? && !dst.Unix?
    case UnixAddr(_, _) => true
  }

  /** An IPv4 address as its 4 bytes: Go keeps IPv4 addresses either in 4
      bytes or in the last 4 of 16 (::ffff:a.b.c.d). */
  function IPv4Form(ip: seq<byte>): (b: seq<byte>)
    ensures |ip| == 16 ==> b == ip[12..]
    ensures |ip| != 16 ==> b == ip
  {
    if |ip| == 16 then ip[12..] else ip
  }

  /** The addresses a header can carry without loss, which are also the
      ones the decoder builds (see DecodedCanonical): both endpoints of the
      same kind, 4-byte IPs for IPv4 and 16-byte IPs for IPv6, ports that
      fit 16 bits, and two 108-byte Unix paths of a stream socket. */
  predicate Canonical(a: ProxyAddress)
  {
    match a
    case IPv4Address(src, dst) => SameKind(src, dst) && |src.ip| == 4 && |dst.ip| == 4 && FitPorts(src, dst)
    case IPv6Address(src, dst) => SameKind(src, dst) && |src.ip| == 16 && |dst.ip| == 16 && FitPorts(src, dst)
    case UnixAddr(src, dst) =>
      |src.name| == 108 && |dst.name| == 108 && src.net == "unixpacket" && dst.net == "unixpacket"
  }

  predicate SameKind(src: NetAddr, dst: NetAddr)
  {
    (src.TCP? && dst.TCP?) || (src.UDP? && dst.UDP?)
  }

  predicate FitPorts(src: NetAddr, dst: NetAddr)
    requires !src.Unix? && !dst.Unix?
  {
    0 <= src.port < 65536 && 0 <= dst.port < 65536
  }

  /** The payload of the address block. */
  function Payload(a: ProxyAddress): seq<byte>
    requires Encodable(a)
  {
    match a
    case IPv4Address(src, dst) => IPv4Form(src.ip) + IPv4Form(dst.ip) + BE16(Port(src)) + BE16(Port(dst))
    case IPv6Address(src, dst) => src.ip + dst.ip + BE16(Port(src)) + BE16(Port(dst))
    case UnixAddr(src, dst) => AddressBytes(Unix(src)) + AddressBytes(Unix(dst))
  }

  /** The header: signature, version/command byte, protocol byte, the
      length of the payload, and for PROXY the payload itself. */
  function Encode(command: byte, address: Option<ProxyAddress>): seq<byte>
    requires command == CommandPROXY ==> address.Some? && Encodable(address.value)
  {
    var protocol: byte := if address.Some? then Signature(address.value) else 0;
    var block := if command == CommandPROXY then Payload(address.value) else [];
    ProtocolSignature + [Join(ProtocolVersion, command)] + [protocol] + BE16(|block|) + block
  }

  /** A canonical address's payload has the length its variant announces,
      which is the size the decoder reads for its pair. */
  lemma PayloadLength(a: ProxyAddress)
    requires Canonical(a)
    ensures Encodable(a) && |Payload(a)| == Length(a) == PayloadSize(Family(a))
    ensures Recognized(Family(a), Transport(a))
  {
  }

  /** The decoder's Build undoes Payload on canonical addresses. */
  lemma BuildPayload(a: ProxyAddress)
    requires Canonical(a)
    ensures Build(Family(a), Transport(a), Payload(a)) == a
  {
    PayloadLength(a);
    var b := Payload(a);
    match a
    case IPv4Address(src, dst) =>
      var r := SplitIPsAndPorts(b, 4);
      assert b == src.ip + dst.ip + BE16(src.port) + BE16(dst.port);
      assert r.sourceIP == b[..4] == src.ip;
      assert r.destinationIP == b[4..8] == dst.ip;
      assert b[8..10] == BE16(src.port) && b[10..] == BE16(dst.port);
    case IPv6Address(src, dst) =>
      var r := SplitIPsAndPorts(b, 16);
      assert b == src.ip + dst.ip + BE16(src.port) + BE16(dst.port);
      assert r.sourceIP == b[..16] == src.ip;
      assert r.destinationIP == b[16..32] == dst.ip;
      assert b[32..34] == BE16(src.port) && b[34..] == BE16(dst.port);
    case UnixAddr(src, dst) =>
      var r := SplitUnix(b);
      assert r.source == AddressBytes(Unix(src)) == src.name;
      assert r.destination == AddressBytes(Unix(dst)) == dst.name;
  }

  /** The first 16 bytes of any encoded header pass the decoder's checks,
      and the length field holds the payload's length. */
  lemma EncodedPreamble(command: byte, address: Option<ProxyAddress>, rest: seq<byte>)
    requires command == CommandLOCAL || command == CommandPROXY
    requires command == CommandPROXY ==> address.Some? && Encodable(address.value)
    ensures |Encode(command, address)| == 16 + if command == CommandPROXY then |Payload(address.value)| else 0
    ensures var s := Encode(command, address) + rest;
      && Preamble(s) && Low(s[12]) == command
      && (address.Some? ==> s[13] == Signature(address.value))
      && s[16..] == (if command == CommandPROXY then Payload(address.value) else []) + rest
      && DeclaredLength(s) == if command == CommandPROXY then |Payload(address.value)| % 65536 else 0
  {
    var protocol: byte := if address.Some? then Signature(address.value) else 0;
    var block := if command == CommandPROXY then Payload(address.value) else [];
    var s := Encode(command, address) + rest;
    SplitJoin(ProtocolVersion, command);
    assert s == ProtocolSignature + [Join(ProtocolVersion, command)] + [protocol] + BE16(|block|) + (block + rest);
    HeaderFields(s, Join(ProtocolVersion, command), protocol, BE16(|block|), block + rest);
  }

  /** Round trip: an encoded LOCAL header, or an encoded PROXY header with
      a canonical address, decodes to its own command and address after
      exactly its own bytes, whatever follows; LOCAL leaves the reader's
      address as it was. */
  lemma DecodeEncode(command: byte, address: Option<ProxyAddress>, rest: seq<byte>,
                     command0: byte, address0: Option<ProxyAddress>)
    requires command == CommandLOCAL || command == CommandPROXY
    requires command == CommandPROXY ==> address.Some? && Canonical(address.value)
    ensures var b := Encode(command, address);
      Decode(b + rest, command0, address0)
        == Decoded(|b|, command, if command == CommandPROXY then address else address0, None)
  {
    if command == CommandPROXY {
      DecodeEncodeProxy(address.value, rest, command0, address0);
    } else {
      EncodedPreamble(command, address, rest);
      ZeroLength(Encode(command, address) + rest, command0, address0);
    }
  }

  lemma DecodeEncodeProxy(a: ProxyAddress, rest: seq<byte>, command0: byte, address0: Option<ProxyAddress>)
    requires Canonical(a)
    ensures var b := Encode(CommandPROXY, Some(a));
      Decode(b + rest, command0, address0) == Decoded(|b|, CommandPROXY, Some(a), None)
  {
    var s := Encode(CommandPROXY, Some(a)) + rest;
    PayloadLength(a);
    EncodedPreamble(CommandPROXY, Some(a), rest);
    RecognizedPayload(s, command0, address0);
    var size := PayloadSize(Family(a));
    assert s[16..16 + size] == s[16..][..size] == Payload(a);
    BuildPayload(a);
  }

  /** Every address the decoder builds is canonical, except a Unix
      datagram pair: its sockets are named "unixgram", and the encoder
      announces every Unix address as STREAM. */
  lemma DecodedCanonical(family: byte, transport: byte, b: seq<byte>)
    requires Recognized(family, transport) && |b| == PayloadSize(family)
    ensures Canonical(Build(family, transport, b))
        <==> !(family == AddressFamilyUNIX && transport == TransportProtocolDGRAM)
  {
    if family == AddressFamilyUNIX && transport == TransportProtocolDGRAM {
      assert Build(family, transport, b).sourceSocket.net == "unixgram";
      assert "unixgram" != "unixpacket" by {
        assert "unixgram"[4] != "unixpacket"[4];
      }
    }
  }

  /** The other round trip: a PROXY header the decoder accepts, whose
      length field equals the payload it read and whose pair is not Unix
      over DGRAM, is encoded back to exactly the bytes it was read from. */
  lemma EncodeDecode(s: seq<byte>, command0: byte, address0: Option<ProxyAddress>)
    requires Preamble(s) && Low(s[12]) == CommandPROXY
    requires Recognized(High(s[13]), Low(s[13])) && DeclaredLength(s) == PayloadSize(High(s[13]))
    requires !(High(s[13]) == AddressFamilyUNIX && Low(s[13]) == TransportProtocolDGRAM)
    requires |s| >= 16 + DeclaredLength(s)
    ensures var d := Decode(s, command0, address0);
      d.err.None? && d.address.Some? && Encode(CommandPROXY, d.address) == s[..d.consumed]
  {
    var f, t := High(s[13]), Low(s[13]);
    var size := PayloadSize(f);
    RecognizedPayload(s, command0, address0);
    var p := s[16..16 + size];
    var a := Build(f, t, p);
    assert Decode(s, command0, address0) == Decoded(16 + size, CommandPROXY, Some(a), None);
    EncodeBuilt(f, t, p);
    JoinSplit(s[12]);
    JoinSplit(s[13]);
    BE16Inverse(s[14..16]);
    assert Encode(CommandPROXY, Some(a)) == s[..12] + [s[12]] + [s[13]] + s[14..16] + p;
    HeaderParts(s, 16 + size);
  }

  /** A header cut into its fields. */
  lemma HeaderParts(s: seq<byte>, n: nat)
    requires 16 <= n <= |s|
    ensures s[..n] == s[..12] + [s[12]] + [s[13]] + s[14..16] + s[16..n]
  {
    assert s[..n] == s[..12] + s[12..13] + s[13..14] + s[14..16] + s[16..n];
  }

  /** The header encoded from an address the decoder built. */
  lemma EncodeBuilt(family: byte, transport: byte, b: seq<byte>)
    requires Recognized(family, transport) && |b| == PayloadSize(family)
    requires !(family == AddressFamilyUNIX && transport == TransportProtocolDGRAM)
    ensures Encodable(Build(family, transport, b))
    ensures Encode(CommandPROXY, Some(Build(family, transport, b)))
         == ProtocolSignature + [Join(ProtocolVersion, CommandPROXY)] + [Join(family, transport)] + BE16(|b|) + b
  {
    BuildSignature(family, transport, b);
    PayloadBuild(family, transport, b);
  }

  /** The protocol byte of a built address is the pair it was built from. */
  lemma BuildSignature(family: byte, transport: byte, b: seq<byte>)
    requires Recognized(family, transport) && |b| == PayloadSize(family)
    requires !(family == AddressFamilyUNIX && transport == TransportProtocolDGRAM)
    ensures Family(Build(family, transport, b)) == family && Transport(Build(family, transport, b)) == transport
  {
  }

  /** Payload undoes the decoder's Build on every pair but Unix over
      DGRAM. */
  lemma PayloadBuild(family: byte, transport: byte, b: seq<byte>)
    requires Recognized(family, transport) && |b| == PayloadSize(family)
    requires !(family == AddressFamilyUNIX && transport == TransportProtocolDGRAM)
    ensures Encodable(Build(family, transport, b)) && Payload(Build(family, transport, b)) == b
  {
    if family == AddressFamilyUNIX {
      var r := SplitUnix(b);
      assert CopyInto(r.source, 108) == r.source;
      assert CopyInto(r.destination, 108) == r.destination;
    } else {
      var size := if family == AddressFamilyINET then 4 else 16;
      var r := SplitIPsAndPorts(b, size);
      BE16Inverse(b[2 * size..2 * size + 2]);
      BE16Inverse(b[2 * size + 2..]);
    }
  }

  /** The repository's test header, with its IPs held in 4 bytes or in 16,
      is encoded to the 28 bytes the test expects. */
  lemma EncodeTestHeader()
    ensures Encode(CommandPROXY, Some(TestAddress)) == CanonicalVector
    ensures Encode(CommandPROXY, Some(MappedTestAddress)) == CanonicalVector
  {
    AssignedVersionBytes();
    BE16Bytes(12, 0x00, 0x0c);
    BE16Bytes(42446, 0xa5, 0xce);
    BE16Bytes(1338, 0x05, 0x3a);
    assert Signature(TestAddress) == 0x11 && Signature(MappedTestAddress) == 0x11;
    assert Payload(TestAddress) == TestPayloadBytes;
    assert IPv4Form(MappedTestAddress.source.ip) == [127, 0, 0, 1];
    assert IPv4Form(MappedTestAddress.destination.ip) == [127, 0, 0, 1];
    assert Payload(MappedTestAddress) == TestPayloadBytes;
  }
}
