/** The address block of a PROXY protocol version 2 header (address.go): the
    three address variants, their protocol byte and fixed payload length,
    the classification of a pair of endpoints into a variant, and the
    encoders that write a variant to a sink.

    Go's net.TCPAddr, net.UDPAddr and net.UnixAddr become the closed
    datatype NetAddr, so the `default: panic(...)` branches of
    getTransportProtocol, addressToBytes and getPort cannot be taken. The
    string form of an endpoint (its String method) is a parameter. */
module Address {
  import opened Wire
  import opened Streams
  import opened Version

  /** Address family nibbles. Their declaration is not part of this model;
      the values are those named by the decoder's error message
      ("0x0 - 0x3") and carried by the header vectors (0x11 is INET). */
  const AddressFamilyUNSPEC: byte := 0
  const AddressFamilyINET: byte := 1
  const AddressFamilyINET6: byte := 2
  const AddressFamilyUNIX: byte := 3

  /** Transport protocol nibbles ("0x0 - 0x2"). */
  const TransportProtocolUNSPEC: byte := 0
  const TransportProtocolSTREAM: byte := 1
  const TransportProtocolDGRAM: byte := 2

  /** A net.UnixAddr: the socket path, as bytes, and the network name
      ("unix", "unixgram" or "unixpacket"). */
  datatype UnixSocket = UnixSocket(name: seq<byte>, net: string)

  /** The endpoint kinds the codec handles. */
  datatype NetAddr =
    | TCP(ip: seq<byte>, port: int)
    | UDP(ip: seq<byte>, port: int)
    | Unix(socket: UnixSocket)

  /** The three implementations of ProxyAddress. The IP variants hold any
      endpoint, as their Go fields are of interface type net.Addr; the Unix
      variant holds two Unix sockets. */
  datatype ProxyAddress =
    | IPv4Address(source: NetAddr, destination: NetAddr)
    | IPv6Address(source: NetAddr, destination: NetAddr)
    | UnixAddr(sourceSocket: UnixSocket, destinationSocket: UnixSocket)

  /** getTransportProtocol: STREAM for TCP, DGRAM for UDP, and STREAM for
      every Unix socket, whatever its network name. */
  function TransportProtocolOf(addr: NetAddr): (t: byte)
    ensures t == TransportProtocolSTREAM || t == TransportProtocolDGRAM
    ensures t == TransportProtocolDGRAM <==> addr.UDP?
  {
    match addr
    case TCP(_, _) => TransportProtocolSTREAM
    case UDP(_, _) => TransportProtocolDGRAM
    case Unix(_) => TransportProtocolSTREAM
  }

  /** The address family a variant announces. */
  function Family(a: ProxyAddress): (f: byte)
    ensures f == AddressFamilyINET || f == AddressFamilyINET6 || f == AddressFamilyUNIX
    ensures f == AddressFamilyUNIX <==> a.UnixAddr?
  {
    match a
    case IPv4Address(_, _) => AddressFamilyINET
    case IPv6Address(_, _) => AddressFamilyINET6
    case UnixAddr(_, _) => AddressFamilyUNIX
  }

  /** The transport a variant announces: that of its source endpoint. */
  function Transport(a: ProxyAddress): (t: byte)
    ensures t == TransportProtocolSTREAM || t == TransportProtocolDGRAM
    ensures t == TransportProtocolDGRAM <==> !a.UnixAddr? && a.source.UDP?
  {
    match a
    case IPv4Address(src, _) => TransportProtocolOf(src)
    case IPv6Address(src, _) => TransportProtocolOf(src)
    case UnixAddr(src, _) => TransportProtocolOf(Unix(src))
  }

  /** getSignature: `family<<4 | transport`, so the family sits in the high
      nibble and the transport in the low one. */
  function Signature(a: ProxyAddress): (b: byte)
    ensures High(b) == Family(a) && Low(b) == Transport(a)
    ensures b as int == 16 * Family(a) as int + Transport(a) as int
  {
    SplitJoin(Family(a), Transport(a));
    Join(Family(a), Transport(a))
  }

  /** getLength: the size of the payload of each variant. */
  function Length(a: ProxyAddress): int
  {
    match a
    case IPv4Address(_, _) => 12
    case IPv6Address(_, _) => 36
    case UnixAddr(_, _) => 216
  }

  /** addressToBytes: the IP of a TCP or UDP endpoint as it is; for a Unix
      socket a fresh 108-byte buffer holding its String form. That form is
      taken to be the socket's name, which is what net.UnixAddr.String
      returns for a non-nil address. */
  function AddressBytes(addr: NetAddr): (b: seq<byte>)
    ensures addr.Unix? ==> |b| == 108
    ensures addr.Unix? ==> forall i :: 0 <= i < 108 ==>
      b[i] == if i < |addr.socket.name| then addr.socket.name[i] else 0
    ensures !addr.Unix? ==> b == addr.ip
  {
    match addr
    case TCP(ip, _) => ip
    case UDP(ip, _) => ip
    case Unix(socket) => CopyInto(socket.name, 108)
  }

  /** getPort: the port converted to uint16. */
  function Port(addr: NetAddr): (p: nat)
    requires !addr.Unix?
    ensures p < 65536 && (p - addr.port) % 65536 == 0
    ensures 0 <= addr.port < 65536 ==> p == addr.port
  {
    addr.port % 65536
  }

  // ---------------------------------------------------------------------
  // WrapAddress

  /** reflect.TypeOf of an endpoint, nil included. */
  datatype Kind = NilKind | TCPKind | UDPKind | UnixKind

  function KindOf(addr: Option<NetAddr>): Kind
  {
    match addr
    case None => NilKind
    case Some(TCP(_, _)) => TCPKind
    case Some(UDP(_, _)) => UDPKind
    case Some(Unix(_)) => UnixKind
  }

  /** The three errors WrapAddress returns (their message text is not
      modelled). */
  datatype WrapError = MismatchedTypes | MissingAddress | NotSupported

  /** What a call of WrapAddress ends in: a variant, an error, or a panic. */
  datatype Wrapped = Wrapped(address: ProxyAddress) | Failed(error: WrapError) | Panicked

  /** WrapAddress as written. `srcString` is the String form of the source
      endpoint. The mismatch message calls `.String()` on the source's
      reflect.Type, which is a nil interface when the source is nil, so that
      call panics; and the IPv4 test `== 3` comes after `> 1`, so it is never
      true. */
  function WrapAddress(src: Option<NetAddr>, dst: Option<NetAddr>, srcString: string): (r: Wrapped)
    ensures r.Panicked? <==> src.None? && dst.Some?
    ensures r == Failed(MismatchedTypes) <==> src.Some? && KindOf(src) != KindOf(dst)
    ensures r == Failed(MissingAddress) <==> src.None? && dst.None?
    ensures r.Wrapped? ==> !r.address.IPv4Address?
    ensures r.Wrapped? && r.address.IPv6Address? <==>
      src.Some? && dst.Some? && !src.value.Unix? && KindOf(src) == KindOf(dst) && CountChar(srcString, ':') > 1
    ensures r.Wrapped? && r.address.UnixAddr? <==> src.Some? && dst.Some? && src.value.Unix? && dst.value.Unix?
    ensures r.Wrapped? && r.address.UnixAddr? ==>
      r.address == UnixAddr(src.value.socket, dst.value.socket)
    ensures r.Wrapped? && !r.address.UnixAddr? ==>
      r.address.source == src.value && r.address.destination == dst.value
    ensures r == Failed(NotSupported) <==>
      src.Some? && dst.Some? && !src.value.Unix? && KindOf(src) == KindOf(dst) && CountChar(srcString, ':') <= 1
  {
    if KindOf(src) != KindOf(dst) then
      if src.None? then Panicked else Failed(MismatchedTypes)
    else if src.None? || dst.None? then Failed(MissingAddress)
    else
      var s, d := src.value, dst.value;
      match s
      case Unix(socket) => Wrapped(UnixAddr(socket, d.socket))
      case _ =>
        var colons := CountChar(srcString, ':');
        if colons > 1 then Wrapped(IPv6Address(s, d))
        else if colons == 3 then Wrapped(IPv4Address(s, d))
        else Failed(NotSupported)
  }

  /** The IPv4 test endpoint of the repository's tests is rejected. */
  lemma WrapAddressRejectsIPv4()
    ensures WrapAddress(Some(TCP([127, 0, 0, 1], 42446)), Some(TCP([127, 0, 0, 1], 1338)), "127.0.0.1:42446")
         == Failed(NotSupported)
  {
    HostPortColons();
  }

  /** A nil source with a non-nil destination panics instead of returning
      an error. */
  lemma WrapAddressNilSourcePanics(dst: NetAddr, srcString: string)
    ensures WrapAddress(None, Some(dst), srcString) == Panicked
  {
  }

  /** "127.0.0.1:42446", the String form of that endpoint, has one ':'. */
  lemma HostPortColons()
    ensures CountChar("127.0.0.1:42446", ':') == 1
  {
    var host, port := "127.0.0.1", "42446";
    assert "127.0.0.1:42446" == host + [':'] + port;
    OneColon(host, port);
  }

  /** A host and a port without ':' joined by one ':' hold one ':'. */
  lemma OneColon(host: string, port: string)
    requires CountChar(host, ':') == 0 && CountChar(port, ':') == 0
    ensures CountChar(host + [':'] + port, ':') == 1
  {
    CountCharAppend(host + [':'], port, ':');
    CountCharAppend(host, [':'], ':');
  }

  lemma {:induction false} CountCharAppend(s: string, t: string, c: char)
    ensures CountChar(s + t, c) == CountChar(s, c) + CountChar(t, c)
  {
    if s == [] {
      assert s + t == t;
    } else {
      assert (s + t)[1..] == s[1..] + t;
      CountCharAppend(s[1..], t, c);
    }
  }

  /** WrapAddress as evidently intended: a nil source is reported like any
      other missing address, and an endpoint whose String form has exactly
      one ':' (host:port) is IPv4. */
  function WrapAddressIntended(src: Option<NetAddr>, dst: Option<NetAddr>, srcString: string): (r: Wrapped)
    ensures !r.Panicked?
    ensures r.Failed? && r.error == MismatchedTypes <==> KindOf(src) != KindOf(dst) && src.Some?
    ensures r == Failed(MissingAddress) <==> src.None?
    ensures r.Wrapped? && r.address.IPv4Address? <==>
      src.Some? && dst.Some? && !src.value.Unix? && KindOf(src) == KindOf(dst) && CountChar(srcString, ':') == 1
    ensures r.Wrapped? && r.address.IPv6Address? <==>
      src.Some? && dst.Some? && !src.value.Unix? && KindOf(src) == KindOf(dst) && CountChar(srcString, ':') > 1
    ensures r.Wrapped? && r.address.UnixAddr? <==> src.Some? && dst.Some? && src.value.Unix? && dst.value.Unix?
    ensures r.Wrapped? && !r.address.UnixAddr? ==>
      r.address.source == src.value && r.address.destination == dst.value
    ensures r == Failed(NotSupported) <==>
      src.Some? && dst.Some? && !src.value.Unix? && KindOf(src) == KindOf(dst) && CountChar(srcString, ':') == 0
  {
    if KindOf(src) != KindOf(dst) then
      if src.None? then Failed(MissingAddress) else Failed(MismatchedTypes)
    else if src.None? || dst.None? then Failed(MissingAddress)
    else
      var s, d := src.value, dst.value;
      match s
      case Unix(socket) => Wrapped(UnixAddr(socket, d.socket))
      case _ =>
        var colons := CountChar(srcString, ':');
        if colons > 1 then Wrapped(IPv6Address(s, d))
        else if colons == 1 then Wrapped(IPv4Address(s, d))
        else Failed(NotSupported)
  }

  /** The intended classification reports a nil source as missing. */
  lemma WrapAddressIntendedNilSource(dst: NetAddr, srcString: string)
    ensures WrapAddressIntended(None, Some(dst), srcString) == Failed(MissingAddress)
  {
  }

  /** The intended classification accepts the repository's IPv4 test
      endpoints as an IPv4 address. */
  lemma WrapAddressIntendedAcceptsIPv4()
    ensures WrapAddressIntended(Some(TCP([127, 0, 0, 1], 42446)), Some(TCP([127, 0, 0, 1], 1338)), "127.0.0.1:42446")
         == Wrapped(IPv4Address(TCP([127, 0, 0, 1], 42446), TCP([127, 0, 0, 1], 1338)))
  {
    HostPortColons();
  }

  // ---------------------------------------------------------------------
  // Encoders

  /** The variants on which WriteTo does not panic: the IP variants need TCP
      or UDP endpoints (getPort), and IPv4 needs IPs of at least 12 bytes
      for the `[12:]` slice. */
  predicate Writable(a: ProxyAddress)
  {
    match a
    case IPv4Address(src, dst) => !src.Unix? && !dst.Unix? && |src.ip| >= 12 && |dst.ip| >= 12
    case IPv6Address(src, dst) => !src.Unix? && !dst.Unix?
    case UnixAddr(_, _) => true
  }

  /** The Write calls of writeAddressHeader: the protocol byte, then the
      length through binary.Write in little-endian order. */
  function AddressHeaderPieces(a: ProxyAddress): seq<Piece>
  {
    [Piece([Signature(a)], true)] + [Piece(LE16(Length(a)), false)]
  }

  /** The Write calls of writePorts: both ports through binary.Write in
      little-endian order. */
  function PortPieces(src: NetAddr, dst: NetAddr): seq<Piece>
    requires !src.Unix? && !dst.Unix?
  {
    [Piece(LE16(Port(src)), false)] + [Piece(LE16(Port(dst)), false)]
  }

  /** The Write calls of a variant's WriteTo: its address header, the
      source address, the destination address, then the ports of the IP
      variants. */
  function AddressPieces(a: ProxyAddress): seq<Piece>
    requires Writable(a)
  {
    AddressHeaderPieces(a) + [Piece(SourceBytes(a), true)] + [Piece(DestinationBytes(a), true)] + PortTail(a)
  }

  /** The source address as written: IPv4 writes `addressToBytes(...)[12:]`. */
  function SourceBytes(a: ProxyAddress): seq<byte>
    requires Writable(a)
  {
    match a
    case IPv4Address(src, _) => AddressBytes(src)[12..]
    case IPv6Address(src, _) => AddressBytes(src)
    case UnixAddr(src, _) => AddressBytes(Unix(src))
  }

  function DestinationBytes(a: ProxyAddress): seq<byte>
    requires Writable(a)
  {
    match a
    case IPv4Address(_, dst) => AddressBytes(dst)[12..]
    case IPv6Address(_, dst) => AddressBytes(dst)
    case UnixAddr(_, dst) => AddressBytes(Unix(dst))
  }

  function PortTail(a: ProxyAddress): seq<Piece>
    requires Writable(a)
  {
    if a.UnixAddr? then [] else PortPieces(a.source, a.destination)
  }

  /** The IP variants whose IPs are 16 bytes long, the form Go's net package
      gives parsed addresses. */
  predicate FullWidth(a: ProxyAddress)
  {
    match a
    case IPv4Address(src, dst) => !src.Unix? && !dst.Unix? && |src.ip| == 16 && |dst.ip| == 16
    case IPv6Address(src, dst) => !src.Unix? && !dst.Unix? && |src.ip| == 16 && |dst.ip| == 16
    case UnixAddr(_, _) => true
  }

  /** writeAddressHeader writes the protocol byte and then the length, low
      byte first, and reports 3 on a sink that takes them. */
  lemma AddressHeaderBytes(a: ProxyAddress)
    ensures Flatten(AddressHeaderPieces(a)) == [Signature(a), (Length(a) % 256) as byte, (Length(a) / 256) as byte]
    ensures Emit(AddressHeaderPieces(a), Unlimited).count == 3
  {
    var p, q := Piece([Signature(a)], true), Piece(LE16(Length(a)), false);
    FlattenAppend([p], [q]);
    FlattenOne(p);
    FlattenOne(q);
    assert LE16(Length(a)) == [(Length(a) % 256) as byte, (Length(a) / 256) as byte];
    EmitUnlimited(AddressHeaderPieces(a));
  }

  /** writePorts writes the source port and then the destination port, each
      as 16 bits, low byte first, and reports 4 on a sink that takes them. */
  lemma PortBytes(src: NetAddr, dst: NetAddr)
    requires !src.Unix? && !dst.Unix?
    ensures var b := Flatten(PortPieces(src, dst));
      |b| == 4 && FromBE16([b[1], b[0]]) == src.port % 65536 && FromBE16([b[3], b[2]]) == dst.port % 65536
    ensures Emit(PortPieces(src, dst), Unlimited).count == 4
  {
    var p, q := Piece(LE16(Port(src)), false), Piece(LE16(Port(dst)), false);
    FlattenAppend([p], [q]);
    FlattenOne(p);
    FlattenOne(q);
    var b := Flatten(PortPieces(src, dst));
    assert b == LE16(Port(src)) + LE16(Port(dst));
    assert [b[1], b[0]] == [LE16(Port(src))[1], LE16(Port(src))[0]];
    assert [b[3], b[2]] == [LE16(Port(dst))[1], LE16(Port(dst))[0]];
    EmitUnlimited(PortPieces(src, dst));
  }

  /** What a variant's WriteTo puts down: a 3-byte header, the two
      addresses (the last `|ip| - 12` bytes of each IP for IPv4) and, for the
      IP variants, 4 bytes of ports. With 16-byte IPs that is the variant's
      declared length plus the 3 bytes of its own header. */
  lemma {:induction false} AddressWriteSize(a: ProxyAddress)
    requires Writable(a)
    ensures var size := |Flatten(AddressPieces(a))|;
      match a
      case IPv4Address(src, dst) => size == 3 + (|src.ip| - 12) + (|dst.ip| - 12) + 4
      case IPv6Address(src, dst) => size == 3 + |src.ip| + |dst.ip| + 4
      case UnixAddr(_, _) => size == 3 + 216
    ensures FullWidth(a) ==> |Flatten(AddressPieces(a))| == 3 + Length(a)
    ensures Emit(AddressPieces(a), Unlimited).count == |Flatten(AddressPieces(a))|
  {
    AddressHeaderBytes(a);
    FourParts(AddressHeaderPieces(a), Piece(SourceBytes(a), true), Piece(DestinationBytes(a), true), PortTail(a));
    if !a.UnixAddr? {
      PortBytes(a.source, a.destination);
    }
    EmitUnlimited(AddressPieces(a));
  }

  /** The bytes a variant's WriteTo puts down on a sink that takes them
      all: the protocol byte, the little-endian length, both addresses as
      written, then the little-endian ports of the IP variants. */
  lemma AddressWriteBytes(a: ProxyAddress)
    requires Writable(a)
    ensures Flatten(AddressPieces(a)) == [Signature(a)] + LE16(Length(a)) + SourceBytes(a) + DestinationBytes(a)
      + (if a.UnixAddr? then [] else LE16(Port(a.source)) + LE16(Port(a.destination)))
  {
    AddressHeaderBytes(a);
    FourParts(AddressHeaderPieces(a), Piece(SourceBytes(a), true), Piece(DestinationBytes(a), true), PortTail(a));
    if !a.UnixAddr? {
      var p, q := Piece(LE16(Port(a.source)), false), Piece(LE16(Port(a.destination)), false);
      FlattenAppend([p], [q]);
      FlattenOne(p);
      FlattenOne(q);
    }
    assert [Signature(a)] + LE16(Length(a)) == Flatten(AddressHeaderPieces(a));
  }

  /** The bytes of a run made of a head, two single pieces and a tail. */
  lemma FourParts(h: seq<Piece>, x: Piece, y: Piece, t: seq<Piece>)
    ensures Flatten(h + [x] + [y] + t) == Flatten(h) + x.bytes + y.bytes + Flatten(t)
  {
    FlattenAppend(h + [x] + [y], t);
    FlattenAppend(h + [x], [y]);
    FlattenAppend(h, [x]);
    FlattenOne(x);
    FlattenOne(y);
  }

  /** writeAddressHeader. */
  method WriteAddressHeader(w: Writer, a: ProxyAddress) returns (m: int, err: Option<Error>)
    requires w.Valid()
    modifies w
    ensures w.Wrote(old(w.data), old(w.Room()), AddressHeaderPieces(a), m, err)
  {
    ghost var before, room := w.data, w.Room();
    var n;
    n, err := w.Write([Signature(a)]);
    m := n;
    ghost var mid, roomMid := w.data, w.Room();
    if err.Some? {
      OutcomeStop(before, room, [Piece([Signature(a)], true)], m, err, mid, roomMid, [Piece(LE16(Length(a)), false)]);
      return m, err;
    }

    err := w.BinaryWrite(LE16(Length(a)));
    OutcomeThen(before, room, [Piece([Signature(a)], true)], m, mid, roomMid,
                [Piece(LE16(Length(a)), false)], if err.None? then 2 else 0, err, w.data, w.Room());
    if err.Some? {
      return m, err;
    }

    m := m + 2;
  }

  /** writePorts. */
  method WritePorts(w: Writer, src: NetAddr, dst: NetAddr) returns (m: int, err: Option<Error>)
    requires w.Valid() && !src.Unix? && !dst.Unix?
    modifies w
    ensures w.Wrote(old(w.data), old(w.Room()), PortPieces(src, dst), m, err)
  {
    ghost var before, room := w.data, w.Room();
    m := 0;
    err := w.BinaryWrite(LE16(Port(src)));
    ghost var mid, roomMid := w.data, w.Room();
    if err.Some? {
      OutcomeStop(before, room, [Piece(LE16(Port(src)), false)], m, err, mid, roomMid, [Piece(LE16(Port(dst)), false)]);
      return m, err;
    }
    m := m + 2;

    err := w.BinaryWrite(LE16(Port(dst)));
    OutcomeThen(before, room, [Piece(LE16(Port(src)), false)], m, mid, roomMid,
                [Piece(LE16(Port(dst)), false)], if err.None? then 2 else 0, err, w.data, w.Room());
    if err.Some? {
      return m, err;
    }
    m := m + 2;
  }

  /** One counted Write appended to a run that went through. */
  method WriteNext(w: Writer, p: seq<byte>, ghost before: seq<byte>, ghost room: Room, ghost ps: seq<Piece>,
                   m0: int) returns (m: int, err: Option<Error>)
    requires w.Wrote(before, room, ps, m0, None)
    modifies w
    ensures w.Wrote(before, room, ps + [Piece(p, true)], m, err)
  {
    ghost var mid, roomMid := w.data, w.Room();
    var n;
    n, err := w.Write(p);
    OutcomeThen(before, room, ps, m0, mid, roomMid, [Piece(p, true)], n, err, w.data, w.Room());
    m := m0 + n;
  }

  /** The body shared by the three WriteTo methods: writeAddressHeader,
      then the source and destination addresses, then, when `ports` is set,
      writePorts; each step returns early on an error. */
  method WriteParts(w: Writer, a: ProxyAddress, srcBytes: seq<byte>, dstBytes: seq<byte>, ports: bool)
    returns (m: int, err: Option<Error>)
    requires w.Valid() && Writable(a)
    requires srcBytes == SourceBytes(a) && dstBytes == DestinationBytes(a) && ports == !a.UnixAddr?
    modifies w
    ensures w.Wrote(old(w.data), old(w.Room()), AddressPieces(a), m, err)
  {
    ghost var before, room := w.data, w.Room();
    ghost var h, x, y, tail := AddressHeaderPieces(a), [Piece(srcBytes, true)], [Piece(dstBytes, true)], PortTail(a);

    m, err := WriteAddressHeader(w, a);
    if err.Some? {
      OutcomeStop(before, room, h, m, err, w.data, w.Room(), x + y + tail);
      assert h + (x + y + tail) == h + x + y + tail;
      return m, err;
    }

    m, err := WriteNext(w, srcBytes, before, room, h, m);
    if err.Some? {
      OutcomeStop(before, room, h + x, m, err, w.data, w.Room(), y + tail);
      assert h + x + (y + tail) == h + x + y + tail;
      return m, err;
    }

    m, err := WriteNext(w, dstBytes, before, room, h + x, m);
    if err.Some? {
      OutcomeStop(before, room, h + x + y, m, err, w.data, w.Room(), tail);
      return m, err;
    }

    if !ports {
      assert h + x + y + [] == h + x + y;
      return m, err;
    }

    ghost var mid, roomMid := w.data, w.Room();
    var k;
    k, err := WritePorts(w, a.source, a.destination);
    OutcomeThen(before, room, h + x + y, m, mid, roomMid, tail, k, err, w.data, w.Room());
    m := m + k;
  }

  /** IPv4Address.WriteTo. */
  method WriteIPv4(w: Writer, src: NetAddr, dst: NetAddr) returns (m: int, err: Option<Error>)
    requires w.Valid() && Writable(IPv4Address(src, dst))
    modifies w
    ensures w.Wrote(old(w.data), old(w.Room()), AddressPieces(IPv4Address(src, dst)), m, err)
  {
    m, err := WriteParts(w, IPv4Address(src, dst), AddressBytes(src)[12..], AddressBytes(dst)[12..], true);
  }

  /** IPv6Address.WriteTo. */
  method WriteIPv6(w: Writer, src: NetAddr, dst: NetAddr) returns (m: int, err: Option<Error>)
    requires w.Valid() && Writable(IPv6Address(src, dst))
    modifies w
    ensures w.Wrote(old(w.data), old(w.Room()), AddressPieces(IPv6Address(src, dst)), m, err)
  {
    m, err := WriteParts(w, IPv6Address(src, dst), AddressBytes(src), AddressBytes(dst), true);
  }

  /** UnixAddr.WriteTo: no ports. */
  method WriteUnix(w: Writer, src: UnixSocket, dst: UnixSocket) returns (m: int, err: Option<Error>)
    requires w.Valid()
    modifies w
    ensures w.Wrote(old(w.data), old(w.Room()), AddressPieces(UnixAddr(src, dst)), m, err)
  {
    m, err := WriteParts(w, UnixAddr(src, dst), AddressBytes(Unix(src)), AddressBytes(Unix(dst)), false);
  }

  /** The call `ProxyAddress.WriteTo`, dispatched on the variant. */
  method WriteAddress(w: Writer, a: ProxyAddress) returns (m: int, err: Option<Error>)
    requires w.Valid() && Writable(a)
    modifies w
    ensures w.Wrote(old(w.data), old(w.Room()), AddressPieces(a), m, err)
  {
    match a
    case IPv4Address(src, dst) => m, err := WriteIPv4(w, src, dst);
    case IPv6Address(src, dst) => m, err := WriteIPv6(w, src, dst);
    case UnixAddr(src, dst) => m, err := WriteUnix(w, src, dst);
  }
}
