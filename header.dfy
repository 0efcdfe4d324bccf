/** The PROXY protocol version 2 header (header.go): the decoder
    `Header.ReadFrom` and the encoder `Header.WriteTo`.

    The decoder is specified by the function `Decode`, which walks the same
    steps as the Go code (signature, version/command byte, protocol byte,
    length, address block), one step function per field. Each step returns
    how many bytes it consumed, the command and address the header holds
    afterwards, and the error it ends in.

    ProtocolByte, AddressLength, readIPsAndPorts and readUnix are declared
    outside header.go, address.go and version.go and are not part of this
    model; the helpers below state the behaviour assumed for them
    (see each one). */
module ProxyHeader {
  import opened Wire
  import opened Streams
  import opened Version
  import opened Address

  /** The 12-byte signature every version 2 header starts with. */
  const ProtocolSignature: seq<byte> := [0x0D, 0x0A, 0x0D, 0x0A, 0x00, 0x0D, 0x0A, 0x51, 0x55, 0x49, 0x54, 0x0A]

  /** What decoding leaves behind: the bytes consumed, the header's command
      and address, and the error returned. */
  datatype Decoded = Decoded(consumed: nat, command: byte, address: Option<ProxyAddress>, err: Option<Error>)

  /** The outcome of a later step, seen from `k` bytes earlier. */
  function Plus(k: nat, d: Decoded): Decoded
  {
    d.(consumed := k + d.consumed)
  }

  /** The six (family, transport) pairs that have a payload layout. */
  predicate Recognized(family: byte, transport: byte)
  {
    (family == AddressFamilyINET || family == AddressFamilyINET6 || family == AddressFamilyUNIX) &&
    (transport == TransportProtocolSTREAM || transport == TransportProtocolDGRAM)
  }

  /** The bytes the reader of a recognised family takes: two IPs of 4 or 16
      bytes and two ports, or two 108-byte paths. */
  function PayloadSize(family: byte): nat
  {
    if family == AddressFamilyINET then 2 * 4 + 4
    else if family == AddressFamilyINET6 then 2 * 16 + 4
    else 2 * 108
  }

  /** The result of readIPsAndPorts. */
  datatype IPsAndPorts = IPsAndPorts(sourceIP: seq<byte>, destinationIP: seq<byte>, sourcePort: nat, destinationPort: nat)

  /** The result of readUnix. */
  datatype UnixPaths = UnixPaths(source: seq<byte>, destination: seq<byte>)

  /** An IP block of `size`-byte IPs split into its fields: source IP,
      destination IP, source port, destination port, the ports big-endian. */
  function SplitIPsAndPorts(b: seq<byte>, size: nat): (r: IPsAndPorts)
    requires |b| == 2 * size + 4
    ensures |r.sourceIP| == size && |r.destinationIP| == size
    ensures r.sourceIP + r.destinationIP + BE16(r.sourcePort) + BE16(r.destinationPort) == b
  {
    var r := IPsAndPorts(b[..size], b[size..2 * size], FromBE16(b[2 * size..2 * size + 2]), FromBE16(b[2 * size + 2..]));
    BE16Inverse(b[2 * size..2 * size + 2]);
    BE16Inverse(b[2 * size + 2..]);
    assert b == b[..size] + b[size..2 * size] + b[2 * size..2 * size + 2] + b[2 * size + 2..];
    r
  }

  lemma BE16Inverse(b: seq<byte>)
    requires |b| == 2
    ensures BE16(FromBE16(b)) == b
  {
  }

  /** A Unix block split into its two 108-byte paths. */
  function SplitUnix(b: seq<byte>): (r: UnixPaths)
    requires |b| == 216
    ensures |r.source| == 108 && |r.destination| == 108 && r.source + r.destination == b
  {
    UnixPaths(b[..108], b[108..])
  }

  /** The endpoint the decoder builds for an IP and a port: TCP over STREAM,
      UDP otherwise. */
  function Endpoint(transport: byte, ip: seq<byte>, port: nat): NetAddr
  {
    if transport == TransportProtocolSTREAM then TCP(ip, port) else UDP(ip, port)
  }

  /** The address the decoder builds from the payload of a recognised pair. */
  function Build(family: byte, transport: byte, b: seq<byte>): ProxyAddress
    requires Recognized(family, transport) && |b| == PayloadSize(family)
  {
    if family == AddressFamilyUNIX then
      var paths := SplitUnix(b);
      var net := if transport == TransportProtocolSTREAM then "unixpacket" else "unixgram";
      UnixAddr(UnixSocket(paths.source, net), UnixSocket(paths.destination, net))
    else
      var r := SplitIPsAndPorts(b, if family == AddressFamilyINET then 4 else 16);
      var src, dst := Endpoint(transport, r.sourceIP, r.sourcePort), Endpoint(transport, r.destinationIP, r.destinationPort);
      if family == AddressFamilyINET then IPv4Address(src, dst) else IPv6Address(src, dst)
  }

  // ---------------------------------------------------------------------
  // The decoder, step by step

  /** Header.ReadFrom on a reader holding `s`, for a header that held
      `command` and `address` before. */
  function Decode(s: seq<byte>, command: byte, address: Option<ProxyAddress>): (d: Decoded)
    ensures d.consumed <= |s|
  {
    if s == [] then Decoded(0, command, address, Some(EOF))
    else
      var got := Min(12, |s|);
      var signature := CopyInto(s[..got], 12);
      if signature != ProtocolSignature then
        Decoded(got, command, address, Some(ProxyProtocolError(ProtocolSignature, signature)))
      else
        Plus(got, DecodeVersion(s[got..], command, address))
  }

  /** The version/command byte: version 2 and command LOCAL or PROXY are
      accepted, and the command is stored before anything else is read. */
  function DecodeVersion(s: seq<byte>, command: byte, address: Option<ProxyAddress>): (d: Decoded)
    ensures d.consumed <= |s|
    ensures d.err.Some? ==> !d.err.value.ProxyProtocolError?
    ensures d.command == command || (s != [] && d.command == Low(s[0]) && High(s[0]) == ProtocolVersion)
    ensures d.command != command ==> d.command == CommandLOCAL || d.command == CommandPROXY
  {
    if s == [] then Decoded(0, command, address, Some(EOF))
    else
      var version, cmd := High(s[0]), Low(s[0]);
      if version != ProtocolVersion then Decoded(1, command, address, Some(UnsupportedVersion(version)))
      else if cmd != CommandLOCAL && cmd != CommandPROXY then Decoded(1, command, address, Some(UnsupportedCommand(cmd)))
      else Plus(1, DecodeProtocol(s[1..], cmd, address))
  }

  /** The protocol byte: the family must be one of the four assigned ones
      and the transport one of the three. */
  function DecodeProtocol(s: seq<byte>, command: byte, address: Option<ProxyAddress>): (d: Decoded)
    ensures d.consumed <= |s| && d.command == command
    ensures d.err.Some? ==> !d.err.value.ProxyProtocolError?
    ensures d.err.Some? && (d.err.value.UnsupportedAddressFamily? || d.err.value.UnsupportedTransport?) ==>
      d.consumed == 1 && d.address == address
  {
    if s == [] then Decoded(0, command, address, Some(EOF))
    else
      var family, transport := High(s[0]), Low(s[0]);
      if family != AddressFamilyUNSPEC && family != AddressFamilyINET &&
         family != AddressFamilyINET6 && family != AddressFamilyUNIX then
        Decoded(1, command, address, Some(UnsupportedAddressFamily(family)))
      else if transport != TransportProtocolUNSPEC && transport != TransportProtocolSTREAM &&
              transport != TransportProtocolDGRAM then
        Decoded(1, command, address, Some(UnsupportedTransport(transport)))
      else Plus(1, DecodeLength(s[1..], command, address, family, transport))
  }

  /** The 2-byte big-endian length; 0 ends the header with no address. */
  function DecodeLength(s: seq<byte>, command: byte, address: Option<ProxyAddress>, family: byte, transport: byte)
    : (d: Decoded)
    requires family <= 3 && transport <= 2
    ensures d.consumed <= |s| && d.command == command
    ensures d.err.Some? ==> d.err.value.EOF? || d.err.value.UnexpectedEOF? || d.err.value.TransportProtocolError?
    ensures d.address != address ==> d.err.None? && 2 <= |s| && Recognized(family, transport)
  {
    if FullStatus(s, 2).Some? then Decoded(|Chunk(s, 2)|, command, address, FullStatus(s, 2))
    else
      var length := FromBE16(s[..2]);
      if length == 0 then Decoded(2, command, address, None)
      else Plus(2, DecodeAddress(s[2..], command, address, family, transport, length))
  }

  /** The address block. A recognised pair reads its fixed-size payload,
      whatever `length` says; any other pair drains up to `length` bytes in
      one Read and fails. */
  function DecodeAddress(s: seq<byte>, command: byte, address: Option<ProxyAddress>, family: byte, transport: byte,
                         length: nat): (d: Decoded)
    requires family <= 3 && transport <= 2 && length > 0
    ensures d.consumed <= |s| && d.command == command
    ensures d.err.Some? ==> d.err.value.EOF? || d.err.value.UnexpectedEOF? || d.err.value.TransportProtocolError?
    ensures d.address != address ==> d.err.None? && Recognized(family, transport)
    ensures d.err.None? <==> Recognized(family, transport) && PayloadSize(family) <= |s|
  {
    if Recognized(family, transport) then
      var size := PayloadSize(family);
      if FullStatus(s, size).Some? then Decoded(|Chunk(s, size)|, command, address, FullStatus(s, size))
      else Decoded(size, command, Some(Build(family, transport, s[..size])), None)
    else if s == [] then Decoded(0, command, address, Some(EOF))
    else Decoded(|Chunk(s, length)|, command, address, Some(TransportProtocolError(transport, family, length)))
  }

  /** One step of the decoder that went through: the signature matched. */
  lemma SignatureStep(s: seq<byte>, command: byte, address: Option<ProxyAddress>)
    requires s != [] && CopyInto(s[..Min(12, |s|)], 12) == ProtocolSignature
    ensures |s| >= 12 && Decode(s, command, address) == Plus(12, DecodeVersion(s[12..], command, address))
  {
    if |s| < 12 {
      ShortSignature(s);
    }
  }

  /** A reader with fewer than 12 bytes never matches: the buffer is padded
      with a NUL where the signature ends in a line feed. */
  lemma ShortSignature(s: seq<byte>)
    requires 0 < |s| < 12
    ensures CopyInto(s[..Min(12, |s|)], 12) != ProtocolSignature
  {
    assert CopyInto(s[..Min(12, |s|)], 12)[11] == 0;
  }

  /** The version/command byte was accepted. */
  lemma VersionStep(s: seq<byte>, command: byte, address: Option<ProxyAddress>)
    requires s != [] && High(s[0]) == ProtocolVersion && (Low(s[0]) == CommandLOCAL || Low(s[0]) == CommandPROXY)
    ensures DecodeVersion(s, command, address) == Plus(1, DecodeProtocol(s[1..], Low(s[0]), address))
  {
  }

  /** The protocol byte was accepted. */
  lemma ProtocolStep(s: seq<byte>, command: byte, address: Option<ProxyAddress>)
    requires s != [] && High(s[0]) <= 3 && Low(s[0]) <= 2
    ensures DecodeProtocol(s, command, address) == Plus(1, DecodeLength(s[1..], command, address, High(s[0]), Low(s[0])))
  {
  }

  /** A non-zero length was read. */
  lemma LengthStep(s: seq<byte>, command: byte, address: Option<ProxyAddress>, family: byte, transport: byte)
    requires family <= 3 && transport <= 2 && |s| >= 2 && FromBE16(s[..2]) > 0
    ensures DecodeLength(s, command, address, family, transport)
         == Plus(2, DecodeAddress(s[2..], command, address, family, transport, FromBE16(s[..2])))
  {
  }

  // ---------------------------------------------------------------------
  // Field readers and writers declared outside the modelled files

  /** ProtocolByte: the family in the high nibble, the transport in the low
      one. Its ReadFrom is assumed to work as VersionByte.ReadFrom does: one
      Read of a single byte, split into nibbles. */
  class ProtocolByte {
    var addressFamily: byte
    var transportProtocol: byte

    constructor ()
      ensures addressFamily == 0 && transportProtocol == 0
    {
      addressFamily := 0;
      transportProtocol := 0;
    }

    method ReadFrom(r: Reader) returns (n: nat, err: Option<Error>)
      requires r.Valid()
      modifies this, r
      ensures r.Valid() && n <= |old(r.Remaining())| && r.Remaining() == old(r.Remaining())[n..]
      ensures old(r.Remaining()) == [] ==> n == 0 && err == Some(EOF)
      ensures old(r.Remaining()) != [] ==>
        var b := old(r.Remaining())[0];
        n == 1 && err == None && addressFamily == High(b) && transportProtocol == Low(b)
    {
      var data, e := r.Read(1);
      n := |data|;
      if e.Some? {
        return n, e;
      }
      addressFamily := High(data[0]);
      transportProtocol := Low(data[0]);
      err := None;
    }
  }

  /** AddressLength.ReadFrom, assumed to fill a 2-byte field (io.ReadFull)
      and read it big-endian, as the header vectors do (`00 0c` is 12). */
  method ReadAddressLength(r: Reader) returns (length: nat, n: nat, err: Option<Error>)
    requires r.Valid()
    modifies r
    ensures r.Valid() && n == |Chunk(old(r.Remaining()), 2)| && r.Remaining() == old(r.Remaining())[n..]
    ensures err == FullStatus(old(r.Remaining()), 2)
    ensures err.None? ==> length == FromBE16(old(r.Remaining())[..2])
  {
    var data;
    data, err := r.ReadFull(2);
    n := |data|;
    length := if err.None? then FromBE16(data) else 0;
  }

  /** readIPsAndPorts(r, size), assumed to fill one field holding both IPs
      and both ports and to report the bytes it read. */
  method ReadIPsAndPorts(r: Reader, size: nat) returns (result: IPsAndPorts, n: nat, err: Option<Error>)
    requires r.Valid()
    modifies r
    ensures r.Valid() && n == |Chunk(old(r.Remaining()), 2 * size + 4)| && r.Remaining() == old(r.Remaining())[n..]
    ensures err == FullStatus(old(r.Remaining()), 2 * size + 4)
    ensures err.None? ==> result == SplitIPsAndPorts(old(r.Remaining())[..2 * size + 4], size)
  {
    var data;
    data, err := r.ReadFull(2 * size + 4);
    n := |data|;
    result := if err.None? then SplitIPsAndPorts(data, size) else IPsAndPorts([], [], 0, 0);
  }

  /** readUnix, assumed to fill one field holding both 108-byte paths. */
  method ReadUnix(r: Reader) returns (result: UnixPaths, n: nat, err: Option<Error>)
    requires r.Valid()
    modifies r
    ensures r.Valid() && n == |Chunk(old(r.Remaining()), 216)| && r.Remaining() == old(r.Remaining())[n..]
    ensures err == FullStatus(old(r.Remaining()), 216)
    ensures err.None? ==> result == SplitUnix(old(r.Remaining())[..216])
  {
    var data;
    data, err := r.ReadFull(216);
    n := |data|;
    result := if err.None? then SplitUnix(data) else UnixPaths([], []);
  }

  /** The `.WriteTo` called on the protocol byte (header.go:248), taken as
      one Write of that byte. */
  method WriteProtocolByte(w: Writer, b: byte) returns (n: nat, err: Option<Error>)
    requires w.Valid()
    modifies w
    ensures w.Wrote(old(w.data), old(w.Room()), [Piece([b], true)], n, err)
  {
    n, err := w.Write([b]);
  }

  /** AddressLength.WriteTo, taken as one Write of the length as 16 bits,
      big-endian. */
  method WriteAddressLength(w: Writer, length: int) returns (n: nat, err: Option<Error>)
    requires w.Valid()
    modifies w
    ensures w.Wrote(old(w.data), old(w.Room()), [Piece(BE16(length), true)], n, err)
  {
    n, err := w.Write(BE16(length));
  }

  // ---------------------------------------------------------------------
  // The encoder's output

  /** The Write calls of Header.WriteTo: signature, version/command byte and
      the address's protocol byte; then for PROXY the address's length and
      the address's own WriteTo, and for any other command a zero length. */
  function HeaderPieces(command: byte, a: ProxyAddress): seq<Piece>
    requires command == CommandPROXY ==> Writable(a)
  {
    [Piece(ProtocolSignature, true)] + [Piece([Join(ProtocolVersion, command)], true)] + AddressBlockPieces(command, a)
  }

  /** The Write calls of Header.WriteTo after the version/command byte. */
  function AddressBlockPieces(command: byte, a: ProxyAddress): seq<Piece>
    requires command == CommandPROXY ==> Writable(a)
  {
    [Piece([Signature(a)], true)] +
      if command == CommandPROXY then [Piece(BE16(Length(a)), true)] + AddressPieces(a)
      else [Piece(BE16(0), true)]
  }

  /** The end of Header.WriteTo: the address's protocol byte, then for
      PROXY the address's length and the address's WriteTo, and for any
      other command a zero length. */
  method WriteAddressBlock(w: Writer, command: byte, a: ProxyAddress) returns (m: int, err: Option<Error>)
    requires w.Valid() && (command == CommandPROXY ==> Writable(a))
    modifies w
    ensures w.Wrote(old(w.data), old(w.Room()), AddressBlockPieces(command, a), m, err)
  {
    ghost var before, room := w.data, w.Room();
    ghost var p := [Piece([Signature(a)], true)];
    ghost var rest := if command == CommandPROXY then [Piece(BE16(Length(a)), true)] + AddressPieces(a)
                      else [Piece(BE16(0), true)];
    m, err := WriteProtocolByte(w, Signature(a));
    if err.Some? {
      OutcomeStop(before, room, p, m, err, w.data, w.Room(), rest);
      return m, err;
    }

    ghost var mid, roomMid := w.data, w.Room();
    var k;
    k, err := WriteLengthAndAddress(w, command, a);
    OutcomeThen(before, room, p, m, mid, roomMid, rest, k, err, w.data, w.Room());
    m := m + k;
  }

  /** For PROXY the address's length and then the address's WriteTo; for
      any other command a zero length. */
  method WriteLengthAndAddress(w: Writer, command: byte, a: ProxyAddress) returns (m: int, err: Option<Error>)
    requires w.Valid() && (command == CommandPROXY ==> Writable(a))
    modifies w
    ensures w.Wrote(old(w.data), old(w.Room()),
                    if command == CommandPROXY then [Piece(BE16(Length(a)), true)] + AddressPieces(a)
                    else [Piece(BE16(0), true)], m, err)
  {
    ghost var before, room := w.data, w.Room();
    if command == CommandPROXY {
      ghost var l := [Piece(BE16(Length(a)), true)];
      m, err := WriteAddressLength(w, Length(a));
      if err.Some? {
        OutcomeStop(before, room, l, m, err, w.data, w.Room(), AddressPieces(a));
        return m, err;
      }

      ghost var mid, roomMid := w.data, w.Room();
      var k;
      k, err := WriteAddress(w, a);
      OutcomeThen(before, room, l, m, mid, roomMid, AddressPieces(a), k, err, w.data, w.Room());
      m := m + k;
      if err.Some? {
        return m, err;
      }
    } else {
      m, err := WriteAddressLength(w, 0);
      if err.Some? {
        return m, err;
      }
    }
  }

  class Header {
    var command: byte
    var proxyAddress: Option<ProxyAddress>

    /** The zero Header. */
    constructor ()
      ensures command == CommandLOCAL && proxyAddress == None
    {
      command := CommandLOCAL;
      proxyAddress := None;
    }

    /** Header.ReadFrom. */
    method ReadFrom(r: Reader) returns (m: nat, err: Option<Error>)
      requires r.Valid()
      modifies this, r
      ensures r.Valid() && m <= |old(r.Remaining())| && r.Remaining() == old(r.Remaining())[m..]
      ensures Decode(old(r.Remaining()), old(command), old(proxyAddress)) == Decoded(m, command, proxyAddress, err)
    {
      m, err := ReadSignature(r);
      if err.Some? {
        return m, err;
      }
      var k;
      k, err := ReadAfterSignature(r);
      m := m + k;
    }

    /** The start of Header.ReadFrom: one Read of a 12-byte buffer, which
        must hold the signature. On success the decoder goes on with the
        version/command byte. */
    method ReadSignature(r: Reader) returns (m: nat, err: Option<Error>)
      requires r.Valid()
      modifies r
      ensures r.Valid() && m <= |old(r.Remaining())| && r.Remaining() == old(r.Remaining())[m..]
      ensures err.Some? ==> Decode(old(r.Remaining()), command, proxyAddress) == Decoded(m, command, proxyAddress, err)
      ensures err.None? ==> m == 12
      ensures err.None? ==>
        Decode(old(r.Remaining()), command, proxyAddress) == Plus(12, DecodeVersion(r.Remaining(), command, proxyAddress))
    {
      ghost var s := r.Remaining();
      var signature, e := r.Read(12);
      m := |signature|;
      if e.Some? {
        return m, e;
      }
      var found := CopyInto(signature, 12);
      if found != ProtocolSignature {
        return m, Some(ProxyProtocolError(ProtocolSignature, found));
      }
      SignatureStep(s, command, proxyAddress);
      err := None;
    }

    /** Header.ReadFrom after the signature: the version/command byte and its
        checks, which store the command, then the protocol byte, the length
        and the address block. */
    method ReadAfterSignature(r: Reader) returns (m: nat, err: Option<Error>)
      requires r.Valid()
      modifies this, r
      ensures r.Valid() && m <= |old(r.Remaining())| && r.Remaining() == old(r.Remaining())[m..]
      ensures DecodeVersion(old(r.Remaining()), old(command), old(proxyAddress)) == Decoded(m, command, proxyAddress, err)
    {
      ghost var s, a0 := r.Remaining(), proxyAddress;
      var version := new VersionByte(0, 0);
      m, err := version.ReadFrom(r);
      if err.Some? {
        return m, err;
      }
      if version.protocolVersion != ProtocolVersion {
        return m, Some(UnsupportedVersion(version.protocolVersion));
      }
      if version.command != CommandLOCAL && version.command != CommandPROXY {
        return m, Some(UnsupportedCommand(version.command));
      }
      VersionStep(s, command, a0);
      command := version.command;

      var family, transport, addressLength, n;
      family, transport, addressLength, n, err := ReadProtocolAndLength(r, command, a0);
      m := m + n;
      if err.Some? || addressLength == 0 {
        return m, err;
      }

      n, err := ReadAddressBlock(r, family, transport, addressLength);
      m := m + n;
    }

    /** Header.WriteTo: the signature, the version/command byte and the
        address's protocol byte; then, for PROXY, the address's length and
        the address's own WriteTo, and for any other command a zero length.
        Each Write that fails ends it. The address must be present, as the
        protocol byte is taken from it whatever the command. */
    method WriteTo(w: Writer) returns (m: int, err: Option<Error>)
      requires w.Valid() && proxyAddress.Some?
      requires command == CommandPROXY ==> Writable(proxyAddress.value)
      modifies w
      ensures w.Wrote(old(w.data), old(w.Room()), HeaderPieces(command, proxyAddress.value), m, err)
    {
      var a := proxyAddress.value;
      ghost var before, room := w.data, w.Room();
      ghost var p1, p2 := [Piece(ProtocolSignature, true)], [Piece([Join(ProtocolVersion, command)], true)];
      ghost var tail := AddressBlockPieces(command, a);
      assert HeaderPieces(command, a) == p1 + p2 + tail;

      var n;
      n, err := w.Write(ProtocolSignature);
      m := n;
      if err.Some? {
        OutcomeStop(before, room, p1, m, err, w.data, w.Room(), p2 + tail);
        return m, err;
      }

      var version := new VersionByte(ProtocolVersion, command);
      ghost var mid, roomMid := w.data, w.Room();
      var k;
      k, err := version.WriteTo(w);
      OutcomeThen(before, room, p1, m, mid, roomMid, p2, k, err, w.data, w.Room());
      m := m + k;
      if err.Some? {
        OutcomeStop(before, room, p1 + p2, m, err, w.data, w.Room(), tail);
        return m, err;
      }

      mid, roomMid := w.data, w.Room();
      k, err := WriteAddressBlock(w, command, a);
      OutcomeThen(before, room, p1 + p2, m, mid, roomMid, tail, k, err, w.data, w.Room());
      m := m + k;
    }

    /** The middle of Header.ReadFrom: the protocol byte and its checks, then
        the length. It stops the decoder on an error or a zero length, and
        otherwise hands the family, the transport and the length on to the
        address block. */
    method ReadProtocolAndLength(r: Reader, ghost command0: byte, ghost address0: Option<ProxyAddress>)
      returns (family: byte, transport: byte, addressLength: nat, n: nat, err: Option<Error>)
      requires r.Valid()
      modifies r
      ensures r.Valid() && n <= |old(r.Remaining())| && r.Remaining() == old(r.Remaining())[n..]
      ensures family <= 3 && transport <= 2
      ensures var d := DecodeProtocol(old(r.Remaining()), command0, address0);
        if err.Some? || addressLength == 0 then d == Decoded(n, command0, address0, err)
        else n == 3 && d == Plus(3, DecodeAddress(r.Remaining(), command0, address0, family, transport, addressLength))
    {
      ghost var s := r.Remaining();
      var protocol := new ProtocolByte();
      n, err := protocol.ReadFrom(r);
      if err.Some? {
        return 0, 0, 0, n, err;
      }
      family, transport := protocol.addressFamily, protocol.transportProtocol;
      if family != AddressFamilyUNSPEC && family != AddressFamilyINET &&
         family != AddressFamilyINET6 && family != AddressFamilyUNIX {
        return 0, 0, 0, n, Some(UnsupportedAddressFamily(family));
      }
      if transport != TransportProtocolUNSPEC && transport != TransportProtocolSTREAM &&
         transport != TransportProtocolDGRAM {
        return 0, 0, 0, n, Some(UnsupportedTransport(transport));
      }
      ProtocolStep(s, command0, address0);

      ghost var s1 := r.Remaining();
      var k;
      addressLength, k, err := ReadAddressLength(r);
      n := n + k;
      if err.Some? || addressLength == 0 {
        return;
      }
      LengthStep(s1, command0, address0, family, transport);
    }

    /** The dispatch on the protocol byte that ends Header.ReadFrom: each
        recognised pair reads its fixed-size payload and stores the address
        it holds; any other pair drains one Read of up to `addressLength`
        bytes and fails. The count returned is the bytes read here. */
    method ReadAddressBlock(r: Reader, family: byte, transport: byte, addressLength: nat) returns (n: nat, err: Option<Error>)
      requires r.Valid() && family <= 3 && transport <= 2 && addressLength > 0
      modifies this, r
      ensures r.Valid() && n <= |old(r.Remaining())| && r.Remaining() == old(r.Remaining())[n..]
      ensures DecodeAddress(old(r.Remaining()), command, old(proxyAddress), family, transport, addressLength)
           == Decoded(n, command, proxyAddress, err)
      ensures command == old(command)
    {
      if family == AddressFamilyINET && transport == TransportProtocolSTREAM {
        var result;
        result, n, err := ReadIPsAndPorts(r, 4);
        if err.Some? {
          return n, err;
        }
        proxyAddress := Some(IPv4Address(TCP(result.sourceIP, result.sourcePort), TCP(result.destinationIP, result.destinationPort)));
      } else if family == AddressFamilyINET && transport == TransportProtocolDGRAM {
        var result;
        result, n, err := ReadIPsAndPorts(r, 4);
        if err.Some? {
          return n, err;
        }
        proxyAddress := Some(IPv4Address(UDP(result.sourceIP, result.sourcePort), UDP(result.destinationIP, result.destinationPort)));
      } else if family == AddressFamilyINET6 && transport == TransportProtocolSTREAM {
        var result;
        result, n, err := ReadIPsAndPorts(r, 16);
        if err.Some? {
          return n, err;
        }
        proxyAddress := Some(IPv6Address(TCP(result.sourceIP, result.sourcePort), TCP(result.destinationIP, result.destinationPort)));
      } else if family == AddressFamilyINET6 && transport == TransportProtocolDGRAM {
        var result;
        result, n, err := ReadIPsAndPorts(r, 16);
        if err.Some? {
          return n, err;
        }
        proxyAddress := Some(IPv6Address(UDP(result.sourceIP, result.sourcePort), UDP(result.destinationIP, result.destinationPort)));
      } else if family == AddressFamilyUNIX && transport == TransportProtocolSTREAM {
        var result;
        result, n, err := ReadUnix(r);
        if err.Some? {
          return n, err;
        }
        proxyAddress := Some(UnixAddr(UnixSocket(result.source, "unixpacket"), UnixSocket(result.destination, "unixpacket")));
      } else if family == AddressFamilyUNIX && transport == TransportProtocolDGRAM {
        var result;
        result, n, err := ReadUnix(r);
        if err.Some? {
          return n, err;
        }
        proxyAddress := Some(UnixAddr(UnixSocket(result.source, "unixgram"), UnixSocket(result.destination, "unixgram")));
      } else {
        var data;
        data, err := r.Read(addressLength);
        n := |data|;
        if err.Some? {
          return n, err;
        }
        return n, Some(TransportProtocolError(transport, family, addressLength));
      }
    }
  }
}
