/** What the decoder and the encoder of header.go do, stated over the
    specification function `Decode` and the Write calls `HeaderPieces`:
    which error each check of Header.ReadFrom ends in and after how many
    bytes, what the two test vectors decode to, and the layout Header.WriteTo
    produces, including where it disagrees with the decoder. */
module HeaderProperties {
  import opened Wire
  import opened Streams
  import opened Version
  import opened Address
  import opened ProxyHeader

  /** The input starts with the 12 signature bytes. */
  predicate HasSignature(s: seq<byte>)
  {
    |s| >= 12 && s[..12] == ProtocolSignature
  }

  /** The first 16 bytes pass every check of the decoder: the signature,
      version 2 with command LOCAL or PROXY, an assigned family and
      transport, and a length field. */
  predicate Preamble(s: seq<byte>)
  {
    HasSignature(s) && |s| >= 16 &&
    High(s[12]) == ProtocolVersion && (Low(s[12]) == CommandLOCAL || Low(s[12]) == CommandPROXY) &&
    High(s[13]) <= 3 && Low(s[13]) <= 2
  }

  /** The length the header declares. */
  function DeclaredLength(s: seq<byte>): nat
    requires |s| >= 16
  {
    FromBE16(s[14..16])
  }

  /** The signature check fails exactly when the input is not empty and does
      not start with the signature; it then reports the bytes the one Read
      took and the 12-byte buffer it compared, and leaves the header as it
      was. */
  lemma SignatureMismatch(s: seq<byte>, command: byte, address: Option<ProxyAddress>)
    ensures var d := Decode(s, command, address);
      (d.err.Some? && d.err.value.ProxyProtocolError?) <==> s != [] && !HasSignature(s)
    ensures s != [] && !HasSignature(s) ==>
      var got := Min(12, |s|);
      Decode(s, command, address)
        == Decoded(got, command, address, Some(ProxyProtocolError(ProtocolSignature, CopyInto(s[..got], 12))))
  {
    if s != [] {
      if |s| < 12 {
        ShortSignature(s);
      } else if HasSignature(s) {
        SignatureStep(s, command, address);
      }
    }
  }

  /** An empty reader ends the decoder at once with io.EOF. */
  lemma EmptyInput(command: byte, address: Option<ProxyAddress>)
    ensures Decode([], command, address) == Decoded(0, command, address, Some(EOF))
  {
  }

  /** After the signature: a version other than 2, or a command other than
      LOCAL and PROXY, fails after 13 bytes with the header untouched; an
      accepted command is stored, and stays stored whatever happens next. */
  lemma VersionChecks(s: seq<byte>, command: byte, address: Option<ProxyAddress>)
    requires HasSignature(s) && |s| > 12
    ensures var b, d := s[12], Decode(s, command, address);
      && (High(b) != ProtocolVersion ==> d == Decoded(13, command, address, Some(UnsupportedVersion(High(b)))))
      && (High(b) == ProtocolVersion && Low(b) != CommandLOCAL && Low(b) != CommandPROXY ==>
            d == Decoded(13, command, address, Some(UnsupportedCommand(Low(b)))))
      && (High(b) == ProtocolVersion && (Low(b) == CommandLOCAL || Low(b) == CommandPROXY) ==> d.command == Low(b))
  {
    SignatureStep(s, command, address);
    assert s[12..][0] == s[12];
    var b := s[12];
    if High(b) == ProtocolVersion && (Low(b) == CommandLOCAL || Low(b) == CommandPROXY) {
      VersionStep(s[12..], command, address);
    }
  }

  /** The command is only ever replaced by an accepted one read from the
      version/command byte. */
  lemma CommandSource(s: seq<byte>, command: byte, address: Option<ProxyAddress>)
    ensures var d := Decode(s, command, address);
      d.command != command ==>
        HasSignature(s) && |s| > 12 && High(s[12]) == ProtocolVersion && d.command == Low(s[12]) &&
        (d.command == CommandLOCAL || d.command == CommandPROXY)
  {
    if s != [] && CopyInto(s[..Min(12, |s|)], 12) == ProtocolSignature {
      SignatureStep(s, command, address);
      if |s| > 12 {
        assert s[12..][0] == s[12];
      }
    }
  }

  /** After an accepted version/command byte: an unassigned family or
      transport fails after 14 bytes, before any length is read, with the
      command already stored and the address untouched. */
  lemma ProtocolChecks(s: seq<byte>, command: byte, address: Option<ProxyAddress>)
    requires HasSignature(s) && |s| > 13
    requires High(s[12]) == ProtocolVersion && (Low(s[12]) == CommandLOCAL || Low(s[12]) == CommandPROXY)
    ensures var p, d := s[13], Decode(s, command, address);
      && (High(p) > 3 ==> d == Decoded(14, Low(s[12]), address, Some(UnsupportedAddressFamily(High(p)))))
      && (High(p) <= 3 && Low(p) > 2 ==> d == Decoded(14, Low(s[12]), address, Some(UnsupportedTransport(Low(p)))))
  {
    SignatureStep(s, command, address);
    assert s[12..][0] == s[12] && s[12..][1..] == s[13..] && s[13..][0] == s[13];
    VersionStep(s[12..], command, address);
  }

  /** A header assembled from its fields gives them back by position. */
  lemma HeaderFields(s: seq<byte>, version: byte, protocol: byte, length: seq<byte>, body: seq<byte>)
    requires |length| == 2 && s == ProtocolSignature + [version] + [protocol] + length + body
    ensures |s| == 16 + |body| && s[..12] == ProtocolSignature && s[12] == version && s[13] == protocol
    ensures s[14..16] == length && s[16..] == body
  {
  }

  /** The decoder after a good preamble, in terms of the address block. */
  lemma PreambleStep(s: seq<byte>, command: byte, address: Option<ProxyAddress>)
    requires Preamble(s)
    ensures var d := Decode(s, command, address); var f, t := High(s[13]), Low(s[13]);
      d == if DeclaredLength(s) == 0 then Decoded(16, Low(s[12]), address, None)
           else Plus(16, DecodeAddress(s[16..], Low(s[12]), address, f, t, DeclaredLength(s)))
  {
    SignatureStep(s, command, address);
    assert s[12..][0] == s[12] && s[12..][1..] == s[13..] && s[13..][0] == s[13];
    VersionStep(s[12..], command, address);
    ProtocolStep(s[13..], Low(s[12]), address);
    assert s[13..][1..] == s[14..] && s[14..][..2] == s[14..16] && s[14..][2..] == s[16..];
    if DeclaredLength(s) > 0 {
      LengthStep(s[14..], Low(s[12]), address, High(s[13]), Low(s[13]));
    }
  }

  /** A declared length of 0 ends the header after 16 bytes, successfully,
      with the address as it was. */
  lemma ZeroLength(s: seq<byte>, command: byte, address: Option<ProxyAddress>)
    requires Preamble(s) && DeclaredLength(s) == 0
    ensures Decode(s, command, address) == Decoded(16, Low(s[12]), address, None)
  {
    PreambleStep(s, command, address);
  }

  /** A recognised pair reads its fixed-size payload whatever the declared
      length (as long as it is not 0): the bytes consumed, the error and the
      address depend only on the pair and on how much input there is. */
  lemma RecognizedPayload(s: seq<byte>, command: byte, address: Option<ProxyAddress>)
    requires Preamble(s) && DeclaredLength(s) > 0 && Recognized(High(s[13]), Low(s[13]))
    ensures var d, f, t := Decode(s, command, address), High(s[13]), Low(s[13]);
      var size := PayloadSize(f);
      && d.consumed == 16 + Min(size, |s| - 16)
      && d.command == Low(s[12])
      && d.err == FullStatus(s[16..], size)
      && d.address == if |s| >= 16 + size then Some(Build(f, t, s[16..16 + size])) else address
  {
    PreambleStep(s, command, address);
    var size := PayloadSize(High(s[13]));
    if |s| >= 16 + size {
      assert s[16..][..size] == s[16..16 + size];
    }
  }

  /** The declared length of a recognised pair is never compared with the
      payload size: two inputs that differ only in a non-zero length field
      decode the same. */
  lemma LengthIgnored(s: seq<byte>, s': seq<byte>, command: byte, address: Option<ProxyAddress>)
    requires Preamble(s) && DeclaredLength(s) > 0 && Recognized(High(s[13]), Low(s[13]))
    requires |s'| == |s| && s'[..14] == s[..14] && s'[16..] == s[16..] && FromBE16(s'[14..16]) > 0
    ensures Decode(s', command, address) == Decode(s, command, address)
  {
    assert s'[..12] == s'[..14][..12] == s[..14][..12] == s[..12];
    assert s'[12] == s'[..14][12] && s'[13] == s'[..14][13];
    PreambleStep(s, command, address);
    PreambleStep(s', command, address);
  }

  /** What the decoder builds for a recognised pair: the variant follows
      the family; an IP payload holds two IPs of the family's width and the
      two ports read big-endian, as TCP endpoints over STREAM and UDP ones
      over DGRAM; a Unix payload holds two 108-byte paths, named
      "unixpacket" over STREAM and "unixgram" over DGRAM. */
  lemma BuildShape(family: byte, transport: byte, b: seq<byte>)
    requires Recognized(family, transport) && |b| == PayloadSize(family)
    ensures var a := Build(family, transport, b);
      && (family == AddressFamilyINET <==> a.IPv4Address?)
      && (family == AddressFamilyINET6 <==> a.IPv6Address?)
      && (family == AddressFamilyUNIX <==> a.UnixAddr?)
      && (!a.UnixAddr? ==>
            var w := if a.IPv4Address? then 4 else 16;
            && (transport == TransportProtocolSTREAM <==> a.source.TCP? && a.destination.TCP?)
            && (transport == TransportProtocolDGRAM <==> a.source.UDP? && a.destination.UDP?)
            && a.source.ip == b[..w] && a.destination.ip == b[w..2 * w]
            && a.source.port == FromBE16(b[2 * w..2 * w + 2]) && a.destination.port == FromBE16(b[2 * w + 2..]))
      && (a.UnixAddr? ==>
            var net := if transport == TransportProtocolSTREAM then "unixpacket" else "unixgram";
            && a.sourceSocket == UnixSocket(b[..108], net) && a.destinationSocket == UnixSocket(b[108..], net))
  {
  }

  /** The length each variant announces is the number of bytes the decoder
      reads for it. */
  lemma LengthIsPayloadSize(a: ProxyAddress)
    ensures Length(a) == PayloadSize(Family(a))
    ensures Length(a) == match a
      case IPv4Address(_, _) => 4 + 4 + 2 + 2
      case IPv6Address(_, _) => 16 + 16 + 2 + 2
      case UnixAddr(_, _) => 108 + 108
  {
  }

  /** The pairs without a payload layout are those with family UNSPEC or
      transport UNSPEC. */
  lemma UnknownPairs(f: byte, t: byte)
    requires f <= 3 && t <= 2
    ensures !Recognized(f, t) <==> f == AddressFamilyUNSPEC || t == TransportProtocolUNSPEC
  {
  }

  /** Any other pair with a non-zero length drains one Read of up to the
      declared length and fails with TransportProtocolError; at the end of
      input it reports io.EOF instead. */
  lemma UnknownPairDrains(s: seq<byte>, command: byte, address: Option<ProxyAddress>)
    requires Preamble(s) && DeclaredLength(s) > 0 && !Recognized(High(s[13]), Low(s[13]))
    ensures var d, f, t, len := Decode(s, command, address), High(s[13]), Low(s[13]), DeclaredLength(s);
      d == if |s| == 16 then Decoded(16, Low(s[12]), address, Some(EOF))
           else Decoded(16 + Min(len, |s| - 16), Low(s[12]), address, Some(TransportProtocolError(t, f, len)))
  {
    PreambleStep(s, command, address);
  }

  /** The address only ever changes on success. */
  lemma AddressOnSuccess(s: seq<byte>, command: byte, address: Option<ProxyAddress>)
    ensures var d := Decode(s, command, address); d.address != address ==> d.err.None? && d.address.Some?
  {
    if s != [] && CopyInto(s[..Min(12, |s|)], 12) == ProtocolSignature {
      SignatureStep(s, command, address);
      var s1 := s[12..];
      if s1 != [] && High(s1[0]) == ProtocolVersion && (Low(s1[0]) == CommandLOCAL || Low(s1[0]) == CommandPROXY) {
        VersionStep(s1, command, address);
        var s2 := s1[1..];
        if s2 != [] && High(s2[0]) <= 3 && Low(s2[0]) <= 2 {
          ProtocolStep(s2, Low(s1[0]), address);
        }
      }
    }
  }

  // ---------------------------------------------------------------------
  // The test vectors

  /** The payload of the repository's test header: 127.0.0.1 twice, then
      the ports 42446 and 1338 in network order. */
  const TestPayloadBytes: seq<byte> := [0x7f, 0x00, 0x00, 0x01, 0x7f, 0x00, 0x00, 0x01, 0xa5, 0xce, 0x05, 0x3a]

  /** The normal IPv4 TCP header of the repository's tests. */
  const CanonicalVector: seq<byte> := ProtocolSignature + [0x21, 0x11, 0x00, 0x0c] + TestPayloadBytes

  /** The header with a broken signature. */
  const BrokenVector: seq<byte> := [0x00, 0x00, 0x00, 0x00, 0x00, 0x00, 0x00, 0x00, 0x55, 0x49, 0x54, 0x0a]
    + [0x21, 0x11, 0x00, 0x0c] + TestPayloadBytes

  /** The address the tests expect: 127.0.0.1:42446 to 127.0.0.1:1338 over
      TCP. */
  const TestAddress: ProxyAddress := IPv4Address(TCP([127, 0, 0, 1], 42446), TCP([127, 0, 0, 1], 1338))

  /** The first 16 bytes of the normal header: version 2, PROXY, IPv4 over
      TCP, length 12. */
  lemma CanonicalPreamble()
    ensures Preamble(CanonicalVector) && DeclaredLength(CanonicalVector) == 12
    ensures Low(CanonicalVector[12]) == CommandPROXY
    ensures High(CanonicalVector[13]) == AddressFamilyINET && Low(CanonicalVector[13]) == TransportProtocolSTREAM
  {
    var s := CanonicalVector;
    assert s[..12] == ProtocolSignature;
    assert s[12] == 0x21 && s[13] == 0x11 && s[14] == 0x00 && s[15] == 0x0c;
  }

  /** The payload of an IPv4 TCP header: two 4-byte IPs, then the two
      ports in network order. */
  lemma BuildIPv4Stream(b: seq<byte>)
    requires |b| == 12
    ensures Build(AddressFamilyINET, TransportProtocolSTREAM, b)
         == IPv4Address(TCP(b[..4], FromBE16(b[8..10])), TCP(b[4..8], FromBE16(b[10..])))
  {
  }

  /** The normal header decodes to PROXY with the test address after all of
      its 28 bytes. */
  lemma DecodeCanonicalVector(command: byte, address: Option<ProxyAddress>)
    ensures Decode(CanonicalVector, command, address) == Decoded(28, CommandPROXY, Some(TestAddress), None)
  {
    var s := CanonicalVector;
    CanonicalPreamble();
    RecognizedPayload(s, command, address);
    var b := s[16..28];
    assert b == s[16..] == TestPayloadBytes;
    BuildIPv4Stream(b);
    TestPayload(b);
  }

  /** The payload of the normal header, field by field. */
  lemma TestPayload(b: seq<byte>)
    requires b == TestPayloadBytes
    ensures b[..4] == [127, 0, 0, 1] && b[4..8] == [127, 0, 0, 1]
    ensures FromBE16(b[8..10]) == 42446 && FromBE16(b[10..]) == 1338
  {
  }

  /** The broken header fails the signature check after 12 bytes. */
  lemma DecodeBrokenVector(command: byte, address: Option<ProxyAddress>)
    ensures Decode(BrokenVector, command, address)
         == Decoded(12, command, address, Some(ProxyProtocolError(ProtocolSignature, BrokenVector[..12])))
  {
    var s := BrokenVector;
    assert s[..12][0] != ProtocolSignature[0];
    assert !HasSignature(s);
    SignatureMismatch(s, command, address);
    assert CopyInto(s[..12], 12) == s[..12];
  }

  // ---------------------------------------------------------------------
  // The encoder as written

  /** The bytes Header.WriteTo puts down on a sink that takes them all. */
  function Encoded(command: byte, a: ProxyAddress): seq<byte>
    requires command == CommandPROXY ==> Writable(a)
  {
    Flatten(HeaderPieces(command, a))
  }

  /** Header.WriteTo on a bytes.Buffer: the signature, `0x20 | command`,
      the address's protocol byte, then a zero length for any command other
      than PROXY, or the big-endian length and the address's own WriteTo
      output for PROXY; it reports every byte and no error. */
  lemma WriteToLayout(command: byte, a: ProxyAddress)
    requires command == CommandPROXY ==> Writable(a)
    ensures var out := Encoded(command, a);
      && (command != CommandPROXY ==> out == ProtocolSignature + [Join(ProtocolVersion, command)] + [Signature(a)] + [0, 0])
      && (command == CommandPROXY ==>
            out == ProtocolSignature + [Join(ProtocolVersion, command)] + [Signature(a)] + BE16(Length(a))
                   + Flatten(AddressPieces(a)))
      && Emit(HeaderPieces(command, a), Unlimited) == Emitted(out, |out|, true)
    ensures command <= 15 ==> Join(ProtocolVersion, command) as int == 0x20 + command as int
  {
    var rest := if command == CommandPROXY then [Piece(BE16(Length(a)), true)] + AddressPieces(a)
                else [Piece(BE16(0), true)];
    FlattenThree(Piece(ProtocolSignature, true), Piece([Join(ProtocolVersion, command)], true),
                 Piece([Signature(a)], true), rest);
    if command == CommandPROXY {
      FlattenCons(Piece(BE16(Length(a)), true), AddressPieces(a));
    } else {
      FlattenOne(Piece(BE16(0), true));
    }
    EmitUnlimited(HeaderPieces(command, a));
    if command <= 15 {
      SplitJoin(ProtocolVersion, command);
    }
  }

  /** A LOCAL header as written decodes back to LOCAL after its 16 bytes,
      whatever follows it, with the address the reader's header already
      held. */
  lemma LocalRoundTrip(a: ProxyAddress, rest: seq<byte>, command: byte, address: Option<ProxyAddress>)
    ensures |Encoded(CommandLOCAL, a)| == 16
    ensures Decode(Encoded(CommandLOCAL, a) + rest, command, address) == Decoded(16, CommandLOCAL, address, None)
  {
    WriteToLayout(CommandLOCAL, a);
    var s := Encoded(CommandLOCAL, a) + rest;
    SplitJoin(ProtocolVersion, CommandLOCAL);
    assert s == ProtocolSignature + [Join(ProtocolVersion, CommandLOCAL)] + [Signature(a)] + [0, 0] + rest;
    HeaderFields(s, Join(ProtocolVersion, CommandLOCAL), Signature(a), [0, 0], rest);
    ZeroLength(s, command, address);
  }

  /** A PROXY header as written, with 16-byte IPs, is 3 bytes longer than
      its own length field says: the address's WriteTo repeats the protocol
      byte and the length, so the decoder reads the payload 3 bytes early,
      starting at the repeated protocol byte, and leaves the last 3 bytes of
      the header unread. */
  lemma ProxyOverrun(a: ProxyAddress, command: byte, address: Option<ProxyAddress>)
    requires Writable(a) && FullWidth(a)
    ensures var out := Encoded(CommandPROXY, a);
      && |out| == 16 + 3 + Length(a)
      && out[16] == out[13] == Signature(a)
      && Decode(out, command, address).consumed == |out| - 3
      && Decode(out, command, address).err == None
  {
    WriteToLayout(CommandPROXY, a);
    AddressWriteSize(a);
    AddressWriteBytes(a);
    var out := Encoded(CommandPROXY, a);
    var body := Flatten(AddressPieces(a));
    SplitJoin(ProtocolVersion, CommandPROXY);
    HeaderFields(out, Join(ProtocolVersion, CommandPROXY), Signature(a), BE16(Length(a)), body);
    RecognizedPayload(out, command, address);
  }

  /** The header the WriteTo test builds holds 4-byte IPs, so the IPv4
      `[12:]` slice is out of range: WriteTo panics on it. */
  lemma TestHeaderNotWritable()
    ensures !Writable(TestAddress)
  {
  }

  /** The test address with the 16-byte IPs Go's net package uses for IPv4
      (::ffff:127.0.0.1). */
  const MappedTestAddress: ProxyAddress :=
    IPv4Address(TCP([0, 0, 0, 0, 0, 0, 0, 0, 0, 0, 0xff, 0xff, 127, 0, 0, 1], 42446),
                TCP([0, 0, 0, 0, 0, 0, 0, 0, 0, 0, 0xff, 0xff, 127, 0, 0, 1], 1338))

  /** The bytes WriteTo puts down for it: 31 of them, with the protocol
      byte and length repeated little-endian and the ports little-endian. */
  const AsWrittenVector: seq<byte> := ProtocolSignature + [0x21] + [0x11] + [0x00, 0x0c]
    + ([0x11] + [0x0c, 0x00] + [0x7f, 0x00, 0x00, 0x01] + [0x7f, 0x00, 0x00, 0x01] + ([0xce, 0xa5] + [0x3a, 0x05]))

  /** What WriteTo produces for the test header with 16-byte IPs, and that
      it is not the 28 bytes the test expects (the normal header). */
  lemma WriteToTestHeader()
    ensures Writable(MappedTestAddress)
    ensures Encoded(CommandPROXY, MappedTestAddress) == AsWrittenVector
    ensures |AsWrittenVector| == 31 && AsWrittenVector != CanonicalVector
  {
    var a := MappedTestAddress;
    WriteToLayout(CommandPROXY, a);
    AddressWriteBytes(a);
    AssignedVersionBytes();
    assert Signature(a) == 0x11 && Length(a) == 12;
    assert SourceBytes(a) == [0x7f, 0x00, 0x00, 0x01] && DestinationBytes(a) == [0x7f, 0x00, 0x00, 0x01];
    LE16Bytes(12, 0x0c, 0x00);
    LE16Bytes(42446, 0xce, 0xa5);
    LE16Bytes(1338, 0x3a, 0x05);
    BE16Bytes(12, 0x00, 0x0c);
  }
}
