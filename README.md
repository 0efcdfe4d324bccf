# PROXY protocol version 2 header codec, modelled in Dafny

This project models the header codec of go-haproxy, a Go library for the
binary header of the HAProxy PROXY protocol version 2 (section 2.2 of the
PROXY protocol specification, "Binary header format (version 2)"). It then
proves properties of that model.

A header has these fields, in order:

- a 12-byte signature;
- the version/command byte: version 2 in the high nibble, LOCAL (0) or PROXY (1) in the low one;
- the protocol byte: the address family in the high nibble, the transport in the low one;
- a 2-byte length;
- the address block.

The model has these modules:

- `Wire` (wire.dfy): bytes, the codec's errors, Go's `copy` into a fresh buffer, nibbles, Go's `<<4 |` (a bitwise or on naturals), and 16-bit values in both byte orders.
- `Streams` (streams.dfy): the input and output models.
  - `Reader` is a class over a `seq<byte>` and a position, with `bytes.Reader` semantics. `Read(k)` returns `min(k, remaining)` bytes and `io.EOF` only when nothing is left; `ReadFull(k)` behaves like `io.ReadFull`.
  - `Writer` is a class over a `seq<byte>`. It has either unlimited room, as `bytes.Buffer` does, or a fixed capacity, after which `Write` stops short with `io.ErrShortWrite`.
  - An encoder's output is described as the list of its Write calls (`seq<Piece>`). `Emit` interprets that list: the bytes that land, the count the encoder reports, and whether it stopped early.
- `Version` (version.dfy): `VersionByte` and its `ReadFrom` and `WriteTo`.
- `Address` (address.go becomes address.dfy):
  - the three address variants, with their protocol byte and fixed length;
  - `addressToBytes` and `getPort`;
  - `WrapAddress`, both as written and as intended;
  - the encoders, as methods on a `Writer`.
- `ProxyHeader` (header.dfy):
  - the decoder `Header.ReadFrom`, as a method on a `Reader`, specified by the pure function `Decode`, which follows the same steps;
  - the encoder `Header.WriteTo`, as a method on a `Writer`, specified by its list of Write calls.
- `HeaderProperties` (properties.dfy): what each check of the decoder ends in and after how many bytes; the two test vectors; the layout the encoder produces and how that layout disagrees with the decoder.
- `IntendedEncoding` (intended.dfy): the encoder this code evidently means to have. This corrected `Encode`, not header.go's `WriteTo` (which `HeaderProperties.ProxyOverrun` shows does not round-trip), is proved to round-trip with the decoder:
  - decoding an encoded LOCAL header, or a PROXY header with a canonical address, gives the header back;
  - encoding a decoded PROXY header gives its bytes back, when its length field is exact and its pair is not Unix over DGRAM.

### Inputs, outputs and assumptions

- **Outside the model.** The String form of an endpoint is a parameter. Go's `net.TCPAddr`, `net.UDPAddr` and `net.UnixAddr` become the closed datatype `NetAddr`, so the `default: panic` branches of `getTransportProtocol`, `addressToBytes` and `getPort` cannot be taken.
- **Helpers not shown here.** `ProtocolByte`, `AddressLength`, `readIPsAndPorts` and `readUnix` are declared in files that are not part of this model. The helpers in header.dfy state the behaviour assumed for them:
  - the protocol byte is read like the version byte (one 1-byte Read, split into nibbles);
  - the length is two bytes, big-endian, filled with `io.ReadFull`;
  - the IP payload is filled in one `io.ReadFull`: two IPs, then two big-endian ports;
  - the Unix payload is filled in one `io.ReadFull`: two 108-byte paths;
  - `.WriteTo` on the protocol byte and on the length is one Write of 1 and 2 bytes, big-endian.
- **The declared length.** The code never compares a recognised pair's declared length with its payload size. Any non-zero length reads the fixed-size payload (header.go:100-214). `HeaderProperties.LengthIgnored` states this.
- **The address when writing.** `Header.WriteTo` takes the protocol byte from the address for every command (header.go:248). A missing address would be a nil-interface panic after 13 bytes, so `Header.WriteTo` requires an address.

## Model

| member | source | states |
|---|---|---|
| Wire.CopyInto | address.go:103-104 | `copy(make([]byte, n), src)`: exactly `n` bytes, the source's bytes first, NUL after them; equal to the source's first `n` bytes when it is long enough |
| Wire.High | version.go:29 | `b >> 4` is at most 15 |
| Wire.Low | version.go:30 | `b & 0x0F` is at most 15 |
| Wire.BitOrBelow | version.go:35 | or-ing a multiple of 2^k with a value below 2^k adds them, which is why `v<<4 \| c` packs two nibbles |
| Wire.BE16 | header.go:257 | a length written as 16 bits, big-endian, reads back as the value mod 2^16 |
| Wire.LE16 | address.go:71 | `binary.Write` of a 16-bit value, little-endian: its two bytes, read low byte first, give the value mod 2^16 |
| Wire.CountChar | address.go:40 | `strings.Count(s, ":")` is at most `len(s)`, and is 0 exactly when `s` has no `:` |
| Streams.Reader.Read | header.go:41 | one `bytes.Reader.Read` of a `k`-byte buffer: takes `min(k, remaining)` bytes, advances by them, and returns `io.EOF` exactly when nothing was left |
| Streams.Reader.ReadFull | header.go:109 | `io.ReadFull` of `k` bytes: the same bytes, `io.EOF` when nothing was left, `io.ErrUnexpectedEOF` when cut short |
| Streams.Writer.Write | header.go:231 | one `Write`: the longest prefix that fits is appended; that count is returned; and the error is `io.ErrShortWrite` exactly when not all of it fit |
| Streams.Writer.BinaryWrite | address.go:71-74 | `binary.Write` of 2 bytes: the bytes that fit are appended, and only an error is reported |
| Streams.EmitUnlimited | header_test.go:70-71 | on a `bytes.Buffer` every Write goes through: all bytes land, the count covers the counted ones, no error |
| Version.VersionByte.constructor | header.go:237-240 | the version byte holds the given version and command |
| Version.VersionByte.ReadFrom | version.go:21-32 | on an empty reader: 0 bytes, `io.EOF`, both fields unchanged; otherwise exactly 1 byte `b` is consumed and the version becomes `b >> 4` and the command `b & 0x0F` |
| Version.VersionByte.WriteTo | version.go:34-37 | writes the one byte `version<<4 \| command` and reports 1 when it fits, 0 and the writer's error when it does not |
| Version.JoinSplit | version.go:29-35 | every byte is packed back from its two nibbles |
| Version.SplitJoin | version.go:29-35 | a version and a command of at most 15 pack to `16*version + command`, and unpack to themselves |
| Version.AssignedVersionBytes | version.go:7-14 | version 2 with LOCAL is 0x20, and with PROXY 0x21, the byte at offset 12 of the test vector |
| Version.WideCommandChangesVersion | version.go:35 | an unmasked command above 15 changes the version nibble written |
| Wire.Join | version.go:35 | Go's `hi<<4 \| lo` on bytes: the high nibble of `hi` is dropped and the `\|` is bitwise; Version.JoinSplit and Version.SplitJoin state what it packs |
| Address.KindOf | address.go:27 | `reflect.TypeOf` of an endpoint: nil, TCP, UDP or Unix; WrapAddress and WrapAddressIntended state how it decides the outcome |
| Address.Family | address.go:165 | the family a variant announces (the same at address.go:205, 239): an assigned one other than UNSPEC, and UNIX exactly for the Unix variant |
| Address.Transport | address.go:165 | the transport a variant announces, that of its source (the same at address.go:205, 239): STREAM or DGRAM, and DGRAM exactly for an IP variant with a UDP source |
| Address.Length | address.go:160-162 | getLength of each variant (the same at address.go:200-202, 234-236); HeaderProperties.LengthIsPayloadSize states that 12, 36 and 216 are the sizes the decoder reads |
| Address.Writable | address.go:111-158 | the variants WriteTo can write without a panic: TCP or UDP endpoints for the IP variants (getPort), and IPs of at least 12 bytes for IPv4 (`[12:]`); TestHeaderNotWritable and AddressWriteBytes rely on it |
| Address.TransportProtocolOf | address.go:12-24 | STREAM or DGRAM, and DGRAM exactly for UDP; Unix sockets always get STREAM |
| Address.Signature | address.go:164-166 | `family<<4 \| transport` of the variant (the same at address.go:204-206, 238-240): the family is in the high nibble and the transport in the low one |
| Address.AddressBytes | address.go:96-109 | a TCP or UDP endpoint gives its IP; a Unix socket gives 108 bytes, its name cut at 108 and padded with NUL |
| Address.Port | address.go:111-120 | `uint16(port)`: below 2^16, congruent to the port, and equal to it when it fits |
| Address.WrapAddress | address.go:26-62 | it panics exactly when the source is nil and the destination is not; it reports mismatched types exactly when the source is not nil and the kinds differ, and a missing address exactly when both are nil; it never yields IPv4; IPv6 exactly for same-kind TCP/UDP endpoints with more than one `:`; Unix exactly for two Unix sockets; "not supported" exactly for same-kind TCP/UDP endpoints with at most one `:` |
| Address.WrapAddressNilSourcePanics | address.go:27-31 | a nil source with a non-nil destination panics |
| Address.WrapAddressRejectsIPv4 | address.go:38-52 | the test endpoints 127.0.0.1:42446 and 127.0.0.1:1338 are rejected as not supported |
| Address.HostPortColons | address.go:40 | the String form `127.0.0.1:42446` has one `:` |
| Address.WrapAddressIntended | address.go:26-62 | never panics; mismatched kinds are an error; a missing address exactly when the source is nil; IPv4 exactly for one `:`, IPv6 for more, "not supported" for none; Unix for two Unix sockets |
| Address.WrapAddressIntendedNilSource | address.go:27-36 | a nil source is reported as a missing address |
| Address.WrapAddressIntendedAcceptsIPv4 | address.go:46-51 | the test endpoints become an IPv4 address |
| Address.AddressHeaderBytes | address.go:64-78 | writeAddressHeader puts down the protocol byte, then the length low byte first, and reports 3 |
| Address.PortBytes | address.go:80-94 | writePorts puts down 4 bytes, each port mod 2^16 little-endian, source first, and reports 4 |
| Address.AddressWriteSize | address.go:133-232 | the count each WriteTo reports on a sink that takes everything is the bytes it writes: 3 + (\|src.ip\|-12) + (\|dst.ip\|-12) + 4 for IPv4, 3 + \|src\| + \|dst\| + 4 for IPv6, 3 + 216 for Unix; with 16-byte IPs that is 3 + the variant's length |
| Address.AddressWriteBytes | address.go:133-232 | the bytes each WriteTo writes: protocol byte, little-endian length, the two addresses (IPv4 cut to `[12:]`), then the little-endian ports of the IP variants |
| Address.WriteAddressHeader | address.go:64-78 | on any writer: the Write calls of writeAddressHeader, stopping at the first that fails, the count excluding the length when its write fails |
| Address.WritePorts | address.go:80-94 | on any writer: two `binary.Write` calls, 2 counted for each that succeeds |
| Address.WriteParts | address.go:133-232 | the shared body of the three WriteTo methods, on any writer |
| Address.WriteIPv4 | address.go:133-158 | IPv4Address.WriteTo on any writer produces its Write calls with early return |
| Address.WriteIPv6 | address.go:173-198 | IPv6Address.WriteTo likewise |
| Address.WriteUnix | address.go:213-232 | UnixAddr.WriteTo likewise, without ports |
| Address.WriteAddress | address.go:122-126 | the dispatch of `ProxyAddress.WriteTo` to the variant's method |
| ProxyHeader.Decode | header.go:39-49 | the decoder never consumes more than its input |
| ProxyHeader.DecodeVersion | header.go:51-70 | the command only changes to an accepted one (LOCAL or PROXY) read with version 2; no signature error after the signature |
| ProxyHeader.DecodeProtocol | header.go:72-91 | an unassigned family or transport fails after 1 byte with the address untouched |
| ProxyHeader.DecodeLength | header.go:93-104 | the address only changes on success for a recognised pair |
| ProxyHeader.DecodeAddress | header.go:106-225 | succeeds exactly for a recognised pair with its whole payload present; the address only changes then |
| ProxyHeader.Recognized | header.go:106-214 | the six (family, transport) pairs that have a case in the switch; HeaderProperties.UnknownPairs states that the others are those with UNSPEC |
| ProxyHeader.PayloadSize | header.go:109-199 | the bytes the case of a recognised family reads; HeaderProperties.LengthIsPayloadSize ties it to getLength |
| ProxyHeader.Endpoint | header.go:115-178 | the endpoint a case builds: TCP for STREAM, UDP for DGRAM; HeaderProperties.BuildShape states it |
| ProxyHeader.Build | header.go:106-214 | the address each case of the switch stores; HeaderProperties.BuildShape states its variant, endpoints, offsets and net names, and IntendedEncoding.PayloadBuild and BuildPayload state that it inverts IntendedEncoding.Payload |
| ProxyHeader.ShortSignature | header.go:40-47 | fewer than 12 bytes never match the signature |
| ProxyHeader.SplitIPsAndPorts | header.go:109-124 | the IP block splits into two IPs of the given width and two ports that reassemble it in big-endian order |
| ProxyHeader.SplitUnix | header.go:181-196 | the Unix block splits into two 108-byte paths that reassemble it |
| ProxyHeader.ProtocolByte.constructor | header.go:72 | the zero protocol byte |
| ProxyHeader.ProtocolByte.ReadFrom | header.go:72-77 | one 1-byte Read: EOF on empty input, otherwise the family is the high nibble and the transport the low one |
| ProxyHeader.ReadAddressLength | header.go:93-98 | fills 2 bytes and reads them big-endian |
| ProxyHeader.ReadIPsAndPorts | header.go:109-113 | fills `2*size+4` bytes and splits them |
| ProxyHeader.ReadUnix | header.go:181-185 | fills 216 bytes and splits them |
| ProxyHeader.WriteProtocolByte | header.go:248-252 | one 1-byte Write |
| ProxyHeader.WriteAddressLength | header.go:257-261 | one 2-byte big-endian Write |
| ProxyHeader.WriteAddressBlock | header.go:248-274 | the protocol byte, then the length and the address, or a zero length, stopping at the first failure |
| ProxyHeader.WriteLengthAndAddress | header.go:254-274 | for PROXY the length and the address's WriteTo, otherwise a zero length |
| ProxyHeader.Header.constructor | header.go:12-15 | the zero Header: LOCAL, no address |
| ProxyHeader.Header.ReadFrom | header.go:39-228 | consumes exactly the bytes `Decode` says and leaves the command, the address and the error it says |
| ProxyHeader.Header.ReadSignature | header.go:40-49 | the one 12-byte Read and the signature check agree with `Decode`; on success 12 bytes are consumed and decoding goes on with `DecodeVersion` |
| ProxyHeader.Header.ReadAfterSignature | header.go:51-227 | the rest of ReadFrom agrees with `DecodeVersion`: consumed bytes, command, address and error |
| ProxyHeader.Header.ReadProtocolAndLength | header.go:72-104 | the protocol byte and length steps of ReadFrom agree with `Decode` |
| ProxyHeader.Header.ReadAddressBlock | header.go:106-227 | the dispatch agrees with `DecodeAddress` and leaves the command alone |
| ProxyHeader.Header.WriteTo | header.go:230-277 | on any writer: signature, version byte, protocol byte, then the length and the address for PROXY or a zero length otherwise; early return on the first failed Write; the count is that of the counted bytes |
| HeaderProperties.SignatureMismatch | header.go:40-49 | the signature error happens exactly when the input is non-empty and does not start with the signature; it carries the compared buffer, counts the bytes the Read took, and leaves the header unchanged |
| HeaderProperties.EmptyInput | header.go:41-45 | an empty reader gives `io.EOF` after 0 bytes |
| HeaderProperties.VersionChecks | header.go:51-70 | a wrong version or command fails after 13 bytes with the header untouched; an accepted command is stored |
| HeaderProperties.CommandSource | header.go:66-70 | the command only changes to the accepted command of the version byte |
| HeaderProperties.ProtocolChecks | header.go:79-91 | a family above 3 or a transport above 2 fails after 14 bytes, with the command stored and the address untouched |
| HeaderProperties.PreambleStep | header.go:39-104 | after the 16 checked bytes, decoding is the address block of the declared length, or success when that is 0 |
| HeaderProperties.ZeroLength | header.go:100-104 | a declared length of 0 succeeds after 16 bytes and leaves the address as it was |
| HeaderProperties.RecognizedPayload | header.go:106-214 | a recognised pair consumes 16 + min(payload size, rest), with the `io.ReadFull` status, and stores the address built from the payload only when it is complete |
| HeaderProperties.LengthIgnored | header.go:106-214 | two inputs that differ only in a non-zero length field decode the same when the pair is recognised |
| HeaderProperties.BuildShape | header.go:106-214 | the family picks the variant; the transport picks TCP or UDP, or `unixpacket` or `unixgram`; IPs, ports (big-endian) and paths come from their offsets in the payload |
| HeaderProperties.LengthIsPayloadSize | address.go:160-236 | getLength is 12 = 4+4+2+2, 36 = 16+16+2+2 and 216 = 108+108, which are the byte counts the decoder reads for each family |
| HeaderProperties.UnknownPairs | header.go:106-216 | the assigned pairs without a payload layout are those with family UNSPEC or transport UNSPEC |
| HeaderProperties.UnknownPairDrains | header.go:215-224 | such a pair with a non-zero length drains one Read of up to that length and fails with TransportProtocolError, or `io.EOF` at the end of input |
| HeaderProperties.AddressOnSuccess | header.go:106-227 | the address only ever changes on success |
| HeaderProperties.CanonicalPreamble | header_test.go:13 | the first 16 bytes of the test vector: version 2, PROXY, INET over STREAM, length 12 |
| HeaderProperties.BuildIPv4Stream | header.go:108-124 | an INET/STREAM payload is two TCP endpoints with 4-byte IPs and big-endian ports |
| HeaderProperties.DecodeCanonicalVector | header_test.go:11-31 | the normal header decodes after 28 bytes to PROXY with 127.0.0.1:42446 → 127.0.0.1:1338 over TCP |
| HeaderProperties.DecodeBrokenVector | header_test.go:16-36 | the broken header fails with ProxyProtocolError after 12 bytes |
| HeaderProperties.WriteToLayout | header.go:230-277 | on a `bytes.Buffer`: signature, `0x20 \| command`, protocol byte, then `00 00` for LOCAL, or for PROXY the length and the address's WriteTo output; every byte is reported, with no error |
| HeaderProperties.LocalRoundTrip | header.go:254-274 | a LOCAL header as written is 16 bytes and decodes back to LOCAL with no error, whatever follows |
| HeaderProperties.ProxyOverrun | header.go:256-267 | a PROXY header as written with 16-byte IPs has its protocol byte and length twice: it is 3 bytes longer than its length field, and the decoder stops 3 bytes early |
| HeaderProperties.TestHeaderNotWritable | header_test.go:51-59 | the header the WriteTo test builds has 4-byte IPs, so `[12:]` at address.go:139 panics |
| HeaderProperties.WriteToTestHeader | header_test.go:61-77 | with 16-byte IPs the test header is written as 31 bytes, not the 28 the test expects |
| IntendedEncoding.Canonical | header.go:106-214 | the addresses a header carries without loss: same-kind endpoints, 4-byte IPs for IPv4, 16-byte IPs for IPv6, 16-bit ports, two 108-byte paths of stream sockets; DecodedCanonical states that the decoder builds exactly these, except for Unix over DGRAM |
| IntendedEncoding.Payload | header.go:230-277 | the corrected address block: the two IPs (IPv4 in its 4-byte form) and two big-endian ports, or the two 108-byte paths; PayloadLength, BuildPayload and PayloadBuild state it |
| IntendedEncoding.Encode | header.go:230-277 | the corrected header: signature, version/command byte, the address's protocol byte (0 without an address), then for PROXY a big-endian length and the payload, otherwise length 0; DecodeEncode, EncodeDecode and EncodeTestHeader state it |
| IntendedEncoding.PayloadLength | header.go:106-214 | a canonical address's payload has its variant's length, which is the size the decoder reads |
| IntendedEncoding.BuildPayload | header.go:106-214 | the decoder's Build gives back every canonical address from its payload |
| IntendedEncoding.PayloadBuild | header.go:106-214 | the payload of an address the decoder built is the bytes it was built from, except for Unix over DGRAM |
| IntendedEncoding.BuildSignature | header.go:106-214 | an address the decoder built announces the pair it was built from, except for Unix over DGRAM |
| IntendedEncoding.DecodedCanonical | header.go:180-214 | the decoder builds canonical addresses exactly for the pairs other than Unix over DGRAM |
| IntendedEncoding.EncodedPreamble | header.go:230-277 | an encoded header passes every decoder check, and its length field is the payload's length |
| IntendedEncoding.DecodeEncode | header.go:230-277 | decode(encode(h)) == h: an encoded LOCAL header, or a PROXY header with a canonical address, decodes after exactly its own bytes, whatever follows, with no error, to its own command; PROXY to its own address, LOCAL leaving the address the reader held |
| IntendedEncoding.DecodeEncodeProxy | header.go:230-277 | the PROXY case of that round trip |
| IntendedEncoding.EncodeDecode | header.go:39-228 | encode(decode(s)) == s: a PROXY header the decoder accepts, with an exact length field and a pair other than Unix over DGRAM, is encoded back to the bytes it was read from |
| IntendedEncoding.EncodeBuilt | header.go:230-277 | the header encoded from an address the decoder built |
| IntendedEncoding.EncodeTestHeader | header_test.go:51-77 | the test header, with 4-byte or 16-byte IPs, is encoded to the 28 bytes the test expects |

## Left out

- A nil ProxyAddress, and typed-nil endpoints, are not modelled. `Header.WriteTo` requires an address, because header.go:248 calls a method on it for every command. For PROXY it also requires the conditions under which the address's WriteTo does not panic: TCP or UDP endpoints for the IP variants, and IPv4 IPs of at least 12 bytes for the `[12:]` slice.
- The `default: panic` branches of `getTransportProtocol`, `addressToBytes` and `getPort` cannot be taken, because `NetAddr` is closed.
- An endpoint's `String()` method is a parameter of `WrapAddress`. For a Unix socket it is taken to be the socket's name, which is what `net.UnixAddr.String` returns for a non-nil address.
- `Error()` methods and the `fmt` message text are left out. Errors are constructors that carry their fields.
- ProtocolByte, AddressLength, readIPsAndPorts and readUnix are not part of this model. Their behaviour is assumed as listed above.
- Header.ReadFrom and Header.WriteTo are each split into a few methods (`ReadProtocolAndLength`, `ReadAddressBlock`, `WriteAddressBlock`, `WriteLengthAndAddress`) that run the same steps in the same order.
- The byte counts are unbounded naturals, not Go's int64. No count comes near the int64 limit.
- `Streams.Writer` also models writers with a fixed capacity, so that WriteTo's early returns from failed Writes are covered. The repository's tests only use `bytes.Buffer`, which is the unlimited case.
- Retrying or looping reads, PROXY protocol version 1 and TLV extensions are not in the code and are not modelled.

## Findings

| source | as written | input that shows it | evidently intended | confidence | as-written member | corrected member |
|---|---|---|---|---|---|---|
| address.go:40-52 | the IPv4 branch tests `strings.Count(..., ":") == 3` after `> 1` has already been taken, so it is never reached | TCP 127.0.0.1:42446 → 127.0.0.1:1338 (String form with one `:`) is rejected as not supported | exactly one `:` (host:port) is IPv4 | not executed | Address.WrapAddressRejectsIPv4 | Address.WrapAddressIntendedAcceptsIPv4 |
| address.go:27-31 | a nil source with a non-nil destination reaches `reflect.TypeOf(src).String()` on a nil `reflect.Type` | WrapAddress(nil, &net.TCPAddr{...}) panics | report the missing address as an error, as for two nils | not executed | Address.WrapAddressNilSourcePanics | Address.WrapAddressIntendedNilSource |
| header.go:248-263 | WriteTo writes the protocol byte and length, then the address's WriteTo writes them again (address.go:134) | any PROXY header with 16-byte IPs: 3 extra bytes, and the decoder reads the payload 3 bytes early | one protocol byte and one length | not executed | HeaderProperties.ProxyOverrun | IntendedEncoding.DecodeEncode |
| address.go:71-91 | the length and the ports go through `binary.LittleEndian` while the decoder and the test vector use big-endian | port 42446 is written `ce a5`; the test expects `a5 ce` | big-endian (network order) | not executed | HeaderProperties.WriteToTestHeader | IntendedEncoding.EncodeTestHeader |
| address.go:139-145 | IPv4 WriteTo slices `IP[12:]`, which needs a 16-byte IP; the test and the decoder use 4-byte IPs | the WriteTo test header with IP {127, 0, 0, 1} panics | the 4-byte form of the IP in either width | not executed | HeaderProperties.TestHeaderNotWritable | IntendedEncoding.EncodeTestHeader |
