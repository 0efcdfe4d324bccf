/** The version/command byte of a PROXY protocol version 2 header
    (version.go): the protocol version in the high nibble, the command in the
    low nibble. */
module Version {
  import opened Wire
  import opened Streams

  /** The only protocol version a receiver accepts. */
  const ProtocolVersion: byte := 2

  /** The two assigned commands, Go's iota constants. */
  const CommandLOCAL: byte := 0
  const CommandPROXY: byte := 1

  class VersionByte {
    var protocolVersion: byte
    var command: byte

    constructor (protocolVersion: byte, command: byte)
      ensures this.protocolVersion == protocolVersion && this.command == command
    {
      this.protocolVersion := protocolVersion;
      this.command := command;
    }

    /** VersionByte.ReadFrom: one Read of a single byte, split into its two
        nibbles; on an empty reader both fields are left as they were. */
    method ReadFrom(r: Reader) returns (n: nat, err: Option<Error>)
      requires r.Valid()
      modifies this, r
      ensures r.Valid() && n <= |old(r.Remaining())| && r.Remaining() == old(r.Remaining())[n..]
      ensures old(r.Remaining()) == [] ==>
        n == 0 && err == Some(EOF) && protocolVersion == old(protocolVersion) && command == old(command)
      ensures old(r.Remaining()) != [] ==>
        var b := old(r.Remaining())[0];
        n == 1 && err == None && protocolVersion == High(b) && command == Low(b)
    {
      var data, e := r.Read(1);
      n := |data|;
      if e.Some? {
        return n, e;
      }
      protocolVersion := High(data[0]);
      command := Low(data[0]);
      err := None;
    }

    /** VersionByte.WriteTo: one Write of `protocolVersion<<4 | command`. */
    method WriteTo(w: Writer) returns (n: nat, err: Option<Error>)
      requires w.Valid()
      modifies w
      ensures w.Wrote(old(w.data), old(w.Room()), [Piece([Join(protocolVersion, command)], true)], n, err)
      ensures Fit(old(w.Room()), 1) == 1 ==>
        n == 1 && err == None && w.data == old(w.data) + [Join(protocolVersion, command)]
    {
      n, err := w.Write([Join(protocolVersion, command)]);
    }
  }

  /** Every byte is the packing of its own two nibbles. */
  lemma JoinSplit(b: byte)
    ensures Join(High(b), Low(b)) == b
  {
    var h, l := High(b) as int, Low(b) as int;
    assert (h * 16) % 256 == 16 * h;
    assert Pow2(4) == 16;
    BitOrBelow(h, l, 4);
  }

  /** Two nibbles packed and split again come back unchanged. */
  lemma SplitJoin(version: byte, command: byte)
    requires version <= 15 && command <= 15
    ensures Join(version, command) == 16 * version + command
    ensures High(Join(version, command)) == version && Low(Join(version, command)) == command
  {
    assert (version as int * 16) % 256 == 16 * version as int;
    assert Pow2(4) == 16;
    BitOrBelow(version as int, command as int, 4);
  }

  /** The two bytes a sender may emit: 0x20 for LOCAL and 0x21 for PROXY. */
  lemma AssignedVersionBytes()
    ensures Join(ProtocolVersion, CommandLOCAL) == 0x20
    ensures Join(ProtocolVersion, CommandPROXY) == 0x21
  {
  }

  /** Go's `|` does not mask the command: one above 15 changes the version
      nibble that is written. */
  lemma WideCommandChangesVersion()
    ensures High(Join(ProtocolVersion, 0x30)) == 3
  {
  }
}
