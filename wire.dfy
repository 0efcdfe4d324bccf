/** Primitive values of the PROXY protocol version 2 codec: bytes, optional
    values, the errors the codec reports, Go's fixed-size buffer copies and the
    16-bit integer encodings used on the wire. */
module Wire {

  newtype byte = x: int | 0 <= x < 256

  datatype Option<+T> = None | Some(value: T)

  /** Every error the codec returns. The first three stand for the io package's
      errors; the others carry the fields of the error the Go code builds
      (its message text is not modelled). */
  datatype Error =
    | EOF                      // io.EOF: the reader had nothing left
    | UnexpectedEOF            // a fixed-size field was cut short by the end of input
    | ShortWrite               // the writer took fewer bytes than it was given
    | ProxyProtocolError(expected: seq<byte>, found: seq<byte>)
    | UnsupportedVersion(version: byte)
    | UnsupportedCommand(command: byte)
    | UnsupportedAddressFamily(family: byte)
    | UnsupportedTransport(transport: byte)
    | TransportProtocolError(transport: byte, family: byte, addressLength: nat)

  function Min(a: int, b: int): int
  {
    if a < b then a else b
  }

  /** The contents of a freshly made Go byte slice of length `n`. */
  function Zeros(n: nat): (z: seq<byte>)
    ensures |z| == n
    ensures forall i :: 0 <= i < n ==> z[i] == 0
  {
    if n == 0 then [] else Zeros(n - 1) + [0]
  }

  /** The buffer `copy(make([]byte, size), src)` leaves behind: `src` cut at
      `size` bytes, and NUL bytes after it. */
  function CopyInto(src: seq<byte>, size: nat): (buf: seq<byte>)
    ensures |buf| == size
    ensures forall i :: 0 <= i < size ==> buf[i] == if i < |src| then src[i] else 0
    ensures |src| >= size ==> buf == src[..size]
  {
    var n := Min(size, |src|);
    src[..n] + Zeros(size - n)
  }

  /** The high nibble of a byte, Go's `b >> 4`. */
  function High(b: byte): (h: byte)
    ensures h <= 15
  {
    b / 16
  }

  /** The low nibble of a byte, Go's `b & 0x0F`. */
  function Low(b: byte): (l: byte)
    ensures l <= 15
  {
    b % 16
  }

  function Pow2(k: nat): (p: nat)
    ensures p >= 1
  {
    if k == 0 then 1 else 2 * Pow2(k - 1)
  }

  /** Bitwise or of two naturals, taken bit by bit from the least significant
      one. */
  function BitOr(x: nat, y: nat): nat
    decreases x + y
  {
    if x == 0 then y
    else if y == 0 then x
    else 2 * BitOr(x / 2, y / 2) + (if x % 2 == 1 || y % 2 == 1 then 1 else 0)
  }

  /** Or-ing two k-bit values gives a k-bit value. */
  lemma {:induction false} BitOrBound(x: nat, y: nat, k: nat)
    requires x < Pow2(k) && y < Pow2(k)
    ensures BitOr(x, y) < Pow2(k)
  {
    if x != 0 && y != 0 {
      BitOrBound(x / 2, y / 2, k - 1);
    }
  }

  /** The lowest bit of an or with an even number is the other operand's. */
  lemma BitOrShift(x: nat, y: nat)
    ensures BitOr(2 * x, y) == 2 * BitOr(x, y / 2) + y % 2
  {
    if x != 0 && y != 0 {
      assert (2 * x) / 2 == x;
    } else if x == 0 {
      assert BitOr(0, y / 2) == y / 2;
    }
  }

  /** Or-ing a multiple of 2^k with a value below 2^k is adding them. */
  lemma {:induction false} BitOrBelow(a: nat, c: nat, k: nat)
    requires c < Pow2(k)
    ensures BitOr(Pow2(k) * a, c) == Pow2(k) * a + c
  {
    if k == 0 {
      assert Pow2(0) * a == a;
    } else {
      var p := Pow2(k - 1);
      assert Pow2(k) * a == 2 * (p * a);
      BitOrShift(p * a, c);
      BitOrBelow(a, c / 2, k - 1);
    }
  }

  /** Go's `hi<<4 | lo` on bytes: the shift drops the high nibble of `hi`,
      and the `|` is a bitwise or, so a `lo` above 15 overlaps the high
      nibble. */
  function Join(hi: byte, lo: byte): byte
  {
    var shifted := (hi as int * 16) % 256;
    assert Pow2(8) == 256;
    BitOrBound(shifted, lo as int, 8);
    BitOr(shifted, lo as int) as byte
  }

  /** The value of two bytes read in network (big-endian) order. */
  function FromBE16(b: seq<byte>): (v: nat)
    requires |b| == 2
    ensures v < 65536
  {
    b[0] as int * 256 + b[1] as int
  }

  /** `v` converted to 16 bits, as Go's uint16 conversion does, in
      big-endian order. */
  function BE16(v: int): (b: seq<byte>)
    ensures |b| == 2 && FromBE16(b) == v % 65536
  {
    var u := v % 65536;
    [(u / 256) as byte, (u % 256) as byte]
  }

  /** `v` converted to 16 bits in little-endian order, the layout of
      `binary.Write(w, binary.LittleEndian, …)` for a 16-bit value. */
  function LE16(v: int): (b: seq<byte>)
    ensures |b| == 2 && FromBE16([b[1], b[0]]) == v % 65536
  {
    var u := v % 65536;
    [(u % 256) as byte, (u / 256) as byte]
  }

  /** The two bytes of a 16-bit value, high byte first. */
  lemma BE16Bytes(v: int, hi: byte, lo: byte)
    requires v == 256 * hi as int + lo as int
    ensures BE16(v) == [hi, lo]
  {
    assert v % 65536 == v;
    assert v / 256 == hi as int && v % 256 == lo as int;
  }

  /** The two bytes of a 16-bit value, low byte first. */
  lemma LE16Bytes(v: int, lo: byte, hi: byte)
    requires v == 256 * hi as int + lo as int
    ensures LE16(v) == [lo, hi]
  {
    assert v % 65536 == v;
    assert v / 256 == hi as int && v % 256 == lo as int;
  }

  /** Go's `strings.Count(s, string(c))`: the occurrences of `c` in `s`. */
  function CountChar(s: string, c: char): (n: nat)
    ensures n <= |s|
    ensures n == 0 <==> forall i :: 0 <= i < |s| ==> s[i] != c
  {
    if s == [] then 0
    else (if s[0] == c then 1 else 0) + CountChar(s[1..], c)
  }
}
