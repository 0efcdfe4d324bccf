/** In-memory stand-ins for the io.Reader and io.Writer the codec is given.

    The reader has the semantics of Go's bytes.Reader, over which the decoder
    is exercised: one Read into a k-byte buffer copies min(k, remaining) bytes,
    and it reports io.EOF only when nothing is left.

    The writer is a byte sink that may have a capacity. Without one it is
    Go's bytes.Buffer and never fails; with one it takes what fits and then
    reports a short write, which is what makes the early returns of the
    encoder observable. The bytes an encoder means to write are given as a
    sequence of pieces (one per Write call it makes), and `Emit` says what a
    writer with a given room left ends up holding and what count the encoder
    reports. */
module Streams {
  import opened Wire

  /** The bytes one Read into a k-byte buffer takes from `s`. */
  function Chunk(s: seq<byte>, k: nat): seq<byte>
  {
    s[..Min(k, |s|)]
  }

  /** The outcome of filling a k-byte field from `s` (io.ReadFull): success
      when enough is left, io.EOF when nothing is, io.ErrUnexpectedEOF when
      the field is cut short. */
  function FullStatus(s: seq<byte>, k: nat): Option<Error>
  {
    if k <= |s| then None else if s == [] then Some(EOF) else Some(UnexpectedEOF)
  }

  class Reader {
    const data: seq<byte>
    var pos: nat

    ghost predicate Valid()
      reads this
    {
      pos <= |data|
    }

    /** The bytes not read yet. */
    function Remaining(): seq<byte>
      reads this
      requires Valid()
    {
      data[pos..]
    }

    constructor (s: seq<byte>)
      ensures Valid() && data == s && pos == 0 && Remaining() == s
    {
      data := s;
      pos := 0;
    }

    /** bytes.Reader.Read into a buffer of `k` bytes. */
    method Read(k: nat) returns (chunk: seq<byte>, err: Option<Error>)
      requires Valid()
      modifies this
      ensures Valid() && pos == old(pos) + |chunk|
      ensures chunk == Chunk(old(Remaining()), k)
      ensures Remaining() == old(Remaining())[|chunk|..]
      ensures err == if old(Remaining()) == [] then Some(EOF) else None
    {
      if pos == |data| {
        return [], Some(EOF);
      }
      var n := Min(k, |data| - pos);
      chunk := data[pos..pos + n];
      pos := pos + n;
      err := None;
    }

    /** Fills a field of `k` bytes. Over this reader one Read already takes
        everything that is available, so no retry loop is needed. */
    method ReadFull(k: nat) returns (chunk: seq<byte>, err: Option<Error>)
      requires Valid()
      modifies this
      ensures Valid() && pos == old(pos) + |chunk|
      ensures chunk == Chunk(old(Remaining()), k)
      ensures Remaining() == old(Remaining())[|chunk|..]
      ensures err == FullStatus(old(Remaining()), k)
    {
      var n := Min(k, |data| - pos);
      chunk := data[pos..pos + n];
      pos := pos + n;
      err := if n == k then None else if n == 0 then Some(EOF) else Some(UnexpectedEOF);
    }
  }

  /** How much more a writer accepts. */
  datatype Room = Unlimited | Limited(left: nat)

  /** How many of `k` bytes fit. */
  function Fit(room: Room, k: nat): (n: nat)
    ensures n <= k
  {
    if room.Limited? then Min(k, room.left) else k
  }

  /** The room left after `k` more bytes. */
  function After(room: Room, k: nat): Room
  {
    if room.Limited? then Limited(if k <= room.left then room.left - k else 0) else Unlimited
  }

  /** One Write call of an encoder. `counted` tells whether the encoder adds
      the count that Write returns (a plain `w.Write`) or adds the size of the
      piece only once it was written whole (`binary.Write`, which reports no
      count). */
  datatype Piece = Piece(bytes: seq<byte>, counted: bool)

  /** What a run of Write calls leaves: the bytes the writer took, the count
      the encoder reports, and whether every call succeeded. */
  datatype Emitted = Emitted(written: seq<byte>, count: nat, ok: bool)

  function Status(e: Emitted): Option<Error>
  {
    if e.ok then None else Some(ShortWrite)
  }

  /** All the bytes of a run of pieces. */
  function Flatten(ps: seq<Piece>): seq<byte>
  {
    if ps == [] then [] else ps[0].bytes + Flatten(ps[1..])
  }

  /** The pieces written one after the other, stopping at the first Write
      that does not fit, as an encoder with an early return on error does. */
  function Emit(ps: seq<Piece>, room: Room): Emitted
  {
    if ps == [] then Emitted([], 0, true)
    else
      var b := ps[0].bytes;
      var n := Fit(room, |b|);
      if n < |b| then Emitted(b[..n], if ps[0].counted then n else 0, false)
      else
        var e := Emit(ps[1..], After(room, n));
        Emitted(b + e.written, n + e.count, e.ok)
  }

  /** The outcome of two runs written one after the other. */
  function Then(first: Emitted, second: Emitted): Emitted
  {
    Emitted(first.written + second.written, first.count + second.count, second.ok)
  }

  lemma {:induction false} FlattenAppend(ps: seq<Piece>, qs: seq<Piece>)
    ensures Flatten(ps + qs) == Flatten(ps) + Flatten(qs)
  {
    if ps == [] {
      assert ps + qs == qs;
    } else {
      assert (ps + qs)[1..] == ps[1..] + qs;
      FlattenAppend(ps[1..], qs);
    }
  }

  lemma FlattenOne(p: Piece)
    ensures Flatten([p]) == p.bytes
  {
    assert [p][1..] == [];
  }

  /** A run of Write calls that starts with a single one. */
  lemma FlattenCons(p: Piece, qs: seq<Piece>)
    ensures Flatten([p] + qs) == p.bytes + Flatten(qs)
  {
    FlattenAppend([p], qs);
    FlattenOne(p);
  }

  /** A run of Write calls that starts with three single ones. */
  lemma FlattenThree(p: Piece, q: Piece, r: Piece, ts: seq<Piece>)
    ensures Flatten([p] + [q] + ([r] + ts)) == p.bytes + q.bytes + r.bytes + Flatten(ts)
  {
    assert [p] + [q] + ([r] + ts) == [p] + ([q] + ([r] + ts));
    FlattenCons(p, [q] + ([r] + ts));
    FlattenCons(q, [r] + ts);
    FlattenCons(r, ts);
  }

  /** Writing `ps` then `qs` is writing `ps`, and, only if all of it went
      through, `qs` into the room that is left. */
  lemma {:induction false} EmitAppend(ps: seq<Piece>, qs: seq<Piece>, room: Room)
    ensures AppendLaw(ps, qs, room)
  {
    if ps == [] {
      AppendEmpty(qs, room);
    } else if Fit(room, |ps[0].bytes|) == |ps[0].bytes| {
      EmitAppend(ps[1..], qs, After(room, |ps[0].bytes|));
      AppendFits(ps, qs, room);
    } else {
      AppendCut(ps, qs, room);
    }
  }

  ghost predicate AppendLaw(ps: seq<Piece>, qs: seq<Piece>, room: Room)
  {
    var e := Emit(ps, room);
    Emit(ps + qs, room) == if e.ok then Then(e, Emit(qs, After(room, |e.written|))) else e
  }

  lemma AppendEmpty(qs: seq<Piece>, room: Room)
    ensures AppendLaw([], qs, room)
  {
    var e := Emit([], room);
    assert [] + qs == qs;
    assert After(room, 0) == room;
    var g := Emit(qs, room);
    assert [] + g.written == g.written;
    assert Emit(qs, room) == Then(e, g);
  }

  lemma AppendCut(ps: seq<Piece>, qs: seq<Piece>, room: Room)
    requires ps != [] && Fit(room, |ps[0].bytes|) < |ps[0].bytes|
    ensures AppendLaw(ps, qs, room)
  {
    var all := ps + qs;
    assert all[0] == ps[0];
  }

  lemma AppendFits(ps: seq<Piece>, qs: seq<Piece>, room: Room)
    requires ps != [] && Fit(room, |ps[0].bytes|) == |ps[0].bytes|
    requires AppendLaw(ps[1..], qs, After(room, |ps[0].bytes|))
    ensures AppendLaw(ps, qs, room)
  {
    var b := ps[0].bytes;
    var n := |b|;
    var room' := After(room, n);
    var e' := Emit(ps[1..], room');
    var f := Emit(ps[1..] + qs, room');
    EmitFirst(ps, room);
    EmitFirst(ps + qs, room);
    assert (ps + qs)[0] == ps[0];
    assert (ps + qs)[1..] == ps[1..] + qs;
    if e'.ok {
      var g := Emit(qs, After(room', |e'.written|));
      AfterAfter(room, n, |e'.written|);
      ConcatAssoc(b, e'.written, g.written);
    }
  }

  /** One unfolding of Emit when the first piece fits. */
  lemma EmitFirst(ps: seq<Piece>, room: Room)
    requires ps != [] && Fit(room, |ps[0].bytes|) == |ps[0].bytes|
    ensures var e := Emit(ps[1..], After(room, |ps[0].bytes|));
      Emit(ps, room) == Emitted(ps[0].bytes + e.written, |ps[0].bytes| + e.count, e.ok)
  {
  }

  lemma ConcatAssoc(a: seq<byte>, b: seq<byte>, c: seq<byte>)
    ensures a + (b + c) == (a + b) + c
  {
  }

  lemma AfterAfter(room: Room, a: nat, b: nat)
    requires Fit(room, a) == a
    ensures After(After(room, a), b) == After(room, a + b)
  {
  }

  /** A writer with room for `left` more bytes takes exactly the first `left`
      bytes of the pieces, and every call succeeds if and only if all of them
      fit. */
  lemma {:induction false} EmitTakesPrefix(ps: seq<Piece>, room: Room)
    ensures var all := Flatten(ps); var e := Emit(ps, room);
      e.written == all[..Fit(room, |all|)] && (e.ok <==> Fit(room, |all|) == |all|)
  {
    if ps != [] {
      var b := ps[0].bytes;
      var n := Fit(room, |b|);
      var all := Flatten(ps);
      assert all == b + Flatten(ps[1..]);
      if n == |b| {
        EmitTakesPrefix(ps[1..], After(room, n));
      }
    }
  }

  /** The count an encoder reports never exceeds what it wrote, equals it
      when every call succeeded, and equals it on failure too unless the
      call that failed was a `binary.Write` that was cut short. */
  lemma {:induction false} EmitCount(ps: seq<Piece>, room: Room)
    ensures var e := Emit(ps, room); e.count <= |e.written|
    ensures var e := Emit(ps, room); e.ok ==> e.count == |e.written| == |Flatten(ps)|
    ensures (forall i :: 0 <= i < |ps| ==> ps[i].counted) ==> Emit(ps, room).count == |Emit(ps, room).written|
  {
    if ps != [] {
      var n := Fit(room, |ps[0].bytes|);
      if n == |ps[0].bytes| {
        assert forall i :: 0 <= i < |ps[1..]| ==> ps[1..][i] == ps[i + 1];
        EmitCount(ps[1..], After(room, n));
      }
    }
  }

  /** Writing `done` went through: it put exactly its bytes down. */
  lemma Continue(done: seq<Piece>, next: seq<Piece>, room: Room)
    requires Emit(done, room).ok
    ensures Emit(done, room).written == Flatten(done)
    ensures Emit(done + next, room) == Then(Emit(done, room), Emit(next, After(room, |Flatten(done)|)))
  {
    EmitTakesPrefix(done, room);
    EmitAppend(done, next, room);
  }

  /** Writing `failed` stopped early: nothing after it is attempted. */
  lemma Stop(failed: seq<Piece>, rest: seq<Piece>, room: Room)
    requires !Emit(failed, room).ok
    ensures Emit(failed + rest, room) == Emit(failed, room)
  {
    EmitAppend(failed, rest, room);
  }

  /** A run of pieces written to a sink holding `before` with `room` left
      leaves it holding `after` with `roomAfter` left, and the encoder
      reports `m` and `err`. */
  ghost predicate Outcome(before: seq<byte>, room: Room, ps: seq<Piece>, m: int, err: Option<Error>,
                          after: seq<byte>, roomAfter: Room)
  {
    var e := Emit(ps, room);
    after == before + e.written && roomAfter == After(room, |e.written|) && m == e.count && err == Status(e)
  }

  /** A run that went through, followed by another run from where it left
      off, is the run of both. */
  lemma OutcomeThen(before: seq<byte>, room: Room, ps: seq<Piece>, m1: int,
                    mid: seq<byte>, roomMid: Room, qs: seq<Piece>, m2: int, err: Option<Error>,
                    after: seq<byte>, roomAfter: Room)
    requires Outcome(before, room, ps, m1, None, mid, roomMid)
    requires Outcome(mid, roomMid, qs, m2, err, after, roomAfter)
    ensures Outcome(before, room, ps + qs, m1 + m2, err, after, roomAfter)
  {
    var e1, e2 := Emit(ps, room), Emit(qs, roomMid);
    EmitBoth(ps, qs, room, roomMid);
    EmitTakesPrefix(ps, room);
    ThenWritten(before, e1, e2, mid, after);
    ThenRoom(room, e1, e2, roomMid, roomAfter);
  }

  /** The second run starts from the room the first one left. */
  lemma EmitBoth(ps: seq<Piece>, qs: seq<Piece>, room: Room, roomMid: Room)
    requires Emit(ps, room).ok && roomMid == After(room, |Emit(ps, room).written|)
    ensures Emit(ps + qs, room) == Then(Emit(ps, room), Emit(qs, roomMid))
  {
    Continue(ps, qs, room);
  }

  /** The bytes of two runs one after the other. */
  lemma ThenWritten(before: seq<byte>, e1: Emitted, e2: Emitted, mid: seq<byte>, after: seq<byte>)
    requires mid == before + e1.written && after == mid + e2.written
    ensures after == before + Then(e1, e2).written
  {
    ConcatAssoc(before, e1.written, e2.written);
  }

  /** The room left after two runs that both went as far as they could. */
  lemma ThenRoom(room: Room, e1: Emitted, e2: Emitted, roomMid: Room, roomAfter: Room)
    requires e1.ok && Fit(room, |e1.written|) == |e1.written|
    requires roomMid == After(room, |e1.written|) && roomAfter == After(roomMid, |e2.written|)
    ensures roomAfter == After(room, |Then(e1, e2).written|)
  {
    AfterAfter(room, |e1.written|, |e2.written|);
  }

  /** A run that failed ends the encoder: the pieces after it are never
      attempted. */
  lemma OutcomeStop(before: seq<byte>, room: Room, ps: seq<Piece>, m: int, err: Option<Error>,
                    after: seq<byte>, roomAfter: Room, rest: seq<Piece>)
    requires Outcome(before, room, ps, m, err, after, roomAfter) && err.Some?
    ensures Outcome(before, room, ps + rest, m, err, after, roomAfter)
  {
    Stop(ps, rest, room);
  }

  /** A sink without a capacity takes every piece whole, and the encoder
      reports all of them. */
  lemma {:induction false} EmitUnlimited(ps: seq<Piece>)
    ensures Emit(ps, Unlimited) == Emitted(Flatten(ps), |Flatten(ps)|, true)
  {
    if ps != [] {
      EmitUnlimited(ps[1..]);
    }
  }

  class Writer {
    var data: seq<byte>
    const bounded: bool
    const capacity: nat

    ghost predicate Valid()
      reads this
    {
      bounded ==> |data| <= capacity
    }

    function Room(): Room
      reads this
      requires Valid()
    {
      if bounded then Limited(capacity - |data|) else Unlimited
    }

    /** The writer took the bytes of `ps` from a state holding `before` with
        `room` left, and `m` and `err` are what the encoder reports. */
    ghost predicate Wrote(before: seq<byte>, room: Room, ps: seq<Piece>, m: int, err: Option<Error>)
      reads this
    {
      Valid() && Outcome(before, room, ps, m, err, data, Room())
    }

    /** An empty bytes.Buffer. */
    constructor Buffer()
      ensures Valid() && data == [] && Room() == Unlimited
    {
      data := [];
      bounded := false;
      capacity := 0;
    }

    /** An empty sink that takes at most `capacity` bytes. */
    constructor Bounded(capacity: nat)
      ensures Valid() && data == [] && Room() == Limited(capacity)
    {
      data := [];
      bounded := true;
      this.capacity := capacity;
    }

    /** io.Writer.Write: takes what fits and reports an error if that is
        less than all of `p`. */
    method Write(p: seq<byte>) returns (n: nat, err: Option<Error>)
      requires Valid()
      modifies this
      ensures Wrote(old(data), old(Room()), [Piece(p, true)], n, err)
      ensures n <= |p| && data == old(data) + p[..n]
      ensures err.None? <==> n == |p|
    {
      n := Fit(Room(), |p|);
      data := data + p[..n];
      err := if n == |p| then None else Some(ShortWrite);
    }

    /** binary.Write of a 16-bit value: one Write of its two bytes, whose
        count is not reported. */
    method BinaryWrite(b: seq<byte>) returns (err: Option<Error>)
      requires Valid() && |b| == 2
      modifies this
      ensures Wrote(old(data), old(Room()), [Piece(b, false)], if err.None? then 2 else 0, err)
    {
      var n;
      n, err := Write(b);
    }
  }
}
