// In-memory files (bfdio.c): a buffer that grows in steps of 128 bytes, which refines
// a sequence of bytes with a position.

module MemFile {
  import opened Bytes

  // ---------- what a file is ----------

  // The contents and the position, and whether the file is open for writing.
  datatype State = State(bytes: seq<Byte>, where: nat, writable: bool)
  {
    // A position is never past the end.
    predicate Ok() { where <= |bytes| }

    // The n bytes from the position on, or as many as there are.
    function Slice(n: nat): (s: seq<Byte>)
      requires Ok()
    {
      bytes[where..Min(where + n, |bytes|)]
    }

    function AfterRead(n: nat): (s: State)
      requires Ok()
      ensures s.Ok()
    {
      this.(where := Min(where + n, |bytes|))
    }

    function AfterWrite(w: seq<Byte>): (s: State)
      requires Ok()
      ensures s.Ok()
    {
      this.(bytes := bytes[..where] + w + bytes[Min(where + |w|, |bytes|)..], where := where + |w|)
    }

    // Going to a position: a negative one leads to the start, one past the end of a
    // file that cannot grow leads to the end, and both are errors.
    predicate CanSeek(to: int) { 0 <= to && (to <= |bytes| || writable) }

    function AfterSeek(to: int): (s: State)
      requires Ok()
      ensures s.Ok()
    {
      if to < 0 then this.(where := 0)
      else if to <= |bytes| then this.(where := to)
      else if writable then this.(bytes := bytes + Zeros(to - |bytes|), where := to)
      else this.(where := |bytes|)
    }
  }

  // ---------- the buffer ----------

  // `(n + 127) & ~127`
  function RoundUp(n: nat): (r: nat)
    ensures n <= r < n + 128 && r % 128 == 0
  {
    (n + 127) / 128 * 128
  }

  // realloc: bytes that were not there before may be anything.
  method Realloc(a: array<Byte>, n: nat) returns (b: array<Byte>)
    ensures fresh(b) && b.Length == n
    ensures forall i {:trigger b[i]} :: 0 <= i < n && i < a.Length ==> b[i] == a[i]
  {
    b := new Byte[n];
    for i := 0 to Min(a.Length, n)
      invariant forall j {:trigger b[j]} :: 0 <= j < i ==> b[j] == a[j]
    {
      b[i] := a[i];
    }
  }

  // A buffer of n bytes with nothing but zeros after the first `size`.
  ghost predicate ZeroAfter(a: seq<Byte>, size: nat) {
    forall i {:trigger a[i]} :: size <= i < |a| ==> a[i] == 0
  }

  // The file's `struct bfd_in_memory` and the members of its bfd that matter here.
  class File {
    const writable: bool
    var where: nat
    var size: nat
    var buffer: array<Byte>

    // An empty file, or one over a buffer that cannot be written.
    constructor ()
      ensures Valid() && Value() == State([], 0, true) && fresh(buffer)
    {
      writable, where, size := true, 0, 0;
      buffer := new Byte[0];
    }

    constructor Over(buffer: array<Byte>, size: nat)
      requires size <= buffer.Length
      ensures Valid() && Value() == State(buffer[..size], 0, false)
    {
      this.writable, this.where, this.size, this.buffer := false, 0, size, buffer;
    }

    ghost predicate Valid()
      reads this, buffer
    {
      && where <= size <= buffer.Length
      && (writable ==> buffer.Length == RoundUp(size) && ZeroAfter(buffer[..], size))
    }

    ghost function Value(): State
      requires Valid()
      reads this, buffer
    {
      State(buffer[..size], where, writable)
    }

    ghost predicate Holds(s: State)
      reads this, buffer
    {
      Valid() && Value() == s && s.Ok()
    }

    // memory_bread
    method Read(n: nat, ghost s: State) returns (r: seq<Byte>)
      requires Holds(s)
      ensures r == s.Slice(n)
    {
      var get := n;
      if where + get > size {
        if size < where {
          get := 0;
        } else {
          get := size - where;
        }
      }
      r := buffer[where..where + get];
    }

    // Whether the buffer can hold `to` bytes when the rounded sizes have been compared.
    // That of a file open for writing always can; that of another one need not be as
    // long as its rounded size.
    ghost predicate HasRoom(to: nat)
      reads this, buffer
    {
      writable || to <= buffer.Length || RoundUp(to) > RoundUp(size)
    }

    // Making room for `to` bytes in all; `zeroFrom` is where the bytes to clear start.
    method Grow(to: nat, zeroFrom: nat)
      requires Valid() && size < to && HasRoom(to)
      requires zeroFrom == to || (writable && zeroFrom == RoundUp(size))
      modifies this
      ensures where == old(where) && size == to <= buffer.Length && (writable ==> buffer.Length == RoundUp(to))
      ensures buffer == old(buffer) || fresh(buffer)
      ensures forall i {:trigger buffer[i]} :: 0 <= i < buffer.Length && i < old(buffer.Length) ==>
                buffer[i] == old(buffer[i]) || i >= to
      ensures writable ==> forall i {:trigger buffer[i]} :: 0 <= i < old(buffer.Length) ==> buffer[i] == old(buffer[i])
      ensures writable ==> forall i {:trigger buffer[i]} :: zeroFrom <= i < buffer.Length ==> buffer[i] == 0
    {
      var oldsize := RoundUp(size);
      size := to;
      var newsize := RoundUp(size);
      if newsize > oldsize {
        buffer := Realloc(buffer, newsize);
        MemZero(buffer, zeroFrom, newsize - zeroFrom);
      }
    }

    // memory_bwrite, which does not ask whether the file is open for writing.
    method Write(w: seq<Byte>, ghost s: State)
      requires Holds(s) && HasRoom(where + |w|)
      modifies this, buffer
      ensures where == old(where) && size == |s.AfterWrite(w).bytes| && (buffer == old(buffer) || fresh(buffer))
      ensures size <= buffer.Length && buffer[..size] == s.AfterWrite(w).bytes
      ensures writable ==> buffer.Length == RoundUp(size) && ZeroAfter(buffer[..], size)
    {
      if where + |w| > size {
        Grow(where + |w|, where + |w|);
      }
      ghost var was := buffer[..];
      Store(buffer, where, w);
      assert forall i {:trigger buffer[i]} :: 0 <= i < buffer.Length ==>
        buffer[i] == if where <= i < where + |w| then w[i - where] else was[i];
      WrittenIs(s, w, buffer[..size]);
    }

    // memory_bseek: on success it is for the caller to move the position.
    method SeekTo(nwhere: int, ghost s: State) returns (ok: bool)
      requires Holds(s)
      modifies this
      ensures Valid() && ok == s.CanSeek(nwhere)
      ensures ok ==> where == s.where && Value().bytes == s.AfterSeek(nwhere).bytes
      ensures !ok ==> Value() == s.AfterSeek(nwhere)
      ensures buffer == old(buffer) || fresh(buffer)
    {
      if nwhere < 0 {
        where := 0;
        return false;
      }
      if nwhere > size {
        if writable {
          ghost var was := buffer[..];
          Grow(nwhere, RoundUp(size));
          assert forall i {:trigger buffer[i]} :: 0 <= i < nwhere ==>
                   buffer[i] == if i < |s.bytes| then s.bytes[i] else 0;
          assert buffer[..size] == s.bytes + Zeros(nwhere - |s.bytes|);
        } else {
          where := size;
          return false;
        }
      }
      ok := true;
    }
  }

  lemma WrittenIs(s: State, w: seq<Byte>, now: seq<Byte>)
    requires s.Ok() && |now| == |s.AfterWrite(w).bytes|
    requires forall i {:trigger now[i]} :: 0 <= i < |now| ==>
               now[i] == if s.where <= i < s.where + |w| then w[i - s.where]
                         else if i < |s.bytes| then s.bytes[i] else 0
    ensures now == s.AfterWrite(w).bytes
  {
  }

  // ---------- bfd_bread, bfd_bwrite, bfd_seek and bfd_tell ----------

  // A bfd: a file of its own, or an element at `origin` of an archive (that is not
  // thin).  An archive element has a size, from its header.
  datatype Bfd = Own(file: File, eltSize: Limit) | Inside(archive: Bfd, origin: nat, eltSize: Limit)
  {
    function Outer(): File { if Own? then file else archive.Outer() }

    // Where it starts in that file.
    function Offset(): nat { if Own? then 0 else origin + archive.Offset() }
  }

  datatype Limit = NoLimit | Limit(size: nat)

  // The loop at the start of each of the functions.
  method Resolve(b: Bfd) returns (f: File, offset: nat)
    ensures f == b.Outer() && offset == b.Offset()
  {
    var abfd := b;
    offset := 0;
    while abfd.Inside?
      invariant abfd.Outer() == b.Outer() && offset + abfd.Offset() == b.Offset()
      decreases abfd
    {
      offset := offset + abfd.origin;
      abfd := abfd.archive;
    }
    f := abfd.file;
  }

  datatype Result<T> = Done(value: T) | Error

  // How much an element lets be read, if anything: nothing before or past its bytes,
  // and no more than are left of them.
  function Allowed(s: State, offset: nat, limit: Limit, n: nat): Result<nat> {
    if limit.NoLimit? then Done(n)
    else if s.where < offset || s.where - offset >= limit.size then Error
    else Done(Min(n, limit.size - (s.where - offset)))
  }

  // bfd_bread
  method Bread(b: Bfd, n: nat, ghost s: State) returns (r: Result<seq<Byte>>)
    requires b.Outer().Holds(s)
    modifies b.Outer()`where
    ensures var allowed := Allowed(s, b.Offset(), b.eltSize, n);
            && (allowed.Error? ==> r.Error? && b.Outer().Holds(s))
            && (allowed.Done? ==> r == Done(s.Slice(allowed.value)) && b.Outer().Holds(s.AfterRead(allowed.value)))
  {
    ghost var outer := b.Outer();
    assert outer.Holds(s);
    var f, offset := Resolve(b);
    var size := n;
    if b.eltSize.Limit? {
      var maxbytes := b.eltSize.size;
      if f.where < offset || f.where - offset >= maxbytes {
        return Error;
      }
      if f.where - offset + size > maxbytes {
        size := maxbytes - (f.where - offset);
      }
    }
    var bytes := f.Read(size, s);
    f.where := f.where + |bytes|;
    r := Done(bytes);
  }

  // bfd_bwrite
  method Bwrite(b: Bfd, w: seq<Byte>, ghost s: State)
    requires b.Outer().Holds(s) && b.Outer().HasRoom(s.where + |w|)
    modifies b.Outer(), b.Outer().buffer
    ensures b.Outer().Holds(s.AfterWrite(w))
    ensures b.Outer().buffer == old(b.Outer().buffer) || fresh(b.Outer().buffer)
  {
    ghost var outer := b.Outer();
    assert outer.Holds(s);
    var f, _ := Resolve(b);
    f.Write(w, s);
    f.where := f.where + |w|;
  }

  // bfd_tell
  method Tell(b: Bfd, ghost s: State) returns (p: int)
    requires b.Outer().Holds(s)
    ensures p == s.where - b.Offset()
  {
    ghost var outer := b.Outer();
    assert outer.Holds(s);
    var f, offset := Resolve(b);
    p := f.where - offset;
  }

  datatype Whence = SeekSet | SeekCur

  function Target(s: State, offset: nat, position: int, direction: Whence): int {
    if direction == SeekSet then position + offset else s.where + position
  }

  // bfd_seek
  method Seek(b: Bfd, position: int, direction: Whence, ghost s: State) returns (ok: bool)
    requires b.Outer().Holds(s)
    modifies b.Outer()
    ensures var to := Target(s, b.Offset(), position, direction);
            ok == s.CanSeek(to) && b.Outer().Holds(s.AfterSeek(to))
    ensures b.Outer().buffer == old(b.Outer().buffer) || fresh(b.Outer().buffer)
  {
    ghost var outer := b.Outer();
    assert outer.Holds(s);
    var f, offset := Resolve(b);
    var to := if direction == SeekCur then position else position + offset;
    if (direction == SeekCur && to == 0) || (direction == SeekSet && to == f.where) {
      return true;
    }
    var nwhere := if direction == SeekSet then to else f.where + to;
    ok := f.SeekTo(nwhere, s);
    if ok {
      f.where := nwhere;
    }
  }

  // ---------- runs ----------

  // Calls on a file and on elements inside it.
  datatype Op =
    | ReadOp(b: Bfd, n: nat)
    | WriteOp(b: Bfd, w: seq<Byte>)
    | SeekOp(b: Bfd, position: int, direction: Whence)
    | TellOp(b: Bfd)

  datatype Outcome = Got(bytes: Result<seq<Byte>>) | Wrote | Sought(ok: bool) | Told(p: int)

  // What a call gives.
  function OutcomeOf(s: State, op: Op): Outcome
    requires s.Ok()
  {
    match op
    case ReadOp(b, n) =>
      var allowed := Allowed(s, b.Offset(), b.eltSize, n);
      Got(if allowed.Error? then Error else Done(s.Slice(allowed.value)))
    case WriteOp(_, _) => Wrote
    case SeekOp(b, position, direction) => Sought(s.CanSeek(Target(s, b.Offset(), position, direction)))
    case TellOp(b) => Told(s.where - b.Offset())
  }

  // And what it leaves.
  function After(s: State, op: Op): (t: State)
    requires s.Ok()
    ensures t.Ok() && t.writable == s.writable
  {
    match op
    case ReadOp(b, n) =>
      var allowed := Allowed(s, b.Offset(), b.eltSize, n);
      if allowed.Error? then s else s.AfterRead(allowed.value)
    case WriteOp(_, w) => s.AfterWrite(w)
    case SeekOp(b, position, direction) => s.AfterSeek(Target(s, b.Offset(), position, direction))
    case TellOp(_) => s
  }

  // A file that is not open for writing is not written past its end.
  predicate Fits(s: State, op: Op) { op.WriteOp? ==> s.writable || s.where + |op.w| <= |s.bytes| }

  predicate FitsAll(s: State, ops: seq<Op>)
    requires s.Ok()
    decreases |ops|
  {
    ops != [] ==> Fits(s, ops[0]) && FitsAll(After(s, ops[0]), ops[1..])
  }

  function AfterAll(s: State, ops: seq<Op>): (t: State)
    requires s.Ok()
    ensures t.Ok()
    decreases |ops|
  {
    if ops == [] then s else AfterAll(After(s, ops[0]), ops[1..])
  }

  function Outcomes(s: State, ops: seq<Op>): seq<Outcome>
    requires s.Ok()
    decreases |ops|
  {
    if ops == [] then [] else [OutcomeOf(s, ops[0])] + Outcomes(After(s, ops[0]), ops[1..])
  }

  lemma FittingHasRoom(f: File, s: State, w: seq<Byte>)
    requires f.Holds(s) && (s.writable || s.where + |w| <= |s.bytes|)
    ensures f.HasRoom(s.where + |w|)
  {
  }

  method Call(op: Op, ghost f: File, ghost s: State) returns (r: Outcome)
    requires f.Holds(s) && f == op.b.Outer() && Fits(s, op)
    modifies f, f.buffer
    ensures r == OutcomeOf(s, op) && f.Holds(After(s, op))
    ensures f.buffer == old(f.buffer) || fresh(f.buffer)
  {
    hide File.Valid, State.Slice, State.AfterRead, State.AfterWrite, State.AfterSeek;
    match op
    case ReadOp(b, n) =>
      var bytes := Bread(b, n, s);
      r := Got(bytes);
    case WriteOp(b, w) =>
      FittingHasRoom(f, s, w);
      Bwrite(b, w, s);
      r := Wrote;
    case SeekOp(b, position, direction) =>
      var ok := Seek(b, position, direction, s);
      r := Sought(ok);
    case TellOp(b) =>
      var p := Tell(b, s);
      r := Told(p);
  }

  // Any run of calls does to the buffer what it does to the sequence.
  method CallAll(ops: seq<Op>, ghost f: File, ghost s: State) returns (rs: seq<Outcome>)
    requires f.Holds(s) && FitsAll(s, ops) && forall i {:trigger ops[i]} :: 0 <= i < |ops| ==> ops[i].b.Outer() == f
    modifies f, f.buffer
    ensures rs == Outcomes(s, ops) && f.Holds(AfterAll(s, ops))
  {
    hide File.Valid, OutcomeOf, After;
    rs := [];
    ghost var now := s;
    for i := 0 to |ops|
      invariant now.Ok() && f.Holds(now) && (f.buffer == old(f.buffer) || fresh(f.buffer))
      invariant FitsAll(now, ops[i..])
      invariant rs + Outcomes(now, ops[i..]) == Outcomes(s, ops) && AfterAll(now, ops[i..]) == AfterAll(s, ops)
    {
      assert ops[i..][1..] == ops[i + 1..] && ops[i..][0] == ops[i];
      var r := Call(ops[i], f, now);
      assert rs + ([r] + Outcomes(After(now, ops[i]), ops[i + 1..]))
             == (rs + [r]) + Outcomes(After(now, ops[i]), ops[i + 1..]);
      rs := rs + [r];
      now := After(now, ops[i]);
    }
    assert rs + [] == rs;
  }

  // ---------- what the file holds ----------

  // Byte i of a file that goes on with zeros for ever.
  function Tape(s: State, i: nat): Byte { if i < |s.bytes| then s.bytes[i] else 0 }

  // Only writing changes it, and only where it writes: not even a seek past the end.
  lemma TapeAfter(s: State, op: Op, i: nat)
    requires s.Ok()
    ensures Tape(After(s, op), i)
            == if op.WriteOp? && s.where <= i < s.where + |op.w| then op.w[i - s.where] else Tape(s, i)
  {
  }

  // The last byte that a run writes at i, or v if there is none.
  function LastWritten(s: State, ops: seq<Op>, i: nat, v: Byte): Byte
    requires s.Ok()
    decreases |ops|
  {
    if ops == [] then v
    else
      var op := ops[0];
      LastWritten(After(s, op), ops[1..], i,
                  if op.WriteOp? && s.where <= i < s.where + |op.w| then op.w[i - s.where] else v)
  }

  // After any run each byte is the last one written there, or zero if none was and the
  // file was empty.
  lemma {:induction false} EveryByteIsTheLastWritten(s: State, ops: seq<Op>, i: nat)
    requires s.Ok()
    ensures Tape(AfterAll(s, ops), i) == LastWritten(s, ops, i, Tape(s, i))
    decreases |ops|
  {
    hide After;
    if ops != [] {
      TapeAfter(s, ops[0], i);
      EveryByteIsTheLastWritten(After(s, ops[0]), ops[1..], i);
    }
  }

  // A file never shrinks, and one that cannot be written stays as it is.
  lemma {:induction false} SizeNeverShrinks(s: State, ops: seq<Op>)
    requires s.Ok()
    ensures |s.bytes| <= |AfterAll(s, ops).bytes|
    ensures !s.writable && (forall op :: op in ops ==> !op.WriteOp?) ==> AfterAll(s, ops).bytes == s.bytes
    decreases |ops|
  {
    if ops != [] {
      SizeNeverShrinks(After(s, ops[0]), ops[1..]);
      assert forall op :: op in ops[1..] ==> op in ops;
    }
  }

  // Reading an element from position p of its own gives its bytes from there on, up to
  // its end, the end of the file, or the number asked for, and nothing at or past its
  // end; a position before the element is an error.
  lemma ElementIsAWindow(s: State, b: Bfd, p: int, n: nat)
    requires s.Ok() && b.eltSize.Limit? && 0 <= b.Offset() + p <= |s.bytes|
    ensures var t := After(s, SeekOp(b, p, SeekSet));
            && OutcomeOf(s, SeekOp(b, p, SeekSet)) == Sought(true)
            && OutcomeOf(t, TellOp(b)) == Told(p)
            && OutcomeOf(t, ReadOp(b, n))
               == Got(if 0 <= p < b.eltSize.size
                      then Done(s.bytes[b.Offset() + p..Min(b.Offset() + Min(p + n, b.eltSize.size), |s.bytes|)])
                      else Error)
  {
  }
}
