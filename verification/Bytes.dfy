// Bytes, target words and the two C library block operations that the
// modules of this project share.

module Bytes {

  type Byte = x: int | 0 <= x < 0x100

  datatype Option<T> = None | Some(value: T)

  function Min(a: nat, b: nat): nat { if a < b then a else b }

  // 256^n
  function Power256(n: nat): (p: nat)
    ensures p > 0
  {
    if n == 0 then 1 else 0x100 * Power256(n - 1)
  }

  // The number that little-endian bytes stand for.
  function LittleValue(s: seq<Byte>): (v: nat)
  {
    if s == [] then 0 else s[0] as int + 0x100 * LittleValue(s[1..])
  }

  // The low n bytes of v, little-endian.
  function LittleBytes(v: int, n: nat): (s: seq<Byte>)
    ensures |s| == n
    decreases n
  {
    if n == 0 then [] else [v % 0x100] + LittleBytes(v / 0x100, n - 1)
  }

  function Reversed<T>(s: seq<T>): (r: seq<T>)
    ensures |r| == |s|
    ensures forall i {:trigger r[i]} :: 0 <= i < |s| ==> r[i] == s[|s| - 1 - i]
  {
    seq(|s|, i requires 0 <= i < |s| => s[|s| - 1 - i])
  }

  // How a target reads and writes numbers: the bfd_getx and bfd_putx members of
  // its transfer vector, for any number of bytes.
  datatype Codec = Codec(get: seq<Byte> -> nat, put: (int, nat) -> seq<Byte>)

  // A number written in n bytes reads back modulo 256^n.
  ghost predicate RoundTrips(c: Codec) {
    forall v, n: nat {:trigger c.put(v, n)} :: |c.put(v, n)| == n && c.get(c.put(v, n)) == v % Power256(n)
  }

  lemma BigRoundTrip(v: int, n: nat)
    ensures LittleValue(Reversed(Reversed(LittleBytes(v, n)))) == v % Power256(n)
  {
    LittleRoundTrip(v, n);
    assert Reversed(Reversed(LittleBytes(v, n))) == LittleBytes(v, n);
  }

  function LittleEndian(): (c: Codec)
    ensures RoundTrips(c)
  {
    var c := Codec(s => LittleValue(s), (v, n) => LittleBytes(v, n));
    assert RoundTrips(c) by {
      forall v, n: nat ensures |c.put(v, n)| == n && c.get(c.put(v, n)) == v % Power256(n) {
        LittleRoundTrip(v, n);
      }
    }
    c
  }

  function BigEndian(): (c: Codec)
    ensures RoundTrips(c)
  {
    var c := Codec(s => LittleValue(Reversed(s)), (v, n) => Reversed(LittleBytes(v, n)));
    assert RoundTrips(c) by {
      forall v, n: nat ensures |c.put(v, n)| == n && c.get(c.put(v, n)) == v % Power256(n) {
        BigRoundTrip(v, n);
      }
    }
    c
  }

  lemma OneByteMore(s: seq<Byte>)
    requires s != []
    ensures LittleValue(s) == s[0] as int + 0x100 * LittleValue(s[1..])
  {
  }

  lemma FourBytes(a: Byte, b: Byte, c: Byte, d: Byte)
    ensures LittleValue([a, b, c, d]) == a + 0x100 * b + 0x1_0000 * c + 0x100_0000 * d
  {
    hide LittleValue;
    OneByteMore([a, b, c, d]);
    assert [a, b, c, d][1..] == [b, c, d];
    OneByteMore([b, c, d]);
    assert [b, c, d][1..] == [c, d];
    OneByteMore([c, d]);
    assert [c, d][1..] == [d];
    LastByte(d);
  }

  lemma LastByte(d: Byte)
    ensures LittleValue([d]) == d
  {
    assert LittleValue([d][1..]) == 0;
  }

  // The transfer vectors that exist.
  type Endian = c: Codec | RoundTrips(c) witness LittleEndian()

  lemma {:induction false} MultipleGrows(m: int, d: int)
    requires m > 0 && d > 0
    ensures m * d >= m
    decreases d
  {
    if d > 1 {
      MultipleGrows(m, d - 1);
      assert m * d == m * (d - 1) + m;
    }
  }

  lemma SmallMultiple(m: int, d: int)
    requires m > 0 && -m < m * d < m
    ensures d == 0
  {
    if d > 0 {
      MultipleGrows(m, d);
    } else if d < 0 {
      assert m * d == -(m * (-d));
      MultipleGrows(m, -d);
    }
  }

  lemma RemainderIs(v: int, m: int, k: int, t: int)
    requires m > 0 && v == m * k + t && 0 <= t < m
    ensures v % m == t
  {
    var q, r := v / m, v % m;
    assert v == m * q + r;
    assert m * (k - q) == m * k - m * q;
    SmallMultiple(m, k - q);
  }

  // A summand may be reduced first.
  lemma AddRemainder(a: int, x: int, m: int)
    requires m > 0
    ensures (a + x % m) % m == (a + x) % m
  {
    var q, k := (a + x) / m, x / m;
    assert a + x == m * q + (a + x) % m && x == m * k + x % m;
    assert a + x % m == m * (q - k) + (a + x) % m by {
      assert m * (q - k) == m * q - m * k;
    }
    RemainderIs(a + x % m, m, q - k, (a + x) % m);
  }

  lemma SubtractRemainder(a: int, x: int, m: int)
    requires m > 0
    ensures (a - x % m) % m == (a - x) % m
  {
    var q, k := (a - x) / m, x / m;
    assert a - x == m * q + (a - x) % m && x == m * k + x % m;
    assert a - x % m == m * (q + k) + (a - x) % m by {
      assert m * (q + k) == m * q + m * k;
    }
    RemainderIs(a - x % m, m, q + k, (a - x) % m);
  }

  lemma RemainderShift(v: int, m: int)
    requires m > 0
    ensures v % (0x100 * m) == v % 0x100 + 0x100 * (v / 0x100 % m)
  {
    var q := v / 0x100;
    var k, t := q / m, q % m;
    assert q == m * k + t;
    assert v == 0x100 * (m * k) + 0x100 * t + v % 0x100;
    assert 0x100 * (m * k) == (0x100 * m) * k;
    RemainderIs(v, 0x100 * m, k, v % 0x100 + 0x100 * t);
  }

  lemma {:induction false} LittleRoundTrip(v: int, n: nat)
    ensures LittleValue(LittleBytes(v, n)) == v % Power256(n)
    decreases n
  {
    if n > 0 {
      var m, q := Power256(n - 1), v / 0x100;
      LittleRoundTrip(q, n - 1);
      assert LittleBytes(v, n)[1..] == LittleBytes(q, n - 1);
      RemainderShift(v, m);
    }
  }

  // Replacing the |w| elements of s from position at on.
  function Splice<T>(s: seq<T>, at: nat, w: seq<T>): (r: seq<T>)
    requires at + |w| <= |s|
    ensures |r| == |s|
    ensures forall j {:trigger r[j]} :: 0 <= j < |s| ==> r[j] == if at <= j < at + |w| then w[j - at] else s[j]
  {
    seq(|s|, j requires 0 <= j < |s| => if at <= j < at + |w| then w[j - at] else s[j])
  }

  lemma SpliceThere<T>(s: seq<T>, at: nat, w: seq<T>)
    requires at + |w| <= |s|
    ensures Splice(s, at, w)[at..at + |w|] == w
  {
  }

  // Splicing leaves every slice it does not touch alone.
  lemma SpliceElsewhere<T>(s: seq<T>, at: nat, w: seq<T>, lo: nat, hi: nat)
    requires at + |w| <= |s| && lo <= hi <= |s|
    requires hi <= at || at + |w| <= lo
    ensures Splice(s, at, w)[lo..hi] == s[lo..hi]
  {
    var r := Splice(s, at, w);
    assert forall i :: lo <= i < hi ==> r[i] == s[i];
  }

  // The bytes w are in c at p.
  predicate At(c: seq<Byte>, p: nat, w: seq<Byte>)
    decreases |w|
  {
    if w == [] then p <= |c| else p < |c| && c[p] == w[0] && At(c, p + 1, w[1..])
  }

  lemma {:induction false} AtParts(c: seq<Byte>, p: nat, x: seq<Byte>, y: seq<Byte>)
    requires At(c, p, x + y)
    ensures At(c, p, x) && At(c, p + |x|, y)
    decreases |x|
  {
    if x == [] {
      assert x + y == y;
      AtRoom(c, p, y);
    } else {
      assert (x + y)[1..] == x[1..] + y;
      AtParts(c, p + 1, x[1..], y);
    }
  }

  lemma {:induction false} AtRoom(c: seq<Byte>, p: nat, w: seq<Byte>)
    requires At(c, p, w)
    ensures p + |w| <= |c| && c[p..p + |w|] == w
    decreases |w|
  {
    if w != [] {
      AtRoom(c, p + 1, w[1..]);
      assert c[p..p + |w|] == [c[p]] + c[p + 1..p + |w|];
    }
  }

  lemma {:induction false} AtSlice(c: seq<Byte>, p: nat, w: seq<Byte>)
    requires p + |w| <= |c| && c[p..p + |w|] == w
    ensures At(c, p, w)
    decreases |w|
  {
    if w != [] {
      assert c[p] == c[p..p + |w|][0] && c[p + 1..p + |w|] == w[1..];
      AtSlice(c, p + 1, w[1..]);
    }
  }

  lemma AtThree(c: seq<Byte>, p: nat, x: seq<Byte>, y: seq<Byte>, z: seq<Byte>)
    requires At(c, p, x + (y + z))
    ensures At(c, p, x) && At(c, p + |x|, y) && At(c, p + |x| + |y|, z)
  {
    AtParts(c, p, x, y + z);
    AtParts(c, p + |x|, y, z);
  }

  // The bytes of s are in t from position at on, as a statement about each of them.
  predicate Placed(t: seq<Byte>, at: nat, s: seq<Byte>) {
    at + |s| <= |t| && forall j {:trigger t[j]} :: at <= j < at + |s| ==> t[j] == s[j - at]
  }

  function Zeros(n: nat): (s: seq<Byte>)
    ensures |s| == n && forall i :: 0 <= i < n ==> s[i] == 0
  {
    seq(n, _ => 0)
  }

  // Copying a block to an earlier place, first byte first.
  method CopyDown(a: array<Byte>, dst: nat, src: nat, n: nat)
    requires dst <= src && src + n <= a.Length
    modifies a
    ensures a[..] == Splice(old(a[..]), dst, old(a[src..src + n]))
  {
    ghost var was := a[..];
    for i := 0 to n
      invariant forall j {:trigger a[j]} :: 0 <= j < a.Length ==>
                  a[j] == if dst <= j < dst + i then was[j - dst + src] else was[j]
    {
      a[dst + i] := a[src + i];
    }
    assert a[..] == Splice(was, dst, was[src..src + n]);
  }

  // Copying a block to a later place, last byte first.
  method CopyUp(a: array<Byte>, dst: nat, src: nat, n: nat)
    requires src < dst && dst + n <= a.Length
    modifies a
    ensures a[..] == Splice(old(a[..]), dst, old(a[src..src + n]))
  {
    ghost var was := a[..];
    for i := n downto 0
      invariant forall j {:trigger a[j]} :: 0 <= j < a.Length ==>
                  a[j] == if dst + i <= j < dst + n then was[j - dst + src] else was[j]
    {
      a[dst + i] := a[src + i];
    }
    assert a[..] == Splice(was, dst, was[src..src + n]);
  }

  // C `memmove` within one buffer: the blocks may overlap, so the direction of
  // the copy depends on which block comes first.
  method MemMove(a: array<Byte>, dst: nat, src: nat, n: nat)
    requires src + n <= a.Length && dst + n <= a.Length
    modifies a
    ensures a[..] == Splice(old(a[..]), dst, old(a[src..src + n]))
  {
    if dst <= src {
      CopyDown(a, dst, src, n);
    } else {
      CopyUp(a, dst, src, n);
    }
  }

  // C `memset (a + at, 0, n)`.
  method MemZero(a: array<Byte>, at: nat, n: nat)
    requires at + n <= a.Length
    modifies a
    ensures a[..] == Splice(old(a[..]), at, Zeros(n))
  {
    ghost var was := a[..];
    for i := 0 to n
      invariant forall j :: at <= j < at + i ==> a[j] == 0
      invariant forall j :: 0 <= j < a.Length && !(at <= j < at + i) ==> a[j] == was[j]
    {
      a[at + i] := 0;
    }
    ghost var goal := Splice(was, at, Zeros(n));
    assert forall j :: 0 <= j < a.Length ==> a[j] == goal[j];
  }

  // Storing a short string of bytes in a buffer.
  method Store(a: array<Byte>, at: nat, w: seq<Byte>)
    requires at + |w| <= a.Length
    modifies a
    ensures a[..] == Splice(old(a[..]), at, w)
  {
    ghost var was := a[..];
    for i := 0 to |w|
      invariant forall j :: 0 <= j < a.Length ==> a[j] == if at <= j < at + i then w[j - at] else was[j]
    {
      a[at + i] := w[i];
    }
    assert a[..] == Splice(was, at, w);
  }

  // ---------- editing a window of a buffer ----------

  // The n-byte value at position i.
  function ValueAt(e: Endian, b: seq<Byte>, i: nat, n: nat): (v: nat)
    requires i + n <= |b|
  {
    e.get(b[i..i + n])
  }

  function PutValue(e: Endian, b: seq<Byte>, i: nat, n: nat, v: int): (r: seq<Byte>)
    requires i + n <= |b|
    ensures |r| == |b| && ValueAt(e, r, i, n) == v % Power256(n)
    ensures forall j {:trigger r[j]} :: 0 <= j < |b| && !(i <= j < i + n) ==> r[j] == b[j]
  {
    SpliceThere(b, i, e.put(v, n));
    Splice(b, i, e.put(v, n))
  }

  // Equal bytes make equal values.
  lemma SameValue(e: Endian, a: seq<Byte>, i: nat, b: seq<Byte>, j: nat, n: nat)
    requires i + n <= |a| && j + n <= |b|
    requires forall k {:trigger a[k]} :: i <= k < i + n ==> a[k] == b[k - i + j]
    ensures ValueAt(e, a, i, n) == ValueAt(e, b, j, n)
  {
    assert a[i..i + n] == b[j..j + n];
  }

  // Editing inside a block of a buffer is editing the block.
  lemma SpliceInside<T>(c: seq<T>, at: nat, b: seq<T>, i: nat, w: seq<T>)
    requires at + |b| <= |c| && i + |w| <= |b|
    ensures Splice(Splice(c, at, b), at + i, w) == Splice(c, at, Splice(b, i, w))
  {
    var l, r := Splice(Splice(c, at, b), at + i, w), Splice(c, at, Splice(b, i, w));
    assert |l| == |r|;
    assert forall k :: 0 <= k < |l| ==> l[k] == r[k];
  }

  lemma SliceInside<T>(c: seq<T>, at: nat, b: seq<T>, lo: nat, hi: nat)
    requires at + |b| <= |c| && lo <= hi <= |b|
    ensures Splice(c, at, b)[at + lo..at + hi] == b[lo..hi]
  {
    var s := Splice(c, at, b);
    assert s[at..at + |b|] == b;
    assert forall k :: lo <= k < hi ==> s[at + k] == b[k];
  }

  // Moving bytes within a block of a buffer is moving them in the block.
  lemma MoveInside<T>(c: seq<T>, at: nat, b: seq<T>, dst: nat, src: nat, n: nat)
    requires at + |b| <= |c| && src + n <= |b| && dst + n <= |b|
    ensures var now := Splice(c, at, b);
            Splice(now, at + dst, now[at + src..at + src + n]) == Splice(c, at, Splice(b, dst, b[src..src + n]))
  {
    SliceInside(c, at, b, src, src + n);
    SpliceInside(c, at, b, dst, b[src..src + n]);
  }

  // A pointer into a buffer, with the block of bytes that one step edits.
  class Block {
    const buffer: array<Byte>
    const at: nat
    const size: nat
    ghost const around: seq<Byte>    // the buffer when the block was taken
    ghost var bytes: seq<Byte>       // the block as it is now

    constructor (buffer: array<Byte>, at: nat, size: nat)
      requires at + size <= buffer.Length
      ensures Valid() && this.buffer == buffer && this.at == at && this.size == size
      ensures around == buffer[..] && bytes == buffer[at..at + size]
    {
      this.buffer, this.at, this.size := buffer, at, size;
      around, bytes := buffer[..], buffer[at..at + size];
      new;
      assert Splice(around, at, bytes) == around;
    }

    // The buffer is as it was, but for the block.
    ghost predicate Valid()
      reads this, buffer
    {
      |bytes| == size && at + size <= |around| && buffer[..] == Splice(around, at, bytes)
    }

    // The bfd_put family.
    method Put(e: Endian, i: nat, n: nat, v: int)
      requires Valid() && i + n <= size
      modifies buffer, `bytes
      ensures Valid() && bytes == PutValue(e, old(bytes), i, n, v)
    {
      ghost var w := e.put(v, n);
      SpliceInside(around, at, bytes, i, w);
      Store(buffer, at + i, e.put(v, n));
      bytes := Splice(bytes, i, w);
    }

    // The bfd_get family.
    method Get(e: Endian, i: nat, n: nat) returns (v: nat)
      requires Valid() && i + n <= size
      ensures v == ValueAt(e, bytes, i, n)
    {
      SliceInside(around, at, bytes, i, i + n);
      v := e.get(buffer[at + i..at + i + n]);
    }

    method Move(dst: nat, src: nat, n: nat)
      requires Valid() && src + n <= size && dst + n <= size
      modifies buffer, `bytes
      ensures Valid() && bytes == Splice(old(bytes), dst, old(bytes)[src..src + n])
    {
      ghost var now := buffer[..];
      MoveInside(around, at, bytes, dst, src, n);
      assert buffer[at + src..at + src + n] == now[at + src..at + src + n];
      MemMove(buffer, at + dst, at + src, n);
      bytes := Splice(bytes, dst, bytes[src..src + n]);
    }

    method Zero(i: nat, n: nat)
      requires Valid() && i + n <= size
      modifies buffer, `bytes
      ensures Valid() && bytes == Splice(old(bytes), i, Zeros(n))
    {
      SpliceInside(around, at, bytes, i, Zeros(n));
      MemZero(buffer, at + i, n);
      bytes := Splice(bytes, i, Zeros(n));
    }

    method PutByte(i: nat, v: Byte)
      requires Valid() && i < size
      modifies buffer, `bytes
      ensures Valid() && bytes == old(bytes)[i := v]
    {
      SpliceInside(around, at, bytes, i, [v]);
      assert Splice(bytes, i, [v]) == bytes[i := v];
      Store(buffer, at + i, [v]);
      bytes := Splice(bytes, i, [v]);
    }

    method GetByte(i: nat) returns (v: Byte)
      requires Valid() && i < size
      ensures v == bytes[i]
    {
      v := buffer[at + i];
    }
  }
}
