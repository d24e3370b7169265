// Unsigned LEB128 numbers (DWARF 4, section 7.6), as elf-attrs.c sizes and writes
// them and libbfd.c reads them.

module Leb128 {
  import opened Bytes

  // The bytes of v: seven bits each, low ones first.
  function Uleb(v: nat): (s: seq<Byte>)
    ensures |s| > 0
  {
    if v < 0x80 then [v] else [v % 0x80 + 0x80] + Uleb(v / 0x80)
  }

  // What a reader that stops at the first byte below 0x80, or at the end, makes of s:
  // the number, and how many bytes it took.
  function ReadUleb(s: seq<Byte>): (r: (nat, nat))
    ensures r.1 <= |s| && (s != [] ==> r.1 > 0)
  {
    if s == [] then (0, 0)
    else if s[0] < 0x80 then (s[0], 1)
    else
      var rest := ReadUleb(s[1..]);
      (s[0] % 0x80 + 0x80 * rest.0, 1 + rest.1)
  }

  // Reading a written number gives it back, whatever follows.
  lemma {:induction false} UlebRoundTrip(v: nat, rest: seq<Byte>)
    ensures ReadUleb(Uleb(v) + rest) == (v, |Uleb(v)|)
  {
    var s := Uleb(v) + rest;
    if v >= 0x80 {
      UlebRoundTrip(v / 0x80, rest);
      assert s[1..] == Uleb(v / 0x80) + rest;
    }
  }

  // How numbers are written and read.  What is proved about attribute sections
  // uses only that the one undoes the other.
  datatype NumberFormat = NumberFormat(write: nat -> seq<Byte>, read: seq<Byte> -> (nat, nat))

  ghost predicate Undoes(l: NumberFormat) {
    && (forall v: nat, rest: seq<Byte> {:trigger l.write(v) + rest} :: l.read(l.write(v) + rest) == (v, |l.write(v)|))
    && (forall v: nat {:trigger l.write(v)} :: |l.write(v)| > 0 && (v < 0x80 ==> l.write(v) == [v]))
    && (forall s: seq<Byte> {:trigger l.read(s)} :: l.read(s).1 <= |s| && (s != [] ==> l.read(s).1 > 0))
  }

  type Leb = l: NumberFormat | Undoes(l) witness Uleb128()

  function Uleb128(): (l: NumberFormat)
    ensures Undoes(l)
  {
    var l := NumberFormat(v => Uleb(v), s => ReadUleb(s));
    assert Undoes(l) by {
      forall v: nat, rest: seq<Byte> ensures l.read(l.write(v) + rest) == (v, |l.write(v)|) {
        UlebRoundTrip(v, rest);
      }
    }
    l
  }

  // uleb128_size
  method UlebSize(i: nat) returns (size: nat)
    ensures size == |Uleb(i)|
  {
    size := 1;
    var v := i;
    while v >= 0x80
      invariant size + |Uleb(v)| == 1 + |Uleb(i)|
    {
      v := v / 0x80;
      size := size + 1;
    }
  }

  // write_uleb128
  method WriteUleb(a: array<Byte>, p: nat, val: nat) returns (q: nat)
    requires p + |Uleb(val)| <= a.Length
    modifies a
    ensures q == p + |Uleb(val)| && a[..] == Splice(old(a[..]), p, Uleb(val))
  {
    ghost var was, all := a[..], Uleb(val);
    var v := val;
    q := p;
    var more := true;
    while more
      invariant p <= q && (more ==> q < p + |all| && all[q - p..] == Uleb(v))
      invariant !more ==> q == p + |all|
      invariant forall j {:trigger a[j]} :: 0 <= j < a.Length ==> a[j] == if p <= j < q then all[j - p] else was[j]
      decreases more, v
    {
      var c := v % 0x80;
      ghost var w := v;
      v := v / 0x80;
      if v != 0 {
        c := c + 0x80;
      }
      assert all[q - p] == all[q - p..][0] == Uleb(w)[0] == c;
      assert v != 0 ==> all[q + 1 - p..] == Uleb(w)[1..] == Uleb(v);
      a[q] := c;
      q := q + 1;
      more := v != 0;
    }
    assert a[..] == Splice(was, p, all);
  }

  // Reading on with a partial result; scale is 1 << shift.
  function ReadOn(s: seq<Byte>, result: nat, scale: nat): (r: (nat, nat))
  {
    if s == [] then (result, 0)
    else if s[0] < 0x80 then (result + s[0] * scale, 1)
    else
      var rest := ReadOn(s[1..], result + s[0] % 0x80 * scale, 0x80 * scale);
      (rest.0, 1 + rest.1)
  }

  lemma {:induction false} ReadOnIsRead(s: seq<Byte>, result: nat, scale: nat)
    ensures ReadOn(s, result, scale) == (result + scale * ReadUleb(s).0, ReadUleb(s).1)
  {
    if s != [] && s[0] >= 0x80 {
      var low, rest := s[0] % 0x80, ReadUleb(s[1..]).0;
      ReadOnIsRead(s[1..], result + low * scale, 0x80 * scale);
      Distribute(scale, low, rest);
    }
  }

  lemma Distribute(scale: nat, low: nat, rest: nat)
    ensures scale * (low + 0x80 * rest) == low * scale + 0x80 * scale * rest
  {
    assert scale * (0x80 * rest) == 0x80 * scale * rest;
  }

  // _bfd_safe_read_leb128, unsigned: "No bytes will be read at address END or
  // beyond."
  method SafeReadLeb128(a: array<Byte>, data: nat, end: nat) returns (result: nat, numRead: nat)
    requires data <= end <= a.Length
    ensures (result, numRead) == ReadUleb(a[data..end])
  {
    hide ReadUleb;
    var scale: nat := 1;
    result, numRead := 0, 0;
    ghost var s := a[data..end];
    ReadOnIsRead(s, 0, 1);
    while data + numRead < end
      invariant numRead <= |s|
      invariant ReadOn(s, 0, 1)
                == (ReadOn(s[numRead..], result, scale).0, numRead + ReadOn(s[numRead..], result, scale).1)
    {
      var byte: nat := a[data + numRead];
      assert byte == s[numRead] && s[numRead..][1..] == s[numRead + 1..];
      numRead := numRead + 1;
      result := result + byte % 0x80 * scale;
      scale := 0x80 * scale;
      if byte < 0x80 {
        break;
      }
    }
  }
}
