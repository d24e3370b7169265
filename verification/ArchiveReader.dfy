// The reader's loops over the symbol map and the members (archive.c), and what
// writing and reading an archive comes to.

module ArchiveReader {
  import opened Bytes
  import opened CLibrary
  import opened ArchiveFormat
  import opened ArchiveNames
  import opened ArchiveTable
  import opened ArchiveLayout
  import opened ArchiveRead
  import opened ArchiveOpen
  import opened ArchiveFile

  // ---------- the loops ----------

  // One symbol, and the length of its name.
  method OneCarsym(raw: seq<Byte>, names: array<Byte>, i: nat, q: nat, stringsize: nat, ghost m: RawMap)
    returns (sym: Carsym, len: nat)
    requires m.Ok() && m.raw == raw && m.names == names[..] && i < m.count && q + stringsize == |m.names| - 1
    ensures len == |StringFrom(m.names, q)| <= stringsize && sym == Symbol(BIG, m, i, q)
  {
    len := StrnLen(names, q, stringsize, m.names);
    NameLengthIs(m.names, q, stringsize, len);
    assert names[q..q + len] == m.names[q..q + len];
    sym := Carsym(Text(names[q..q + len]), BIG.get(raw[4 * i..4 * i + 4]));
  }

  function Symbol(e: Endian, m: RawMap, i: nat, q: nat): Carsym
    requires m.Ok() && i < m.count && q < |m.names|
  {
    Carsym(Text(StringFrom(m.names, q)), e.get(m.raw[4 * i..4 * i + 4]))
  }

  // "OK, build the carsyms."
  method BuildCarsyms(raw: seq<Byte>, names: array<Byte>, count: nat, ghost m: RawMap) returns (syms: array<Carsym>)
    requires m.Ok() && m == RawMap(count, raw, names[..])
    modifies names
    ensures fresh(syms) && syms[..] == Carsyms(BIG, m, 0, 0)
  {
    hide StringFrom, Carsyms, Symbol;
    syms := new Carsym[count](_ => Carsym(NullPointer, 0));
    var i: nat, q: nat, stringsize: nat := 0, 0, names.Length - 1;
    while i < count && stringsize > 0
      invariant i <= count && q + stringsize == names.Length - 1 && names[..] == m.names
      invariant forall j {:trigger syms[j]} :: i <= j < count ==> syms[j] == Carsym(NullPointer, 0)
      invariant syms[..i] + Carsyms(BIG, m, i, q) == Carsyms(BIG, m, 0, 0)
      decreases count - i
    {
      var len;
      syms[i], len := OneCarsym(raw, names, i, q, stringsize, m);
      if len < stringsize {
        len := len + 1;
      }
      FirstCarsym(BIG, m, i, q, q + len);
      assert syms[..i + 1] == syms[..i] + [syms[i]];
      q := q + len;
      stringsize := stringsize - len;
      i := i + 1;
    }
    RestIsZero(m, i, q);
    assert syms[..] == syms[..i] + Carsyms(BIG, m, i, q);
    names[q] := 0;
  }

  lemma NameLengthIs(names: seq<Byte>, q: nat, stringsize: nat, len: nat)
    requires Terminated(names) && q + stringsize == |names| - 1 && len == Min(|StringFrom(names, q)|, stringsize)
    ensures len == |StringFrom(names, q)| && StringFrom(names, q) == names[q..q + len]
  {
    StringInside(names, q);
  }

  lemma FirstCarsym(e: Endian, m: RawMap, i: nat, q: nat, next: nat)
    requires m.Ok() && i < m.count && q < |m.names| - 1 && next == Min(q + |StringFrom(m.names, q)| + 1, |m.names| - 1)
    ensures Carsyms(e, m, i, q) == [Symbol(e, m, i, q)] + Carsyms(e, m, i + 1, next)
  {
    hide StringFrom;
  }

  lemma {:induction false} RestIsZero(m: RawMap, i: nat, q: nat)
    requires m.Ok() && i <= m.count && q < |m.names| && (i == m.count || q == |m.names| - 1)
    ensures forall j {:trigger Carsyms(BIG, m, i, q)[j]} :: 0 <= j < m.count - i ==>
              Carsyms(BIG, m, i, q)[j] == Carsym(NullPointer, 0)
    decreases m.count - i
  {
    if i < m.count {
      RestIsZero(m, i + 1, q);
      assert Carsyms(BIG, m, i, q) == [Carsym(NullPointer, 0)] + Carsyms(BIG, m, i + 1, q);
    }
  }

  // Asking for the next member until there is none.
  method WalkArchive(file: seq<Byte>, thin: bool, first: nat) returns (found: seq<nat>)
    ensures found == Walk(file, thin, first)
  {
    hide ReadArHdr, NextMember;
    found := [];
    var p := first;
    var hdr := ReadArHdr(file, p);
    while hdr.Some?
      invariant hdr == ReadArHdr(file, p) && found + Walk(file, thin, p) == Walk(file, thin, first)
      decreases |file| - p
    {
      var q := NextMember(thin, p, hdr.value);
      assert found + ([p] + Walk(file, thin, q)) == (found + [p]) + Walk(file, thin, q);
      found := found + [p];
      p := q;
      hdr := ReadArHdr(file, p);
    }
  }
}
