// Opening an archive and going through it: the symbol map, the name table and the
// members (archive.c), as functions of the file; and what comes back of an archive
// that was written.

module ArchiveRead {
  import opened Bytes
  import opened CLibrary
  import opened ArchiveFormat
  import opened ArchiveNames
  import opened ArchiveTable
  import opened ArchiveLayout

  // ---------- the symbol map ----------

  // `carsym`
  datatype Carsym = Carsym(name: CString, offset: nat)

  // The map in the file: how many symbols, their offsets, and the names, to which the
  // reader adds a NUL.
  datatype RawMap = RawMap(count: nat, raw: seq<Byte>, names: seq<Byte>)
  {
    predicate Ok() { |raw| == 4 * count && Terminated(names) }
  }

  // The symbols from number i on, with names from q on.  Those for which there are no
  // names left stay zero.
  function Carsyms(e: Endian, m: RawMap, i: nat, q: nat): (s: seq<Carsym>)
    requires m.Ok() && i <= m.count && q < |m.names|
    ensures |s| == m.count - i
    decreases m.count - i
  {
    if i == m.count then []
    else if q == |m.names| - 1 then [Carsym(NullPointer, 0)] + Carsyms(e, m, i + 1, q)
    else
      [Carsym(Text(StringFrom(m.names, q)), e.get(m.raw[4 * i..4 * i + 4]))]
      + Carsyms(e, m, i + 1, Min(q + |StringFrom(m.names, q)| + 1, |m.names| - 1))
  }

  // The pieces of the map whose header is at pos.
  function ReadRawMap(e: Endian, file: seq<Byte>, pos: nat): (r: Option<RawMap>)
    ensures r.Some? ==> r.value.Ok()
  {
    var hdr := ReadArHdr(file, pos);
    if hdr.None? || pos + AR_HDR + 4 > |file| then None
    else
      var p, size := pos + AR_HDR, hdr.value.size;
      var count := e.get(file[p..p + 4]);
      if size < 4 * count + 4 || p + size > |file| then None
      else Some(RawMap(count, file[p + 4..p + 4 + 4 * count], file[p + 4 + 4 * count..p + size] + [0]))
  }

  function Even(p: nat): nat { p + p % 2 }

  // The second header that PE archives have is skipped.
  function SkipSecondMap(file: seq<Byte>, p: nat): nat {
    var hdr := ReadArHdr(file, p);
    if hdr.Some? && hdr.value.bytes[0] == SLASH && hdr.value.bytes[1] == BLANK
    then p + Even(hdr.value.size + AR_HDR) else p
  }

  // ---------- opening ----------

  // What opening an archive leaves in its `artdata`.
  datatype ArData = ArData(thin: bool, symdefs: Option<seq<Carsym>>, names: Option<seq<Byte>>, first: nat)

  // The outcome; the other map formats are not part of this model.
  datatype Opened = Opened(data: ArData) | Refused | OtherMap

  function Padded(s: seq<Byte>): (r: seq<Byte>)
    requires |s| <= NAME_FIELD
    ensures |r| == NAME_FIELD
  {
    s + Blanks(NAME_FIELD - |s|)
  }

  // "__.SYMDEF", "ARFILENAMES", "/SYM64/" and "#1/20"
  const SYMDEF: seq<Byte> := [0x5f, 0x5f, 0x2e, 0x53, 0x59, 0x4d, 0x44, 0x45, 0x46]
  const ARFILENAMES: seq<Byte> := [0x41, 0x52, 0x46, 0x49, 0x4c, 0x45, 0x4e, 0x41, 0x4d, 0x45, 0x53]
  const SYM64: seq<Byte> := [SLASH, 0x53, 0x59, 0x4d, 0x36, 0x34, SLASH]
  const BSD_SORTED: seq<Byte> := [0x23, 0x31, SLASH, 0x32, 0x30]

  // The length of the name that follows a "#1/20" header.
  const BSD_NAME := 20

  // bfd_slurp_armap, at the start of the members.
  function SlurpArmap(e: Endian, file: seq<Byte>, thin: bool): Opened
    requires |file| >= SARMAG
  {
    if |file| == SARMAG then Opened(ArData(thin, None, None, SARMAG))
    else if |file| < SARMAG + NAME_FIELD then Refused
    else
      var field := file[SARMAG..SARMAG + NAME_FIELD];
      if field == Padded(SYMDEF) || field == Padded(SYMDEF + [SLASH]) then OtherMap
      else if field == Padded([SLASH]) then
        // do_slurp_coff_armap
        var m := ReadRawMap(e, file, SARMAG);
        if m.None? then Refused
        else
          var end := Even(SARMAG + AR_HDR + ReadArHdr(file, SARMAG).value.size);
          Opened(ArData(thin, Some(Carsyms(e, m.value, 0, 0)), None, SkipSecondMap(file, end)))
      else if field == Padded(SYM64) then Refused
      else if field == Padded(BSD_SORTED) && |file| < SARMAG + AR_HDR + BSD_NAME then Refused
      else if field == Padded(BSD_SORTED) && SYMDEF <= file[SARMAG + AR_HDR..] then OtherMap
      else Opened(ArData(thin, None, None, SARMAG))
  }

  // _bfd_slurp_extended_name_table
  function SlurpNames(file: seq<Byte>, d: ArData): Opened {
    if d.first + NAME_FIELD > |file| then Opened(d)
    else
      var field := file[d.first..d.first + NAME_FIELD];
      if field != Padded(ARFILENAMES + [SLASH]) && field != Padded([SLASH, SLASH]) then Opened(d.(names := None))
      else
        var hdr := ReadArHdr(file, d.first);
        var p := d.first + AR_HDR;
        if hdr.None? || p + hdr.value.size > |file| then Refused
        else Opened(d.(names := Some(Cleaned(file[p..p + hdr.value.size])), first := Even(p + hdr.value.size)))
  }

  // bfd_generic_archive_p
  function Open(e: Endian, file: seq<Byte>): Opened {
    if |file| < SARMAG || (file[..SARMAG] != Armag(true) && file[..SARMAG] != Armag(false)) then Refused
    else
      var o := SlurpArmap(e, file, file[..SARMAG] == Armag(true));
      if o.Opened? then SlurpNames(file, o.data) else o
  }

  // ---------- going through the members ----------

  // bfd_generic_openr_next_archived_file: where the next member is.
  function NextMember(thin: bool, p: nat, hdr: ArHdr): (q: nat)
    ensures q > p
  {
    if thin then p + AR_HDR else Even(p + AR_HDR + hdr.size)
  }

  // The members that are found, from the one at p on.
  function Walk(file: seq<Byte>, thin: bool, p: nat): seq<nat>
    decreases |file| - p
  {
    var hdr := ReadArHdr(file, p);
    if hdr.None? then [] else [p] + Walk(file, thin, NextMember(thin, p, hdr.value))
  }

  // ---------- going through a written archive ----------

  function Positions(a: Archive, k: nat): (s: seq<nat>)
    requires k <= |a.members|
    ensures |s| == |a.members| - k
    ensures forall i {:trigger s[i]} :: 0 <= i < |s| ==> s[i] == a.Position(k + i)
  {
    seq<nat>(|a.members| - k, i requires 0 <= i < |a.members| - k => a.Position(k + i))
  }

  lemma NextIsNext(a: Archive, k: nat, hdr: ArHdr)
    requires k < |a.members| && hdr.size == a.members[k].header.size
    ensures NextMember(a.thin, a.Position(k), hdr) == a.Position(k + 1)
  {
  }

  lemma NoneAtTheEnd(a: Archive, e: Endian)
    requires a.Ok()
    ensures ReadArHdr(a.File(e), a.Position(|a.members|)).None?
  {
    hide Archive.Front, Archive.MembersBytes, Archive.First, Archive.Position;
    PositionIsLength(a, |a.members|);
  }

  // The walk visits every member once, in order, and ends.
  lemma {:induction false} WalkVisitsAll(a: Archive, e: Endian, k: nat)
    requires a.Ok() && k <= |a.members|
    ensures Walk(a.File(e), a.thin, a.Position(k)) == Positions(a, k)
    decreases |a.members| - k
  {
    hide Archive.File, Archive.Position, Archive.Ok, ReadArHdr, NextMember;
    if k == |a.members| {
      NoneAtTheEnd(a, e);
    } else {
      WalkVisitsAll(a, e, k + 1);
      HeaderIsThere(a, e, k);
      var h := a.members[k].header;
      NextIsNext(a, k, ArHdr(HeaderBytes(h), h.size));
      assert Positions(a, k) == [a.Position(k)] + Positions(a, k + 1);
    }
  }

  // ---------- reading the map back ----------

  // What the map says, from entry i on.
  function ReadBack(a: Archive, i: nat): (s: seq<Carsym>)
    requires i <= |a.WholeMap()|
    ensures |s| == |a.WholeMap()| - i
    ensures forall j {:trigger s[j]} :: 0 <= j < |s| ==>
              s[j] == Carsym(Text(a.WholeMap()[i + j].name), a.SymOffset(i + j))
  {
    seq(|a.WholeMap()| - i, j requires 0 <= j < |a.WholeMap()| - i =>
      Carsym(Text(a.WholeMap()[i + j].name), a.SymOffset(i + j)))
  }

  lemma {:induction false} OffsetsGrow(a: Archive, e: Endian, i: nat, n: nat)
    requires i <= n <= |a.WholeMap()|
    ensures a.Offsets(e, i) <= a.Offsets(e, n)
    decreases n
  {
    if i < n {
      OffsetsGrow(a, e, i, n - 1);
    }
  }

  lemma {:induction false} StringsGrow(a: Archive, i: nat, n: nat)
    requires i <= n <= |a.WholeMap()|
    ensures a.Strings(i) <= a.Strings(n)
    decreases n
  {
    if i < n {
      StringsGrow(a, i, n - 1);
    }
  }

  lemma OffsetThere(a: Archive, e: Endian, i: nat)
    requires i < |a.WholeMap()| && a.SymOffset(i) < Power256(4)
    ensures e.get(a.Offsets(e, |a.WholeMap()|)[4 * i..4 * i + 4]) == a.SymOffset(i)
  {
    OffsetsGrow(a, e, i + 1, |a.WholeMap()|);
    var all, some, w := a.Offsets(e, |a.WholeMap()|), a.Offsets(e, i), e.put(a.SymOffset(i), 4);
    assert some + w == a.Offsets(e, i + 1) <= all;
    assert all[4 * i..4 * i + 4] == w;
    RemainderIs(a.SymOffset(i), Power256(4), 0, a.SymOffset(i));
  }

  // The names in the map have no NUL of their own.
  predicate NamesOk(a: Archive) {
    forall i {:trigger a.WholeMap()[i]} :: 0 <= i < |a.WholeMap()| ==> 0 !in a.WholeMap()[i].name
  }

  lemma NameThere(a: Archive, i: nat, c: seq<Byte>)
    requires i < |a.WholeMap()| && 0 !in a.WholeMap()[i].name && a.Strings(|a.WholeMap()|) <= c
    ensures |a.Strings(i)| < |c| && StringFrom(c, |a.Strings(i)|) == a.WholeMap()[i].name
    ensures |a.Strings(i + 1)| == |a.Strings(i)| + |a.WholeMap()[i].name| + 1 <= |c|
  {
    hide Archive.WholeMap, At, StringFrom;
    StringsGrow(a, i + 1, |a.WholeMap()|);
    var name := a.WholeMap()[i].name;
    assert a.Strings(i) + (name + [0]) == a.Strings(i + 1) <= c;
    PrefixAt(c, a.Strings(i), name + [0]);
    AtRoom(c, |a.Strings(i)|, name + [0]);
    StringAt(c, |a.Strings(i)|, name);
  }

  // The reader's loop gives back every symbol's name and offset.
  lemma {:induction false} CarsymsAreBack(a: Archive, e: Endian, m: RawMap, i: nat)
    requires m.Ok() && m.count == |a.WholeMap()| && m.raw == a.Offsets(e, m.count) && i <= m.count && NamesOk(a)
    requires a.Strings(m.count) <= m.names && |a.Strings(m.count)| < |m.names|
    requires forall j {:trigger a.SymOffset(j)} :: 0 <= j < m.count ==> a.SymOffset(j) < Power256(4)
    ensures |a.Strings(i)| < |m.names| && Carsyms(e, m, i, |a.Strings(i)|) == ReadBack(a, i)
    decreases m.count - i
  {
    hide Archive.WholeMap, Archive.SymOffset, Archive.Strings, StringFrom, Power256, Archive.Offsets;
    StringsGrow(a, i, m.count);
    if i < m.count {
      CarsymsAreBack(a, e, m, i + 1);
      NameThere(a, i, m.names);
      OffsetThere(a, e, i);
      assert ReadBack(a, i) == [Carsym(Text(a.WholeMap()[i].name), a.SymOffset(i))] + ReadBack(a, i + 1);
    }
  }
}
