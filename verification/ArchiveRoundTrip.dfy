// What the reader finds in an archive that the writer made: the symbol map, the
// members in order, and their names (archive.c).

module ArchiveRoundTrip {
  import opened Bytes
  import opened CLibrary
  import opened ArchiveFormat
  import opened ArchiveNames
  import opened ArchiveTable
  import opened ArchiveLayout
  import opened ArchiveRead
  import opened ArchiveOpen
  import opened ArchiveFile

  // ---------- the map ----------

  lemma DecimalBound(n: nat)
    requires |Decimal(n)| <= 10
    ensures n < 10_000_000_000
  {
    assert |Decimal(10_000_000_000)| == 11;
    if n >= 10_000_000_000 {
      DecimalGrows(10_000_000_000, n);
    }
  }

  // Entry i comes from a symbol of its member.
  lemma {:induction false} EntryIsASymbol(a: Archive, n: nat, i: nat) returns (j: nat)
    requires n <= |a.members| && i < |a.Map(n)|
    ensures var s := a.Map(n)[i]; s.member < n && a.members[s.member].isObject
    ensures var s := a.Map(n)[i]; j < |a.members[s.member].syms| && a.members[s.member].syms[j] == Sym(s.name, true)
  {
    if i < |a.Map(n - 1)| {
      j := EntryIsASymbol(a, n - 1, i);
    } else {
      j := ExportedIsASymbol(a, n - 1, |a.members[n - 1].syms|, i - |a.Map(n - 1)|);
    }
  }

  lemma {:induction false} ExportedIsASymbol(a: Archive, k: nat, n: nat, i: nat) returns (j: nat)
    requires k < |a.members| && n <= |a.members[k].syms| && i < |a.Exported(k, n)|
    ensures j < n && a.members[k].syms[j] == Sym(a.Exported(k, n)[i].name, true)
    decreases n
  {
    if i < |a.Exported(k, n - 1)| {
      j := ExportedIsASymbol(a, k, n - 1, i);
    } else {
      j := n - 1;
    }
  }

  // Every exported symbol of an object is in the map, for its member.
  lemma {:induction false} SymbolIsInMap(a: Archive, n: nat, k: nat, j: nat)
    requires k < n <= |a.members| && a.members[k].isObject && j < |a.members[k].syms| && a.members[k].syms[j].exported
    ensures Orl(a.members[k].syms[j].name, k) in a.Map(n)
    decreases n
  {
    if k < n - 1 {
      SymbolIsInMap(a, n - 1, k, j);
    } else {
      SymbolIsExported(a, k, |a.members[k].syms|, j);
    }
  }

  lemma {:induction false} SymbolIsExported(a: Archive, k: nat, n: nat, j: nat)
    requires k < |a.members| && j < n <= |a.members[k].syms| && a.members[k].syms[j].exported
    ensures Orl(a.members[k].syms[j].name, k) in a.Exported(k, n)
    decreases n
  {
    if j < n - 1 {
      SymbolIsExported(a, k, n - 1, j);
    }
  }

  // The offset that the map gives for a symbol is where the header of the member that
  // exports it is.
  lemma SymbolLeadsToMember(a: Archive, e: Endian, i: nat) returns (k: nat, j: nat)
    requires a.Ok() && i < |a.WholeMap()|
    ensures k < |a.members| && j < |a.members[k].syms| && a.members[k].syms[j] == Sym(a.WholeMap()[i].name, true)
    ensures a.members[k].header.Ok() && ReadArHdr(a.File(e), a.SymOffset(i))
            == Some(ArHdr(HeaderBytes(a.members[k].header), a.members[k].header.size))
  {
    hide Archive.File, Archive.Map, ReadArHdr, Archive.Ok, HeaderBytes, Archive.Position;
    k := a.WholeMap()[i].member;
    j := EntryIsASymbol(a, |a.members|, i);
    HeaderIsThere(a, e, k);
  }

  lemma NamesAreStrings(a: Archive)
    requires AllPrepared(a.members, a.thin)
    ensures NamesOk(a)
  {
    hide Archive.Map;
    forall i {:trigger a.WholeMap()[i]} | 0 <= i < |a.WholeMap()| ensures 0 !in a.WholeMap()[i].name {
      var j := EntryIsASymbol(a, |a.members|, i);
      assert Prepared(a.members[a.WholeMap()[i].member], a.thin);
    }
  }

  // What the writer checks is enough for the map to be read.
  lemma MapIsReadable(a: Archive)
    requires AllPrepared(a.members, a.thin) && Fits(a)
    ensures MapFits(a)
  {
    hide Archive.WholeMap, Archive.SymOffset, Archive.Strings, Decimal, AllPrepared;
    if a.hasMap {
      NamesAreStrings(a);
      DecimalBound(a.MapSize());
      assert Power256(4) == FOUR_GB;
    }
  }

  // ---------- the archive ----------

  // Opening the file gives the map with every symbol's name and its member's place,
  // and the name table, if and only if the first member is not mistaken; going on from
  // there visits every member once, in order.
  lemma ArchiveReadsBack(r: NameRules, ms: seq<Member>, makemap: bool, mapRest: seq<Byte>, a: Archive)
    requires AllFields(NameFields(ms)) && AllPrepared(ms, r.thin) && |mapRest| == 32
    requires a == ArchiveOf(r, ms, makemap, mapRest) && Fits(a)
    ensures a.Ok()
    ensures Open(BIG, a.File(BIG)) == Opened(Found(a)) <==> Clear(a)
    ensures Walk(a.File(BIG), a.thin, a.First()) == Positions(a, 0)
  {
    hide *;
    ArchiveIs(r, ms, makemap, mapRest, a);
    ArchiveIsPrepared(r, ms, makemap, mapRest);
    FitsIsOk(a);
    MapIsReadable(a);
    OpenFindsAll(a, BIG);
    WalkVisitsAll(a, BIG, 0);
    FirstPosition(a);
  }

  // An archive whose one member has the field of a name table.
  predicate Swallowed(a: Archive, data: seq<Byte>) {
    && a.Ok() && !a.thin && !a.hasMap && a.table == [] && |a.members| == 1
    && a.members[0].header.name == Padded(ARFILENAMES + [SLASH]) && a.members[0].data == data
  }

  lemma NoDigits()
    ensures |Decimal(0)| == 1
  {
  }

  lemma SwallowedField(r: NameRules)
    requires !r.thin
    ensures r.Normal(ARFILENAMES) == ARFILENAMES
    ensures r.ShortField(ARFILENAMES, Blanks(NAME_FIELD)) == Padded(ARFILENAMES + [SLASH])
  {
    hide Basename;
    ReservedHasNoSlash();
    BasenameIsLast(ARFILENAMES);
    var n := |ARFILENAMES| - |Basename(ARFILENAMES)|;
    assert ARFILENAMES[0..] == ARFILENAMES;
    assert ARFILENAMES[..11] == ARFILENAMES;
  }

  lemma SwallowedArchive(r: NameRules, m: Member, makemap: bool, mapRest: seq<Byte>, a: Archive)
    requires !r.thin && m.filename == ARFILENAMES && m.header.name == Blanks(NAME_FIELD) && !m.isObject
             && Prepared(m, false)
    requires |mapRest| == 32 && a == ArchiveOf(r, [m], makemap, mapRest)
    ensures Swallowed(a, m.data) && !Clear(a)
  {
    hide Basename, NameRules.ShortField, NameRules.Normal, Padded, Archive.MembersBytes, Decimal;
    SwallowedField(r);
    assert !r.Listed(FileNames([m]), 0);
    TableStart(r, FileNames([m]));
    TableStep(r, FileNames([m]), 0);
    assert a.members == Settled(r, [m]);
    NoDigits();
  }

  // What the reader sees of it.
  lemma SwallowedFile(a: Archive, data: seq<Byte>, file: seq<Byte>)
    requires Swallowed(a, data) && file == a.File(BIG)
    ensures ReadArHdr(file, SARMAG) == Some(ArHdr(HeaderBytes(a.members[0].header), |data|))
    ensures SARMAG + AR_HDR + |data| <= |file| && file[SARMAG + AR_HDR..SARMAG + AR_HDR + |data|] == data
    ensures file[SARMAG..SARMAG + NAME_FIELD] == Padded(ARFILENAMES + [SLASH])
    ensures a.Position(0) == SARMAG && a.Position(1) == Even(SARMAG + AR_HDR + |data|)
  {
    hide At, Archive.File, ReadArHdr, Padded, HeaderBytes;
    FirstField(a, BIG, file);
    HeaderIsThere(a, BIG, 0);
    MemberIsThere(a, BIG, 0);
    AtParts(file, SARMAG, HeaderBytes(a.members[0].header), a.Contents(a.members[0]));
    AtParts(file, SARMAG + AR_HDR, data, if |data| % 2 == 1 then [NEWLINE] else []);
    AtRoom(file, SARMAG + AR_HDR, data);
  }

  lemma NoMapThere(a: Archive, data: seq<Byte>, file: seq<Byte>)
    requires Swallowed(a, data) && file == a.File(BIG)
    ensures |file| >= SARMAG && SlurpArmap(BIG, file, false) == Opened(ArData(false, None, None, SARMAG))
  {
    hide Archive.File, SlurpArmap, Padded, LooksSorted, AfterHeader;
    NoMapIff(a, BIG, file);
    SlashFields();
    ReservedFields();
  }

  lemma SwallowedOpens(a: Archive, data: seq<Byte>)
    requires Swallowed(a, data)
    ensures Open(BIG, a.File(BIG)) == Opened(ArData(false, None, Some(Cleaned(data)), a.Position(1)))
  {
    hide Archive.File, SlurpArmap, ReadArHdr, Cleaned, Padded, HeaderBytes, Open, Archive.Position;
    var file := a.File(BIG);
    OpenIs(a, BIG, file);
    NoMapThere(a, data, file);
    SwallowedFile(a, data, file);
  }

  // A member called ARFILENAMES that comes first where no name is long is taken for the
  // name table: the archive opens, and the member is gone.
  lemma MemberIsSwallowed(r: NameRules, m: Member, makemap: bool, mapRest: seq<Byte>, a: Archive)
    requires !r.thin && m.filename == ARFILENAMES && m.header.name == Blanks(NAME_FIELD) && !m.isObject
             && Prepared(m, false)
    requires |mapRest| == 32 && a == ArchiveOf(r, [m], makemap, mapRest)
    ensures a.Ok() && !Clear(a) && |a.members| == 1
    ensures Open(BIG, a.File(BIG)) == Opened(ArData(false, None, Some(Cleaned(m.data)), a.Position(1)))
    ensures Walk(a.File(BIG), false, a.Position(1)) == []
  {
    hide Archive.File, Archive.Position, Archive.Ok, Open, Walk, ArchiveOf, Cleaned, Clear, Prepared;
    SwallowedArchive(r, m, makemap, mapRest, a);
    SwallowedOpens(a, m.data);
    WalkVisitsAll(a, BIG, 1);
  }

  lemma FirstPosition(a: Archive)
    ensures a.Position(0) == a.First()
  {
  }

  // The members are those given, but for the ones at the head that are called __.SYMDEF.
  lemma {:induction false} DroppedIsSuffix(ms: seq<Member>) returns (d: nat)
    ensures d <= |ms| && Dropped(ms) == ms[d..] && (d < |ms| ==> ms[d].filename != SYMDEF)
    ensures forall j {:trigger ms[j]} :: 0 <= j < d ==> ms[j].filename == SYMDEF
  {
    d := 0;
    if ms != [] && ms[0].filename == SYMDEF {
      d := DroppedIsSuffix(ms[1..]);
      assert forall j {:trigger ms[j]} :: 0 < j <= d ==> ms[j] == ms[1..][j - 1];
      d := d + 1;
    }
  }

  // ---------- names ----------

  lemma HeaderName(h: Header)
    requires h.Ok()
    ensures HeaderBytes(h)[..NAME_FIELD] == h.name && |HeaderBytes(h)| == AR_HDR
  {
  }

  // A name in the table is read back if and only if it has no newline and no backslash
  // (and, without the slash that ends names, does not end in one).
  lemma LongNameIsBack(r: NameRules, ms: seq<Member>, makemap: bool, mapRest: seq<Byte>, a: Archive, k: nat, h: Header)
    requires AllFields(NameFields(ms)) && AllPrepared(ms, r.thin) && k < |ms| && h == Settled(r, ms)[k].header
    requires a == ArchiveOf(r, ms, makemap, mapRest) && Fits(a) && r.Extended(FileNames(ms), k)
    requires 0 !in r.Normal(ms[k].filename)
    ensures h.Ok()
    ensures NameOf(HeaderBytes(h), Found(a).names) == InTable(r.Normal(ms[k].filename))
            <==> Survives(r.Normal(ms[k].filename), r.slash)
  {
    hide NameRules.Normal, NameRules.Field, NameRules.Table, NameRules.Extended, NameOf, HeaderBytes, Cleaned,
         Survives, ReadBack, AllPrepared, MapPartFits, Archive.First, Dropped, HasObjects, Decimal;
    var files := FileNames(ms);
    SettledArePrepared(r, ms);
    SettledIsPrepared(r, ms, k);
    HeaderName(h);
    TableIsNotEmpty(r, files, k);
    assert r.Table(files, |files|) <= a.PaddedTable();
    assert |a.PaddedTable()| == a.RoundedUp(|a.table|);
    LongNameReadsBack(r, files, k, NameFields(ms)[k], HeaderBytes(h), a.PaddedTable());
  }

  lemma SettledIsPrepared(r: NameRules, ms: seq<Member>, k: nat)
    requires AllFields(NameFields(ms)) && AllPrepared(Settled(r, ms), r.thin) && k < |ms|
    ensures Settled(r, ms)[k].header.Ok()
  {
    hide NameRules.Field, Decimal;
    assert Prepared(Settled(r, ms)[k], r.thin);
  }

  lemma TableIsNotEmpty(r: NameRules, files: seq<seq<Byte>>, k: nat)
    requires k < |files| && r.Extended(files, k)
    ensures r.Table(files, |files|) != []
  {
    hide NameRules.Table, NameRules.Extended;
    if r.Table(files, |files|) == [] {
      EmptyTable(r, files, k);
    }
  }

  // A name in the header is read back with the exceptions that ShortNameReadsBack
  // gives; in the traditional format it is the first 15 characters.
  lemma ShortNameIsBack(r: NameRules, ms: seq<Member>, k: nat, h: Header, names: Option<seq<Byte>>)
    requires AllFields(NameFields(ms)) && AllPrepared(ms, r.thin) && k < |ms| && h == Settled(r, ms)[k].header
    requires !r.Extended(FileNames(ms), k) && r.Normal(ms[k].filename) != []
    ensures h.Ok()
    ensures var name := r.Normal(ms[k].filename)[..Min(|r.Normal(ms[k].filename)|, MAX_NAME)];
            NameOf(HeaderBytes(h), names) == Inline(name) <==>
            0 !in h.name[..MAX_NAME] && !(|name| == MAX_NAME && BLANK in name)
            && !(name == [0x23, 0x31] && IsDigit(h.name[3]))
  {
    hide NameOf, HeaderBytes, AllPrepared, Decimal;
    SettledArePrepared(r, ms);
    SettledIsPrepared(r, ms, k);
    HeaderName(h);
    var name := r.Normal(ms[k].filename)[..Min(|r.Normal(ms[k].filename)|, MAX_NAME)];
    var hdr := HeaderBytes(h);
    FieldHasName(r, ms[k].filename, NameFields(ms)[k], name);
    assert hdr[..MAX_NAME] == h.name[..MAX_NAME];
    assert hdr[..|name|] == h.name[..|name|] && hdr[|name|] == h.name[|name|] && hdr[3] == h.name[3];
    ShortNameReadsBack(hdr, name, names);
  }

  lemma FieldHasName(r: NameRules, file: seq<Byte>, was: seq<Byte>, name: seq<Byte>)
    requires |was| == NAME_FIELD && name == r.Normal(file)[..Min(|r.Normal(file)|, MAX_NAME)]
    ensures var field := r.ShortField(file, was); field[..|name|] == name && field[|name|] == SLASH
    ensures !r.thin ==> SLASH !in name
  {
    var field := r.ShortField(file, was);
    assert forall i {:trigger field[i]} :: 0 <= i <= |name| ==> field[i] == (name + [SLASH])[i];
  }
}
