// Opening an archive that was written finds its map, its name table and its first
// member.

module ArchiveOpen {
  import opened Bytes
  import opened CLibrary
  import opened ArchiveFormat
  import opened ArchiveNames
  import opened ArchiveTable
  import opened ArchiveLayout
  import opened ArchiveRead

  // ---------- where the parts are ----------

  // Where the name table goes.
  function TablePlace(a: Archive): nat { SARMAG + if a.hasMap then AR_HDR + a.MapSize() else 0 }

  lemma Parts(a: Archive, e: Endian)
    requires a.Ok()
    ensures |a.File(e)| == a.First() + |a.MembersBytes(|a.members|)|
    ensures a.File(e)[..SARMAG] == Armag(a.thin)
    ensures At(a.File(e), SARMAG, a.MapBytes(e)) && At(a.File(e), TablePlace(a), a.TableBytes())
  {
    hide At, Armag, Archive.MapBytes, Archive.TableBytes, Archive.MembersBytes;
    var armag, m, t, ms := Armag(a.thin), a.MapBytes(e), a.TableBytes(), a.MembersBytes(|a.members|);
    var file := a.File(e);
    assert file == armag + m + t + ms;
    assert armag + m <= file && (armag + m) + t <= file;
    PrefixAt(file, armag, m);
    PrefixAt(file, armag + m, t);
  }

  // The map's pieces in the file.
  lemma MapThere(a: Archive, e: Endian, file: seq<Byte>)
    requires a.Ok() && a.hasMap && |a.WholeMap()| < Power256(4) && At(file, SARMAG, a.MapBytes(e))
    ensures ReadRawMap(e, file, SARMAG) == Some(RawMap(|a.WholeMap()|, a.Offsets(e, |a.WholeMap()|),
                                                       a.Strings(|a.WholeMap()|) + a.MapPadding() + [0]))
    ensures ReadArHdr(file, SARMAG) == Some(ArHdr(HeaderBytes(a.MapHeader()), a.MapSize()))
    ensures |file| >= SARMAG + NAME_FIELD && file[SARMAG..SARMAG + NAME_FIELD] == Padded([SLASH])
  {
    hide At, ReadArHdr, Archive.WholeMap, HeaderBytes;
    var n, h := |a.WholeMap()|, a.MapHeader();
    var count, offsets, strings := e.put(n, 4), a.Offsets(e, n), a.Strings(n) + a.MapPadding();
    AtThree(file, SARMAG, HeaderBytes(h), count, offsets + strings);
    AtParts(file, SARMAG + AR_HDR + 4, offsets, strings);
    HeaderReads(file, SARMAG, h);
    AtRoom(file, SARMAG, HeaderBytes(h));
    AtRoom(file, SARMAG + AR_HDR, count);
    AtRoom(file, SARMAG + AR_HDR + 4, offsets);
    AtRoom(file, SARMAG + AR_HDR + 4 + 4 * n, strings);
    RemainderIs(n, Power256(4), 0, n);
    FieldOf(file, SARMAG, h);
  }

  // The name field of a header in the file.
  lemma FieldOf(file: seq<Byte>, p: nat, h: Header)
    requires h.Ok() && At(file, p, HeaderBytes(h))
    ensures p + AR_HDR <= |file| && file[p..p + NAME_FIELD] == h.name
  {
    hide At;
    AtRoom(file, p, HeaderBytes(h));
    assert HeaderBytes(h)[..NAME_FIELD] == h.name;
    assert file[p..p + NAME_FIELD] == file[p..p + AR_HDR][..NAME_FIELD];
  }

  lemma TableThere(a: Archive, file: seq<Byte>, p: nat)
    requires a.Ok() && a.table != [] && At(file, p, a.TableBytes())
    ensures ReadArHdr(file, p) == Some(ArHdr(HeaderBytes(a.TableHeader()), |a.PaddedTable()|))
    ensures p + AR_HDR + |a.PaddedTable()| <= |file|
    ensures file[p + AR_HDR..p + AR_HDR + |a.PaddedTable()|] == a.PaddedTable()
    ensures file[p..p + NAME_FIELD] == Padded([SLASH, SLASH])
  {
    hide At, ReadArHdr, HeaderBytes;
    AtParts(file, p, HeaderBytes(a.TableHeader()), a.PaddedTable());
    HeaderReads(file, p, a.TableHeader());
    AtRoom(file, p + AR_HDR, a.PaddedTable());
    FieldOf(file, p, a.TableHeader());
  }

  // ---------- fields that are taken for something else ----------

  // A name field that SlurpNames takes for the name table's.
  predicate LooksLikeTable(field: seq<Byte>) {
    field == Padded(ARFILENAMES + [SLASH]) || field == Padded([SLASH, SLASH])
  }

  // A name field that is taken for a second map's, after a map.
  predicate LooksLikeSecondMap(field: seq<Byte>) {
    |field| == NAME_FIELD && field[0] == SLASH && field[1] == BLANK
  }

  // A name field that SlurpArmap takes for a map's; `after` is what follows the header.
  predicate LooksLikeMap(field: seq<Byte>, after: seq<Byte>) {
    || field == Padded(SYMDEF) || field == Padded(SYMDEF + [SLASH]) || field == Padded([SLASH])
    || field == Padded(SYM64)
    || (field == Padded(BSD_SORTED) && LooksSorted(after))
  }

  predicate LooksSorted(after: seq<Byte>) { |after| < BSD_NAME || SYMDEF <= after }

  // What comes before the members cannot be mistaken: without a name table, the first
  // member's header looks neither like that of one nor, after a map, like a second
  // map's nor, without a map, like a map's.
  predicate Clear(a: Archive)
    requires a.Ok()
  {
    a.table == [] && a.members != [] ==>
      var field := a.members[0].header.name;
      && !LooksLikeTable(field)
      && if a.hasMap then !LooksLikeSecondMap(field) else !LooksLikeMap(field, AfterHeader(a))
  }

  function AfterHeader(a: Archive): seq<Byte>
    requires a.Ok() && a.members != []
  {
    MembersHaveHeader(a, |a.members|);
    a.MembersBytes(|a.members|)[AR_HDR..]
  }

  lemma {:induction false} MembersHaveHeader(a: Archive, n: nat)
    requires a.Ok() && 0 < n <= |a.members|
    ensures |a.MembersBytes(n)| >= AR_HDR
  {
    hide Archive.MemberBytes;
    assert a.MemberOk(a.members[n - 1]);
  }

  // A field with a name in it: up to 15 characters, then a slash.
  predicate HasName(field: seq<Byte>, name: seq<Byte>) {
    && |field| == NAME_FIELD && name != [] && SLASH !in name
    && (forall i {:trigger field[i]} :: 0 <= i < Min(|name|, MAX_NAME) ==> field[i] == name[i])
    && field[Min(|name|, MAX_NAME)] == SLASH
  }

  // It is the one that ends at the first slash.
  lemma NameEndsAt(field: seq<Byte>, name: seq<Byte>, n: nat)
    requires HasName(field, name) && n < MAX_NAME && field[n] == SLASH && SLASH !in field[..n]
    ensures name == field[..n]
  {
    assert forall i {:trigger field[i]} :: 0 <= i < n ==> field[i] == field[..n][i];
  }

  lemma ReservedHasNoSlash()
    ensures SLASH !in ARFILENAMES && SLASH !in SYMDEF
  {
    assert forall i {:trigger ARFILENAMES[i]} :: 0 <= i < |ARFILENAMES| ==> ARFILENAMES[i] != SLASH;
    assert forall i {:trigger SYMDEF[i]} :: 0 <= i < |SYMDEF| ==> SYMDEF[i] != SLASH;
  }

  lemma NameInField(field: seq<Byte>, name: seq<Byte>, x: seq<Byte>)
    requires HasName(field, name) && (x == ARFILENAMES || x == SYMDEF) && field == Padded(x + [SLASH])
    ensures name == x
  {
    ReservedHasNoSlash();
    assert field[..|x|] == x;
    NameEndsAt(field, name, |x|);
  }

  lemma NoSuchName(field: seq<Byte>, name: seq<Byte>)
    requires HasName(field, name)
    ensures field[0] != SLASH && field != Padded(SYMDEF)
  {
    assert forall j {:trigger Padded(SYMDEF)[j]} :: 0 <= j < NAME_FIELD ==> Padded(SYMDEF)[j] != SLASH;
  }

  lemma SlashFields()
    ensures Padded([SLASH])[0] == Padded([SLASH, SLASH])[0] == Padded(SYM64)[0] == SLASH
    ensures !IsDigit(Padded([SLASH])[1]) && !IsDigit(Padded([SLASH, SLASH])[1]) && !IsDigit(Padded(SYM64)[1])
    ensures Padded(SYMDEF)[0] != SLASH && Padded(SYMDEF + [SLASH])[0] != SLASH
    ensures Padded(ARFILENAMES + [SLASH])[0] != SLASH && Padded(BSD_SORTED)[0] != SLASH
  {
  }

  lemma ReservedFields()
    ensures Padded(ARFILENAMES + [SLASH])[0] != Padded(SYMDEF)[0] == Padded(SYMDEF + [SLASH])[0]
    ensures Padded(ARFILENAMES + [SLASH])[0] != Padded(BSD_SORTED)[0]
  {
  }

  lemma ExtendedField(r: NameRules, files: seq<seq<Byte>>, k: nat, was: seq<Byte>)
    requires k < |files| && |was| == NAME_FIELD && r.Extended(files, k)
    ensures var field := r.Field(files, k, was); field[0] == SLASH && IsDigit(field[1])
  {
    hide Decimal, NameRules.Offset, NameRules.Extended;
    var d := Decimal(r.Offset(files, k));
    assert r.Field(files, k, was)[1] == SpacePad(MAX_NAME - 1, d)[0] == d[0];
  }

  lemma InlineField(r: NameRules, file: seq<Byte>, was: seq<Byte>)
    requires |was| == NAME_FIELD && r.Normal(file) != [] && SLASH !in r.Normal(file)
    ensures HasName(r.ShortField(file, was), r.Normal(file))
  {
    hide NameRules.Normal;
    var name := r.Normal(file);
    var field, t := r.ShortField(file, was), name[..Min(|name|, MAX_NAME)] + [SLASH];
    assert forall i {:trigger field[i]} :: 0 <= i < |t| ==> field[i] == t[i];
  }

  // The names whose fields look like the table's or a map's.
  lemma FieldIsOrdinary(r: NameRules, files: seq<seq<Byte>>, k: nat, was: seq<Byte>, after: seq<Byte>)
    requires k < |files| && |was| == NAME_FIELD && (r.Extended(files, k) || r.Normal(files[k]) != [])
    requires !r.thin ==> SLASH !in r.Normal(files[k])
    ensures var field, name := r.Field(files, k, was), r.Normal(files[k]);
            && !LooksLikeSecondMap(field)
            && (LooksLikeTable(field) <==> field == Padded(ARFILENAMES + [SLASH]))
            && (LooksLikeMap(field, after) <==>
                field == Padded(SYMDEF + [SLASH]) || (field == Padded(BSD_SORTED) && LooksSorted(after)))
            && (field == Padded(ARFILENAMES + [SLASH]) ==> name == ARFILENAMES)
            && (field == Padded(SYMDEF + [SLASH]) ==> name == SYMDEF)
            && (field == Padded(BSD_SORTED) ==> name == BSD_SORTED[..2])
  {
    hide Decimal, NameRules.Normal, NameRules.Offset, NameRules.ShortField, Padded, HasName, LooksSorted;
    var field, name := r.Field(files, k, was), r.Normal(files[k]);
    SlashFields();
    if r.Extended(files, k) {
      ExtendedField(r, files, k, was);
    } else {
      InlineField(r, files[k], was);
      NoSuchName(field, name);
      if field == Padded(ARFILENAMES + [SLASH]) {
        NameInField(field, name, ARFILENAMES);
      }
      if field == Padded(SYMDEF + [SLASH]) {
        NameInField(field, name, SYMDEF);
      }
      if field == Padded(BSD_SORTED) {
        SharpName(field, name);
      }
    }
  }

  lemma SharpName(field: seq<Byte>, name: seq<Byte>)
    requires HasName(field, name) && field == Padded(BSD_SORTED)
    ensures name == BSD_SORTED[..2]
  {
    assert field[..2] == BSD_SORTED[..2];
    NameEndsAt(field, name, 2);
  }

  lemma FirstField(a: Archive, e: Endian, file: seq<Byte>)
    requires a.Ok() && file == a.File(e)
    ensures a.members != [] ==>
              a.First() + AR_HDR <= |file| && file[a.First()..a.First() + NAME_FIELD] == a.members[0].header.name
    ensures a.members == [] ==> a.First() == |file|
  {
    hide At, Archive.First, Archive.Front;
    if a.members != [] {
      MemberIsThere(a, e, 0);
      AtParts(file, a.First(), HeaderBytes(a.members[0].header), a.Contents(a.members[0]));
      FieldOf(file, a.First(), a.members[0].header);
    }
  }

  // ---------- opening ----------

  // What should be found.
  function Found(a: Archive): ArData {
    ArData(a.thin, if a.hasMap then Some(ReadBack(a, 0)) else None,
           if a.table != [] then Some(Cleaned(a.PaddedTable())) else None, a.First())
  }

  // If there is a map, numbers and offsets fit in four bytes, and names are C strings.
  predicate MapFits(a: Archive) {
    a.hasMap ==>
    && |a.WholeMap()| < Power256(4) && NamesOk(a)
    && forall j {:trigger a.SymOffset(j)} :: 0 <= j < |a.WholeMap()| ==> a.SymOffset(j) < Power256(4)
  }

  // No second map is seen where the first one ends, unless the first member looks so.
  lemma SecondMapIff(a: Archive, e: Endian, file: seq<Byte>)
    requires a.Ok() && file == a.File(e)
    ensures SkipSecondMap(file, TablePlace(a)) == TablePlace(a) <==>
            a.table != [] || a.members == [] || !LooksLikeSecondMap(a.members[0].header.name)
    ensures SkipSecondMap(file, TablePlace(a)) >= TablePlace(a)
  {
    hide At, Archive.File, Archive.First, HeaderBytes, Padded, ReadArHdr;
    var p := TablePlace(a);
    TablePlaceIsFirst(a);
    if a.table != [] {
      Parts(a, e);
      AtParts(file, p, HeaderBytes(a.TableHeader()), a.PaddedTable());
      FieldOf(file, p, a.TableHeader());
      assert file[p..p + NAME_FIELD][1] == SLASH;
    } else {
      FirstField(a, e, file);
      if a.members != [] {
        HeaderIsThere(a, e, 0);
        assert file[p..p + NAME_FIELD][0] == file[p] && file[p..p + NAME_FIELD][1] == file[p + 1];
      }
    }
  }

  lemma TablePlaceIsFirst(a: Archive)
    ensures a.table == [] ==> TablePlace(a) == a.First() == a.Position(0)
    ensures a.table != [] ==> Even(TablePlace(a) + AR_HDR + |a.PaddedTable()|) == a.First()
    ensures !a.hasMap ==> TablePlace(a) == SARMAG
  {
  }

  lemma MapSymbols(a: Archive, e: Endian, m: RawMap)
    requires MapFits(a) && a.hasMap
    requires m == RawMap(|a.WholeMap()|, a.Offsets(e, |a.WholeMap()|), a.Strings(|a.WholeMap()|) + a.MapPadding() + [0])
    ensures m.Ok() && Carsyms(e, m, 0, 0) == ReadBack(a, 0)
  {
    hide Archive.WholeMap, Archive.SymOffset, ReadBack, Carsyms;
    CarsymsAreBack(a, e, m, 0);
  }

  // The reader's part once the pieces are known.
  lemma SlurpWithMap(e: Endian, file: seq<Byte>, thin: bool, hdr: ArHdr, m: RawMap, p: nat, syms: seq<Carsym>)
    requires |file| >= SARMAG + NAME_FIELD && file[SARMAG..SARMAG + NAME_FIELD] == Padded([SLASH])
    requires ReadArHdr(file, SARMAG) == Some(hdr) && ReadRawMap(e, file, SARMAG) == Some(m) && m.Ok()
    requires Carsyms(e, m, 0, 0) == syms && Even(SARMAG + AR_HDR + hdr.size) == p
    ensures SlurpArmap(e, file, thin) == Opened(ArData(thin, Some(syms), None, SkipSecondMap(file, p)))
  {
    hide ReadArHdr, ReadRawMap, Carsyms, SkipSecondMap, Padded;
    MapFieldIsPlain();
  }

  // The map is read back.
  lemma MapIsFound(a: Archive, e: Endian, file: seq<Byte>)
    requires a.Ok() && MapFits(a) && file == a.File(e) && a.hasMap
    ensures |file| >= SARMAG
    ensures SlurpArmap(e, file, a.thin)
            == Opened(ArData(a.thin, Some(ReadBack(a, 0)), None, SkipSecondMap(file, TablePlace(a))))
  {
    hide *;
    var n := |a.WholeMap()|;
    var m := RawMap(n, a.Offsets(e, n), a.Strings(n) + a.MapPadding() + [0]);
    CountFits(a);
    var hdr := ArHdr(HeaderBytes(a.MapHeader()), a.MapSize());
    Parts(a, e);
    MapThere(a, e, file);
    MapSymbols(a, e, m);
    MapEnds(a);
    SlurpWithMap(e, file, a.thin, hdr, m, TablePlace(a), ReadBack(a, 0));
  }

  lemma CountFits(a: Archive)
    requires a.Ok() && MapFits(a) && a.hasMap
    ensures |a.WholeMap()| < Power256(4) && a.MapHeader().Ok()
  {
  }

  lemma MapEnds(a: Archive)
    requires a.hasMap
    ensures Even(SARMAG + AR_HDR + a.MapSize()) == TablePlace(a)
  {
  }

  lemma MapFieldIsPlain()
    ensures Padded([SLASH]) != Padded(SYMDEF) && Padded([SLASH]) != Padded(SYMDEF + [SLASH])
  {
    assert Padded([SLASH])[0] != Padded(SYMDEF)[0];
    assert Padded([SLASH])[0] != Padded(SYMDEF + [SLASH])[0];
  }

  lemma TableFieldIsPlain(after: seq<Byte>)
    ensures LooksLikeTable(Padded([SLASH, SLASH])) && !LooksLikeMap(Padded([SLASH, SLASH]), after)
  {
    var f := Padded([SLASH, SLASH]);
    assert f[1] != Padded(SYMDEF)[1] && f[1] != Padded(SYMDEF + [SLASH])[1] && f[1] != Padded([SLASH])[1];
    assert f[1] != Padded(SYM64)[1] && f[1] != Padded(BSD_SORTED)[1];
  }

  // At the start of the members a map is seen if and only if the field there looks
  // like one's; then there are symbols, or opening fails.
  lemma SlurpIff(e: Endian, file: seq<Byte>, thin: bool)
    requires |file| >= SARMAG + AR_HDR
    ensures var field, o := file[SARMAG..SARMAG + NAME_FIELD], SlurpArmap(e, file, thin);
            && (o == Opened(ArData(thin, None, None, SARMAG)) <==> !LooksLikeMap(field, file[SARMAG + AR_HDR..]))
            && (LooksLikeMap(field, file[SARMAG + AR_HDR..]) ==> o.Opened? ==> o.data.symdefs.Some?)
  {
    hide Padded, ReadRawMap, ReadArHdr, Carsyms, SkipSecondMap;
  }

  // No map is seen where there is none, unless the first member looks like one.
  lemma NoMapIff(a: Archive, e: Endian, file: seq<Byte>)
    requires a.Ok() && !a.hasMap && file == a.File(e)
    ensures |file| >= SARMAG
    ensures var o := SlurpArmap(e, file, a.thin);
            && (o == Opened(ArData(a.thin, None, None, SARMAG)) <==>
                a.table != [] || a.members == [] || !LooksLikeMap(a.members[0].header.name, AfterHeader(a)))
            && (o == Opened(ArData(a.thin, None, None, SARMAG)) || (o.Opened? ==> o.data.symdefs.Some?))
  {
    hide At, Archive.File, Archive.First, Archive.TableBytes, Archive.MapBytes, Padded, ReadRawMap, ReadArHdr,
         LooksLikeMap, SlurpArmap;
    Parts(a, e);
    TablePlaceIsFirst(a);
    if a.table != [] {
      TableThere(a, file, SARMAG);
      TableFieldIsPlain(file[SARMAG + AR_HDR..]);
      SlurpIff(e, file, a.thin);
    } else if a.members != [] {
      FirstField(a, e, file);
      AfterIs(a, e);
      SlurpIff(e, file, a.thin);
    } else {
      FirstField(a, e, file);
      NothingToSlurp(e, file, a.thin);
    }
  }

  lemma NothingToSlurp(e: Endian, file: seq<Byte>, thin: bool)
    requires |file| == SARMAG
    ensures SlurpArmap(e, file, thin) == Opened(ArData(thin, None, None, SARMAG))
  {
  }

  lemma AfterIs(a: Archive, e: Endian)
    requires a.Ok() && !a.hasMap && a.table == [] && a.members != []
    ensures |a.File(e)| >= SARMAG + AR_HDR && a.File(e)[SARMAG + AR_HDR..] == AfterHeader(a)
  {
    hide Armag, Archive.MembersBytes;
    var ms := a.MembersBytes(|a.members|);
    MembersHaveHeader(a, |a.members|);
    assert a.File(e) == Armag(a.thin) + ms;
  }

  // The name table is read if and only if the field at `first` looks like its own.
  lemma SlurpNamesIff(file: seq<Byte>, d: ArData)
    requires d.names == None
    ensures var o := SlurpNames(file, d);
            && (o.Opened? ==> o.data.symdefs == d.symdefs && o.data.first >= d.first)
            && (o == Opened(d)
                <==> d.first + NAME_FIELD > |file| || !LooksLikeTable(file[d.first..d.first + NAME_FIELD]))
            && (o.Opened? && o != Opened(d) ==> o.data.names.Some?)
  {
    hide Padded, ReadArHdr, Cleaned;
  }

  // So is the name table.
  lemma NamesAreFound(a: Archive, e: Endian, file: seq<Byte>, d: ArData)
    requires a.Ok() && a.table != [] && file == a.File(e) && d.first == TablePlace(a)
    ensures SlurpNames(file, d) == Opened(d.(names := Some(Cleaned(a.PaddedTable())), first := a.First()))
  {
    hide At, Archive.File, Archive.First, Archive.TableBytes, Archive.MapBytes, Padded, ReadArHdr, Cleaned, HeaderBytes,
         Archive.PaddedTable, TablePlace;
    Parts(a, e);
    TablePlaceIsFirst(a);
    TableThere(a, file, TablePlace(a));
  }

  lemma OpenIs(a: Archive, e: Endian, file: seq<Byte>)
    requires a.Ok() && file == a.File(e)
    ensures |file| >= SARMAG
    ensures Open(e, file) == var o := SlurpArmap(e, file, a.thin); if o.Opened? then SlurpNames(file, o.data) else o
  {
    hide At, Archive.File, Archive.TableBytes, Archive.MapBytes, SlurpArmap, SlurpNames;
    Parts(a, e);
    assert Armag(true)[2] != Armag(false)[2];
  }

  // What is found at the start of the members: what should be, or not.
  lemma ArmapIff(a: Archive, e: Endian, file: seq<Byte>)
    requires a.Ok() && MapFits(a) && file == a.File(e)
    ensures |file| >= SARMAG
    ensures var o, d := SlurpArmap(e, file, a.thin), ArData(a.thin, Found(a).symdefs, None, TablePlace(a));
            && (o == Opened(d) <==> ArmapClear(a))
            && (o.Opened? && o != Opened(d) ==>
                  a.table == [] && (o.data.symdefs != d.symdefs || o.data.first > d.first))
            && (o.Opened? ==> o.data.names == None)
  {
    hide Archive.File, SlurpArmap, MapFits, ReadBack, SkipSecondMap, LooksLikeMap, LooksLikeSecondMap, Archive.First,
         Cleaned;
    TablePlaceIsFirst(a);
    if a.hasMap {
      MapIsFound(a, e, file);
      SecondMapIff(a, e, file);
    } else {
      NoMapIff(a, e, file);
      NoNamesYet(e, file, a.thin);
    }
  }

  lemma NoNamesYet(e: Endian, file: seq<Byte>, thin: bool)
    requires |file| >= SARMAG
    ensures var o := SlurpArmap(e, file, thin); o.Opened? ==> o.data.names == None
  {
  }

  // The part of Clear that is about maps.
  predicate ArmapClear(a: Archive)
    requires a.Ok()
  {
    a.table == [] && a.members != [] ==>
      if a.hasMap then !LooksLikeSecondMap(a.members[0].header.name)
      else !LooksLikeMap(a.members[0].header.name, AfterHeader(a))
  }

  // Opening a written archive gives its map, its name table and the place of its
  // first member, if and only if the first member is not mistaken for something else.
  lemma OpenFindsAll(a: Archive, e: Endian)
    requires a.Ok() && MapFits(a)
    ensures Open(e, a.File(e)) == Opened(Found(a)) <==> Clear(a)
  {
    hide At, Archive.File, Archive.First, SlurpArmap, SlurpNames, MapFits, ReadBack, Cleaned, Open, LooksLikeMap,
         LooksLikeSecondMap, LooksLikeTable, AfterHeader, TablePlace;
    var file := a.File(e);
    OpenIs(a, e, file);
    ArmapIff(a, e, file);
    TablePlaceIsFirst(a);
    var o := SlurpArmap(e, file, a.thin);
    if o.Opened? {
      SlurpNamesIff(file, o.data);
      if a.table != [] {
        NamesAreFound(a, e, file, o.data);
      } else {
        FirstField(a, e, file);
      }
    }
  }
}
