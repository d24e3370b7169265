// What a written archive looks like byte by byte, as any other reader sees it.

module ArchiveBytes {
  import opened Bytes
  import opened CLibrary
  import opened ArchiveFormat
  import opened ArchiveNames
  import opened ArchiveTable
  import opened ArchiveLayout
  import opened ArchiveRead
  import opened ArchiveOpen
  import opened ArchiveFile
  import opened ArchiveReader
  import opened ArchiveRoundTrip

  // ---------- words ----------

  // Four bytes, the most significant one first.
  function WordAt(c: seq<Byte>, p: nat): nat
    requires p + 4 <= |c|
  {
    0x100_0000 * (c[p] as nat) + 0x1_0000 * (c[p + 1] as nat) + 0x100 * (c[p + 2] as nat) + c[p + 3]
  }

  lemma BigIsWord(c: seq<Byte>, p: nat)
    requires p + 4 <= |c|
    ensures BIG.get(c[p..p + 4]) == WordAt(c, p)
  {
    var r := Reversed(c[p..p + 4]);
    assert r == [c[p + 3], c[p + 2], c[p + 1], c[p]];
    FourBytes(c[p + 3], c[p + 2], c[p + 1], c[p]);
  }

  // ---------- the map ----------

  // The first byte after the map's header.
  const MAP_COUNT := SARMAG + AR_HDR

  lemma MapIsThere(a: Archive)
    requires a.Ok() && a.hasMap && |a.WholeMap()| < FOUR_GB
    ensures ReadRawMap(BIG, a.File(BIG), SARMAG).Some?
    ensures var m := ReadRawMap(BIG, a.File(BIG), SARMAG).value;
            m.count == |a.WholeMap()| && m.raw == a.Offsets(BIG, |a.WholeMap()|)
  {
    hide *;
    Parts(a, BIG);
    FourGigabytes(|a.WholeMap()|);
    MapThere(a, BIG, a.File(BIG));
  }

  lemma FourGigabytes(n: nat)
    requires n < FOUR_GB
    ensures Power256(4) == FOUR_GB && n % Power256(4) == n
  {
  }

  // The reader takes the words of any file the same way.
  lemma CountIsWord(file: seq<Byte>, pos: nat)
    requires ReadRawMap(BIG, file, pos).Some?
    ensures pos + AR_HDR + 4 <= |file| && ReadRawMap(BIG, file, pos).value.count == WordAt(file, pos + AR_HDR)
    ensures var m := ReadRawMap(BIG, file, pos).value;
            m.Ok() && pos + AR_HDR + 4 + 4 * m.count <= |file|
            && m.raw == file[pos + AR_HDR + 4..pos + AR_HDR + 4 + 4 * m.count]
  {
    hide ReadArHdr;
    BigIsWord(file, pos + AR_HDR);
  }

  lemma CarsymIsWord(m: RawMap, i: nat, q: nat)
    requires m.Ok() && i < m.count && q < |m.names|
    ensures Symbol(BIG, m, i, q).offset == WordAt(m.raw, 4 * i)
  {
    hide StringFrom, WordAt;
    BigIsWord(m.raw, 4 * i);
  }

  lemma SameWord(c: seq<Byte>, p: nat, n: nat, q: nat)
    requires p + n <= |c| && q + 4 <= n
    ensures WordAt(c[p..p + n], q) == WordAt(c, p + q)
  {
  }

  lemma OffsetWord(a: Archive, i: nat)
    requires a.Ok() && a.hasMap && i < |a.WholeMap()| < FOUR_GB && a.SymOffset(i) < FOUR_GB
    ensures MAP_COUNT + 8 + 4 * i <= |a.File(BIG)| && WordAt(a.File(BIG), MAP_COUNT) == |a.WholeMap()|
    ensures WordAt(a.File(BIG), MAP_COUNT + 4 + 4 * i) == a.SymOffset(i)
  {
    hide Archive.File, Archive.WholeMap, Archive.Offsets, WordAt, Power256, ReadRawMap, Archive.SymOffset, Archive.Ok,
         OffsetsFit;
    MapIsThere(a);
    var m := ReadRawMap(BIG, a.File(BIG), SARMAG).value;
    CountIsWord(a.File(BIG), SARMAG);
    FourGigabytes(a.SymOffset(i));
    OffsetThere(a, BIG, i);
    BigIsWord(m.raw, 4 * i);
    SameWord(a.File(BIG), MAP_COUNT + 4, 4 * m.count, 4 * i);
  }

  // At w in the file there is the header of member k, whose symbol j has this name.
  predicate LeadsToExport(a: Archive, file: seq<Byte>, w: nat, name: seq<Byte>, k: nat, j: nat) {
    && k < |a.members| && j < |a.members[k].syms| && a.members[k].syms[j] == Sym(name, true)
    && a.members[k].header.Ok()
    && ReadArHdr(file, w) == Some(ArHdr(HeaderBytes(a.members[k].header), a.members[k].header.size))
  }

  // The word after the map's header is the number of symbols, and word i after that
  // is where the header of a member is that exports symbol i.
  lemma MapWords(a: Archive, i: nat) returns (k: nat, j: nat)
    requires a.Ok() && a.hasMap && OffsetsFit(a, |a.WholeMap()|) && i < |a.WholeMap()| < FOUR_GB
    ensures MAP_COUNT + 8 + 4 * i <= |a.File(BIG)| && WordAt(a.File(BIG), MAP_COUNT) == |a.WholeMap()|
    ensures LeadsToExport(a, a.File(BIG), WordAt(a.File(BIG), MAP_COUNT + 4 + 4 * i), a.WholeMap()[i].name, k, j)
  {
    hide Archive.File, Archive.WholeMap, WordAt, ReadArHdr, Archive.SymOffset, Archive.Ok, HeaderBytes;
    k, j := SymbolLeadsToMember(a, BIG, i);
    OffsetWord(a, i);
  }

  // ---------- texts ----------

  function Ascii(s: string): (r: seq<Byte>)
    requires forall i {:trigger s[i]} :: 0 <= i < |s| ==> s[i] as int < 0x80
    ensures |r| == |s| && forall i {:trigger r[i]} :: 0 <= i < |s| ==> r[i] == s[i] as int
  {
    seq<Byte>(|s|, i requires 0 <= i < |s| && s[i] as int < 0x80 => s[i] as int)
  }

  lemma TextsAre()
    ensures Armag(false) == Ascii("!<arch>\n") && Armag(true) == Ascii("!<thin>\n") && FMAG == Ascii("`\n")
    ensures SYMDEF == Ascii("__.SYMDEF") && ARFILENAMES == Ascii("ARFILENAMES") && SYM64 == Ascii("/SYM64/")
    ensures BSD_SORTED == Ascii("#1/20") && BSD_NAME == 20 && [NEWLINE, BLANK, SLASH, BACKSLASH] == Ascii("\n /\\")
  {
  }

  // The number that digits stand for.
  function DigitsValue(s: seq<Byte>): int {
    if s == [] then 0 else 10 * DigitsValue(s[..|s| - 1]) + (s[|s| - 1] - '0' as int)
  }

  // A size in decimal digits, without leading zeros.
  lemma {:induction false} DecimalIs(n: nat)
    ensures DigitsValue(Decimal(n)) == n && (n > 0 ==> Decimal(n)[0] != '0' as int)
    decreases n
  {
    if n >= 10 {
      DecimalIs(n / 10);
      assert Decimal(n)[..|Decimal(n)| - 1] == Decimal(n / 10);
    } else {
      assert Decimal(n)[..0] == [];
    }
  }

  // A header in the file: the name field, the fields in between, the size in digits and
  // blanks, and the end mark.
  predicate HeaderAt(file: seq<Byte>, q: nat, h: Header) {
    var n := |Decimal(h.size)|;
    && n <= 10 && q + 60 <= |file| && file[q..q + 16] == h.name && file[q + 16..q + 48] == h.rest
    && file[q + 48..q + 48 + n] == Decimal(h.size) && file[q + 48 + n..q + 58] == Ascii("          ")[n..]
    && file[q + 58..q + 60] == Ascii("`\n")
  }

  lemma HeaderLooks(file: seq<Byte>, q: nat, h: Header)
    requires h.Ok() && At(file, q, HeaderBytes(h))
    ensures HeaderAt(file, q, h)
  {
    hide At, Decimal;
    var size, rest := Decimal(h.size), Blanks(10 - |Decimal(h.size)|);
    TextsAre();
    AtThree(file, q, h.name, h.rest, SpacePad(10, size) + FMAG);
    AtParts(file, q + 48, SpacePad(10, size), FMAG);
    assert SpacePad(10, size) == size + rest;
    AtParts(file, q + 48, size, rest);
    AtRoom(file, q, h.name);
    AtRoom(file, q + 16, h.rest);
    AtRoom(file, q + 48, size);
    AtRoom(file, q + 48 + |size|, rest);
    AtRoom(file, q + 58, FMAG);
    assert rest == Ascii("          ")[|size|..];
  }

  // A member in the file: its header at an even place, and its data after it, with a
  // newline if they are odd.
  predicate MemberAt(file: seq<Byte>, q: nat, thin: bool, h: Header, data: seq<Byte>) {
    && q % 2 == 0 && HeaderAt(file, q, h)
    && (!thin ==> q + 60 + |data| <= |file| && file[q + 60..q + 60 + |data|] == data)
    && (!thin && |data| % 2 == 1 ==> q + 60 + |data| < |file| && file[q + 60 + |data|] == '\n' as int)
  }

  predicate StartsWithMagic(file: seq<Byte>, thin: bool) {
    |file| >= 8 && file[..8] == if thin then Ascii("!<thin>\n") else Ascii("!<arch>\n")
  }

  // A file starts with its magic string, and the members are where they were said to be.
  lemma FileLooks(a: Archive, k: nat)
    requires a.Ok() && k < |a.members|
    ensures StartsWithMagic(a.File(BIG), a.thin)
    ensures MemberAt(a.File(BIG), a.Position(k), a.thin, a.members[k].header, a.members[k].data)
  {
    hide *;
    FileStarts(a);
    PositionIsLength(a, k);
    MemberIsThere(a, BIG, k);
    MemberLooks(a, a.File(BIG), a.Position(k), a.members[k]);
  }

  lemma FileStarts(a: Archive)
    requires a.Ok()
    ensures StartsWithMagic(a.File(BIG), a.thin)
  {
    hide Archive.File, Archive.Ok, At, Armag, Ascii;
    Parts(a, BIG);
    TextsAre();
  }

  lemma MemberLooks(a: Archive, file: seq<Byte>, q: nat, m: Member)
    requires a.MemberOk(m) && At(file, q, a.MemberBytes(m)) && q % 2 == 0
    ensures MemberAt(file, q, a.thin, m.header, m.data)
  {
    hide At, HeaderAt, HeaderBytes, Decimal;
    AtParts(file, q, HeaderBytes(m.header), a.Contents(m));
    HeaderLooks(file, q, m.header);
    if !a.thin {
      AtParts(file, q + 60, m.data, if |m.data| % 2 == 1 then [NEWLINE] else []);
      AtRoom(file, q + 60, m.data);
      LastByte(file, q + 60 + |m.data|, if |m.data| % 2 == 1 then [NEWLINE] else []);
    }
  }

  lemma LastByte(file: seq<Byte>, p: nat, s: seq<Byte>)
    requires At(file, p, s)
    ensures |s| == 1 ==> p < |file| && file[p] == s[0]
  {
    AtRoom(file, p, s);
    assert |s| == 1 ==> file[p..p + 1][0] == file[p];
  }

  // ---------- before the members ----------

  // A map of n symbols is a member called "/" at 8: the count, the offsets, the names, and
  // a NUL if that makes it even.
  predicate MapAt(file: seq<Byte>, rest: seq<Byte>, n: nat, names: seq<Byte>) {
    var size := 4 + 4 * n + |names|;
    && HeaderAt(file, 8, Header(Ascii("/               "), rest, size + size % 2))
    && 68 + size + size % 2 <= |file| && file[72 + 4 * n..68 + size] == names
    && (size % 2 == 1 ==> file[68 + size] == 0)
  }

  lemma MapIsAt(file: seq<Byte>, h: Header, n: nat, count: seq<Byte>, offsets: seq<Byte>, names: seq<Byte>,
                pad: seq<Byte>)
    requires h.Ok() && h.name == Ascii("/               ") && PartsFit(count, offsets, n)
    requires PaddedSize(h.size, n, names, pad)
    requires At(file, 8, HeaderBytes(h) + (count + (offsets + (names + pad))))
    ensures MapAt(file, h.rest, n, names)
  {
    hide At, HeaderAt, HeaderBytes, Ascii;
    AtThree(file, 8, HeaderBytes(h), count, offsets + (names + pad));
    HeaderLooks(file, 8, h);
    AtThree(file, 72, offsets, names, pad);
    AtRoom(file, 72 + |offsets|, names);
    AtRoom(file, 72 + |offsets| + |names|, pad);
    LastByte(file, 72 + |offsets| + |names|, pad);
  }

  lemma BytesAre(a: Archive)
    requires a.Ok()
    ensures At(a.File(BIG), 8, a.MapBytes(BIG))
    ensures At(a.File(BIG), if a.hasMap then 68 + a.MapSize() else 8, a.TableBytes())
  {
    hide *;
    Parts(a, BIG);
    PlaceIs(a);
  }

  lemma PlaceIs(a: Archive)
    ensures SARMAG == 8 && TablePlace(a) == if a.hasMap then 68 + a.MapSize() else 8
  {
    hide Archive.MapSize;
  }

  lemma MapLooks(a: Archive)
    requires a.Ok() && a.hasMap
    ensures MapAt(a.File(BIG), a.mapRest, |a.WholeMap()|, a.Strings(|a.WholeMap()|))
  {
    hide *;
    BytesAre(a);
    var n := |a.WholeMap()|;
    MapIsParts(a);
    AfterCountIs(a);
    MapIsAt(a.File(BIG), a.MapHeader(), n, BIG.put(n, 4), a.Offsets(BIG, n), a.Strings(n), a.MapPadding());
  }

  lemma MapIsParts(a: Archive)
    requires a.Ok() && a.hasMap
    ensures a.MapHeader().Ok() && a.MapHeader().name == Ascii("/               ") && a.MapHeader().rest == a.mapRest
    ensures PartsFit(BIG.put(|a.WholeMap()|, 4), a.Offsets(BIG, |a.WholeMap()|), |a.WholeMap()|)
    ensures PaddedSize(a.MapHeader().size, |a.WholeMap()|, a.Strings(|a.WholeMap()|), a.MapPadding())
    ensures a.MapBytes(BIG) == HeaderBytes(a.MapHeader()) + (BIG.put(|a.WholeMap()|, 4) + AfterCount(a))
  {
    hide Archive.WholeMap, Archive.Strings, Archive.Offsets, HeaderBytes, Header.Ok, Archive.MemberOk, Archive.MapBytes,
         Archive.MapPadding, Archive.MapSize, PaddedSize;
    assert a.MapHeader().name == Ascii("/               ");
    MapSizeIs(a);
    MapBytesAre(a);
  }

  predicate PartsFit(count: seq<Byte>, offsets: seq<Byte>, n: nat) { |count| == 4 && |offsets| == 4 * n }

  predicate PaddedSize(total: nat, n: nat, names: seq<Byte>, pad: seq<Byte>) {
    var size := 4 + 4 * n + |names|; total == size + size % 2 && pad == if size % 2 == 1 then [0] else []
  }

  function AfterCount(a: Archive): seq<Byte> {
    a.Offsets(BIG, |a.WholeMap()|) + (a.Strings(|a.WholeMap()|) + a.MapPadding())
  }

  lemma AfterCountIs(a: Archive)
    ensures AfterCount(a) == a.Offsets(BIG, |a.WholeMap()|) + (a.Strings(|a.WholeMap()|) + a.MapPadding())
  {
    hide Archive.WholeMap, Archive.Strings, Archive.Offsets, Archive.MapPadding;
  }

  lemma MapSizeIs(a: Archive)
    ensures PaddedSize(a.MapHeader().size, |a.WholeMap()|, a.Strings(|a.WholeMap()|), a.MapPadding())
  {
    hide Archive.WholeMap, Archive.Strings;
  }

  lemma MapBytesAre(a: Archive)
    requires a.hasMap && a.MapHeader().Ok()
    ensures a.MapBytes(BIG) == HeaderBytes(a.MapHeader()) + (BIG.put(|a.WholeMap()|, 4) + AfterCount(a))
  {
    hide Archive.WholeMap, Archive.Strings, Archive.Offsets, HeaderBytes, Archive.MapHeader, Archive.MapPadding,
         Archive.MapSize, Header.Ok;
  }

  // In the map's names, name i is there with a NUL after it, and the next one after that.
  lemma {:induction false} NameIsInside(a: Archive, i: nat, n: nat)
    requires i < n <= |a.WholeMap()|
    ensures var names, name, j := a.Strings(n), a.WholeMap()[i].name, |a.Strings(i)|;
            j + |name| < |names| && names[j..j + |name|] == name && names[j + |name|] == 0
    ensures a.Strings(0) == [] && |a.Strings(i + 1)| == |a.Strings(i)| + |a.WholeMap()[i].name| + 1
    decreases n
  {
    hide Archive.WholeMap;
    if i < n - 1 {
      NameIsInside(a, i, n - 1);
      var front, name, j := a.Strings(n - 1), a.WholeMap()[i].name, |a.Strings(i)|;
      assert a.Strings(n)[..|front|] == front;
      assert a.Strings(n)[..|front|][j..j + |name|] == a.Strings(n)[j..j + |name|];
    }
  }

  // The name table is a member called "//" at p, with a newline if its length is odd.
  predicate TableAt(file: seq<Byte>, p: nat, table: seq<Byte>) {
    var n := |table|;
    && HeaderAt(file, p, Header(Ascii("//              "), Ascii("                                "), n + n % 2))
    && p + 60 + n + n % 2 <= |file| && file[p + 60..p + 60 + n] == table
    && (n % 2 == 1 ==> file[p + 60 + n] == '\n' as int)
  }

  lemma TableIsAt(file: seq<Byte>, p: nat, h: Header, table: seq<Byte>, pad: seq<Byte>)
    requires h.Ok() && h.name == Ascii("//              ") && h.rest == Ascii("                                ")
    requires h.size == |table| + |table| % 2 && pad == if |table| % 2 == 1 then [NEWLINE] else []
    requires At(file, p, HeaderBytes(h) + (table + pad))
    ensures TableAt(file, p, table)
  {
    hide At, HeaderAt, HeaderBytes, Ascii;
    AtThree(file, p, HeaderBytes(h), table, pad);
    HeaderLooks(file, p, h);
    AtRoom(file, p + 60, table);
    AtRoom(file, p + 60 + |table|, pad);
    LastByte(file, p + 60 + |table|, pad);
  }

  // It is at 8, or after the map.
  lemma TableLooks(a: Archive)
    requires a.Ok() && a.table != []
    ensures TableAt(a.File(BIG), if a.hasMap then 68 + a.MapSize() else 8, a.table)
  {
    hide *;
    BytesAre(a);
    TableIsParts(a);
    TableIsAt(a.File(BIG), if a.hasMap then 68 + a.MapSize() else 8, a.TableHeader(), a.table,
              if |a.table| % 2 == 1 then [NEWLINE] else []);
  }

  lemma TableIsParts(a: Archive)
    requires a.Ok() && a.table != []
    ensures a.TableHeader().Ok() && a.TableHeader().name == Ascii("//              ")
    ensures a.TableHeader().rest == Ascii("                                ")
    ensures a.TableHeader().size == |a.table| + |a.table| % 2
    ensures a.TableBytes()
            == HeaderBytes(a.TableHeader()) + (a.table + if |a.table| % 2 == 1 then [NEWLINE] else [])
  {
    hide HeaderBytes, Header.Ok, Archive.MemberOk;
    assert a.TableHeader().name == Ascii("//              ");
    assert a.TableHeader().rest == Ascii("                                ");
  }

  // ---------- names ----------

  // The name field of an ordinary archive: a name of at most 15 bytes and a slash, or a
  // slash, the digits of its offset in the table, and blanks.
  lemma NameFieldLooks(r: NameRules, files: seq<seq<Byte>>, k: nat, was: seq<Byte>)
    requires k < |files| && |was| == 16 && !r.thin && !r.traditional
    requires r.Extended(files, k) ==> |Decimal(r.Offset(files, k))| <= 14
    ensures var name, f := Basename(files[k]), r.Field(files, k, was);
            if |name| <= 15 then f[..|name|] == name && f[|name|] == '/' as int
            else
              && |name| > 15 && r.Extended(files, k) && f[0] == '/' as int
              && var n := |Decimal(r.Offset(files, k))|;
                 f[1..1 + n] == Decimal(r.Offset(files, k)) && f[1 + n..15] == Ascii("              ")[n..]
  {
    hide Decimal, NameRules.Offset;
    var name, f := Basename(files[k]), r.Field(files, k, was);
    if |name| <= 15 {
      assert f[..|name|] == name;
    } else {
      var d := Decimal(r.Offset(files, k));
      var pad := SpacePad(14, d);
      assert f == [SLASH] + pad + was[15..];
      assert pad == d + Blanks(14 - |d|);
      assert Blanks(14 - |d|) == Ascii("              ")[|d|..];
      assert f[1..15] == pad;
      assert f[1..1 + |d|] == pad[..|d|] && f[1 + |d|..15] == pad[|d|..];
    }
  }
}
