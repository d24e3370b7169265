// Writing the archive file: _bfd_write_archive_contents,
// _bfd_compute_and_write_armap and _bfd_coff_write_armap (archive.c).

module ArchiveFile {
  import opened Bytes
  import opened CLibrary
  import opened ArchiveFormat
  import opened ArchiveNames
  import opened ArchiveTable
  import opened ArchiveLayout
  import opened ArchiveRead

  // "It seems that all numeric information in a coff archive is always in big endian
  // format".
  const BIG: Endian := BigEndian()

  const FOUR_GB := 0x1_0000_0000

  // A file that is written from the start.
  class OutFile {
    var bytes: seq<Byte>

    constructor ()
      ensures bytes == []
    {
      bytes := [];
    }

    // bfd_bwrite
    method Write(s: seq<Byte>)
      modifies this
      ensures bytes == old(bytes) + s
    {
      bytes := bytes + s;
    }
  }

  // ---------- members as values ----------

  function Value(e: Elt): Member
    reads e
  {
    Member(e.filename, Header(e.arName, e.rest, e.size), e.data, e.isObject, e.syms)
  }

  function Values(elts: seq<Elt>): (s: seq<Member>)
    reads elts
    ensures |s| == |elts| && forall k {:trigger s[k]} {:trigger elts[k]} :: 0 <= k < |s| ==> s[k] == Value(elts[k])
  {
    seq(|elts|, k requires 0 <= k < |elts| reads elts => Value(elts[k]))
  }

  // The members whose file is called __.SYMDEF, at the head of the list, are dropped.
  function Dropped(ms: seq<Member>): seq<Member> {
    if ms != [] && ms[0].filename == SYMDEF then Dropped(ms[1..]) else ms
  }

  method DropSymdefs(elts: seq<Elt>) returns (rest: seq<Elt>)
    ensures Values(rest) == Dropped(Values(elts))
  {
    rest := elts;
    while rest != [] && rest[0].filename == SYMDEF
      invariant |rest| <= |elts| && Dropped(Values(rest)) == Dropped(Values(elts))
    {
      assert Values(rest)[1..] == Values(rest[1..]);
      rest := rest[1..];
    }
  }

  // "If no .o's, don't bother to make a map."
  predicate HasObjects(ms: seq<Member>) { exists k {:trigger ms[k]} :: 0 <= k < |ms| && ms[k].isObject }

  method FindObjects(elts: seq<Elt>) returns (found: bool)
    ensures found == HasObjects(Values(elts))
  {
    found := false;
    for k := 0 to |elts|
      invariant found == exists j {:trigger elts[j]} :: 0 <= j < k && elts[j].isObject
    {
      if elts[k].isObject {
        found := true;
      }
    }
    ghost var ms := Values(elts);
    assert forall k {:trigger ms[k]} :: 0 <= k < |ms| ==> ms[k].isObject == elts[k].isObject;
  }

  // ---------- the map ----------

  // Collecting the symbols of all members, and the length of their names.
  method ComputeMap(elts: seq<Elt>, ghost a: Archive) returns (syms: seq<Orl>, stridx: nat)
    requires a.members == Values(elts)
    ensures syms == a.WholeMap() && stridx == |a.Strings(|syms|)|
  {
    hide Archive.Exported;
    syms := [];
    for k := 0 to |elts|
      invariant syms == a.Map(k)
    {
      if elts[k].isObject {
        syms := AddSymbols(elts[k], k, syms, a);
      }
    }
    stridx := CountNames(syms, a);
  }

  method AddSymbols(e: Elt, k: nat, before: seq<Orl>, ghost a: Archive) returns (syms: seq<Orl>)
    requires k < |a.members| && a.members[k] == Value(e)
    ensures syms == before + a.Exported(k, |e.syms|)
  {
    syms := before;
    for i := 0 to |e.syms|
      invariant syms == before + a.Exported(k, i)
    {
      if e.syms[i].exported {
        syms := syms + [Orl(e.syms[i].name, k)];
      }
    }
  }

  method CountNames(syms: seq<Orl>, ghost a: Archive) returns (stridx: nat)
    requires syms == a.WholeMap()
    ensures stridx == |a.Strings(|syms|)|
  {
    hide Archive.WholeMap;
    stridx := 0;
    for i := 0 to |syms|
      invariant stridx == |a.Strings(i)|
    {
      stridx := stridx + |syms[i].name| + 1;
    }
  }

  // Entries are in the order of the members they belong to.
  lemma {:induction false} MapIsGrouped(a: Archive, k: nat, n: nat, i: nat)
    requires k <= n <= |a.members| && i < |a.Map(n)|
    ensures i < |a.Map(k)| <==> a.Map(n)[i].member < k
    ensures |a.Map(k)| <= |a.Map(n)|
    decreases n
  {
    if k < n {
      if i < |a.Map(n - 1)| {
        MapIsGrouped(a, k, n - 1, i);
      } else {
        MapGrows(a, k, n - 1);
      }
    } else {
      a.MapMembers(n, i);
    }
  }

  lemma {:induction false} MapGrows(a: Archive, k: nat, n: nat)
    requires k <= n <= |a.members|
    ensures |a.Map(k)| <= |a.Map(n)|
    decreases n
  {
    if k < n {
      MapGrows(a, k, n - 1);
    }
  }

  // All offsets of the first n entries fit.
  predicate OffsetsFit(a: Archive, n: nat)
    requires n <= |a.WholeMap()|
  {
    forall j {:trigger a.SymOffset(j)} :: 0 <= j < n ==> a.SymOffset(j) < FOUR_GB
  }

  lemma OneOffset(a: Archive, k: nat, i: nat)
    requires i < |a.WholeMap()| && a.WholeMap()[i].member == k
    ensures k < |a.members| && a.SymOffset(i) == a.Position(k)
    ensures a.Offsets(BIG, i + 1) == a.Offsets(BIG, i) + BIG.put(a.Position(k), 4)
  {
    hide Archive.Map;
    a.MapMembers(|a.members|, i);
  }

  // Entry i belongs to a member before k if and only if it is among the first ones.
  lemma WholeMapIsGrouped(a: Archive, k: nat)
    requires k <= |a.members|
    ensures |a.Map(k)| <= |a.WholeMap()|
    ensures forall i {:trigger a.WholeMap()[i]} :: 0 <= i < |a.WholeMap()| ==>
              (i < |a.Map(k)| <==> a.WholeMap()[i].member < k)
  {
    hide Archive.Map;
    MapGrows(a, k, |a.members|);
    forall i {:trigger a.WholeMap()[i]} | 0 <= i < |a.WholeMap()|
      ensures i < |a.Map(k)| <==> a.WholeMap()[i].member < k
    {
      MapIsGrouped(a, k, |a.members|, i);
    }
  }

  // The offsets of the first n entries are written, after what there was.
  predicate OffsetsDone(now: seq<Byte>, was: seq<Byte>, a: Archive, n: nat) {
    n <= |a.WholeMap()| && OffsetsFit(a, n) && now == was + a.Offsets(BIG, n)
  }

  lemma OffsetDone(now: seq<Byte>, was: seq<Byte>, a: Archive, k: nat, i: nat)
    requires OffsetsDone(now, was, a, i) && i < |a.WholeMap()| && a.WholeMap()[i].member == k
    ensures k < |a.members|
    ensures a.Position(k) < FOUR_GB ==> OffsetsDone(now + BIG.put(a.Position(k), 4), was, a, i + 1)
    ensures a.Position(k) >= FOUR_GB ==> !OffsetsFit(a, |a.WholeMap()|)
  {
    hide Archive.WholeMap, Archive.Position, Archive.SymOffset, Archive.Offsets;
    OneOffset(a, k, i);
  }

  // The offsets for one member, at p.
  method WriteOffsetsOf(out: OutFile, syms: seq<Orl>, k: nat, p: nat, start: nat, ghost a: Archive,
                        ghost was: seq<Byte>)
    returns (ok: bool, count: nat)
    requires syms == a.WholeMap() && k < |a.members| && p == a.Position(k)
    requires start == |a.Map(k)| && OffsetsDone(out.bytes, was, a, start)
    modifies out
    ensures ok ==> count == |a.Map(k + 1)| && OffsetsDone(out.bytes, was, a, count)
    ensures !ok ==> !OffsetsFit(a, |a.WholeMap()|)
  {
    hide Archive.Map, Archive.Position, Archive.WholeMap, OffsetsDone, OffsetsFit;
    WholeMapIsGrouped(a, k);
    WholeMapIsGrouped(a, k + 1);
    MapGrows(a, k, k + 1);
    count := start;
    while count < |syms| && syms[count].member == k
      invariant start <= count <= |a.Map(k + 1)| && OffsetsDone(out.bytes, was, a, count)
    {
      OffsetDone(out.bytes, was, a, k, count);
      if p >= FOUR_GB {
        return false, count;
      }
      out.Write(BIG.put(p, 4));
      count := count + 1;
    }
    ok := true;
  }

  // "Write out the file offset for the file associated with each symbol, and remember
  // to keep the offsets padded out."  It fails exactly if one of them needs more than
  // 32 bits.
  method WriteOffsets(out: OutFile, elts: seq<Elt>, thin: bool, first: nat, syms: seq<Orl>, ghost a: Archive)
    returns (ok: bool)
    requires a.members == Values(elts) && syms == a.WholeMap() && first == a.First() && thin == a.thin
    modifies out
    ensures ok == OffsetsFit(a, |a.WholeMap()|)
    ensures ok ==> out.bytes == old(out.bytes) + a.Offsets(BIG, |a.WholeMap()|)
  {
    hide Archive.Map, Archive.Position, Archive.WholeMap, OffsetsDone, Archive.First;
    ghost var was := out.bytes;
    NothingDone(was, a);
    var k, p, count := 0, first, 0;
    while k < |elts| && count < |syms|
      invariant k <= |elts| && p == a.Position(k) && count == |a.Map(k)| && OffsetsDone(out.bytes, was, a, count)
    {
      ok, count := WriteOffsetsOf(out, syms, k, p, count, a, was);
      if !ok {
        return;
      }
      AdvanceIs(a, k);
      p := p + AR_HDR;
      if !thin {
        p := p + elts[k].size;
        p := p + p % 2;
      }
      k := k + 1;
    }
    AllDone(a, k, out.bytes, was);
    ok := true;
  }

  lemma NothingDone(now: seq<Byte>, a: Archive)
    ensures OffsetsDone(now, now, a, 0) && a.Map(0) == [] && a.Position(0) == a.First()
  {
    hide Archive.WholeMap;
    assert now + [] == now;
  }

  lemma AdvanceIs(a: Archive, k: nat)
    requires k < |a.members|
    ensures a.Position(k + 1) == a.Advance(a.Position(k), a.members[k])
  {
  }

  lemma AllDone(a: Archive, k: nat, now: seq<Byte>, was: seq<Byte>)
    requires k <= |a.members| && OffsetsDone(now, was, a, |a.Map(k)|)
    requires k == |a.members| || |a.Map(k)| >= |a.WholeMap()|
    ensures OffsetsFit(a, |a.WholeMap()|) && now == was + a.Offsets(BIG, |a.WholeMap()|)
  {
    hide Archive.Map, Archive.WholeMap, Archive.Offsets;
    MapIsWhole(a, k);
  }

  lemma MapIsWhole(a: Archive, k: nat)
    requires k <= |a.members| && (k == |a.members| || |a.Map(k)| >= |a.WholeMap()|)
    ensures |a.Map(k)| == |a.WholeMap()|
  {
    hide Archive.Map;
    MapGrows(a, k, |a.members|);
  }

  // "Now write the strings themselves."
  method WriteStrings(out: OutFile, syms: seq<Orl>, ghost a: Archive)
    requires syms == a.WholeMap()
    modifies out
    ensures out.bytes == old(out.bytes) + a.Strings(|a.WholeMap()|)
  {
    hide Archive.WholeMap;
    ghost var was := out.bytes;
    assert was == was + a.Strings(0);
    for count := 0 to |syms|
      invariant out.bytes == was + a.Strings(count)
    {
      out.Write(syms[count].name + [0]);
      assert (was + a.Strings(count)) + (syms[count].name + [0]) == was + a.Strings(count + 1);
    }
  }

  // _bfd_ar_sizepad on the size of a header; the error is a size that does not fit.
  method FillHeader(name: seq<Byte>, rest: seq<Byte>, size: nat) returns (ok: bool, h: Header)
    requires |name| == NAME_FIELD && |rest| == 32
    ensures h == Header(name, rest, size) && ok == h.Ok()
  {
    h := Header(name, rest, size);
    ok := |Decimal(size)| <= 10;
  }

  // _bfd_coff_write_armap
  method WriteArmap(out: OutFile, elts: seq<Elt>, thin: bool, elength: nat, syms: seq<Orl>, stridx: nat,
                    mapRest: seq<Byte>, ghost a: Archive)
    returns (ok: bool)
    requires a.members == Values(elts) && syms == a.WholeMap() && stridx == |a.Strings(|syms|)| && a.hasMap
    requires thin == a.thin && elength == a.ELength() && mapRest == a.mapRest && |mapRest| == 32
    modifies out
    ensures ok == (a.MapHeader().Ok() && OffsetsFit(a, |a.WholeMap()|))
    ensures ok ==> out.bytes == old(out.bytes) + a.MapBytes(BIG)
  {
    hide Archive.WholeMap, Archive.Strings, Archive.Offsets, Archive.ELength, OffsetsFit, Header.Ok, HeaderBytes,
         Archive.MapBytes, Archive.MapSize, Archive.MapHeader, Archive.MapPadding, Archive.First, Values;
    ghost var was := out.bytes;
    MapSizes(a);
    var ranlibsize := |syms| * 4 + 4;
    var mapsize := stridx + ranlibsize;
    var padit := mapsize % 2;
    mapsize := mapsize + padit;
    var h;
    ok, h := FillHeader([SLASH] + Blanks(NAME_FIELD - 1), mapRest, mapsize);
    if !ok {
      return;
    }
    out.Write(HeaderBytes(h));
    out.Write(BIG.put(|syms|, 4));
    ok := WriteOffsets(out, elts, thin, mapsize + elength + AR_HDR + SARMAG, syms, a);
    if !ok {
      return;
    }
    WriteStrings(out, syms, a);
    if padit == 1 {
      out.Write([0]);
    }
    MapRegrouped(a, was);
  }

  lemma MapSizes(a: Archive)
    requires a.hasMap
    ensures var n := |a.WholeMap()|;
            var size := |a.Strings(n)| + (n * 4 + 4);
            && a.MapSize() == size + size % 2 && a.MapPadding() == (if size % 2 == 1 then [0] else [])
            && a.MapHeader() == Header([SLASH] + Blanks(NAME_FIELD - 1), a.mapRest, a.MapSize())
            && a.First() == a.MapSize() + a.ELength() + AR_HDR + SARMAG
  {
    hide Archive.WholeMap, Archive.Strings, Archive.ELength;
  }

  lemma MapRegrouped(a: Archive, was: seq<Byte>)
    requires a.hasMap && a.MapHeader().Ok()
    ensures var n := |a.WholeMap()|;
            var front := was + HeaderBytes(a.MapHeader()) + BIG.put(n, 4) + a.Offsets(BIG, n) + a.Strings(n);
            && (a.MapPadding() != [] ==> front + a.MapPadding() == was + a.MapBytes(BIG))
            && (a.MapPadding() == [] ==> front == was + a.MapBytes(BIG))
  {
    hide Archive.WholeMap, Archive.Strings, Archive.Offsets, HeaderBytes, Archive.MapPadding, Header.Ok,
         Archive.MapHeader;
    var n := |a.WholeMap()|;
    Regroup(was, HeaderBytes(a.MapHeader()), BIG.put(n, 4), a.Offsets(BIG, n), a.Strings(n), a.MapPadding());
  }

  lemma Regroup(w: seq<Byte>, a: seq<Byte>, b: seq<Byte>, c: seq<Byte>, d: seq<Byte>, e: seq<Byte>)
    ensures w + a + b + c + d + e == w + (a + (b + (c + (d + e))))
    ensures e == [] ==> w + a + b + c + d == w + (a + (b + (c + (d + e))))
  {
  }

  // ---------- the name table and the members ----------

  // The name table, if there is one; its size must fit in its header.
  method WriteTable(out: OutFile, table: array<Byte>, ghost a: Archive) returns (ok: bool)
    requires table[..] == a.table
    modifies out
    ensures ok == a.TableHeader().Ok() && (ok ==> out.bytes == old(out.bytes) + a.TableBytes())
  {
    hide Decimal, HeaderBytes;
    ok := true;
    if table.Length != 0 {
      var h;
      ok, h := FillHeader([SLASH, SLASH] + Blanks(NAME_FIELD - 2), Blanks(32), table.Length + table.Length % 2);
      if ok {
        ghost var was := out.bytes;
        out.Write(HeaderBytes(h));
        out.Write(table[..]);
        if table.Length % 2 == 1 {
          out.Write([NEWLINE]);
        }
        assert was + HeaderBytes(h) + a.table == was + (HeaderBytes(h) + a.table);
        assert was + HeaderBytes(h) + a.table + [NEWLINE] == was + (HeaderBytes(h) + (a.table + [NEWLINE]));
      }
    } else {
      NoTable(a, out.bytes);
    }
  }

  lemma NoTable(a: Archive, w: seq<Byte>)
    requires a.table == []
    ensures a.TableHeader().Ok() && w + a.TableBytes() == w
  {
  }

  const DEFAULT_BUFFERSIZE := 8192

  // A member's data, a buffer at a time.
  method CopyData(out: OutFile, data: seq<Byte>)
    modifies out
    ensures out.bytes == old(out.bytes) + data
  {
    ghost var was := out.bytes;
    var remaining: nat := |data|;
    var at := 0;
    while remaining > 0
      invariant at + remaining == |data| && out.bytes == was + data[..at]
    {
      var amt := Min(DEFAULT_BUFFERSIZE, remaining);
      out.Write(data[at..at + amt]);
      assert data[..at] + data[at..at + amt] == data[..at + amt];
      remaining := remaining - amt;
      at := at + amt;
    }
    assert data[..at] == data;
  }

  method WriteMember(out: OutFile, e: Elt, thin: bool, ghost a: Archive)
    requires a.thin == thin && a.MemberOk(Value(e))
    modifies out
    ensures out.bytes == old(out.bytes) + a.MemberBytes(Value(e))
  {
    hide HeaderBytes;
    ghost var was := out.bytes;
    out.Write(HeaderBytes(Header(e.arName, e.rest, e.size)));
    if !thin {
      CopyData(out, e.data);
      if e.size % 2 == 1 {
        out.Write([NEWLINE]);
      }
    }
  }

  method WriteMembers(out: OutFile, elts: seq<Elt>, thin: bool, ghost a: Archive)
    requires a.thin == thin && a.members == Values(elts) && a.Ok()
    modifies out
    ensures out.bytes == old(out.bytes) + a.MembersBytes(|a.members|)
  {
    hide Archive.MemberBytes, Archive.MemberOk;
    ghost var was := out.bytes;
    assert was == was + a.MembersBytes(0);
    for k := 0 to |elts|
      invariant out.bytes == was + a.MembersBytes(k)
    {
      assert a.members[k] == Value(elts[k]);
      WriteMember(out, elts[k], thin, a);
      assert (was + a.MembersBytes(k)) + a.MemberBytes(a.members[k]) == was + a.MembersBytes(k + 1);
    }
  }

  // ---------- the whole archive ----------

  // The members with the name fields that the two passes leave.
  function Settled(r: NameRules, ms: seq<Member>): (s: seq<Member>)
    requires AllFields(NameFields(ms))
    ensures |s| == |ms|
    ensures forall k {:trigger s[k]} :: 0 <= k < |ms| ==>
              s[k] == ms[k].(header := ms[k].header.(name := r.Field(FileNames(ms), k, NameFields(ms)[k])))
  {
    seq(|ms|, k requires 0 <= k < |ms| =>
      ms[k].(header := ms[k].header.(name := r.Field(FileNames(ms), k, NameFields(ms)[k]))))
  }

  function FileNames(ms: seq<Member>): (s: seq<seq<Byte>>)
    ensures |s| == |ms| && forall k {:trigger s[k]} :: 0 <= k < |ms| ==> s[k] == ms[k].filename
  {
    seq(|ms|, k requires 0 <= k < |ms| => ms[k].filename)
  }

  function NameFields(ms: seq<Member>): (s: seq<seq<Byte>>)
    ensures |s| == |ms| && forall k {:trigger s[k]} :: 0 <= k < |ms| ==> s[k] == ms[k].header.name
  {
    seq(|ms|, k requires 0 <= k < |ms| => ms[k].header.name)
  }

  // The archive that these members make.
  function ArchiveOf(r: NameRules, ms: seq<Member>, makemap: bool, mapRest: seq<Byte>): Archive
    requires AllFields(NameFields(ms))
  {
    var hasMap := makemap && HasObjects(ms);
    Archive(r.thin, if hasMap then Dropped(Settled(r, ms)) else Settled(r, ms),
            r.Table(FileNames(ms), |ms|), hasMap, mapRest)
  }

  // What a member must be before: its header made from its file, its symbols C strings.
  predicate Prepared(m: Member, thin: bool) {
    && m.header.Ok() && (thin || m.header.size == |m.data|)
    && forall i {:trigger m.syms[i]} :: 0 <= i < |m.syms| ==> 0 !in m.syms[i].name
  }

  predicate AllPrepared(ms: seq<Member>, thin: bool) {
    forall k {:trigger ms[k]} :: 0 <= k < |ms| ==> Prepared(ms[k], thin)
  }

  lemma {:induction false} DroppedArePrepared(ms: seq<Member>, thin: bool)
    requires AllPrepared(ms, thin)
    ensures AllPrepared(Dropped(ms), thin)
  {
    if ms != [] && ms[0].filename == SYMDEF {
      DroppedArePrepared(ms[1..], thin);
    }
  }

  lemma SettledArePrepared(r: NameRules, ms: seq<Member>)
    requires AllFields(NameFields(ms)) && AllPrepared(ms, r.thin)
    ensures AllPrepared(Settled(r, ms), r.thin)
  {
    hide NameRules.Field, Decimal;
    var s := Settled(r, ms);
    forall k {:trigger s[k]} | 0 <= k < |ms| ensures Prepared(s[k], r.thin) {
      assert Prepared(ms[k], r.thin);
    }
  }

  lemma ArchiveIsPrepared(r: NameRules, ms: seq<Member>, makemap: bool, mapRest: seq<Byte>)
    requires AllFields(NameFields(ms)) && AllPrepared(ms, r.thin)
    ensures AllPrepared(ArchiveOf(r, ms, makemap, mapRest).members, r.thin)
  {
    hide AllPrepared, Settled, Dropped, NameRules.Table;
    SettledArePrepared(r, ms);
    DroppedArePrepared(Settled(r, ms), r.thin);
  }

  // Everything that the writer checks on the way.
  predicate Fits(a: Archive) { a.TableHeader().Ok() && MapPartFits(a) }

  predicate MapPartFits(a: Archive) {
    a.hasMap ==> a.MapHeader().Ok() && OffsetsFit(a, |a.WholeMap()|)
  }

  lemma FitsIsOk(a: Archive)
    requires AllPrepared(a.members, a.thin) && Fits(a)
    ensures a.Ok()
  {
    hide Archive.TableHeader, Archive.MapHeader, OffsetsFit;
    forall k {:trigger a.members[k]} | 0 <= k < |a.members| ensures a.MemberOk(a.members[k]) {
      assert Prepared(a.members[k], a.thin);
    }
  }

  // _bfd_write_archive_contents: it succeeds exactly if all sizes and offsets fit, and
  // then the file holds the archive.
  method WriteArchive(elts: seq<Elt>, r: NameRules, makemap: bool, mapRest: seq<Byte>, ghost ms: seq<Member>,
                      ghost a: Archive)
    returns (ok: bool, out: OutFile)
    requires ms == Values(elts) && AllFields(NameFields(ms)) && AllPrepared(ms, r.thin) && Distinct(elts)
             && |mapRest| == 32
    requires a == ArchiveOf(r, ms, makemap, mapRest)
    modifies (set e | e in elts)`arName
    ensures fresh(out) && ok == Fits(a)
    ensures ok ==> a.Ok() && out.bytes == a.File(BIG)
  {
    hide *;
    ArchiveIs(r, ms, makemap, mapRest, a);
    FitsIs(a);
    var hasObjects := FindObjects(elts);
    var table := SettleNames(elts, r, ms);
    out := new OutFile();
    out.Write(Armag(r.thin));
    var kept;
    ok, kept := WriteMapPart(out, elts, makemap && hasObjects, r.thin, table.Length, mapRest, Settled(r, ms), a);
    if ok {
      ok := WriteTable(out, table, a);
      if ok {
        ArchiveIsPrepared(r, ms, makemap, mapRest);
        FitsIsOk(a);
        WriteMembers(out, kept, r.thin, a);
        FileIs(a);
      }
    }
  }

  lemma ArchiveIs(r: NameRules, ms: seq<Member>, makemap: bool, mapRest: seq<Byte>, a: Archive)
    requires AllFields(NameFields(ms)) && a == ArchiveOf(r, ms, makemap, mapRest)
    ensures a.hasMap == (makemap && HasObjects(ms)) && a.thin == r.thin && a.mapRest == mapRest
    ensures a.members == if a.hasMap then Dropped(Settled(r, ms)) else Settled(r, ms)
    ensures a.table == r.Table(FileNames(ms), |ms|)
  {
  }

  lemma FitsIs(a: Archive)
    ensures Fits(a) == (a.TableHeader().Ok() && MapPartFits(a))
  {
  }

  lemma FileIs(a: Archive)
    requires a.Ok()
    ensures [] + Armag(a.thin) + a.MapBytes(BIG) + a.TableBytes() + a.MembersBytes(|a.members|) == a.File(BIG)
  {
    hide Armag, Archive.MapBytes, Archive.TableBytes, Archive.MembersBytes;
    assert [] + Armag(a.thin) == Armag(a.thin);
  }

  // The map, if there is to be one, and the members that stay.
  method WriteMapPart(out: OutFile, elts: seq<Elt>, hasMap: bool, thin: bool, elength: nat, mapRest: seq<Byte>,
                      ghost settled: seq<Member>, ghost a: Archive) returns (ok: bool, kept: seq<Elt>)
    requires Values(elts) == settled && a.members == if hasMap then Dropped(settled) else settled
    requires a.hasMap == hasMap && a.thin == thin && a.mapRest == mapRest && |mapRest| == 32 && |a.table| == elength
    modifies out
    ensures Values(kept) == a.members && ok == MapPartFits(a)
    ensures ok ==> out.bytes == old(out.bytes) + a.MapBytes(BIG)
  {
    hide Dropped, Archive.WholeMap, OffsetsFit, Archive.MapHeader, Archive.Strings;
    kept, ok := elts, true;
    if hasMap {
      kept := DropSymdefs(elts);
      var syms, stridx := ComputeMap(kept, a);
      ok := WriteArmap(out, kept, thin, TableSize(elength), syms, stridx, mapRest, a);
    } else {
      assert out.bytes + [] == out.bytes;
    }
  }

  // The name table, and the members' new values.
  method SettleNames(elts: seq<Elt>, r: NameRules, ghost ms: seq<Member>) returns (table: array<Byte>)
    requires ms == Values(elts) && AllFields(NameFields(ms)) && Distinct(elts)
    modifies (set e | e in elts)`arName
    ensures fresh(table) && table[..] == r.Table(FileNames(ms), |ms|)
    ensures Values(elts) == Settled(r, ms)
  {
    hide NameRules.Table, NameRules.Field, AllFields;
    ghost var files, was := FileNames(ms), NameFields(ms);
    assert files == Files(elts) && was == Fields(elts);
    table := ConstructNames(elts, r, files, was);
    forall k | 0 <= k < |elts| ensures Values(elts)[k] == Settled(r, ms)[k] {
      assert elts[k].arName == Fields(elts)[k] == NewFields(r, files, was)[k];
    }
  }

  // "elength" as _bfd_coff_write_armap gets it.
  function TableSize(elength: nat): nat {
    var n := if elength != 0 then elength + AR_HDR else 0;
    n + n % 2
  }
}
