// The bytes of a finished archive, where its members are, and the offsets that the
// symbol map gives for them (archive.c).

module ArchiveLayout {
  import opened Bytes
  import opened CLibrary
  import opened ArchiveFormat
  import opened ArchiveNames
  import opened ArchiveTable

  // A member with its header settled.
  datatype Member = Member(filename: seq<Byte>, header: Header, data: seq<Byte>, isObject: bool, syms: seq<Sym>)

  // A symbol for the map and the number of the member that defines it.
  datatype Orl = Orl(name: seq<Byte>, member: nat)

  // An archive about to be written: its members, the name table, whether there is a
  // map, and the fields of the map's header for date, owner and mode.
  datatype Archive = Archive(thin: bool, members: seq<Member>, table: seq<Byte>, hasMap: bool, mapRest: seq<Byte>)
  {
    predicate Ok() {
      && (forall k {:trigger members[k]} :: 0 <= k < |members| ==> MemberOk(members[k]))
      && TableHeader().Ok() && (hasMap ==> MapHeader().Ok())
    }

    // The header fits, the data is as long as it says, and symbols are C strings.
    predicate MemberOk(m: Member) {
      && m.header.Ok() && (thin || m.header.size == |m.data|)
      && forall i {:trigger m.syms[i]} :: 0 <= i < |m.syms| ==> 0 !in m.syms[i].name
    }

    // ---------- members ----------

    function Contents(m: Member): seq<Byte> {
      if thin then [] else m.data + if |m.data| % 2 == 1 then [NEWLINE] else []
    }

    function MemberBytes(m: Member): (s: seq<Byte>)
      requires MemberOk(m)
      ensures |s| >= AR_HDR
    {
      HeaderBytes(m.header) + Contents(m)
    }

    function MembersBytes(n: nat): seq<Byte>
      requires n <= |members| && Ok()
    {
      if n == 0 then [] else MembersBytes(n - 1) + MemberBytes(members[n - 1])
    }

    // The file position after a member at p, as the map writer advances it.
    function Advance(p: nat, m: Member): nat {
      var q := p + AR_HDR;
      if thin then q else q + m.header.size + (q + m.header.size) % 2
    }

    // The position it computes for member k.
    function Position(k: nat): nat
      requires k <= |members|
    {
      if k == 0 then First() else Advance(Position(k - 1), members[k - 1])
    }

    // ---------- the name table ----------

    function RoundedUp(n: nat): nat { n + n % 2 }

    // Its size with its header, as the map writer gets it.
    function ELength(): nat {
      if table == [] then 0 else RoundedUp(|table| + AR_HDR)
    }

    function TableHeader(): Header {
      Header([SLASH, SLASH] + Blanks(NAME_FIELD - 2), Blanks(32), RoundedUp(|table|))
    }

    // The table as the file holds it.
    function PaddedTable(): seq<Byte> { table + if |table| % 2 == 1 then [NEWLINE] else [] }

    function TableBytes(): (s: seq<Byte>)
      requires TableHeader().Ok()
      ensures |s| == ELength()
    {
      if table == [] then [] else HeaderBytes(TableHeader()) + PaddedTable()
    }

    // ---------- the symbol map ----------

    // The exported ones of the first i symbols of member k.
    function Exported(k: nat, i: nat): (s: seq<Orl>)
      requires k < |members| && i <= |members[k].syms|
      ensures forall j {:trigger s[j]} :: 0 <= j < |s| ==> s[j].member == k
    {
      if i == 0 then []
      else Exported(k, i - 1) + if members[k].syms[i - 1].exported then [Orl(members[k].syms[i - 1].name, k)] else []
    }

    // The map entries of the first n members.
    function Map(n: nat): seq<Orl>
      requires n <= |members|
    {
      if n == 0 then [] else Map(n - 1) + if members[n - 1].isObject then Exported(n - 1, |members[n - 1].syms|) else []
    }

    function WholeMap(): seq<Orl> { Map(|members|) }

    // The names of the first n entries, with their NULs.
    function Strings(n: nat): seq<Byte>
      requires n <= |WholeMap()|
    {
      if n == 0 then [] else Strings(n - 1) + (WholeMap()[n - 1].name + [0])
    }

    function MapSize(): nat { RoundedUp(|Strings(|WholeMap()|)| + 4 * |WholeMap()| + 4) }

    function MapHeader(): Header {
      Header([SLASH] + Blanks(NAME_FIELD - 1), mapRest, MapSize())
    }

    // The offsets of the first n entries.
    function Offsets(e: Endian, n: nat): (s: seq<Byte>)
      requires n <= |WholeMap()|
      ensures |s| == 4 * n
    {
      if n == 0 then [] else Offsets(e, n - 1) + e.put(SymOffset(n - 1), 4)
    }

    // The offset for entry i.
    function SymOffset(i: nat): nat
      requires i < |WholeMap()|
    {
      MapMembers(|members|, i);
      Position(WholeMap()[i].member)
    }

    lemma {:induction false} MapMembers(n: nat, i: nat)
      requires n <= |members| && i < |Map(n)|
      ensures Map(n)[i].member < n
    {
      if i < |Map(n - 1)| {
        MapMembers(n - 1, i);
      }
    }

    function MapPadding(): seq<Byte> { if (|Strings(|WholeMap()|)| + 4 * |WholeMap()| + 4) % 2 == 1 then [0] else [] }

    function MapBytes(e: Endian): (s: seq<Byte>)
      requires hasMap ==> MapHeader().Ok()
      ensures |s| == if hasMap then AR_HDR + MapSize() else 0
    {
      if !hasMap then []
      else
        var n := |WholeMap()|;
        HeaderBytes(MapHeader()) + (e.put(n, 4) + (Offsets(e, n) + (Strings(n) + MapPadding())))
    }

    // Where the first member goes.
    function First(): nat {
      (if hasMap then MapSize() + AR_HDR else 0) + ELength() + SARMAG
    }

    // ---------- the file ----------

    function Front(e: Endian): (s: seq<Byte>)
      requires Ok()
      ensures |s| == First()
    {
      Armag(thin) + MapBytes(e) + TableBytes()
    }

    function File(e: Endian): seq<Byte>
      requires Ok()
    {
      Front(e) + MembersBytes(|members|)
    }
  }

  // ---------- positions ----------

  lemma FirstIsEven(a: Archive)
    ensures a.First() % 2 == 0
  {
  }

  lemma {:induction false} MembersGrow(a: Archive, j: nat, k: nat)
    requires a.Ok() && j <= k <= |a.members|
    ensures a.MembersBytes(j) <= a.MembersBytes(k)
    decreases k
  {
    if j < k {
      MembersGrow(a, j, k - 1);
    }
  }

  // The computed positions are the real ones: the bytes before member k are as many.
  lemma {:induction false} PositionIsLength(a: Archive, k: nat)
    requires a.Ok() && k <= |a.members|
    ensures a.Position(k) == a.First() + |a.MembersBytes(k)| && a.Position(k) % 2 == 0
  {
    if k == 0 {
      FirstIsEven(a);
    } else {
      PositionIsLength(a, k - 1);
      assert a.MemberOk(a.members[k - 1]);
      MemberLength(a, a.Position(k - 1), a.members[k - 1]);
    }
  }

  lemma MemberLength(a: Archive, p: nat, m: Member)
    requires a.MemberOk(m) && p % 2 == 0
    ensures a.Advance(p, m) == p + |a.MemberBytes(m)| && a.Advance(p, m) % 2 == 0
  {
  }

  // Every offset that the map writer computes for a member is the position of that
  // member's header in the finished archive.
  lemma MemberIsThere(a: Archive, e: Endian, k: nat)
    requires a.Ok() && k < |a.members|
    ensures a.MemberOk(a.members[k]) && At(a.File(e), a.Position(k), a.MemberBytes(a.members[k]))
  {
    hide At, Archive.Front, Archive.MemberBytes, Archive.Position, Archive.First;
    var m := a.members[k];
    PositionIsLength(a, k);
    MembersGrow(a, k + 1, |a.members|);
    assert a.MembersBytes(k) + a.MemberBytes(m) == a.MembersBytes(k + 1);
    AfterFront(a.File(e), a.Front(e), a.MembersBytes(k), a.MemberBytes(m), a.MembersBytes(|a.members|));
  }

  lemma AfterFront(file: seq<Byte>, front: seq<Byte>, before: seq<Byte>, w: seq<Byte>, all: seq<Byte>)
    requires file == front + all && before + w <= all
    ensures At(file, |front| + |before|, w)
  {
    hide At;
    assert (front + before) + w <= file;
    PrefixAt(file, front + before, w);
  }

  lemma HeaderIsThere(a: Archive, e: Endian, k: nat)
    requires a.Ok() && k < |a.members|
    ensures var h := a.members[k].header;
            h.Ok() && ReadArHdr(a.File(e), a.Position(k)) == Some(ArHdr(HeaderBytes(h), h.size))
  {
    hide At, ReadArHdr;
    MemberIsThere(a, e, k);
    var m := a.members[k];
    AtParts(a.File(e), a.Position(k), HeaderBytes(m.header), a.Contents(m));
    HeaderReads(a.File(e), a.Position(k), m.header);
  }
}
