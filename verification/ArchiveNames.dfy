// The table of long member names: built in two passes by
// _bfd_construct_extended_name_table, read by _bfd_slurp_extended_name_table.

module ArchiveNames {
  import opened Bytes
  import opened CLibrary
  import opened ArchiveFormat

  // ---------- which names the table holds, and where ----------

  // lbasename
  function Basename(path: seq<Byte>): (s: seq<Byte>)
    ensures SLASH !in s && |s| <= |path|
  {
    if path == [] || path[|path| - 1] == SLASH then [] else Basename(path[..|path| - 1]) + [path[|path| - 1]]
  }

  // It is what follows the last slash, or everything.
  lemma {:induction false} BasenameIsLast(path: seq<Byte>)
    ensures var s, n := Basename(path), |path| - |Basename(path)|; path[n..] == s && (n == 0 || path[n - 1] == SLASH)
  {
    if path != [] && path[|path| - 1] != SLASH {
      var front, last := path[..|path| - 1], path[|path| - 1];
      BasenameIsLast(front);
      var n := |front| - |Basename(front)|;
      assert path == front + [last];
      DropFront(front, last, n);
    }
  }

  lemma DropFront(front: seq<Byte>, last: Byte, n: nat)
    requires n <= |front|
    ensures (front + [last])[n..] == front[n..] + [last]
  {
  }

  // What the passes depend on besides the member list: whether the archive is thin,
  // whether names end with a slash, the traditional format flag, and how a thin
  // archive adjusts paths.
  datatype NameRules = NameRules(thin: bool, slash: bool, traditional: bool, adjust: seq<Byte> -> seq<Byte>)
  {
    function Normal(file: seq<Byte>): seq<Byte> { if thin then adjust(file) else Basename(file) }

    function Terminator(): seq<Byte> { if slash then [SLASH, NEWLINE] else [NEWLINE] }

    function Entry(file: seq<Byte>): (s: seq<Byte>)
      ensures |s| > 0
    {
      Normal(file) + Terminator()
    }

    // Member k has its own entry.
    predicate Listed(files: seq<seq<Byte>>, k: nat)
      requires k < |files|
    {
      if thin then k == 0 || files[k] != files[k - 1] else !traditional && |Normal(files[k])| > MAX_NAME
    }

    // Member k's header has an offset instead of a name.
    predicate Extended(files: seq<seq<Byte>>, k: nat)
      requires k < |files|
    {
      thin || Listed(files, k)
    }

    // The entries of the first k members.
    function Table(files: seq<seq<Byte>>, k: nat): seq<Byte>
      requires k <= |files|
    {
      if k == 0 then [] else Table(files, k - 1) + if Listed(files, k - 1) then Entry(files[k - 1]) else []
    }

    // Where member k's name is.
    function Offset(files: seq<seq<Byte>>, k: nat): nat
      requires k < |files| && Extended(files, k)
    {
      if Listed(files, k) then |Table(files, k)| else Offset(files, k - 1)
    }

    // The name field of member k afterwards.
    function Field(files: seq<seq<Byte>>, k: nat, was: seq<Byte>): (s: seq<Byte>)
      requires k < |files| && |was| == NAME_FIELD
      ensures |s| == NAME_FIELD
    {
      if Extended(files, k) then [SLASH] + SpacePad(MAX_NAME - 1, Decimal(Offset(files, k))) + was[MAX_NAME..]
      else ShortField(files[k], was)
    }

    function ShortField(file: seq<Byte>, was: seq<Byte>): (s: seq<Byte>)
      requires |was| == NAME_FIELD
      ensures |s| == NAME_FIELD
    {
      Splice(was, 0, Normal(file)[..Min(|Normal(file)|, MAX_NAME)] + [SLASH])
    }
  }

  lemma TableStart(r: NameRules, files: seq<seq<Byte>>)
    ensures r.Table(files, 0) == []
  {
  }

  lemma TableStep(r: NameRules, files: seq<seq<Byte>>, k: nat)
    requires k < |files|
    ensures r.Table(files, k + 1) == r.Table(files, k) + if r.Listed(files, k) then r.Entry(files[k]) else []
    ensures var e := r.Entry(files[k]); e[|e| - 1] == NEWLINE
  {
  }

  lemma {:induction false} TableGrows(r: NameRules, files: seq<seq<Byte>>, j: nat, k: nat)
    requires j <= k <= |files|
    ensures |r.Table(files, j)| <= |r.Table(files, k)|
    ensures r.Table(files, k)[..|r.Table(files, j)|] == r.Table(files, j)
    decreases k
  {
    hide *;
    if j < k {
      TableGrows(r, files, j, k - 1);
      TableStep(r, files, k - 1);
    }
  }

  // A name, the end of one or the start of the table before it, its own end after it.
  predicate Stands(t: seq<Byte>, at: nat, name: seq<Byte>, end: seq<Byte>) {
    && At(t, at, name + end)
    && (at == 0 || (at <= |t| && t[at - 1] == NEWLINE))
  }

  lemma ListedStands(r: NameRules, files: seq<seq<Byte>>, k: nat, t: seq<Byte>)
    requires k < |files| && r.Listed(files, k) && r.Table(files, |files|) <= t
    ensures Stands(t, |r.Table(files, k)|, r.Normal(files[k]), r.Terminator())
  {
    hide At, NameRules.Table, NameRules.Listed, NameRules.Normal, NameRules.Terminator;
    var front, entry := r.Table(files, k), r.Entry(files[k]);
    TableStep(r, files, k);
    TableGrows(r, files, k + 1, |files|);
    assert front + entry <= t;
    PrefixAt(t, front, entry);
    EndsInNewline(r, files, k);
  }

  lemma OffsetIs(r: NameRules, files: seq<seq<Byte>>, k: nat)
    requires k < |files| && r.Extended(files, k)
    ensures r.Listed(files, k) ==> r.Offset(files, k) == |r.Table(files, k)|
    ensures !r.Listed(files, k) ==>
              k > 0 && files[k] == files[k - 1] && r.Extended(files, k - 1)
              && r.Offset(files, k) == r.Offset(files, k - 1)
  {
    hide NameRules.Table;
  }

  lemma {:induction false} OffsetStands(r: NameRules, files: seq<seq<Byte>>, k: nat, t: seq<Byte>)
    requires k < |files| && r.Extended(files, k) && r.Table(files, |files|) <= t
    ensures Stands(t, r.Offset(files, k), r.Normal(files[k]), r.Terminator())
  {
    hide *;
    OffsetIs(r, files, k);
    if r.Listed(files, k) {
      ListedStands(r, files, k, t);
    } else {
      OffsetStands(r, files, k - 1, t);
    }
  }

  lemma PrefixAt(t: seq<Byte>, a: seq<Byte>, w: seq<Byte>)
    requires a + w <= t
    ensures At(t, |a|, w)
    ensures a != [] ==> t[|a| - 1] == a[|a| - 1]
  {
    hide At;
    assert (a + w)[|a|..] == w;
    AtSlice(t, |a|, w);
  }

  lemma {:induction false} EndsInNewline(r: NameRules, files: seq<seq<Byte>>, k: nat)
    requires k <= |files|
    ensures var t := r.Table(files, k); t == [] || t[|t| - 1] == NEWLINE
  {
    hide NameRules.Entry, NameRules.Listed;
    if k > 0 {
      EndsInNewline(r, files, k - 1);
      TableStep(r, files, k - 1);
    }
  }

  // ---------- reading the table ----------

  predicate IsSlash(b: Byte) { b == SLASH || b == BACKSLASH }

  // Byte i of the table once it has been slurped.
  function CleanByte(t: seq<Byte>, i: nat): Byte
    requires i < |t|
  {
    if t[i] == NEWLINE then if i > 0 && IsSlash(t[i - 1]) then NEWLINE else 0
    else if IsSlash(t[i]) then if i + 1 < |t| && t[i + 1] == NEWLINE then 0 else SLASH
    else t[i]
  }

  function Cleaned(t: seq<Byte>): (s: seq<Byte>)
    ensures |s| == |t| && forall i {:trigger s[i]} :: 0 <= i < |t| ==> s[i] == CleanByte(t, i)
  {
    seq(|t|, i requires 0 <= i < |t| => CleanByte(t, i))
  }

  // The loop of _bfd_slurp_extended_name_table, in place; the buffer has one more byte.
  method CleanNames(names: array<Byte>, size: nat)
    requires names.Length == size + 1
    modifies names
    ensures names[..size] == Cleaned(old(names[..size])) && names[size] == 0
  {
    ghost var t := names[..size];
    for temp := 0 to size
      invariant forall j {:trigger names[j]} :: temp <= j < size ==> names[j] == t[j]
      invariant forall j {:trigger names[j]} :: 0 <= j < temp ==>
                  names[j] == if j == temp - 1 && IsSlash(t[j]) then SLASH else CleanByte(t, j)
    {
      if names[temp] == NEWLINE {
        if temp > 0 && names[temp - 1] == SLASH {
          names[temp - 1] := 0;
        } else {
          names[temp] := 0;
        }
      }
      if names[temp] == BACKSLASH {
        names[temp] := SLASH;
      }
    }
    names[size] := 0;
    assert names[..size] == Cleaned(t);
  }

  // Names that survive: no newline or backslash, and no slash where one that is not
  // part of the name is expected.
  predicate Survives(name: seq<Byte>, slash: bool) {
    NEWLINE !in name && BACKSLASH !in name && (slash || name == [] || name[|name| - 1] != SLASH)
  }

  // A name in the table reads back if and only if it is of that kind.
  lemma NameSurvives(t: seq<Byte>, at: nat, name: seq<Byte>, slash: bool)
    requires 0 !in name && Stands(t, at, name, if slash then [SLASH, NEWLINE] else [NEWLINE])
    ensures at < |t| && (StringFrom(Cleaned(t) + [0], at) == name <==> Survives(name, slash))
  {
    hide At, StringFrom, Cleaned, CleanByte, Survives;
    var end := if slash then [SLASH, NEWLINE] else [NEWLINE];
    PlacedIs(t, at, name, end);
    var c := Cleaned(t) + [0];
    if Survives(name, slash) {
      GoodName(t, at, name, slash, c);
      StringIs(c, at, name);
    } else {
      var i := BadNameChanges(t, at, name, slash, c);
      StringByte(c, at, name, i);
    }
  }

  lemma StringByte(c: seq<Byte>, p: nat, s: seq<Byte>, i: nat)
    requires i < |s| && p + i < |c| && c[p + i] != s[i]
    ensures StringFrom(c, p) != s
  {
    var r := StringFrom(c, p);
    if |r| == |s| {
      assert c[p..p + |r|][i] == c[p + i];
    }
  }

  lemma PlacedIs(t: seq<Byte>, at: nat, name: seq<Byte>, end: seq<Byte>)
    requires At(t, at, name + end)
    ensures Placed(t, at, name) && Placed(t, at + |name|, end)
  {
    AtParts(t, at, name, end);
    RoomIs(t, at, name);
    RoomIs(t, at + |name|, end);
  }

  lemma RoomIs(t: seq<Byte>, at: nat, s: seq<Byte>)
    requires At(t, at, s)
    ensures Placed(t, at, s)
  {
    hide At;
    AtRoom(t, at, s);
    forall j {:trigger t[j]} | at <= j < at + |s| ensures t[j] == s[j - at] {
      assert t[j] == t[at..at + |s|][j - at];
    }
  }

  lemma StringIs(c: seq<Byte>, p: nat, s: seq<Byte>)
    requires 0 !in s && p + |s| < |c| && c[p + |s|] == 0
    requires Placed(c, p, s)
    ensures StringFrom(c, p) == s
  {
    assert c[p..p + |s| + 1] == s + [0];
    AtSlice(c, p, s + [0]);
    StringAt(c, p, s);
  }

  // c is the table as slurped, with its final NUL.
  predicate IsCleaned(t: seq<Byte>, c: seq<Byte>) {
    |c| == |t| + 1 && forall j {:trigger c[j]} :: 0 <= j < |t| ==> c[j] == CleanByte(t, j)
  }

  lemma GoodName(t: seq<Byte>, at: nat, name: seq<Byte>, slash: bool, c: seq<Byte>)
    requires Survives(name, slash) && IsCleaned(t, c) && (at == 0 || (at <= |t| && t[at - 1] == NEWLINE))
    requires Placed(t, at, name) && Placed(t, at + |name|, if slash then [SLASH, NEWLINE] else [NEWLINE])
    ensures Placed(c, at, name) && at + |name| < |t| && c[at + |name|] == 0
  {
    forall j {:trigger c[j]} | at <= j < at + |name| ensures c[j] == name[j - at] {
      assert t[j] == name[j - at];
    }
    assert t[at + |name|] == if slash then SLASH else NEWLINE;
    if slash {
      assert t[at + |name| + 1] == NEWLINE;
    } else if name != [] {
      assert t[at + |name| - 1] == name[|name| - 1];
    }
  }

  // Some byte of another name changes.
  lemma BadNameChanges(t: seq<Byte>, at: nat, name: seq<Byte>, slash: bool, c: seq<Byte>) returns (i: nat)
    requires !Survives(name, slash) && IsCleaned(t, c) && (at == 0 || (at <= |t| && t[at - 1] == NEWLINE))
    requires Placed(t, at, name) && Placed(t, at + |name|, if slash then [SLASH, NEWLINE] else [NEWLINE])
    requires 0 !in name
    ensures i < |name| && at + i < |c| && c[at + i] != name[i]
  {
    assert t[at + |name|] == if slash then SLASH else NEWLINE;
    if BACKSLASH in name {
      i :| 0 <= i < |name| && name[i] == BACKSLASH;
      NameByte(t, at, name, i);
    } else if NEWLINE in name {
      i :| 0 <= i < |name| && name[i] == NEWLINE;
      NameByte(t, at, name, i);
      if i > 0 && IsSlash(t[at + i - 1]) {
        i := i - 1;
        NameByte(t, at, name, i);
      }
    } else {
      i := |name| - 1;
      NameByte(t, at, name, i);
    }
  }

  lemma NameByte(t: seq<Byte>, at: nat, name: seq<Byte>, i: nat)
    requires i < |name| && Placed(t, at, name)
    ensures t[at + i] == name[i]
  {
    assert t[at + i] == name[at + i - at];
  }

  // ---------- the offset in the header ----------

  lemma FieldIndex(r: NameRules, files: seq<seq<Byte>>, k: nat, was: seq<Byte>, hdr: seq<Byte>)
    requires k < |files| && r.Extended(files, k) && |was| == NAME_FIELD && |hdr| == AR_HDR
    requires hdr[..NAME_FIELD] == r.Field(files, k, was) && |Decimal(r.Offset(files, k))| <= 10
    ensures hdr[0] == SLASH && Strtol(hdr[1..]) == r.Offset(files, k)
  {
    hide Strtol, Decimal, SpacePad;
    var d := Decimal(r.Offset(files, k));
    var pad := Blanks(MAX_NAME - 1 - |d|);
    PadIs(MAX_NAME - 1, d);
    var rest := AfterSlash(hdr, d, pad, was[MAX_NAME..]);
    StrtolDecimal(r.Offset(files, k), rest);
  }

  lemma PadIs(n: nat, s: seq<Byte>)
    requires |s| < n
    ensures SpacePad(n, s) == s + Blanks(n - |s|)
  {
  }

  lemma AfterSlash(hdr: seq<Byte>, d: seq<Byte>, pad: seq<Byte>, tail: seq<Byte>) returns (rest: seq<Byte>)
    requires |hdr| == AR_HDR && hdr[..NAME_FIELD] == [SLASH] + (d + pad) + tail && pad != [] && pad[0] == BLANK
    ensures hdr[0] == SLASH && hdr[1..] == d + rest && rest != [] && rest[0] == BLANK
  {
    var field := hdr[..NAME_FIELD];
    rest := hdr[1 + |d|..];
    assert field[0] == SLASH && field[1 + |d|] == BLANK;
    assert field[1..1 + |d|] == d;
    assert hdr[1..] == field[1..1 + |d|] + rest;
  }

  // The header of a member whose name is in the table leads to that name, whatever
  // follows the entries in the table, if and only if the name survives.
  lemma LongNameReadsBack(r: NameRules, files: seq<seq<Byte>>, k: nat, was: seq<Byte>, hdr: seq<Byte>, t: seq<Byte>)
    requires k < |files| && r.Extended(files, k) && |was| == NAME_FIELD && |hdr| == AR_HDR
    requires hdr[..NAME_FIELD] == r.Field(files, k, was) && r.Table(files, |files|) <= t
    requires |Decimal(|t|)| <= 10 && 0 !in r.Normal(files[k])
    ensures NameOf(hdr, Some(Cleaned(t))) == InTable(r.Normal(files[k])) <==> Survives(r.Normal(files[k]), r.slash)
  {
    hide At, StringFrom, Strtol, Cleaned, Decimal, Survives, NameRules.Field, NameRules.Table, NameRules.Offset,
         NameRules.Normal;
    var at, name := r.Offset(files, k), r.Normal(files[k]);
    OffsetStands(r, files, k, t);
    NameSurvives(t, at, name, r.slash);
    DecimalGrows(at, |t|);
    FieldIndex(r, files, k, was, hdr);
  }
}
