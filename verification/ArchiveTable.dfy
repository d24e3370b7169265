// The members of an archive to be written, and the two passes over them that settle
// their headers and build the name table (archive.c).

module ArchiveTable {
  import opened Bytes
  import opened CLibrary
  import opened ArchiveFormat
  import opened ArchiveNames

  // What the writer asks of a member's symbols: the name, and whether it belongs in
  // the map.
  datatype Sym = Sym(name: seq<Byte>, exported: bool)

  // A member of the archive to be written, `bfd` and its `areltdata`.
  class Elt {
    const filename: seq<Byte>
    const rest: seq<Byte>        // ar_date to ar_mode
    const size: nat              // arelt_size
    const data: seq<Byte>
    const isObject: bool
    const syms: seq<Sym>
    var arName: seq<Byte>

    constructor (filename: seq<Byte>, rest: seq<Byte>, data: seq<Byte>, size: nat, isObject: bool, syms: seq<Sym>,
                 arName: seq<Byte>)
      ensures this.filename == filename && this.rest == rest && this.size == size && this.data == data
      ensures this.isObject == isObject && this.syms == syms && this.arName == arName
    {
      this.filename, this.rest, this.size, this.data := filename, rest, size, data;
      this.isObject, this.syms, this.arName := isObject, syms, arName;
    }
  }

  function Files(elts: seq<Elt>): (s: seq<seq<Byte>>)
    ensures |s| == |elts| && forall k {:trigger s[k]} :: 0 <= k < |s| ==> s[k] == elts[k].filename
  {
    seq(|elts|, k requires 0 <= k < |elts| => elts[k].filename)
  }

  function Fields(elts: seq<Elt>): (s: seq<seq<Byte>>)
    reads elts
    ensures |s| == |elts| && forall k {:trigger s[k]} :: 0 <= k < |s| ==> s[k] == elts[k].arName
  {
    seq(|elts|, k requires 0 <= k < |elts| reads elts => elts[k].arName)
  }

  predicate Distinct(elts: seq<Elt>) {
    forall i, j :: 0 <= i < j < |elts| ==> elts[i] != elts[j]
  }

  predicate AllFields(fields: seq<seq<Byte>>) {
    forall k {:trigger fields[k]} :: 0 <= k < |fields| ==> |fields[k]| == NAME_FIELD
  }

  // ---------- the name table ----------

  // The name fields after the first pass, as far as member n.
  function AfterSizing(r: NameRules, files: seq<seq<Byte>>, was: seq<seq<Byte>>, n: nat): (now: seq<seq<Byte>>)
    requires |was| == |files| && AllFields(was) && n <= |files|
    ensures |now| == |was| && AllFields(now)
  {
    seq(|was|, k requires 0 <= k < |was| =>
      if k < n && !r.Extended(files, k) then r.ShortField(files[k], was[k]) else was[k])
  }

  // And after the second.
  function AfterFilling(r: NameRules, files: seq<seq<Byte>>, was: seq<seq<Byte>>, n: nat): (now: seq<seq<Byte>>)
    requires |was| == |files| && AllFields(was) && n <= |files|
    ensures |now| == |was| && AllFields(now)
  {
    seq(|was|, k requires 0 <= k < |was| => if k < n && r.Extended(files, k) then r.Field(files, k, was[k]) else was[k])
  }

  // A short name, put into the header if it is not there yet.
  method FixShort(e: Elt, r: NameRules)
    requires |e.arName| == NAME_FIELD
    modifies e`arName
    ensures e.arName == r.ShortField(e.filename, old(e.arName))
  {
    var normal := r.Normal(e.filename);
    var thislen := Min(|normal|, MAX_NAME);
    if normal[..thislen] != e.arName[..thislen] || e.arName[thislen] != SLASH {
      e.arName := Splice(e.arName, 0, normal[..thislen] + [SLASH]);
    } else {
      assert e.arName == Splice(e.arName, 0, normal[..thislen] + [SLASH]);
    }
  }

  // What the first pass remembers: the file name of the member before, if that matters.
  predicate LastIs(r: NameRules, files: seq<seq<Byte>>, k: nat, last: CString)
    requires k <= |files|
  {
    r.thin ==> last == if k == 0 then NullPointer else Text(files[k - 1])
  }

  // One step of the first pass.
  method SizeOne(e: Elt, r: NameRules, last: CString, ghost files: seq<seq<Byte>>, ghost k: nat)
    returns (n: nat, next: CString)
    requires k < |files| && files[k] == e.filename && |e.arName| == NAME_FIELD && LastIs(r, files, k, last)
    modifies e`arName
    ensures n == if r.Listed(files, k) then |r.Entry(files[k])| else 0
    ensures LastIs(r, files, k + 1, next)
    ensures e.arName == if r.Extended(files, k) then old(e.arName) else r.ShortField(files[k], old(e.arName))
  {
    hide NameRules.ShortField;
    n, next := 0, last;
    if r.thin {
      if last != Text(e.filename) {
        next := Text(e.filename);
        n := |r.Normal(e.filename)| + |r.Terminator()|;
      }
    } else {
      var thislen := |r.Normal(e.filename)|;
      if thislen > MAX_NAME && r.traditional {
        thislen := MAX_NAME;
      }
      if thislen > MAX_NAME {
        n := thislen + |r.Terminator()|;
      } else {
        FixShort(e, r);
      }
    }
  }

  // The first pass: "Figure out how long the table should be."
  method SizeNames(elts: seq<Elt>, r: NameRules, ghost files: seq<seq<Byte>>, ghost was: seq<seq<Byte>>)
    returns (total: nat)
    requires files == Files(elts) && was == Fields(elts) && Distinct(elts) && AllFields(was)
    modifies (set e | e in elts)`arName
    ensures total == |r.Table(files, |files|)|
    ensures Fields(elts) == AfterSizing(r, files, was, |files|)
  {
    hide NameRules.ShortField, NameRules.Listed, NameRules.Extended, NameRules.Entry, NameRules.Table;
    TableStart(r, files);
    total := 0;
    var last := NullPointer;
    for k := 0 to |elts|
      invariant total == |r.Table(files, k)| && LastIs(r, files, k, last)
      invariant forall j {:trigger elts[j]} :: 0 <= j < |elts| ==>
                  elts[j].arName == if j < k && !r.Extended(files, j) then r.ShortField(files[j], was[j]) else was[j]
    {
      TableStep(r, files, k);
      var n;
      n, last := SizeOne(elts[k], r, last, files, k);
      total := total + n;
    }
  }

  // One step of the second pass, with the table filled up to p.
  method FillOne(e: Elt, r: NameRules, table: array<Byte>, p: nat, last: CString, lastOff: nat,
                 ghost files: seq<seq<Byte>>, ghost k: nat) returns (q: nat, next: CString, nextOff: nat)
    requires k < |files| && files[k] == e.filename && |e.arName| == NAME_FIELD && LastIs(r, files, k, last)
    requires r.thin || !r.traditional
    requires r.thin && k > 0 ==> lastOff == r.Offset(files, k - 1)
    requires p == |r.Table(files, k)| && |r.Table(files, k + 1)| <= table.Length && table[..p] == r.Table(files, k)
    modifies e`arName, table
    ensures q == |r.Table(files, k + 1)| && table[..q] == r.Table(files, k + 1)
    ensures LastIs(r, files, k + 1, next) && (r.thin ==> nextOff == r.Offset(files, k))
    ensures e.arName == if r.Extended(files, k) then r.Field(files, k, old(e.arName)) else old(e.arName)
  {
    TableStep(r, files, k);
    q, next, nextOff := p, last, lastOff;
    if r.thin && last == Text(e.filename) {
      e.arName := [SLASH] + SpacePad(MAX_NAME - 1, Decimal(lastOff)) + e.arName[MAX_NAME..];
    } else {
      var normal := r.Normal(e.filename);
      if |normal| > MAX_NAME || r.thin {
        q := PutEntry(table, p, normal, r, files, k);
        nextOff, next := p, Text(e.filename);
        e.arName := [SLASH] + SpacePad(MAX_NAME - 1, Decimal(p)) + e.arName[MAX_NAME..];
      }
    }
  }

  // strcpy and the bytes after it.
  method PutEntry(table: array<Byte>, p: nat, normal: seq<Byte>, r: NameRules, ghost files: seq<seq<Byte>>,
                  ghost k: nat)
    returns (q: nat)
    requires k < |files| && normal == r.Normal(files[k]) && r.Listed(files, k)
    requires p == |r.Table(files, k)| <= table.Length && table[..p] == r.Table(files, k)
             && |r.Table(files, k + 1)| <= table.Length
    modifies table
    ensures q == |r.Table(files, k + 1)| && table[..q] == r.Table(files, k + 1)
  {
    hide NameRules.Normal, NameRules.Listed, NameRules.Table;
    TableStep(r, files, k);
    ghost var front := table[..p];
    Store(table, p, normal);
    assert table[..p] == front;
    Store(table, p + |normal|, r.Terminator());
    q := p + |normal| + |r.Terminator()|;
    assert table[..q] == front + r.Entry(files[k]);
  }

  lemma TableFits(r: NameRules, files: seq<seq<Byte>>, k: nat)
    requires k < |files|
    ensures |r.Table(files, k + 1)| <= |r.Table(files, |files|)|
  {
    TableGrows(r, files, k + 1, |files|);
  }

  // The first k members have their final name fields.
  ghost predicate FilledTo(elts: seq<Elt>, r: NameRules, files: seq<seq<Byte>>, was: seq<seq<Byte>>, k: nat)
    requires |elts| == |files| == |was| && AllFields(was)
    reads elts
  {
    forall j {:trigger elts[j]} :: 0 <= j < |elts| ==>
      elts[j].arName == if j < k && r.Extended(files, j) then r.Field(files, j, was[j]) else was[j]
  }

  // Member k in the second pass.
  method FillNext(elts: seq<Elt>, k: nat, r: NameRules, table: array<Byte>, p: nat, last: CString, lastOff: nat,
                  ghost files: seq<seq<Byte>>, ghost was: seq<seq<Byte>>) returns (q: nat, next: CString, nextOff: nat)
    requires k < |elts| && files == Files(elts) && |was| == |elts| && Distinct(elts) && AllFields(was)
    requires (r.thin || !r.traditional) && LastIs(r, files, k, last)
             && (r.thin && k > 0 ==> lastOff == r.Offset(files, k - 1))
    requires p == |r.Table(files, k)| && |r.Table(files, k + 1)| <= table.Length && table[..p] == r.Table(files, k)
    requires FilledTo(elts, r, files, was, k)
    modifies {elts[k]}`arName, table
    ensures q == |r.Table(files, k + 1)| && table[..q] == r.Table(files, k + 1)
    ensures LastIs(r, files, k + 1, next) && (r.thin ==> nextOff == r.Offset(files, k))
    ensures FilledTo(elts, r, files, was, k + 1)
  {
    hide NameRules.Field, NameRules.Listed, NameRules.Entry, NameRules.Table, NameRules.Offset;
    q, next, nextOff := FillOne(elts[k], r, table, p, last, lastOff, files, k);
  }

  // The second pass.
  method FillNames(elts: seq<Elt>, r: NameRules, table: array<Byte>, ghost files: seq<seq<Byte>>,
                   ghost was: seq<seq<Byte>>)
    requires files == Files(elts) && was == Fields(elts) && Distinct(elts) && AllFields(was)
    requires (r.thin || !r.traditional) && table.Length == |r.Table(files, |files|)|
    modifies (set e | e in elts)`arName, table
    ensures table[..] == r.Table(files, |files|)
    ensures Fields(elts) == AfterFilling(r, files, was, |files|)
  {
    hide NameRules.Field, NameRules.Listed, NameRules.Entry, NameRules.Table, NameRules.Offset;
    TableStart(r, files);
    NoneFilled(elts, r, files, was);
    hide FilledTo;
    var p, last, lastOff := 0, NullPointer, 0;
    for k := 0 to |elts|
      invariant p == |r.Table(files, k)| <= table.Length && table[..p] == r.Table(files, k)
      invariant LastIs(r, files, k, last) && (r.thin && k > 0 ==> lastOff == r.Offset(files, k - 1))
      invariant FilledTo(elts, r, files, was, k)
    {
      TableFits(r, files, k);
      p, last, lastOff := FillNext(elts, k, r, table, p, last, lastOff, files, was);
    }
    AllFilled(elts, r, files, was);
    assert table[..p] == table[..];
  }

  lemma NoneFilled(elts: seq<Elt>, r: NameRules, files: seq<seq<Byte>>, was: seq<seq<Byte>>)
    requires |elts| == |files| && was == Fields(elts) && AllFields(was)
    ensures FilledTo(elts, r, files, was, 0)
  {
  }

  lemma AllFilled(elts: seq<Elt>, r: NameRules, files: seq<seq<Byte>>, was: seq<seq<Byte>>)
    requires |elts| == |files| == |was| && AllFields(was) && FilledTo(elts, r, files, was, |elts|)
    ensures Fields(elts) == AfterFilling(r, files, was, |files|)
  {
    hide NameRules.Field, NameRules.Extended;
  }

  // What both passes make of the name fields.
  function NewFields(r: NameRules, files: seq<seq<Byte>>, was: seq<seq<Byte>>): (now: seq<seq<Byte>>)
    requires |was| == |files| && AllFields(was)
    ensures |now| == |was| && AllFields(now)
    ensures forall k {:trigger now[k]} :: 0 <= k < |now| ==> now[k] == r.Field(files, k, was[k])
  {
    seq(|was|, k requires 0 <= k < |was| => r.Field(files, k, was[k]))
  }

  // In the traditional format no name is long.
  lemma {:induction false} NoneIsLong(r: NameRules, files: seq<seq<Byte>>, k: nat)
    requires k <= |files| && !r.thin && r.traditional
    ensures r.Table(files, k) == []
  {
    if k > 0 {
      NoneIsLong(r, files, k - 1);
    }
  }

  lemma EmptyTable(r: NameRules, files: seq<seq<Byte>>, k: nat)
    requires k < |files| && r.Table(files, |files|) == []
    ensures !r.Extended(files, k)
  {
    hide NameRules.Table, NameRules.Entry;
    TableGrows(r, files, k + 1, |files|);
    TableGrows(r, files, 1, |files|);
    TableStep(r, files, k);
    TableStep(r, files, 0);
  }

  lemma SizedIsAll(r: NameRules, files: seq<seq<Byte>>, was: seq<seq<Byte>>)
    requires |was| == |files| && AllFields(was) && r.Table(files, |files|) == []
    ensures AfterSizing(r, files, was, |files|) == NewFields(r, files, was)
  {
    hide NameRules.Extended, NameRules.ShortField;
    var a, b := AfterSizing(r, files, was, |files|), NewFields(r, files, was);
    forall k | 0 <= k < |was| ensures a[k] == b[k] {
      EmptyTable(r, files, k);
    }
  }

  lemma FilledIsAll(r: NameRules, files: seq<seq<Byte>>, was: seq<seq<Byte>>)
    requires |was| == |files| && AllFields(was)
    ensures AfterFilling(r, files, AfterSizing(r, files, was, |files|), |files|) == NewFields(r, files, was)
  {
    hide NameRules.Listed, NameRules.ShortField;
  }

  // _bfd_construct_extended_name_table: the second pass fills exactly the table that
  // the first one sized.
  method ConstructNames(elts: seq<Elt>, r: NameRules, ghost files: seq<seq<Byte>>, ghost was: seq<seq<Byte>>)
    returns (table: array<Byte>)
    requires files == Files(elts) && was == Fields(elts) && Distinct(elts) && AllFields(was)
    modifies (set e | e in elts)`arName
    ensures fresh(table) && table[..] == r.Table(files, |files|)
    ensures Fields(elts) == NewFields(r, files, was)
  {
    hide NameRules.Table, NameRules.Extended, NameRules.Field, NewFields, AfterSizing, AfterFilling;
    var total := SizeNames(elts, r, files, was);
    table := new Byte[total];
    if !r.thin && r.traditional {
      NoneIsLong(r, files, |files|);
    }
    if total == 0 {
      SizedIsAll(r, files, was);
    } else {
      FillNames(elts, r, table, files, AfterSizing(r, files, was, |files|));
      FilledIsAll(r, files, was);
    }
  }
}
