// _bfd_elf_discard_section_eh_frame over all input files of a link.

module EhFrameDiscard {
  import opened Bytes
  import opened EhFrame
  import opened EhFrameLayout
  import opened EhFrameMerge

  // What the linker hands over for one input file: its section, which FDEs
  // describe code that is still there, its relocation context and its address size.
  datatype Input = Input(sec: Section, live: seq<bool>, cx: Context, ptrSize: PtrSize)

  // The CIE each entry pointed at when the parser was done.
  datatype Before = Before(cies: seq<Entry?>)

  ghost predicate Waiting(table: CieTable, inp: Input, was: Before)
    reads table`home, inp.sec.entries`removed, inp.sec.entries`cieInf, table.universe`removed, table.universe`merged,
          table.universe`link
  {
    var es := inp.sec.entries;
    && inp.sec.Distinct() && InFileOrder(inp.sec.Table()) && |inp.live| == |es| == |was.cies|
    && table.AllReady(inp.sec, inp.cx, was.cies, 0)
  }

  // A section that has been through the pass: its entries are sifted and the
  // kept ones are where the layout loop puts them.
  ghost predicate Done(table: CieTable, inp: Input, was: Before)
    reads table`home, inp.sec, inp.sec.entries
  {
    var es := inp.sec.entries;
    && InFileOrder(inp.sec.Table()) && |inp.live| == |es| == |was.cies|
    && table.AllSifted(inp.sec, inp.live, was.cies, |es|)
    && PlacedBy(inp.sec.Table(), inp.sec.Gone(), inp.sec.Places(), inp.sec.size, inp.ptrSize)
  }

  lemma OrderedAreWellFormed(table: CieTable, sec: Section)
    requires InFileOrder(sec.Table())
    ensures table.AllWellFormed(sec)
  {
    assert forall j {:trigger sec.entries[j]} :: 0 <= j < |sec.entries| ==> sec.Table()[j].WellFormed();
  }

  // _bfd_elf_discard_section_eh_frame
  method DiscardSection(table: CieTable, inp: Input, ghost was: Before) returns (changed: bool)
    requires table.Sound() && Waiting(table, inp, was)
    modifies table`slots, table`keys, table`home, inp.sec
    modifies inp.sec.entries`removed, inp.sec.entries`cieInf, inp.sec.entries`newOffset
    modifies table.universe`removed, table.universe`merged, table.universe`link,
             table.universe`makeLsdaRelative, table.universe`makePerEncodingRelative,
             table.universe`perEncodingRelative
    ensures table.Sound() && table.OnlyDecides() && table.OnlyIn(inp.sec) && table.HomeGrows(inp.sec)
    ensures Done(table, inp, was)
    ensures inp.sec.rawSize == old(inp.sec.size)
    ensures changed <==> inp.sec.size != inp.sec.rawSize
                         || Moved(inp.sec.Table(), inp.sec.Gone(), inp.sec.Places(), |inp.sec.entries|)
  {
    hide CieTable.Sound, CieTable.AllReady, CieTable.Sifted, CieTable.OnlyDecides, InFileOrder, PlacedBy, LaidOut;
    OrderedAreWellFormed(table, inp.sec);
    table.KeepEntries(inp.sec, inp.live, inp.cx, was.cies);
    changed := LayOut(inp.sec, inp.ptrSize);
  }

  // The reference of a kept FDE is a kept CIE: the one it had in its file, or one that
  // is equal to it as cie_eq compares what the parser recorded of the two.
  lemma ReferenceIsSound(table: CieTable, f: Entry)
    requires table.Sound() && f in table.home
    ensures !f.removed && f.cieInf != null && f.cieInf in table.universe && !f.cieInf.removed
    ensures f.cieInf in table.origin && f.cieInf.link == InSection(table.origin[f.cieInf].owner)
    ensures table.home[f] in table.origin && table.origin[table.home[f]].Ok() && table.origin[f.cieInf].Ok()
    ensures var mine, its := table.origin[table.home[f]].Key(), table.origin[f.cieInf].Key();
            f.cieInf == table.home[f] || (mine != [] && its != [] && CieEq(its[0], mine[0]))
  {
    hide CieEq, CieTable.Valid, CieTable.FlagsOk, Origin.Key, Origin.Ok;
    assert table.Refers(f, table.home[f]);
    table.MergingIsSound(table.home[f]);
    KnownOrigin(table, table.home[f]);
    KnownOrigin(table, f.cieInf);
  }

  lemma KnownOrigin(table: CieTable, e: Entry)
    requires table.Valid() && e in table.universe
    ensures e in table.origin
  {
  }

  // What the two CIEs are looked up with is equal.
  ghost predicate KeysEqual(table: CieTable, e: Entry, d: Entry) {
    && e in table.origin && d in table.origin && table.origin[e].Ok() && table.origin[d].Ok()
    && var x, y := table.origin[e].Key(), table.origin[d].Key(); x != [] && y != [] && CieEq(x[0], y[0])
  }

  // FDEs whose CIEs are equal refer to the same CIE, and the other way round.
  lemma EqualCiesAreShared(table: CieTable, f: Entry, g: Entry)
    requires table.Sound() && f in table.home && g in table.home
    ensures f.cieInf == g.cieInf <==>
            table.home[f] == table.home[g] || KeysEqual(table, table.home[f], table.home[g])
  {
    hide CieEq, CieTable.Valid, CieTable.FlagOk, CieTable.TurnedOk, CieTable.PassedOk, Origin.Key, Origin.Ok;
    var e, d := table.home[f], table.home[g];
    assert table.Refers(f, e) && table.Refers(g, d);
    assert table.KeyedOk(e) && table.KeyedOk(d);
    KeysAreThose(table, e);
    KeysAreThose(table, d);
    if f.cieInf == g.cieInf && e != d {
      table.SameStandIn(e, d);
    } else if KeysEqual(table, e, d) {
      table.MergingIsComplete(e, d);
    }
  }

  lemma KeysAreThose(table: CieTable, e: Entry)
    requires table.Valid() && e in table.universe && CieTable.InState(e) && !CieTable.Undecided(e)
    ensures e in table.origin && table.origin[e].Ok() && (e in table.keys ==> table.origin[e].Key() == [table.keys[e]])
    ensures e != CieTable.Representative(e) ==> e in table.keys && CieTable.Representative(e) in table.keys
  {
    hide CieEq, Origin.Key, Origin.Ok, Listed, SlotsApart;
    assert table.EntryOk(e);
  }

  // The input files of a link, in link order, with the table they share.
  class Link {
    const table: CieTable
    const inputs: seq<Input>
    ghost const was: seq<Before>

    constructor (table: CieTable, inputs: seq<Input>, ghost was: seq<Before>)
      ensures this.table == table && this.inputs == inputs && this.was == was
    {
      this.table, this.inputs, this.was := table, inputs, was;
    }

    // Different inputs own different sections and entries.
    ghost predicate Apart() {
      && |was| == |inputs|
      && forall i, j {:trigger inputs[i], inputs[j]} :: 0 <= i < |inputs| && 0 <= j < |inputs| && i != j ==>
           && inputs[i].sec != inputs[j].sec
           && forall k {:trigger inputs[i].sec.entries[k]} :: 0 <= k < |inputs[i].sec.entries| ==>
                inputs[i].sec.entries[k] !in inputs[j].sec.entries
    }

    ghost function Sections(): set<Section> {
      set i | 0 <= i < |inputs| :: inputs[i].sec
    }

    ghost function Entries(): set<Entry> {
      set i, e | 0 <= i < |inputs| && e in inputs[i].sec.entries :: e
    }

    ghost predicate DoneAt(i: nat)
      requires i < |inputs| == |was|
      reads table`home, Sections(), Entries()
    {
      assert inputs[i].sec in Sections();
      assert forall e :: e in inputs[i].sec.entries ==> e in Entries();
      Done(table, inputs[i], was[i])
    }

    ghost predicate WaitingAt(i: nat)
      requires i < |inputs| == |was|
      reads table`home, Entries(), table.universe`removed, table.universe`merged, table.universe`link
    {
      assert forall e :: e in inputs[i].sec.entries ==> e in Entries();
      Waiting(table, inputs[i], was[i])
    }

    // What a step on input n leaves alone.
    twostate predicate StepOn(n: nat)
      requires n < |inputs|
      reads table`home, Sections(), Entries()
      reads table.universe`removed, table.universe`merged, table.universe`link
    {
      var sec := inputs[n].sec;
      && table.OnlyIn(sec)
      && (forall e {:trigger e in Entries()} :: e in Entries() && e !in sec.entries ==>
            && e.newOffset == old(e.newOffset) && e.cieInf == old(e.cieInf) && e.removed == old(e.removed))
      && (forall s {:trigger s in Sections()} :: s in Sections() && s != sec ==> s.size == old(s.size))
      && table.HomeGrows(sec)
    }

    lemma Elsewhere(n: nat, i: nat)
      requires Apart() && n < |inputs| && i < |inputs| && i != n
      ensures inputs[i].sec in Sections() && inputs[i].sec != inputs[n].sec
      ensures forall k {:trigger inputs[i].sec.entries[k]} :: 0 <= k < |inputs[i].sec.entries| ==>
                inputs[i].sec.entries[k] in Entries() && inputs[i].sec.entries[k] !in inputs[n].sec.entries
    {
      assert forall k {:trigger inputs[i].sec.entries[k]} :: 0 <= k < |inputs[i].sec.entries| ==>
               inputs[i].sec.entries[k] in inputs[i].sec.entries;
    }

    // A step on input n keeps what is known of another input i.
    twostate predicate DoneStays(n: nat, i: nat)
      requires Apart() && n < |inputs| && i < |inputs| && i != n && StepOn(n)
      reads table`home, Sections(), Entries()
      reads table.universe`removed, table.universe`merged, table.universe`link
      ensures DoneStays(n, i) && (old(DoneAt(i)) ==> DoneAt(i))
    {
      Elsewhere(n, i);
      assert inputs[i].sec.Gone() == old(inputs[i].sec.Gone());
      assert inputs[i].sec.Places() == old(inputs[i].sec.Places());
      true
    }

    twostate predicate WaitingStays(n: nat, i: nat)
      requires Apart() && n < |inputs| && i < |inputs| && i != n && StepOn(n)
      reads table`home, Sections(), Entries()
      reads table.universe`removed, table.universe`merged, table.universe`link
      ensures WaitingStays(n, i) && (old(WaitingAt(i)) ==> WaitingAt(i))
    {
      Elsewhere(n, i);
      true
    }

    // How far the pass has got: the first n sections are done.
    ghost predicate Reached(n: nat)
      requires |was| == |inputs|
      reads table`home, Sections(), Entries()
      reads table.universe`removed, table.universe`merged, table.universe`link
    {
      && (forall i: nat {:trigger DoneAt(i)} :: i < n && i < |inputs| ==> DoneAt(i))
      && (forall i: nat {:trigger WaitingAt(i)} :: n <= i < |inputs| ==> WaitingAt(i))
    }

    // The FDEs that the table gets to know are those of the inputs.
    twostate predicate OnlyOurs()
      reads table`home
    {
      forall f {:trigger f in table.home} :: f in table.home ==> f in old(table.home) || f in Entries()
    }

    method DiscardOne(n: nat)
      requires table.Sound() && |was| == |inputs| && n < |inputs| && WaitingAt(n)
      modifies table`slots, table`keys, table`home, Sections()
      modifies Entries()`removed, Entries()`cieInf, Entries()`newOffset
      modifies table.universe`removed, table.universe`merged, table.universe`link,
               table.universe`makeLsdaRelative, table.universe`makePerEncodingRelative,
               table.universe`perEncodingRelative
      ensures table.Sound() && StepOn(n) && DoneAt(n) && OnlyOurs()
    {
      hide CieTable.Sound, Done;
      assert inputs[n].sec in Sections();
      assert forall e :: e in inputs[n].sec.entries ==> e in Entries();
      var changed := DiscardSection(table, inputs[n], was[n]);
    }

    // One step of the pass, seen from the whole link.
    method DiscardNext(n: nat)
      requires table.Sound() && Apart() && n < |inputs| && Reached(n)
      modifies table`slots, table`keys, table`home, Sections()
      modifies Entries()`removed, Entries()`cieInf, Entries()`newOffset
      modifies table.universe`removed, table.universe`merged, table.universe`link,
               table.universe`makeLsdaRelative, table.universe`makePerEncodingRelative,
               table.universe`perEncodingRelative
      ensures table.Sound() && Reached(n + 1) && OnlyOurs()
    {
      hide CieTable.Sound, Done, Waiting;
      assert WaitingAt(n);
      DiscardOne(n);
      assert forall i: nat {:trigger DoneStays(n, i)} :: i < n ==> DoneStays(n, i);
      assert forall i: nat {:trigger DoneAt(i)} :: i < n ==> old(DoneAt(i)) && DoneStays(n, i);
      assert forall i: nat {:trigger WaitingStays(n, i)} :: n < i < |inputs| ==> WaitingStays(n, i);
      assert forall i: nat {:trigger WaitingAt(i)} :: n < i < |inputs| ==> old(WaitingAt(i)) && WaitingStays(n, i);
    }

    // The discard pass over all input files.
    method DiscardAll()
      requires table.Sound() && Apart() && Reached(0)
      modifies table`slots, table`keys, table`home, Sections()
      modifies Entries()`removed, Entries()`cieInf, Entries()`newOffset
      modifies table.universe`removed, table.universe`merged, table.universe`link,
               table.universe`makeLsdaRelative, table.universe`makePerEncodingRelative,
               table.universe`perEncodingRelative
      ensures table.Sound() && Reached(|inputs|) && OnlyOurs()
    {
      for n := 0 to |inputs|
        invariant table.Sound() && Reached(n) && OnlyOurs()
      {
        DiscardNext(n);
      }
    }
  }

  // ---------- what is kept ----------

  // Entry l of input j is a kept FDE that refers to e.
  ghost predicate Needs(link: Link, j: nat, l: nat, e: Entry)
    reads link.Entries()
  {
    && j < |link.inputs| && l < |link.inputs[j].sec.entries|
    && var f := link.inputs[j].sec.entries[l];
       assert f in link.inputs[j].sec.entries && f in link.Entries();
       f.parsed.Fde? && !f.parsed.Terminator() && !f.removed && f.cieInf == e
  }

  // After the pass: of terminators the one of the last section is kept, of FDEs those
  // with a CIE whose code is still there, and of CIEs those that a kept FDE refers to.
  lemma WhatIsKept(link: Link, i: nat, k: nat)
    requires link.table.Sound() && |link.was| == |link.inputs|
    requires forall j: nat {:trigger link.DoneAt(j)} :: j < |link.inputs| ==> link.DoneAt(j)
    requires link.table.home.Keys <= link.Entries()
    requires i < |link.inputs| && k < |link.inputs[i].sec.entries|
    ensures var inp, e := link.inputs[i], link.inputs[i].sec.entries[k];
            && k < |link.was[i].cies| && k < |inp.live|
            && (e.parsed.size == 4 ==> (e.removed <==> inp.sec.hasNext))
            && (e.parsed.Fde? && e.parsed.size != 4 ==> (!e.removed <==> link.was[i].cies[k] != null && inp.live[k]))
            && (e.parsed.Cie? && e in link.table.universe ==> (!e.removed <==> exists j, l :: Needs(link, j, l, e)))
  {
    hide CieTable.Sound, PlacedBy, InFileOrder;
    assert link.DoneAt(i);
    var inp, e := link.inputs[i], link.inputs[i].sec.entries[k];
    assert link.table.Sifted(e, inp.live[k], inp.sec.hasNext, link.was[i].cies[k]);
    if e.parsed.Fde? && e.parsed.size != 4 && link.was[i].cies[k] != null && inp.live[k] {
      ReferenceIsSound(link.table, e);
    }
    if e.parsed.Cie? && e in link.table.universe {
      CieIsNeeded(link, e);
    }
  }

  lemma CieIsNeeded(link: Link, e: Entry)
    requires link.table.Sound() && |link.was| == |link.inputs| && e in link.table.universe
    requires forall j: nat {:trigger link.DoneAt(j)} :: j < |link.inputs| ==> link.DoneAt(j)
    requires link.table.home.Keys <= link.Entries()
    ensures !e.removed <==> exists j, l :: Needs(link, j, l, e)
  {
    hide CieTable.Valid, CieTable.FlagsOk, PlacedBy, InFileOrder;
    if !e.removed {
      assert link.table.IsUsed(e);
      var f :| f in link.table.home && f.cieInf == e;
      var j :| 0 <= j < |link.inputs| && f in link.inputs[j].sec.entries;
      var l :| 0 <= l < |link.inputs[j].sec.entries| && link.inputs[j].sec.entries[l] == f;
      assert link.table.Refers(f, link.table.home[f]);
      assert Needs(link, j, l, e);
    }
    if j: nat, l: nat :| Needs(link, j, l, e) {
      assert link.DoneAt(j);
      var f := link.inputs[j].sec.entries[l];
      assert link.table.Sifted(f, link.inputs[j].live[l], link.inputs[j].sec.hasNext, link.was[j].cies[l]);
      ReferenceIsSound(link.table, f);
    }
  }
}
