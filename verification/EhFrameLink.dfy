// The write pass over all inputs of a link, after the discard pass.  What the parser has
// recorded and the discard pass has left is what it needs, but for what it takes for
// granted of kept entries.

module EhFrameLink {
  import opened Bytes
  import opened EhFrame
  import opened EhFrameLayout
  import opened EhFrameMerge
  import opened EhFrameDiscard
  import opened EhFrameMove
  import opened EhFrameFde
  import opened EhFrameCie
  import opened EhFrameCfa
  import opened EhFrameCieParse
  import opened EhFrameCieKept
  import opened EhFrameFdeReads
  import opened EhFrameRecorded
  import opened EhFrameWrite

  // ---------- a link that is ready ----------

  // What the write pass gets for one input section: its relocated contents, and where
  // it goes.
  datatype Given = Given(was: seq<Byte>, out: Output)

  // The parser's view of the CIE p in these contents.
  predicate CieParsedAs(p: Parsed, g: Given, h: CieShape) {
    && 10 <= p.size && p.offset + p.size <= |g.was|
    && ParseCie(Original(g.was, p), p.size, p.offset, g.out.ptrSize) == Some(h)
  }

  // What the contents are to the parser: a CIE is what was recorded of it, and so is an
  // FDE, given the CIE that the parser attached to it.
  ghost predicate EntryFits(origin: map<Entry, Origin>, e: Entry, own: Entry?, g: Given) {
    var p := e.parsed;
    && 4 <= p.size && p.offset + p.size <= |g.was|
    && (p.Terminator() ==> ValueAt(g.out.endian, g.was, p.offset, 4) == 0)
    && (p.Cie? ==>
          e in origin && CieFits(p, origin[e], Original(g.was, p), g.out.ptrSize, g.out.relocatable))
    && (p.Fde? && !p.Terminator() && own != null ==> FdeFits(p, own.parsed, g))
  }

  ghost predicate FdeFits(p: Parsed, cie: Parsed, g: Given)
    requires p.Fde? && p.offset + p.size <= |g.was|
  {
    && 8 <= p.size && cie.Cie?
    && exists h: CieShape ::
         CieParsedAs(cie, g, h) && FdeRecords(p, cie, Original(g.was, p), h, g.out.ptrSize)
  }

  // The parts of an FDE in these contents, in the light of its CIE.
  predicate FdeParsedAs(p: Parsed, g: Given, h: CieShape, s: FdeShape) {
    && p.Fde? && 8 <= p.size && p.offset + p.size <= |g.was|
    && ParseFde(Original(g.was, p), p.size, h, g.out.ptrSize) == Some(s)
  }

  ghost predicate GivenFits(link: Link, i: nat, g: Given)
    requires i < |link.inputs| == |link.was|
  {
    var inp, cies := link.inputs[i], link.was[i].cies;
    && g.out.ptrSize == inp.ptrSize && g.out.outputOffset == inp.sec.outputOffset && g.out.vma == inp.sec.outputVma
    && |cies| == |inp.sec.entries|
    && forall k {:trigger inp.sec.entries[k]} :: 0 <= k < |inp.sec.entries| ==>
         EntryFits(link.table.origin, inp.sec.entries[k], cies[k], g)
  }

  // What is asked of a CIE; its place does not matter here.
  function Asked(e: Entry): CieJob
    reads e
  {
    CieJob(e.parsed, 0, 0, e.makeLsdaRelative, e.makePerEncodingRelative, e.perEncodingRelative)
  }

  // What the write pass takes for granted of a kept entry.
  ghost predicate KeptFits(e: Entry, own: Entry?, g: Given)
    reads e
  {
    var p := e.parsed;
    !e.removed && p.offset + p.size <= |g.was| ==>
      && (p.Cie? ==> forall h {:trigger CieParsedAs(p, g, h)} :: CieParsedAs(p, g, h) ==>
            CanEdit(Asked(e), Original(g.was, p), h, g.out.ptrSize))
      && (p.Fde? && !p.Terminator() && own != null ==>
            forall h, s {:trigger CieParsedAs(own.parsed, g, h), FdeParsedAs(p, g, h, s)} ::
              CieParsedAs(own.parsed, g, h) && FdeParsedAs(p, g, h, s) ==> LsdaFits(p, s, g.out.ptrSize))
  }

  ghost predicate AllKeptFit(link: Link, i: nat, g: Given)
    requires i < |link.inputs| == |link.was|
    reads link.inputs[i].sec.entries
  {
    var inp, cies := link.inputs[i], link.was[i].cies;
    && |cies| == |inp.sec.entries|
    && forall k {:trigger inp.sec.entries[k]} :: 0 <= k < |inp.sec.entries| ==>
         KeptFits(inp.sec.entries[k], cies[k], g)
  }

  // CIE e is one of the input that the parser found it in.
  ghost predicate InInput(link: Link, e: Entry, o: nat) {
    o < |link.inputs| && e in link.table.origin && link.table.origin[e].owner == link.inputs[o].sec
    && e in link.inputs[o].sec.entries
  }

  // The table knows the CIEs of the inputs, and no others; the CIE that the parser
  // attached to an FDE is one of the same input; and all are linked alike.
  ghost predicate Collected(link: Link) {
    && link.Apart() && |link.was| == |link.inputs| && link.table.universe == link.table.origin.Keys
    && (forall e {:trigger e in link.table.origin} :: e in link.table.origin ==>
          e.parsed.Cie? && exists o: nat :: InInput(link, e, o))
    && (forall i, k {:trigger link.inputs[i].sec.entries[k]} ::
          0 <= i < |link.inputs| && 0 <= k < |link.inputs[i].sec.entries| && k < |link.was[i].cies| ==>
            var e, own := link.inputs[i].sec.entries[k], link.was[i].cies[k];
            && (e.parsed.Cie? ==> InInput(link, e, i))
            && (e.parsed.Fde? && own != null ==> InInput(link, own, i)))
    && (forall e, f {:trigger link.table.origin[e], link.table.origin[f]} ::
          e in link.table.origin && f in link.table.origin ==>
            link.table.origin[e].cx.pic == link.table.origin[f].cx.pic
            && link.table.origin[e].cx.canMakeRelative == link.table.origin[f].cx.canMakeRelative)
  }

  // ---------- the work that the discard pass leaves ----------

  // A kept CIE's conversions are those of encodings that were recorded.
  lemma KeptCie(link: Link, i: nat, k: nat)
    requires link.table.Sound() && Collected(link) && i < |link.inputs| && link.DoneAt(i)
             && k < |link.inputs[i].sec.entries|
    requires var e := link.inputs[i].sec.entries[k]; e.parsed.Cie? && !e.removed
    ensures var e := link.inputs[i].sec.entries[k];
            && e in link.table.origin && link.table.origin[e].owner == link.inputs[i].sec
            && e.link == InSection(link.inputs[i].sec) && CieTable.FlagsFit(e, link.table.origin[e].link)
  {
    hide CieEq, Origin.Key, Origin.Ok, Link.Apart, PlacedBy, InFileOrder;
    var e := link.inputs[i].sec.entries[k];
    assert InInput(link, e, i);
    assert link.table.EntryOk(e) && link.table.FlagOk(e);
  }

  // A kept FDE refers to a kept CIE that is in one of the inputs, in the same output
  // section: its own, or one that cie_eq takes for equal.
  lemma KeptFde(link: Link, i: nat, k: nat) returns (o: nat)
    requires link.table.Sound() && Collected(link) && i < |link.inputs| && link.DoneAt(i)
             && k < |link.inputs[i].sec.entries|
    requires var e := link.inputs[i].sec.entries[k]; e.parsed.Fde? && !e.parsed.Terminator() && !e.removed
    ensures var e := link.inputs[i].sec.entries[k];
            && e.cieInf != null && !e.cieInf.removed && InInput(link, e.cieInf, o)
            && e.cieInf.link == InSection(link.inputs[o].sec)
            && link.inputs[o].sec.outputSection == link.inputs[i].sec.outputSection
            && CieTable.FlagsFit(e.cieInf, link.table.origin[e.cieInf].link)
    ensures k < |link.was[i].cies| && link.was[i].cies[k] != null
    ensures var c, own := link.inputs[i].sec.entries[k].cieInf, link.was[i].cies[k];
            && InInput(link, own, i) && own.parsed.Cie?
            && StandsFor(link.table.origin[c], link.table.origin[own], c == own)
  {
    hide CieTable.Valid, Link.Apart, PlacedBy, InFileOrder, Origin.Ok, CieEq;
    var inp, e := link.inputs[i], link.inputs[i].sec.entries[k];
    assert link.table.Sifted(e, inp.live[k], inp.sec.hasNext, link.was[i].cies[k]);
    ReferenceIsSound(link.table, e);
    var own := link.table.home[e];
    assert own == link.was[i].cies[k];
    assert InInput(link, own, i);
    o :| InInput(link, e.cieInf, o);
    assert link.table.FlagOk(e.cieInf);
    SameSection(link.table.origin[own], link.table.origin[e.cieInf]);
  }

  // The CIE of origin c stands for that of origin own.
  predicate StandsFor(c: Origin, own: Origin, same: bool) {
    && c.Ok() && own.Ok()
    && (same ==> c == own)
    && (!same ==> own.Key() != [] && c.Key() != [] && CieEq(c.Key()[0], own.Key()[0]))
  }

  // CIEs that were found equal go to the same output section.
  lemma SameSection(mine: Origin, its: Origin)
    requires mine.Ok() && its.Ok()
    ensures mine.Key() != [] && its.Key() != [] && CieEq(its.Key()[0], mine.Key()[0]) ==>
              its.owner.outputSection == mine.owner.outputSection
  {
  }

  // The room of a kept entry.
  lemma KeptRoom(inp: Input, k: nat)
    requires k < |inp.sec.entries| && !inp.sec.entries[k].removed && InFileOrder(inp.sec.Table())
    requires PlacedBy(inp.sec.Table(), inp.sec.Gone(), inp.sec.Places(), inp.sec.size, inp.ptrSize)
    ensures var e := inp.sec.entries[k];
            && e.newOffset % e.parsed.Alignment(inp.ptrSize) == 0
            && e.newOffset + e.parsed.OutputSize() <= NextOf(inp.sec, k) <= inp.sec.size
            && 4 <= e.parsed.size
  {
    hide Parsed.Alignment, Parsed.OutputSize;
    var ps, gone, places := inp.sec.Table(), inp.sec.Gone(), inp.sec.Places();
    assert !gone[k] && ps[k] == inp.sec.entries[k].parsed && ps[k].WellFormed();
    LayoutIsOrdered(ps, gone, inp.ptrSize, places);
    RoomToNext(ps, gone, places, inp.sec.size, k);
    NextIsInside(ps, gone, places, inp.sec.size, k);
    assert places[k] == Place(ps, gone, inp.ptrSize, k);
  }

  // The work on entry k.
  function WorkAt(sec: Section, k: nat): Job
    requires k < |sec.entries| && Linked(sec.entries[k])
    requires !sec.entries[k].removed ==> sec.entries[k].newOffset <= NextOf(sec, k)
    reads sec, sec.entries, sec.entries[k].cieInf
  {
    var e := sec.entries[k];
    if e.removed then NoWork(e.parsed, e.newOffset) else JobOf(e, NextOf(sec, k) - e.newOffset)
  }

  // The parser's view of a CIE that fits.
  lemma CieIsParsed(origin: map<Entry, Origin>, e: Entry, own: Entry?, g: Given) returns (h: CieShape)
    requires EntryFits(origin, e, own, g) && e.parsed.Cie?
    ensures e in origin && e.parsed.offset + e.parsed.size <= |g.was| && CieParsedAs(e.parsed, g, h)
    ensures CieFits(e.parsed, origin[e], Original(g.was, e.parsed), g.out.ptrSize, g.out.relocatable)
  {
    hide Records, ParseCie;
    h := ParseCie(Original(g.was, e.parsed), e.parsed.size, e.parsed.offset, g.out.ptrSize).value;
  }

  lemma EntryIsFit(link: Link, i: nat, k: nat, g: Given)
    requires Collected(link) && i < |link.inputs| && GivenFits(link, i, g) && k < |link.inputs[i].sec.entries|
    ensures |link.was| == |link.inputs| && k < |link.was[i].cies|
    ensures EntryFits(link.table.origin, link.inputs[i].sec.entries[k], link.was[i].cies[k], g)
  {
    hide Link.Apart, EntryFits;
    assert link.inputs[i].sec.entries[k] == link.inputs[i].sec.entries[k];
  }

  // The work on a kept CIE, with all that is known of it.
  ghost predicate CieWorkFits(origin: map<Entry, Origin>, sec: Section, k: nat, g: Given, h: CieShape)
    requires k < |sec.entries|
    reads sec, sec.entries, sec.entries[k].cieInf
  {
    var e := sec.entries[k];
    && Linked(e) && e.newOffset <= NextOf(sec, k) && !e.removed && e.parsed.Cie? && e in origin
    && CieParsedAs(e.parsed, g, h) && WorkAt(sec, k).CieWork?
    && Doable(WorkAt(sec, k).cie, origin[e], Original(g.was, e.parsed), g.out.ptrSize, g.out.relocatable)
    && JobOk(WorkAt(sec, k), Original(g.was, e.parsed), g.out)
  }

  lemma KeptCieWork(link: Link, i: nat, k: nat, g: Given) returns (h: CieShape)
    requires link.table.Sound() && Collected(link) && i < |link.inputs| && link.DoneAt(i)
             && k < |link.inputs[i].sec.entries|
    requires GivenFits(link, i, g) && AllKeptFit(link, i, g)
    requires var e := link.inputs[i].sec.entries[k]; e.parsed.Cie? && !e.removed
    ensures CieWorkFits(link.table.origin, link.inputs[i].sec, k, g, h)
  {
    hide CieTable.Sound, Collected, PlacedBy, InFileOrder, ParseCie, JobOk, CieTable.AllSifted, CieFits, CanEdit,
         Parsed.Alignment, FlagsRight;
    var sec, e := link.inputs[i].sec, link.inputs[i].sec.entries[k];
    EntryIsFit(link, i, k, g);
    h := CieIsParsed(link.table.origin, e, link.was[i].cies[k], g);
    KeptRoom(link.inputs[i], k);
    KeptCie(link, i, k);
    FlagsAre(sec, k, link.table.origin[e].link);
    assert KeptFits(e, link.was[i].cies[k], g);
    AskedIs(sec, k, Original(g.was, e.parsed), h, g.out.ptrSize);
    CieJobIsOk(WorkAt(sec, k).cie, link.table.origin[e], Original(g.was, e.parsed), g.out, g.out.relocatable);
  }

  lemma FlagsAre(sec: Section, k: nat, link: CieLink)
    requires k < |sec.entries| && Linked(sec.entries[k]) && sec.entries[k].newOffset <= NextOf(sec, k)
    requires var e := sec.entries[k];
             e.parsed.Cie? && !e.removed && !e.parsed.Terminator() && CieTable.FlagsFit(e, link)
    ensures WorkAt(sec, k).CieWork? && FlagsRight(WorkAt(sec, k).cie, link)
  {
    hide NextOf;
  }

  lemma AskedIs(sec: Section, k: nat, b: seq<Byte>, h: CieShape, ptrSize: PtrSize)
    requires k < |sec.entries| && Linked(sec.entries[k]) && sec.entries[k].newOffset <= NextOf(sec, k)
    requires var e := sec.entries[k]; e.parsed.Cie? && !e.removed && !e.parsed.Terminator() && |b| == e.parsed.size
    ensures WorkAt(sec, k).CieWork? && WorkAt(sec, k).cie.p == sec.entries[k].parsed
    ensures CanEdit(Asked(sec.entries[k]), b, h, ptrSize) == CanEdit(WorkAt(sec, k).cie, b, h, ptrSize)
    ensures Handled(Asked(sec.entries[k]), b, h, ptrSize) == Handled(WorkAt(sec, k).cie, b, h, ptrSize)
  {
    hide NextOf, EncodingsOf, SkipsRight;
  }

  // The work on a kept FDE, with all that is known of it.
  ghost predicate FdeWorkFits(sec: Section, k: nat, own: Parsed, g: Given, h: CieShape, s: FdeShape, xs: seq<nat>)
    requires k < |sec.entries|
    reads sec, sec.entries, sec.entries[k].cieInf
  {
    var e := sec.entries[k];
    && Linked(e) && e.newOffset <= NextOf(sec, k) && !e.removed && e.parsed.offset + e.parsed.size <= |g.was|
    && CieParsedAs(own, g, h) && FdeParsedAs(e.parsed, g, h, s) && WorkAt(sec, k).FdeWork?
    && e.parsed.size <= WorkAt(sec, k).fde.newSize
    && FdeKnown(PaddedTo(Original(g.was, e.parsed), WorkAt(sec, k).fde.newSize), WorkAt(sec, k).fde, own, h, s, xs,
                 g.out.ptrSize)
    && s.insns <= e.parsed.size
    && Instructions(Original(g.was, e.parsed), s.insns, e.parsed.size, s.width) == Some(xs)
    && JobOk(WorkAt(sec, k), Original(g.was, e.parsed), g.out)
  }

  lemma KeptFdeWork(link: Link, i: nat, k: nat, g: Given) returns (h: CieShape, s: FdeShape, xs: seq<nat>)
    requires link.table.Sound() && Collected(link) && i < |link.inputs| && link.DoneAt(i)
             && k < |link.inputs[i].sec.entries|
    requires GivenFits(link, i, g) && AllKeptFit(link, i, g)
    requires var e := link.inputs[i].sec.entries[k]; e.parsed.Fde? && !e.parsed.Terminator() && !e.removed
    ensures k < |link.was[i].cies| && link.was[i].cies[k] != null
    ensures FdeWorkFits(link.inputs[i].sec, k, link.was[i].cies[k].parsed, g, h, s, xs)
  {
    hide CieTable.Sound, Collected, PlacedBy, InFileOrder, ParseCie, JobOk, CieTable.AllSifted, ParseFde, FdeRecords,
         LsdaFits, FdeKnown, Instructions, CieFits, CieConversions, StandsFor;
    var sec, e := link.inputs[i].sec, link.inputs[i].sec.entries[k];
    var o := KeptFde(link, i, k);
    KeptRoom(link.inputs[i], k);
    EntryIsFit(link, i, k, g);
    var own := link.was[i].cies[k];
    assert KeptFits(e, own, g);
    h :| CieParsedAs(own.parsed, g, h) && FdeRecords(e.parsed, own.parsed, Original(g.was, e.parsed), h, g.out.ptrSize);
    var b := Original(g.was, e.parsed);
    s, xs := RecordedFde(e.parsed, own.parsed, b, h, g.out.ptrSize);
    OwnConverts(link, i, own, e.cieInf, g, h);
    FdeWorkIs(sec, k);
    assert FdeParsedAs(e.parsed, g, h, s);
    FdeIsKnown(WorkAt(sec, k).fde, own.parsed, b, h, s, xs, g.out.ptrSize);
    FdeJobIsOk(WorkAt(sec, k).fde, own.parsed, b, h, s, xs, g.out);
  }

  lemma RecordedFde(p: Parsed, cie: Parsed, b: seq<Byte>, h: CieShape, ptrSize: PtrSize)
    returns (s: FdeShape, xs: seq<nat>)
    requires p.Fde? && cie.Cie? && |b| == p.size && FdeRecords(p, cie, b, h, ptrSize)
    ensures ParseFde(b, p.size, h, ptrSize) == Some(s) && s.insns <= |b|
    ensures Instructions(b, s.insns, p.size, s.width) == Some(xs)
  {
    hide ParseFde, Instructions, SetLocTable;
    s := ParseFde(b, p.size, h, ptrSize).value;
    xs := Instructions(b, s.insns, p.size, s.width).value;
  }

  lemma FdeWorkIs(sec: Section, k: nat)
    requires k < |sec.entries| && Linked(sec.entries[k]) && sec.entries[k].newOffset <= NextOf(sec, k)
    requires var e := sec.entries[k]; e.parsed.Fde? && !e.removed && !e.parsed.Terminator()
    ensures WorkAt(sec, k).FdeWork?
    ensures var e, job := sec.entries[k], WorkAt(sec, k).fde;
            && e.cieInf != null && e.cieInf.link.InSection? && job.p == e.parsed && job.newOffset == e.newOffset
            && job.newSize == NextOf(sec, k) - e.newOffset && job.cieLsdaRelative == e.cieInf.makeLsdaRelative
  {
    hide NextOf;
  }

  lemma FdeJobIsOk(job: FdeJob, cie: Parsed, b: seq<Byte>, h: CieShape, s: FdeShape, xs: seq<nat>, out: Output)
    requires |b| == job.p.size <= job.newSize
    requires FdeKnown(PaddedTo(b, job.newSize), job, cie, h, s, xs, out.ptrSize)
    ensures JobOk(FdeWork(job), b, out)
  {
    hide FdeKnown, PaddedTo;
    KnownJobIsOk(PaddedTo(b, job.newSize), job, cie, h, s, xs, out.ptrSize);
  }

  // The conversions of an FDE's own CIE, with the LSDA conversion of the one that stands
  // for it.
  lemma OwnConverts(link: Link, i: nat, own: Entry, c: Entry, g: Given, h: CieShape)
    requires Collected(link) && i < |link.inputs| && GivenFits(link, i, g) && InInput(link, own, i)
    requires own.parsed.Cie? && CieParsedAs(own.parsed, g, h)
    requires c in link.table.origin && StandsFor(link.table.origin[c], link.table.origin[own], c == own)
    requires CieTable.FlagsFit(c, link.table.origin[c].link)
    ensures CieConversions(own.parsed, h, c.makeLsdaRelative) && HasWidths(h, g.out.ptrSize)
    ensures CieFits(own.parsed, link.table.origin[own], Original(g.was, own.parsed), g.out.ptrSize, g.out.relocatable)
  {
    hide Link.Apart, ParseCie, Records, CieConversions, HasWidths, CieEq, Origin.Key, Origin.Ok;
    var k :| 0 <= k < |link.inputs[i].sec.entries| && link.inputs[i].sec.entries[k] == own;
    assert EntryFits(link.table.origin, own, link.was[i].cies[k], g);
    LsdaIsAbsolute(link.table.origin[c], link.table.origin[own], own.parsed, Original(g.was, own.parsed), h,
                   g.out.ptrSize, g.out.relocatable, c == own, c.makeLsdaRelative);
    RecordsConvert(own.parsed, link.table.origin[own], Original(g.was, own.parsed), h, g.out.ptrSize,
                   g.out.relocatable, c.makeLsdaRelative);
  }

  lemma LsdaIsAbsolute(c: Origin, own: Origin, p: Parsed, b: seq<Byte>, h: CieShape, ptrSize: PtrSize,
                       relocatable: bool, same: bool, lsdaRelative: bool)
    requires StandsFor(c, own, same) && p.Cie? && |b| == p.size && CieFits(p, own, b, ptrSize, relocatable)
    requires ParseCie(b, p.size, p.offset, ptrSize) == Some(h)
    requires lsdaRelative ==> c.link.FullCie? && Application(c.link.record.lsdaEncoding) == DW_EH_PE_absptr
    ensures lsdaRelative ==> Application(h.seen.lsda) == DW_EH_PE_absptr
  {
    hide ParseCie, EncodingsOf, Application, CieEq, Origin.Key, Origin.Ok;
    if !same {
      KeysAgree(own, c);
    }
  }

  // Whatever is asked for of a kept entry can be done.
  lemma KeptWork(link: Link, i: nat, k: nat, g: Given)
    requires link.table.Sound() && Collected(link) && i < |link.inputs| && link.DoneAt(i)
             && k < |link.inputs[i].sec.entries|
    requires GivenFits(link, i, g) && AllKeptFit(link, i, g) && !link.inputs[i].sec.entries[k].removed
    ensures var sec := link.inputs[i].sec;
            && Linked(sec.entries[k]) && sec.entries[k].newOffset <= NextOf(sec, k)
            && sec.entries[k].parsed.offset + sec.entries[k].parsed.size <= |g.was|
            && JobOk(WorkAt(sec, k), Original(g.was, sec.entries[k].parsed), g.out)
  {
    hide CieTable.Sound, Collected, PlacedBy, InFileOrder, JobOk, CieTable.AllSifted, AllKeptFit, CieFits, FdeFits;
    var inp, e := link.inputs[i], link.inputs[i].sec.entries[k];
    EntryIsFit(link, i, k, g);
    KeptRoom(inp, k);
    if e.parsed.Terminator() {
      TerminatorJob(e.parsed, e.newOffset, Original(g.was, e.parsed), g.out);
    } else if e.parsed.Cie? {
      var h := KeptCieWork(link, i, k, g);
    } else {
      var h, s, xs := KeptFdeWork(link, i, k, g);
    }
  }

  lemma TerminatorJob(p: Parsed, place: nat, b: seq<Byte>, out: Output)
    requires |b| == p.size
    ensures JobOk(NoWork(p, place), b, out)
  {
  }

  // ---------- writing one input ----------

  // Every entry's work is known.
  ghost predicate HasWork(sec: Section)
    reads sec, sec.entries, (set e | e in sec.entries :: e.cieInf)
  {
    forall k {:trigger sec.entries[k]} :: 0 <= k < |sec.entries| ==>
      Linked(sec.entries[k]) && (!sec.entries[k].removed ==> sec.entries[k].newOffset <= NextOf(sec, k))
  }

  ghost function Works(sec: Section): (jobs: seq<Job>)
    requires HasWork(sec)
    reads sec, sec.entries, (set e | e in sec.entries :: e.cieInf)
    ensures |jobs| == |sec.entries|
    ensures forall k {:trigger jobs[k]} :: 0 <= k < |jobs| ==> Linked(sec.entries[k]) && jobs[k] == WorkAt(sec, k)
  {
    seq(|sec.entries|, k requires 0 <= k < |sec.entries| && HasWork(sec)
                         reads sec, sec.entries, (set e | e in sec.entries :: e.cieInf) => WorkOf(sec, k))
  }

  ghost function WorkOf(sec: Section, k: nat): Job
    requires HasWork(sec) && k < |sec.entries|
    reads sec, sec.entries, (set e | e in sec.entries :: e.cieInf)
  {
    assert sec.entries[k] in sec.entries;
    WorkAt(sec, k)
  }

  // The contents in a buffer with room for the edited section.
  function BufferOf(was: seq<Byte>, size: nat): (b: seq<Byte>)
    ensures |b| >= size && |b| >= |was| && b[..|was|] == was
  {
    if |was| < size then PaddedTo(was, size) else was
  }

  lemma BufferKeeps(was: seq<Byte>, size: nat, p: Parsed)
    requires p.offset + p.size <= |was|
    ensures Original(BufferOf(was, size), p) == Original(was, p)
  {
    assert BufferOf(was, size)[..|was|][p.offset..p.offset + p.size]
           == BufferOf(was, size)[p.offset..p.offset + p.size];
  }

  // The discard pass leaves work that can be done.
  lemma LinkHasWork(link: Link, i: nat, g: Given)
    requires link.table.Sound() && Collected(link) && i < |link.inputs| && link.DoneAt(i) && GivenFits(link, i, g)
             && AllKeptFit(link, i, g)
    ensures HasWork(link.inputs[i].sec) && WorkList(link.inputs[i].sec, Works(link.inputs[i].sec))
    ensures AllOk(Works(link.inputs[i].sec), link.inputs[i].sec.Gone(), BufferOf(g.was, link.inputs[i].sec.size), g.out)
  {
    hide CieTable.Sound, Collected, GivenFits, AllKeptFit, Done, JobOk, JobOf, BufferOf, NextOf, WorkAt;
    var sec := link.inputs[i].sec;
    var buf := BufferOf(g.was, sec.size);
    forall k {:trigger sec.entries[k]} | 0 <= k < |sec.entries|
      ensures Linked(sec.entries[k]) && (!sec.entries[k].removed ==> sec.entries[k].newOffset <= NextOf(sec, k))
    {
      if !sec.entries[k].removed {
        KeptWork(link, i, k, g);
      }
    }
    var jobs := Works(sec);
    forall k {:trigger jobs[k]} | 0 <= k < |jobs|
      ensures IsWork(sec, k, jobs[k])
      ensures !sec.entries[k].removed ==>
                && jobs[k].P().offset + jobs[k].P().size <= |buf|
                && JobOk(jobs[k], Original(buf, jobs[k].P()), g.out)
    {
      if !sec.entries[k].removed {
        KeptWork(link, i, k, g);
        WorkIs(sec, k);
        BufferKeeps(g.was, sec.size, sec.entries[k].parsed);
      }
    }
  }

  lemma WorkIs(sec: Section, k: nat)
    requires k < |sec.entries| && Linked(sec.entries[k]) && !sec.entries[k].removed
             && sec.entries[k].newOffset <= NextOf(sec, k)
    ensures IsWork(sec, k, WorkAt(sec, k)) && WorkAt(sec, k).P() == sec.entries[k].parsed
  {
  }

  lemma LinkIsMovable(link: Link, i: nat, g: Given, room: nat)
    requires i < |link.inputs| && |link.was| == |link.inputs| && link.DoneAt(i) && GivenFits(link, i, g)
    requires link.inputs[i].sec.size <= room && |g.was| <= room
    ensures var sec := link.inputs[i].sec; Movable(sec.Table(), sec.Gone(), sec.Places(), sec.size, room)
  {
    hide InFileOrder, CieTable.AllSifted, LaidOut, PlacedBy, EntryFits;
    var inp := link.inputs[i];
    PlacedIsLaidOut(inp);
    forall k | 0 <= k < |inp.sec.entries| ensures inp.sec.Table()[k].offset + inp.sec.Table()[k].size <= room {
      EntryInside(link.table.origin, inp.sec.entries[k], link.was[i].cies[k], g);
    }
  }

  lemma PlacedIsLaidOut(inp: Input)
    requires PlacedBy(inp.sec.Table(), inp.sec.Gone(), inp.sec.Places(), inp.sec.size, inp.ptrSize)
    ensures LaidOut(inp.sec.Table(), inp.sec.Gone(), inp.sec.Places(), inp.sec.size)
  {
    hide LaidOut;
    LayoutIsOrdered(inp.sec.Table(), inp.sec.Gone(), inp.ptrSize, inp.sec.Places());
  }

  lemma EntryInside(origin: map<Entry, Origin>, e: Entry, own: Entry?, g: Given)
    requires EntryFits(origin, e, own, g)
    ensures e.parsed.offset + e.parsed.size <= |g.was|
  {
  }

  // Every kept entry of input i is written, and now is what is in the output.
  ghost predicate Finished(link: Link, i: nat, g: Given, now: seq<Byte>)
    requires i < |link.inputs|
    reads link.inputs[i].sec, link.inputs[i].sec.entries, (set e | e in link.inputs[i].sec.entries :: e.cieInf)
  {
    var sec := link.inputs[i].sec;
    && HasWork(sec) && WorkList(sec, Works(sec)) && sec.size <= |now|
    && Written(Works(sec), sec.Gone(), g.out, |sec.entries|, BufferOf(g.was, sec.size), now)
  }

  // _bfd_elf_write_section_eh_frame for one input, in a buffer that is large enough.
  method WriteInput(link: Link, i: nat, g: Given) returns (contents: array<Byte>)
    requires link.table.Sound() && Collected(link) && i < |link.inputs| && link.DoneAt(i) && GivenFits(link, i, g)
             && AllKeptFit(link, i, g)
    ensures fresh(contents) && Finished(link, i, g, contents[..])
  {
    hide CieTable.Sound, Link.Apart, GivenFits, AllKeptFit, Done, Written, AllOk, WorkList, Movable, BufferOf,
         Works, HasWork;
    LinkHasWork(link, i, g);
    LinkIsMovable(link, i, g, |BufferOf(g.was, link.inputs[i].sec.size)|);
    contents := ToArray(BufferOf(g.was, link.inputs[i].sec.size));
    WriteSection(link.inputs[i].sec, contents, g.out, Works(link.inputs[i].sec));
  }

  method ToArray(s: seq<Byte>) returns (a: array<Byte>)
    ensures fresh(a) && a[..] == s
  {
    a := new Byte[|s|](i requires 0 <= i < |s| => s[i]);
  }

  // ---------- the output ----------

  // The new offsets of the kept entries of an input.
  ghost function KeptPlaces(sec: Section): seq<nat>
    requires HasWork(sec)
    reads sec, sec.entries, (set e | e in sec.entries :: e.cieInf)
  {
    KeptFrom(Works(sec), sec.Gone(), 0)
  }

  ghost predicate WalksKept(sec: Section, endian: Endian, now: seq<Byte>)
    reads sec, sec.entries, (set e | e in sec.entries :: e.cieInf)
  {
    HasWork(sec) && sec.size <= |now| && Walks(endian, now, 0, sec.size, KeptPlaces(sec))
  }

  // A reader that follows the length words of an edited section visits exactly the kept
  // entries, and ends at its new size.
  lemma InputWalks(link: Link, i: nat, g: Given, now: seq<Byte>)
    requires Collected(link) && i < |link.inputs| && link.DoneAt(i) && GivenFits(link, i, g)
             && Finished(link, i, g, now)
    requires link.inputs[i].sec.size < Power256(4)
    ensures WalksKept(link.inputs[i].sec, g.out.endian, now)
  {
    hide Link.Apart, EntryFits, WorkList, Written, CieTable.AllSifted, BufferOf, Power256, Walks, PlacedBy, InFileOrder;
    var sec := link.inputs[i].sec;
    WorksAreSmall(link.inputs[i]);
    ZeroWords(link, i, g);
    SectionIsWellFormed(sec, Works(sec), g.out, BufferOf(g.was, sec.size), now);
  }

  lemma WorksAreSmall(inp: Input)
    requires HasWork(inp.sec) && InFileOrder(inp.sec.Table()) && inp.sec.size < Power256(4)
    requires PlacedBy(inp.sec.Table(), inp.sec.Gone(), inp.sec.Places(), inp.sec.size, inp.ptrSize)
    ensures Small(Works(inp.sec), inp.sec.Gone())
  {
    hide InFileOrder, PlacedBy, Power256, NextOf, Linked, Works;
    forall k {:trigger Works(inp.sec)[k]} | 0 <= k < |inp.sec.entries| && !inp.sec.Gone()[k]
      ensures Works(inp.sec)[k].Room() - 4 < Power256(4)
    {
      assert Works(inp.sec)[k] == WorkAt(inp.sec, k);
      KeptRoom(inp, k);
    }
  }

  // Kept terminators are the zero words that they were.
  lemma ZeroWords(link: Link, i: nat, g: Given)
    requires i < |link.inputs| == |link.was| && HasWork(link.inputs[i].sec) && GivenFits(link, i, g)
    ensures ZeroTerminators(Works(link.inputs[i].sec), link.inputs[i].sec.Gone(),
                            BufferOf(g.was, link.inputs[i].sec.size), g.out.endian)
  {
    hide Linked, Works, BufferOf, EntryFits, NextOf;
    var sec := link.inputs[i].sec;
    var buf := BufferOf(g.was, sec.size);
    forall k {:trigger Works(sec)[k]} | 0 <= k < |sec.entries| && !sec.Gone()[k] && Works(sec)[k].NoWork?
      ensures Works(sec)[k].P().offset + 4 <= |buf| && ValueAt(g.out.endian, buf, Works(sec)[k].P().offset, 4) == 0
    {
      assert Works(sec)[k] == WorkAt(sec, k);
      ZeroWord(link.table.origin, sec.entries[k], link.was[i].cies[k], g);
      SameValue(g.out.endian, buf, sec.entries[k].parsed.offset, g.was, sec.entries[k].parsed.offset, 4);
    }
  }

  lemma ZeroWord(origin: map<Entry, Origin>, e: Entry, own: Entry?, g: Given)
    requires EntryFits(origin, e, own, g) && e.parsed.Terminator()
    ensures e.parsed.offset + 4 <= |g.was| && ValueAt(g.out.endian, g.was, e.parsed.offset, 4) == 0
  {
  }

  // The bytes of a kept entry in the output.
  lemma EntryIsThere(link: Link, i: nat, k: nat, g: Given, now: seq<Byte>)
    requires i < |link.inputs| == |link.was| && Finished(link, i, g, now) && k < |link.inputs[i].sec.entries|
    requires !link.inputs[i].sec.entries[k].removed && GivenFits(link, i, g)
    ensures var sec := link.inputs[i].sec;
            var e := sec.entries[k];
            && e.parsed.offset + e.parsed.size <= |g.was| && Linked(e) && e.newOffset <= NextOf(sec, k)
            && JobOk(WorkAt(sec, k), Original(g.was, e.parsed), g.out)
            && HasAt(now, e.newOffset, Edit(WorkAt(sec, k), Original(g.was, e.parsed), g.out))
  {
    hide JobOk, Edit, HasAt, Apart, EntryFits, BufferOf, WorkList;
    var sec := link.inputs[i].sec;
    EntryInside(link.table.origin, sec.entries[k], link.was[i].cies[k], g);
    BufferKeeps(g.was, sec.size, sec.entries[k].parsed);
    assert Works(sec)[k] == WorkAt(sec, k);
    WorkIs(sec, k);
  }

  // ---------- the whole link ----------

  // What goes into one output file has one byte order and address size.
  ghost predicate AllGiven(link: Link, gs: seq<Given>)
    requires |link.was| == |link.inputs|
  {
    && |gs| == |link.inputs|
    && (forall i: nat {:trigger gs[i]} :: i < |gs| ==> GivenFits(link, i, gs[i]))
    && (forall i: nat, j: nat {:trigger gs[i], gs[j]} :: i < |gs| && j < |gs| ==>
          && gs[i].out.endian == gs[j].out.endian && gs[i].out.ptrSize == gs[j].out.ptrSize
          && gs[i].out.relocatable == gs[j].out.relocatable)
  }

  ghost predicate AllFit(link: Link, gs: seq<Given>)
    requires |link.was| == |link.inputs| == |gs|
    reads link.Entries()
  {
    forall i: nat {:trigger gs[i]} :: i < |gs| ==> FitAt(link, i, gs[i])
  }

  ghost predicate FitAt(link: Link, i: nat, g: Given)
    requires i < |link.inputs| == |link.was|
    reads link.Entries()
  {
    assert forall e :: e in link.inputs[i].sec.entries ==> e in link.Entries();
    AllKeptFit(link, i, g)
  }

  // The link after both passes.
  ghost predicate AllFinished(link: Link, gs: seq<Given>, nows: seq<seq<Byte>>)
    requires |link.was| == |link.inputs|
    reads link.table`home, link.Sections(), link.Entries(), (set e | e in link.Entries() :: e.cieInf)
  {
    && AllGiven(link, gs) && |nows| == |gs|
    && (forall i: nat {:trigger link.DoneAt(i)} :: i < |link.inputs| ==> link.DoneAt(i))
    && (forall i: nat {:trigger gs[i]} :: i < |gs| ==> FinishedAt(link, i, gs[i], nows[i]))
  }

  ghost predicate FinishedAt(link: Link, i: nat, g: Given, now: seq<Byte>)
    requires i < |link.inputs|
    reads link.Sections(), link.Entries(), (set e | e in link.Entries() :: e.cieInf)
  {
    assert link.inputs[i].sec in link.Sections();
    assert forall e :: e in link.inputs[i].sec.entries ==> e in link.Entries();
    Finished(link, i, g, now)
  }

  // The write pass over every input, in the state that the discard pass leaves: each
  // output is a walkable `.eh_frame` of exactly the kept entries.
  method WriteLink(link: Link, gs: seq<Given>) returns (nows: seq<seq<Byte>>)
    requires link.table.Sound() && Collected(link) && link.Reached(|link.inputs|)
    requires AllGiven(link, gs) && AllFit(link, gs)
    ensures AllFinished(link, gs, nows)
    ensures forall i: nat {:trigger gs[i]} :: i < |gs| && link.inputs[i].sec.size < Power256(4) ==>
              WalksKept(link.inputs[i].sec, gs[i].out.endian, nows[i])
  {
    hide CieTable.Sound, Done, Link.Apart, GivenFits, AllKeptFit, Finished, Power256, WalksKept;
    nows := [];
    for n := 0 to |link.inputs|
      invariant |nows| == n && link.table.Sound()
      invariant forall i: nat {:trigger link.DoneAt(i)} :: i < |link.inputs| ==> link.DoneAt(i)
      invariant forall i: nat {:trigger gs[i]} :: i < n ==> Finished(link, i, gs[i], nows[i])
    {
      assert link.DoneAt(n) && old(FitAt(link, n, gs[n]));
      label Before:
      var contents := WriteInput(link, n, gs[n]);
      assert forall sec :: sec in link.Sections() ==> unchanged@Before(sec);
      assert forall e :: e in link.Entries() ==> unchanged@Before(e);
      assert forall i: nat {:trigger link.DoneAt(i)} :: i < |link.inputs| ==> old@Before(link.DoneAt(i));
      forall i: nat {:trigger gs[i]} | i < n ensures Finished(link, i, gs[i], nows[i]) {
        var sec := link.inputs[i].sec;
        assert old@Before(Finished(link, i, gs[i], nows[i]));
        assert unchanged@Before(sec) && forall e :: e in sec.entries ==> unchanged@Before(e);
        assert forall e :: e in sec.entries && e.cieInf != null ==> unchanged@Before(e.cieInf);
      }
      nows := nows + [contents[..]];
    }
    forall i: nat {:trigger gs[i]} | i < |gs| && link.inputs[i].sec.size < Power256(4)
      ensures WalksKept(link.inputs[i].sec, gs[i].out.endian, nows[i])
    {
      assert old(link.DoneAt(i));
      InputWalks(link, i, gs[i], nows[i]);
    }
  }
}
