// What a reader of the output finds: each kept CIE means what it meant, and so does each
// kept FDE, read through the CIE that its pointer leads to.

module EhFrameLinkMeans {
  import opened Bytes
  import opened EhFrame
  import opened EhFrameLayout
  import opened EhFrameMerge
  import opened EhFrameDiscard
  import opened EhFrameMove
  import opened EhFrameFde
  import opened EhFrameCie
  import opened EhFrameCfa
  import opened EhFrameCieParse
  import opened EhFrameCieKept
  import opened EhFrameCieReads
  import opened EhFrameFdeReads
  import opened EhFrameRecorded
  import opened EhFrameSame
  import opened EhFrameValues
  import opened EhFrameWrite
  import opened EhFrameLink

  // ---------- from an FDE to its CIE ----------

  // The CIE pointer of FDE k, as a reader of the output finds it, leads to entry m.
  ghost predicate LeadsTo(inp: Input, k: nat, now: seq<Byte>, its: Input, m: nat, endian: Endian)
    requires k < |inp.sec.entries| && m < |its.sec.entries|
    reads inp.sec, inp.sec.entries, its.sec, its.sec.entries
  {
    var f, c := inp.sec.entries[k], its.sec.entries[m];
    && its.sec.outputSection == inp.sec.outputSection && f.newOffset + 8 <= |now|
    && (inp.sec.outputOffset + f.newOffset + 4 - ValueAt(endian, now, f.newOffset + 4, 4)) % Power256(4)
       == (its.sec.outputOffset + c.newOffset) % Power256(4)
  }

  // The bytes of entry k, up to the next one, are those of its edit.
  ghost predicate IsThere(sec: Section, k: nat, g: Given, now: seq<Byte>)
    requires k < |sec.entries|
    reads sec, sec.entries, sec.entries[k].cieInf
  {
    var e := sec.entries[k];
    && Linked(e) && e.newOffset <= NextOf(sec, k) <= |now| && e.parsed.offset + e.parsed.size <= |g.was|
    && JobOk(WorkAt(sec, k), Original(g.was, e.parsed), g.out)
    && now[e.newOffset..NextOf(sec, k)] == Edit(WorkAt(sec, k), Original(g.was, e.parsed), g.out)
  }

  lemma KeptIsThere(link: Link, i: nat, k: nat, g: Given, now: seq<Byte>)
    requires i < |link.inputs| == |link.was| && link.DoneAt(i) && FinishedAt(link, i, g, now)
    requires GivenFits(link, i, g) && k < |link.inputs[i].sec.entries|
    requires !link.inputs[i].sec.entries[k].removed && !link.inputs[i].sec.entries[k].parsed.Terminator()
    ensures IsThere(link.inputs[i].sec, k, g, now)
  {
    hide JobOk, Edit, EntryFits, InFileOrder, PlacedBy, CieTable.AllSifted, NextOf;
    EntryIsThere(link, i, k, g, now);
    KeptRoom(link.inputs[i], k);
  }

  // Each kept FDE's CIE pointer leads to a kept CIE in the same output section: the one
  // it had, or one that cie_eq takes for equal.
  lemma FdeLeadsToCie(link: Link, i: nat, k: nat, gs: seq<Given>, nows: seq<seq<Byte>>) returns (o: nat, m: nat)
    requires link.table.Sound() && Collected(link) && AllFinished(link, gs, nows)
    requires i < |gs| && k < |link.inputs[i].sec.entries|
    requires var f := link.inputs[i].sec.entries[k]; f.parsed.Fde? && !f.parsed.Terminator() && !f.removed
    ensures o < |gs| && m < |link.inputs[o].sec.entries|
    ensures var c := link.inputs[o].sec.entries[m];
            c == link.inputs[i].sec.entries[k].cieInf && c.parsed.Cie? && !c.removed
    ensures LeadsTo(link.inputs[i], k, nows[i], link.inputs[o], m, gs[i].out.endian)
    ensures IsThere(link.inputs[i].sec, k, gs[i], nows[i]) && IsThere(link.inputs[o].sec, m, gs[o], nows[o])
  {
    hide CieTable.Sound, Link.DoneAt, FinishedAt, JobOk, Edit, NextOf, Link.Apart, Power256, EntryFits, IsThere,
         LeadsTo;
    assert link.DoneAt(i);
    o := KeptFde(link, i, k);
    var c := link.inputs[i].sec.entries[k].cieInf;
    m :| 0 <= m < |link.inputs[o].sec.entries| && link.inputs[o].sec.entries[m] == c;
    assert link.DoneAt(o);
    CieIsNoTerminator(link, o, m);
    KeptIsThere(link, o, m, gs[o], nows[o]);
    KeptIsThere(link, i, k, gs[i], nows[i]);
    PointerIsThere(link.inputs[i], k, gs[i], nows[i], link.inputs[o], m);
  }

  lemma CieIsNoTerminator(link: Link, o: nat, m: nat)
    requires o < |link.inputs| == |link.was| && link.DoneAt(o) && m < |link.inputs[o].sec.entries|
    requires link.inputs[o].sec.entries[m].parsed.Cie?
    ensures !link.inputs[o].sec.entries[m].parsed.Terminator()
  {
    hide PlacedBy, CieTable.AllSifted;
    assert link.inputs[o].sec.Table()[m].WellFormed();
  }

  lemma PointerIsThere(inp: Input, k: nat, g: Given, now: seq<Byte>, its: Input, m: nat)
    requires k < |inp.sec.entries| && m < |its.sec.entries| && g.out.outputOffset == inp.sec.outputOffset
    requires var f := inp.sec.entries[k];
             f.parsed.Fde? && !f.parsed.Terminator() && !f.removed && f.cieInf == its.sec.entries[m]
    requires its.sec.entries[m].link == InSection(its.sec) && its.sec.outputSection == inp.sec.outputSection
    requires IsThere(inp.sec, k, g, now)
    ensures LeadsTo(inp, k, now, its, m, g.out.endian)
  {
    hide EditFde, Power256, NextOf;
    var f := inp.sec.entries[k];
    var job := WorkAt(inp.sec, k).fde;
    var b := PaddedTo(Original(g.was, f.parsed), job.newSize);
    FdePointsToCie(b, job, g.out);
    PointerInside(g.out.endian, now, f.newOffset, EditFde(b, job, g.out));
  }

  lemma PointerInside(e: Endian, now: seq<Byte>, at: nat, r: seq<Byte>)
    requires 8 <= |r| && at + |r| <= |now| && now[at..at + |r|] == r
    ensures at + 8 <= |now| && ValueAt(e, now, at + 4, 4) == ValueAt(e, r, 4, 4)
  {
    assert forall j {:trigger r[j]} :: 0 <= j < |r| ==> r[j] == now[at..at + |r|][j] == now[at + j];
    SameValue(e, r, 4, now, at + 4, 4);
  }

  // ---------- a kept CIE ----------

  // b, at base in its section, is parsed as CIE h with the instructions xs.
  predicate ReadsAs(b: seq<Byte>, base: nat, ptrSize: PtrSize, h: CieShape, w: nat, xs: seq<nat>) {
    && 9 <= |b| && ParseCie(b, |b|, base, ptrSize) == Some(h)
    && h.seen.at <= |b| && Instructions(b, h.seen.at, |b|, w) == Some(xs)
  }

  // The personality pointer of CIE b, at was, has the target of that of r, at now.
  predicate SamePersonality(b: seq<Byte>, h: CieShape, was: int, r: seq<Byte>, g: CieShape, now: int, out: Output) {
    var i, j, n := h.seen.pointer, g.seen.pointer, EncodedWidth(h.seen.per, out.ptrSize);
    var start := out.vma + out.outputOffset;
    && EncodedWidth(g.seen.per, out.ptrSize) == n && i + n <= |b| && j + n <= |r|
    && Target(Application(g.seen.per), ValueAt(out.endian, r, j, n), start + now + j) % Power256(n)
       == Target(Application(h.seen.per), ValueAt(out.endian, b, i, n), start + was + i) % Power256(n)
  }

  lemma MeansTheSame(job: CieJob, o: Origin, b: seq<Byte>, out: Output, h: CieShape, w: nat, xs: seq<nat>)
    requires Doable(job, o, b, out.ptrSize, out.relocatable) && Handled(job, b, h, out.ptrSize)
    requires ReadsAs(b, job.p.offset, out.ptrSize, h, w, xs)
    ensures JobOk(CieWork(job), b, out)
    ensures ReadsAs(Edit(CieWork(job), b, out), job.newOffset, out.ptrSize,
                    EditedShape(h, job, out.ptrSize), w, ShiftedBy(xs, job.p.Extra()))
  {
    hide ParseCie, CanEdit, Keeps, Instructions, EditedShape, EditCie, Walkable, Framed, ShiftedBy, CieFits, FlagsRight;
    var c := PaddedTo(b, job.newSize);
    HandledIsKept(job, o, b, h, out.ptrSize, out.relocatable);
    InstructionsCarried(b, h.seen.at, job.p.size, w, xs, c, 0, job.p.size);
    SameAtZero(xs);
    CieReadsTheSame(c, job, out, h, w, xs);
  }

  lemma PersonalityMeans(job: CieJob, o: Origin, b: seq<Byte>, out: Output, h: CieShape)
    requires Doable(job, o, b, out.ptrSize, out.relocatable) && Handled(job, b, h, out.ptrSize)
    requires ParseCie(b, job.p.size, job.p.offset, out.ptrSize) == Some(h)
    requires !out.relocatable && LETTER_P in h.letters
    ensures JobOk(CieWork(job), b, out)
    ensures SamePersonality(b, h, job.p.offset, Edit(CieWork(job), b, out), EditedShape(h, job, out.ptrSize),
                            job.newOffset, out)
  {
    hide ParseCie, CanEdit, Keeps, EditCie, Walkable, Framed, Power256, EncodedWidth, ValueAt, MakePcRelative,
         EditedLetters, Application;
    var c := PaddedTo(b, job.newSize);
    HandledIsKept(job, o, b, h, out.ptrSize, out.relocatable);
    PersonalityKept(c, job, out, h);
    ShapeSays(b, job.p.size, job.p.offset, out.ptrSize, h);
    var k := EncodedWidth(h.seen.per, out.ptrSize);
    SameValue(out.endian, b, h.seen.pointer, c, h.seen.pointer, k);
    if job.makePerRelative {
      PcRelativeKeepsWidth(h.seen.per, out.ptrSize);
    }
  }

  // A kept CIE's bytes in the output, up to the next entry, are parsed as what it was,
  // with the new letters and encodings, the same instructions and the same personality.
  lemma CieMeansTheSame(link: Link, i: nat, k: nat, g: Given, now: seq<Byte>, h: CieShape, w: nat, xs: seq<nat>)
    requires link.table.Sound() && Collected(link) && i < |link.inputs| && link.DoneAt(i)
             && k < |link.inputs[i].sec.entries|
    requires GivenFits(link, i, g) && AllKeptFit(link, i, g) && FinishedAt(link, i, g, now)
    requires var e := link.inputs[i].sec.entries[k];
             && e.parsed.Cie? && !e.removed && e.parsed.offset + e.parsed.size <= |g.was|
             && ReadsAs(Original(g.was, e.parsed), e.parsed.offset, g.out.ptrSize, h, w, xs)
             && Handled(Asked(e), Original(g.was, e.parsed), h, g.out.ptrSize)
    ensures CieMeans(link.inputs[i].sec, k, g, now, h, w, xs)
  {
    hide CieTable.Sound, Link.Apart, CieTable.AllSifted, PlacedBy, InFileOrder, FinishedAt, EntryFits, Handled,
         NextOf, FlagsRight, JobOk, AllKeptFit, ReadsAs, EditedShape, Doable, SamePersonality, Edit, ShiftedBy;
    var sec, e := link.inputs[i].sec, link.inputs[i].sec.entries[k];
    var h' := KeptCieWork(link, i, k, g);
    CieIsNoTerminator(link, i, k);
    KeptIsThere(link, i, k, g, now);
    var b := Original(g.was, e.parsed);
    AskedIs(sec, k, b, h, g.out.ptrSize);
    MeansTheSame(WorkAt(sec, k).cie, link.table.origin[e], b, g.out, h, w, xs);
    if !g.out.relocatable && LETTER_P in h.letters {
      ReadsAsShape(b, e.parsed.offset, g.out.ptrSize, h, w, xs);
      PersonalityMeans(WorkAt(sec, k).cie, link.table.origin[e], b, g.out, h);
    }
  }

  lemma ReadsAsShape(b: seq<Byte>, base: nat, ptrSize: PtrSize, h: CieShape, w: nat, xs: seq<nat>)
    requires ReadsAs(b, base, ptrSize, h, w, xs)
    ensures 9 <= |b| && ParseCie(b, |b|, base, ptrSize) == Some(h)
  {
    hide ParseCie, Instructions;
  }

  ghost predicate CieMeans(sec: Section, k: nat, g: Given, now: seq<Byte>, h: CieShape, w: nat, xs: seq<nat>)
    requires k < |sec.entries|
    reads sec, sec.entries, sec.entries[k].cieInf
  {
    var e := sec.entries[k];
    && Linked(e) && e.newOffset <= NextOf(sec, k) <= |now| && WorkAt(sec, k).CieWork?
    && e.parsed.offset + e.parsed.size <= |g.was| && WorkAt(sec, k).cie.p == e.parsed
    && var r, its := now[e.newOffset..NextOf(sec, k)], EditedShape(h, WorkAt(sec, k).cie, g.out.ptrSize);
       && ReadsAs(r, e.newOffset, g.out.ptrSize, its, w, ShiftedBy(xs, e.parsed.Extra()))
       && (!g.out.relocatable && LETTER_P in h.letters ==>
             SamePersonality(Original(g.was, e.parsed), h, e.parsed.offset, r, its, e.newOffset, g.out))
  }

  // ---------- a kept FDE ----------

  // What the parser finds in FDE p of these contents, through the CIE own: h and s, with
  // the instructions xs.
  predicate FdeReadsAs(p: Parsed, own: Parsed, g: Given, h: CieShape, s: FdeShape, xs: seq<nat>) {
    && CieParsedAs(own, g, h) && FdeParsedAs(p, g, h, s) && s.insns <= p.size
    && Instructions(Original(g.was, p), s.insns, p.size, s.width) == Some(xs)
  }

  // What is in the output means the same, read through the CIE room that is at base.
  predicate StillMeans(b: seq<Byte>, job: FdeJob, out: Output, h: CieShape, s: FdeShape, xs: seq<nat>, r: seq<Byte>,
                       room: seq<Byte>, base: nat) {
    && |b| <= job.newSize && 9 <= |room|
    && var read := ParseCie(room, |room|, base, out.ptrSize);
       read.Some? && SameFde(PaddedTo(b, job.newSize), job, out, h, read.value, s, xs, r)
  }

  // FDE k, read through CIE m of the output, means what it meant when it was read
  // through its own CIE.
  ghost predicate FdeMeans(sec: Section, k: nat, own: Parsed, g: Given, now: seq<Byte>,
                           its: Section, m: nat, now': seq<Byte>, h: CieShape, s: FdeShape, xs: seq<nat>)
    requires k < |sec.entries| && m < |its.entries|
    reads sec, sec.entries, sec.entries[k].cieInf, its, its.entries
  {
    var f, c := sec.entries[k], its.entries[m];
    && FdeReadsAs(f.parsed, own, g, h, s, xs)
    && Linked(f) && f.newOffset <= NextOf(sec, k) <= |now| && c.newOffset <= NextOf(its, m) <= |now'|
    && WorkAt(sec, k).FdeWork?
    && StillMeans(Original(g.was, f.parsed), WorkAt(sec, k).fde, g.out, h, s, xs, now[f.newOffset..NextOf(sec, k)],
                  now'[c.newOffset..NextOf(its, m)], c.newOffset)
    && own.offset + own.size <= |g.was| && StillUnwinds(Original(g.was, own), h, its, m, now', g.out.ptrSize)
  }

  // And what is read there unwinds as the FDE's own CIE did.
  ghost predicate StillUnwinds(b: seq<Byte>, h: CieShape, sec: Section, m: nat, now: seq<Byte>, ptrSize: PtrSize)
    requires m < |sec.entries|
    reads sec, sec.entries
  {
    var c := sec.entries[m];
    && c.newOffset + 9 <= NextOf(sec, m) <= |now|
    && var room := now[c.newOffset..NextOf(sec, m)];
       var read := ParseCie(room, |room|, c.newOffset, ptrSize);
       read.Some? && UnwindsAt(b, h, sec, m, now, read.value, ptrSize)
  }

  // The CIE that stands for own was converted as own would have been.
  lemma SameConversions(link: Link, i: nat, own: Entry, g: Given, h: CieShape,
                        o: nat, c: Entry, g': Given, h': CieShape)
    requires Collected(link) && i < |link.inputs| && o < |link.inputs| && (i == o ==> g == g')
    requires InInput(link, own, i) && InInput(link, c, o) && own.parsed.Cie? && c.parsed.Cie?
    requires g.out.ptrSize == g'.out.ptrSize && g.out.relocatable == g'.out.relocatable
    requires StandsFor(link.table.origin[c], link.table.origin[own], c == own)
    requires CieParsedAs(own.parsed, g, h) && CieParsedAs(c.parsed, g', h')
    requires CieFits(own.parsed, link.table.origin[own], Original(g.was, own.parsed), g.out.ptrSize, g.out.relocatable)
    requires CieFits(c.parsed, link.table.origin[c], Original(g'.was, c.parsed), g.out.ptrSize, g.out.relocatable)
    ensures h'.letters == h.letters && h'.seen.lsda == h.seen.lsda && h'.seen.fde == h.seen.fde
    ensures c.parsed.makeRelative == own.parsed.makeRelative && c.parsed.addFdeEncoding == own.parsed.addFdeEncoding
    ensures c.parsed.addAugmentationSize == own.parsed.addAugmentationSize
  {
    hide ParseCie, CieFits, EntryFits, Origin.Key, Origin.Ok, CieEq;
    if c != own {
      EqualConversions(own.parsed, link.table.origin[own], Original(g.was, own.parsed), h,
                       c.parsed, link.table.origin[c], Original(g'.was, c.parsed), h',
                       g.out.ptrSize, g.out.relocatable);
    }
  }

  // So an FDE of own fits the edited CIE.
  lemma EditedIsConverted(job: CieJob, h': CieShape, own: Parsed, h: CieShape, ptrSize: PtrSize)
    requires job.p.Cie? && own.Cie? && job.Ok() && (job.p.addAugmentationSize ==> h'.letters == [])
    requires job.p.addFdeEncoding && h'.letters == [] ==> job.p.addAugmentationSize
    requires h'.letters == h.letters && h'.seen.lsda == h.seen.lsda && h'.seen.fde == h.seen.fde
    requires job.p.makeRelative == own.makeRelative && job.p.addFdeEncoding == own.addFdeEncoding
    requires job.p.addAugmentationSize == own.addAugmentationSize
    ensures CieConverted(h, EditedShape(h', job, ptrSize), own, job.lsdaRelative, ptrSize)
  {
    hide EditedLetters, MakePcRelative;
    RestOfEdited(h', job.p);
  }

  // What the output's CIE is parsed as.
  lemma CieIsConverted(job: CieJob, o: Origin, b: seq<Byte>, out: Output, h': CieShape)
    requires Doable(job, o, b, out.ptrSize, out.relocatable) && Handled(job, b, h', out.ptrSize)
    requires ParseCie(b, job.p.size, job.p.offset, out.ptrSize) == Some(h')
    ensures JobOk(CieWork(job), b, out) && job.Ok() && 9 <= job.newSize
    ensures ParseCie(Edit(CieWork(job), b, out), job.newSize, job.newOffset, out.ptrSize)
            == Some(EditedShape(h', job, out.ptrSize))
    ensures job.p.addAugmentationSize ==> h'.letters == []
    ensures job.p.addFdeEncoding && h'.letters == [] ==> job.p.addAugmentationSize
  {
    hide ParseCie, CanEdit, Keeps, EditedShape, EditCie, Walkable, Framed, FlagsRight, EncodingsOf, Asks;
    HandledIsKept(job, o, b, h', out.ptrSize, out.relocatable);
    CieParsesTheSame(PaddedTo(b, job.newSize), job, out, h');
    RecordedIsOk(job, o, h', EncodingsOf(b, h', job.p.size, job.p.offset, out.ptrSize), out.ptrSize, out.relocatable);
  }

  // What is asked of the CIE that FDE k uses: that its edit keeps what it means.
  ghost predicate CieHandled(c: Entry, g: Given)
    reads c
  {
    forall h {:trigger CieParsedAs(c.parsed, g, h)} :: CieParsedAs(c.parsed, g, h) ==>
      c.parsed.Cie? && Handled(Asked(c), Original(g.was, c.parsed), h, g.out.ptrSize)
  }

  // A reader of the output finds at entry m the CIE h with the conversions of own.
  ghost predicate IsConverted(sec: Section, m: nat, now: seq<Byte>, own: Parsed, h: CieShape, read: CieShape,
                              ptrSize: PtrSize)
    requires m < |sec.entries| && own.Cie?
    reads sec, sec.entries
  {
    var c := sec.entries[m];
    && c.newOffset + 9 <= NextOf(sec, m) <= |now|
    && ParseCie(now[c.newOffset..NextOf(sec, m)], NextOf(sec, m) - c.newOffset, c.newOffset, ptrSize) == Some(read)
    && CieConverted(h, read, own, c.makeLsdaRelative, ptrSize)
  }

  ghost predicate StandsIn(origin: map<Entry, Origin>, c: Entry, own: Entry) {
    c in origin && own in origin && StandsFor(origin[c], origin[own], c == own)
  }

  ghost predicate OwnFits(origin: map<Entry, Origin>, own: Entry, g: Given, h: CieShape) {
    && own in origin && own.parsed.Cie? && CieParsedAs(own.parsed, g, h)
    && CieFits(own.parsed, origin[own], Original(g.was, own.parsed), g.out.ptrSize, g.out.relocatable)
  }

  // What a reader of the output finds at entry m unwinds as the CIE b, read as h.
  ghost predicate UnwindsAt(b: seq<Byte>, h: CieShape, sec: Section, m: nat, now: seq<Byte>, read: CieShape,
                            ptrSize: PtrSize)
    requires m < |sec.entries|
    reads sec, sec.entries
  {
    var c := sec.entries[m];
    && c.newOffset <= NextOf(sec, m) <= |now| && read.seen.at <= c.parsed.size + c.parsed.Extra()
    && Unwinds(b, h, now[c.newOffset..NextOf(sec, m)], read, c.parsed.size + c.parsed.Extra() - read.seen.at, ptrSize)
  }

  // The CIE that stands for own says what own says.
  lemma SaysTheSame(own: Known, c: Known, out: Output, same: bool)
    requires own.Fits(out.ptrSize, out.relocatable) && c.Fits(out.ptrSize, out.relocatable)
    requires StandsFor(c.o, own.o, same) && (same ==> c == own)
    ensures SameValues(own, c, out.ptrSize)
    ensures |own.Insns()| < 0x100 && |c.Insns()| < 0x100 ==> own.Insns() == c.Insns()
  {
    hide Known.Fits, CieEq, Origin.Key, Origin.Ok, FactorsOf, SizeOf;
    if !same {
      EqualMeans(c, own, out.ptrSize, out.relocatable);
    }
  }

  lemma CieUnwinds(sec: Section, m: nat, own: Known, c: Known, out: Output, now: seq<Byte>)
    requires m < |sec.entries| && Linked(sec.entries[m]) && sec.entries[m].newOffset <= NextOf(sec, m) <= |now|
    requires WorkAt(sec, m).CieWork? && own.Fits(out.ptrSize, out.relocatable) && c.Fits(out.ptrSize, out.relocatable)
    requires SameValues(own, c, out.ptrSize)
    requires |own.Insns()| < 0x100 && |c.Insns()| < 0x100 ==> own.Insns() == c.Insns()
    requires var job := WorkAt(sec, m).cie;
             && job.p == c.p == sec.entries[m].parsed && Doable(job, c.o, c.b, out.ptrSize, out.relocatable)
             && Handled(job, c.b, c.h, out.ptrSize) && JobOk(CieWork(job), c.b, out)
             && now[sec.entries[m].newOffset..NextOf(sec, m)] == Edit(CieWork(job), c.b, out)
    ensures UnwindsAt(own.b, own.h, sec, m, now, EditedShape(c.h, WorkAt(sec, m).cie, out.ptrSize), out.ptrSize)
  {
    hide NextOf, JobOk, Edit, ParseCie, CieFits, Handled, Doable, Unwinds, SameValues, EditedLetters, Parsed.Extra;
    var job := WorkAt(sec, m).cie;
    EditUnwinds(job, c.o, c.b, out, c.h);
    UnwindsThrough(own, c, Edit(CieWork(job), c.b, out), EditedShape(c.h, job, out.ptrSize), out.ptrSize);
  }

  // Entry m of input o stands for own, which is in input i, and is in the output as now.
  ghost predicate InFor(link: Link, i: nat, own: Entry, gs: seq<Given>, h: CieShape, o: nat, m: nat, now: seq<Byte>)
    requires |link.was| == |link.inputs| && o < |link.inputs| && m < |link.inputs[o].sec.entries|
    reads link.inputs[o].sec, link.inputs[o].sec.entries, link.inputs[o].sec.entries[m].cieInf
  {
    && AllGiven(link, gs) && i < |gs| && (link.inputs[o].sec.entries[m] == own ==> i == o)
    && InInput(link, own, i) && own.parsed.Cie? && OwnFits(link.table.origin, own, gs[i], h)
    && var c := link.inputs[o].sec.entries[m];
       && c.parsed.Cie? && !c.removed && CieHandled(c, gs[o]) && StandsIn(link.table.origin, c, own)
       && IsThere(link.inputs[o].sec, m, gs[o], now)
  }

  // What is known of two CIEs of which one stands for the other.
  lemma BothFit(origin: map<Entry, Origin>, own: Entry, g: Given, h: CieShape, c: Entry, g': Given, h': CieShape)
    requires OwnFits(origin, own, g, h) && OwnFits(origin, c, g', h') && StandsIn(origin, c, own)
    requires g.out.ptrSize == g'.out.ptrSize && g.out.relocatable == g'.out.relocatable
    ensures KnownOf(origin, own, g, h).Fits(g'.out.ptrSize, g'.out.relocatable)
    ensures KnownOf(origin, c, g', h').Fits(g'.out.ptrSize, g'.out.relocatable)
  {
    hide CieFits, Origin.Key, Origin.Ok, CieEq, ParseCie;
    KnownFits(KnownOf(origin, own, g, h), g'.out);
    KnownFits(KnownOf(origin, c, g', h'), g'.out);
  }

  ghost function KnownOf(origin: map<Entry, Origin>, e: Entry, g: Given, h: CieShape): Known
    requires e in origin && e.parsed.offset + e.parsed.size <= |g.was|
  {
    Known(e.parsed, origin[e], Original(g.was, e.parsed), h)
  }

  lemma TheirUnwinds(link: Link, i: nat, own: Entry, gs: seq<Given>, h: CieShape, o: nat, m: nat, now: seq<Byte>,
                     h': CieShape)
    requires |link.was| == |link.inputs| && o < |link.inputs| && m < |link.inputs[o].sec.entries|
    requires InFor(link, i, own, gs, h, o, m, now)
    requires CieWorkFits(link.table.origin, link.inputs[o].sec, m, gs[o], h')
    ensures UnwindsAt(Original(gs[i].was, own.parsed), h, link.inputs[o].sec, m, now,
                      EditedShape(h', WorkAt(link.inputs[o].sec, m).cie, gs[o].out.ptrSize), gs[o].out.ptrSize)
  {
    hide GivenFits, NextOf, JobOk, Edit, ParseCie, CieFits, Handled, UnwindsAt, EditedShape, Doable, Known.Fits,
         Origin.Key, Origin.Ok, CieEq, SameValues, Known.Insns;
    var sec, c := link.inputs[o].sec, link.inputs[o].sec.entries[m];
    var b, job := Original(gs[o].was, c.parsed), WorkAt(sec, m).cie;
    AskedIs(sec, m, b, h', gs[o].out.ptrSize);
    DoableFits(job, link.table.origin[c], b, gs[o].out);
    BothFit(link.table.origin, own, gs[i], h, c, gs[o], h');
    var x, y := KnownOf(link.table.origin, own, gs[i], h), KnownOf(link.table.origin, c, gs[o], h');
    SaysTheSame(x, y, gs[o].out, c == own);
    CieUnwinds(sec, m, x, y, gs[o].out, now);
  }

  // A CIE is in one input only.
  lemma OneInput(link: Link, own: Entry, i: nat, o: nat, m: nat)
    requires Collected(link) && InInput(link, own, i) && o < |link.inputs| && m < |link.inputs[o].sec.entries|
    requires own.parsed.Cie? && m < |link.was[o].cies|
    ensures link.inputs[o].sec.entries[m] == own ==> i == o
  {
  }

  // The CIE at entry m of input o, as a reader of the output finds it, is that of own
  // with the conversions that the FDE has been through, and unwinds as own did.
  lemma TheirCie(link: Link, i: nat, own: Entry, gs: seq<Given>, h: CieShape, o: nat, m: nat, now: seq<Byte>)
    returns (read: CieShape)
    requires link.table.Sound() && Collected(link) && AllGiven(link, gs) && i < |gs| && o < |gs|
    requires link.DoneAt(o) && FitAt(link, o, gs[o]) && m < |link.inputs[o].sec.entries|
    requires InFor(link, i, own, gs, h, o, m, now)
    ensures IsConverted(link.inputs[o].sec, m, now, own.parsed, h, read, gs[o].out.ptrSize)
    ensures UnwindsAt(Original(gs[i].was, own.parsed), h, link.inputs[o].sec, m, now, read, gs[o].out.ptrSize)
  {
    hide CieTable.Sound, Link.DoneAt, GivenFits, NextOf, JobOk, Edit, ParseCie, CieFits, Handled, AllKeptFit, StandsFor,
         EditedShape, CieConverted, Doable, Link.Apart, UnwindsAt;
    var sec, c := link.inputs[o].sec, link.inputs[o].sec.entries[m];
    var h' := KeptCieWork(link, o, m, gs[o]);
    var b, job := Original(gs[o].was, c.parsed), WorkAt(sec, m).cie;
    AskedIs(sec, m, b, h', gs[o].out.ptrSize);
    DoableFits(job, link.table.origin[c], b, gs[o].out);
    EntryIsFit(link, o, m, gs[o]);
    SameConversions(link, i, own, gs[i], h, o, c, gs[o], h');
    CieIsConverted(job, link.table.origin[c], b, gs[o].out, h');
    EditedIsConverted(job, h', own.parsed, h, gs[o].out.ptrSize);
    read := EditedShape(h', job, gs[o].out.ptrSize);
    TheirUnwinds(link, i, own, gs, h, o, m, now, h');
  }

  lemma KnownFits(x: Known, out: Output)
    requires x.p.Cie? && |x.b| == x.p.size && x.o.Ok() && CieFits(x.p, x.o, x.b, out.ptrSize, out.relocatable)
    requires ParseCie(x.b, x.p.size, x.p.offset, out.ptrSize) == Some(x.h)
    ensures x.Fits(out.ptrSize, out.relocatable)
  {
    hide ParseCie, Records, RecordsValues;
    ShapeSays(x.b, x.p.size, x.p.offset, out.ptrSize, x.h);
  }

  lemma DoableFits(job: CieJob, o: Origin, b: seq<Byte>, out: Output)
    requires Doable(job, o, b, out.ptrSize, out.relocatable)
    ensures job.p.Cie? && |b| == job.p.size && CieFits(job.p, o, b, out.ptrSize, out.relocatable)
  {
    hide CieFits;
  }

  // What is read of FDE k of input i, through entry m of input o, and what it was.
  ghost predicate ReadThrough(link: Link, i: nat, k: nat, gs: seq<Given>, o: nat, m: nat, now: seq<Byte>,
                              h: CieShape, s: FdeShape, xs: seq<nat>, read: CieShape)
    requires i < |link.inputs| == |link.was| && o < |link.inputs| && |gs| == |link.inputs|
    requires k < |link.inputs[i].sec.entries| && m < |link.inputs[o].sec.entries|
    reads link.inputs[i].sec, link.inputs[i].sec.entries, link.inputs[i].sec.entries[k].cieInf
    reads link.inputs[o].sec, link.inputs[o].sec.entries
  {
    && k < |link.was[i].cies| && link.was[i].cies[k] != null
    && var own := link.was[i].cies[k].parsed;
       && own.Cie? && own.offset + own.size <= |gs[i].was|
       && FdeWorkFits(link.inputs[i].sec, k, own, gs[i], h, s, xs)
       && IsConverted(link.inputs[o].sec, m, now, own, h, read, gs[o].out.ptrSize)
       && UnwindsAt(Original(gs[i].was, own), h, link.inputs[o].sec, m, now, read, gs[o].out.ptrSize)
  }

  lemma FdeIsReadThrough(link: Link, i: nat, k: nat, gs: seq<Given>, nows: seq<seq<Byte>>, o: nat, m: nat)
    returns (h: CieShape, s: FdeShape, xs: seq<nat>, read: CieShape)
    requires link.table.Sound() && Collected(link) && AllFinished(link, gs, nows) && AllFit(link, gs)
    requires i < |gs| && k < |link.inputs[i].sec.entries| && o < |gs| && m < |link.inputs[o].sec.entries|
    requires var f, c := link.inputs[i].sec.entries[k], link.inputs[o].sec.entries[m];
             && f.parsed.Fde? && !f.parsed.Terminator() && !f.removed && c == f.cieInf && CieHandled(c, gs[o])
    ensures ReadThrough(link, i, k, gs, o, m, nows[o], h, s, xs, read)
  {
    hide CieTable.Sound, Link.DoneAt, GivenFits, NextOf, JobOk, Edit, ParseCie, CieFits, AllKeptFit, StandsFor,
         CieConverted, Link.Apart, FinishedAt, IsThere, CieHandled, FdeKnown, UnwindsAt, IsConverted, FdeWorkFits;
    assert link.DoneAt(i) && link.DoneAt(o) && FitAt(link, i, gs[i]) && FitAt(link, o, gs[o]);
    var o' := KeptFde(link, i, k);
    h, s, xs := KeptFdeWork(link, i, k, gs[i]);
    var own, c := link.was[i].cies[k], link.inputs[o].sec.entries[m];
    WorkParsed(link.inputs[i].sec, k, own.parsed, gs[i], h, s, xs);
    OwnConverts(link, i, own, c, gs[i], h);
    CieIsNoTerminator(link, o, m);
    KeptIsThere(link, o, m, gs[o], nows[o]);
    EntryIsFit(link, o, m, gs[o]);
    OneInput(link, own, i, o, m);
    read := TheirCie(link, i, own, gs, h, o, m, nows[o]);
  }

  lemma WorkParsed(sec: Section, k: nat, own: Parsed, g: Given, h: CieShape, s: FdeShape, xs: seq<nat>)
    requires k < |sec.entries| && FdeWorkFits(sec, k, own, g, h, s, xs)
    ensures CieParsedAs(own, g, h)
  {
    hide NextOf, FdeKnown, ParseCie, ParseFde;
  }

  lemma FdeMeansThrough(link: Link, i: nat, k: nat, gs: seq<Given>, nows: seq<seq<Byte>>, o: nat, m: nat)
    returns (h: CieShape, s: FdeShape, xs: seq<nat>)
    requires link.table.Sound() && Collected(link) && AllFinished(link, gs, nows) && AllFit(link, gs)
    requires i < |gs| && k < |link.inputs[i].sec.entries| && o < |gs| && m < |link.inputs[o].sec.entries|
    requires var f, c := link.inputs[i].sec.entries[k], link.inputs[o].sec.entries[m];
             && f.parsed.Fde? && !f.parsed.Terminator() && !f.removed && c == f.cieInf
             && !gs[i].out.relocatable && CieHandled(c, gs[o])
    requires k < |link.was[i].cies| && link.was[i].cies[k] != null ==>
               FdeIsHandled(link.inputs[i].sec.entries[k].parsed, link.was[i].cies[k].parsed, gs[i])
    ensures k < |link.was[i].cies| && link.was[i].cies[k] != null
    ensures FdeMeans(link.inputs[i].sec, k, link.was[i].cies[k].parsed, gs[i], nows[i],
                     link.inputs[o].sec, m, nows[o], h, s, xs)
  {
    hide CieTable.Sound, Link.DoneAt, GivenFits, NextOf, AllFit, FinishedAt, IsThere, CieHandled, FdeMeans,
         FdeIsHandled, FdeWorkFits, IsConverted, UnwindsAt;
    assert link.DoneAt(i);
    var read;
    h, s, xs, read := FdeIsReadThrough(link, i, k, gs, nows, o, m);
    KeptIsThere(link, i, k, gs[i], nows[i]);
    FdeIsRead(link.inputs[i].sec, k, link.was[i].cies[k].parsed, gs[i], nows[i], link.inputs[o].sec, m, nows[o],
              h, s, xs, read);
  }

  lemma FdeIsRead(sec: Section, k: nat, own: Parsed, g: Given, now: seq<Byte>, its: Section, m: nat, now': seq<Byte>,
                  h: CieShape, s: FdeShape, xs: seq<nat>, read: CieShape)
    requires k < |sec.entries| && m < |its.entries| && FdeWorkFits(sec, k, own, g, h, s, xs) && IsThere(sec, k, g, now)
    requires !sec.entries[k].removed && sec.entries[k].cieInf == its.entries[m] && !g.out.relocatable && own.Cie?
    requires IsConverted(its, m, now', own, h, read, g.out.ptrSize) && FdeIsHandled(sec.entries[k].parsed, own, g)
    requires own.offset + own.size <= |g.was| && UnwindsAt(Original(g.was, own), h, its, m, now', read, g.out.ptrSize)
    ensures FdeMeans(sec, k, own, g, now, its, m, now', h, s, xs)
  {
    hide NextOf, ParseCie, FdeKnown, FdeHandled, CieConverted, SameFde, Instructions, ParseFde, EditFde,
         FdeJob.Ok, UnwindsAt;
    var job := WorkAt(sec, k).fde;
    FdeReadsThrough(PaddedTo(Original(g.was, sec.entries[k].parsed), job.newSize), job, g.out, own, h, read, s, xs);
  }

  // What is asked of FDE k of an input with the CIE own: that its edit keeps what it
  // means.
  ghost predicate FdeIsHandled(p: Parsed, own: Parsed, g: Given) {
    forall h, s {:trigger CieParsedAs(own, g, h), FdeParsedAs(p, g, h, s)} ::
      CieParsedAs(own, g, h) && FdeParsedAs(p, g, h, s) ==> FdeHandled(p, s, g.out.ptrSize)
  }

  // A kept FDE in the output, read through the CIE that its pointer leads to, means what
  // it meant in its input, read through its own.
  lemma FdeMeansTheSame(link: Link, i: nat, k: nat, gs: seq<Given>, nows: seq<seq<Byte>>)
    returns (o: nat, m: nat, h: CieShape, s: FdeShape, xs: seq<nat>)
    requires link.table.Sound() && Collected(link) && AllFinished(link, gs, nows) && AllFit(link, gs)
    requires i < |gs| && k < |link.inputs[i].sec.entries| && !gs[i].out.relocatable
    requires var f := link.inputs[i].sec.entries[k];
             && f.parsed.Fde? && !f.parsed.Terminator() && !f.removed
             && forall o: nat {:trigger gs[o]} :: o < |gs| && f.cieInf in link.inputs[o].sec.entries ==>
                  CieHandled(f.cieInf, gs[o])
    requires k < |link.was[i].cies| && link.was[i].cies[k] != null ==>
               FdeIsHandled(link.inputs[i].sec.entries[k].parsed, link.was[i].cies[k].parsed, gs[i])
    ensures o < |gs| && m < |link.inputs[o].sec.entries| && k < |link.was[i].cies| && link.was[i].cies[k] != null
    ensures LeadsTo(link.inputs[i], k, nows[i], link.inputs[o], m, gs[i].out.endian)
    ensures FdeMeans(link.inputs[i].sec, k, link.was[i].cies[k].parsed, gs[i], nows[i],
                     link.inputs[o].sec, m, nows[o], h, s, xs)
  {
    hide CieTable.Sound, AllFinished, AllFit, Link.Apart, CieHandled, FdeMeans, LeadsTo, IsThere, EntryFits;
    o, m := FdeLeadsToCie(link, i, k, gs, nows);
    h, s, xs := FdeMeansThrough(link, i, k, gs, nows, o, m);
  }
}
