// What the FDEs of a link find in the CIE that their pointer leads to: the personality
// routine of their own; and which of them share one.

module EhFrameLinkShares {
  import opened Bytes
  import opened EhFrame
  import opened EhFrameLayout
  import opened EhFrameMerge
  import opened EhFrameDiscard
  import opened EhFrameMove
  import opened EhFrameFde
  import opened EhFrameCie
  import opened EhFrameCfa
  import opened EhFrameCieParse
  import opened EhFrameCieKept
  import opened EhFrameCieLaws
  import opened EhFrameCieReads
  import opened EhFrameFdeReads
  import opened EhFrameRecorded
  import opened EhFrameSame
  import opened EhFrameValues
  import opened EhFrameWrite
  import opened EhFrameLink
  import opened EhFrameLinkMeans

  // ---------- the personality routine ----------

  // The relocated contents of x point at its personality routine, given where each
  // symbol is.
  predicate PointsAt(x: Known, out: Output, place: Symbol -> int) {
    && x.o.Ok()
    && (x.Routine().Some? ==> LeadsHome(x.b, x.h, x.p.offset, out, place(x.Routine().value)))
  }

  // The personality pointer of the CIE b, read as h at base, leads to this place.
  predicate LeadsHome(b: seq<Byte>, h: CieShape, base: int, out: Output, place: int) {
    var i, n, start := h.seen.pointer, EncodedWidth(h.seen.per, out.ptrSize), out.vma + out.outputOffset;
    && i + n <= |b|
    && Target(Application(h.seen.per), ValueAt(out.endian, b, i, n), start + base + i) % Power256(n)
       == place % Power256(n)
  }

  ghost predicate RoutineThere(sec: Section, m: nat, now: seq<Byte>, out: Output, place: int)
    requires m < |sec.entries|
    reads sec, sec.entries
  {
    var c := sec.entries[m];
    && c.newOffset + 9 <= NextOf(sec, m) <= |now|
    && var room := now[c.newOffset..NextOf(sec, m)];
       var read := ParseCie(room, |room|, c.newOffset, out.ptrSize);
       read.Some? && LETTER_P in read.value.letters && LeadsHome(room, read.value, c.newOffset, out, place)
  }

  lemma LeadsThrough(b: seq<Byte>, h: CieShape, was: int, r: seq<Byte>, g: CieShape, now: int, out: Output, place: int)
    requires SamePersonality(b, h, was, r, g, now, out) && LeadsHome(b, h, was, out, place)
    ensures LeadsHome(r, g, now, out, place)
  {
    hide EncodedWidth, ValueAt, Power256, Application, Target;
  }

  lemma RoutineHasLetter(x: Known, ptrSize: PtrSize, relocatable: bool)
    requires x.Fits(ptrSize, relocatable) && x.Routine().Some?
    ensures LETTER_P in x.h.letters
  {
    hide ParseCie, EncodingsOf, RecordsValues, HasWidths;
    ShapeSays(x.b, x.p.size, x.p.offset, ptrSize, x.h);
  }

  lemma LetterStays(h: CieShape, job: CieJob, ptrSize: PtrSize)
    requires job.p.Cie? && LETTER_P in h.letters
    ensures LETTER_P in EditedShape(h, job, ptrSize).letters
  {
    if h.Sized() {
      assert h.letters == [LETTER_Z] + h.Rest();
      assert LETTER_P in NewLetters(job.p) + h.Rest();
    }
  }

  // The pointer of entry m, which is now in the output, leads to the routine y has.
  lemma RoutineIsThere(link: Link, o: nat, m: nat, g: Given, now: seq<Byte>, h': CieShape, place: Symbol -> int)
    requires link.table.Sound() && o < |link.inputs| && m < |link.inputs[o].sec.entries| && !g.out.relocatable
    requires CieWorkFits(link.table.origin, link.inputs[o].sec, m, g, h') && IsThere(link.inputs[o].sec, m, g, now)
    requires CieHandled(link.inputs[o].sec.entries[m], g)
    requires var y := KnownOf(link.table.origin, link.inputs[o].sec.entries[m], g, h');
             y.Fits(g.out.ptrSize, false) && PointsAt(y, g.out, place)
    ensures var y := KnownOf(link.table.origin, link.inputs[o].sec.entries[m], g, h');
            y.Routine().Some? ==> RoutineThere(link.inputs[o].sec, m, now, g.out, place(y.Routine().value))
  {
    hide CieTable.Sound, NextOf, JobOk, Edit, ParseCie, CieFits, Handled, EditedShape, Doable, SamePersonality,
         LeadsHome, Known.Fits, Origin.Ok;
    var sec, c := link.inputs[o].sec, link.inputs[o].sec.entries[m];
    var b, job := Original(g.was, c.parsed), WorkAt(sec, m).cie;
    var y := KnownOf(link.table.origin, c, g, h');
    AskedIs(sec, m, b, h', g.out.ptrSize);
    if y.Routine().Some? {
      RoutineHasLetter(y, g.out.ptrSize, false);
      LetterStays(h', job, g.out.ptrSize);
      CieIsConverted(job, link.table.origin[c], b, g.out, h');
      PersonalityMeans(job, link.table.origin[c], b, g.out, h');
      LeadsThrough(b, h', job.p.offset, Edit(CieWork(job), b, g.out), EditedShape(h', job, g.out.ptrSize),
                   job.newOffset, g.out, place(y.Routine().value));
    }
  }

  ghost predicate PointsAtRoutine(origin: map<Entry, Origin>, c: Entry, g: Given, h: CieShape, place: Symbol -> int) {
    c in origin && c.parsed.offset + c.parsed.size <= |g.was| && PointsAt(KnownOf(origin, c, g, h), g.out, place)
  }

  // An FDE's personality routine, as a reader of the output finds it, is that of its own
  // CIE.
  lemma RoutineIsTheSame(link: Link, i: nat, own: Entry, gs: seq<Given>, h: CieShape, o: nat, m: nat, now: seq<Byte>,
                         place: Symbol -> int)
    requires link.table.Sound() && Collected(link) && AllGiven(link, gs) && i < |gs| && o < |gs|
    requires link.DoneAt(o) && FitAt(link, o, gs[o]) && m < |link.inputs[o].sec.entries| && !gs[o].out.relocatable
    requires InFor(link, i, own, gs, h, o, m, now)
    requires var c := link.inputs[o].sec.entries[m];
             forall h' {:trigger CieParsedAs(c.parsed, gs[o], h')} ::
               CieParsedAs(c.parsed, gs[o], h') ==> PointsAtRoutine(link.table.origin, c, gs[o], h', place)
    ensures link.table.origin[own].Ok()
    ensures var r := KnownOf(link.table.origin, own, gs[i], h).Routine();
            r.Some? ==> RoutineThere(link.inputs[o].sec, m, now, gs[o].out, place(r.value))
  {
    hide CieTable.Sound, Link.DoneAt, GivenFits, NextOf, JobOk, ParseCie, CieFits, AllKeptFit, EditedShape, Doable,
         Link.Apart, PointsAt, RoutineThere, IsThere, CieHandled, Known.Fits, Known.Routine, Origin.Ok, Origin.Key,
         Known.Insns, CieEq, FactorsOf, SizeOf;
    var c := link.inputs[o].sec.entries[m];
    var h' := KeptCieWork(link, o, m, gs[o]);
    WorkFits(link.table.origin, link.inputs[o].sec, m, gs[o], h');
    BothFit(link.table.origin, own, gs[i], h, c, gs[o], h');
    SaysTheSame(KnownOf(link.table.origin, own, gs[i], h), KnownOf(link.table.origin, c, gs[o], h'), gs[o].out,
                c == own);
    RoutineIsThere(link, o, m, gs[o], now, h', place);
  }

  lemma WorkFits(origin: map<Entry, Origin>, sec: Section, k: nat, g: Given, h: CieShape)
    requires k < |sec.entries| && CieWorkFits(origin, sec, k, g, h)
    ensures OwnFits(origin, sec.entries[k], g, h)
  {
    hide NextOf, CieFits, FlagsRight, Parsed.Alignment, JobOk, ParseCie;
  }

  // So it is for each kept FDE, if the CIE that stands for its own points at its routine.
  lemma FdeRoutineIsTheSame(link: Link, i: nat, k: nat, gs: seq<Given>, nows: seq<seq<Byte>>, h: CieShape,
                            place: Symbol -> int)
    returns (o: nat, m: nat)
    requires link.table.Sound() && Collected(link) && AllFinished(link, gs, nows) && AllFit(link, gs)
    requires i < |gs| && k < |link.inputs[i].sec.entries| && !gs[i].out.relocatable
    requires var f := link.inputs[i].sec.entries[k];
             && f.parsed.Fde? && !f.parsed.Terminator() && !f.removed
             && (forall o: nat {:trigger gs[o]} :: o < |gs| && f.cieInf in link.inputs[o].sec.entries ==>
                   CieHandled(f.cieInf, gs[o]))
             && (forall o: nat, h' {:trigger CieParsedAs(f.cieInf.parsed, gs[o], h')} ::
                   o < |gs| && f.cieInf in link.inputs[o].sec.entries && CieParsedAs(f.cieInf.parsed, gs[o], h') ==>
                     PointsAtRoutine(link.table.origin, f.cieInf, gs[o], h', place))
    requires k < |link.was[i].cies| && link.was[i].cies[k] != null ==>
               CieParsedAs(link.was[i].cies[k].parsed, gs[i], h)
    ensures o < |gs| && m < |link.inputs[o].sec.entries| && k < |link.was[i].cies| && link.was[i].cies[k] != null
    ensures LeadsTo(link.inputs[i], k, nows[i], link.inputs[o], m, gs[i].out.endian)
    ensures var own, origin := link.was[i].cies[k], link.table.origin;
            && own in origin && origin[own].Ok() && own.parsed.offset + own.parsed.size <= |gs[i].was|
            && var r := KnownOf(origin, own, gs[i], h).Routine();
               r.Some? ==> RoutineThere(link.inputs[o].sec, m, nows[o], gs[o].out, place(r.value))
  {
    hide CieTable.Sound, Link.DoneAt, GivenFits, NextOf, JobOk, Edit, ParseCie, CieFits, AllKeptFit, StandsFor,
         Link.Apart, FinishedAt, IsThere, CieHandled, RoutineThere, Known.Routine, Origin.Ok, LeadsTo,
         PointsAtRoutine;
    o, m := FdeLeadsToCie(link, i, k, gs, nows);
    assert link.DoneAt(i) && link.DoneAt(o) && FitAt(link, i, gs[i]) && FitAt(link, o, gs[o]);
    var o' := KeptFde(link, i, k);
    var own, c := link.was[i].cies[k], link.inputs[o].sec.entries[m];
    OwnConverts(link, i, own, c, gs[i], h);
    EntryIsFit(link, o, m, gs[o]);
    OneInput(link, own, i, o, m);
    RoutineIsTheSame(link, i, own, gs, h, o, m, nows[o], place);
  }

  // ---------- what is shared ----------

  // What is known of the CIE own of an input.
  lemma OwnIsKnown(link: Link, i: nat, own: Entry, g: Given, h: CieShape)
    requires link.table.Sound() && Collected(link) && i < |link.inputs| && GivenFits(link, i, g)
    requires InInput(link, own, i) && own.parsed.Cie? && CieParsedAs(own.parsed, g, h)
    ensures KnownOf(link.table.origin, own, g, h).Fits(g.out.ptrSize, g.out.relocatable)
  {
    hide CieTable.Valid, CieTable.FdesRefer, CieTable.FlagOk, CieTable.PassedOk, CieTable.TurnedOk, Link.Apart, CieFits,
         Origin.Key, Origin.Ok, ParseCie, Known.Fits;
    var k :| 0 <= k < |link.inputs[i].sec.entries| && link.inputs[i].sec.entries[k] == own;
    assert EntryFits(link.table.origin, own, link.was[i].cies[k], g);
    link.table.HomeApart();
    assert link.table.KeyedOk(own);
    KnownFits(KnownOf(link.table.origin, own, g, h), g.out);
  }

  // FDE k of input i is kept, and had the CIE own, read as h.
  ghost predicate HadCie(link: Link, i: nat, k: nat, own: Entry, g: Given, h: CieShape)
    requires i < |link.inputs| == |link.was| && k < |link.inputs[i].sec.entries|
    reads link.inputs[i].sec.entries[k]
  {
    var f := link.inputs[i].sec.entries[k];
    && f.parsed.Fde? && !f.parsed.Terminator() && !f.removed
    && k < |link.was[i].cies| && own == link.was[i].cies[k] && CieParsedAs(own.parsed, g, h)
    && own in link.table.origin && h.seen.at <= own.parsed.size < h.seen.at + 0x100
  }

  // Two kept FDEs whose CIEs have fewer than 256 bytes of instructions share one in the
  // output if and only if they had the same one, or their CIEs say the same in no more
  // than 50 bytes.
  lemma SharedIff(link: Link, gs: seq<Given>, i: nat, k: nat, e: Entry, h: CieShape,
                  j: nat, l: nat, d: Entry, h': CieShape)
    requires link.table.Sound() && Collected(link) && AllGiven(link, gs) && i < |gs| && j < |gs|
    requires link.DoneAt(i) && link.DoneAt(j) && k < |link.inputs[i].sec.entries| && l < |link.inputs[j].sec.entries|
    requires HadCie(link, i, k, e, gs[i], h) && HadCie(link, j, l, d, gs[j], h')
    ensures link.table.origin[e].Ok() && link.table.origin[d].Ok()
    ensures var x, y := KnownOf(link.table.origin, e, gs[i], h), KnownOf(link.table.origin, d, gs[j], h');
            link.inputs[i].sec.entries[k].cieInf == link.inputs[j].sec.entries[l].cieInf
            <==> e == d || (Comparable(x) && Comparable(y) && SayTheSame(x, y, gs[i].out.ptrSize) && |x.Insns()| <= 50)
  {
    hide CieTable.Sound, Link.Apart, GivenFits, Comparable, SayTheSame, Known.Fits, Origin.Key, Origin.Ok, CieEq,
         ParseCie;
    var x, y := KnownOf(link.table.origin, e, gs[i], h), KnownOf(link.table.origin, d, gs[j], h');
    AtHome(link, i, k, e);
    AtHome(link, j, l, d);
    OwnIsKnown(link, i, e, gs[i], h);
    OwnIsKnown(link, j, d, gs[j], h');
    EqualCiesAreShared(link.table, link.inputs[i].sec.entries[k], link.inputs[j].sec.entries[l]);
    ComparableIff(x, gs[i].out.ptrSize, gs[i].out.relocatable);
    ComparableIff(y, gs[i].out.ptrSize, gs[i].out.relocatable);
    if Comparable(x) && Comparable(y) {
      EqualIff(x, y, gs[i].out.ptrSize, gs[i].out.relocatable);
    }
  }

  // A kept FDE is known to the table, with the CIE that the parser attached to it.
  lemma AtHome(link: Link, i: nat, k: nat, own: Entry)
    requires link.table.Sound() && Collected(link) && i < |link.inputs| && link.DoneAt(i)
             && k < |link.inputs[i].sec.entries|
    requires var f := link.inputs[i].sec.entries[k]; f.parsed.Fde? && !f.parsed.Terminator() && !f.removed
    requires k < |link.was[i].cies| && own == link.was[i].cies[k]
    ensures var f := link.inputs[i].sec.entries[k]; f in link.table.home && link.table.home[f] == own
    ensures InInput(link, own, i) && own.parsed.Cie? && own in link.table.origin && link.table.origin[own].Ok()
  {
    hide Link.Apart, PlacedBy, InFileOrder, CieTable.Valid, CieTable.FlagOk, CieTable.PassedOk, CieTable.TurnedOk,
         Origin.Ok, Origin.Key;
    var f := link.inputs[i].sec.entries[k];
    assert link.table.Sifted(f, link.inputs[i].live[k], link.inputs[i].sec.hasNext, link.was[i].cies[k]);
    assert link.table.Refers(f, own);
    link.table.HomeApart();
    assert link.table.KeyedOk(own);
  }
}
