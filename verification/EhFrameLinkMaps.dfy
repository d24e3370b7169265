// The relocation map after the discard pass, against what a reader of the output finds.

module EhFrameLinkMaps {
  import opened Bytes
  import opened EhFrame
  import opened EhFrameLayout
  import opened EhFrameMerge
  import opened EhFrameDiscard
  import opened EhFrameMove
  import opened EhFrameFde
  import opened EhFrameCie
  import opened EhFrameCfa
  import opened EhFrameCieParse
  import opened EhFrameCieKept
  import opened EhFrameCieReads
  import opened EhFrameFdeReads
  import opened EhFrameRecorded
  import opened EhFrameOffsets
  import opened EhFrameWrite
  import opened EhFrameLink
  import opened EhFrameLinkMeans
  import opened EhFrameMapsMean

  // The pointers of a padded FDE are those of the FDE.
  lemma PaddedPointers(b: seq<Byte>, size: nat, s: FdeShape, xs: seq<nat>, h: CieShape, g: CieShape)
    requires |b| <= size && forall k {:trigger xs[k]} :: 0 <= k < |xs| ==> xs[k] < |b|
    ensures FdePointers(PaddedTo(b, size), s, xs, h, g) == FdePointers(b, s, xs, h, g)
  {
    hide PaddedTo, FdeEncodingOf;
    var c := PaddedTo(b, size);
    assert forall k {:trigger xs[k]} :: 0 <= k < |xs| ==> c[xs[k]] == b[xs[k]];
  }

  // The personality pointer of a kept CIE is made pc-relative if no run-time relocation
  // is needed of it then, and the LSDA pointers of an FDE if its own CIE asks for it.
  lemma TurnedIsRight(link: Link, i: nat, k: nat)
    requires link.table.Sound() && Collected(link) && i < |link.inputs| && k < |link.inputs[i].sec.entries|
    requires k < |link.was[i].cies|
    requires var e := link.inputs[i].sec.entries[k]; e.parsed.Cie? && !e.removed
    ensures var e, origin := link.inputs[i].sec.entries[k], link.table.origin;
            && e in origin && origin[e].Ok()
            && (e.makePerEncodingRelative <==> CieTable.Relocatable(origin[e]))
  {
    hide CieTable.Valid, CieTable.FdesRefer, Link.Apart, CieTable.FlagOk, CieTable.PassedOk, CieTable.Relocatable;
    var e := link.inputs[i].sec.entries[k];
    assert InInput(link, e, i);
    assert link.table.TurnedOk(e) by {
      link.table.HomeApart();
    }
  }

  lemma LsdaIsPassedOn(link: Link, i: nat, k: nat)
    requires link.table.Sound() && Collected(link) && i < |link.inputs| && link.DoneAt(i)
             && k < |link.inputs[i].sec.entries|
    requires var e := link.inputs[i].sec.entries[k]; e.parsed.Fde? && !e.parsed.Terminator() && !e.removed
    ensures k < |link.was[i].cies| && link.was[i].cies[k] != null && link.inputs[i].sec.entries[k].cieInf != null
    ensures link.was[i].cies[k].makeLsdaRelative ==> link.inputs[i].sec.entries[k].cieInf.makeLsdaRelative
  {
    hide Link.Apart, PlacedBy, InFileOrder, CieTable.FlagOk, CieTable.TurnedOk, CieTable.Valid, Origin.Ok,
         Origin.Key, CieEq;
    var e := link.inputs[i].sec.entries[k];
    assert link.table.Sifted(e, link.inputs[i].live[k], link.inputs[i].sec.hasNext, link.was[i].cies[k]);
    var own := link.table.home[e];
    assert link.table.Refers(e, own) && link.table.PassedOk(own);
    link.table.MergingIsSound(own);
  }

  // What SectionOffset answers for the bytes of FDE k, which is read as s through the CIE
  // h, and in the output through the CIE g.
  ghost predicate FdeMaps(sec: Section, k: nat, own: Parsed, g: Given, h: CieShape, s: FdeShape, xs: seq<nat>,
                          read: CieShape)
    requires k < |sec.entries|
    reads sec.entries[k], sec.entries[k].cieInf
  {
    var f := sec.entries[k];
    && FdeReadsAs(f.parsed, own, g, h, s, xs)
    && (forall k {:trigger xs[k]} :: 0 <= k < |xs| ==> xs[k] < f.parsed.size)
    && MapsPointers(f.parsed, LiveOf(f), FdePointers(Original(g.was, f.parsed), s, xs, h, read))
  }

  // A kept FDE needs no run-time relocation exactly at those of its pointers that the
  // input holds absolute and the output, read through its CIE there, relative; those of
  // the others follow them.  Its LSDA pointer becomes relative if its own CIE asks for
  // that, whichever CIE stands for it.
  lemma FdeRelocationsFollow(link: Link, i: nat, k: nat, gs: seq<Given>, nows: seq<seq<Byte>>)
    returns (o: nat, m: nat, h: CieShape, s: FdeShape, xs: seq<nat>, read: CieShape)
    requires link.table.Sound() && Collected(link) && AllFinished(link, gs, nows) && AllFit(link, gs)
    requires i < |gs| && k < |link.inputs[i].sec.entries|
    requires var f := link.inputs[i].sec.entries[k];
             && f.parsed.Fde? && !f.parsed.Terminator() && !f.removed
             && forall o: nat {:trigger gs[o]} :: o < |gs| && f.cieInf in link.inputs[o].sec.entries ==>
                  CieHandled(f.cieInf, gs[o])
    ensures o < |gs| && m < |link.inputs[o].sec.entries| && k < |link.was[i].cies| && link.was[i].cies[k] != null
    ensures link.was[i].cies[k].parsed.Cie?
    ensures LeadsTo(link.inputs[i], k, nows[i], link.inputs[o], m, gs[i].out.endian)
    ensures IsConverted(link.inputs[o].sec, m, nows[o], link.was[i].cies[k].parsed, h, read, gs[o].out.ptrSize)
    ensures FdeMaps(link.inputs[i].sec, k, link.was[i].cies[k].parsed, gs[i], h, s, xs, read)
    ensures link.was[i].cies[k].makeLsdaRelative ==> BecomesRelative(h.seen.lsda, read.seen.lsda)
  {
    hide CieTable.Sound, AllFit, Link.Apart, CieHandled, LeadsTo, IsThere, FdeMaps, IsConverted,
         FdeWorkFits, UnwindsAt, GivenFits, FinishedAt, Link.DoneAt, BecomesRelative;
    assert link.DoneAt(i);
    LsdaIsPassedOn(link, i, k);
    o, m := FdeLeadsToCie(link, i, k, gs, nows);
    h, s, xs, read := FdeIsReadThrough(link, i, k, gs, nows, o, m);
    ReadMaps(link, i, k, gs, o, m, nows[o], h, s, xs, read);
  }

  lemma ReadMaps(link: Link, i: nat, k: nat, gs: seq<Given>, o: nat, m: nat, now: seq<Byte>,
                 h: CieShape, s: FdeShape, xs: seq<nat>, read: CieShape)
    requires i < |link.inputs| == |link.was| && o < |link.inputs| && |gs| == |link.inputs|
    requires k < |link.inputs[i].sec.entries| && m < |link.inputs[o].sec.entries|
    requires ReadThrough(link, i, k, gs, o, m, now, h, s, xs, read)
    requires link.inputs[i].sec.entries[k].cieInf == link.inputs[o].sec.entries[m]
    requires link.inputs[i].sec.entries[k].parsed.Fde? && !link.inputs[i].sec.entries[k].parsed.Terminator()
    requires gs[i].out.ptrSize == gs[o].out.ptrSize
    ensures IsConverted(link.inputs[o].sec, m, now, link.was[i].cies[k].parsed, h, read, gs[o].out.ptrSize)
    ensures FdeMaps(link.inputs[i].sec, k, link.was[i].cies[k].parsed, gs[i], h, s, xs, read)
    ensures BecomesRelative(h.seen.lsda, read.seen.lsda)
            <==> link.inputs[i].sec.entries[k].cieInf.makeLsdaRelative
  {
    hide NextOf, UnwindsAt, FdeKnown, CieConverted, ParseCie, ParseFde, MapsPointers, FdePointers, JobOk, PaddedTo,
         BecomesRelative;
    var sec, own := link.inputs[i].sec, link.was[i].cies[k].parsed;
    var f := sec.entries[k];
    FdeWorkIs(sec, k);
    var job, b := WorkAt(sec, k).fde, Original(gs[i].was, f.parsed);
    EncodingsTurn(PaddedTo(b, job.newSize), job, own, h, read, s, xs, gs[i].out.ptrSize);
    FdeRelocations(PaddedTo(b, job.newSize), job, own, h, read, s, xs, gs[i].out.ptrSize, LiveOf(f));
    PaddedPointers(b, job.newSize, s, xs, h, read);
  }

  // And a kept CIE exactly at its personality pointer, if that becomes relative: if it is
  // absolute in a shared link, and its symbol is bound there.
  lemma CieRelocationsFollow(link: Link, i: nat, k: nat, g: Given, now: seq<Byte>, h: CieShape)
    requires link.table.Sound() && Collected(link) && i < |link.inputs| && link.DoneAt(i)
             && k < |link.inputs[i].sec.entries|
    requires GivenFits(link, i, g) && AllKeptFit(link, i, g) && FinishedAt(link, i, g, now)
    requires var e := link.inputs[i].sec.entries[k];
             e.parsed.Cie? && !e.removed && CieParsedAs(e.parsed, g, h) && CieHandled(e, g)
    ensures link.inputs[i].sec.entries[k] in link.table.origin
    ensures CieMaps(link.inputs[i].sec, k, link.table.origin[link.inputs[i].sec.entries[k]], g, now, h)
  {
    hide CieTable.Sound, Link.Apart, FinishedAt, EntryFits, NextOf, JobOk, AllKeptFit, EditedShape, Doable, Handled,
         Edit, MapsPointers, CiePointers, ParseCie, CieTable.AllSifted, BecomesRelative, CieTable.Relocatable;
    var sec, e := link.inputs[i].sec, link.inputs[i].sec.entries[k];
    var h' := KeptCieWork(link, i, k, g);
    CieIsNoTerminator(link, i, k);
    KeptIsThere(link, i, k, g, now);
    var b, job := Original(g.was, e.parsed), WorkAt(sec, k).cie;
    AskedIs(sec, k, b, h, g.out.ptrSize);
    CieIsConverted(job, link.table.origin[e], b, g.out, h);
    EntryIsFit(link, i, k, g);
    TurnedIsRight(link, i, k);
    PersonalityTurns(job, link.table.origin[e], b, h, g.out.ptrSize, g.out.relocatable);
    CieRelocations(job, link.table.origin[e], b, h, g.out.ptrSize, g.out.relocatable, LiveOf(e));
  }

  // Entry k is read in the output as some CIE, whose pointer the map knows.
  ghost predicate CieMaps(sec: Section, k: nat, o: Origin, g: Given, now: seq<Byte>, h: CieShape)
    requires k < |sec.entries|
    reads sec, sec.entries, sec.entries[k].cieInf
  {
    var e := sec.entries[k];
    && e.newOffset + 9 <= NextOf(sec, k) <= |now|
    && var room := now[e.newOffset..NextOf(sec, k)];
       var read := ParseCie(room, |room|, e.newOffset, g.out.ptrSize);
       && read.Some? && MapsPointers(e.parsed, LiveOf(e), CiePointers(h, read.value))
       && o.Ok() && (BecomesRelative(h.seen.per, read.value.seen.per) <==> CieTable.Relocatable(o))
  }
}
