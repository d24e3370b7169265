// Where offset_adjust puts a symbol, against where the write pass puts the byte that the
// symbol is on.

module EhFrameSymbols {
  import opened Bytes
  import opened EhFrame
  import opened EhFrameLayout
  import opened EhFrameMerge
  import opened EhFrameFde
  import opened EhFrameCie
  import opened EhFrameCfa
  import opened EhFrameCieParse
  import opened EhFrameCieKept
  import opened EhFrameCieReads
  import opened EhFrameFdeReads
  import opened EhFrameValues
  import opened EhFrameRecorded
  import opened EhFrameSame
  import opened EhFrameOffsets

  // ---------- inside an edited entry ----------

  // The numbers of a CIE move by what is added to the string, and what follows the
  // letters' data by what is added to both.  A symbol goes along, unless it is on the
  // first byte of the numbers or the first one after the data; before the numbers it
  // stays.
  lemma CieSymbolFollows(b: seq<Byte>, job: CieJob, out: Output, h: CieShape, rel: nat)
    requires Keeps(b, h, job, out.ptrSize) && job.p.Cie? && RecordsPlaces(job.p, h)
    requires 10 + |h.letters| <= rel < h.numbers || h.seen.at <= rel < job.p.size
    ensures job.Ok() && |b| == job.newSize && Walkable(Framed(out.endian, b, job.p.size), job, out)
    ensures var d := if rel < h.numbers then job.p.ExtraString() else job.p.Extra();
            && rel + d < |b| && EditCie(b, job, out)[rel + d] == b[rel]
            && (InnerDelta(job.p, rel, out.ptrSize) == d
                <==> job.p.Extra() == 0 || (rel != 10 + |h.letters| && rel != h.seen.at))
    ensures forall r :: r < 10 + |h.letters| ==> InnerDelta(job.p, r, out.ptrSize) == 0
  {
    hide Keeps, EditCie, Walkable, Framed, CieJob.Ok;
    KeepsSizes(b, h, job, out.ptrSize);
    NumbersAreThere(b, job, out, h);
    if h.seen.at <= rel {
      CieInstructionsKept(b, job, out, h, rel);
    } else {
      assert EditCie(b, job, out)[rel + job.p.ExtraString()] == b[rel];
    }
  }

  // So it is in an FDE from the end of the addresses on.
  lemma FdeSymbolFollows(b: seq<Byte>, job: FdeJob, out: Output, rel: nat)
    requires job.Ok(out.ptrSize) && |b| == job.newSize && !out.relocatable
    requires job.p.addAugmentationSize ==> !job.PatchesLsda() && job.p.setLoc == []
    requires Plain(job, out.ptrSize, rel)
    ensures rel + job.p.Extra() < |b| && EditFde(b, job, out)[rel + job.p.Extra()] == b[rel]
    ensures InnerDelta(job.p, rel, out.ptrSize) == job.p.Extra()
            <==> job.p.Extra() == 0 || rel != 8 + 2 * EncodedWidth(job.p.fdeEncoding, out.ptrSize)
    ensures forall r :: r < 8 + 2 * EncodedWidth(job.p.fdeEncoding, out.ptrSize) ==>
              InnerDelta(job.p, r, out.ptrSize) == 0
  {
    hide EditFde;
    InstructionBytesKept(b, job, out, rel);
  }

  // ---------- in a CIE that was merged ----------

  // CIEs that say the same, and are converted alike, move their symbols alike.
  lemma MovesAlike(x: Known, y: Known, ptrSize: PtrSize, relocatable: bool, rel: int)
    requires x.Fits(ptrSize, relocatable) && y.Fits(ptrSize, relocatable) && x.o.Key() != [] && y.o.Key() != []
    requires CieEq(y.o.Key()[0], x.o.Key()[0])
    requires x.o.cx.pic == y.o.cx.pic && x.o.cx.canMakeRelative == y.o.cx.canMakeRelative
    requires |x.Insns()| < 0x100 && |y.Insns()| < 0x100
    ensures InnerDelta(x.p, rel, ptrSize) == InnerDelta(y.p, rel, ptrSize)
  {
    hide Origin.Key, Origin.Ok, CieEq, ParseCie, SameValues, Records, RecordsValues;
    EqualMeans(y, x, ptrSize, relocatable);
    SameLetters(y, x, ptrSize);
    EqualConversions(x.p, x.o, x.b, x.h, y.p, y.o, y.b, y.h, ptrSize, relocatable);
  }

  lemma SameLetters(x: Known, y: Known, ptrSize: PtrSize)
    requires x.o.Ok() && y.o.Ok() && SameValues(x, y, ptrSize)
    ensures x.h.letters == y.h.letters && |x.b| == |y.b|
  {
    hide FactorsOf, SizeOf;
  }

  // A symbol in a merged CIE lands in the CIE that stands for it, where a symbol at the
  // same distance into that one does.
  lemma MergedSymbolLands(e: Entry, sec: Section, offset: nat, x: Known, y: Known, ptrSize: PtrSize,
                          relocatable: bool)
    requires e.parsed.Cie? && e.removed && e.merged && e.link.MergedWith? && e.link.target.link.InSection?
    requires !e.link.target.removed && e.parsed.offset <= offset && x.p == e.parsed && y.p == e.link.target.parsed
    requires x.Fits(ptrSize, relocatable) && y.Fits(ptrSize, relocatable) && x.o.Key() != [] && y.o.Key() != []
    requires CieEq(y.o.Key()[0], x.o.Key()[0])
    requires x.o.cx.pic == y.o.cx.pic && x.o.cx.canMakeRelative == y.o.cx.canMakeRelative
    requires |x.Insns()| < 0x100 && |y.Insns()| < 0x100
    ensures var t, rel := e.link.target, offset - e.parsed.offset;
            && sec.outputOffset + offset + OuterDelta(e, sec) + InnerDelta(e.parsed, rel, ptrSize)
               == t.link.owner.outputOffset + t.newOffset + rel + InnerDelta(t.parsed, rel, ptrSize)
            && t.newOffset == t.parsed.offset + OuterDelta(t, t.link.owner)
  {
    hide Known.Fits, Origin.Key, Origin.Ok, CieEq, InnerDelta;
    MovesAlike(x, y, ptrSize, relocatable, offset - e.parsed.offset);
  }
}
