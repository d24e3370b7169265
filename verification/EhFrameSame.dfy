// What it means for two CIEs to be merged, in terms of their bytes.

module EhFrameSame {
  import opened Bytes
  import opened EhFrame
  import opened EhFrameMerge
  import opened EhFrameFde
  import opened EhFrameCie
  import opened EhFrameCfa
  import opened EhFrameCieParse
  import opened EhFrameCieKept
  import opened EhFrameCieReads
  import opened EhFrameValues
  import opened EhFrameFdeReads
  import opened EhFrameRecorded
  import opened EhFrameWrite

  // The symbol that a personality reference names: a global one, or a local one of a file.
  datatype Symbol = GlobalSym(hash: nat) | LocalSym(bfdId: nat, index: nat)

  // A parsed CIE with its bytes and where it comes from.
  datatype Known = Known(p: Parsed, o: Origin, b: seq<Byte>, h: CieShape)
  {
    predicate Fits(ptrSize: PtrSize, relocatable: bool) {
      && p.Cie? && |b| == p.size && o.Ok() && CieFits(p, o, b, ptrSize, relocatable)
      && ParseCie(b, p.size, p.offset, ptrSize) == Some(h) && h.seen.at <= |b|
    }

    // The initial instructions.
    function Insns(): seq<Byte>
      requires h.seen.at <= |b|
    {
      b[h.seen.at..]
    }

    // The personality routine; None if there is none, or its section is gone.
    function Routine(): Option<Symbol>
      requires o.Ok()
    {
      if !o.link.FullCie? || o.link.record.perEncoding == DW_EH_PE_omit then None
      else match o.cx.refs[o.link.record.personality.reloc]
        case Global(hash, _) => Some(GlobalSym(hash))
        case Local(index) => Some(LocalSym(o.cx.bfdId, index))
        case Lost => None
    }
  }

  // Two CIEs of one output section, of the same length and version, with the same letters
  // and encodings, alignment factors, return address column and personality routine.
  predicate SameValues(x: Known, y: Known, ptrSize: PtrSize)
    requires x.o.Ok() && y.o.Ok()
  {
    && |x.b| == |y.b| && x.h.version == y.h.version && x.h.letters == y.h.letters
    && x.h.seen.lsda == y.h.seen.lsda && x.h.seen.fde == y.h.seen.fde && x.h.seen.per == y.h.seen.per
    && FactorsOf(x.b, x.h, |x.b|, ptrSize) == FactorsOf(y.b, y.h, |y.b|, ptrSize)
    && SizeOf(x.b, x.h, |x.b|) == SizeOf(y.b, y.h, |y.b|)
    && x.Routine() == y.Routine() && x.o.owner.outputSection == y.o.owner.outputSection
  }

  // And with the same initial instructions.
  predicate SayTheSame(x: Known, y: Known, ptrSize: PtrSize)
    requires x.h.seen.at <= |x.b| && y.h.seen.at <= |y.b| && x.o.Ok() && y.o.Ok()
  {
    SameValues(x, y, ptrSize) && x.Insns() == y.Insns()
  }

  // What find_merged_cie looks up.
  lemma KeyIs(x: Known, ptrSize: PtrSize, relocatable: bool)
    requires x.Fits(ptrSize, relocatable) && x.o.Key() != []
    ensures x.o.link.FullCie?
    ensures var r, k := x.o.link.record, x.o.Key()[0];
            && RecordsValues(r, x.b, x.h, ptrSize) && k.outputSection == x.o.owner.outputSection
            && r.augmentation == x.h.letters && r.version == x.h.version && r.fdeEncoding == FdeEncodingOf(x.h)
            && r.lsdaEncoding == x.h.seen.lsda && r.perEncoding == x.h.seen.per
            && k.record == r.(personality := k.record.personality, localPersonality := k.record.localPersonality)
            && match x.Routine()
               case None => k.record.personality == Nothing && !k.record.localPersonality
               case Some(GlobalSym(hash)) => k.record.personality == GlobalSymbol(hash) && !k.record.localPersonality
               case Some(LocalSym(f, i)) => k.record.personality == LocalSymbol(f, i) && k.record.localPersonality
  {
    hide ParseCie, EncodingsOf, FactorsOf, SizeOf, StoreInsns;
  }

  // It can be compared: the link is not relocatable, and the personality routine, if it
  // has one, has a section in the output.
  predicate Comparable(x: Known) {
    x.o.Ok() && x.o.link.FullCie? && (LETTER_P in x.h.letters ==> x.Routine().Some?)
  }

  lemma ComparableIff(x: Known, ptrSize: PtrSize, relocatable: bool)
    requires x.Fits(ptrSize, relocatable)
    ensures x.o.Key() != [] <==> Comparable(x)
    ensures Comparable(x) ==> !relocatable
  {
    hide ParseCie, EncodingsOf, RecordsValues, HasWidths;
    ShapeSays(x.b, x.p.size, x.p.offset, ptrSize, x.h);
  }

  // The encodings in the record are those of the letters.
  lemma FdeAgrees(x: Known, y: Known, ptrSize: PtrSize, relocatable: bool)
    requires x.Fits(ptrSize, relocatable) && y.Fits(ptrSize, relocatable) && x.h.letters == y.h.letters
    ensures x.h.seen.fde == y.h.seen.fde <==> FdeEncodingOf(x.h) == FdeEncodingOf(y.h)
    ensures !(EH <= x.h.letters)
  {
    hide ParseCie, EncodingsOf, Records, RecordsValues, HasWidths;
    ShapeSays(x.b, x.p.size, x.p.offset, ptrSize, x.h);
    ShapeSays(y.b, y.p.size, y.p.offset, ptrSize, y.h);
    ShapeIs(x.b, x.p.size, x.p.offset, ptrSize, x.h);
  }

  lemma InsnsAgree(a: seq<Byte>, b: seq<Byte>)
    requires |a| < 0x100 && |b| < 0x100
    ensures InsnsMatch(StoreInsns(a, 0), StoreInsns(b, 0)) <==> a == b && |a| <= 50
  {
    StoredLength(a, 0);
    StoredLength(b, 0);
    if InsnsMatch(StoreInsns(a, 0), StoreInsns(b, 0)) {
      MatchIsEquality(a, b, 0, 0);
    }
  }

  // CIEs that are taken for equal have the same values, however many instructions.
  lemma EqualMeans(x: Known, y: Known, ptrSize: PtrSize, relocatable: bool)
    requires x.Fits(ptrSize, relocatable) && y.Fits(ptrSize, relocatable) && x.o.Key() != [] && y.o.Key() != []
    requires CieEq(x.o.Key()[0], y.o.Key()[0])
    ensures SameValues(x, y, ptrSize)
    ensures |x.Insns()| < 0x100 && |y.Insns()| < 0x100 ==> x.Insns() == y.Insns()
  {
    hide Known.Fits, Origin.Key, Origin.Ok, FactorsOf, SizeOf, StoreInsns;
    KeyIs(x, ptrSize, relocatable);
    KeyIs(y, ptrSize, relocatable);
    FdeAgrees(x, y, ptrSize, relocatable);
    if |x.Insns()| < 0x100 && |y.Insns()| < 0x100 {
      InsnsAgree(x.Insns(), y.Insns());
    }
  }

  // Of CIEs with fewer than 256 bytes of instructions those are merged that say the same
  // and have no more than 50.
  lemma EqualIff(x: Known, y: Known, ptrSize: PtrSize, relocatable: bool)
    requires x.Fits(ptrSize, relocatable) && y.Fits(ptrSize, relocatable) && x.o.Key() != [] && y.o.Key() != []
    requires |x.Insns()| < 0x100 && |y.Insns()| < 0x100
    ensures CieEq(x.o.Key()[0], y.o.Key()[0]) <==> SayTheSame(x, y, ptrSize) && |x.Insns()| <= 50
  {
    hide Known.Fits, Origin.Key, Origin.Ok, FactorsOf, SizeOf, StoreInsns;
    KeyIs(x, ptrSize, relocatable);
    KeyIs(y, ptrSize, relocatable);
    InsnsAgree(x.Insns(), y.Insns());
    if x.h.letters == y.h.letters {
      FdeAgrees(x, y, ptrSize, relocatable);
    }
  }

  // ---------- after the edit ----------

  // The CIE at the start of room, read as g and with n bytes of instructions, says how to
  // unwind what b, read as h, says: the instructions are followed by nops.
  predicate Unwinds(b: seq<Byte>, h: CieShape, room: seq<Byte>, g: CieShape, n: nat, ptrSize: PtrSize) {
    && h.seen.at <= |b| && g.seen.at + n <= |room| && g.version == h.version
    && FactorsOf(room, g, |room|, ptrSize) == FactorsOf(b, h, |b|, ptrSize) != None
    && (|b| - h.seen.at < 0x100 && n < 0x100 ==> room[g.seen.at..g.seen.at + n] == b[h.seen.at..])
    && forall j {:trigger room[j]} :: g.seen.at + n <= j < |room| ==> room[j] == DW_CFA_NOP
  }

  // What unwinds as y does unwinds as x does, if they have the same values.
  lemma UnwindsThrough(x: Known, y: Known, room: seq<Byte>, g: CieShape, ptrSize: PtrSize)
    requires x.o.Ok() && y.o.Ok() && x.h.seen.at <= |x.b| && y.h.seen.at <= |y.b| && SameValues(x, y, ptrSize)
    requires |x.Insns()| < 0x100 && |y.Insns()| < 0x100 ==> x.Insns() == y.Insns()
    requires Unwinds(y.b, y.h, room, g, |y.Insns()|, ptrSize)
    ensures Unwinds(x.b, x.h, room, g, |y.Insns()|, ptrSize)
  {
    hide FactorsOf, SizeOf;
  }

  // The instructions of an edited CIE, and what follows them.
  lemma InsnsAreThere(b: seq<Byte>, job: CieJob, out: Output, h: CieShape)
    requires Keeps(b, h, job, out.ptrSize)
    ensures job.Ok() && |b| == job.newSize && Walkable(Framed(out.endian, b, job.p.size), job, out)
    ensures h.seen.at <= job.p.size && job.p.size + job.p.Extra() <= |b|
    ensures forall j {:trigger b[j]} :: h.seen.at <= j < job.p.size ==>
              EditCie(b, job, out)[j + job.p.Extra()] == b[j]
    ensures var r := EditCie(b, job, out);
            forall j {:trigger r[j]} :: job.p.size + job.p.Extra() <= j < |b| ==> r[j] == DW_CFA_NOP
  {
    hide Editable, CieJob.Ok, Framed, Augmented, Walkable, ParseCie, Unedited, SizeFits, AskedOnce, EditCie, Keeps;
    KeepsSizes(b, h, job, out.ptrSize);
    KeepsIsWalkable(b, h, job, out);
    var r := EditCie(b, job, out);
    forall j {:trigger b[j]} | h.seen.at <= j < job.p.size ensures r[j + job.p.Extra()] == b[j] {
      CieInstructionsKept(b, job, out, h, j);
    }
    forall j {:trigger r[j]} | job.p.size + job.p.Extra() <= j < |b| ensures r[j] == DW_CFA_NOP {
      PaddingThere(b, job, out, h, j);
    }
  }

  lemma PaddingThere(b: seq<Byte>, job: CieJob, out: Output, h: CieShape, j: nat)
    requires Keeps(b, h, job, out.ptrSize)
    requires job.Ok() && |b| == job.newSize && Walkable(Framed(out.endian, b, job.p.size), job, out)
    requires job.p.size + job.p.Extra() <= j < |b| && h.seen.at <= job.p.size
    ensures EditCie(b, job, out)[j] == 0
  {
    hide Editable, CieJob.Ok, Augmented, Walkable, ParseCie, Unedited, SizeFits, AskedOnce;
    KeepsSizes(b, h, job, out.ptrSize);
    var f := Framed(out.endian, b, job.p.size);
    if job.Todo().Any() {
      FramedIsEditable(b, h, job, out);
      EditedTail(f, h, job, out, j);
    } else {
      NothingToWalk(f, job, out);
    }
  }

  // The edit of a parsed CIE.
  lemma EditUnwinds(job: CieJob, o: Origin, b: seq<Byte>, out: Output, h: CieShape)
    requires Doable(job, o, b, out.ptrSize, out.relocatable) && Handled(job, b, h, out.ptrSize)
    requires ParseCie(b, job.p.size, job.p.offset, out.ptrSize) == Some(h)
    ensures JobOk(CieWork(job), b, out) && h.seen.at <= |b|
    ensures Unwinds(b, h, Edit(CieWork(job), b, out), EditedShape(h, job, out.ptrSize), |b| - h.seen.at, out.ptrSize)
  {
    hide ParseCie, CanEdit, Keeps, EditCie, Walkable, Framed, FlagsRight, FactorsOf, EditedLetters, AfterCieNumbers,
         CieJob.Ok, CieFits, Handled, Unwinds, Parsed.Extra;
    var c := PaddedTo(b, job.newSize);
    HandledIsKept(job, o, b, h, out.ptrSize, out.relocatable);
    KeepsSizes(c, h, job, out.ptrSize);
    FactorsKept(c, job, out, h);
    InsnsAreThere(c, job, out, h);
    HasFactors(b, job.p.size, job.p.offset, out.ptrSize, h);
    PaddedFactors(b, job.newSize, h, out.ptrSize);
    UnwindsFrom(b, h, c, EditCie(c, job, out), EditedShape(h, job, out.ptrSize), job.p.Extra(), out.ptrSize);
  }

  lemma HasFactors(b: seq<Byte>, end: nat, base: nat, ptrSize: PtrSize, h: CieShape)
    requires 9 <= end <= |b| && ParseCie(b, end, base, ptrSize) == Some(h)
    ensures FactorsOf(b, h, end, ptrSize) != None
  {
    hide ParseCie, AfterCieNumbers, FactorsAt;
    ShapeIs(b, end, base, ptrSize, h);
  }

  lemma UnwindsFrom(b: seq<Byte>, h: CieShape, c: seq<Byte>, r: seq<Byte>, g: CieShape, d: nat, ptrSize: PtrSize)
    requires h.seen.at <= |b| <= |c| && c[..|b|] == b && |b| + d <= |r|
    requires g.seen.at == h.seen.at + d && g.version == h.version
    requires FactorsOf(r, g, |r|, ptrSize) == FactorsOf(c, h, |b|, ptrSize) == FactorsOf(b, h, |b|, ptrSize) != None
    requires forall j {:trigger c[j]} :: h.seen.at <= j < |b| ==> r[j + d] == c[j]
    requires forall j {:trigger r[j]} :: |b| + d <= j < |r| ==> r[j] == DW_CFA_NOP
    ensures Unwinds(b, h, r, g, |b| - h.seen.at, ptrSize)
  {
    hide FactorsOf;
    SameTail(b, c, r, h.seen.at, d);
  }

  lemma SameTail(b: seq<Byte>, c: seq<Byte>, r: seq<Byte>, i: nat, d: nat)
    requires i <= |b| <= |c| && |b| + d <= |r| && c[..|b|] == b
    requires forall j {:trigger c[j]} :: i <= j < |b| ==> r[j + d] == c[j]
    ensures r[i + d..|b| + d] == b[i..]
  {
    forall j | 0 <= j < |b| - i ensures r[i + d..|b| + d][j] == b[i..][j] {
      assert c[..|b|][i + j] == c[i + j];
    }
  }

  lemma PaddedFactors(b: seq<Byte>, size: nat, h: CieShape, ptrSize: PtrSize)
    requires |b| <= size && FactorsOf(b, h, |b|, ptrSize) != None
    ensures FactorsOf(PaddedTo(b, size), h, |b|, ptrSize) == FactorsOf(b, h, |b|, ptrSize)
  {
    hide AfterCieNumbers, FactorsAt, PaddedTo;
    FactorsCarried(b, h.version, 10 + |h.letters|, |b|, ptrSize, PaddedTo(b, size), 0, |b|);
  }
}
