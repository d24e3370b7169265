// What the relocation map says of the pointers of a kept entry: which of them the write
// pass makes relative to their own place, so that no run-time relocation is left, and
// where it puts the others.

module EhFrameMapsMean {
  import opened Bytes
  import opened EhFrame
  import opened EhFrameMerge
  import opened EhFrameFde
  import opened EhFrameCie
  import opened EhFrameCfa
  import opened EhFrameCieParse
  import opened EhFrameCieKept
  import opened EhFrameCieReads
  import opened EhFrameFdeReads
  import opened EhFrameRecorded
  import opened EhFrameOffsets

  // The input holds a pointer absolute, and the output relative to its place.
  predicate BecomesRelative(was: Byte, now: Byte) {
    Application(was) == DW_EH_PE_absptr && Application(now) == DW_EH_PE_pcrel
  }

  // A pointer of an entry: where it is in the entry before and after the edit, and how
  // it is encoded.
  datatype Held = Held(at: nat, was: Byte, after: nat, now: Byte)
  {
    // A run-time relocation of it follows it, or is not needed any more.
    predicate Maps(p: Parsed, live: Live) {
      MapOffset(p, live, p.offset + at)
      == if BecomesRelative(was, now) then NoRuntimeReloc else At(live.newOffset + after)
    }
  }

  // So it is for the pointers qs of a kept entry, and no other byte of it is taken for
  // one that becomes relative.
  ghost predicate MapsPointers(p: Parsed, live: Live, qs: iset<Held>) {
    && (forall q {:trigger q in qs} :: q in qs ==> q.Maps(p, live))
    && (forall offset {:trigger MapOffset(p, live, offset)} :: Inside(p, offset) ==>
          (MapOffset(p, live, offset) == NoRuntimeReloc
           <==> exists q :: q in qs && offset == p.offset + q.at && BecomesRelative(q.was, q.now)))
  }

  // ---------- an FDE ----------

  // The pointers of the FDE c: the initial location, the LSDA, and the argument of each
  // DW_CFA_set_loc, with the encodings of the CIE h before the edit, and of g after it.
  predicate InFde(c: seq<Byte>, s: FdeShape, xs: seq<nat>, h: CieShape, g: CieShape, q: Held)
    requires forall k {:trigger xs[k]} :: 0 <= k < |xs| ==> xs[k] < |c|
  {
    || q == Held(8, FdeEncodingOf(h), 8, FdeEncodingOf(g))
    || (s.lsda.Some? && q == Held(s.lsda.value, h.seen.lsda, s.lsda.value, g.seen.lsda))
    || exists k :: 0 <= k < |xs| && c[xs[k]] == DW_CFA_SET_LOC
                   && q == Held(xs[k] + 1, FdeEncodingOf(h), xs[k] + 1, FdeEncodingOf(g))
  }

  ghost function FdePointers(c: seq<Byte>, s: FdeShape, xs: seq<nat>, h: CieShape, g: CieShape): iset<Held>
    requires forall k {:trigger xs[k]} :: 0 <= k < |xs| ==> xs[k] < |c|
  {
    iset q: Held | InFde(c, s, xs, h, g, q)
  }

  lemma EncodingsTurn(c: seq<Byte>, job: FdeJob, cie: Parsed, h: CieShape, g: CieShape, s: FdeShape, xs: seq<nat>,
                      ptrSize: PtrSize)
    requires FdeKnown(c, job, cie, h, s, xs, ptrSize) && CieConverted(h, g, cie, job.cieLsdaRelative, ptrSize)
    ensures BecomesRelative(FdeEncodingOf(h), FdeEncodingOf(g)) <==> job.p.makeRelative
    ensures BecomesRelative(h.seen.lsda, g.seen.lsda) <==> job.cieLsdaRelative
    ensures job.cieLsdaRelative ==> s.lsda.Some?
    ensures s.lsda.Some? ==> 8 + job.p.lsdaOffset == s.lsda.value >= 8 + 2 * s.width && s.width > 0
    ensures job.p.addAugmentationSize ==> job.p.makeRelative && s.lsda.None?
    ensures forall k {:trigger xs[k]} :: 0 <= k < |xs| ==> xs[k] < |c|
  {
    hide EncodedWidth, MakePcRelative, Application, SetLocTable, SetLocOps;
    ConvertedEncodings(h, g, cie, job.cieLsdaRelative, ptrSize);
    OmittedHasNone(ptrSize);
  }

  // The recorded arguments are those of the instructions.
  lemma TableHas(c: seq<Byte>, job: FdeJob, cie: Parsed, h: CieShape, s: FdeShape, xs: seq<nat>, ptrSize: PtrSize,
                 offset: nat)
    requires FdeKnown(c, job, cie, h, s, xs, ptrSize) && job.p.makeRelative
    requires forall k {:trigger xs[k]} :: 0 <= k < |xs| ==> xs[k] < |c|
    ensures IsSetLoc(job.p, job.p.offset + offset)
            <==> exists k :: 0 <= k < |xs| && c[xs[k]] == DW_CFA_SET_LOC && offset == xs[k] + 1
  {
    hide EncodedWidth, Application, ParseFde, CieConversions, HasWidths, Instructions, SetLocOps;
    var p, ops := job.p, SetLocOps(c, xs);
    assert p.setLoc == SetLocTable(c, xs);
    if IsSetLoc(p, p.offset + offset) {
      var i :| 0 <= i < |p.setLoc| && p.offset + offset == p.offset + 8 + p.setLoc[i];
      assert p.setLoc[i] + 7 == ops[i] && ops[i] in ops;
      OpsAre(c, xs, offset - 1);
    }
    if k :| 0 <= k < |xs| && c[xs[k]] == DW_CFA_SET_LOC && offset == xs[k] + 1 {
      OpsAre(c, xs, xs[k]);
      var i :| 0 <= i < |ops| && ops[i] == xs[k];
      assert p.setLoc[i] + 7 == ops[i];
    }
  }

  // Which relocations of an FDE go away, pointer by pointer.
  lemma GoesAway(c: seq<Byte>, job: FdeJob, cie: Parsed, h: CieShape, g: CieShape, s: FdeShape, xs: seq<nat>,
                 ptrSize: PtrSize, live: Live, offset: nat)
    requires FdeKnown(c, job, cie, h, s, xs, ptrSize) && CieConverted(h, g, cie, job.cieLsdaRelative, ptrSize)
    requires live.lsdaRelative == job.cieLsdaRelative
    requires forall k {:trigger xs[k]} :: 0 <= k < |xs| ==> xs[k] < |c|
    ensures RelocGoesAway(job.p, live, job.p.offset + offset)
            <==> || (offset == 8 && BecomesRelative(FdeEncodingOf(h), FdeEncodingOf(g)))
                 || (s.lsda == Some(offset) && BecomesRelative(h.seen.lsda, g.seen.lsda))
                 || (BecomesRelative(FdeEncodingOf(h), FdeEncodingOf(g))
                     && exists k :: 0 <= k < |xs| && c[xs[k]] == DW_CFA_SET_LOC && offset == xs[k] + 1)
  {
    hide FdeRecords, CieConverted, BecomesRelative, FdeEncodingOf, IsSetLoc, Instructions;
    EncodingsTurn(c, job, cie, h, g, s, xs, ptrSize);
    if job.p.makeRelative {
      TableHas(c, job, cie, h, s, xs, ptrSize, offset);
    }
  }

  // A kept FDE.
  lemma FdeRelocations(c: seq<Byte>, job: FdeJob, cie: Parsed, h: CieShape, g: CieShape, s: FdeShape, xs: seq<nat>,
                       ptrSize: PtrSize, live: Live)
    requires FdeKnown(c, job, cie, h, s, xs, ptrSize) && CieConverted(h, g, cie, job.cieLsdaRelative, ptrSize)
    requires !live.removed && live.newOffset == job.newOffset && live.lsdaRelative == job.cieLsdaRelative
    ensures forall k {:trigger xs[k]} :: 0 <= k < |xs| ==> xs[k] < |c|
    ensures MapsPointers(job.p, live, FdePointers(c, s, xs, h, g))
  {
    hide FdeKnown, CieConverted, BecomesRelative, FdeEncodingOf, RelocGoesAway;
    EncodingsTurn(c, job, cie, h, g, s, xs, ptrSize);
    var p, qs := job.p, FdePointers(c, s, xs, h, g);
    forall q {:trigger q in qs} | q in qs ensures q.Maps(p, live) {
      GoesAway(c, job, cie, h, g, s, xs, ptrSize, live, q.at);
      PointersApart(c, job, cie, h, g, s, xs, ptrSize, q);
    }
    forall offset: nat {:trigger MapOffset(p, live, offset)} | Inside(p, offset)
      ensures MapOffset(p, live, offset) == NoRuntimeReloc
              <==> exists q :: q in qs && offset == p.offset + q.at && BecomesRelative(q.was, q.now)
    {
      GoesAway(c, job, cie, h, g, s, xs, ptrSize, live, offset - p.offset);
      if RelocGoesAway(p, live, offset) {
        var q := PointerAt(c, s, xs, h, g, offset - p.offset);
        assert q in qs;
      }
    }
  }

  // The pointer at an offset whose relocation goes away.
  lemma PointerAt(c: seq<Byte>, s: FdeShape, xs: seq<nat>, h: CieShape, g: CieShape, offset: nat) returns (q: Held)
    requires forall k {:trigger xs[k]} :: 0 <= k < |xs| ==> xs[k] < |c|
    requires || (offset == 8 && BecomesRelative(FdeEncodingOf(h), FdeEncodingOf(g)))
             || (s.lsda == Some(offset) && BecomesRelative(h.seen.lsda, g.seen.lsda))
             || (BecomesRelative(FdeEncodingOf(h), FdeEncodingOf(g))
                 && exists k :: 0 <= k < |xs| && c[xs[k]] == DW_CFA_SET_LOC && offset == xs[k] + 1)
    ensures InFde(c, s, xs, h, g, q) && q.at == offset && BecomesRelative(q.was, q.now)
  {
    hide BecomesRelative, FdeEncodingOf;
    if s.lsda == Some(offset) && BecomesRelative(h.seen.lsda, g.seen.lsda) {
      q := Held(offset, h.seen.lsda, offset, g.seen.lsda);
    } else {
      q := Held(offset, FdeEncodingOf(h), offset, FdeEncodingOf(g));
    }
  }

  // The pointers of an FDE are at different places, and nothing is inserted unless all
  // become relative.
  lemma PointersApart(c: seq<Byte>, job: FdeJob, cie: Parsed, h: CieShape, g: CieShape, s: FdeShape, xs: seq<nat>,
                      ptrSize: PtrSize, q: Held)
    requires FdeKnown(c, job, cie, h, s, xs, ptrSize) && CieConverted(h, g, cie, job.cieLsdaRelative, ptrSize)
    requires forall k {:trigger xs[k]} :: 0 <= k < |xs| ==> xs[k] < |c|
    requires InFde(c, s, xs, h, g, q)
    ensures q.after == q.at && (job.p.Extra() > 0 ==> BecomesRelative(q.was, q.now))
    ensures if s.lsda == Some(q.at) then q.was == h.seen.lsda && q.now == g.seen.lsda
            else q.was == FdeEncodingOf(h) && q.now == FdeEncodingOf(g)
    ensures s.lsda != Some(8)
    ensures forall k :: 0 <= k < |xs| ==> s.lsda != Some(xs[k] + 1)
  {
    hide FdeRecords, CieConverted, BecomesRelative, FdeEncodingOf;
    EncodingsTurn(c, job, cie, h, g, s, xs, ptrSize);
  }

  // ---------- a CIE ----------

  // Its one pointer is that to the personality routine, if it has one.
  ghost function CiePointers(h: CieShape, g: CieShape): iset<Held> {
    if LETTER_P in h.letters then iset{Held(h.seen.pointer, h.seen.per, g.seen.pointer, g.seen.per)} else iset{}
  }

  lemma PersonalityTurns(job: CieJob, o: Origin, b: seq<Byte>, h: CieShape, ptrSize: PtrSize, relocatable: bool)
    requires Doable(job, o, b, ptrSize, relocatable) && ParseCie(b, job.p.size, job.p.offset, ptrSize) == Some(h)
    ensures BecomesRelative(h.seen.per, EditedShape(h, job, ptrSize).seen.per) <==> job.makePerRelative
    ensures LETTER_P in h.letters ==>
              && 8 + job.p.personalityOffset == h.seen.pointer
              && EditedShape(h, job, ptrSize).seen.pointer == h.seen.pointer + job.p.Extra()
    ensures job.makePerRelative ==> LETTER_P in h.letters
    ensures job.p.Cie?
  {
    hide ParseCie, EncodingsOf, MakePcRelative, Application, EncodedWidth, EditedLetters, RecordsValues,
         AfterCieNumbers, Parsed.Extra;
    ShapeSays(b, job.p.size, job.p.offset, ptrSize, h);
    OmittedHasNone(ptrSize);
    if job.makePerRelative {
      PcRelativeKeepsWidth(h.seen.per, ptrSize);
    }
  }

  // A kept CIE.
  lemma CieRelocations(job: CieJob, o: Origin, b: seq<Byte>, h: CieShape, ptrSize: PtrSize, relocatable: bool,
                       live: Live)
    requires Doable(job, o, b, ptrSize, relocatable) && ParseCie(b, job.p.size, job.p.offset, ptrSize) == Some(h)
    requires !live.removed && live.newOffset == job.newOffset && live.perRelative == job.makePerRelative
    ensures MapsPointers(job.p, live, CiePointers(h, EditedShape(h, job, ptrSize)))
  {
    hide Doable, BecomesRelative, EditedShape, Parsed.Extra;
    PersonalityTurns(job, o, b, h, ptrSize, relocatable);
    var p, g := job.p, EditedShape(h, job, ptrSize);
    var qs := CiePointers(h, g);
    forall offset: nat {:trigger MapOffset(p, live, offset)} | Inside(p, offset)
      ensures MapOffset(p, live, offset) == NoRuntimeReloc
              <==> exists q :: q in qs && offset == p.offset + q.at && BecomesRelative(q.was, q.now)
    {
      if live.perRelative && offset == p.offset + h.seen.pointer {
        assert Held(h.seen.pointer, h.seen.per, g.seen.pointer, g.seen.per) in qs;
      }
    }
  }
}
