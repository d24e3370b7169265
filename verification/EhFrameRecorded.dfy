// What the parser records of a CIE, and what the write pass makes of it: whatever a link
// asks for, the edit can be made and keeps what the CIE means.

module EhFrameRecorded {
  import opened Bytes
  import opened EhFrame
  import opened EhFrameMerge
  import opened EhFrameFde
  import opened EhFrameCie
  import opened EhFrameCfa
  import opened EhFrameCieParse
  import opened EhFrameCieKept
  import opened EhFrameCieReads
  import opened EhFrameValues
  import opened EhFrameFdeReads
  import opened EhFrameWrite

  // ---------- what is recorded ----------

  predicate AlignedTo(enc: Byte, w: nat, ptrSize: PtrSize) {
    Application(enc) == DW_EH_PE_aligned && EncodedWidth(enc, ptrSize) == w
  }

  // Of the CIE h, with the personality encodings encs: the conversions of a link that can
  // make pointers relative, and, unless the link is relocatable, the record for merging.
  predicate Records(p: Parsed, o: Origin, h: CieShape, encs: set<Byte>, ptrSize: PtrSize, relocatable: bool)
    requires p.Cie?
  {
    var relative := o.cx.pic && o.cx.canMakeRelative;
    && (p.addFdeEncoding <==>
        relative && h.seen.fde == DW_EH_PE_omit && Application(h.seen.per) != DW_EH_PE_aligned)
    && (p.makeRelative <==> p.addFdeEncoding || (relative && Application(h.seen.fde) == DW_EH_PE_absptr))
    && (p.addAugmentationSize <==> p.addFdeEncoding && h.letters == [])
    && p.fdeEncoding == FdeEncodingOf(h) && p.lsdaEncoding == h.seen.lsda
    && (p.perEncodingAligned8 <==> exists enc <- encs :: AlignedTo(enc, 8, ptrSize))
    && (if relocatable then !o.cx.pic && o.link.NoRecord? else o.link.FullCie?)
    && (o.link.FullCie? ==>
          var r := o.link.record;
          && r.augmentation == h.letters && r.version == h.version && r.fdeEncoding == p.fdeEncoding
          && r.lsdaEncoding == h.seen.lsda && r.perEncoding == h.seen.per)
  }

  // The rest of the record: the numbers, the instructions, and where the personality is.
  predicate RecordsValues(r: CieRecord, b: seq<Byte>, h: CieShape, ptrSize: PtrSize) {
    && |b| >= 4 && r.length == |b| - 4 && r.augmentationSize == SizeOf(b, h, |b|)
    && FactorsOf(b, h, |b|, ptrSize) == Some(Factors(r.codeAlign, r.dataAlign, r.raColumn))
    && h.seen.at <= |b|
    && StoredInsns(r.initialInsnLength, r.initialInstructions) == StoreInsns(b[h.seen.at..], 0)
    && !r.localPersonality
    && (if h.seen.per == DW_EH_PE_omit then r.personality == Nothing else r.personality.RelocIndex?)
  }

  // Where the string and the data end, and where the personality pointer is, from the
  // version byte on; the string's length counts that byte.
  predicate RecordsPlaces(p: Parsed, h: CieShape)
    requires p.Cie?
  {
    && p.augStrLen == |h.letters| + 1 && 9 + p.augStrLen + p.augDataLen == h.seen.at
    && (LETTER_P in h.letters ==> 8 + p.personalityOffset == h.seen.pointer)
  }

  // The CIE with bytes b is what the parser took it for.
  predicate CieFits(p: Parsed, o: Origin, b: seq<Byte>, ptrSize: PtrSize, relocatable: bool)
    requires p.Cie? && |b| == p.size
  {
    && 10 <= p.size && ParseCie(b, p.size, p.offset, ptrSize).Some?
    && var h := ParseCie(b, p.size, p.offset, ptrSize).value;
       && Records(p, o, h, EncodingsOf(b, h, p.size, p.offset, ptrSize), ptrSize, relocatable)
       && RecordsPlaces(p, h)
       && (o.link.FullCie? ==> RecordsValues(o.link.record, b, h, ptrSize))
  }

  // The conversions that the discard pass asks for are those of encodings that were
  // recorded, and a pc-relative personality pointer is always moved.
  predicate FlagsRight(job: CieJob, link: CieLink) {
    && (job.lsdaRelative ==> link.FullCie? && Application(link.record.lsdaEncoding) == DW_EH_PE_absptr)
    && (job.makePerRelative ==> job.perRelative)
    && (job.perRelative ==>
          && link.FullCie?
          && Application(link.record.perEncoding) == if job.makePerRelative then DW_EH_PE_absptr else DW_EH_PE_pcrel)
    && (link.FullCie? && Application(link.record.perEncoding) == DW_EH_PE_pcrel ==> job.perRelative)
  }

  // ---------- what the write pass takes for granted ----------

  // Alignment padding is as long where the layout puts the CIE.
  predicate Steady(job: CieJob, encs: set<Byte>, ptrSize: PtrSize) {
    forall enc <- encs ::
      && (Application(enc) == DW_EH_PE_aligned && EncodedWidth(enc, ptrSize) > 0 ==>
            job.p.offset % EncodedWidth(enc, ptrSize) == job.p.Extra() % EncodedWidth(enc, ptrSize))
      && (job.makePerRelative ==> Application(enc) != DW_EH_PE_funcrel)
  }

  // It finds the letters' data: what it needs to stay inside the CIE.
  predicate CanEdit(job: CieJob, b: seq<Byte>, h: CieShape, ptrSize: PtrSize)
    requires job.p.Cie? && |b| == job.p.size
  {
    && Steady(job, EncodingsOf(b, h, job.p.size, job.p.offset, ptrSize), ptrSize)
    && (job.Todo().Any() ==> SkipsRight(b, h, job.p.size))
  }

  // And it keeps what the CIE means: each letter to be converted occurs once, the size
  // stays a single byte, and the string is short enough for the parser.
  predicate Handled(job: CieJob, b: seq<Byte>, h: CieShape, ptrSize: PtrSize)
    requires job.p.Cie? && |b| == job.p.size
  {
    && CanEdit(job, b, h, ptrSize)
    && (job.Todo().Any() ==>
          SizeFits(b, h, job.p) && AskedOnce(job, h.Rest()) && |h.letters| + job.p.ExtraString() < MAX_STRING)
  }

  // ---------- one CIE ----------

  function PaddedTo(b: seq<Byte>, size: nat): (r: seq<Byte>)
    requires |b| <= size
    ensures |r| == size && r[..|b|] == b
    ensures forall j {:trigger r[j]} :: 0 <= j < |b| ==> r[j] == b[j]
  {
    b + Zeros(size - |b|)
  }

  lemma RecordedIsOk(job: CieJob, o: Origin, h: CieShape, encs: set<Byte>, ptrSize: PtrSize, relocatable: bool)
    requires job.p.Cie? && Records(job.p, o, h, encs, ptrSize, relocatable) && FlagsRight(job, o.link)
    requires 10 <= job.p.size && job.p.size + job.p.Extra() <= job.newSize
    ensures job.Ok() && Asks(job, h.seen)
    ensures job.p.addAugmentationSize ==> h.letters == []
    ensures job.p.addFdeEncoding && h.letters == [] ==> job.p.addAugmentationSize
  {
    OmittedHasNone(ptrSize);
  }

  lemma AlignedPlace(x: nat, e: nat, y: nat, w: nat)
    requires (w == 2 || w == 4 || w == 8) && y % w == e % w && (if w == 8 then x % 8 == 0 else x % 4 == 0)
    ensures (x + e) % w == y % w
  {
    if w == 2 {
      RemainderIs(x, 2, 2 * (x / 4), 0);
    }
    AddRemainder(e, x, w);
    assert e + x == x + e;
  }

  // Where the layout puts the CIE the padding is what it was.
  lemma PaddingIsKept(job: CieJob, encs: set<Byte>, ptrSize: PtrSize)
    requires job.p.Cie? && Steady(job, encs, ptrSize) && job.newOffset % job.p.Alignment(ptrSize) == 0
    requires job.p.perEncodingAligned8 <==> exists enc <- encs :: AlignedTo(enc, 8, ptrSize)
    requires !job.p.Terminator()
    ensures PaddingKept(job, encs, ptrSize)
  {
    hide Parsed.Extra;
    forall enc | enc in encs ensures AlignmentKept(job, enc, ptrSize) {
      var w := EncodedWidth(enc, ptrSize);
      if Application(enc) == DW_EH_PE_aligned && w > 0 {
        assert w == 8 ==> AlignedTo(enc, 8, ptrSize);
        hide EncodedWidth;
        FourOrEight(job.newOffset, job.p.perEncodingAligned8);
        AlignedPlace(job.newOffset, job.p.Extra(), job.p.offset, w);
      }
    }
  }

  lemma FourOrEight(x: nat, eight: bool)
    requires x % (if eight then 8 else 4) == 0
    ensures x % 4 == 0 && (eight ==> x % 8 == 0)
  {
    if eight {
      RemainderIs(x, 4, 2 * (x / 8), 0);
    }
  }

  // The padded CIE is parsed as it was, with the same encodings.
  lemma PaddedParses(b: seq<Byte>, size: nat, base: nat, ptrSize: PtrSize, h: CieShape)
    requires 9 <= |b| <= size && ParseCie(b, |b|, base, ptrSize) == Some(h)
    ensures ParseCie(PaddedTo(b, size), |b|, base, ptrSize) == Some(h)
    ensures EncodingsOf(PaddedTo(b, size), h, |b|, base, ptrSize) == EncodingsOf(b, h, |b|, base, ptrSize)
  {
    hide ParseCie, EncodingsOf, LettersAt, PaddedTo;
    ParseCarried(b, PaddedTo(b, size), |b|, base, ptrSize, h);
    PlaceFound(b, |b|, base, ptrSize, h);
    EncodingsAre(b, PaddedTo(b, size), h, |b|, base, ptrSize);
  }

  // What is needed of a job is there.
  predicate Doable(job: CieJob, o: Origin, b: seq<Byte>, ptrSize: PtrSize, relocatable: bool) {
    && job.p.Cie? && |b| == job.p.size && CieFits(job.p, o, b, ptrSize, relocatable) && FlagsRight(job, o.link)
    && job.p.size + job.p.Extra() <= job.newSize && job.newOffset % job.p.Alignment(ptrSize) == 0
  }

  lemma CanBeEdited(job: CieJob, o: Origin, b: seq<Byte>, h: CieShape, ptrSize: PtrSize, relocatable: bool)
    requires Doable(job, o, b, ptrSize, relocatable) && ParseCie(b, job.p.size, job.p.offset, ptrSize) == Some(h)
    requires CanEdit(job, b, h, ptrSize)
    ensures job.Ok()
    ensures if job.Todo().Any() then Editable(PaddedTo(b, job.newSize), h, job, ptrSize)
            else Unedited(PaddedTo(b, job.newSize), h, job, ptrSize)
  {
    hide ParseCie, EncodingsOf, PaddingKept, Steady, Parsed.Alignment, FlagsRight, PaddedTo, Asks;
    var encs := EncodingsOf(b, h, job.p.size, job.p.offset, ptrSize);
    RecordedIsOk(job, o, h, encs, ptrSize, relocatable);
    PaddingIsKept(job, encs, ptrSize);
    PaddedParses(b, job.newSize, job.p.offset, ptrSize, h);
    ShapeIs(b, job.p.size, job.p.offset, ptrSize, h);
  }

  // The edit can be made.
  lemma CieJobIsOk(job: CieJob, o: Origin, b: seq<Byte>, out: Output, relocatable: bool)
    requires Doable(job, o, b, out.ptrSize, relocatable)
    requires CanEdit(job, b, ParseCie(b, job.p.size, job.p.offset, out.ptrSize).value, out.ptrSize)
    ensures JobOk(CieWork(job), b, out)
  {
    hide ParseCie, CanEdit, Walkable, FlagsRight, Editable, Unedited, Framed, Records, RecordsValues;
    var h := ParseCie(b, job.p.size, job.p.offset, out.ptrSize).value;
    CanBeEdited(job, o, b, h, out.ptrSize, relocatable);
    var c := PaddedTo(b, job.newSize);
    if job.Todo().Any() {
      Sizes(c, h, job, out.ptrSize);
      FramedIsEditable(c, h, job, out);
      AugmentedIs(Framed(out.endian, c, job.p.size), h, job, out);
    } else {
      NothingToWalk(Framed(out.endian, c, job.p.size), job, out);
    }
  }

  lemma HandledIsKept(job: CieJob, o: Origin, b: seq<Byte>, h: CieShape, ptrSize: PtrSize, relocatable: bool)
    requires Doable(job, o, b, ptrSize, relocatable) && ParseCie(b, job.p.size, job.p.offset, ptrSize) == Some(h)
    requires Handled(job, b, h, ptrSize)
    ensures Keeps(PaddedTo(b, job.newSize), h, job, ptrSize)
  {
    hide ParseCie, CanEdit, FlagsRight, Editable, Unedited, CieFits, AskedOnce;
    CanBeEdited(job, o, b, h, ptrSize, relocatable);
  }

  // ---------- what is known of a parsed CIE ----------

  lemma {:induction false} WidthsSeen(c: seq<Byte>, letters: seq<Byte>, s: Seen, end: nat, base: nat, ptrSize: PtrSize)
    requires end <= |c| && ReadLetters(c, letters, s, end, base, ptrSize).Some?
    ensures var t := ReadLetters(c, letters, s, end, base, ptrSize).value;
            && (t.lsda == s.lsda || EncodedWidth(t.lsda, ptrSize) > 0)
            && (t.fde == s.fde || EncodedWidth(t.fde, ptrSize) > 0)
    decreases |letters|
  {
    hide EncodedWidth, PointerPlace;
    if letters != [] {
      WidthsSeen(c, letters[1..], OneLetter(c, letters[0], s, end, base, ptrSize).value, end, base, ptrSize);
    }
  }

  // Its encodings have widths, and there is one exactly if there is a letter for it.
  lemma ShapeSays(b: seq<Byte>, end: nat, base: nat, ptrSize: PtrSize, h: CieShape)
    requires 9 <= end <= |b| && ParseCie(b, end, base, ptrSize) == Some(h)
    ensures HasWidths(h, ptrSize) && h.seen.at <= end
    ensures h.seen.lsda != DW_EH_PE_omit <==> LETTER_L in h.letters
    ensures h.seen.fde != DW_EH_PE_omit <==> LETTER_R in h.letters
    ensures h.seen.per != DW_EH_PE_omit <==> LETTER_P in h.letters
  {
    hide ParseCie, ReadLetters, EncodedWidth, AfterCieNumbers, AfterLeb;
    PlaceFound(b, end, base, ptrSize, h);
    ShapeIs(b, end, base, ptrSize, h);
    var at := LettersAt(b, h, end).value;
    assert h.(seen := Unseen(0)).Rest() == h.Rest();
    WidthsSeen(b, h.Rest(), Unseen(at), end, base, ptrSize);
    NotSeen(b, h.Rest(), Unseen(at), end, base, ptrSize);
    SeenIfThere(b, h.Rest(), Unseen(at), end, base, ptrSize);
    AbsoluteTurned(ptrSize);
    if h.Sized() {
      assert h.letters == [LETTER_Z] + h.Rest();
    }
  }

  // What is recorded makes for right conversions of the FDEs.
  lemma RecordsConvert(p: Parsed, o: Origin, b: seq<Byte>, h: CieShape, ptrSize: PtrSize, relocatable: bool,
                       lsdaRelative: bool)
    requires p.Cie? && |b| == p.size && CieFits(p, o, b, ptrSize, relocatable)
    requires ParseCie(b, p.size, p.offset, ptrSize) == Some(h)
    requires lsdaRelative ==> Application(h.seen.lsda) == DW_EH_PE_absptr
    ensures CieConversions(p, h, lsdaRelative) && HasWidths(h, ptrSize)
  {
    hide ParseCie, EncodingsOf, EncodedWidth, HasWidths;
    ShapeSays(b, p.size, p.offset, ptrSize, h);
    OmittedHasNone(ptrSize);
    AbsoluteTurned(ptrSize);
  }

  // Equal CIEs, in a link that treats all alike, are converted alike.
  lemma EqualConversions(p: Parsed, o: Origin, b: seq<Byte>, h: CieShape,
                         p': Parsed, o': Origin, b': seq<Byte>, h': CieShape, ptrSize: PtrSize, relocatable: bool)
    requires p.Cie? && |b| == p.size && CieFits(p, o, b, ptrSize, relocatable)
    requires p'.Cie? && |b'| == p'.size && CieFits(p', o', b', ptrSize, relocatable)
    requires ParseCie(b, p.size, p.offset, ptrSize) == Some(h) && ParseCie(b', p'.size, p'.offset, ptrSize) == Some(h')
    requires o.Ok() && o'.Ok() && o.cx.pic == o'.cx.pic && o.cx.canMakeRelative == o'.cx.canMakeRelative
    requires o.Key() != [] && o'.Key() != [] && CieEq(o'.Key()[0], o.Key()[0])
    ensures h'.letters == h.letters && h'.seen.lsda == h.seen.lsda && h'.seen.fde == h.seen.fde
    ensures p'.makeRelative == p.makeRelative && p'.addFdeEncoding == p.addFdeEncoding
    ensures p'.addAugmentationSize == p.addAugmentationSize
  {
    hide ParseCie, EncodingsOf, EncodedWidth, HasWidths;
    ShapeSays(b, p.size, p.offset, ptrSize, h);
    ShapeSays(b', p'.size, p'.offset, ptrSize, h');
    KeysAgree(o, o');
    OmittedHasNone(ptrSize);
  }

  lemma KeysAgree(o: Origin, o': Origin)
    requires o.Ok() && o'.Ok() && o.Key() != [] && o'.Key() != [] && CieEq(o'.Key()[0], o.Key()[0])
    ensures o.link.FullCie? && o'.link.FullCie? && o'.owner.outputSection == o.owner.outputSection
    ensures var r, r' := o.link.record, o'.link.record;
            && r'.augmentation == r.augmentation && r'.version == r.version && r'.fdeEncoding == r.fdeEncoding
            && r'.lsdaEncoding == r.lsdaEncoding && r'.perEncoding == r.perEncoding
  {
  }

  // ---------- one FDE ----------

  lemma {:induction false} SameOps(b: seq<Byte>, c: seq<Byte>, xs: seq<nat>)
    requires |b| <= |c| && forall j {:trigger c[j]} :: 0 <= j < |b| ==> c[j] == b[j]
    requires forall k {:trigger xs[k]} :: 0 <= k < |xs| ==> xs[k] < |b|
    ensures SetLocOps(c, xs) == SetLocOps(b, xs)
    decreases |xs|
  {
    if xs != [] {
      SameOps(b, c, xs[1..]);
    }
  }

  // What is recorded of the FDE b holds of the padded one.
  lemma PaddedShape(b: seq<Byte>, size: nat, h: CieShape, ptrSize: PtrSize, s: FdeShape)
    requires |b| <= size && ParseFde(b, |b|, h, ptrSize) == Some(s)
    ensures ParseFde(PaddedTo(b, size), |b|, h, ptrSize) == Some(s)
  {
    hide EncodedWidth, AfterLeb, LebValue, PaddedTo;
    if h.Sized() {
      LebCarried(b, 8 + 2 * s.width, |b|, PaddedTo(b, size), 0, |b|);
    }
  }

  lemma PaddedTable(b: seq<Byte>, size: nat, i: nat, w: nat, xs: seq<nat>)
    requires 8 <= i <= |b| <= size && Instructions(b, i, |b|, w) == Some(xs)
    ensures Instructions(PaddedTo(b, size), i, |b|, w) == Some(xs)
    ensures SetLocTable(PaddedTo(b, size), xs) == SetLocTable(b, xs)
  {
    hide Instructions, SetLocOps, PaddedTo, ShiftedBy;
    var c := PaddedTo(b, size);
    InstructionsCarried(b, i, |b|, w, xs, c, 0, |b|);
    SameAtZero(xs);
    SameOps(b, c, xs);
  }

  lemma PaddedRecords(p: Parsed, cie: Parsed, b: seq<Byte>, size: nat, h: CieShape, ptrSize: PtrSize)
    requires p.Fde? && cie.Cie? && |b| == p.size <= size && FdeRecords(p, cie, b, h, ptrSize)
    ensures FdeRecords(p, cie, PaddedTo(b, size), h, ptrSize)
    ensures var c, s := PaddedTo(b, size), ParseFde(b, p.size, h, ptrSize).value;
            && ParseFde(c, p.size, h, ptrSize) == Some(s)
            && Instructions(c, s.insns, p.size, s.width) == Instructions(b, s.insns, p.size, s.width)
  {
    hide Instructions, EncodedWidth, ParseFde, SetLocTable, PaddedTo;
    var s := ParseFde(b, p.size, h, ptrSize).value;
    PaddedShape(b, size, h, ptrSize, s);
    PaddedTable(b, size, s.insns, s.width, Instructions(b, s.insns, p.size, s.width).value);
  }

  // The work on a kept FDE of which everything is known.
  lemma FdeIsKnown(job: FdeJob, cie: Parsed, b: seq<Byte>, h: CieShape, s: FdeShape, xs: seq<nat>, ptrSize: PtrSize)
    requires job.p.Fde? && cie.Cie? && |b| == job.p.size && 8 <= |b| && job.p.size + job.p.Extra() <= job.newSize
    requires FdeRecords(job.p, cie, b, h, ptrSize) && HasWidths(h, ptrSize)
    requires ParseFde(b, job.p.size, h, ptrSize) == Some(s)
    requires Instructions(b, s.insns, job.p.size, s.width) == Some(xs)
    requires CieConversions(cie, h, job.cieLsdaRelative) && LsdaFits(job.p, s, ptrSize)
    ensures FdeKnown(PaddedTo(b, job.newSize), job, cie, h, s, xs, ptrSize)
  {
    hide Instructions, EncodedWidth, PaddedTo, FdeRecords, ParseFde, CieConversions, LsdaFits, HasWidths;
    PaddedRecords(job.p, cie, b, job.newSize, h, ptrSize);
  }
}
