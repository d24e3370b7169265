// Reading an FDE through its CIE: what the parser records of it, and what a reader of the
// output makes of the edited FDE, given the CIE as edited.

module EhFrameFdeReads {
  import opened Bytes
  import opened EhFrame
  import opened EhFrameFde
  import opened EhFrameCie
  import opened EhFrameCfa
  import opened EhFrameCieParse
  import opened EhFrameCieKept

  // ---------- the parser ----------

  // "If FDE encoding was not specified, it defaults to DW_EH_absptr."
  function FdeEncodingOf(h: CieShape): Byte {
    if h.seen.fde == DW_EH_PE_omit then DW_EH_PE_absptr else h.seen.fde
  }

  // A parsed FDE: the width of its addresses, where its LSDA pointer is, and where its
  // instructions start.
  datatype FdeShape = FdeShape(width: nat, lsda: Option<nat>, insns: nat)

  // The end of the addresses and of the augmentation size, if there is one.
  function AfterSize(c: seq<Byte>, i: nat, end: nat, h: CieShape): (r: Option<nat>)
    requires i <= end <= |c|
    ensures r.Some? ==> i <= r.value <= end
  {
    if h.Sized() then AfterLeb(c, i, end) else Some(i)
  }

  // The augmentation data's length.  Without a size, an LSDA pointer leaves it unknown
  // where the instructions are: "Assume no padding."
  function DataLength(c: seq<Byte>, i: nat, at: nat, end: nat, h: CieShape): nat
    requires i <= at <= end <= |c|
  {
    if h.Sized() then LebValue(c, i, at) else if h.seen.lsda != DW_EH_PE_omit then end - at else 0
  }

  // The FDE c, which ends at end, in the light of its CIE.
  function ParseFde(c: seq<Byte>, end: nat, h: CieShape, ptrSize: PtrSize): (r: Option<FdeShape>)
    requires end <= |c|
    ensures r.Some? ==>
              && 8 + 2 * r.value.width <= r.value.insns <= end
              && r.value.width == EncodedWidth(FdeEncodingOf(h), ptrSize)
              && (r.value.lsda.Some? <==> h.seen.lsda != DW_EH_PE_omit)
              && (r.value.lsda.Some? ==> 8 + 2 * r.value.width <= r.value.lsda.value <= r.value.insns)
  {
    var w := EncodedWidth(FdeEncodingOf(h), ptrSize);
    if 8 + 2 * w > end || AfterSize(c, 8 + 2 * w, end, h).None? then None
    else
      var at := AfterSize(c, 8 + 2 * w, end, h).value;
      var insns := AfterBytes(at, end, DataLength(c, 8 + 2 * w, at, end, h));
      if insns.None? then None
      else Some(FdeShape(w, if h.seen.lsda != DW_EH_PE_omit then Some(at) else None, insns.value))
  }

  // The DW_CFA_set_loc among xs.
  lemma {:induction false} OpsAre(b: seq<Byte>, xs: seq<nat>, x: nat)
    requires forall k {:trigger xs[k]} :: 0 <= k < |xs| ==> xs[k] < |b|
    ensures x in SetLocOps(b, xs) <==> x in xs && b[x] == DW_CFA_SET_LOC
    decreases |xs|
  {
    if xs != [] {
      assert xs == [xs[0]] + xs[1..];
      OpsAre(b, xs[1..], x);
    }
  }

  // Where their arguments are, from the initial location on.
  function SetLocTable(b: seq<Byte>, xs: seq<nat>): (t: seq<nat>)
    requires forall k {:trigger xs[k]} :: 0 <= k < |xs| ==> 8 <= xs[k] < |b|
    ensures |t| == |SetLocOps(b, xs)|
    ensures forall k {:trigger t[k]} :: 0 <= k < |t| ==> t[k] + 7 == SetLocOps(b, xs)[k]
  {
    var ops := SetLocOps(b, xs);
    assert forall k {:trigger ops[k]} :: 0 <= k < |ops| ==> 8 <= ops[k] by {
      forall k {:trigger ops[k]} | 0 <= k < |ops| ensures 8 <= ops[k] {
        assert ops[k] in ops;
        OpsAre(b, xs, ops[k]);
      }
    }
    seq<nat>(|ops|, k requires 0 <= k < |ops| => ops[k] - 7)
  }

  // One after the other, each with its argument.
  lemma {:induction false} OpsApart(b: seq<Byte>, i: nat, end: nat, w: nat)
    requires i <= end <= |b| && Instructions(b, i, end, w).Some?
    ensures var ops := SetLocOps(b, Instructions(b, i, end, w).value);
            && (forall k {:trigger ops[k]} :: 0 <= k < |ops| ==> i <= ops[k] && ops[k] + 1 + w <= end)
            && (forall k, l {:trigger ops[k], ops[l]} :: 0 <= k < l < |ops| ==> ops[k] + 1 + w <= ops[l])
    decreases end - i
  {
    hide AfterOp;
    if i < end {
      if b[i] == DW_CFA_NOP {
        NopIsStep(b, i, end, w);
        OpsApart(b, i + 1, end, w);
      } else {
        FirstSetLoc(b, i, end, w);
        var q := AfterOp(b, i, end, w).value;
        OpsApart(b, q, end, w);
        if b[i] == DW_CFA_SET_LOC {
          SetLocEnds(b, i, end, w);
        }
      }
    }
  }

  // What is recorded of an FDE whose bytes are those of c up to p.size: the conversions
  // of its CIE, and where its pointers are.
  predicate FdeRecords(p: Parsed, cie: Parsed, c: seq<Byte>, h: CieShape, ptrSize: PtrSize)
    requires p.Fde? && cie.Cie? && p.size <= |c|
  {
    && p.makeRelative == cie.makeRelative && p.addAugmentationSize == cie.addAugmentationSize
    && p.fdeEncoding == FdeEncodingOf(h) && p.lsdaEncoding == h.seen.lsda
    && ParseFde(c, p.size, h, ptrSize).Some?
    && var s := ParseFde(c, p.size, h, ptrSize).value;
       && (s.lsda.Some? ==> p.lsdaOffset == s.lsda.value - 8)
       && Instructions(c, s.insns, p.size, s.width).Some?
       && p.setLoc == if Application(p.fdeEncoding) == DW_EH_PE_pcrel || p.makeRelative
                      then SetLocTable(c, Instructions(c, s.insns, p.size, s.width).value) else []
  }

  // What the write pass takes for granted of an FDE: its LSDA pointer ends inside it.
  predicate LsdaFits(p: Parsed, s: FdeShape, ptrSize: PtrSize)
    requires p.Fde?
  {
    s.lsda.Some? ==> s.lsda.value + EncodedWidth(p.lsdaEncoding, ptrSize) <= p.size
  }

  // What makes it keep what the FDE means: the LSDA pointer is in the augmentation data,
  // and where a byte is inserted there is no DW_CFA_set_loc.
  predicate FdeHandled(p: Parsed, s: FdeShape, ptrSize: PtrSize)
    requires p.Fde?
  {
    && (s.lsda.Some? ==> s.lsda.value + EncodedWidth(p.lsdaEncoding, ptrSize) <= s.insns)
    && (p.addAugmentationSize ==> p.setLoc == [])
  }

  // The conversions of the CIE: only absolute encodings, and a new 'R' only where there
  // is none.
  predicate CieConversions(cie: Parsed, h: CieShape, lsdaRelative: bool)
    requires cie.Cie?
  {
    && (cie.makeRelative ==> Application(FdeEncodingOf(h)) == DW_EH_PE_absptr)
    && (cie.makeRelative && !cie.addFdeEncoding ==> h.seen.fde != DW_EH_PE_omit)
    && (cie.addFdeEncoding ==> cie.makeRelative && h.seen.fde == DW_EH_PE_omit)
    && (cie.addAugmentationSize ==> cie.addFdeEncoding && h.letters == [] && h.seen.lsda == DW_EH_PE_omit)
    && (lsdaRelative ==> Application(h.seen.lsda) == DW_EH_PE_absptr)
  }

  // g is the CIE h after these conversions.
  predicate CieConverted(h: CieShape, g: CieShape, cie: Parsed, lsdaRelative: bool, ptrSize: PtrSize)
    requires cie.Cie?
  {
    && g.seen.fde == (if cie.addFdeEncoding then MakePcRelative(DW_EH_PE_absptr, ptrSize)
                      else Recoded(h.seen.fde, cie.makeRelative, ptrSize))
    && g.seen.lsda == Recoded(h.seen.lsda, lsdaRelative, ptrSize)
    && (g.Sized() <==> h.Sized() || cie.addAugmentationSize)
  }

  // The encodings of a parsed CIE have widths.
  predicate HasWidths(h: CieShape, ptrSize: PtrSize) {
    && EncodedWidth(FdeEncodingOf(h), ptrSize) > 0
    && (h.seen.lsda != DW_EH_PE_omit ==> EncodedWidth(h.seen.lsda, ptrSize) > 0)
  }

  // ---------- the job ----------

  // The block c starts with the FDE of the job, of which the parser has found s.
  predicate FdeKnown(c: seq<Byte>, job: FdeJob, cie: Parsed, h: CieShape, s: FdeShape, xs: seq<nat>,
                      ptrSize: PtrSize) {
    && job.p.Fde? && cie.Cie? && |c| == job.newSize && job.p.size + job.p.Extra() <= |c| && 8 <= job.p.size
    && FdeRecords(job.p, cie, c, h, ptrSize) && HasWidths(h, ptrSize)
    && ParseFde(c, job.p.size, h, ptrSize) == Some(s) && Instructions(c, s.insns, job.p.size, s.width) == Some(xs)
    && CieConversions(cie, h, job.cieLsdaRelative) && LsdaFits(job.p, s, ptrSize)
  }

  predicate FdeParsed(c: seq<Byte>, job: FdeJob, cie: Parsed, h: CieShape, s: FdeShape, xs: seq<nat>,
                      ptrSize: PtrSize) {
    FdeKnown(c, job, cie, h, s, xs, ptrSize) && FdeHandled(job.p, s, ptrSize)
  }

  // A set_loc argument of the table is one of the instructions.
  lemma TableIs(c: seq<Byte>, job: FdeJob, cie: Parsed, h: CieShape, s: FdeShape, xs: seq<nat>, ptrSize: PtrSize,
                i: nat)
    requires FdeKnown(c, job, cie, h, s, xs, ptrSize) && i < |job.p.setLoc|
    ensures IsArgument(c, xs, 8 + job.p.setLoc[i])
    ensures s.insns < 8 + job.p.setLoc[i] && 8 + job.p.setLoc[i] + s.width <= job.p.size
    ensures forall j {:trigger job.p.setLoc[j]} :: i < j < |job.p.setLoc| ==>
              job.p.setLoc[i] + s.width <= job.p.setLoc[j]
  {
    hide ParseFde, Instructions, CieConversions, LsdaFits;
    var ops := SetLocOps(c, xs);
    OpsApart(c, s.insns, job.p.size, s.width);
    assert ops[i] == job.p.setLoc[i] + 7 && ops[i] in ops;
    OpsAre(c, xs, ops[i]);
    var x :| 0 <= x < |xs| && xs[x] == ops[i];
    forall j {:trigger job.p.setLoc[j]} | i < j < |job.p.setLoc| ensures job.p.setLoc[i] + s.width <= job.p.setLoc[j] {
      assert ops[j] == job.p.setLoc[j] + 7;
    }
  }

  // So the write pass stays inside the FDE.
  lemma KnownJobIsOk(c: seq<Byte>, job: FdeJob, cie: Parsed, h: CieShape, s: FdeShape, xs: seq<nat>, ptrSize: PtrSize)
    requires FdeKnown(c, job, cie, h, s, xs, ptrSize)
    ensures job.Ok(ptrSize)
  {
    hide FdeKnown, FdeJob.PatchesLsda, EncodedWidth, Instructions, IsArgument;
    KnownPlaces(c, job, cie, h, s, xs, ptrSize);
    forall i {:trigger job.p.setLoc[i]} | 0 <= i < |job.p.setLoc|
      ensures s.insns < 8 + job.p.setLoc[i] && 8 + job.p.setLoc[i] + s.width <= job.p.size
    {
      TableIs(c, job, cie, h, s, xs, ptrSize, i);
    }
  }

  lemma KnownPlaces(c: seq<Byte>, job: FdeJob, cie: Parsed, h: CieShape, s: FdeShape, xs: seq<nat>, ptrSize: PtrSize)
    requires FdeKnown(c, job, cie, h, s, xs, ptrSize)
    ensures job.p.Fde? && job.p.size + job.p.Extra() <= job.newSize
    ensures job.Width(ptrSize) == s.width > 0 && 8 + 2 * s.width <= s.insns <= job.p.size
    ensures job.PatchesLsda() ==>
              2 * s.width <= job.p.lsdaOffset && 8 + job.p.lsdaOffset + job.LsdaWidth(ptrSize) <= job.p.size
  {
    hide EncodedWidth, Instructions, SetLocTable;
    OmittedHasNone(ptrSize);
  }

  // What the parser guarantees is what the write pass needs.
  lemma ParsedJobIsOk(c: seq<Byte>, job: FdeJob, cie: Parsed, h: CieShape, s: FdeShape, xs: seq<nat>, ptrSize: PtrSize)
    requires FdeParsed(c, job, cie, h, s, xs, ptrSize)
    ensures job.Ok(ptrSize) && job.Width(ptrSize) == s.width && SetLocsApart(job, ptrSize) && |c| == job.newSize
    ensures InstructionsAt(c, job, ptrSize, s.insns, xs)
    ensures job.PatchesLsda() ==> s.lsda == Some(8 + job.p.lsdaOffset) && !job.p.addAugmentationSize
    ensures s.lsda.Some? ==> s.lsda.value + job.LsdaWidth(ptrSize) <= s.insns
  {
    hide FdeKnown, FdeJob.PatchesLsda, EncodedWidth, Instructions, IsArgument;
    PlacesAre(c, job, cie, h, s, xs, ptrSize);
    forall i {:trigger job.p.setLoc[i]} | 0 <= i < |job.p.setLoc|
      ensures s.insns < 8 + job.p.setLoc[i] && 8 + job.p.setLoc[i] + s.width <= job.p.size
      ensures IsArgument(c, xs, 8 + job.p.setLoc[i])
      ensures forall j {:trigger job.p.setLoc[j]} :: i < j < |job.p.setLoc| ==>
                job.p.setLoc[i] + s.width <= job.p.setLoc[j]
    {
      TableIs(c, job, cie, h, s, xs, ptrSize, i);
    }
  }

  // The places of everything but the set_loc arguments.
  lemma PlacesAre(c: seq<Byte>, job: FdeJob, cie: Parsed, h: CieShape, s: FdeShape, xs: seq<nat>, ptrSize: PtrSize)
    requires FdeParsed(c, job, cie, h, s, xs, ptrSize)
    ensures job.p.Fde? && |c| == job.newSize && job.p.size + job.p.Extra() <= job.newSize
    ensures job.Width(ptrSize) == s.width > 0 && 8 + 2 * s.width <= s.insns <= job.p.size
    ensures Instructions(c, s.insns, job.p.size, s.width) == Some(xs)
    ensures job.PatchesLsda() ==> s.lsda == Some(8 + job.p.lsdaOffset) && !job.p.addAugmentationSize
    ensures s.lsda.Some? ==>
              && s.lsda.value + job.LsdaWidth(ptrSize) <= s.insns
              && 8 + 2 * s.width <= s.lsda.value == 8 + job.p.lsdaOffset
  {
    hide EncodedWidth, Instructions, SetLocTable;
    OmittedHasNone(ptrSize);
  }

  // ---------- the edited FDE ----------

  // Between the addresses and the instructions nothing but the LSDA pointer is touched.
  lemma SizeBytes(c: seq<Byte>, job: FdeJob, out: Output, cie: Parsed, h: CieShape, s: FdeShape, xs: seq<nat>, k: nat)
    requires FdeParsed(c, job, cie, h, s, xs, out.ptrSize) && !out.relocatable
    requires 8 + 2 * s.width <= k < s.insns && (s.lsda.Some? ==> k < s.lsda.value)
    ensures job.Ok(out.ptrSize) && k + job.p.Extra() < |c|
    ensures EditFde(c, job, out)[k + job.p.Extra()] == c[k]
  {
    hide EditFde, FdeParsed, InstructionsAt;
    ParsedJobIsOk(c, job, cie, h, s, xs, out.ptrSize);
    ParsedIsPlain(c, job, cie, h, s, xs, out.ptrSize, k);
    InstructionBytesKept(c, job, out, k);
  }

  lemma ParsedIsPlain(c: seq<Byte>, job: FdeJob, cie: Parsed, h: CieShape, s: FdeShape, xs: seq<nat>,
                      ptrSize: PtrSize, k: nat)
    requires FdeParsed(c, job, cie, h, s, xs, ptrSize)
    requires 8 + 2 * s.width <= k < s.insns && (s.lsda.Some? ==> k < s.lsda.value)
    ensures job.Ok(ptrSize) && Plain(job, ptrSize, k)
    ensures job.p.addAugmentationSize ==> !job.PatchesLsda() && job.p.setLoc == []
  {
    hide FdeRecords, Instructions;
    ParsedJobIsOk(c, job, cie, h, s, xs, ptrSize);
    forall i {:trigger job.p.setLoc[i]} | 0 <= i < |job.p.setLoc| ensures s.insns < 8 + job.p.setLoc[i] {
      TableIs(c, job, cie, h, s, xs, ptrSize, i);
    }
  }

  // The byte that is inserted says that there is no augmentation data.
  lemma InsertedSize(c: seq<Byte>, job: FdeJob, out: Output)
    requires job.Ok(out.ptrSize) && |c| == job.newSize && !out.relocatable
    requires job.p.addAugmentationSize && !job.PatchesLsda() && job.p.setLoc == []
    ensures EditFde(c, job, out)[8 + 2 * job.Width(out.ptrSize)] == 0
  {
    hide WithInitial;
  }

  // Where a reader of the output finds the instructions.
  function InsnsAfter(job: FdeJob, g: CieShape, s: FdeShape): nat {
    if !g.Sized() && s.lsda.Some? then job.newSize else s.insns + job.p.Extra()
  }

  // The parts of an FDE, from the end of its augmentation size.
  lemma PartsAre(c: seq<Byte>, end: nat, h: CieShape, ptrSize: PtrSize, at: nat)
    requires end <= |c|
    requires var i := 8 + 2 * EncodedWidth(FdeEncodingOf(h), ptrSize); i <= end && AfterSize(c, i, end, h) == Some(at)
    ensures var w := EncodedWidth(FdeEncodingOf(h), ptrSize);
            var n := DataLength(c, 8 + 2 * w, at, end, h);
            ParseFde(c, end, h, ptrSize)
            == if end - at < n then None
               else Some(FdeShape(w, if h.seen.lsda != DW_EH_PE_omit then Some(at) else None, at + n))
  {
    hide AfterSize, DataLength, EncodedWidth, FdeEncodingOf;
  }

  // A reader of the output finds the same parts.
  lemma SameParts(c: seq<Byte>, job: FdeJob, out: Output, cie: Parsed, h: CieShape, g: CieShape, s: FdeShape,
                  xs: seq<nat>)
    requires FdeParsed(c, job, cie, h, s, xs, out.ptrSize) && !out.relocatable
    requires CieConverted(h, g, cie, job.cieLsdaRelative, out.ptrSize)
    ensures job.Ok(out.ptrSize) && |c| == job.newSize
    ensures ParseFde(EditFde(c, job, out), |c|, g, out.ptrSize) == Some(s.(insns := InsnsAfter(job, g, s)))
  {
    hide EditFde, InstructionsAt, FdeHandled, FdeRecords, Instructions, EncodedWidth, MakePcRelative, Application,
         AfterLeb, LebValue, ParseFde, FdeEncodingOf, Recoded;
    ParsedJobIsOk(c, job, cie, h, s, xs, out.ptrSize);
    SizeIs(c, job, cie, h, s, xs, out.ptrSize);
    ConvertedEncodings(h, g, cie, job.cieLsdaRelative, out.ptrSize);
    var r, i := EditFde(c, job, out), 8 + 2 * s.width;
    if h.Sized() {
      SameSize(c, job, out, cie, h, s, xs);
    } else if cie.addAugmentationSize {
      NewSize(c, job, out, cie, h, s, xs);
    }
    PartsAre(r, |c|, g, out.ptrSize, AfterSize(r, i, |c|, g).value);
  }

  lemma SizeIs(c: seq<Byte>, job: FdeJob, cie: Parsed, h: CieShape, s: FdeShape, xs: seq<nat>, ptrSize: PtrSize)
    requires FdeParsed(c, job, cie, h, s, xs, ptrSize)
    ensures s.width == EncodedWidth(FdeEncodingOf(h), ptrSize) && 8 + 2 * s.width <= job.p.size <= |c|
    ensures var i := 8 + 2 * s.width;
            && AfterSize(c, i, job.p.size, h).Some?
            && var at := AfterSize(c, i, job.p.size, h).value;
               && s.insns == at + DataLength(c, i, at, job.p.size, h) <= job.p.size
               && s.lsda == if h.seen.lsda != DW_EH_PE_omit then Some(at) else None
    ensures job.p.addAugmentationSize == cie.addAugmentationSize
    ensures cie.addAugmentationSize ==> !h.Sized()
    ensures job.p.Extra() == if cie.addAugmentationSize then 1 else 0
  {
    hide EncodedWidth, Instructions, AfterSize, DataLength, SetLocTable;
  }

  lemma ConvertedEncodings(h: CieShape, g: CieShape, cie: Parsed, lsdaRelative: bool, ptrSize: PtrSize)
    requires cie.Cie? && HasWidths(h, ptrSize) && CieConversions(cie, h, lsdaRelative)
    requires CieConverted(h, g, cie, lsdaRelative, ptrSize)
    ensures EncodedWidth(FdeEncodingOf(g), ptrSize) == EncodedWidth(FdeEncodingOf(h), ptrSize)
    ensures EncodedWidth(g.seen.lsda, ptrSize) == EncodedWidth(h.seen.lsda, ptrSize)
    ensures g.seen.lsda != DW_EH_PE_omit <==> h.seen.lsda != DW_EH_PE_omit
    ensures Application(FdeEncodingOf(g)) == if cie.makeRelative then DW_EH_PE_pcrel else Application(FdeEncodingOf(h))
    ensures Application(g.seen.lsda) == if lsdaRelative then DW_EH_PE_pcrel else Application(h.seen.lsda)
  {
    hide EncodedWidth, MakePcRelative, Application;
    OmittedHasNone(ptrSize);
    TurnedKeeps(h.seen.fde, true, ptrSize);
    TurnedKeeps(h.seen.lsda, true, ptrSize);
    TurnedKeeps(DW_EH_PE_absptr, true, ptrSize);
    AbsoluteTurned(ptrSize);
    if cie.makeRelative && !cie.addFdeEncoding {
      PcRelativeKeepsWidth(h.seen.fde, ptrSize);
    }
    if lsdaRelative {
      PcRelativeKeepsWidth(h.seen.lsda, ptrSize);
    }
  }

  lemma AbsoluteTurned(ptrSize: PtrSize)
    ensures Application(MakePcRelative(DW_EH_PE_absptr, ptrSize)) == DW_EH_PE_pcrel
    ensures Application(DW_EH_PE_absptr) == DW_EH_PE_absptr && EncodedWidth(DW_EH_PE_absptr, ptrSize) == ptrSize
  {
    PcRelativeKeepsWidth(DW_EH_PE_absptr, ptrSize);
  }

  // The augmentation size is read as before.
  lemma SameSize(c: seq<Byte>, job: FdeJob, out: Output, cie: Parsed, h: CieShape, s: FdeShape, xs: seq<nat>)
    requires FdeParsed(c, job, cie, h, s, xs, out.ptrSize) && !out.relocatable && h.Sized()
    ensures job.Ok(out.ptrSize) && |c| == job.newSize && job.p.Extra() == 0 && 8 + 2 * s.width <= job.p.size
    ensures var r, i, at := EditFde(c, job, out), 8 + 2 * s.width, AfterLeb(c, 8 + 2 * s.width, job.p.size);
            at.Some? && AfterLeb(r, i, |c|) == at && LebValue(r, i, at.value) == LebValue(c, i, at.value)
  {
    hide EditFde, InstructionsAt, Instructions, EncodedWidth, AfterLeb, LebValue;
    ParsedJobIsOk(c, job, cie, h, s, xs, out.ptrSize);
    var r, i, at := EditFde(c, job, out), 8 + 2 * s.width, AfterLeb(c, 8 + 2 * s.width, job.p.size).value;
    forall k {:trigger c[k]} | i <= k < at ensures r[k + 0] == c[k] {
      SizeBytes(c, job, out, cie, h, s, xs, k);
    }
    LebCarried(c, i, job.p.size, r, 0, |c|);
  }

  // The new one is a zero.
  lemma NewSize(c: seq<Byte>, job: FdeJob, out: Output, cie: Parsed, h: CieShape, s: FdeShape, xs: seq<nat>)
    requires FdeParsed(c, job, cie, h, s, xs, out.ptrSize) && !out.relocatable && cie.addAugmentationSize
    ensures job.Ok(out.ptrSize) && |c| == job.newSize && job.p.Extra() == 1 && s.insns == 8 + 2 * s.width < |c|
    ensures var r, i := EditFde(c, job, out), 8 + 2 * s.width;
            AfterLeb(r, i, |c|) == Some(i + 1) && LebValue(r, i, i + 1) == 0
  {
    hide EditFde, InstructionsAt, Instructions, EncodedWidth, AfterLeb, LebValue;
    ParsedJobIsOk(c, job, cie, h, s, xs, out.ptrSize);
    InsertedSize(c, job, out);
    ZeroLeb(EditFde(c, job, out), 8 + 2 * s.width, |c|);
  }

  lemma ZeroLeb(r: seq<Byte>, i: nat, end: nat)
    requires i < end <= |r| && r[i] == 0
    ensures AfterLeb(r, i, end) == Some(i + 1) && LebValue(r, i, i + 1) == 0
  {
    assert r[i..i + 1] == [0];
  }

  // ---------- what it means ----------

  // A pointer of n bytes at i in b, whose place is `place`, has at j in r the target that
  // it had, and a zero one is still zero.
  predicate SamePointer(e: Endian, n: nat, b: seq<Byte>, i: nat, enc: Byte, place: int,
                        r: seq<Byte>, j: nat, enc': Byte, place': int)
    requires i + n <= |b| && j + n <= |r|
  {
    var v, v' := ValueAt(e, b, i, n), ValueAt(e, r, j, n);
    if v == 0 then v' == 0
    else Target(Application(enc'), v', place') % Power256(n) == Target(Application(enc), v, place) % Power256(n)
  }

  // The FDE r, as a reader finds it through CIE g, means what c meant through h: where
  // its code is and how much, where its LSDA is, what its instructions are, and what
  // addresses they name.
  predicate SameFde(c: seq<Byte>, job: FdeJob, out: Output, h: CieShape, g: CieShape, s: FdeShape, xs: seq<nat>,
                    r: seq<Byte>) {
    var was, now, w := out.Base() + job.p.offset, out.Base() + job.newOffset, s.width;
    && |r| == |c| == job.newSize && 8 + 2 * w <= s.insns <= job.p.size <= |c|
    && ParseFde(r, |r|, g, out.ptrSize) == Some(s.(insns := InsnsAfter(job, g, s)))
    && SamePointer(out.endian, w, c, 8, FdeEncodingOf(h), was + 8, r, 8, FdeEncodingOf(g), now + 8)
    && ValueAt(out.endian, r, 8 + w, w) == ValueAt(out.endian, c, 8 + w, w)
    && (s.lsda.Some? ==>
          var i, n := s.lsda.value, EncodedWidth(h.seen.lsda, out.ptrSize);
          i + n <= |c| && SamePointer(out.endian, n, c, i, h.seen.lsda, was + i, r, i, g.seen.lsda, now + i))
    && InsnsAfter(job, g, s) <= |r|
    && Instructions(r, InsnsAfter(job, g, s), |r|, w) == Some(ShiftedBy(xs, job.p.Extra()))
    && (forall k {:trigger xs[k]} :: 0 <= k < |xs| && xs[k] < |c| && c[xs[k]] == DW_CFA_SET_LOC ==>
          var i, j := xs[k] + 1, xs[k] + 1 + job.p.Extra();
          && i + w <= |c| && j + w <= |r|
          && SamePointer(out.endian, w, c, i, FdeEncodingOf(h), was + i, r, j, FdeEncodingOf(g), now + j))
  }

  lemma InitialIsSame(c: seq<Byte>, job: FdeJob, out: Output, cie: Parsed, h: CieShape, g: CieShape, s: FdeShape,
                      xs: seq<nat>)
    requires FdeParsed(c, job, cie, h, s, xs, out.ptrSize) && !out.relocatable
    requires CieConverted(h, g, cie, job.cieLsdaRelative, out.ptrSize)
    ensures job.Ok(out.ptrSize) && |c| == job.newSize && 8 + s.width <= |c|
    ensures SamePointer(out.endian, s.width, c, 8, FdeEncodingOf(h), out.vma + out.outputOffset + job.p.offset + 8,
                        EditFde(c, job, out), 8, FdeEncodingOf(g), out.vma + out.outputOffset + job.newOffset + 8)
  {
    hide EditFde, InstructionsAt, Instructions, EncodedWidth, MakePcRelative, Application, ParseFde, Power256, ValueAt,
         FdeEncodingOf;
    ParsedJobIsOk(c, job, cie, h, s, xs, out.ptrSize);
    ConvertedEncodings(h, g, cie, job.cieLsdaRelative, out.ptrSize);
    InitialLocationKept(c, job, out);
  }

  lemma LsdaIsSame(c: seq<Byte>, job: FdeJob, out: Output, cie: Parsed, h: CieShape, g: CieShape, s: FdeShape,
                   xs: seq<nat>)
    requires FdeParsed(c, job, cie, h, s, xs, out.ptrSize) && !out.relocatable && s.lsda.Some?
    requires CieConverted(h, g, cie, job.cieLsdaRelative, out.ptrSize)
    ensures job.Ok(out.ptrSize) && |c| == job.newSize
    ensures s.lsda.value + EncodedWidth(h.seen.lsda, out.ptrSize) <= job.p.size <= |c|
    ensures var i, n := s.lsda.value, EncodedWidth(h.seen.lsda, out.ptrSize);
            SamePointer(out.endian, n, c, i, h.seen.lsda, out.vma + out.outputOffset + job.p.offset + i,
                        EditFde(c, job, out), i, g.seen.lsda, out.vma + out.outputOffset + job.newOffset + i)
  {
    hide EditFde, InstructionsAt, Instructions, EncodedWidth, MakePcRelative, Application, ParseFde, Power256, ValueAt,
         FdeEncodingOf;
    ParsedJobIsOk(c, job, cie, h, s, xs, out.ptrSize);
    ConvertedEncodings(h, g, cie, job.cieLsdaRelative, out.ptrSize);
    if job.PatchesLsda() {
      LsdaKept(c, job, out);
    } else {
      var i, n, r := s.lsda.value, EncodedWidth(h.seen.lsda, out.ptrSize), EditFde(c, job, out);
      forall k {:trigger r[k]} | i <= k < i + n ensures r[k] == c[k] {
        LsdaByte(c, job, out, cie, h, s, xs, k);
      }
      SameValue(out.endian, r, i, c, i, n);
    }
  }

  lemma LsdaByte(c: seq<Byte>, job: FdeJob, out: Output, cie: Parsed, h: CieShape, s: FdeShape, xs: seq<nat>, k: nat)
    requires FdeParsed(c, job, cie, h, s, xs, out.ptrSize) && !out.relocatable && s.lsda.Some?
    requires job.Ok(out.ptrSize) && |c| == job.newSize && !job.PatchesLsda() && s.lsda.value <= k < s.insns
    ensures EditFde(c, job, out)[k] == c[k]
  {
    hide EditFde, InstructionsAt, Instructions, EncodedWidth, ParseFde, FdeRecords;
    ParsedJobIsOk(c, job, cie, h, s, xs, out.ptrSize);
    forall i {:trigger job.p.setLoc[i]} | 0 <= i < |job.p.setLoc| ensures s.insns < 8 + job.p.setLoc[i] {
      TableIs(c, job, cie, h, s, xs, out.ptrSize, i);
    }
    NoLsdaInserted(c, job, cie, h, s, xs, out.ptrSize);
    InstructionBytesKept(c, job, out, k);
  }

  lemma NoLsdaInserted(c: seq<Byte>, job: FdeJob, cie: Parsed, h: CieShape, s: FdeShape, xs: seq<nat>, ptrSize: PtrSize)
    requires FdeParsed(c, job, cie, h, s, xs, ptrSize)
    ensures s.lsda.Some? ==> job.p.Extra() == 0 && !job.p.addAugmentationSize
  {
    hide Instructions, EncodedWidth;
  }

  // The instructions.
  lemma InstructionsAreSame(c: seq<Byte>, job: FdeJob, out: Output, cie: Parsed, h: CieShape, g: CieShape,
                            s: FdeShape, xs: seq<nat>)
    requires FdeParsed(c, job, cie, h, s, xs, out.ptrSize) && !out.relocatable
    requires CieConverted(h, g, cie, job.cieLsdaRelative, out.ptrSize)
    ensures job.Ok(out.ptrSize) && |c| == job.newSize && InsnsAfter(job, g, s) <= |c|
    ensures Instructions(EditFde(c, job, out), InsnsAfter(job, g, s), |c|, s.width)
            == Some(ShiftedBy(xs, job.p.Extra()))
  {
    hide EditFde, InstructionsAt, EncodedWidth, FdeRecords, ParseFde, ShiftedBy, FdeParsed, Instructions,
         MakePcRelative;
    ParsedJobIsOk(c, job, cie, h, s, xs, out.ptrSize);
    SizeIs(c, job, cie, h, s, xs, out.ptrSize);
    PlacesAre(c, job, cie, h, s, xs, out.ptrSize);
    if !g.Sized() && s.lsda.Some? {
      ShiftedNone(job.p.Extra());
      NoneLeft(c, job.p.size, s.width);
      NoneLeft(EditFde(c, job, out), |c|, s.width);
    } else {
      HandledIs(c, job, cie, h, s, xs, out.ptrSize);
      FdeReadsTheSame(c, job, out, s.insns, xs);
    }
  }

  lemma NoneLeft(c: seq<Byte>, end: nat, w: nat)
    requires end <= |c|
    ensures Instructions(c, end, end, w) == Some([])
  {
  }

  lemma HandledIs(c: seq<Byte>, job: FdeJob, cie: Parsed, h: CieShape, s: FdeShape, xs: seq<nat>, ptrSize: PtrSize)
    requires FdeParsed(c, job, cie, h, s, xs, ptrSize)
    ensures job.p.Fde? && (job.p.addAugmentationSize ==> job.p.setLoc == [])
  {
    hide FdeRecords, ParseFde, Instructions;
  }

  // A DW_CFA_set_loc is in the table.
  lemma InTable(c: seq<Byte>, insns: nat, end: nat, w: nat, xs: seq<nat>, k: nat)
    requires 8 <= insns <= end <= |c| && Instructions(c, insns, end, w) == Some(xs)
    requires k < |xs| && c[xs[k]] == DW_CFA_SET_LOC
    ensures insns <= xs[k] && xs[k] + 1 + w <= end && (xs[k] - 7) in SetLocTable(c, xs)
  {
    hide Instructions;
    var ops := SetLocOps(c, xs);
    OpsApart(c, insns, end, w);
    assert xs[k] in xs;
    OpsAre(c, xs, xs[k]);
    var i :| 0 <= i < |ops| && ops[i] == xs[k];
    assert SetLocTable(c, xs)[i] + 7 == ops[i];
  }

  // The argument of a DW_CFA_set_loc is inside the FDE, and recorded if it may change.
  lemma ArgumentIs(c: seq<Byte>, job: FdeJob, cie: Parsed, h: CieShape, s: FdeShape, xs: seq<nat>, ptrSize: PtrSize,
                   k: nat)
    requires FdeParsed(c, job, cie, h, s, xs, ptrSize) && k < |xs| && c[xs[k]] == DW_CFA_SET_LOC
    ensures s.insns <= xs[k] && xs[k] + 1 + s.width <= job.p.size
    ensures Application(job.p.fdeEncoding) == DW_EH_PE_pcrel || job.p.makeRelative ==>
              (xs[k] - 7) in job.p.setLoc && job.p.Extra() == 0
    ensures !(Application(job.p.fdeEncoding) == DW_EH_PE_pcrel || job.p.makeRelative) ==>
              job.p.setLoc == [] && job.p.Extra() == 0
  {
    hide ParseFde, Instructions, Application, SetLocTable, LsdaFits;
    InTable(c, s.insns, job.p.size, s.width, xs, k);
  }

  lemma SetLocIsSame(c: seq<Byte>, job: FdeJob, out: Output, cie: Parsed, h: CieShape, g: CieShape, s: FdeShape,
                     xs: seq<nat>, k: nat)
    requires FdeParsed(c, job, cie, h, s, xs, out.ptrSize) && !out.relocatable
    requires CieConverted(h, g, cie, job.cieLsdaRelative, out.ptrSize)
    requires k < |xs| && c[xs[k]] == DW_CFA_SET_LOC
    ensures job.Ok(out.ptrSize) && |c| == job.newSize && job.p.Extra() == 0 && xs[k] + 1 + s.width <= |c|
    ensures var i := xs[k] + 1;
            SamePointer(out.endian, s.width, c, i, FdeEncodingOf(h), out.vma + out.outputOffset + job.p.offset + i,
                        EditFde(c, job, out), i, FdeEncodingOf(g), out.vma + out.outputOffset + job.newOffset + i)
  {
    hide EditFde, InstructionsAt, Instructions, EncodedWidth, MakePcRelative, Application, ParseFde, Power256, ValueAt,
         FdeEncodingOf, SetLocTable;
    ParsedJobIsOk(c, job, cie, h, s, xs, out.ptrSize);
    ConvertedEncodings(h, g, cie, job.cieLsdaRelative, out.ptrSize);
    ArgumentIs(c, job, cie, h, s, xs, out.ptrSize, k);
    if Application(job.p.fdeEncoding) == DW_EH_PE_pcrel || job.p.makeRelative {
      var n :| 0 <= n < |job.p.setLoc| && job.p.setLoc[n] == xs[k] - 7;
      SetLocKept(c, job, out, n);
    } else {
      var r, i := EditFde(c, job, out), xs[k] + 1;
      forall j {:trigger r[j]} | i <= j < i + s.width ensures r[j] == c[j] {
        assert Plain(job, out.ptrSize, j);
        InstructionBytesKept(c, job, out, j);
      }
      SameValue(out.endian, r, i, c, i, s.width);
    }
  }

  // An edited FDE, read through its CIE as edited, means what it meant.
  lemma FdeReadsThrough(c: seq<Byte>, job: FdeJob, out: Output, cie: Parsed, h: CieShape, g: CieShape, s: FdeShape,
                        xs: seq<nat>)
    requires FdeParsed(c, job, cie, h, s, xs, out.ptrSize) && !out.relocatable
    requires CieConverted(h, g, cie, job.cieLsdaRelative, out.ptrSize)
    ensures job.Ok(out.ptrSize) && |c| == job.newSize
    ensures SameFde(c, job, out, h, g, s, xs, EditFde(c, job, out))
  {
    hide FdeParsed, CieConverted, EditFde, InstructionsAt, Instructions, EncodedWidth, ParseFde, SamePointer, ShiftedBy,
         FdeEncodingOf, InsnsAfter, ValueAt, SetLocsApart;
    ParsedJobIsOk(c, job, cie, h, s, xs, out.ptrSize);
    ParsedIs(c, job, cie, h, s, xs, out.ptrSize);
    SameParts(c, job, out, cie, h, g, s, xs);
    InitialIsSame(c, job, out, cie, h, g, s, xs);
    RangeKept(c, job, out);
    if s.lsda.Some? {
      LsdaIsSame(c, job, out, cie, h, g, s, xs);
    }
    InstructionsAreSame(c, job, out, cie, h, g, s, xs);
    forall k {:trigger xs[k]} | 0 <= k < |xs| && c[xs[k]] == DW_CFA_SET_LOC
      ensures xs[k] + 1 + job.p.Extra() + s.width <= |c|
      ensures var i, j := xs[k] + 1, xs[k] + 1 + job.p.Extra();
              SamePointer(out.endian, s.width, c, i, FdeEncodingOf(h), out.vma + out.outputOffset + job.p.offset + i,
                          EditFde(c, job, out), j, FdeEncodingOf(g), out.vma + out.outputOffset + job.newOffset + j)
    {
      SetLocIsSame(c, job, out, cie, h, g, s, xs, k);
    }
  }

  lemma ParsedIs(c: seq<Byte>, job: FdeJob, cie: Parsed, h: CieShape, s: FdeShape, xs: seq<nat>, ptrSize: PtrSize)
    requires FdeParsed(c, job, cie, h, s, xs, ptrSize)
    ensures job.p.size <= |c| && 8 + 2 * s.width <= s.insns <= job.p.size
    ensures s.lsda.Some? ==> s.lsda.value + EncodedWidth(h.seen.lsda, ptrSize) <= job.p.size
    ensures forall k {:trigger xs[k]} :: 0 <= k < |xs| ==> xs[k] < |c|
  {
    hide EncodedWidth, SetLocTable;
  }
}
