// The FDE half of the third loop of _bfd_elf_write_section_eh_frame.

module EhFrameFde {
  import opened Bytes
  import opened EhFrame

  // What the write pass knows about the output.
  datatype Output = Output(endian: Endian, ptrSize: PtrSize, relocatable: bool,
                           vma: int,            // output_section->vma
                           outputOffset: int)   // of the input section in it
  {
    // The run-time address of offset 0 of the edited section.
    function Base(): int { vma + outputOffset }
  }

  // One FDE to write: where it goes, how big it becomes, and the CIE it uses.
  datatype FdeJob = FdeJob(p: Parsed, newOffset: nat, newSize: nat,
                           ciePosition: int,    // of the CIE, in the output section
                           cieLsdaRelative: bool)
  {
    function Width(ptrSize: PtrSize): nat { EncodedWidth(p.fdeEncoding, ptrSize) }

    function LsdaWidth(ptrSize: PtrSize): nat { EncodedWidth(p.lsdaEncoding, ptrSize) }

    predicate PatchesLsda() {
      Application(p.lsdaEncoding) == DW_EH_PE_pcrel || cieLsdaRelative
    }

    // The parser's guarantees for an FDE.
    predicate Ok(ptrSize: PtrSize) {
      var w := Width(ptrSize);
      && p.Fde? && w > 0 && 8 + 2 * w <= p.size && p.size + p.Extra() <= newSize
      && (PatchesLsda() ==> 2 * w <= p.lsdaOffset && 8 + p.lsdaOffset + LsdaWidth(ptrSize) <= p.size)
      && (forall i {:trigger p.setLoc[i]} :: 0 <= i < |p.setLoc| ==>
            2 * w <= p.setLoc[i] && 8 + p.setLoc[i] + w <= p.size)
    }
  }

  // `new_size - 4` in the length word and zeros (DW_CFA_nop) after the old bytes.
  function Framed(e: Endian, b: seq<Byte>, size: nat): (r: seq<Byte>)
    requires 4 <= size <= |b|
    ensures |r| == |b| && ValueAt(e, r, 0, 4) == (|b| - 4) % Power256(4)
    ensures forall j {:trigger r[j]} :: 4 <= j < |b| ==> r[j] == if j < size then b[j] else 0
  {
    var s := PutValue(e, b, 0, 4, |b| - 4);
    var r := Splice(s, size, Zeros(|b| - size));
    SameValue(e, r, 0, s, 0, 4);
    r
  }

  // Adding delta to the n-byte value at i, unless it is zero.
  function Shifted(e: Endian, b: seq<Byte>, i: nat, n: nat, delta: int): (r: seq<Byte>)
    requires i + n <= |b|
    ensures |r| == |b|
    ensures ValueAt(e, r, i, n)
            == if ValueAt(e, b, i, n) == 0 then 0 else (ValueAt(e, b, i, n) + delta) % Power256(n)
    ensures forall j {:trigger r[j]} :: 0 <= j < |b| && !(i <= j < i + n) ==> r[j] == b[j]
  {
    if ValueAt(e, b, i, n) == 0 then b else PutValue(e, b, i, n, ValueAt(e, b, i, n) + delta)
  }

  function InitialDelta(job: FdeJob, out: Output): int {
    (if Application(job.p.fdeEncoding) == DW_EH_PE_pcrel then job.p.offset - job.newOffset else 0)
    - (if job.p.makeRelative then out.Base() + job.newOffset + 8 else 0)
  }

  function LsdaDelta(job: FdeJob, out: Output): int
    requires job.p.Fde?
  {
    if Application(job.p.lsdaEncoding) == DW_EH_PE_pcrel then job.p.offset - job.newOffset
    else -(out.Base() + job.newOffset + 8 + job.p.lsdaOffset)
  }

  // For a DW_CFA_set_loc argument that is setLoc bytes after the initial location.
  function SetLocDelta(job: FdeJob, out: Output, setLoc: nat): int {
    var newStart := job.newOffset + 8 + job.p.Extra();
    (if Application(job.p.fdeEncoding) == DW_EH_PE_pcrel then job.p.offset + 8 - newStart else 0)
    - (if job.p.makeRelative then out.Base() + newStart + setLoc else 0)
  }

  // A zero byte at i, with the bytes from i to end moved up.
  function Opened(b: seq<Byte>, i: nat, end: nat): (r: seq<Byte>)
    requires i <= end < |b|
    ensures |r| == |b| && r[i] == 0
    ensures forall j {:trigger r[j]} :: 0 <= j < |b| && j != i ==>
              r[j] == if i < j <= end then b[j - 1] else b[j]
  {
    Splice(b, i + 1, b[i..end])[i := 0]
  }

  // Set_loc argument k patched.
  function OneSetLoc(b: seq<Byte>, job: FdeJob, out: Output, k: nat): (r: seq<Byte>)
    requires job.Ok(out.ptrSize) && k < |job.p.setLoc| && |b| == job.newSize
    ensures |r| == |b|
  {
    Shifted(out.endian, b, 8 + job.p.setLoc[k], job.Width(out.ptrSize), SetLocDelta(job, out, job.p.setLoc[k]))
  }

  // The first n set_loc arguments patched.
  function SetLocs(b: seq<Byte>, job: FdeJob, out: Output, n: nat): (r: seq<Byte>)
    requires job.Ok(out.ptrSize) && n <= |job.p.setLoc| && |b| == job.newSize
    ensures |r| == |b|
  {
    if n == 0 then b
    else OneSetLoc(SetLocs(b, job, out, n - 1), job, out, n - 1)
  }

  // The edited FDE up to the point where a relocatable link stops.
  function Pointed(b: seq<Byte>, job: FdeJob, out: Output): (r: seq<Byte>)
    requires job.Ok(out.ptrSize) && |b| == job.newSize
    ensures |r| == |b|
  {
    PutValue(out.endian, Framed(out.endian, b, job.p.size), 4, 4,
             job.newOffset + out.outputOffset + 4 - job.ciePosition)
  }

  function WithInitial(b: seq<Byte>, job: FdeJob, out: Output): (r: seq<Byte>)
    requires job.Ok(out.ptrSize) && |b| == job.newSize
    ensures |r| == |b|
  {
    Shifted(out.endian, Pointed(b, job, out), 8, job.Width(out.ptrSize), InitialDelta(job, out))
  }

  function WithAugmentation(b: seq<Byte>, job: FdeJob, out: Output): (r: seq<Byte>)
    requires job.Ok(out.ptrSize) && |b| == job.newSize
    ensures |r| == |b|
  {
    var w := WithInitial(b, job, out);
    if job.PatchesLsda() then
      Shifted(out.endian, w, 8 + job.p.lsdaOffset, job.LsdaWidth(out.ptrSize), LsdaDelta(job, out))
    else if job.p.addAugmentationSize then Opened(w, 8 + 2 * job.Width(out.ptrSize), job.p.size)
    else w
  }

  // The edited FDE, from a block that starts with its p.size original bytes.
  function EditFde(b: seq<Byte>, job: FdeJob, out: Output): (r: seq<Byte>)
    requires job.Ok(out.ptrSize) && |b| == job.newSize
    ensures |r| == |b|
  {
    if out.relocatable then Pointed(b, job, out)
    else SetLocs(WithAugmentation(b, job, out), job, out, |job.p.setLoc|)
  }

  // ---------- what the edit means ----------

  // The set_loc patches leave alone every byte outside the arguments.
  lemma {:induction false} SetLocsElsewhere(b: seq<Byte>, job: FdeJob, out: Output, n: nat, j: nat)
    requires job.Ok(out.ptrSize) && n <= |job.p.setLoc| && |b| == job.newSize && j < |b|
    requires forall i {:trigger job.p.setLoc[i]} :: 0 <= i < n ==>
               !(8 + job.p.setLoc[i] <= j < 8 + job.p.setLoc[i] + job.Width(out.ptrSize))
    ensures SetLocs(b, job, out, n)[j] == b[j]
  {
    if n > 0 {
      SetLocsElsewhere(b, job, out, n - 1, j);
    }
  }

  // Everything before the end of the address range is as WithInitial leaves it.
  lemma HeadBytes(b: seq<Byte>, job: FdeJob, out: Output, j: nat)
    requires job.Ok(out.ptrSize) && |b| == job.newSize && !out.relocatable
    requires j < 8 + 2 * job.Width(out.ptrSize)
    ensures EditFde(b, job, out)[j] == WithInitial(b, job, out)[j]
  {
    SetLocsElsewhere(WithAugmentation(b, job, out), job, out, |job.p.setLoc|, j);
  }

  lemma HeadValue(b: seq<Byte>, job: FdeJob, out: Output, i: nat, n: nat)
    requires job.Ok(out.ptrSize) && |b| == job.newSize && !out.relocatable
    requires i + n <= 8 + 2 * job.Width(out.ptrSize)
    ensures ValueAt(out.endian, EditFde(b, job, out), i, n) == ValueAt(out.endian, WithInitial(b, job, out), i, n)
  {
    forall k | i <= k < i + n ensures EditFde(b, job, out)[k] == WithInitial(b, job, out)[k] {
      HeadBytes(b, job, out, k);
    }
    SameValue(out.endian, EditFde(b, job, out), i, WithInitial(b, job, out), i, n);
  }

  // The length word leads to the next entry.
  lemma FdeLength(b: seq<Byte>, job: FdeJob, out: Output)
    requires job.Ok(out.ptrSize) && |b| == job.newSize
    ensures ValueAt(out.endian, EditFde(b, job, out), 0, 4) == (job.newSize - 4) % Power256(4)
  {
    var framed := Framed(out.endian, b, job.p.size);
    SameValue(out.endian, Pointed(b, job, out), 0, framed, 0, 4);
    if !out.relocatable {
      SameValue(out.endian, WithInitial(b, job, out), 0, Pointed(b, job, out), 0, 4);
      HeadValue(b, job, out, 0, 4);
    }
  }

  lemma PointerWord(b: seq<Byte>, job: FdeJob, out: Output)
    requires job.Ok(out.ptrSize) && |b| == job.newSize
    ensures ValueAt(out.endian, EditFde(b, job, out), 4, 4)
            == (job.newOffset + out.outputOffset + 4 - job.ciePosition) % Power256(4)
  {
    if !out.relocatable {
      SameValue(out.endian, WithInitial(b, job, out), 4, Pointed(b, job, out), 4, 4);
      HeadValue(b, job, out, 4, 4);
    }
  }

  // The CIE pointer, which counts back from its own position, leads to the CIE,
  // whatever input section that CIE is in.
  lemma FdePointsToCie(b: seq<Byte>, job: FdeJob, out: Output)
    requires job.Ok(out.ptrSize) && |b| == job.newSize
    ensures (out.outputOffset + job.newOffset + 4 - ValueAt(out.endian, EditFde(b, job, out), 4, 4)) % Power256(4)
            == job.ciePosition % Power256(4)
  {
    var here := out.outputOffset + job.newOffset + 4;
    PointerWord(b, job, out);
    SubtractRemainder(here, here - job.ciePosition, Power256(4));
  }

  // The address that a pointer means: value v with application app, at place.
  function Target(app: Byte, v: int, place: int): int {
    if app == DW_EH_PE_pcrel then place + v else v
  }

  // The application of the initial location in the output.
  function OutputApplication(p: Parsed): Byte {
    if p.makeRelative then DW_EH_PE_pcrel else Application(p.fdeEncoding)
  }

  // A pointer whose value is shifted by delta keeps its target if its place
  // moves the other way.
  lemma ShiftKeepsTarget(v: nat, delta: int, n: nat, app: Byte, place: int, app': Byte, place': int)
    requires Target(app', v + delta, place') == Target(app, v, place)
    ensures Target(app', (v + delta) % Power256(n), place') % Power256(n) == Target(app, v, place) % Power256(n)
  {
    AddRemainder(if app' == DW_EH_PE_pcrel then place' else 0, v + delta, Power256(n));
  }

  lemma PointedBytes(b: seq<Byte>, job: FdeJob, out: Output, j: nat)
    requires job.Ok(out.ptrSize) && |b| == job.newSize && 8 <= j < job.p.size
    ensures Pointed(b, job, out)[j] == b[j]
  {
  }

  // Before its patch the value at i is the original one.
  lemma PointedValue(b: seq<Byte>, job: FdeJob, out: Output, i: nat, n: nat)
    requires job.Ok(out.ptrSize) && |b| == job.newSize && 8 <= i && i + n <= job.p.size
    ensures ValueAt(out.endian, Pointed(b, job, out), i, n) == ValueAt(out.endian, b, i, n)
  {
    var c := Pointed(b, job, out);
    forall j | i <= j < i + n ensures c[j] == b[j] {
      PointedBytes(b, job, out, j);
    }
    SameValue(out.endian, c, i, b, i, n);
  }

  lemma InitialValue(b: seq<Byte>, job: FdeJob, out: Output)
    requires job.Ok(out.ptrSize) && |b| == job.newSize && !out.relocatable
    ensures var w := job.Width(out.ptrSize);
            ValueAt(out.endian, EditFde(b, job, out), 8, w)
            == if ValueAt(out.endian, b, 8, w) == 0 then 0
               else (ValueAt(out.endian, b, 8, w) + InitialDelta(job, out)) % Power256(w)
  {
    var w := job.Width(out.ptrSize);
    PointedValue(b, job, out, 8, w);
    HeadValue(b, job, out, 8, w);
  }

  // A nonzero initial location keeps its target, and a zero one stays zero.  The
  // parser sets make_relative for absolute encodings only.
  lemma InitialLocationKept(b: seq<Byte>, job: FdeJob, out: Output)
    requires job.Ok(out.ptrSize) && |b| == job.newSize && !out.relocatable
    requires job.p.makeRelative ==> Application(job.p.fdeEncoding) == DW_EH_PE_absptr
    ensures var w := job.Width(out.ptrSize);
            var v, v' := ValueAt(out.endian, b, 8, w), ValueAt(out.endian, EditFde(b, job, out), 8, w);
            var start := out.vma + out.outputOffset;
            if v == 0 then v' == 0
            else Target(OutputApplication(job.p), v', start + job.newOffset + 8) % Power256(w)
                 == Target(Application(job.p.fdeEncoding), v, start + job.p.offset + 8) % Power256(w)
  {
    var w := job.Width(out.ptrSize);
    InitialValue(b, job, out);
    ShiftKeepsTarget(ValueAt(out.endian, b, 8, w), InitialDelta(job, out), w,
                     Application(job.p.fdeEncoding), out.Base() + job.p.offset + 8,
                     OutputApplication(job.p), out.Base() + job.newOffset + 8);
  }

  // The patch of the initial location does not reach past it.
  lemma BeyondInitial(b: seq<Byte>, job: FdeJob, out: Output, i: nat, n: nat)
    requires job.Ok(out.ptrSize) && |b| == job.newSize
    requires 8 + job.Width(out.ptrSize) <= i && i + n <= job.p.size
    ensures ValueAt(out.endian, WithInitial(b, job, out), i, n) == ValueAt(out.endian, b, i, n)
  {
    PointedValue(b, job, out, i, n);
    SameValue(out.endian, WithInitial(b, job, out), i, Pointed(b, job, out), i, n);
  }

  // The address range is untouched.
  lemma RangeKept(b: seq<Byte>, job: FdeJob, out: Output)
    requires job.Ok(out.ptrSize) && |b| == job.newSize && !out.relocatable
    ensures var w := job.Width(out.ptrSize);
            ValueAt(out.endian, EditFde(b, job, out), 8 + w, w) == ValueAt(out.endian, b, 8 + w, w)
  {
    var w := job.Width(out.ptrSize);
    BeyondInitial(b, job, out, 8 + w, w);
    HeadValue(b, job, out, 8 + w, w);
  }

  // A nonzero LSDA pointer keeps its target: a pc-relative one, or an absolute one
  // that the CIE's edit makes pc-relative.  It is not a set_loc argument.
  lemma LsdaKept(b: seq<Byte>, job: FdeJob, out: Output)
    requires job.Ok(out.ptrSize) && |b| == job.newSize && !out.relocatable && job.PatchesLsda()
    requires Application(job.p.lsdaEncoding) == DW_EH_PE_pcrel || Application(job.p.lsdaEncoding) == DW_EH_PE_absptr
    requires forall i {:trigger job.p.setLoc[i]} :: 0 <= i < |job.p.setLoc| ==>
               job.p.lsdaOffset + job.LsdaWidth(out.ptrSize) <= job.p.setLoc[i]
    ensures var i, w := 8 + job.p.lsdaOffset, job.LsdaWidth(out.ptrSize);
            var v, v' := ValueAt(out.endian, b, i, w), ValueAt(out.endian, EditFde(b, job, out), i, w);
            var start := out.vma + out.outputOffset;
            if v == 0 then v' == 0
            else Target(DW_EH_PE_pcrel, v', start + job.newOffset + i) % Power256(w)
                 == Target(Application(job.p.lsdaEncoding), v, start + job.p.offset + i) % Power256(w)
  {
    var e, i, w := out.endian, 8 + job.p.lsdaOffset, job.LsdaWidth(out.ptrSize);
    LsdaBytes(b, job, out);
    var v := ValueAt(e, b, i, w);
    ShiftKeepsTarget(v, LsdaDelta(job, out), w,
                     Application(job.p.lsdaEncoding), out.Base() + job.p.offset + i,
                     DW_EH_PE_pcrel, out.Base() + job.newOffset + i);
  }

  lemma LsdaBytes(b: seq<Byte>, job: FdeJob, out: Output)
    requires job.Ok(out.ptrSize) && |b| == job.newSize && !out.relocatable && job.PatchesLsda()
    requires forall i {:trigger job.p.setLoc[i]} :: 0 <= i < |job.p.setLoc| ==>
               job.p.lsdaOffset + job.LsdaWidth(out.ptrSize) <= job.p.setLoc[i]
    ensures var i, w := 8 + job.p.lsdaOffset, job.LsdaWidth(out.ptrSize);
            ValueAt(out.endian, EditFde(b, job, out), i, w)
            == if ValueAt(out.endian, b, i, w) == 0 then 0
               else (ValueAt(out.endian, b, i, w) + LsdaDelta(job, out)) % Power256(w)
  {
    var e, i, w := out.endian, 8 + job.p.lsdaOffset, job.LsdaWidth(out.ptrSize);
    BeyondInitial(b, job, out, i, w);
    forall k | i <= k < i + w ensures EditFde(b, job, out)[k] == WithAugmentation(b, job, out)[k] {
      SetLocsElsewhere(WithAugmentation(b, job, out), job, out, |job.p.setLoc|, k);
    }
    SameValue(e, EditFde(b, job, out), i, WithAugmentation(b, job, out), i, w);
  }

  // The set_loc arguments are in instruction order, after the LSDA pointer.
  predicate SetLocsApart(job: FdeJob, ptrSize: PtrSize)
    requires job.p.Fde?
  {
    var w, n := job.Width(ptrSize), |job.p.setLoc|;
    && (forall i, j {:trigger job.p.setLoc[i], job.p.setLoc[j]} :: 0 <= i < j < n ==>
          job.p.setLoc[i] + w <= job.p.setLoc[j])
    && (job.PatchesLsda() ==> forall i {:trigger job.p.setLoc[i]} :: 0 <= i < n ==>
          job.p.lsdaOffset + job.LsdaWidth(ptrSize) <= job.p.setLoc[i])
  }

  lemma {:induction false} SetLocValue(b: seq<Byte>, job: FdeJob, out: Output, n: nat, i: nat)
    requires job.Ok(out.ptrSize) && SetLocsApart(job, out.ptrSize)
    requires i < n <= |job.p.setLoc| && |b| == job.newSize
    ensures var at, w := 8 + job.p.setLoc[i], job.Width(out.ptrSize);
            ValueAt(out.endian, SetLocs(b, job, out, n), at, w)
            == if ValueAt(out.endian, b, at, w) == 0 then 0
               else (ValueAt(out.endian, b, at, w) + SetLocDelta(job, out, job.p.setLoc[i])) % Power256(w)
  {
    var at, w := 8 + job.p.setLoc[i], job.Width(out.ptrSize);
    var before := SetLocs(b, job, out, n - 1);
    if i == n - 1 {
      forall k | at <= k < at + w ensures before[k] == b[k] {
        SetLocsElsewhere(b, job, out, n - 1, k);
      }
      SameValue(out.endian, before, at, b, at, w);
    } else {
      SetLocValue(b, job, out, n - 1, i);
      SameValue(out.endian, SetLocs(b, job, out, n), at, before, at, w);
    }
  }

  // Unless a byte is inserted, nonzero set_loc arguments keep their targets.
  lemma SetLocKept(b: seq<Byte>, job: FdeJob, out: Output, i: nat)
    requires job.Ok(out.ptrSize) && |b| == job.newSize && !out.relocatable
    requires SetLocsApart(job, out.ptrSize) && !job.p.addAugmentationSize && i < |job.p.setLoc|
    requires job.p.makeRelative ==> Application(job.p.fdeEncoding) == DW_EH_PE_absptr
    ensures var at, w := 8 + job.p.setLoc[i], job.Width(out.ptrSize);
            var v, v' := ValueAt(out.endian, b, at, w), ValueAt(out.endian, EditFde(b, job, out), at, w);
            var start := out.vma + out.outputOffset;
            if v == 0 then v' == 0
            else Target(OutputApplication(job.p), v', start + job.newOffset + at) % Power256(w)
                 == Target(Application(job.p.fdeEncoding), v, start + job.p.offset + at) % Power256(w)
  {
    var e, at, w := out.endian, 8 + job.p.setLoc[i], job.Width(out.ptrSize);
    var c := WithAugmentation(b, job, out);
    SetLocValue(c, job, out, |job.p.setLoc|, i);
    SameValue(e, c, at, b, at, w);
    ShiftKeepsTarget(ValueAt(e, b, at, w), SetLocDelta(job, out, job.p.setLoc[i]), w,
                     Application(job.p.fdeEncoding), out.Base() + job.p.offset + at,
                     OutputApplication(job.p), out.Base() + job.newOffset + at);
  }

  // A byte rel of the original that no patch touches.
  predicate Plain(job: FdeJob, ptrSize: PtrSize, rel: nat)
    requires job.p.Fde?
  {
    var w := job.Width(ptrSize);
    && 8 + 2 * w <= rel < job.p.size
    && (job.PatchesLsda() ==> !(8 + job.p.lsdaOffset <= rel < 8 + job.p.lsdaOffset + job.LsdaWidth(ptrSize)))
    && forall i {:trigger job.p.setLoc[i]} :: 0 <= i < |job.p.setLoc| ==>
         !(8 + job.p.setLoc[i] <= rel < 8 + job.p.setLoc[i] + w)
  }

  // Past the initial location and range, every plain byte (each instruction byte
  // that is not a set_loc argument) is found Extra() bytes further on, which is
  // where the relocation map sends its offset.
  lemma InstructionBytesKept(b: seq<Byte>, job: FdeJob, out: Output, rel: nat)
    requires job.Ok(out.ptrSize) && |b| == job.newSize && !out.relocatable
    requires job.p.addAugmentationSize ==> !job.PatchesLsda() && job.p.setLoc == []
    requires Plain(job, out.ptrSize, rel)
    ensures rel + job.p.Extra() < |b|
    ensures EditFde(b, job, out)[rel + job.p.Extra()] == b[rel]
  {
    SetLocsElsewhere(WithAugmentation(b, job, out), job, out, |job.p.setLoc|, rel + job.p.Extra());
  }

  // What follows the edited instructions is DW_CFA_nop padding.
  lemma PaddingIsNops(b: seq<Byte>, job: FdeJob, out: Output, j: nat)
    requires job.Ok(out.ptrSize) && |b| == job.newSize && !out.relocatable
    requires job.p.addAugmentationSize ==> !job.PatchesLsda() && job.p.setLoc == []
    requires job.p.size + job.p.Extra() <= j < |b|
    ensures EditFde(b, job, out)[j] == 0
  {
    SetLocsElsewhere(WithAugmentation(b, job, out), job, out, |job.p.setLoc|, j);
  }

  // ---------- the pass itself ----------

  // "Update the size" and "Filling the extra bytes with DW_CFA_nops".
  method FrameEntry(e: Endian, buf: Block, size: nat)
    requires buf.Valid() && 4 <= size <= buf.size
    modifies buf.buffer, buf`bytes
    ensures buf.Valid() && buf.bytes == Framed(e, old(buf.bytes), size)
  {
    buf.Put(e, 0, 4, buf.size - 4);
    if buf.size != size {
      buf.Zero(size, buf.size - size);
    }
  }

  // Read a value and, if it is not zero, write it back with delta added.
  method ShiftIn(e: Endian, buf: Block, i: nat, n: nat, delta: int)
    requires buf.Valid() && i + n <= buf.size
    modifies buf.buffer, buf`bytes
    ensures buf.Valid() && buf.bytes == Shifted(e, old(buf.bytes), i, n, delta)
  {
    var value := buf.Get(e, i, n);
    if value != 0 {
      buf.Put(e, i, n, value + delta);
    }
  }

  // What is added to a code pointer: pc-relative ones follow the move, and those
  // that become pc-relative lose the address of their new place.
  method RelativeShift(job: FdeJob, out: Output, moved: int, place: int) returns (delta: int)
    ensures delta == (if Application(job.p.fdeEncoding) == DW_EH_PE_pcrel then moved else 0)
                     - (if job.p.makeRelative then out.Base() + place else 0)
  {
    delta := 0;
    if Application(job.p.fdeEncoding) == DW_EH_PE_pcrel {
      delta := delta + moved;
    }
    if job.p.makeRelative {
      delta := delta - (out.vma + out.outputOffset + place);
    }
  }

  method PatchSetLoc(buf: Block, job: FdeJob, out: Output, cnt: nat)
    requires job.Ok(out.ptrSize) && buf.Valid() && buf.size == job.newSize && cnt < |job.p.setLoc|
    modifies buf.buffer, buf`bytes
    ensures buf.Valid() && buf.bytes == OneSetLoc(old(buf.bytes), job, out, cnt)
  {
    var setLoc := job.p.setLoc[cnt];
    var newOffset := job.newOffset + 8 + job.p.ExtraString() + job.p.ExtraData();
    var delta := RelativeShift(job, out, job.p.offset + 8 - newOffset, newOffset + setLoc);
    ShiftIn(out.endian, buf, 8 + setLoc, job.Width(out.ptrSize), delta);
  }

  // "Adjust DW_CFA_set_loc."
  method PatchSetLocs(buf: Block, job: FdeJob, out: Output)
    requires job.Ok(out.ptrSize) && buf.Valid() && buf.size == job.newSize
    modifies buf.buffer, buf`bytes
    ensures buf.Valid() && buf.bytes == SetLocs(old(buf.bytes), job, out, |job.p.setLoc|)
  {
    ghost var b := buf.bytes;
    for cnt := 0 to |job.p.setLoc|
      invariant buf.Valid() && buf.bytes == SetLocs(b, job, out, cnt)
    {
      PatchSetLoc(buf, job, out, cnt);
    }
  }

  // The initial location.
  method PatchInitial(buf: Block, job: FdeJob, out: Output)
    requires job.Ok(out.ptrSize) && buf.Valid() && buf.size == job.newSize
    modifies buf.buffer, buf`bytes
    ensures buf.Valid()
    ensures buf.bytes == Shifted(out.endian, old(buf.bytes), 8, job.Width(out.ptrSize), InitialDelta(job, out))
  {
    var delta := RelativeShift(job, out, job.p.offset - job.newOffset, job.newOffset + 8);
    ShiftIn(out.endian, buf, 8, job.Width(out.ptrSize), delta);
  }

  // The LSDA pointer.
  method PatchLsda(buf: Block, job: FdeJob, out: Output)
    requires job.Ok(out.ptrSize) && buf.Valid() && buf.size == job.newSize && job.PatchesLsda()
    modifies buf.buffer, buf`bytes
    ensures buf.Valid()
    ensures buf.bytes == Shifted(out.endian, old(buf.bytes), 8 + job.p.lsdaOffset, job.LsdaWidth(out.ptrSize),
                                 LsdaDelta(job, out))
  {
    var p := job.p;
    var delta := -(out.vma + out.outputOffset + job.newOffset + 8 + p.lsdaOffset);
    if Application(p.lsdaEncoding) == DW_EH_PE_pcrel {
      delta := p.offset - job.newOffset;
    }
    assert delta == LsdaDelta(job, out);
    ShiftIn(out.endian, buf, 8 + p.lsdaOffset, job.LsdaWidth(out.ptrSize), delta);
  }

  // "insert a zero byte for the augmentation size"
  method OpenIn(buf: Block, i: nat, end: nat)
    requires buf.Valid() && i <= end < buf.size
    modifies buf.buffer, buf`bytes
    ensures buf.Valid() && buf.bytes == Opened(old(buf.bytes), i, end)
  {
    buf.Move(i + 1, i, end - i);
    buf.PutByte(i, 0);
  }

  // The body of the loop for an FDE whose bytes have been moved into place.
  method PatchFde(buf: Block, job: FdeJob, out: Output)
    requires job.Ok(out.ptrSize) && buf.Valid() && buf.size == job.newSize
    modifies buf.buffer, buf`bytes
    ensures buf.Valid() && buf.bytes == EditFde(old(buf.bytes), job, out)
  {
    ghost var b := buf.bytes;
    FrameEntry(out.endian, buf, job.p.size);
    buf.Put(out.endian, 4, 4, job.newOffset + out.outputOffset + 4 - job.ciePosition);
    if out.relocatable {
      return;
    }
    PatchInitial(buf, job, out);
    if job.PatchesLsda() {
      PatchLsda(buf, job, out);
    } else if job.p.addAugmentationSize {
      OpenIn(buf, 8 + job.Width(out.ptrSize) * 2, job.p.size);
    }
    assert buf.bytes == WithAugmentation(b, job, out);
    PatchSetLocs(buf, job, out);
  }
}
