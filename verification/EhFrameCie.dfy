// The CIE half of the third loop of _bfd_elf_write_section_eh_frame: new
// augmentation letters and data are spliced into the CIE in place.

module EhFrameCie {
  import opened Bytes
  import opened CLibrary
  import opened EhFrame
  import opened EhFrameLayout
  import opened EhFrameFde

  const LETTER_Z: Byte := 0x7a
  const LETTER_L: Byte := 0x4c
  const LETTER_P: Byte := 0x50
  const LETTER_R: Byte := 0x52
  const LETTER_S: Byte := 0x53

  // make_pc_relative
  function MakePcRelative(encoding: Byte, ptrSize: PtrSize): (r: Byte) {
    var sized: Byte :=
      if encoding % 0x80 == DW_EH_PE_absptr
      then encoding + (if ptrSize == 2 then 0x0a else if ptrSize == 4 then 0x0b else 0x0c)
      else encoding;
    if sized / 0x10 % 2 == 1 then sized else sized + 0x10
  }

  lemma FieldsOf(encoding: Byte, high: nat, middle: nat, low: nat)
    requires encoding == 0x80 * high + 0x10 * middle + low && middle < 8 && low < 0x10
    ensures encoding / 0x80 == high && encoding % 0x80 == 0x10 * middle + low
    ensures encoding / 0x10 % 8 == middle && encoding / 0x20 % 4 == middle / 2
    ensures encoding % 8 == low % 8
  {
  }

  // Converting an absolute encoding changes what the value is relative to, and
  // neither how many bytes hold it nor the indirect bit.
  lemma PcRelativeKeepsWidth(encoding: Byte, ptrSize: PtrSize)
    requires Application(encoding) == DW_EH_PE_absptr
    ensures Application(MakePcRelative(encoding, ptrSize)) == DW_EH_PE_pcrel
    ensures EncodedWidth(MakePcRelative(encoding, ptrSize), ptrSize) == EncodedWidth(encoding, ptrSize)
    ensures MakePcRelative(encoding, ptrSize) / 0x80 == encoding / 0x80
  {
    var r := MakePcRelative(encoding, ptrSize);
    var high, low := encoding / 0x80, encoding % 0x10;
    FieldsOf(encoding, high, 0, low);
    var wide := if low != 0 then low else if ptrSize == 2 then 0x0a else if ptrSize == 4 then 0x0b else 0x0c;
    assert encoding == 0x80 * high + low && r == 0x80 * high + 0x10 + wide;
    FieldsOf(r, high, 1, wide);
  }

  // One CIE to write.
  datatype CieJob = CieJob(p: Parsed, newOffset: nat, newSize: nat, lsdaRelative: bool,
                           makePerRelative: bool, perRelative: bool)
  {
    predicate Ok() {
      && p.Cie? && 10 <= p.size && p.size + p.Extra() <= newSize
      && (p.addAugmentationSize ==> p.addFdeEncoding)
      && (p.addFdeEncoding ==> p.makeRelative)
      && (makePerRelative ==> perRelative)
    }

    function Todo(): Actions { Actions(p.makeRelative, lsdaRelative, perRelative) }
  }

  // The three bits of `action`: what is left to convert.
  datatype Actions = Actions(fde: bool, lsda: bool, personality: bool) {
    predicate Any() { fde || lsda || personality }
  }

  // ---------- finding the place ----------

  // Where skip_leb128 leaves the pointer.
  function SkipLeb(b: seq<Byte>, i: nat, end: nat): (j: nat)
    requires i <= end <= |b|
    ensures i <= j <= end
    decreases end - i
  {
    if i == end then end else if b[i] < 0x80 then i + 1 else SkipLeb(b, i + 1, end)
  }

  method SkipLebIn(buf: Block, i: nat, end: nat) returns (j: nat)
    requires buf.Valid() && i <= end <= buf.size
    ensures j == SkipLeb(buf.bytes, i, end)
  {
    j := i;
    while j < end
      invariant i <= j <= end && SkipLeb(buf.bytes, i, end) == SkipLeb(buf.bytes, j, end)
    {
      var byte := buf.GetByte(j);
      j := j + 1;
      if byte < 0x80 {
        return;
      }
    }
  }

  method StringLengthIn(buf: Block, i: nat) returns (n: nat)
    requires buf.Valid() && i <= buf.size && i + StringLength(buf.bytes, i) < buf.size
    ensures n == StringLength(buf.bytes, i)
  {
    n := 0;
    var byte := buf.GetByte(i);
    while byte != 0
      invariant i + n < buf.size && byte == buf.bytes[i + n]
      invariant StringLength(buf.bytes, i) == n + StringLength(buf.bytes, i + n)
      decreases buf.size - n
    {
      n := n + 1;
      byte := buf.GetByte(i + n);
    }
  }

  // The end of the three LEB128 numbers after the augmentation string at 9.
  function AfterLebs(b: seq<Byte>, end: nat): (j: nat)
    requires 9 <= |b| && 9 + StringLength(b, 9) < end <= |b|
    ensures 9 + StringLength(b, 9) < j <= end
  {
    SkipLeb(b, SkipLeb(b, SkipLeb(b, 9 + StringLength(b, 9) + 1, end), end), end)
  }

  // ---------- the splice ----------

  // Make room for es letters at aug and ed data bytes at at.
  function MakeRoom(b: seq<Byte>, aug: nat, at: nat, end: nat, es: nat, ed: nat): (r: seq<Byte>)
    requires aug <= at <= end && end + es + ed <= |b|
    ensures |r| == |b|
  {
    var c := Splice(b, at + es + ed, b[at..end]);
    Splice(c, aug + es, c[aug..at])
  }

  // The new letters and data bytes in the room.
  function FillRoom(b: seq<Byte>, aug: nat, data: nat, p: Parsed, ptrSize: PtrSize): (r: seq<Byte>)
    requires p.Cie? && (p.addAugmentationSize ==> p.addFdeEncoding)
    requires aug + p.ExtraString() <= data && data + p.ExtraData() <= |b|
    ensures |r| == |b|
  {
    var pcrel := MakePcRelative(DW_EH_PE_absptr, ptrSize);
    if p.addAugmentationSize then
      b[aug := LETTER_Z][data := p.ExtraData() - 1][aug + 1 := LETTER_R][data + 1 := pcrel]
    else if p.addFdeEncoding then b[aug := LETTER_R][data := pcrel]
    else b
  }

  // ---------- the letter walk ----------

  // The state of the `while (action)` loop: the block, the letter and data
  // pointers, and what is left to do.
  datatype Walk = Walk(b: seq<Byte>, aug: nat, data: nat, left: Actions)

  // Where the personality pointer of a CIE at base starts, past alignment padding.
  function PointerPlace(base: nat, encoding: Byte, after: nat, ptrSize: PtrSize): (q: nat)
    ensures q >= after
  {
    var w := EncodedWidth(encoding, ptrSize);
    if Application(encoding) == DW_EH_PE_aligned && w > 0
    then after + PadTo(base + after, w)
    else after
  }

  // Bytes up to the next multiple of w.
  function PadTo(x: nat, w: nat): (n: nat)
    requires w > 0
  {
    (w - x % w) % w
  }

  function PersonalityEncoding(job: CieJob, encoding: Byte, ptrSize: PtrSize): Byte {
    if job.makePerRelative then MakePcRelative(encoding, ptrSize) else encoding
  }

  // What is added to the personality pointer at q.
  function PersonalityDelta(job: CieJob, out: Output, q: nat): int {
    if job.makePerRelative then -(out.Base() + job.newOffset + q)
    else job.p.offset - job.newOffset - job.p.Extra()
  }

  // The personality pointer, its encoding byte at data, lies inside the block.
  predicate PersonalityFits(b: seq<Byte>, data: nat, job: CieJob, ptrSize: PtrSize) {
    data < |b| &&
    var enc := PersonalityEncoding(job, b[data], ptrSize);
    EncodedWidth(enc, ptrSize) > 0
    && PointerPlace(job.newOffset, enc, data + 1, ptrSize) + EncodedWidth(enc, ptrSize) <= |b|
  }

  // The pointers stay inside the block and the letter is a known one.
  predicate StepOk(w: Walk, job: CieJob, out: Output) {
    && w.aug < |w.b| && w.b[w.aug] in {LETTER_L, LETTER_P, LETTER_R, LETTER_S}
    && (w.b[w.aug] != LETTER_S ==> w.data < |w.b|)
    && (w.b[w.aug] == LETTER_P ==> PersonalityFits(w.b, w.data, job, out.ptrSize))
  }

  // The letters 'L' and 'R': one encoding byte.
  function Converted(b: seq<Byte>, data: nat, act: bool, ptrSize: PtrSize): (r: seq<Byte>)
    requires data < |b|
    ensures |r| == |b|
  {
    if act then b[data := MakePcRelative(b[data], ptrSize)] else b
  }

  // The letter 'P': an encoding byte, padding and a pointer.
  function PersonalityPut(b: seq<Byte>, data: nat, act: bool, job: CieJob, out: Output): (r: seq<Byte>)
    requires PersonalityFits(b, data, job, out.ptrSize)
    ensures |r| == |b|
  {
    var enc := PersonalityEncoding(job, b[data], out.ptrSize);
    var n, q := EncodedWidth(enc, out.ptrSize), PointerPlace(job.newOffset, enc, data + 1, out.ptrSize);
    var c := b[data := enc];
    if act then PutValue(out.endian, c, q, n, ValueAt(out.endian, c, q, n) + PersonalityDelta(job, out, q)) else c
  }

  // Where the data after that pointer starts.
  function AfterPersonality(encoding: Byte, data: nat, job: CieJob, ptrSize: PtrSize): nat {
    var enc := PersonalityEncoding(job, encoding, ptrSize);
    PointerPlace(job.newOffset, enc, data + 1, ptrSize) + EncodedWidth(enc, ptrSize)
  }

  function Step(w: Walk, job: CieJob, out: Output): (r: Walk)
    requires StepOk(w, job, out)
    ensures |r.b| == |w.b| && r.aug == w.aug + 1
  {
    var a := w.aug + 1;
    if w.b[w.aug] == LETTER_L then
      Walk(Converted(w.b, w.data, w.left.lsda, out.ptrSize), a, w.data + 1, w.left.(lsda := false))
    else if w.b[w.aug] == LETTER_R then
      Walk(Converted(w.b, w.data, w.left.fde, out.ptrSize), a, w.data + 1, w.left.(fde := false))
    else if w.b[w.aug] == LETTER_S then w.(aug := a)
    else
      Walk(PersonalityPut(w.b, w.data, w.left.personality, job, out),
           a, AfterPersonality(w.b[w.data], w.data, job, out.ptrSize), w.left.(personality := false))
  }

  // Every letter up to the last conversion is known and in the block.
  predicate WalkOk(w: Walk, job: CieJob, out: Output)
    decreases |w.b| - w.aug
  {
    w.left.Any() ==> StepOk(w, job, out) && WalkOk(Step(w, job, out), job, out)
  }

  function WalkEnd(w: Walk, job: CieJob, out: Output): (r: seq<Byte>)
    requires WalkOk(w, job, out)
    ensures |r| == |w.b|
    decreases |w.b| - w.aug
  {
    if w.left.Any() then WalkEnd(Step(w, job, out), job, out) else w.b
  }

  // ---------- the whole edit ----------

  // The string ends inside the CIE, and an augmentation size is there.
  predicate Delimited(f: seq<Byte>, size: nat) {
    9 <= size <= |f| && 9 + StringLength(f, 9) < size && (f[9] == LETTER_Z ==> AfterLebs(f, size) < size)
  }

  // The framed block when the augmentation size byte, if any, has been raised,
  // with the two pointers where the new letters and data go.
  function Raised(f: seq<Byte>, job: CieJob): (w: Walk)
    requires job.Ok() && |f| == job.newSize && Delimited(f, job.p.size)
    ensures |w.b| == |f| && w.aug <= w.data <= job.p.size && w.left == job.Todo()
  {
    var at := AfterLebs(f, job.p.size);
    if f[9] == LETTER_Z
    then Walk(f[at := (f[at] + job.p.ExtraData()) % 0x100], 10, at + 1, job.Todo())
    else Walk(f, 9, at, job.Todo())
  }

  // The new letters and data bytes put in at the two pointers.
  function SpliceAt(w: Walk, job: CieJob, out: Output): (r: Walk)
    requires job.Ok() && |w.b| == job.newSize && w.aug <= w.data <= job.p.size
    ensures |r.b| == |w.b|
  {
    var es, ed := job.p.ExtraString(), job.p.ExtraData();
    Walk(FillRoom(MakeRoom(w.b, w.aug, w.data, job.p.size, es, ed), w.aug, w.data + es, job.p, out.ptrSize),
         w.aug + es, w.data + es + ed, w.left.(fde := w.left.fde && !job.p.addFdeEncoding))
  }

  // The block when they are in place.
  function Spliced(f: seq<Byte>, job: CieJob, out: Output): (w: Walk)
    requires job.Ok() && |f| == job.newSize && Delimited(f, job.p.size)
    ensures |w.b| == |f|
  {
    SpliceAt(Raised(f, job), job, out)
  }

  // What the pass relies on: the parts are delimited, and the letters to be
  // converted are there.
  predicate Walkable(f: seq<Byte>, job: CieJob, out: Output) {
    && job.Ok() && |f| == job.newSize
    && (job.Todo().Any() ==> Delimited(f, job.p.size) && WalkOk(Spliced(f, job, out), job, out))
  }

  // The edited augmentation, from a framed block.
  function Augmented(f: seq<Byte>, job: CieJob, out: Output): (r: seq<Byte>)
    requires Walkable(f, job, out)
    ensures |r| == |f|
  {
    if job.Todo().Any() then WalkEnd(Spliced(f, job, out), job, out) else f
  }

  // The edited CIE, from a block that starts with its p.size original bytes.
  function EditCie(b: seq<Byte>, job: CieJob, out: Output): (r: seq<Byte>)
    requires job.Ok() && |b| == job.newSize && Walkable(Framed(out.endian, b, job.p.size), job, out)
    ensures |r| == |b|
  {
    Augmented(Framed(out.endian, b, job.p.size), job, out)
  }

  // ---------- the pass itself ----------

  // "Make room for the new augmentation string and data bytes."
  method MakeRoomIn(buf: Block, aug: nat, at: nat, end: nat, es: nat, ed: nat)
    requires buf.Valid() && aug <= at <= end && end + es + ed <= buf.size
    modifies buf.buffer, buf`bytes
    ensures buf.Valid() && buf.bytes == MakeRoom(old(buf.bytes), aug, at, end, es, ed)
  {
    buf.Move(at + es + ed, at, end - at);
    buf.Move(aug + es, aug, at - aug);
  }

  method FillRoomIn(buf: Block, aug: nat, data: nat, p: Parsed, ptrSize: PtrSize)
    requires p.Cie? && (p.addAugmentationSize ==> p.addFdeEncoding)
    requires buf.Valid() && aug + p.ExtraString() <= data && data + p.ExtraData() <= buf.size
    modifies buf.buffer, buf`bytes
    ensures buf.Valid() && buf.bytes == FillRoom(old(buf.bytes), aug, data, p, ptrSize)
  {
    var a, d := aug, data;
    if p.addAugmentationSize {
      buf.PutByte(a, LETTER_Z);
      buf.PutByte(d, p.ExtraData() - 1);
      a, d := a + 1, d + 1;
    }
    if p.addFdeEncoding {
      buf.PutByte(a, LETTER_R);
      buf.PutByte(d, MakePcRelative(DW_EH_PE_absptr, ptrSize));
    }
  }

  // Turning one encoding byte pc-relative, if that is still to be done.
  method ConvertIn(buf: Block, data: nat, act: bool, ptrSize: PtrSize)
    requires buf.Valid() && data < buf.size
    modifies buf.buffer, buf`bytes
    ensures buf.Valid()
    ensures buf.bytes == Converted(old(buf.bytes), data, act, ptrSize)
  {
    if act {
      var enc := buf.GetByte(data);
      buf.PutByte(data, MakePcRelative(enc, ptrSize));
    }
  }

  // One letter of the `while (action)` loop.
  method StepIn(buf: Block, aug: nat, data: nat, left: Actions, job: CieJob, out: Output)
    returns (data': nat, left': Actions)
    requires buf.Valid() && StepOk(Walk(buf.bytes, aug, data, left), job, out)
    modifies buf.buffer, buf`bytes
    ensures buf.Valid()
    ensures Walk(buf.bytes, aug + 1, data', left') == Step(Walk(old(buf.bytes), aug, data, left), job, out)
  {
    data', left' := data, left;
    var letter := buf.GetByte(aug);
    if letter == LETTER_L {
      ConvertIn(buf, data, left.lsda, out.ptrSize);
      data', left' := data + 1, left.(lsda := false);
    } else if letter == LETTER_R {
      ConvertIn(buf, data, left.fde, out.ptrSize);
      data', left' := data + 1, left.(fde := false);
    } else if letter == LETTER_P {
      data' := PersonalityIn(buf, data, left.personality, job, out);
      left' := left.(personality := false);
    }
  }

  // The 'P' letter.
  method PersonalityIn(buf: Block, data: nat, act: bool, job: CieJob, out: Output) returns (data': nat)
    requires buf.Valid() && PersonalityFits(buf.bytes, data, job, out.ptrSize)
    modifies buf.buffer, buf`bytes
    ensures buf.Valid() && data' == AfterPersonality(old(buf.bytes)[data], data, job, out.ptrSize)
    ensures buf.bytes == PersonalityPut(old(buf.bytes), data, act, job, out)
  {
    var encoding := buf.GetByte(data);
    if job.makePerRelative {
      encoding := MakePcRelative(encoding, out.ptrSize);
    }
    buf.PutByte(data, encoding);
    var width := EncodedWidth(encoding, out.ptrSize);
    var q := PointerPlace(job.newOffset, encoding, data + 1, out.ptrSize);
    if act {
      var val: int := buf.Get(out.endian, q, width);
      if job.makePerRelative {
        val := val - (out.vma + out.outputOffset + job.newOffset + q);
      } else {
        val := val + job.p.offset - job.newOffset;
        val := val - (job.p.ExtraString() + job.p.ExtraData());
      }
      buf.Put(out.endian, q, width, val);
    }
    data' := q + width;
  }

  // The `while (action)` loop.
  method WalkLetters(buf: Block, aug: nat, data: nat, left: Actions, job: CieJob, out: Output)
    requires buf.Valid() && WalkOk(Walk(buf.bytes, aug, data, left), job, out)
    modifies buf.buffer, buf`bytes
    ensures buf.Valid() && buf.bytes == WalkEnd(Walk(old(buf.bytes), aug, data, left), job, out)
  {
    var a, d, l := aug, data, left;
    ghost var start := Walk(buf.bytes, aug, data, left);
    while l.Any()
      invariant buf.Valid() && WalkOk(Walk(buf.bytes, a, d, l), job, out)
      invariant WalkEnd(Walk(buf.bytes, a, d, l), job, out) == WalkEnd(start, job, out)
      decreases buf.size - a
    {
      d, l := StepIn(buf, a, d, l, job, out);
      a := a + 1;
    }
  }

  // "Skip length, id and version", then the string and three numbers.
  method FindData(buf: Block, end: nat) returns (at: nat)
    requires buf.Valid() && 9 <= buf.size && 9 + StringLength(buf.bytes, 9) < end <= buf.size
    ensures at == AfterLebs(buf.bytes, end)
  {
    var n := StringLengthIn(buf, 9);
    at := SkipLebIn(buf, 9 + n + 1, end);
    at := SkipLebIn(buf, at, end);
    at := SkipLebIn(buf, at, end);
  }

  // Raise the augmentation size, if there is one.
  method RaiseIn(buf: Block, job: CieJob) returns (aug: nat, at: nat)
    requires job.Ok() && buf.Valid() && buf.size == job.newSize && Delimited(buf.bytes, job.p.size)
    modifies buf.buffer, buf`bytes
    ensures buf.Valid() && Walk(buf.bytes, aug, at, job.Todo()) == Raised(old(buf.bytes), job)
  {
    aug := 9;
    at := FindData(buf, job.p.size);
    var first := buf.GetByte(aug);
    if first == LETTER_Z {
      var size := buf.GetByte(at);
      buf.PutByte(at, (size + job.p.ExtraData()) % 0x100);
      aug, at := aug + 1, at + 1;
    }
  }

  // Make room at the two pointers and fill it.
  method SpliceIn(buf: Block, aug: nat, at: nat, job: CieJob, out: Output) returns (todo: Actions)
    requires job.Ok() && buf.Valid() && buf.size == job.newSize && aug <= at <= job.p.size
    modifies buf.buffer, buf`bytes
    ensures buf.Valid()
    ensures Walk(buf.bytes, aug + job.p.ExtraString(), at + job.p.ExtraString() + job.p.ExtraData(), todo)
            == SpliceAt(Walk(old(buf.bytes), aug, at, job.Todo()), job, out)
  {
    var p := job.p;
    MakeRoomIn(buf, aug, at, p.size, p.ExtraString(), p.ExtraData());
    FillRoomIn(buf, aug, at + p.ExtraString(), p, out.ptrSize);
    todo := job.Todo();
    if p.addFdeEncoding {
      todo := todo.(fde := false);
    }
  }

  method OpenAugmentation(buf: Block, job: CieJob, out: Output) returns (aug: nat, data: nat, todo: Actions)
    requires job.Ok() && buf.Valid() && buf.size == job.newSize && Delimited(buf.bytes, job.p.size)
    modifies buf.buffer, buf`bytes
    ensures buf.Valid() && Walk(buf.bytes, aug, data, todo) == Spliced(old(buf.bytes), job, out)
  {
    ghost var goal := Spliced(buf.bytes, job, out);
    var at;
    aug, at := RaiseIn(buf, job);
    assert SpliceAt(Walk(buf.bytes, aug, at, job.Todo()), job, out) == goal;
    todo := SpliceIn(buf, aug, at, job, out);
    aug, data := aug + job.p.ExtraString(), at + job.p.ExtraString() + job.p.ExtraData();
  }

  // "Need to find 'R' or 'L' augmentation's argument and modify" it.
  method AugmentIn(buf: Block, job: CieJob, out: Output)
    requires buf.Valid() && buf.size == job.newSize && Walkable(buf.bytes, job, out)
    modifies buf.buffer, buf`bytes
    ensures buf.Valid() && buf.bytes == Augmented(old(buf.bytes), job, out)
  {
    if job.Todo().Any() {
      var aug, data, todo := OpenAugmentation(buf, job, out);
      WalkLetters(buf, aug, data, todo, job, out);
    }
  }

  // The body of the loop for a CIE whose bytes have been moved into place.
  method PatchCie(buf: Block, job: CieJob, out: Output)
    requires job.Ok() && buf.Valid() && buf.size == job.newSize
    requires Walkable(Framed(out.endian, buf.bytes, job.p.size), job, out)
    modifies buf.buffer, buf`bytes
    ensures buf.Valid() && buf.bytes == EditCie(old(buf.bytes), job, out)
  {
    FrameEntry(out.endian, buf, job.p.size);
    AugmentIn(buf, job, out);
  }
}
