// What a CIE says besides its augmentation: the alignment factors, the return address
// column and the initial instructions; and that edits do not change them.

module EhFrameValues {
  import opened Bytes
  import opened Leb128
  import opened EhFrame
  import opened EhFrameMerge
  import opened EhFrameFde
  import opened EhFrameCie
  import opened EhFrameCfa
  import opened EhFrameCieParse
  import opened EhFrameCieKept
  import opened EhFrameCieReads

  // ---------- signed numbers ----------

  // The number that these bytes make, low seven bits first; bit 6 of the last one is
  // the sign.
  function SignedNumber(b: seq<Byte>, i: nat, j: nat): int
    requires i < j <= |b|
    decreases j - i
  {
    if i + 1 == j then if b[i] % 0x80 >= 0x40 then b[i] % 0x80 - 0x80 else b[i] % 0x80
    else b[i] % 0x80 + 0x80 * SignedNumber(b, i + 1, j)
  }

  // As bfd_signed_vma holds it.
  function Signed64(v: int): int { (v + WORD / 2) % WORD - WORD / 2 }

  // The examples of DWARF 4, figure 23.
  lemma SlebExamples()
    ensures SignedNumber([2], 0, 1) == 2 && SignedNumber([0x7e], 0, 1) == -2
    ensures SignedNumber([127 + 0x80, 0], 0, 2) == 127 && SignedNumber([1 + 0x80, 0x7f], 0, 2) == -127
    ensures SignedNumber([0 + 0x80, 1], 0, 2) == 128 && SignedNumber([0 + 0x80, 0x7f], 0, 2) == -128
    ensures SignedNumber([1 + 0x80, 1], 0, 2) == 129 && SignedNumber([0x7f + 0x80, 0x7e], 0, 2) == -129
  {
  }

  lemma ShiftSigned(v: int, d: int)
    ensures Signed64(0x80 * Signed64(v) + d) == Signed64(0x80 * v + d)
  {
    var q := (v + WORD / 2) / WORD;
    assert Signed64(v) == v - WORD * q;
    var x := 0x80 * v + d + WORD / 2;
    assert 0x80 * Signed64(v) + d + WORD / 2 == x - WORD * (0x80 * q);
    var r, k := x % WORD, x / WORD - 0x80 * q;
    assert x - WORD * (0x80 * q) == WORD * k + r;
    RemainderIs(x - WORD * (0x80 * q), WORD, k, r);
  }

  // read_sleb128, which reads the bytes backwards.
  method ReadSleb128(b: seq<Byte>, iter: nat, end: nat) returns (ok: bool, i: nat, value: int)
    requires iter <= end <= |b|
    ensures ok == AfterLeb(b, iter, end).Some?
    ensures ok ==> iter < i == AfterLeb(b, iter, end).value && value == Signed64(SignedNumber(b, iter, i))
  {
    hide AfterLeb, Signed64;
    value := 0;
    ok, i := SkipLeb128(b, iter, end);
    if !ok {
      return;
    }
    var p := i - 1;
    value := b[p] % 0x80;
    if value >= 0x40 {
      value := value - 0x80;
    }
    SmallSigned(value);
    while p > iter
      invariant iter <= p < i && value == Signed64(SignedNumber(b, p, i))
    {
      ghost var v := SignedNumber(b, p, i);
      p := p - 1;
      ShiftSigned(v, b[p] % 0x80);
      value := Signed64(0x80 * value + b[p] % 0x80);
    }
  }

  lemma SmallSigned(v: int)
    requires -0x40 <= v < 0x40
    ensures Signed64(v) == v
  {
  }

  // ---------- the numbers of a CIE ----------

  // Code and data alignment factor and return address column.
  datatype Factors = Factors(code: int, data: int, column: int)

  function FactorsAt(c: seq<Byte>, version: Byte, i: nat, end: nat, ptrSize: PtrSize): Factors
    requires i <= end <= |c| && AfterCieNumbers(c, version, i, end, ptrSize).Some?
  {
    var j := if version >= 4 then i + 2 else i;
    var k := AfterLeb(c, j, end).value;
    var m := AfterLeb(c, k, end).value;
    Factors(LebValue(c, j, k), Signed64(SignedNumber(c, k, m)),
            if version == 1 then c[m] else LebValue(c, m, AfterLeb(c, m, end).value))
  }

  // Those of the CIE h.
  function FactorsOf(c: seq<Byte>, h: CieShape, end: nat, ptrSize: PtrSize): Option<Factors> {
    var i := 10 + |h.letters|;
    if i <= end <= |c| && AfterCieNumbers(c, h.version, i, end, ptrSize).Some?
    then Some(FactorsAt(c, h.version, i, end, ptrSize)) else None
  }

  // The augmentation size, or 0.
  function SizeOf(c: seq<Byte>, h: CieShape, end: nat): nat {
    if h.Sized() && h.numbers <= end <= |c| && AfterLeb(c, h.numbers, end).Some?
    then LebValue(c, h.numbers, AfterLeb(c, h.numbers, end).value) else 0
  }

  lemma {:induction false} SignedCarried(b: seq<Byte>, i: nat, j: nat, c: seq<Byte>, d: nat)
    requires i < j && Carries(b, i, j, c, d)
    ensures SignedNumber(c, i + d, j + d) == SignedNumber(b, i, j)
    decreases j - i
  {
    assert c[i + d] == b[i];
    if i + 1 < j {
      SignedCarried(b, i + 1, j, c, d);
    }
  }

  lemma FactorsCarried(f: seq<Byte>, version: Byte, i: nat, end: nat, ptrSize: PtrSize, r: seq<Byte>, d: nat, to: nat)
    requires i <= end <= |f| && AfterCieNumbers(f, version, i, end, ptrSize).Some?
    requires AfterCieNumbers(f, version, i, end, ptrSize).value + d <= to <= |r|
    requires Carries(f, i, AfterCieNumbers(f, version, i, end, ptrSize).value, r, d)
    ensures AfterCieNumbers(r, version, i + d, to, ptrSize).Some?
    ensures FactorsAt(r, version, i + d, to, ptrSize) == FactorsAt(f, version, i, end, ptrSize)
  {
    hide AfterLeb, LebValue, SignedNumber, Signed64;
    CieNumbersCarried(f, version, i, end, ptrSize, r, d, to);
    var j := if version >= 4 then i + 2 else i;
    var k := AfterLeb(f, j, end).value;
    var m := AfterLeb(f, k, end).value;
    LebCarried(f, j, end, r, d, to);
    LebCarried(f, k, end, r, d, to);
    SignedCarried(f, k, m, r, d);
    if version == 1 {
      assert r[m + d] == f[m];
    } else {
      LebCarried(f, m, end, r, d, to);
    }
  }

  // The edit of a CIE, with the block c for what it starts from.
  lemma FactorsKept(b: seq<Byte>, job: CieJob, out: Output, h: CieShape)
    requires Keeps(b, h, job, out.ptrSize)
    ensures job.Ok() && |b| == job.newSize && Walkable(Framed(out.endian, b, job.p.size), job, out) && 9 <= |b|
    ensures FactorsOf(EditCie(b, job, out), EditedShape(h, job, out.ptrSize), |b|, out.ptrSize)
            == FactorsOf(b, h, job.p.size, out.ptrSize) != None
  {
    hide Editable, CieJob.Ok, Framed, Walkable, ParseCie, Unedited, SizeFits, AskedOnce, AfterCieNumbers, FactorsAt,
         Keeps, EditCie;
    KeepsSizes(b, h, job, out.ptrSize);
    KeepsIsWalkable(b, h, job, out);
    ShapeIs(b, job.p.size, job.p.offset, out.ptrSize, h);
    NumbersAreThere(b, job, out, h);
    LongerString(h, job);
    FactorsCarried(b, h.version, 10 + |h.letters|, job.p.size, out.ptrSize, EditCie(b, job, out),
                   job.p.ExtraString(), |b|);
  }

  lemma LongerString(h: CieShape, job: CieJob)
    requires job.Ok()
    ensures |EditedLetters(h, job.p)| == |h.letters| + job.p.ExtraString()
  {
  }

  lemma NumbersAreThere(b: seq<Byte>, job: CieJob, out: Output, h: CieShape)
    requires Keeps(b, h, job, out.ptrSize)
    ensures job.Ok() && |b| == job.newSize && Walkable(Framed(out.endian, b, job.p.size), job, out)
    ensures 10 + |h.letters| < h.numbers && h.numbers + job.p.ExtraString() <= |b|
    ensures Carries(b, 10 + |h.letters|, h.numbers, EditCie(b, job, out), job.p.ExtraString())
  {
    hide Editable, CieJob.Ok, Augmented, Walkable, ParseCie, Unedited, SizeFits, AskedOnce;
    KeepsSizes(b, h, job, out.ptrSize);
    KeepsIsWalkable(b, h, job, out);
    var f := Framed(out.endian, b, job.p.size);
    if job.Todo().Any() {
      FramedIsEditable(b, h, job, out);
      NumberBytes(f, h, job, out);
      forall k {:trigger b[k]} | 10 + |h.letters| <= k < h.numbers
        ensures EditCie(b, job, out)[k + job.p.ExtraString()] == b[k]
      {
        assert f[k] == b[k];
      }
    } else {
      NothingToWalk(f, job, out);
      NothingInserted(job, h, out.ptrSize);
    }
  }
}
