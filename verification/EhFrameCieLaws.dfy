// What the edit of a CIE means: the two overlapping moves insert letters and
// data into the CIE, and the letters change only the data they are for.

module EhFrameCieLaws {
  import opened Bytes
  import opened EhFrame
  import opened EhFrameFde
  import opened EhFrameCie

  // ---------- the splice is an insertion ----------

  // b with x inserted at i and y at j; what was between them and end moves up,
  // over the room after end.
  function Inserted<T>(b: seq<T>, i: nat, x: seq<T>, j: nat, y: seq<T>, end: nat): (r: seq<T>)
    requires i <= j <= end && end + |x| + |y| <= |b|
    ensures |r| == |b|
  {
    b[..i] + x + b[i..j] + y + b[j..end] + b[end + |x| + |y|..]
  }

  lemma InsertedByte<T>(b: seq<T>, i: nat, x: seq<T>, j: nat, y: seq<T>, end: nat, k: nat)
    requires i <= j <= end && end + |x| + |y| <= |b| && k < |b|
    ensures Inserted(b, i, x, j, y, end)[k]
            == if k < i then b[k]
               else if k < i + |x| then x[k - i]
               else if k < j + |x| then b[k - |x|]
               else if k < j + |x| + |y| then y[k - j - |x|]
               else if k < end + |x| + |y| then b[k - |x| - |y|]
               else b[k]
  {
  }

  function NewLetters(p: Parsed): (s: seq<Byte>)
    requires p.Cie?
    ensures |s| == p.ExtraString()
  {
    (if p.addAugmentationSize then [LETTER_Z] else []) + (if p.addFdeEncoding then [LETTER_R] else [])
  }

  function NewData(p: Parsed, ptrSize: PtrSize): (s: seq<Byte>)
    requires p.Cie?
    ensures |s| == p.ExtraData()
  {
    (if p.addAugmentationSize then [p.ExtraData() - 1] else [])
    + (if p.addFdeEncoding then [MakePcRelative(DW_EH_PE_absptr, ptrSize)] else [])
  }

  // Byte j of the block after the splice.
  lemma SplicedByte(w: Walk, job: CieJob, out: Output, j: nat)
    requires job.Ok() && |w.b| == job.newSize && w.aug <= w.data <= job.p.size && j < |w.b|
    ensures var es, ed := job.p.ExtraString(), job.p.ExtraData();
            SpliceAt(w, job, out).b[j]
            == if j < w.aug then w.b[j]
               else if j < w.aug + es then NewLetters(job.p)[j - w.aug]
               else if j < w.data + es then w.b[j - es]
               else if j < w.data + es + ed then NewData(job.p, out.ptrSize)[j - w.data - es]
               else if j < job.p.size + es + ed then w.b[j - es - ed]
               else w.b[j]
  {
  }

  // The two overlapping memmoves and the stores insert the new letters and the
  // new data at the two pointers, and lose nothing.
  lemma SpliceInserts(w: Walk, job: CieJob, out: Output)
    requires job.Ok() && |w.b| == job.newSize && w.aug <= w.data <= job.p.size
    ensures SpliceAt(w, job, out).b
            == Inserted(w.b, w.aug, NewLetters(job.p), w.data, NewData(job.p, out.ptrSize), job.p.size)
  {
    var l, r := SpliceAt(w, job, out).b,
                Inserted(w.b, w.aug, NewLetters(job.p), w.data, NewData(job.p, out.ptrSize), job.p.size);
    assert |l| == |r|;
    hide *;
    forall j | 0 <= j < |r| ensures l[j] == r[j] {
      SplicedIsInserted(w, job, out, j);
    }
  }

  lemma SplicedIsInserted(w: Walk, job: CieJob, out: Output, j: nat)
    requires job.Ok() && |w.b| == job.newSize && w.aug <= w.data <= job.p.size && j < |w.b|
    ensures SpliceAt(w, job, out).b[j]
            == Inserted(w.b, w.aug, NewLetters(job.p), w.data, NewData(job.p, out.ptrSize), job.p.size)[j]
  {
    hide SpliceAt, Inserted, NewLetters, NewData;
    SplicedByte(w, job, out, j);
    InsertedByte(w.b, w.aug, NewLetters(job.p), w.data, NewData(job.p, out.ptrSize), job.p.size, j);
  }

  // ---------- the letter walk ----------

  // One letter changes its own data only.
  lemma StepByte(w: Walk, job: CieJob, out: Output, j: nat)
    requires StepOk(w, job, out) && j < |w.b|
    ensures w.data <= Step(w, job, out).data
    ensures j < w.data || Step(w, job, out).data <= j ==> Step(w, job, out).b[j] == w.b[j]
  {
  }

  // Where the walk leaves the data pointer.
  function WalkData(w: Walk, job: CieJob, out: Output): (d: nat)
    requires WalkOk(w, job, out)
    ensures w.data <= d
    decreases |w.b| - w.aug
  {
    if w.left.Any() then WalkData(Step(w, job, out), job, out) else w.data
  }

  // The walk changes nothing but the data it walks over.
  lemma {:induction false} WalkByte(w: Walk, job: CieJob, out: Output, j: nat)
    requires WalkOk(w, job, out) && j < |w.b|
    ensures j < w.data || WalkData(w, job, out) <= j ==> WalkEnd(w, job, out)[j] == w.b[j]
    decreases |w.b| - w.aug
  {
    if w.left.Any() {
      StepByte(w, job, out, j);
      WalkByte(Step(w, job, out), job, out, j);
    }
  }

  // ---------- what the edit keeps ----------

  // From the data pointer on, the CIE is that of f, Extra() places further on.
  predicate Fed(s: Walk, f: seq<Byte>, job: CieJob) {
    && job.Ok() && |s.b| == |f| == job.newSize && job.p.Extra() <= s.data
    && forall j {:trigger s.b[j]} :: s.data <= j < job.p.size + job.p.Extra() ==> s.b[j] == f[j - job.p.Extra()]
  }

  lemma SpliceFeeds(w: Walk, job: CieJob, out: Output)
    requires job.Ok() && |w.b| == job.newSize && w.aug <= w.data <= job.p.size
    ensures Fed(SpliceAt(w, job, out), w.b, job)
  {
    var r, e := SpliceAt(w, job, out), job.p.Extra();
    forall j | r.data <= j < job.p.size + e ensures r.b[j] == w.b[j - e] {
      SplicedByte(w, job, out, j);
    }
  }

  lemma SplicedFeeds(f: seq<Byte>, job: CieJob, out: Output)
    requires job.Ok() && |f| == job.newSize && Delimited(f, job.p.size)
    ensures Fed(Spliced(f, job, out), f, job)
  {
    SpliceFeeds(Raised(f, job), job, out);
  }

  // The length word is out of the walk's reach and leads to the next entry.
  lemma CieLength(b: seq<Byte>, job: CieJob, out: Output)
    requires job.Ok() && |b| == job.newSize && Walkable(Framed(out.endian, b, job.p.size), job, out)
    ensures ValueAt(out.endian, EditCie(b, job, out), 0, 4) == (job.newSize - 4) % Power256(4)
  {
    hide Walkable, Power256;
    var f := Framed(out.endian, b, job.p.size);
    if job.Todo().Any() {
      hide Augmented, Framed;
      forall j | 0 <= j < 4 ensures EditCie(b, job, out)[j] == f[j] {
        HeadUntouched(f, job, out, j);
      }
      SameValue(out.endian, EditCie(b, job, out), 0, f, 0, 4);
    }
  }

  // The length, the id and the version stay.
  lemma HeadUntouched(f: seq<Byte>, job: CieJob, out: Output, j: nat)
    requires Walkable(f, job, out) && job.Todo().Any() && j < 9
    ensures Augmented(f, job, out)[j] == f[j]
  {
    var w := Raised(f, job);
    SplicedByte(w, job, out, j);
    WalkByte(SpliceAt(w, job, out), job, out, j);
  }
}
