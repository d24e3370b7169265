// Parsing an edited CIE.

module EhFrameCieReads {
  import opened Bytes
  import opened CLibrary
  import opened EhFrame
  import opened EhFrameFde
  import opened EhFrameCie
  import opened EhFrameCieLaws
  import opened EhFrameCfa
  import opened EhFrameCieParse
  import opened EhFrameCieKept

  // ---------- the bytes of an edited CIE ----------

  // Where the walk does not go the edited block is the spliced one.
  lemma OutsideWalk(f: seq<Byte>, h: CieShape, job: CieJob, out: Output, j: nat)
    requires Editable(f, h, job, out.ptrSize) && j < |f|
    ensures Walkable(f, job, out) && Delimited(f, job.p.size) && DataAt(h) <= h.seen.at <= job.p.size
    ensures j < DataAt(h) + job.p.Extra() || h.seen.at + job.p.Extra() <= j ==>
              Augmented(f, job, out)[j] == Spliced(f, job, out).b[j]
  {
    hide Walkable, Augmented, Spliced, ParseCie, PaddingKept, EncodingsOf, Asks, SkipsRight, Delimited, Synced;
    AugmentedIs(f, h, job, out);
    SplicedSyncs(f, h, job, out);
    SplicedAt(f, h, job, out);
    DataStarts(f, h, job, out.ptrSize);
    SyncedWalk(Spliced(f, job, out), f, job, out, h.Rest(), Unseen(DataAt(h)));
    WalkByte(Spliced(f, job, out), job, out, j);
  }

  // The bytes before the letters' data.
  lemma EditedHead(f: seq<Byte>, h: CieShape, job: CieJob, out: Output, j: nat)
    requires Editable(f, h, job, out.ptrSize) && j < DataAt(h) + job.p.Extra()
    ensures j < |f| && Walkable(f, job, out)
    ensures var r, es, ed := Augmented(f, job, out), job.p.ExtraString(), job.p.ExtraData();
            && (j < FirstNew(h) ==> r[j] == f[j])
            && (FirstNew(h) <= j < FirstNew(h) + es ==> r[j] == NewLetters(job.p)[j - FirstNew(h)])
            && (FirstNew(h) + es <= j < h.numbers + es ==> r[j] == f[j - es])
            && (h.Sized() && j == h.numbers + es ==> r[j] == f[h.numbers] + ed)
            && (DataAt(h) + es <= j ==> r[j] == NewData(job.p, out.ptrSize)[j - DataAt(h) - es])
  {
    hide Walkable, Augmented, Spliced, ParseCie, PaddingKept, EncodingsOf, Asks, SkipsRight, Delimited;
    SplicedAt(f, h, job, out);
    OutsideWalk(f, h, job, out, j);
    SplicedHead(f, h, job, out, j);
  }

  // Every instruction byte is found Extra() bytes further on, and after the last one
  // there is nothing but padding.
  lemma EditedTail(f: seq<Byte>, h: CieShape, job: CieJob, out: Output, j: nat)
    requires Editable(f, h, job, out.ptrSize) && h.seen.at + job.p.Extra() <= j < |f|
    ensures Walkable(f, job, out)
    ensures Augmented(f, job, out)[j] == if j < job.p.size + job.p.Extra() then f[j - job.p.Extra()] else f[j]
  {
    hide Walkable, Augmented, Spliced, ParseCie, PaddingKept, EncodingsOf, Asks, SkipsRight, Delimited;
    SplicedAt(f, h, job, out);
    OutsideWalk(f, h, job, out, j);
    SplicedHead(f, h, job, out, j);
    SplicedFeeds(f, job, out);
  }

  // The sizes in an editable CIE.
  lemma Sizes(f: seq<Byte>, h: CieShape, job: CieJob, ptrSize: PtrSize)
    requires Editable(f, h, job, ptrSize)
    ensures job.Ok() && job.p.Cie? && |f| == job.newSize && 9 <= job.p.size && job.p.size + job.p.Extra() <= |f|
            && h.version < 4
    ensures 10 + |h.letters| < h.numbers <= DataAt(h) <= h.seen.at <= job.p.size
    ensures ParseCie(f, job.p.size, job.p.offset, ptrSize) == Some(h)
    ensures job.p.Extra() == job.p.ExtraString() + job.p.ExtraData()
  {
    hide ParseCie, PaddingKept, EncodingsOf, Asks, ReadLetters;
    DataStarts(f, h, job, ptrSize);
  }

  // ---------- the letters ----------

  function EditedLetters(h: CieShape, p: Parsed): seq<Byte>
    requires p.Cie?
  {
    if h.Sized() then [LETTER_Z] + (NewLetters(p) + h.Rest()) else NewLetters(p) + h.letters
  }

  lemma EditedLetterAt(h: CieShape, p: Parsed, k: nat)
    requires p.Cie? && k <= |h.letters| + p.ExtraString()
    ensures |EditedLetters(h, p)| == |h.letters| + p.ExtraString()
    ensures var s, i, es := EditedLetters(h, p) + [0], FirstNew(h) - 9, p.ExtraString();
            s[k] == if k < i then LETTER_Z
                    else if k < i + es then NewLetters(p)[k - i]
                    else (h.letters + [0])[k - es]
  {
  }

  // The string of the edited CIE.
  lemma EditedString(f: seq<Byte>, h: CieShape, job: CieJob, out: Output)
    requires Editable(f, h, job, out.ptrSize)
    ensures Walkable(f, job, out)
    ensures var r, s := Augmented(f, job, out), EditedLetters(h, job.p);
            && |s| == |h.letters| + job.p.ExtraString() && 9 + |s| < |r|
            && StringLength(r, 9) == |s| && r[9..9 + |s|] == s
  {
    hide *;
    AugmentedIs(f, h, job, out);
    Sizes(f, h, job, out.ptrSize);
    ShapeIs(f, job.p.size, job.p.offset, out.ptrSize, h);
    EditedLetterAt(h, job.p, 0);
    StringByteIs(f, h, job, out, |h.letters| + job.p.ExtraString());
    var r, s := Augmented(f, job, out), EditedLetters(h, job.p) + [0];
    forall k | 0 <= k < |s| ensures r[9..9 + |s|][k] == s[k] {
      StringByteIs(f, h, job, out, k);
    }
    NoNul(h, job.p);
    StringIsThere(r, EditedLetters(h, job.p));
  }

  lemma StringByteIs(f: seq<Byte>, h: CieShape, job: CieJob, out: Output, k: nat)
    requires Editable(f, h, job, out.ptrSize) && k <= |h.letters| + job.p.ExtraString()
    ensures Walkable(f, job, out) && 9 + k < |f| && k < |EditedLetters(h, job.p) + [0]|
    ensures Augmented(f, job, out)[9 + k] == (EditedLetters(h, job.p) + [0])[k]
  {
    hide *;
    Sizes(f, h, job, out.ptrSize);
    FirstIs(h);
    ShapeIs(f, job.p.size, job.p.offset, out.ptrSize, h);
    EditedLetterAt(h, job.p, k);
    EditedHead(f, h, job, out, 9 + k);
    ZFirst(f, h);
    LetterByte(f, h);
  }

  lemma ZFirst(f: seq<Byte>, h: CieShape)
    requires 9 + |h.letters| < |f| && h.letters == f[9..9 + |h.letters|]
    ensures FirstNew(h) == 10 ==> f[9] == LETTER_Z
  {
  }

  lemma LetterByte(f: seq<Byte>, h: CieShape)
    requires 9 + |h.letters| < |f| && h.letters == f[9..9 + |h.letters|] && f[9 + |h.letters|] == 0
    ensures forall k {:trigger (h.letters + [0])[k]} :: 0 <= k <= |h.letters| ==> (h.letters + [0])[k] == f[9 + k]
  {
  }

  lemma NoNul(h: CieShape, p: Parsed)
    requires p.Cie? && 0 !in h.letters
    ensures 0 !in EditedLetters(h, p)
  {
    assert 0 !in NewLetters(p);
    assert forall k {:trigger h.Rest()[k]} :: 0 <= k < |h.Rest()| ==> h.Rest()[k] in h.letters;
  }

  lemma StringIsThere(r: seq<Byte>, s: seq<Byte>)
    requires 9 + |s| < |r| && r[9..9 + |s + [0]|] == s + [0] && 0 !in s
    ensures StringLength(r, 9) == |s| && r[9..9 + |s|] == s
  {
    hide At;
    AtSlice(r, 9, s + [0]);
    StringAt(r, 9, s);
    assert r[9..9 + |s|] == r[9..9 + |s + [0]|][..|s|] == s;
  }

  // ---------- the numbers ----------

  // The numbers of a CIE are the same elsewhere.
  lemma CieNumbersCarried(f: seq<Byte>, version: Byte, i: nat, end: nat, ptrSize: PtrSize, r: seq<Byte>, d: nat,
                          to: nat)
    requires i <= end <= |f| && AfterCieNumbers(f, version, i, end, ptrSize).Some?
    requires AfterCieNumbers(f, version, i, end, ptrSize).value + d <= to <= |r|
    requires Carries(f, i, AfterCieNumbers(f, version, i, end, ptrSize).value, r, d)
    ensures AfterCieNumbers(r, version, i + d, to, ptrSize)
            == Some(AfterCieNumbers(f, version, i, end, ptrSize).value + d)
  {
    hide AfterLeb, LebValue;
    var at := if version >= 4 then i + 2 else i;
    if version >= 4 {
      assert r[i + d] == f[i] && r[i + 1 + d] == f[i + 1];
    }
    LebCarried(f, at, end, r, d, to);
    LebCarried(f, AfterLeb(f, at, end).value, end, r, d, to);
    if version != 1 {
      LebCarried(f, AfterLeb(f, AfterLeb(f, at, end).value, end).value, end, r, d, to);
    }
  }

  lemma NumberByte(f: seq<Byte>, h: CieShape, job: CieJob, out: Output, k: nat)
    requires Editable(f, h, job, out.ptrSize) && 10 + |h.letters| <= k < h.numbers
    ensures Walkable(f, job, out) && k + job.p.ExtraString() < |f|
    ensures Augmented(f, job, out)[k + job.p.ExtraString()] == f[k]
  {
    hide Editable, CieJob.Ok, Walkable, Augmented, ParseCie, Parsed.ExtraString, Parsed.ExtraData;
    Sizes(f, h, job, out.ptrSize);
    EditedHead(f, h, job, out, k + job.p.ExtraString());
  }

  lemma NumberBytes(f: seq<Byte>, h: CieShape, job: CieJob, out: Output)
    requires Editable(f, h, job, out.ptrSize)
    ensures Walkable(f, job, out)
            && Carries(f, 10 + |h.letters|, h.numbers, Augmented(f, job, out), job.p.ExtraString())
  {
    hide Editable, CieJob.Ok, Walkable, Augmented, ParseCie, Parsed.ExtraString, Parsed.ExtraData;
    AugmentedIs(f, h, job, out);
    Sizes(f, h, job, out.ptrSize);
    forall k {:trigger f[k]} | 10 + |h.letters| <= k < h.numbers
      ensures Augmented(f, job, out)[k + job.p.ExtraString()] == f[k]
    {
      NumberByte(f, h, job, out, k);
    }
  }

  lemma EditedNumbers(f: seq<Byte>, h: CieShape, job: CieJob, out: Output)
    requires Editable(f, h, job, out.ptrSize)
    ensures Walkable(f, job, out) && h.numbers + job.p.ExtraString() <= |f|
    ensures var es := job.p.ExtraString();
            AfterCieNumbers(Augmented(f, job, out), h.version, 10 + |h.letters| + es, |f|, out.ptrSize)
            == Some(h.numbers + es)
  {
    hide *;
    AugmentedIs(f, h, job, out);
    Sizes(f, h, job, out.ptrSize);
    ShapeIs(f, job.p.size, job.p.offset, out.ptrSize, h);
    var r, es, i := Augmented(f, job, out), job.p.ExtraString(), 10 + |h.letters|;
    NumberBytes(f, h, job, out);
    CieNumbersCarried(f, h.version, i, job.p.size, out.ptrSize, r, es, |f|);
  }

  // ---------- the data ----------

  // The edited CIE as the parser should find it.
  function EditedShape(h: CieShape, job: CieJob, ptrSize: PtrSize): CieShape
    requires job.p.Cie?
  {
    CieShape(h.version, EditedLetters(h, job.p), h.numbers + job.p.ExtraString(), EditedSeen(h.seen, job, ptrSize))
  }

  // Its letters that have data, and where their data starts.
  lemma EditedRest(f: seq<Byte>, h: CieShape, job: CieJob, ptrSize: PtrSize)
    requires Editable(f, h, job, ptrSize)
    ensures var g := EditedShape(h, job, ptrSize);
            && g.Rest() == (if job.p.addFdeEncoding then [LETTER_R] else []) + h.Rest()
            && g.Sized() == (h.Sized() || job.p.addAugmentationSize)
            && DataAt(g) == DataAt(h) + job.p.ExtraString() + (if job.p.addAugmentationSize then 1 else 0)
  {
    hide ParseCie, PaddingKept, EncodingsOf, Asks, SkipsRight, EditedLetters, EditedSeen;
    RestOfEdited(h, job.p);
  }

  lemma RestOfEdited(h: CieShape, p: Parsed)
    requires p.Cie? && (p.addAugmentationSize ==> p.addFdeEncoding && h.letters == [])
    requires p.addFdeEncoding && h.letters == [] ==> p.addAugmentationSize
    ensures var s, sized := EditedLetters(h, p), h.Sized() || p.addAugmentationSize;
            && (sized <==> s != [] && s[0] == LETTER_Z)
            && (if sized then s[1..] else s) == (if p.addFdeEncoding then [LETTER_R] else []) + h.Rest()
  {
    if p.addAugmentationSize {
      assert NewLetters(p) == [LETTER_Z, LETTER_R];
    }
  }

  lemma SizeByte(f: seq<Byte>, h: CieShape, job: CieJob, out: Output)
    requires Editable(f, h, job, out.ptrSize) && (h.Sized() || job.p.addAugmentationSize)
    ensures Walkable(f, job, out) && h.numbers + job.p.ExtraString() < |f|
    ensures h.Sized() ==> h.numbers < |f|
    ensures Augmented(f, job, out)[h.numbers + job.p.ExtraString()]
            == if h.Sized() then f[h.numbers] + job.p.ExtraData() else job.p.ExtraData() - 1
  {
    hide Walkable, Augmented, ParseCie, PaddingKept, EncodingsOf, Asks, SkipsRight;
    Sizes(f, h, job, out.ptrSize);
    DataStarts(f, h, job, out.ptrSize);
    EditedHead(f, h, job, out, h.numbers + job.p.ExtraString());
  }

  // The raised size is still a single byte.
  predicate SizeFits(f: seq<Byte>, h: CieShape, p: Parsed) {
    h.Sized() ==> h.numbers < |f| && f[h.numbers] + p.ExtraData() < 0x80
  }

  // The size, if there is one, is read as a single byte exactly if it is still below 128.
  lemma EditedSize(f: seq<Byte>, h: CieShape, job: CieJob, out: Output)
    requires Editable(f, h, job, out.ptrSize)
    ensures Walkable(f, job, out) && h.numbers + job.p.ExtraString() <= |f|
    ensures h.Sized() || job.p.addAugmentationSize ==>
              (AfterLeb(Augmented(f, job, out), h.numbers + job.p.ExtraString(), |f|)
               == Some(h.numbers + job.p.ExtraString() + 1)
               <==> SizeFits(f, h, job.p))
  {
    hide Editable, Walkable, Augmented, ParseCie, AfterLeb, CieJob.Ok, Parsed.ExtraData, Parsed.ExtraString;
    AugmentedIs(f, h, job, out);
    Sizes(f, h, job, out.ptrSize);
    if h.Sized() || job.p.addAugmentationSize {
      SizeByte(f, h, job, out);
      OneByteLeb(Augmented(f, job, out), h.numbers + job.p.ExtraString(), |f|);
      if !h.Sized() {
        NewSizeIsSmall(job);
      }
    }
  }

  lemma NewSizeIsSmall(job: CieJob)
    requires job.Ok() && job.p.addAugmentationSize
    ensures job.p.ExtraData() - 1 == 1
  {
  }

  lemma OneByteLeb(r: seq<Byte>, i: nat, end: nat)
    requires i < end <= |r|
    ensures AfterLeb(r, i, end) == Some(i + 1) <==> r[i] < 0x80
  {
  }

  // A new 'R' is read with the encoding that the edit gave it.
  lemma NewLetterRead(f: seq<Byte>, h: CieShape, job: CieJob, out: Output)
    requires Editable(f, h, job, out.ptrSize)
    ensures Walkable(f, job, out)
    ensures var at := DataAt(EditedShape(h, job, out.ptrSize));
            ReadLetters(Augmented(f, job, out), EditedShape(h, job, out.ptrSize).Rest(), Unseen(at), |f|,
                        job.newOffset, out.ptrSize)
            == ReadLetters(Augmented(f, job, out), h.Rest(), EditedSeen(Unseen(DataAt(h)), job, out.ptrSize), |f|,
                           job.newOffset, out.ptrSize)
  {
    hide *;
    AugmentedIs(f, h, job, out);
    Sizes(f, h, job, out.ptrSize);
    EditedRest(f, h, job, out.ptrSize);
    StartEdited(h, job, out.ptrSize);
    if job.p.addFdeEncoding {
      NewByte(f, h, job, out);
      ReadNew(Augmented(f, job, out), h.Rest(), DataAt(EditedShape(h, job, out.ptrSize)), |f|, job.newOffset,
              out.ptrSize);
    } else {
      assert [] + h.Rest() == h.Rest();
    }
  }

  // Before the first letter.
  lemma StartEdited(h: CieShape, job: CieJob, ptrSize: PtrSize)
    requires job.Ok()
    ensures EditedSeen(Unseen(DataAt(h)), job, ptrSize)
            == var s := Unseen(DataAt(h) + job.p.Extra());
               if job.p.addFdeEncoding then s.(fde := MakePcRelative(DW_EH_PE_absptr, ptrSize)) else s
    ensures job.p.Extra() == job.p.ExtraString() + (if job.p.addAugmentationSize then 1 else 0)
            + (if job.p.addFdeEncoding then 1 else 0)
  {
  }

  // The byte of the new encoding.
  lemma NewByte(f: seq<Byte>, h: CieShape, job: CieJob, out: Output)
    requires Editable(f, h, job, out.ptrSize) && job.p.addFdeEncoding
    ensures Walkable(f, job, out) && DataAt(EditedShape(h, job, out.ptrSize)) < |f|
    ensures Augmented(f, job, out)[DataAt(EditedShape(h, job, out.ptrSize))]
            == MakePcRelative(DW_EH_PE_absptr, out.ptrSize)
  {
    hide Editable, Walkable, Augmented, ParseCie, EditedShape, CieShape.Rest, CieShape.Sized, DataAt;
    Sizes(f, h, job, out.ptrSize);
    EditedRest(f, h, job, out.ptrSize);
    EditedHead(f, h, job, out, DataAt(EditedShape(h, job, out.ptrSize)));
  }

  lemma ReadNew(r: seq<Byte>, rest: seq<Byte>, at: nat, end: nat, base: nat, ptrSize: PtrSize)
    requires at < end <= |r| && r[at] == MakePcRelative(DW_EH_PE_absptr, ptrSize)
    ensures ReadLetters(r, [LETTER_R] + rest, Unseen(at), end, base, ptrSize)
            == ReadLetters(r, rest, Unseen(at + 1).(fde := MakePcRelative(DW_EH_PE_absptr, ptrSize)), end, base,
                           ptrSize)
  {
    hide MakePcRelative, EncodedWidth;
    NewEncodingWidth(ptrSize);
    assert ([LETTER_R] + rest)[1..] == rest;
  }

  lemma NewEncodingWidth(ptrSize: PtrSize)
    ensures EncodedWidth(MakePcRelative(DW_EH_PE_absptr, ptrSize), ptrSize) == ptrSize
    ensures EncodedWidth(DW_EH_PE_omit, ptrSize) == 0
  {
    PcRelativeKeepsWidth(DW_EH_PE_absptr, ptrSize);
  }

  // What the parser finds in the letters' data of the edited CIE.
  function FoundSeen(f: seq<Byte>, h: CieShape, job: CieJob, ptrSize: PtrSize): Seen
    requires Editable(f, h, job, ptrSize)
  {
    DataStarts(f, h, job, ptrSize);
    EditedRead(f, h.Rest(), Unseen(DataAt(h)), EditedSeen(Unseen(DataAt(h)), job, ptrSize), LeftToDo(job), job, ptrSize)
  }

  lemma EditedLettersRead(f: seq<Byte>, h: CieShape, job: CieJob, out: Output)
    requires Editable(f, h, job, out.ptrSize)
    ensures Walkable(f, job, out)
    ensures ReadLetters(Augmented(f, job, out), h.Rest(), EditedSeen(Unseen(DataAt(h)), job, out.ptrSize), |f|,
                        job.newOffset, out.ptrSize)
            == Some(FoundSeen(f, h, job, out.ptrSize))
  {
    hide Editable, Walkable, Augmented, ReadLetters, Spliced, Delimited, Synced, WalkOk, WalkEnd, EditedRead;
    AugmentedIs(f, h, job, out);
    SplicedSyncs(f, h, job, out);
    DataStarts(f, h, job, out.ptrSize);
    WalkReads(Spliced(f, job, out), f, job, out, h.Rest(), Unseen(DataAt(h)),
              EditedSeen(Unseen(DataAt(h)), job, out.ptrSize), |f|);
  }

  lemma EditedData(f: seq<Byte>, h: CieShape, job: CieJob, out: Output)
    requires Editable(f, h, job, out.ptrSize) && SizeFits(f, h, job.p)
    ensures Walkable(f, job, out) && h.numbers + job.p.ExtraString() <= |f|
    ensures var g := EditedShape(h, job, out.ptrSize);
            ParseData(Augmented(f, job, out), g.(seen := Unseen(0)), |f|, job.newOffset, out.ptrSize)
            == Some(g.(seen := FoundSeen(f, h, job, out.ptrSize)))
  {
    hide *;
    AugmentedIs(f, h, job, out);
    Sizes(f, h, job, out.ptrSize);
    EditedRest(f, h, job, out.ptrSize);
    EditedSize(f, h, job, out);
    NewLetterRead(f, h, job, out);
    EditedLettersRead(f, h, job, out);
    var g := EditedShape(h, job, out.ptrSize);
    EditedPlace(h, job, out.ptrSize);
    DataIsRead(Augmented(f, job, out), g, FoundSeen(f, h, job, out.ptrSize), |f|, job.newOffset, out.ptrSize);
  }

  lemma EditedPlace(h: CieShape, job: CieJob, ptrSize: PtrSize)
    requires job.p.Cie?
    ensures var g := EditedShape(h, job, ptrSize);
            && g.numbers == h.numbers + job.p.ExtraString() && g.seen.at == h.seen.at + job.p.Extra()
            && DataAt(g) == if g.Sized() then g.numbers + 1 else g.numbers
  {
  }

  lemma DataIsRead(r: seq<Byte>, g: CieShape, seen: Seen, end: nat, base: nat, ptrSize: PtrSize)
    requires g.numbers <= end <= |r| && (g.Sized() ==> AfterLeb(r, g.numbers, end) == Some(DataAt(g)))
    requires ReadLetters(r, g.Rest(), Unseen(DataAt(g)), end, base, ptrSize) == Some(seen)
    ensures ParseData(r, g.(seen := Unseen(0)), end, base, ptrSize) == Some(g.(seen := seen))
  {
    hide ReadLetters, AfterLeb;
    assert g.(seen := Unseen(0)).Rest() == g.Rest();
  }

  // ---------- the whole edit ----------

  lemma OldVersion(f: seq<Byte>, h: CieShape, job: CieJob, out: Output)
    requires Editable(f, h, job, out.ptrSize)
    ensures Walkable(f, job, out) && 9 <= |f| && Augmented(f, job, out)[8] == f[8]
    ensures h.version == f[8] && h.version in {1, 3, 4} && !(EH <= EditedLetters(h, job.p))
    ensures |EditedLetters(h, job.p)| == |h.letters| + job.p.ExtraString()
  {
    hide Walkable, Augmented, ParseCie, PaddingKept, EncodingsOf, Asks, SkipsRight;
    Sizes(f, h, job, out.ptrSize);
    ShapeIs(f, job.p.size, job.p.offset, out.ptrSize, h);
    EditedHead(f, h, job, out, 8);
    EditedLetterAt(h, job.p, 0);
  }

  // What the parser makes of the edited CIE, if the new string is short enough for it.
  lemma AugmentedParses(f: seq<Byte>, h: CieShape, job: CieJob, out: Output)
    requires Editable(f, h, job, out.ptrSize) && SizeFits(f, h, job.p)
    ensures Walkable(f, job, out) && 9 <= |f|
    ensures ParseCie(Augmented(f, job, out), |f|, job.newOffset, out.ptrSize)
            == if |h.letters| + job.p.ExtraString() < MAX_STRING
               then Some(EditedShape(h, job, out.ptrSize).(seen := FoundSeen(f, h, job, out.ptrSize)))
               else None
  {
    hide Editable, CieJob.Ok, Walkable, Augmented, StringLength, AfterCieNumbers, ParseData, EditedLetters, EditedSeen,
         Parsed.ExtraString, FoundSeen, SizeFits;
    OldVersion(f, h, job, out);
    EditedString(f, h, job, out);
    EditedNumbers(f, h, job, out);
    EditedData(f, h, job, out);
  }

  // ---------- exactly when it is right ----------

  // Each letter whose conversion is asked for occurs once.
  predicate AskedOnce(job: CieJob, rest: seq<Byte>)
    requires job.p.Cie?
  {
    && (job.lsdaRelative ==> Once(LETTER_L, rest))
    && (job.p.makeRelative && !job.p.addFdeEncoding ==> Once(LETTER_R, rest))
    && (job.perRelative ==> Once(LETTER_P, rest))
  }

  // The encodings that the parser finds are the converted ones.
  predicate Converts(job: CieJob, rest: seq<Byte>)
    requires job.p.Cie?
  {
    && (job.lsdaRelative ==> Once(LETTER_L, rest))
    && (job.p.makeRelative && !job.p.addFdeEncoding ==> Once(LETTER_R, rest))
    && (job.makePerRelative ==> WalkedTo(LeftToDo(job), rest))
  }

  // A 'P' that is to be converted occurs once, or the last one has nothing added to it
  // and is followed by a letter that is asked for.
  predicate PointerRight(h: CieShape, job: CieJob, out: Output)
    requires job.p.Cie?
  {
    job.perRelative ==>
      || Once(LETTER_P, h.Rest())
      || (PointerDelta(h.seen, job, out) % Power256(EncodedWidth(h.seen.per, out.ptrSize)) == 0
          && (job.makePerRelative ==> WalkedTo(LeftToDo(job), h.Rest())))
  }

  // An absolute encoding is changed by its conversion.
  lemma ConvertedDiffers(enc: Byte, ptrSize: PtrSize)
    requires Application(enc) == DW_EH_PE_absptr
    ensures enc != DW_EH_PE_omit && Turned(enc, true, ptrSize) != enc
  {
    OmittedHasNone(ptrSize);
    PcRelativeKeepsWidth(enc, ptrSize);
  }

  lemma FoundIsEdited(f: seq<Byte>, h: CieShape, job: CieJob, ptrSize: PtrSize)
    requires Editable(f, h, job, ptrSize)
    ensures FoundSeen(f, h, job, ptrSize) == EditedSeen(h.seen, job, ptrSize) <==> Converts(job, h.Rest())
  {
    hide Editable, ReadLetters, EditedRead, MakePcRelative, Application, WalkedTo, Once, PerEncodings, EncodedWidth;
    EditableAsks(f, h, job, ptrSize);
    DataStarts(f, h, job, ptrSize);
    LettersThere(f, h, job, ptrSize);
    var at, rest, left := Unseen(DataAt(h)), h.Rest(), LeftToDo(job);
    var t := EditedSeen(at, job, ptrSize);
    ReadAt(f, rest, at, t, left, job, ptrSize);
    ReadLsda(f, rest, at, t, left, job, ptrSize);
    ReadFde(f, rest, at, t, left, job, ptrSize);
    ReadPer(f, rest, at, t, left, job, ptrSize);
    if job.lsdaRelative {
      ConvertedDiffers(h.seen.lsda, ptrSize);
    }
    if job.p.makeRelative && !job.p.addFdeEncoding {
      ConvertedDiffers(h.seen.fde, ptrSize);
    }
    if job.makePerRelative {
      ConvertedDiffers(h.seen.per, ptrSize);
    }
  }

  lemma EditableAsks(f: seq<Byte>, h: CieShape, job: CieJob, ptrSize: PtrSize)
    requires Editable(f, h, job, ptrSize)
    ensures job.Ok() && Asks(job, h.seen)
  {
  }

  lemma {:induction false} OnceIsWalkedTo(left: Actions, rest: seq<Byte>)
    requires left.personality && Once(LETTER_P, rest)
    ensures WalkedTo(left, rest)
    decreases |rest|
  {
    if rest != [] {
      if rest[0] != LETTER_P {
        OnceIsWalkedTo(After(left, rest[0]), rest[1..]);
      } else {
        assert LETTER_P !in rest[1..];
      }
    }
  }

  // The pointer that the parser finds has its target exactly if ...
  lemma PointerIsRight(f: seq<Byte>, h: CieShape, job: CieJob, out: Output)
    requires Editable(f, h, job, out.ptrSize) && LETTER_P in h.Rest()
    ensures Walkable(f, job, out)
    ensures PointerKept(f, Augmented(f, job, out), h.seen, job, out)
            <==> (job.perRelative ==>
                    || Once(LETTER_P, h.Rest())
                    || PointerDelta(h.seen, job, out) % Power256(EncodedWidth(h.seen.per, out.ptrSize)) == 0)
  {
    hide Editable, Walkable, Augmented, Spliced, Delimited, Synced, PointerKept, PointerValue, PointerDelta, Asks,
         Once, ReadLetters, WalkEnd, WalkOk, EncodedWidth, Power256;
    EditableAsks(f, h, job, out.ptrSize);
    AugmentedIs(f, h, job, out);
    SplicedSyncs(f, h, job, out);
    DataStarts(f, h, job, out.ptrSize);
    PointerInWalk(Spliced(f, job, out), f, job, out, h.Rest(), Unseen(DataAt(h)));
    PointerKeptIff(f, Augmented(f, job, out), h.seen, job, out, job.perRelative && Once(LETTER_P, h.Rest()));
  }

  // The edited CIE is parsed as it should be, and its personality pointer has the target
  // it had, exactly if the string is short enough, letters L and R whose conversion is
  // asked for occur once, and so does P, unless nothing has to be added to its pointer.
  lemma EditIsRight(f: seq<Byte>, h: CieShape, job: CieJob, out: Output)
    requires Editable(f, h, job, out.ptrSize) && SizeFits(f, h, job.p)
    ensures Walkable(f, job, out) && 9 <= |f|
    ensures var r := Augmented(f, job, out);
            && ParseCie(r, |f|, job.newOffset, out.ptrSize) == Some(EditedShape(h, job, out.ptrSize))
            && (LETTER_P in h.Rest() ==> PointerKept(f, r, h.seen, job, out))
            <==>
            && |h.letters| + job.p.ExtraString() < MAX_STRING
            && (job.lsdaRelative ==> Once(LETTER_L, h.Rest()))
            && (job.p.makeRelative && !job.p.addFdeEncoding ==> Once(LETTER_R, h.Rest()))
            && PointerRight(h, job, out)
  {
    hide Editable, Walkable, Augmented, ParseCie, PointerKept, PointerDelta, Once, WalkedTo, FoundSeen, EditedSeen,
         EditedLetters, EncodedWidth, Power256, SizeFits, Application;
    EditableAsks(f, h, job, out.ptrSize);
    AugmentedParses(f, h, job, out);
    FoundIsEdited(f, h, job, out.ptrSize);
    LettersThere(f, h, job, out.ptrSize);
    if LETTER_P in h.Rest() {
      PointerIsRight(f, h, job, out);
    }
    if job.perRelative && Once(LETTER_P, h.Rest()) {
      OnceIsWalkedTo(LeftToDo(job), h.Rest());
    }
  }

  lemma AugmentedRuns(f: seq<Byte>, h: CieShape, job: CieJob, out: Output, w: nat, xs: seq<nat>)
    requires Editable(f, h, job, out.ptrSize) && h.seen.at <= job.p.size <= |f|
    requires Instructions(f, h.seen.at, job.p.size, w) == Some(xs)
    requires forall j {:trigger f[j]} :: job.p.size <= j < |f| ==> f[j] == DW_CFA_NOP
    ensures Walkable(f, job, out) && h.seen.at + job.p.Extra() <= |f|
    ensures Instructions(Augmented(f, job, out), h.seen.at + job.p.Extra(), |f|, w)
            == Some(ShiftedBy(xs, job.p.Extra()))
  {
    hide *;
    Sizes(f, h, job, out.ptrSize);
    AugmentedIs(f, h, job, out);
    var r, e := Augmented(f, job, out), job.p.Extra();
    forall k {:trigger f[k]} | h.seen.at <= k < job.p.size ensures r[k + e] == f[k] {
      EditedTail(f, h, job, out, k + e);
    }
    forall k {:trigger r[k]} | job.p.size + e <= k < |f| ensures r[k] == DW_CFA_NOP {
      EditedTail(f, h, job, out, k);
    }
    InstructionsCarried(f, h.seen.at, job.p.size, w, xs, r, e, |f|);
  }

  // ---------- from the original bytes ----------

  lemma {:induction false} LettersCarried(c: seq<Byte>, f: seq<Byte>, letters: seq<Byte>, s: Seen, end: nat,
                                          base: nat, ptrSize: PtrSize)
    requires end <= |c| && end <= |f| && forall j {:trigger f[j]} :: s.at <= j < end ==> f[j] == c[j]
    ensures ReadLetters(f, letters, s, end, base, ptrSize) == ReadLetters(c, letters, s, end, base, ptrSize)
    decreases |letters|
  {
    hide EncodedWidth, PointerPlace;
    if letters != [] {
      var t := OneLetter(c, letters[0], s, end, base, ptrSize);
      assert OneLetter(f, letters[0], s, end, base, ptrSize) == t;
      if t.Some? && s.at <= end {
        LettersCarried(c, f, letters[1..], t.value, end, base, ptrSize);
      } else if t.Some? {
        LettersCarried(c, f, letters[1..], t.value, end, base, ptrSize);
      }
    }
  }

  lemma DataCarried(c: seq<Byte>, f: seq<Byte>, h: CieShape, end: nat, base: nat, ptrSize: PtrSize)
    requires h.numbers <= end <= |c| && end <= |f| && ParseData(c, h, end, base, ptrSize).Some?
    requires forall j {:trigger f[j]} :: h.numbers <= j < end ==> f[j] == c[j]
    ensures ParseData(f, h, end, base, ptrSize) == ParseData(c, h, end, base, ptrSize)
  {
    hide ReadLetters, AfterLeb, LebValue;
    if h.Sized() {
      LebCarried(c, h.numbers, end, f, 0, end);
      LettersCarried(c, f, h.Rest(), Unseen(AfterLeb(c, h.numbers, end).value), end, base, ptrSize);
    } else {
      LettersCarried(c, f, h.Rest(), Unseen(h.numbers), end, base, ptrSize);
    }
  }

  // What is parsed depends on the CIE's own bytes only.
  lemma ParseCarried(c: seq<Byte>, f: seq<Byte>, end: nat, base: nat, ptrSize: PtrSize, h: CieShape)
    requires 9 <= end <= |c| && end <= |f| && ParseCie(c, end, base, ptrSize) == Some(h)
    requires forall j {:trigger f[j]} :: 8 <= j < end ==> f[j] == c[j]
    ensures ParseCie(f, end, base, ptrSize) == Some(h)
  {
    hide AfterCieNumbers, ParseData, StringLength;
    ShapeIs(c, end, base, ptrSize, h);
    SameString(c, f, h.letters);
    CieNumbersCarried(c, h.version, 10 + |h.letters|, end, ptrSize, f, 0, end);
    DataCarried(c, f, h.(seen := Unseen(0)), end, base, ptrSize);
  }

  lemma SameString(c: seq<Byte>, f: seq<Byte>, s: seq<Byte>)
    requires 9 + |s| < |c| && 9 + |s| < |f| && c[9..9 + |s|] == s && c[9 + |s|] == 0 && 0 !in s
    requires forall j {:trigger f[j]} :: 9 <= j <= 9 + |s| ==> f[j] == c[j]
    ensures StringLength(f, 9) == |s| && f[9..9 + |s|] == s
  {
    assert f[9..9 + |s|] == s by {
      forall i | 0 <= i < |s| ensures f[9..9 + |s|][i] == s[i] {
        assert c[9..9 + |s|][i] == c[9 + i];
      }
    }
    assert f[9..9 + |s + [0]|] == s + [0];
    StringIsThere(f, s);
  }

  lemma {:induction false} EncodingsCarried(c: seq<Byte>, f: seq<Byte>, letters: seq<Byte>, s: Seen, end: nat,
                                            base: nat, ptrSize: PtrSize)
    requires end <= |c| && end <= |f| && forall j {:trigger f[j]} :: s.at <= j < end ==> f[j] == c[j]
    ensures PerEncodings(f, letters, s, end, base, ptrSize) == PerEncodings(c, letters, s, end, base, ptrSize)
    decreases |letters|
  {
    hide EncodedWidth, PointerPlace;
    if letters != [] {
      var t := OneLetter(c, letters[0], s, end, base, ptrSize);
      assert OneLetter(f, letters[0], s, end, base, ptrSize) == t;
      if t.Some? {
        EncodingsCarried(c, f, letters[1..], t.value, end, base, ptrSize);
      }
    }
  }

  lemma EncodingsAre(c: seq<Byte>, f: seq<Byte>, h: CieShape, end: nat, base: nat, ptrSize: PtrSize)
    requires h.numbers <= end <= |c| && end <= |f| && LettersAt(c, h, end).Some?
    requires forall j {:trigger f[j]} :: h.numbers <= j < end ==> f[j] == c[j]
    ensures EncodingsOf(f, h, end, base, ptrSize) == EncodingsOf(c, h, end, base, ptrSize)
  {
    hide AfterLeb, LebValue, PerEncodings;
    if h.Sized() {
      LebCarried(c, h.numbers, end, f, 0, end);
    }
    EncodingsCarried(c, f, h.Rest(), Unseen(LettersAt(c, h, end).value), end, base, ptrSize);
  }

  lemma FramedIsEditable(b: seq<Byte>, h: CieShape, job: CieJob, out: Output)
    requires Editable(b, h, job, out.ptrSize)
    ensures Editable(Framed(out.endian, b, job.p.size), h, job, out.ptrSize)
    ensures SizeFits(b, h, job.p) ==> SizeFits(Framed(out.endian, b, job.p.size), h, job.p)
  {
    hide ParseCie, PaddingKept, EncodingsOf, Asks, LettersAt;
    Sizes(b, h, job, out.ptrSize);
    var f := Framed(out.endian, b, job.p.size);
    ParseCarried(b, f, job.p.size, job.p.offset, out.ptrSize, h);
    PlaceFound(b, job.p.size, job.p.offset, out.ptrSize, h);
    EncodingsAre(b, f, h, job.p.size, job.p.offset, out.ptrSize);
    hide Framed;
    assert f[h.numbers - 1] == b[h.numbers - 1];
    assert h.Sized() ==> f[h.numbers] == b[h.numbers];
  }

  // ---------- a CIE in which there is nothing to edit ----------

  // It stays as it is, at another place perhaps.
  predicate Unedited(f: seq<Byte>, h: CieShape, job: CieJob, ptrSize: PtrSize) {
    && job.Ok() && !job.Todo().Any() && |f| == job.newSize
    && ParseCie(f, job.p.size, job.p.offset, ptrSize) == Some(h)
    && PaddingKept(job, EncodingsOf(f, h, job.p.size, job.p.offset, ptrSize), ptrSize)
  }

  lemma NothingInserted(job: CieJob, h: CieShape, ptrSize: PtrSize)
    requires job.Ok() && !job.Todo().Any()
    ensures job.p.Extra() == job.p.ExtraString() == 0 && !job.makePerRelative && !job.p.addFdeEncoding
    ensures EditedShape(h, job, ptrSize) == h
  {
    assert EditedLetters(h, job.p) == h.letters;
  }

  lemma UneditedSyncs(f: seq<Byte>, h: CieShape, job: CieJob, ptrSize: PtrSize)
    requires Unedited(f, h, job, ptrSize)
    ensures 10 + |h.letters| < h.numbers <= job.p.size <= |f| && LettersAt(f, h, job.p.size).Some?
    ensures var at := LettersAt(f, h, job.p.size).value;
            && Synced(Walk(f, FirstNew(h), at, job.Todo()), f, job, h.Rest(), Unseen(at), ptrSize)
            && FinalSeen(f, h.Rest(), Unseen(at), job, ptrSize) == h.seen
  {
    hide Unedited, ParseCie, PaddingKept, PerEncodings, ReadLetters, EditedShape, FirstNew, CieShape.Rest, CieJob.Todo,
         CieJob.Ok, Placed, StringLength, AfterLeb;
    UneditedIs(f, h, job, ptrSize);
    PlaceFound(f, job.p.size, job.p.offset, ptrSize, h);
    NothingInserted(job, h, ptrSize);
    UneditedLetters(f, h, job, ptrSize);
    UneditedPlaced(f, h, job.p.size, job.p.offset, ptrSize);
    FirstIs(h);
  }

  lemma UneditedLetters(f: seq<Byte>, h: CieShape, job: CieJob, ptrSize: PtrSize)
    requires Unedited(f, h, job, ptrSize)
    ensures h.numbers <= job.p.size <= |f| && LettersAt(f, h, job.p.size).Some?
    ensures var at := LettersAt(f, h, job.p.size).value;
            && h.numbers <= at <= job.p.size
            && ReadLetters(f, h.Rest(), Unseen(at), job.p.size, job.p.offset, ptrSize) == Some(h.seen)
            && PaddingKept(job, PerEncodings(f, h.Rest(), Unseen(at), job.p.size, job.p.offset, ptrSize), ptrSize)
  {
    hide PaddingKept, PerEncodings, ReadLetters, AfterLeb, StringLength, AfterCieNumbers;
    assert h.(seen := Unseen(0)).Rest() == h.Rest();
    if h.Sized() {
      SizeEnds(f, h.numbers, job.p.size);
    }
  }

  lemma UneditedPlaced(f: seq<Byte>, h: CieShape, end: nat, base: nat, ptrSize: PtrSize)
    requires 9 <= end <= |f| && ParseCie(f, end, base, ptrSize) == Some(h)
    ensures Placed(f, FirstNew(h), h.Rest())
  {
    hide ParseCie, ReadLetters, AfterCieNumbers;
    ShapeIs(f, end, base, ptrSize, h);
    FirstIs(h);
    forall j {:trigger f[j]} | FirstNew(h) <= j < FirstNew(h) + |h.Rest()| ensures f[j] == h.Rest()[j - FirstNew(h)] {
      RestLetter(h, j - 9);
      assert h.letters[j - 9] == f[9..9 + |h.letters|][j - 9];
    }
  }

  // Where nothing is left to do, what was there is found.
  lemma NothingFound(f: seq<Byte>, rest: seq<Byte>, s: Seen, left: Actions, job: CieJob, ptrSize: PtrSize)
    requires job.p.size <= |f| && ReadLetters(f, rest, s, job.p.size, job.p.offset, ptrSize).Some?
    requires job.p.Extra() == 0 && !left.Any() && !job.makePerRelative
    ensures EditedRead(f, rest, s, s, left, job, ptrSize) == FinalSeen(f, rest, s, job, ptrSize)
  {
    hide ReadLetters, EditedRead, MakePcRelative, WalkedTo, Once;
    ReadAt(f, rest, s, s, left, job, ptrSize);
    ReadLsda(f, rest, s, s, left, job, ptrSize);
    ReadFde(f, rest, s, s, left, job, ptrSize);
    ReadPer(f, rest, s, s, left, job, ptrSize);
    NotSeen(f, rest, s, job.p.size, job.p.offset, ptrSize);
  }

  lemma SameLettersAt(f: seq<Byte>, h: CieShape, end: nat, to: nat)
    requires h.numbers <= end <= to <= |f| && LettersAt(f, h, end).Some?
    ensures LettersAt(f, h, to) == LettersAt(f, h, end)
  {
    hide AfterLeb, LebValue;
    if h.Sized() {
      LebCarried(f, h.numbers, end, f, 0, to);
    }
  }

  lemma UneditedReads(f: seq<Byte>, h: CieShape, job: CieJob, out: Output)
    requires Unedited(f, h, job, out.ptrSize)
    ensures h.numbers <= |f| && LettersAt(f, h, |f|).Some?
    ensures ReadLetters(f, h.Rest(), Unseen(LettersAt(f, h, |f|).value), |f|, job.newOffset, out.ptrSize)
            == Some(h.seen)
  {
    hide *;
    UneditedIs(f, h, job, out.ptrSize);
    UneditedSyncs(f, h, job, out.ptrSize);
    NothingInserted(job, h, out.ptrSize);
    SameLettersAt(f, h, job.p.size, |f|);
    var at := LettersAt(f, h, job.p.size).value;
    var w := Walk(f, FirstNew(h), at, job.Todo());
    SyncedIs(w, f, job, h.Rest(), Unseen(at), out.ptrSize);
    WalkReads(w, f, job, out, h.Rest(), Unseen(at), Unseen(at), |f|);
    StaysThere(w, job, out);
    NothingFound(f, h.Rest(), Unseen(at), job.Todo(), job, out.ptrSize);
  }

  lemma StaysThere(w: Walk, job: CieJob, out: Output)
    requires !w.left.Any()
    ensures WalkOk(w, job, out) && WalkEnd(w, job, out) == w.b
  {
  }

  lemma UneditedIs(f: seq<Byte>, h: CieShape, job: CieJob, ptrSize: PtrSize)
    requires Unedited(f, h, job, ptrSize)
    ensures job.Ok() && !job.Todo().Any() && |f| == job.newSize && job.p.size <= |f| && 9 <= job.p.size
    ensures ParseCie(f, job.p.size, job.p.offset, ptrSize) == Some(h)
  {
  }

  lemma UneditedParses(f: seq<Byte>, h: CieShape, job: CieJob, out: Output)
    requires Unedited(f, h, job, out.ptrSize)
    ensures 9 <= |f| && ParseCie(f, |f|, job.newOffset, out.ptrSize) == Some(h)
  {
    hide Unedited, AfterCieNumbers, ReadLetters, StringLength, AfterLeb, LebValue;
    UneditedIs(f, h, job, out.ptrSize);
    ShapeIs(f, job.p.size, job.p.offset, out.ptrSize, h);
    UneditedReads(f, h, job, out);
    CieNumbersCarried(f, h.version, 10 + |h.letters|, job.p.size, out.ptrSize, f, 0, |f|);
  }

  lemma FramedIsUnedited(b: seq<Byte>, h: CieShape, job: CieJob, out: Output)
    requires Unedited(b, h, job, out.ptrSize)
    ensures Unedited(Framed(out.endian, b, job.p.size), h, job, out.ptrSize)
  {
    hide ParseCie, PaddingKept, EncodingsOf, LettersAt;
    UneditedIs(b, h, job, out.ptrSize);
    var f := Framed(out.endian, b, job.p.size);
    PlaceFound(b, job.p.size, job.p.offset, out.ptrSize, h);
    ParseCarried(b, f, job.p.size, job.p.offset, out.ptrSize, h);
    EncodingsAre(b, f, h, job.p.size, job.p.offset, out.ptrSize);
  }

  // ---------- any CIE ----------

  // A CIE h that the pass leaves meaning what it meant.
  predicate Keeps(b: seq<Byte>, h: CieShape, job: CieJob, ptrSize: PtrSize) {
    if job.Ok() && job.Todo().Any() then
      && Editable(b, h, job, ptrSize) && SizeFits(b, h, job.p) && AskedOnce(job, h.Rest())
      && |h.letters| + job.p.ExtraString() < MAX_STRING
    else Unedited(b, h, job, ptrSize)
  }

  lemma KeepsSizes(b: seq<Byte>, h: CieShape, job: CieJob, ptrSize: PtrSize)
    requires Keeps(b, h, job, ptrSize)
    ensures job.Ok() && job.p.Cie? && |b| == job.newSize && 9 <= job.p.size && job.p.size + job.p.Extra() <= |b|
    ensures ParseCie(b, job.p.size, job.p.offset, ptrSize) == Some(h)
    ensures 10 + |h.letters| < h.numbers <= h.seen.at <= job.p.size
  {
    hide ParseCie, AskedOnce, SizeFits, ReadLetters;
    if job.Todo().Any() {
      Sizes(b, h, job, ptrSize);
    } else {
      UneditedIs(b, h, job, ptrSize);
      ShapeIs(b, job.p.size, job.p.offset, ptrSize, h);
    }
  }

  lemma OnceIsRight(f: seq<Byte>, h: CieShape, job: CieJob, out: Output)
    requires Editable(f, h, job, out.ptrSize) && SizeFits(f, h, job.p) && AskedOnce(job, h.Rest())
    requires |h.letters| + job.p.ExtraString() < MAX_STRING
    ensures Walkable(f, job, out) && 9 <= |f|
    ensures ParseCie(Augmented(f, job, out), |f|, job.newOffset, out.ptrSize) == Some(EditedShape(h, job, out.ptrSize))
    ensures LETTER_P in h.Rest() ==> PointerKept(f, Augmented(f, job, out), h.seen, job, out)
  {
    hide Editable, Walkable, Augmented, ParseCie, PointerKept, PointerDelta, Once, WalkedTo, EditedShape, EncodedWidth,
         Power256, SizeFits;
    EditableAsks(f, h, job, out.ptrSize);
    EditIsRight(f, h, job, out);
  }

  // The edit of a CIE can be made.
  lemma KeepsIsWalkable(b: seq<Byte>, h: CieShape, job: CieJob, out: Output)
    requires Keeps(b, h, job, out.ptrSize)
    ensures job.Ok() && |b| == job.newSize && Walkable(Framed(out.endian, b, job.p.size), job, out)
  {
    hide Editable, Framed, Walkable, Unedited, SizeFits, AskedOnce;
    KeepsSizes(b, h, job, out.ptrSize);
    if job.Todo().Any() {
      FramedIsEditable(b, h, job, out);
      AugmentedIs(Framed(out.endian, b, job.p.size), h, job, out);
    } else {
      NothingToWalk(Framed(out.endian, b, job.p.size), job, out);
    }
  }

  lemma NothingToWalk(f: seq<Byte>, job: CieJob, out: Output)
    requires job.Ok() && |f| == job.newSize && !job.Todo().Any()
    ensures Walkable(f, job, out) && Augmented(f, job, out) == f
  {
  }

  // It is parsed with the new letters and the converted encodings.
  lemma CieParsesTheSame(b: seq<Byte>, job: CieJob, out: Output, h: CieShape)
    requires Keeps(b, h, job, out.ptrSize)
    ensures job.Ok() && |b| == job.newSize && Walkable(Framed(out.endian, b, job.p.size), job, out) && 9 <= |b|
    ensures ParseCie(EditCie(b, job, out), job.newSize, job.newOffset, out.ptrSize)
            == Some(EditedShape(h, job, out.ptrSize))
  {
    hide Editable, CieJob.Ok, Framed, Augmented, Walkable, ParseCie, Unedited, SizeFits, AskedOnce, EditedShape;
    KeepsSizes(b, h, job, out.ptrSize);
    KeepsIsWalkable(b, h, job, out);
    var f := Framed(out.endian, b, job.p.size);
    if job.Todo().Any() {
      FramedIsEditable(b, h, job, out);
      OnceIsRight(f, h, job, out);
    } else {
      FramedIsUnedited(b, h, job, out);
      NothingToWalk(f, job, out);
      UneditedParses(f, h, job, out);
      NothingInserted(job, h, out.ptrSize);
    }
  }

  // An edited CIE means what the CIE meant.  It is parsed with the new letters and the
  // converted encodings, and with the same instructions, Extra() bytes further on.
  lemma CieReadsTheSame(b: seq<Byte>, job: CieJob, out: Output, h: CieShape, w: nat, xs: seq<nat>)
    requires Keeps(b, h, job, out.ptrSize) && h.seen.at <= job.p.size <= |b|
    requires Instructions(b, h.seen.at, job.p.size, w) == Some(xs)
    ensures job.Ok() && |b| == job.newSize && Walkable(Framed(out.endian, b, job.p.size), job, out) && 9 <= |b|
    ensures var r, g := EditCie(b, job, out), EditedShape(h, job, out.ptrSize);
            && ParseCie(r, job.newSize, job.newOffset, out.ptrSize) == Some(g)
            && g.seen.at <= |r| && Instructions(r, g.seen.at, job.newSize, w) == Some(ShiftedBy(xs, job.p.Extra()))
  {
    hide Editable, CieJob.Ok, Framed, Augmented, Walkable, ParseCie, Instructions, Unedited, SizeFits, AskedOnce,
         EditedLetters, EditedShape, Keeps;
    KeepsSizes(b, h, job, out.ptrSize);
    KeepsIsWalkable(b, h, job, out);
    var f := Framed(out.endian, b, job.p.size);
    InstructionsCarried(b, h.seen.at, job.p.size, w, xs, f, 0, job.p.size);
    SameAtZero(xs);
    EditedPlace(h, job, out.ptrSize);
    if job.Todo().Any() {
      EditedReadsTheSame(b, job, out, h, w, xs);
    } else {
      UneditedReadsTheSame(b, job, out, h, w, xs);
    }
  }

  lemma SameAtZero(xs: seq<nat>)
    ensures ShiftedBy(xs, 0) == xs
  {
  }

  lemma EditedReadsTheSame(b: seq<Byte>, job: CieJob, out: Output, h: CieShape, w: nat, xs: seq<nat>)
    requires Keeps(b, h, job, out.ptrSize) && job.Ok() && job.Todo().Any()
    requires |b| == job.newSize && h.seen.at <= job.p.size <= |b| && 9 <= job.p.size
    requires Instructions(Framed(out.endian, b, job.p.size), h.seen.at, job.p.size, w) == Some(xs)
    ensures Walkable(Framed(out.endian, b, job.p.size), job, out) && h.seen.at + job.p.Extra() <= |b|
    ensures var r, g := EditCie(b, job, out), EditedShape(h, job, out.ptrSize);
            && ParseCie(r, job.newSize, job.newOffset, out.ptrSize) == Some(g)
            && Instructions(r, h.seen.at + job.p.Extra(), job.newSize, w) == Some(ShiftedBy(xs, job.p.Extra()))
  {
    hide Editable, CieJob.Ok, Framed, Augmented, Walkable, ParseCie, Instructions, Unedited, SizeFits, AskedOnce,
         EditedLetters, EditedShape, ShiftedBy;
    var f := Framed(out.endian, b, job.p.size);
    FramedIsEditable(b, h, job, out);
    OnceIsRight(f, h, job, out);
    AugmentedRuns(f, h, job, out, w, xs);
  }

  lemma UneditedReadsTheSame(b: seq<Byte>, job: CieJob, out: Output, h: CieShape, w: nat, xs: seq<nat>)
    requires Keeps(b, h, job, out.ptrSize) && job.Ok() && !job.Todo().Any()
    requires |b| == job.newSize && h.seen.at <= job.p.size <= |b| && 9 <= job.p.size
    requires Instructions(Framed(out.endian, b, job.p.size), h.seen.at, job.p.size, w) == Some(xs)
    ensures Walkable(Framed(out.endian, b, job.p.size), job, out) && job.p.Extra() == 0
    ensures var r, g := EditCie(b, job, out), EditedShape(h, job, out.ptrSize);
            && ParseCie(r, job.newSize, job.newOffset, out.ptrSize) == Some(g)
            && Instructions(r, h.seen.at, job.newSize, w) == Some(ShiftedBy(xs, 0))
  {
    hide Editable, CieJob.Ok, Framed, Augmented, Walkable, ParseCie, Instructions, Unedited, SizeFits, AskedOnce,
         EditedLetters, EditedShape, ShiftedBy;
    var f := Framed(out.endian, b, job.p.size);
    FramedIsUnedited(b, h, job, out);
    NothingToWalk(f, job, out);
    UneditedParses(f, h, job, out);
    NothingInserted(job, h, out.ptrSize);
    InstructionsCarried(f, h.seen.at, job.p.size, w, xs, f, 0, |f|);
  }

  // The personality pointer is among the letters' data.
  lemma {:induction false} PointerInside(c: seq<Byte>, letters: seq<Byte>, s: Seen, end: nat, base: nat,
                                         ptrSize: PtrSize, from: nat)
    requires from <= s.at <= end <= |c| && ReadLetters(c, letters, s, end, base, ptrSize).Some?
    requires LETTER_P in letters || (from < s.pointer && s.pointer + EncodedWidth(s.per, ptrSize) <= s.at)
    ensures var t := ReadLetters(c, letters, s, end, base, ptrSize).value;
            from < t.pointer && t.pointer + EncodedWidth(t.per, ptrSize) <= t.at
    decreases |letters|
  {
    hide EncodedWidth, PointerPlace;
    if letters != [] {
      assert letters == [letters[0]] + letters[1..];
      PointerInside(c, letters[1..], OneLetter(c, letters[0], s, end, base, ptrSize).value, end, base, ptrSize, from);
    }
  }

  // The personality pointer keeps its target.
  lemma PersonalityKept(b: seq<Byte>, job: CieJob, out: Output, h: CieShape)
    requires Keeps(b, h, job, out.ptrSize) && LETTER_P in h.letters
    ensures job.Ok() && |b| == job.newSize && Walkable(Framed(out.endian, b, job.p.size), job, out)
    ensures PointerKept(b, EditCie(b, job, out), h.seen, job, out)
  {
    hide Editable, CieJob.Ok, Framed, Augmented, Walkable, ParseCie, Unedited, SizeFits, AskedOnce, EncodedWidth,
         Power256, ReadLetters;
    KeepsSizes(b, h, job, out.ptrSize);
    KeepsIsWalkable(b, h, job, out);
    var f := Framed(out.endian, b, job.p.size);
    assert LETTER_P in h.Rest() by {
      assert h.Sized() ==> h.letters == [LETTER_Z] + h.Rest();
    }
    PointerPlaced(b, h, job, out.ptrSize);
    SameValue(out.endian, f, h.seen.pointer, b, h.seen.pointer, EncodedWidth(h.seen.per, out.ptrSize));
    if job.Todo().Any() {
      FramedIsEditable(b, h, job, out);
      OnceIsRight(f, h, job, out);
    } else {
      NothingToWalk(f, job, out);
      NothingInserted(job, h, out.ptrSize);
    }
  }

  lemma PointerPlaced(b: seq<Byte>, h: CieShape, job: CieJob, ptrSize: PtrSize)
    requires Keeps(b, h, job, ptrSize) && LETTER_P in h.Rest()
    ensures 8 <= h.seen.pointer && h.seen.pointer + EncodedWidth(h.seen.per, ptrSize) <= job.p.size
  {
    hide Editable, Unedited, SizeFits, AskedOnce, EncodedWidth, ReadLetters, AfterCieNumbers;
    KeepsSizes(b, h, job, ptrSize);
    ShapeIs(b, job.p.size, job.p.offset, ptrSize, h);
    var at := LettersAt(b, h, job.p.size).value;
    PointerInside(b, h.Rest(), Unseen(at), job.p.size, job.p.offset, ptrSize, at);
  }

  // Every instruction byte is found where the relocation map sends it.
  lemma CieInstructionsKept(b: seq<Byte>, job: CieJob, out: Output, h: CieShape, rel: nat)
    requires Keeps(b, h, job, out.ptrSize) && h.seen.at <= rel < job.p.size
    ensures job.Ok() && |b| == job.newSize && Walkable(Framed(out.endian, b, job.p.size), job, out)
    ensures rel + job.p.Extra() < |b| && EditCie(b, job, out)[rel + job.p.Extra()] == b[rel]
  {
    hide Editable, CieJob.Ok, Augmented, Walkable, ParseCie, Unedited, SizeFits, AskedOnce;
    KeepsSizes(b, h, job, out.ptrSize);
    KeepsIsWalkable(b, h, job, out);
    var f := Framed(out.endian, b, job.p.size);
    if job.Todo().Any() {
      FramedIsEditable(b, h, job, out);
      EditedTail(f, h, job, out, rel + job.p.Extra());
    } else {
      NothingToWalk(f, job, out);
      NothingInserted(job, h, out.ptrSize);
    }
  }

  // ---------- where it fails ----------

  // A CIE of version 4 with no letters: eight bytes of length and id, version, empty
  // string, address and segment size, and three numbers.
  const NEW_CIE: seq<Byte> := [0, 0, 0, 0, 0, 0, 0, 0, 4, 0, 8, 0, 1, 0x78, 16]

  // The write pass takes the second number for the augmentation data.
  lemma NewCieMisplaced()
    ensures ParseCie(NEW_CIE, 15, 0, 8) == Some(CieShape(4, [], 15, Unseen(15)))
    ensures AfterLebs(NEW_CIE, 15) == 13
  {
    var c := NEW_CIE;
    assert StringLength(c, 9) == 0 && c[9..9] == [];
    assert AfterLeb(c, 12, 15) == Some(13) && AfterLeb(c, 13, 15) == Some(14) && AfterLeb(c, 14, 15) == Some(15);
    assert SkipLeb(c, 10, 15) == 11 && SkipLeb(c, 11, 15) == 12 && SkipLeb(c, 12, 15) == 13;
  }

  // The same in version 1, with a return register of 0x90 and one instruction.
  const HIGH_REGISTER: seq<Byte> := [0, 0, 0, 0, 0, 0, 0, 0, 1, 0, 1, 0x78, 0x90, 0x0a]

  // It takes the instruction for a part of the register.
  lemma HighRegisterMisplaced()
    ensures ParseCie(HIGH_REGISTER, 14, 0, 8) == Some(CieShape(1, [], 13, Unseen(13)))
    ensures AfterLebs(HIGH_REGISTER, 14) == 14
  {
    var c := HIGH_REGISTER;
    assert StringLength(c, 9) == 0 && c[9..9] == [];
    assert AfterLeb(c, 10, 14) == Some(11) && AfterLeb(c, 11, 14) == Some(12);
    assert SkipLeb(c, 10, 14) == 11 && SkipLeb(c, 11, 14) == 12;
    assert SkipLeb(c, 12, 14) == SkipLeb(c, 13, 14) == 14;
  }

  // A CIE of version 1 with two letters 'R', both absolute.
  const TWO_RS: seq<Byte> := [0, 0, 0, 0, 0, 0, 0, 0, 1, 0x7a, 0x52, 0x52, 0, 1, 0x78, 16, 2, 0, 0, 0x0a]

  // What is to be done to it in a link that makes encodings relative.
  const TWO_RS_JOB := CieJob(Cie(0, 20, false, true, 0, 0xff, 4, 6, 0, false, false), 0, 20, false, false, false)

  const TWO_RS_SHAPE := CieShape(1, [0x7a, 0x52, 0x52], 16, Seen(19, 0xff, 0, 0xff, 0))

  // A CIE that is parsed in steps.
  lemma ParsedInSteps(c: seq<Byte>, end: nat, base: nat, ptrSize: PtrSize, h: CieShape, at: nat)
    requires 10 + |h.letters| <= end <= |c| && h.version == c[8] && h.version in {1, 3, 4} && |h.letters| < MAX_STRING
    requires StringLength(c, 9) == |h.letters| && c[9..9 + |h.letters|] == h.letters && !(EH <= h.letters)
    requires 9 + |h.letters| < end
    requires AfterCieNumbers(c, h.version, 10 + |h.letters|, end, ptrSize) == Some(h.numbers)
    requires LettersAt(c, h, end) == Some(at)
    requires ReadLetters(c, h.Rest(), Unseen(at), end, base, ptrSize) == Some(h.seen)
    ensures ParseCie(c, end, base, ptrSize) == Some(h)
  {
    hide AfterCieNumbers, ReadLetters, AfterLeb, StringLength;
    assert h.(seen := Unseen(0)).Rest() == h.Rest();
  }

  lemma TwoRsParse()
    ensures ParseCie(TWO_RS, 20, 0, 8) == Some(TWO_RS_SHAPE)
    ensures PerEncodings(TWO_RS, [0x52, 0x52], Unseen(17), 20, 0, 8) == {}
  {
    hide ParseCie, StringLength, AfterCieNumbers, LettersAt, ReadLetters, PerEncodings, CieShape.Rest;
    TwoRsNumbers();
    TwoRsLetters();
    assert TWO_RS_SHAPE.letters[0] != EH[0];
    ParsedInSteps(TWO_RS, 20, 0, 8, TWO_RS_SHAPE, 17);
  }

  lemma TwoRsNumbers()
    ensures StringLength(TWO_RS, 9) == 3 && TWO_RS[9..12] == [0x7a, 0x52, 0x52]
    ensures AfterCieNumbers(TWO_RS, 1, 13, 20, 8) == Some(16) && LettersAt(TWO_RS, TWO_RS_SHAPE, 20) == Some(17)
  {
    var c := TWO_RS;
    assert StringFrom(c, 12) == [] && StringFrom(c, 11) == [0x52] && StringFrom(c, 10) == [0x52, 0x52];
    assert AfterLeb(c, 13, 20) == Some(14) && AfterLeb(c, 14, 20) == Some(15);
  }

  lemma TwoRsLetters()
    ensures TWO_RS_SHAPE.Rest() == [0x52, 0x52]
    ensures ReadLetters(TWO_RS, [0x52, 0x52], Unseen(17), 20, 0, 8) == Some(TWO_RS_SHAPE.seen)
    ensures PerEncodings(TWO_RS, [0x52, 0x52], Unseen(17), 20, 0, 8) == {}
  {
    var c, s := TWO_RS, Unseen(18).(fde := 0);
    assert [0x52, 0x52][1..] == [0x52] && [0x52][1..] == [];
    assert OneLetter(c, 0x52, Unseen(17), 20, 0, 8) == Some(s);
    assert OneLetter(c, 0x52, s, 20, 0, 8) == Some(Unseen(19).(fde := 0));
    assert ReadLetters(c, [0x52], s, 20, 0, 8) == Some(Unseen(19).(fde := 0));
    assert PerEncodings(c, [0x52], s, 20, 0, 8) == {};
  }

  lemma TwoRsEditable()
    ensures Editable(TWO_RS, TWO_RS_SHAPE, TWO_RS_JOB, 8) && SizeFits(TWO_RS, TWO_RS_SHAPE, TWO_RS_JOB.p)
  {
    hide ParseCie, PerEncodings;
    TwoRsParse();
    OneByteLeb(TWO_RS, 16, 20);
  }

  // The write pass converts the first, and the parser takes the second: the edited CIE
  // still says that addresses are absolute.
  lemma RepeatedLetter(out: Output)
    requires out.ptrSize == 8
    ensures ParseCie(TWO_RS, 20, 0, 8) == Some(TWO_RS_SHAPE) && TWO_RS_SHAPE.seen.fde == DW_EH_PE_absptr
    ensures TWO_RS_JOB.Ok() && Walkable(Framed(out.endian, TWO_RS, 20), TWO_RS_JOB, out)
    ensures ParseCie(EditCie(TWO_RS, TWO_RS_JOB, out), 20, 0, 8) == Some(TWO_RS_SHAPE)
    ensures EditedShape(TWO_RS_SHAPE, TWO_RS_JOB, 8).seen.fde == 0x1c
  {
    hide Editable, Augmented, Walkable, Framed, ParseCie, ReadLetters, EditedRead, SizeFits;
    var h, job, f := TWO_RS_SHAPE, TWO_RS_JOB, Framed(out.endian, TWO_RS, 20);
    TwoRsParse();
    TwoRsEditable();
    FramedIsEditable(TWO_RS, h, job, out);
    AugmentedParses(f, h, job, out);
    DataStarts(f, h, job, 8);
    var at := Unseen(17);
    ReadAt(f, h.Rest(), at, EditedSeen(at, job, 8), LeftToDo(job), job, 8);
    ReadLsda(f, h.Rest(), at, EditedSeen(at, job, 8), LeftToDo(job), job, 8);
    ReadFde(f, h.Rest(), at, EditedSeen(at, job, 8), LeftToDo(job), job, 8);
    ReadPer(f, h.Rest(), at, EditedSeen(at, job, 8), LeftToDo(job), job, 8);
    NothingNew(h, job);
  }

  lemma NothingNew(h: CieShape, job: CieJob)
    requires job.p.Cie? && job.p.ExtraString() == 0
    ensures EditedLetters(h, job.p) == h.letters
  {
  }

  // A CIE of version 1 with an augmentation size of two bytes.
  const LONG_SIZE: seq<Byte> := [0, 0, 0, 0, 0, 0, 0, 0, 1, 0x7a, 0x52, 0, 1, 0x78, 16, 0x81, 0, 0, 0x0a]

  const LONG_SIZE_SHAPE := CieShape(1, [0x7a, 0x52], 15, Seen(18, 0xff, 0, 0xff, 0))

  // The write pass takes the second one for the letters' data.
  lemma LongSizeMisplaced()
    ensures ParseCie(LONG_SIZE, 19, 0, 8) == Some(LONG_SIZE_SHAPE)
    ensures LettersAt(LONG_SIZE, LONG_SIZE_SHAPE, 19) == Some(17)
    ensures StringLength(LONG_SIZE, 9) == 2 && DataFound(LONG_SIZE, 19) == 16
  {
    hide ParseCie, ReadLetters, AfterCieNumbers;
    LongSizeNumbers();
    LongSizeLetters();
    assert LONG_SIZE_SHAPE.Rest() == [0x52];
    ParsedInSteps(LONG_SIZE, 19, 0, 8, LONG_SIZE_SHAPE, 17);
  }

  lemma LongSizeNumbers()
    ensures StringLength(LONG_SIZE, 9) == 2 && LONG_SIZE[9..11] == [0x7a, 0x52]
    ensures AfterCieNumbers(LONG_SIZE, 1, 12, 19, 8) == Some(15) && AfterLeb(LONG_SIZE, 15, 19) == Some(17)
    ensures DataFound(LONG_SIZE, 19) == 16
  {
    var c := LONG_SIZE;
    assert StringFrom(c, 11) == [] && StringFrom(c, 10) == [0x52];
    assert AfterLeb(c, 12, 19) == Some(13) && AfterLeb(c, 13, 19) == Some(14) && AfterLeb(c, 16, 19) == Some(17);
    assert SkipLeb(c, 12, 19) == 13 && SkipLeb(c, 13, 19) == 14 && SkipLeb(c, 14, 19) == 15;
  }

  lemma LongSizeLetters()
    ensures ReadLetters(LONG_SIZE, [0x52], Unseen(17), 19, 0, 8) == Some(LONG_SIZE_SHAPE.seen)
  {
    assert [0x52][1..] == [];
    assert OneLetter(LONG_SIZE, 0x52, Unseen(17), 19, 0, 8) == Some(Unseen(18).(fde := 0));
  }

  // Alignment padding before a personality pointer is passed over rightly exactly when
  // it is as long at the new place; nothing moves the padding itself.
  lemma AlignmentIsExact(job: CieJob, enc: Byte, at: nat, ptrSize: PtrSize)
    requires EncodedWidth(enc, ptrSize) > 0 && Application(enc) == DW_EH_PE_aligned
    ensures PointerPlace(job.newOffset, enc, at + job.p.Extra(), ptrSize)
            == PointerPlace(job.p.offset, enc, at, ptrSize) + job.p.Extra()
            <==> AlignmentKept(job, enc, ptrSize)
  {
    hide Parsed.Extra;
    SamePadding(job.newOffset + job.p.Extra(), job.p.offset, at, EncodedWidth(enc, ptrSize));
    assert job.newOffset + (at + job.p.Extra()) == job.newOffset + job.p.Extra() + at;
  }

  lemma PadIs(x: nat, w: nat)
    requires w > 0
    ensures PadTo(x, w) == if x % w == 0 then 0 else w - x % w
  {
    if x % w == 0 {
      RemainderIs(w, w, 1, 0);
    } else {
      RemainderIs(w - x % w, w, 0, w - x % w);
    }
  }

  lemma ShiftResidue(x: int, y: int, at: int, w: nat)
    requires w > 0 && x % w == y % w
    ensures (x + at) % w == (y + at) % w
  {
    AddRemainder(at, x, w);
    AddRemainder(at, y, w);
    assert at + x == x + at && at + y == y + at;
  }

  lemma ResidueIff(x: nat, y: nat, at: nat, w: nat)
    requires w > 0
    ensures (x + at) % w == (y + at) % w <==> x % w == y % w
  {
    if (x + at) % w == (y + at) % w {
      ShiftResidue(x + at, y + at, -(at as int), w);
    } else if x % w == y % w {
      ShiftResidue(x, y, at, w);
    }
  }

  lemma SamePadding(x: nat, y: nat, at: nat, w: nat)
    requires w > 0
    ensures PadTo(x + at, w) == PadTo(y + at, w) <==> x % w == y % w
  {
    hide PadTo;
    ResidueIff(x, y, at, w);
    PadIs(x + at, w);
    PadIs(y + at, w);
  }
}
