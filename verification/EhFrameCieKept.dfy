// What the edit of a CIE keeps: the edited CIE is parsed with the new letters, the
// converted encodings, the same personality and the same instructions.

module EhFrameCieKept {
  import opened Bytes
  import opened CLibrary
  import opened EhFrame
  import opened EhFrameFde
  import opened EhFrameCie
  import opened EhFrameCieLaws
  import opened EhFrameCfa
  import opened EhFrameCieParse

  // ---------- what is to be converted ----------

  // Letter x occurs once at most.
  predicate Once(x: Byte, letters: seq<Byte>) {
    letters != [] ==> if letters[0] == x then x !in letters[1..] else Once(x, letters[1..])
  }

  // The actions that are asked for are those for which the parser has found a letter.
  predicate Asks(job: CieJob, seen: Seen) {
    && job.Ok()
    && (job.lsdaRelative ==> Application(seen.lsda) == DW_EH_PE_absptr)
    && (job.p.makeRelative && !job.p.addFdeEncoding ==> Application(seen.fde) == DW_EH_PE_absptr)
    && (job.p.addFdeEncoding ==> seen.fde == DW_EH_PE_omit)
    && (job.perRelative ==> Application(seen.per) == if job.makePerRelative then DW_EH_PE_absptr else DW_EH_PE_pcrel)
  }

  // Alignment padding is as long at the new place.
  predicate AlignmentKept(job: CieJob, per: Byte, ptrSize: PtrSize) {
    var w := EncodedWidth(per, ptrSize);
    Application(per) == DW_EH_PE_aligned && w > 0 ==> (job.newOffset + job.p.Extra()) % w == job.p.offset % w
  }

  // So it is before each personality pointer, and no conversion makes a pointer aligned.
  predicate PaddingKept(job: CieJob, encs: set<Byte>, ptrSize: PtrSize) {
    forall enc <- encs ::
      AlignmentKept(job, enc, ptrSize) && (job.makePerRelative ==> Application(enc) != DW_EH_PE_funcrel)
  }

  function Turned(enc: Byte, act: bool, ptrSize: PtrSize): Byte { if act then MakePcRelative(enc, ptrSize) else enc }

  function Recoded(enc: Byte, act: bool, ptrSize: PtrSize): Byte { Turned(enc, act && enc != DW_EH_PE_omit, ptrSize) }

  // What the letters should say after the edit.
  function EditedSeen(s: Seen, job: CieJob, ptrSize: PtrSize): Seen
    requires job.p.Cie?
  {
    Seen(s.at + job.p.Extra(),
         Recoded(s.lsda, job.lsdaRelative, ptrSize),
         if job.p.addFdeEncoding then MakePcRelative(DW_EH_PE_absptr, ptrSize)
            else Recoded(s.fde, job.p.makeRelative, ptrSize),
         Recoded(s.per, job.makePerRelative, ptrSize),
         if s.per == DW_EH_PE_omit then s.pointer else s.pointer + job.p.Extra())
  }

  // ---------- encodings ----------

  // Setting the pc-relative bit does not change the width.
  lemma SameWidth(enc: Byte, ptrSize: PtrSize)
    requires enc / 0x10 % 2 == 0
    ensures EncodedWidth(enc + 0x10, ptrSize) == EncodedWidth(enc, ptrSize)
    ensures Application(enc + 0x10) == Application(enc) + 0x10
  {
    var high, low := enc / 0x80, enc % 0x80;
    var middle, least := low / 0x10, low % 0x10;
    FieldsOf(enc, high, middle, least);
    EvenOfEight(enc / 0x10);
    FieldsOf(enc + 0x10, high, middle + 1, least);
  }

  lemma EvenOfEight(x: nat)
    requires x % 2 == 0 && x < 16
    ensures x % 8 < 7 && (x % 8 + 1) / 2 == x % 8 / 2
  {
    assert x in {0, 2, 4, 6, 8, 10, 12, 14};
  }

  lemma BitAdded(enc: Byte, ptrSize: PtrSize)
    requires Application(enc) != DW_EH_PE_absptr
    ensures MakePcRelative(enc, ptrSize) == if enc / 0x10 % 2 == 1 then enc else enc + 0x10
  {
  }

  // A converted encoding has the width of the one before, and is aligned only if that
  // was.
  lemma TurnedKeeps(enc: Byte, act: bool, ptrSize: PtrSize)
    ensures EncodedWidth(Turned(enc, act, ptrSize), ptrSize) == EncodedWidth(enc, ptrSize)
    ensures act && Application(enc) != DW_EH_PE_funcrel ==>
              (Application(MakePcRelative(enc, ptrSize)) == DW_EH_PE_aligned <==> Application(enc) == DW_EH_PE_aligned)
  {
    hide EncodedWidth;
    if act && Application(enc) == DW_EH_PE_absptr {
      hide MakePcRelative;
      PcRelativeKeepsWidth(enc, ptrSize);
    } else if act {
      BitAdded(enc, ptrSize);
      if MakePcRelative(enc, ptrSize) != enc {
        hide MakePcRelative;
        SameWidth(enc, ptrSize);
      }
    }
  }

  // What is omitted has no width.
  lemma OmittedHasNone(ptrSize: PtrSize)
    ensures EncodedWidth(DW_EH_PE_omit, ptrSize) == 0 && Application(DW_EH_PE_omit) == 0x70
  {
  }

  // A personality pointer is as far from its encoding as before.
  lemma PointerFollows(job: CieJob, enc: Byte, act: bool, at: nat, ptrSize: PtrSize)
    requires EncodedWidth(enc, ptrSize) > 0 && AlignmentKept(job, enc, ptrSize)
    requires act ==> Application(enc) != DW_EH_PE_funcrel
    ensures EncodedWidth(Turned(enc, act, ptrSize), ptrSize) == EncodedWidth(enc, ptrSize)
    ensures PointerPlace(job.newOffset, Turned(enc, act, ptrSize), at + job.p.Extra(), ptrSize)
            == PointerPlace(job.p.offset, enc, at, ptrSize) + job.p.Extra()
  {
    hide EncodedWidth, MakePcRelative, Application, Parsed.Extra;
    TurnedKeeps(enc, act, ptrSize);
    if Application(enc) == DW_EH_PE_aligned {
      var w := EncodedWidth(enc, ptrSize);
      AddRemainder(at, job.newOffset + job.p.Extra(), w);
      AddRemainder(at, job.p.offset, w);
      assert job.newOffset + (at + job.p.Extra()) == at + (job.newOffset + job.p.Extra());
    }
  }

  // ---------- the walk and the letters ----------

  // What is still to be done has its letter among those that are left.
  predicate Pending(left: Actions, rest: seq<Byte>) {
    (left.lsda ==> LETTER_L in rest) && (left.fde ==> LETTER_R in rest) && (left.personality ==> LETTER_P in rest)
  }

  // The walk is at the letters `rest`, where the parser of f was at s.
  predicate Synced(w: Walk, f: seq<Byte>, job: CieJob, rest: seq<Byte>, s: Seen, ptrSize: PtrSize) {
    && job.Ok() && |w.b| == |f| && job.p.size <= |f| && Fed(w, f, job)
    && w.data == s.at + job.p.Extra() && s.at <= job.p.size
    && w.aug + |rest| < w.data && Placed(w.b, w.aug, rest) && Pending(w.left, rest)
    && ReadLetters(f, rest, s, job.p.size, job.p.offset, ptrSize).Some?
    && PaddingKept(job, PerEncodings(f, rest, s, job.p.size, job.p.offset, ptrSize), ptrSize)
  }

  // The data byte at the walk is the one the parser is at.
  lemma SyncedByte(w: Walk, f: seq<Byte>, job: CieJob, rest: seq<Byte>, s: Seen, ptrSize: PtrSize)
    requires Synced(w, f, job, rest, s, ptrSize) && rest != []
    ensures w.aug < |w.b| && w.b[w.aug] == rest[0] && rest[0] in {LETTER_L, LETTER_P, LETTER_R, LETTER_S}
    ensures OneLetter(f, rest[0], s, job.p.size, job.p.offset, ptrSize).Some?
    ensures rest[0] != LETTER_S ==>
              s.at < job.p.size && w.data < |w.b| && w.b[w.data] == f[s.at] && EncodedWidth(f[s.at], ptrSize) > 0
    ensures rest[0] == LETTER_P ==> PaddingKept(job, {f[s.at]}, ptrSize)
  {
    hide Pending, AlignmentKept;
    assert w.b[w.aug] == rest[w.aug - w.aug];
  }

  // The parser, one letter on.
  function NextSeen(f: seq<Byte>, rest: seq<Byte>, s: Seen, job: CieJob, ptrSize: PtrSize): Seen
    requires rest != [] && job.p.size <= |f| && OneLetter(f, rest[0], s, job.p.size, job.p.offset, ptrSize).Some?
  {
    OneLetter(f, rest[0], s, job.p.size, job.p.offset, ptrSize).value
  }

  // A step of the walk is possible, and moves its data pointer as the parser does.
  lemma StepFollows(w: Walk, f: seq<Byte>, job: CieJob, out: Output, rest: seq<Byte>, s: Seen)
    requires Synced(w, f, job, rest, s, out.ptrSize) && rest != []
    ensures OneLetter(f, rest[0], s, job.p.size, job.p.offset, out.ptrSize).Some?
    ensures StepOk(w, job, out)
    ensures Step(w, job, out).data == NextSeen(f, rest, s, job, out.ptrSize).at + job.p.Extra()
  {
    hide Synced, Turned, EncodedWidth, MakePcRelative, AlignmentKept, PersonalityPut, Converted;
    SyncedByte(w, f, job, rest, s, out.ptrSize);
    SyncedIs(w, f, job, rest, s, out.ptrSize);
    if rest[0] == LETTER_P {
      assert PersonalityEncoding(job, f[s.at], out.ptrSize) == Turned(f[s.at], job.makePerRelative, out.ptrSize) by {
        TurnedIs(f[s.at], job.makePerRelative, out.ptrSize);
      }
      PointerFollows(job, f[s.at], job.makePerRelative, s.at + 1, out.ptrSize);
    }
  }

  lemma TurnedIs(enc: Byte, act: bool, ptrSize: PtrSize)
    ensures Turned(enc, act, ptrSize) == if act then MakePcRelative(enc, ptrSize) else enc
  {
  }

  lemma SyncedIs(w: Walk, f: seq<Byte>, job: CieJob, rest: seq<Byte>, s: Seen, ptrSize: PtrSize)
    requires Synced(w, f, job, rest, s, ptrSize)
    ensures job.Ok() && |w.b| == |f| == job.newSize && job.p.size + job.p.Extra() <= |f|
    ensures w.data == s.at + job.p.Extra() && s.at <= job.p.size
    ensures ReadLetters(f, rest, s, job.p.size, job.p.offset, ptrSize).Some?
  {
    hide Placed, Pending, ReadLetters, PaddingKept;
  }

  // What is left to do after a letter.
  function After(left: Actions, letter: Byte): Actions {
    if letter == LETTER_L then left.(lsda := false)
    else if letter == LETTER_R then left.(fde := false)
    else if letter == LETTER_P then left.(personality := false)
    else left
  }

  // One letter on: a step, or when nothing is left to do only the place.
  function Next(w: Walk, job: CieJob, out: Output, n: Seen): (r: Walk)
    requires w.left.Any() ==> StepOk(w, job, out)
    ensures |r.b| == |w.b| && r.aug == w.aug + 1
  {
    if w.left.Any() then Step(w, job, out) else Walk(w.b, w.aug + 1, n.at + job.p.Extra(), w.left)
  }

  lemma StepLeft(w: Walk, job: CieJob, out: Output)
    requires StepOk(w, job, out)
    ensures w.data <= Step(w, job, out).data && Step(w, job, out).left == After(w.left, w.b[w.aug])
  {
  }

  lemma NextBytes(w: Walk, f: seq<Byte>, job: CieJob, out: Output, rest: seq<Byte>, s: Seen)
    requires Synced(w, f, job, rest, s, out.ptrSize) && rest != []
    ensures OneLetter(f, rest[0], s, job.p.size, job.p.offset, out.ptrSize).Some? && StepOk(w, job, out)
    ensures var n := NextSeen(f, rest, s, job, out.ptrSize);
            var r := Next(w, job, out, n);
            && r.data == n.at + job.p.Extra() && w.data <= r.data && r.left == After(w.left, rest[0])
            && forall j {:trigger r.b[j]} :: 0 <= j < |w.b| && (j < w.data || r.data <= j) ==> r.b[j] == w.b[j]
  {
    hide Synced, Step, StepOk, OneLetter, ReadLetters;
    SyncedIs(w, f, job, rest, s, out.ptrSize);
    SyncedByte(w, f, job, rest, s, out.ptrSize);
    StepFollows(w, f, job, out, rest, s);
    StepLeft(w, job, out);
    var n := NextSeen(f, rest, s, job, out.ptrSize);
    OneLetterEnd(f, rest[0], s, job.p.size, job.p.offset, out.ptrSize);
    var r := Next(w, job, out, n);
    forall j {:trigger r.b[j]} | 0 <= j < |w.b| && (j < w.data || r.data <= j) ensures r.b[j] == w.b[j] {
      StepByte(w, job, out, j);
    }
  }

  lemma OneLetterEnd(c: seq<Byte>, letter: Byte, s: Seen, end: nat, base: nat, ptrSize: PtrSize)
    requires end <= |c| && s.at <= end && OneLetter(c, letter, s, end, base, ptrSize).Some?
    ensures s.at <= OneLetter(c, letter, s, end, base, ptrSize).value.at <= end
  {
  }

  // The walk goes on in step with the parser.
  lemma NextSyncs(w: Walk, f: seq<Byte>, job: CieJob, out: Output, rest: seq<Byte>, s: Seen)
    requires Synced(w, f, job, rest, s, out.ptrSize) && rest != []
    ensures OneLetter(f, rest[0], s, job.p.size, job.p.offset, out.ptrSize).Some? && StepOk(w, job, out)
    ensures var n := NextSeen(f, rest, s, job, out.ptrSize);
            Synced(Next(w, job, out, n), f, job, rest[1..], n, out.ptrSize)
  {
    hide Next, StepOk, OneLetter, AlignmentKept;
    NextBytes(w, f, job, out, rest, s);
    var n := NextSeen(f, rest, s, job, out.ptrSize);
    var r := Next(w, job, out, n);
    OneLetterEnd(f, rest[0], s, job.p.size, job.p.offset, out.ptrSize);
    assert rest == [rest[0]] + rest[1..];
    forall j {:trigger r.b[j]} | r.data <= j < job.p.size + job.p.Extra() ensures r.b[j] == f[j - job.p.Extra()] {
      assert w.b[j] == f[j - job.p.Extra()];
    }
    forall j {:trigger r.b[j]} | r.aug <= j < w.aug + |rest| ensures r.b[j] == rest[1..][j - r.aug] {
      assert w.b[j] == rest[j - w.aug];
    }
  }

  // What the parser finds in the end, from a synced state.
  function FinalSeen(f: seq<Byte>, rest: seq<Byte>, s: Seen, job: CieJob, ptrSize: PtrSize): Seen
    requires job.p.size <= |f| && ReadLetters(f, rest, s, job.p.size, job.p.offset, ptrSize).Some?
  {
    ReadLetters(f, rest, s, job.p.size, job.p.offset, ptrSize).value
  }

  // The walk ends, with its data pointer no further than where the instructions start.
  lemma {:induction false} SyncedWalk(w: Walk, f: seq<Byte>, job: CieJob, out: Output, rest: seq<Byte>, s: Seen)
    requires Synced(w, f, job, rest, s, out.ptrSize)
    ensures WalkOk(w, job, out)
    ensures WalkData(w, job, out) <= FinalSeen(f, rest, s, job, out.ptrSize).at + job.p.Extra()
    decreases |rest|
  {
    hide Fed, Placed, PaddingKept, Step, StepOk, OneLetter;
    if rest != [] {
      NextSyncs(w, f, job, out, rest, s);
      SyncedWalk(Next(w, job, out, NextSeen(f, rest, s, job, out.ptrSize)), f, job, out, rest[1..],
                 NextSeen(f, rest, s, job, out.ptrSize));
    }
  }

  // Data that the walk has passed is final.
  lemma Passed(w: Walk, f: seq<Byte>, job: CieJob, out: Output, rest: seq<Byte>, s: Seen)
    requires Synced(w, f, job, rest, s, out.ptrSize) && rest != []
    ensures OneLetter(f, rest[0], s, job.p.size, job.p.offset, out.ptrSize).Some?
    ensures StepOk(w, job, out) && WalkOk(w, job, out)
    ensures var r := Next(w, job, out, NextSeen(f, rest, s, job, out.ptrSize));
            && WalkOk(r, job, out) && WalkEnd(w, job, out) == WalkEnd(r, job, out)
            && forall j {:trigger r.b[j]} :: 0 <= j < |w.b| && j < r.data ==> WalkEnd(r, job, out)[j] == r.b[j]
  {
    hide Synced, Step, StepOk, OneLetter, ReadLetters;
    NextSyncs(w, f, job, out, rest, s);
    SyncedIs(w, f, job, rest, s, out.ptrSize);
    var n := NextSeen(f, rest, s, job, out.ptrSize);
    var r := Next(w, job, out, n);
    SyncedWalk(w, f, job, out, rest, s);
    SyncedWalk(r, f, job, out, rest[1..], n);
    forall j {:trigger r.b[j]} | 0 <= j < |w.b| && j < r.data ensures WalkEnd(r, job, out)[j] == r.b[j] {
      WalkByte(r, job, out, j);
    }
  }

  // ---------- what a parser finds in the result ----------

  // The encoding byte that the walk leaves for a letter.
  function NewEncoding(letter: Byte, enc: Byte, left: Actions, job: CieJob, ptrSize: PtrSize): Byte {
    if letter == LETTER_L then Turned(enc, left.lsda, ptrSize)
    else if letter == LETTER_R then Turned(enc, left.fde, ptrSize)
    else Turned(enc, left.Any() && job.makePerRelative, ptrSize)
  }

  lemma EncodingLeft(w: Walk, f: seq<Byte>, job: CieJob, out: Output, rest: seq<Byte>, s: Seen)
    requires Synced(w, f, job, rest, s, out.ptrSize) && rest != [] && rest[0] != LETTER_S
    ensures OneLetter(f, rest[0], s, job.p.size, job.p.offset, out.ptrSize).Some?
    ensures s.at < job.p.size && StepOk(w, job, out) && w.data < |w.b|
    ensures Next(w, job, out, NextSeen(f, rest, s, job, out.ptrSize)).b[w.data]
            == NewEncoding(rest[0], f[s.at], w.left, job, out.ptrSize)
  {
    hide Synced, EncodedWidth, MakePcRelative, OneLetter, PointerPlace;
    SyncedByte(w, f, job, rest, s, out.ptrSize);
    StepFollows(w, f, job, out, rest, s);
  }

  // What a parser of the result makes of a letter, from t.
  function EditedNext(f: seq<Byte>, letter: Byte, s: Seen, n: Seen, t: Seen, left: Actions, job: CieJob,
                      ptrSize: PtrSize): Seen
    requires letter != LETTER_S ==> s.at < |f|
  {
    if letter == LETTER_S then t
    else
      var u, enc := t.(at := n.at + job.p.Extra()), NewEncoding(letter, f[s.at], left, job, ptrSize);
      if letter == LETTER_L then u.(lsda := enc)
      else if letter == LETTER_R then u.(fde := enc)
      else u.(per := enc, pointer := n.pointer + job.p.Extra())
  }

  // And what it finds in the end.
  function EditedRead(f: seq<Byte>, rest: seq<Byte>, s: Seen, t: Seen, left: Actions, job: CieJob,
                      ptrSize: PtrSize): Seen
    requires job.p.size <= |f| && ReadLetters(f, rest, s, job.p.size, job.p.offset, ptrSize).Some?
    decreases |rest|
  {
    if rest == [] then t
    else
      var n := NextSeen(f, rest, s, job, ptrSize);
      EditedRead(f, rest[1..], n, EditedNext(f, rest[0], s, n, t, left, job, ptrSize), After(left, rest[0]),
                 job, ptrSize)
  }

  lemma LetterRead(f: seq<Byte>, r: seq<Byte>, letter: Byte, s: Seen, t: Seen, left: Actions, job: CieJob,
                   ptrSize: PtrSize, end: nat)
    requires job.p.size <= |f| && s.at < job.p.size && job.p.size + job.p.Extra() <= end <= |r|
    requires OneLetter(f, letter, s, job.p.size, job.p.offset, ptrSize).Some? && letter != LETTER_S
    requires letter == LETTER_P ==> PaddingKept(job, {f[s.at]}, ptrSize)
    requires t.at == s.at + job.p.Extra() && r[t.at] == NewEncoding(letter, f[s.at], left, job, ptrSize)
    ensures var n := OneLetter(f, letter, s, job.p.size, job.p.offset, ptrSize).value;
            OneLetter(r, letter, t, end, job.newOffset, ptrSize)
            == Some(EditedNext(f, letter, s, n, t, left, job, ptrSize))
  {
    hide Turned, PointerPlace, AlignmentKept, EncodedWidth, Application, Parsed.Extra;
    var enc := f[s.at];
    TurnedKeeps(enc, left.lsda, ptrSize);
    TurnedKeeps(enc, left.fde, ptrSize);
    TurnedKeeps(enc, left.Any() && job.makePerRelative, ptrSize);
    if letter == LETTER_P {
      assert enc in {f[s.at]};
      PointerFollows(job, enc, left.Any() && job.makePerRelative, s.at + 1, ptrSize);
    }
  }

  // A parser of the result finds exactly that, whatever the letters are.
  lemma {:induction false} WalkReads(w: Walk, f: seq<Byte>, job: CieJob, out: Output, rest: seq<Byte>, s: Seen,
                                     t: Seen, end: nat)
    requires Synced(w, f, job, rest, s, out.ptrSize) && job.p.size + job.p.Extra() <= end <= |f|
    requires t.at == s.at + job.p.Extra()
    ensures WalkOk(w, job, out)
    ensures ReadLetters(WalkEnd(w, job, out), rest, t, end, job.newOffset, out.ptrSize)
            == Some(EditedRead(f, rest, s, t, w.left, job, out.ptrSize))
    decreases |rest|
  {
    hide Synced, WalkOk, WalkEnd, Next, StepOk, OneLetter, EditedNext;
    SyncedWalk(w, f, job, out, rest, s);
    SyncedIs(w, f, job, rest, s, out.ptrSize);
    if rest != [] {
      LetterInResult(w, f, job, out, rest, s, t, end);
      var n := NextSeen(f, rest, s, job, out.ptrSize);
      var u := EditedNext(f, rest[0], s, n, t, w.left, job, out.ptrSize);
      NextSyncs(w, f, job, out, rest, s);
      NextBytes(w, f, job, out, rest, s);
      Passed(w, f, job, out, rest, s);
      WalkReads(Next(w, job, out, n), f, job, out, rest[1..], n, u, end);
    }
  }

  lemma LetterInResult(w: Walk, f: seq<Byte>, job: CieJob, out: Output, rest: seq<Byte>, s: Seen, t: Seen, end: nat)
    requires Synced(w, f, job, rest, s, out.ptrSize) && job.p.size + job.p.Extra() <= end <= |f| && rest != []
    requires t.at == s.at + job.p.Extra()
    ensures OneLetter(f, rest[0], s, job.p.size, job.p.offset, out.ptrSize).Some? && WalkOk(w, job, out)
    ensures rest[0] != LETTER_S ==> s.at < |f|
    ensures var n := NextSeen(f, rest, s, job, out.ptrSize);
            var u := EditedNext(f, rest[0], s, n, t, w.left, job, out.ptrSize);
            && OneLetter(WalkEnd(w, job, out), rest[0], t, end, job.newOffset, out.ptrSize) == Some(u)
            && u.at == n.at + job.p.Extra()
  {
    hide Synced, WalkOk, WalkEnd, Next, StepOk, PaddingKept, NewEncoding;
    SyncedIs(w, f, job, rest, s, out.ptrSize);
    SyncedByte(w, f, job, rest, s, out.ptrSize);
    Passed(w, f, job, out, rest, s);
    if rest[0] != LETTER_S {
      NextBytes(w, f, job, out, rest, s);
      EncodingLeft(w, f, job, out, rest, s);
      LetterRead(f, WalkEnd(w, job, out), rest[0], s, t, w.left, job, out.ptrSize, end);
    }
  }

  // The walk has something left to do when it comes to the last 'P'.
  predicate WalkedTo(left: Actions, rest: seq<Byte>)
    decreases |rest|
  {
    rest != [] ==>
      if rest[0] == LETTER_P && LETTER_P !in rest[1..] then left.Any() else WalkedTo(After(left, rest[0]), rest[1..])
  }

  lemma {:induction false} ReadAt(f: seq<Byte>, rest: seq<Byte>, s: Seen, t: Seen, left: Actions, job: CieJob,
                                  ptrSize: PtrSize)
    requires job.p.size <= |f| && ReadLetters(f, rest, s, job.p.size, job.p.offset, ptrSize).Some?
    requires t.at == s.at + job.p.Extra()
    ensures EditedRead(f, rest, s, t, left, job, ptrSize).at == FinalSeen(f, rest, s, job, ptrSize).at + job.p.Extra()
    decreases |rest|
  {
    hide PointerPlace, EncodedWidth, Parsed.Extra, NewEncoding;
    if rest != [] {
      var n := NextSeen(f, rest, s, job, ptrSize);
      ReadAt(f, rest[1..], n, EditedNext(f, rest[0], s, n, t, left, job, ptrSize), After(left, rest[0]), job, ptrSize);
    }
  }

  // Only a letter that does not come again is converted where the parser looks.
  lemma {:induction false} ReadLsda(f: seq<Byte>, rest: seq<Byte>, s: Seen, t: Seen, left: Actions, job: CieJob,
                                    ptrSize: PtrSize)
    requires job.p.size <= |f| && ReadLetters(f, rest, s, job.p.size, job.p.offset, ptrSize).Some?
    ensures EditedRead(f, rest, s, t, left, job, ptrSize).lsda
            == if LETTER_L in rest
               then Turned(FinalSeen(f, rest, s, job, ptrSize).lsda, left.lsda && Once(LETTER_L, rest), ptrSize)
               else t.lsda
    decreases |rest|
  {
    hide MakePcRelative, PointerPlace, EncodedWidth, Parsed.Extra;
    if rest != [] {
      assert rest == [rest[0]] + rest[1..];
      var n := NextSeen(f, rest, s, job, ptrSize);
      if LETTER_L !in rest[1..] {
        NotSeen(f, rest[1..], n, job.p.size, job.p.offset, ptrSize);
      }
      ReadLsda(f, rest[1..], n, EditedNext(f, rest[0], s, n, t, left, job, ptrSize), After(left, rest[0]), job,
               ptrSize);
    }
  }

  lemma {:induction false} ReadFde(f: seq<Byte>, rest: seq<Byte>, s: Seen, t: Seen, left: Actions, job: CieJob,
                                   ptrSize: PtrSize)
    requires job.p.size <= |f| && ReadLetters(f, rest, s, job.p.size, job.p.offset, ptrSize).Some?
    ensures EditedRead(f, rest, s, t, left, job, ptrSize).fde
            == if LETTER_R in rest
               then Turned(FinalSeen(f, rest, s, job, ptrSize).fde, left.fde && Once(LETTER_R, rest), ptrSize)
               else t.fde
    decreases |rest|
  {
    hide MakePcRelative, PointerPlace, EncodedWidth, Parsed.Extra;
    if rest != [] {
      assert rest == [rest[0]] + rest[1..];
      var n := NextSeen(f, rest, s, job, ptrSize);
      if LETTER_R !in rest[1..] {
        NotSeen(f, rest[1..], n, job.p.size, job.p.offset, ptrSize);
      }
      ReadFde(f, rest[1..], n, EditedNext(f, rest[0], s, n, t, left, job, ptrSize), After(left, rest[0]), job, ptrSize);
    }
  }

  // 'P's are converted up to where the walk ends.
  lemma {:induction false} ReadPer(f: seq<Byte>, rest: seq<Byte>, s: Seen, t: Seen, left: Actions, job: CieJob,
                                   ptrSize: PtrSize)
    requires job.p.size <= |f| && ReadLetters(f, rest, s, job.p.size, job.p.offset, ptrSize).Some?
    ensures var u, z := EditedRead(f, rest, s, t, left, job, ptrSize), FinalSeen(f, rest, s, job, ptrSize);
            if LETTER_P in rest
            then u.per == Turned(z.per, job.makePerRelative && WalkedTo(left, rest), ptrSize)
                 && u.pointer == z.pointer + job.p.Extra()
            else u.per == t.per && u.pointer == t.pointer
    decreases |rest|
  {
    hide MakePcRelative, PointerPlace, EncodedWidth, Parsed.Extra;
    if rest != [] {
      assert rest == [rest[0]] + rest[1..];
      var n := NextSeen(f, rest, s, job, ptrSize);
      if LETTER_P !in rest[1..] {
        NotSeen(f, rest[1..], n, job.p.size, job.p.offset, ptrSize);
      }
      ReadPer(f, rest[1..], n, EditedNext(f, rest[0], s, n, t, left, job, ptrSize), After(left, rest[0]), job, ptrSize);
    }
  }

  // ---------- the personality pointer ----------

  // In r, Extra() places further on, the personality pointer has the target that it
  // has in f, if it is relative, or else the value.
  predicate PointerKept(f: seq<Byte>, r: seq<Byte>, seen: Seen, job: CieJob, out: Output) {
    var k, q, e := EncodedWidth(seen.per, out.ptrSize), seen.pointer, job.p.Extra();
    && q + k <= job.p.size <= |f| && q + e + k <= |r|
    && if job.perRelative then
         var start := out.vma + out.outputOffset;
         Target(DW_EH_PE_pcrel, ValueAt(out.endian, r, q + e, k), start + job.newOffset + q + e) % Power256(k)
         == Target(Application(seen.per), ValueAt(out.endian, f, q, k), start + job.p.offset + q) % Power256(k)
       else ValueAt(out.endian, r, q + e, k) == ValueAt(out.endian, f, q, k)
  }

  // What is added to the pointer that the parser has found, if it is moved.
  function PointerDelta(seen: Seen, job: CieJob, out: Output): int {
    PersonalityDelta(job, out, seen.pointer + job.p.Extra())
  }

  // Moved or not, the pointer's value in r.
  predicate PointerValue(f: seq<Byte>, r: seq<Byte>, seen: Seen, job: CieJob, out: Output, moved: bool) {
    var k, q, e := EncodedWidth(seen.per, out.ptrSize), seen.pointer, job.p.Extra();
    && q + k <= job.p.size <= |f| && q + e + k <= |r|
    && ValueAt(out.endian, r, q + e, k)
       == if moved then (ValueAt(out.endian, f, q, k) + PointerDelta(seen, job, out)) % Power256(k)
          else ValueAt(out.endian, f, q, k)
  }

  // The bytes that the step at the last 'P' leaves.
  lemma PointerPut(b: seq<Byte>, data: nat, act: bool, job: CieJob, out: Output)
    requires PersonalityFits(b, data, job, out.ptrSize)
    ensures var enc := PersonalityEncoding(job, b[data], out.ptrSize);
            var q, k := PointerPlace(job.newOffset, enc, data + 1, out.ptrSize), EncodedWidth(enc, out.ptrSize);
            && q + k <= |b|
            && ValueAt(out.endian, PersonalityPut(b, data, act, job, out), q, k)
               == if act then (ValueAt(out.endian, b, q, k) + PersonalityDelta(job, out, q)) % Power256(k)
                  else ValueAt(out.endian, b, q, k)
  {
    hide PointerPlace, EncodedWidth, PersonalityDelta;
    var enc := PersonalityEncoding(job, b[data], out.ptrSize);
    var q, k := PointerPlace(job.newOffset, enc, data + 1, out.ptrSize), EncodedWidth(enc, out.ptrSize);
    SameValue(out.endian, b[data := enc], q, b, q, k);
  }

  // The last 'P'.
  lemma LastPointer(w: Walk, f: seq<Byte>, job: CieJob, out: Output, rest: seq<Byte>, s: Seen)
    requires Synced(w, f, job, rest, s, out.ptrSize) && rest != [] && rest[0] == LETTER_P
    ensures OneLetter(f, LETTER_P, s, job.p.size, job.p.offset, out.ptrSize).Some? && StepOk(w, job, out)
    ensures var n := NextSeen(f, rest, s, job, out.ptrSize);
            && PointerValue(f, Next(w, job, out, n).b, n, job, out, w.left.personality)
            && n.at == n.pointer + EncodedWidth(n.per, out.ptrSize) && s.at < n.pointer
  {
    hide Synced, PersonalityPut, Turned, MakePcRelative, PointerPlace, EncodedWidth, PersonalityDelta, PaddingKept,
         AlignmentKept;
    SyncedByte(w, f, job, rest, s, out.ptrSize);
    SyncedIs(w, f, job, rest, s, out.ptrSize);
    StepFollows(w, f, job, out, rest, s);
    var n := NextSeen(f, rest, s, job, out.ptrSize);
    var e, k := job.p.Extra(), EncodedWidth(n.per, out.ptrSize);
    LastPlace(w, f, job, out, rest, s);
    ShiftedValue(w, f, job, out, rest, s, n.pointer, k);
    PointerPut(w.b, w.data, w.left.personality, job, out);
  }

  lemma LastPlace(w: Walk, f: seq<Byte>, job: CieJob, out: Output, rest: seq<Byte>, s: Seen)
    requires Synced(w, f, job, rest, s, out.ptrSize) && rest != [] && rest[0] == LETTER_P
    ensures OneLetter(f, LETTER_P, s, job.p.size, job.p.offset, out.ptrSize).Some? && StepOk(w, job, out)
    ensures w.data < |w.b| && PersonalityFits(w.b, w.data, job, out.ptrSize)
    ensures var n, enc := NextSeen(f, rest, s, job, out.ptrSize), PersonalityEncoding(job, w.b[w.data], out.ptrSize);
            && EncodedWidth(enc, out.ptrSize) == EncodedWidth(n.per, out.ptrSize)
            && PointerPlace(job.newOffset, enc, w.data + 1, out.ptrSize) == n.pointer + job.p.Extra()
            && n.pointer + EncodedWidth(n.per, out.ptrSize) == n.at <= job.p.size
            && s.at < n.pointer
  {
    hide Synced, EncodedWidth, MakePcRelative, AlignmentKept;
    SyncedByte(w, f, job, rest, s, out.ptrSize);
    SyncedIs(w, f, job, rest, s, out.ptrSize);
    StepFollows(w, f, job, out, rest, s);
    assert f[s.at] in {f[s.at]};
    PointerFollows(job, f[s.at], job.makePerRelative, s.at + 1, out.ptrSize);
  }

  // Before the step the bytes are those of f.
  lemma ShiftedValue(w: Walk, f: seq<Byte>, job: CieJob, out: Output, rest: seq<Byte>, s: Seen, q: nat, k: nat)
    requires Synced(w, f, job, rest, s, out.ptrSize) && s.at <= q && q + k <= job.p.size
    ensures q + job.p.Extra() + k <= |w.b| == |f|
    ensures ValueAt(out.endian, w.b, q + job.p.Extra(), k) == ValueAt(out.endian, f, q, k)
  {
    hide Placed, Pending, PaddingKept, ReadLetters;
    SameValue(out.endian, w.b, q + job.p.Extra(), f, q, k);
  }

  // The personality pointer that the parser finds has been moved exactly if that was to
  // be done and no 'P' came before.
  lemma {:induction false} PointerInWalk(w: Walk, f: seq<Byte>, job: CieJob, out: Output, rest: seq<Byte>, s: Seen)
    requires Synced(w, f, job, rest, s, out.ptrSize) && LETTER_P in rest
    ensures WalkOk(w, job, out)
    ensures PointerValue(f, WalkEnd(w, job, out), FinalSeen(f, rest, s, job, out.ptrSize), job, out,
                         w.left.personality && Once(LETTER_P, rest))
    decreases |rest|
  {
    hide Synced, WalkOk, WalkEnd, Next, StepOk, OneLetter, PointerValue;
    SyncedWalk(w, f, job, out, rest, s);
    SyncedIs(w, f, job, rest, s, out.ptrSize);
    NextSyncs(w, f, job, out, rest, s);
    NextBytes(w, f, job, out, rest, s);
    Passed(w, f, job, out, rest, s);
    assert rest == [rest[0]] + rest[1..];
    if rest[0] == LETTER_P && LETTER_P !in rest[1..] {
      LastPointerFinal(w, f, job, out, rest, s);
    } else {
      PointerInWalk(Next(w, job, out, NextSeen(f, rest, s, job, out.ptrSize)), f, job, out, rest[1..],
                    NextSeen(f, rest, s, job, out.ptrSize));
    }
  }

  lemma LastPointerFinal(w: Walk, f: seq<Byte>, job: CieJob, out: Output, rest: seq<Byte>, s: Seen)
    requires Synced(w, f, job, rest, s, out.ptrSize) && rest != [] && rest[0] == LETTER_P && LETTER_P !in rest[1..]
    ensures WalkOk(w, job, out)
    ensures ReadLetters(f, rest, s, job.p.size, job.p.offset, out.ptrSize).Some? && job.p.size <= |f|
    ensures PointerValue(f, WalkEnd(w, job, out), FinalSeen(f, rest, s, job, out.ptrSize), job, out,
                         w.left.personality)
  {
    hide Synced, WalkOk, WalkEnd, Next, StepOk, PersonalityDelta, EncodedWidth, PointerPlace;
    SyncedIs(w, f, job, rest, s, out.ptrSize);
    NextBytes(w, f, job, out, rest, s);
    LastPointer(w, f, job, out, rest, s);
    Passed(w, f, job, out, rest, s);
    var n := NextSeen(f, rest, s, job, out.ptrSize);
    NotSeen(f, rest[1..], n, job.p.size, job.p.offset, out.ptrSize);
    SameValue(out.endian, WalkEnd(w, job, out), n.pointer + job.p.Extra(), Next(w, job, out, n).b,
              n.pointer + job.p.Extra(), EncodedWidth(n.per, out.ptrSize));
  }

  // It keeps its target exactly if it has been moved, where that was to be done, or there
  // is nothing to add to it.
  lemma PointerKeptIff(f: seq<Byte>, r: seq<Byte>, seen: Seen, job: CieJob, out: Output, moved: bool)
    requires Asks(job, seen) && PointerValue(f, r, seen, job, out, moved) && (moved ==> job.perRelative)
    ensures PointerKept(f, r, seen, job, out)
            <==> (job.perRelative ==>
                    moved || PointerDelta(seen, job, out) % Power256(EncodedWidth(seen.per, out.ptrSize)) == 0)
  {
    hide EncodedWidth, Power256, Parsed.Extra, PointerDelta, OldPlace, Asks, Target, Application, ValueAt;
    var k, q, e := EncodedWidth(seen.per, out.ptrSize), seen.pointer, job.p.Extra();
    if job.perRelative {
      var v, v' := ValueAt(out.endian, f, q, k), ValueAt(out.endian, r, q + e, k);
      OldTarget(seen, job, out, v);
      NewTarget(out.Base() + job.newOffset + q + e, v');
      MovedOrNot(v, v', OldPlace(seen, job, out), out.Base() + job.newOffset + q + e, Power256(k), moved);
    }
  }

  lemma NewTarget(place: int, v: int)
    ensures Target(DW_EH_PE_pcrel, v, place) == place + v
  {
  }

  lemma MovedOrNot(v: int, v': int, from: int, to: int, m: nat, moved: bool)
    requires m > 0 && v' == if moved then (v + (from - to)) % m else v
    ensures (to + v') % m == (from + v) % m <==> moved || (from - to) % m == 0
  {
    if moved {
      AddRemainder(to, v + (from - to), m);
      assert to + (v + (from - to)) == from + v;
    } else {
      SameShift(to, from, v, m);
    }
  }

  // What the old value of a pointer that is to be moved counts from.
  function OldPlace(seen: Seen, job: CieJob, out: Output): int {
    if job.makePerRelative then 0 else out.Base() + job.p.offset + seen.pointer
  }

  lemma OldTarget(seen: Seen, job: CieJob, out: Output, v: int)
    requires Asks(job, seen) && job.perRelative
    ensures PointerDelta(seen, job, out)
            == OldPlace(seen, job, out) - (out.Base() + job.newOffset + seen.pointer + job.p.Extra())
    ensures Target(Application(seen.per), v, out.Base() + job.p.offset + seen.pointer) == OldPlace(seen, job, out) + v
  {
    hide Application, Parsed.Extra;
  }

  lemma SameShift(a: int, b: int, v: int, m: nat)
    requires m > 0
    ensures (a + v) % m == (b + v) % m <==> (b - a) % m == 0
  {
    if (b - a) % m == 0 {
      AddRemainder(a + v, b - a, m);
      assert (a + v) + (b - a) == b + v;
    }
    if (a + v) % m == (b + v) % m {
      SubtractSame(b + v, a + v, m);
    }
  }

  lemma SubtractSame(x: int, y: int, m: nat)
    requires m > 0 && x % m == y % m
    ensures (x - y) % m == 0
  {
    var p, q := x / m, y / m;
    assert x - y == m * (p - q) by {
      assert x == m * p + x % m && y == m * q + y % m;
      assert m * p - m * q == m * (p - q);
    }
    RemainderIs(x - y, m, p - q, 0);
  }

  // ---------- where the edit starts ----------

  // A framed block f in which the parser has found h, to be edited by the write pass.
  predicate Editable(f: seq<Byte>, h: CieShape, job: CieJob, ptrSize: PtrSize) {
    && job.Ok() && job.Todo().Any() && |f| == job.newSize
    && ParseCie(f, job.p.size, job.p.offset, ptrSize) == Some(h)
    && SkipsRight(f, h, job.p.size) && Asks(job, h.seen)
    && PaddingKept(job, EncodingsOf(f, h, job.p.size, job.p.offset, ptrSize), ptrSize)
    && (job.p.addAugmentationSize ==> h.letters == [])
    && (job.p.addFdeEncoding && h.letters == [] ==> job.p.addAugmentationSize)
  }

  // The pass skips three numbers, whatever the version, and takes the augmentation size
  // to be a single byte.
  predicate SkipsRight(f: seq<Byte>, h: CieShape, end: nat) {
    && h.version < 4 && 0 < h.numbers <= end <= |f| && (f[h.numbers - 1] < 0x80 || h.numbers == end)
    && (h.Sized() ==> h.numbers < end && f[h.numbers] < 0x80)
  }

  // The encodings of all personality pointers of a CIE.
  function EncodingsOf(c: seq<Byte>, h: CieShape, end: nat, base: nat, ptrSize: PtrSize): set<Byte>
    requires end <= |c|
  {
    if h.numbers <= end && LettersAt(c, h, end).Some?
    then PerEncodings(c, h.Rest(), Unseen(LettersAt(c, h, end).value), end, base, ptrSize)
    else {}
  }

  // Where the parser takes the data of the letters to start.
  function LettersAt(c: seq<Byte>, h: CieShape, end: nat): Option<nat>
    requires h.numbers <= end <= |c|
  {
    if h.Sized() then AfterLeb(c, h.numbers, end) else Some(h.numbers)
  }

  // What is known of a parsed CIE.
  lemma ShapeIs(f: seq<Byte>, end: nat, base: nat, ptrSize: PtrSize, h: CieShape)
    requires 9 <= end <= |f| && ParseCie(f, end, base, ptrSize) == Some(h)
    ensures h.version == f[8] && h.version in {1, 3, 4} && 9 + |h.letters| < end
            && |h.letters| == StringLength(f, 9) < MAX_STRING
    ensures h.letters == f[9..9 + |h.letters|] && 0 !in h.letters && f[9 + |h.letters|] == 0 && !(EH <= h.letters)
    ensures AfterCieNumbers(f, h.version, 10 + |h.letters|, end, ptrSize) == Some(h.numbers)
    ensures ParseData(f, h.(seen := Unseen(0)), end, base, ptrSize) == Some(h)
    ensures 10 + |h.letters| < h.numbers <= end
  {
    hide AfterCieNumbers, ReadLetters;
    assert StringFrom(f, 9) == f[9..9 + StringLength(f, 9)];
  }

  lemma LebIs(f: seq<Byte>, i: nat, end: nat)
    requires i <= end <= |f| && AfterLeb(f, i, end).Some?
    ensures SkipLeb(f, i, end) == AfterLeb(f, i, end).value
  {
  }

  // Where the write pass takes it to start.
  function DataFound(f: seq<Byte>, end: nat): nat
    requires 9 < |f| && 9 + StringLength(f, 9) < end <= |f|
  {
    if f[9] == LETTER_Z then AfterLebs(f, end) + 1 else AfterLebs(f, end)
  }

  // The write pass skips three LEB128 numbers whatever the version, and one byte for the
  // augmentation size.  It finds the augmentation data exactly when the CIE is older than
  // version 4, the last byte of the return register is below 128, unless it ends the CIE,
  // and so is the size.
  lemma PlaceFound(f: seq<Byte>, end: nat, base: nat, ptrSize: PtrSize, h: CieShape)
    requires 9 <= end <= |f| && ParseCie(f, end, base, ptrSize) == Some(h)
    ensures StringLength(f, 9) == |h.letters| && 10 + |h.letters| < h.numbers <= end
    ensures f[9] == LETTER_Z <==> h.Sized()
    ensures LettersAt(f, h, end).Some? && LettersAt(f, h, end).value <= end
    ensures DataFound(f, end) == LettersAt(f, h, end).value <==> SkipsRight(f, h, end)
    ensures SkipsRight(f, h, end) ==> AfterLebs(f, end) == h.numbers
  {
    hide ParseCie;
    ShapeIs(f, end, base, ptrSize, h);
    var i := 10 + |h.letters|;
    ZIsFirst(f, h);
    if h.version >= 4 {
      NewNumbers(f, i, end, ptrSize);
    } else {
      OldNumbers(f, h.version, i, end, ptrSize);
    }
    hide AfterCieNumbers, SkipLeb;
    if h.Sized() {
      SizeEnds(f, h.numbers, end);
    }
  }

  lemma ZIsFirst(f: seq<Byte>, h: CieShape)
    requires 9 + |h.letters| < |f| && h.letters == f[9..9 + |h.letters|] && f[9 + |h.letters|] == 0
    ensures f[9] == LETTER_Z <==> h.Sized()
  {
    if h.letters != [] {
      assert f[9..9 + |h.letters|][0] == f[9];
    }
  }

  // A number is one byte exactly if that byte is below 128.
  lemma SizeEnds(f: seq<Byte>, i: nat, end: nat)
    requires i <= end <= |f| && AfterLeb(f, i, end).Some?
    ensures i < AfterLeb(f, i, end).value <= end && f[AfterLeb(f, i, end).value - 1] < 0x80
    ensures AfterLeb(f, i, end).value == i + 1 <==> f[i] < 0x80
  {
  }

  // Version 4: the first two numbers skipped are the two sizes.
  lemma NewNumbers(f: seq<Byte>, i: nat, end: nat, ptrSize: PtrSize)
    requires i <= end <= |f| && AfterCieNumbers(f, 4, i, end, ptrSize).Some?
    ensures SkipLeb(f, SkipLeb(f, SkipLeb(f, i, end), end), end) < AfterCieNumbers(f, 4, i, end, ptrSize).value
  {
    assert SkipLeb(f, i, end) == i + 1 && SkipLeb(f, i + 1, end) == i + 2;
    hide SkipLeb;
    LebIs(f, i + 2, end);
  }

  // Older versions: a register byte of 128 or more runs on into what follows.
  lemma OldNumbers(f: seq<Byte>, version: Byte, i: nat, end: nat, ptrSize: PtrSize)
    requires i <= end <= |f| && version < 4 && AfterCieNumbers(f, version, i, end, ptrSize).Some?
    ensures var n := AfterCieNumbers(f, version, i, end, ptrSize).value;
            var found := SkipLeb(f, SkipLeb(f, SkipLeb(f, i, end), end), end);
            && (f[n - 1] < 0x80 ==> found == n)
            && (f[n - 1] >= 0x80 ==> found == SkipLeb(f, n, end))
            && (n < end ==> SkipLeb(f, n, end) > n) && (n == end ==> SkipLeb(f, n, end) == end)
            && (AfterLeb(f, n, end).Some? ==> SkipLeb(f, n, end) == AfterLeb(f, n, end).value)
  {
    var code := AfterLeb(f, i, end).value;
    var align := AfterLeb(f, code, end).value;
    LebIs(f, i, end);
    LebIs(f, code, end);
    if version == 1 {
      assert SkipLeb(f, align, end) == if f[align] < 0x80 then align + 1 else SkipLeb(f, align + 1, end);
      if AfterLeb(f, align + 1, end).Some? {
        LebIs(f, align + 1, end);
      }
    } else {
      LebIs(f, align, end);
      SizeEnds(f, align, end);
      if AfterLeb(f, AfterLeb(f, align, end).value, end).Some? {
        LebIs(f, AfterLeb(f, align, end).value, end);
      }
    }
  }

  // Where the data of the letters starts.
  function DataAt(h: CieShape): nat { if h.Sized() then h.numbers + 1 else h.numbers }

  lemma DataStarts(f: seq<Byte>, h: CieShape, job: CieJob, ptrSize: PtrSize)
    requires Editable(f, h, job, ptrSize)
    ensures job.Ok() && job.p.Cie? && |f| == job.newSize && 9 <= job.p.size && job.p.size + job.p.Extra() <= |f|
    ensures job.p.Extra() == job.p.ExtraString() + job.p.ExtraData()
    ensures 10 + |h.letters| < h.numbers <= DataAt(h) <= job.p.size
    ensures h.Sized() ==> f[h.numbers] < 0x80
    ensures ReadLetters(f, h.Rest(), Unseen(DataAt(h)), job.p.size, job.p.offset, ptrSize) == Some(h.seen)
    ensures PaddingKept(job, PerEncodings(f, h.Rest(), Unseen(DataAt(h)), job.p.size, job.p.offset, ptrSize), ptrSize)
  {
    hide ReadLetters, ParseCie, PerEncodings, PaddingKept, Asks;
    ShapeIs(f, job.p.size, job.p.offset, ptrSize, h);
    if h.Sized() {
      SizeEnds(f, h.numbers, job.p.size);
    }
  }

  // The place of the first new letter.
  function FirstNew(h: CieShape): nat { if h.Sized() then 10 else 9 }

  lemma RaisedIs(f: seq<Byte>, h: CieShape, job: CieJob, ptrSize: PtrSize)
    requires Editable(f, h, job, ptrSize)
    ensures Delimited(f, job.p.size) && h.numbers <= job.p.size <= |f|
    ensures Raised(f, job).aug == FirstNew(h) && Raised(f, job).data == DataAt(h)
    ensures Raised(f, job).b == if h.Sized() then f[h.numbers := f[h.numbers] + job.p.ExtraData()] else f
  {
    hide ParseCie, ReadLetters, AfterLebs, PaddingKept, Asks, EncodingsOf;
    ShapeIs(f, job.p.size, job.p.offset, ptrSize, h);
    PlaceFound(f, job.p.size, job.p.offset, ptrSize, h);
    DataStarts(f, h, job, ptrSize);
    if h.Sized() {
      RemainderIs(f[h.numbers] + job.p.ExtraData(), 0x100, 0, f[h.numbers] + job.p.ExtraData());
    }
  }

  // The bytes of the spliced block before the letters' data.
  lemma SplicedHead(f: seq<Byte>, h: CieShape, job: CieJob, out: Output, j: nat)
    requires Editable(f, h, job, out.ptrSize) && j < |f|
    ensures Delimited(f, job.p.size) && h.numbers <= job.p.size
    ensures var b, es, ed := Spliced(f, job, out).b, job.p.ExtraString(), job.p.ExtraData();
            && (j < FirstNew(h) ==> b[j] == f[j])
            && (FirstNew(h) <= j < FirstNew(h) + es ==> b[j] == NewLetters(job.p)[j - FirstNew(h)])
            && (FirstNew(h) + es <= j < h.numbers + es ==> b[j] == f[j - es])
            && (h.Sized() && j == h.numbers + es ==> b[j] == f[h.numbers] + ed)
            && (DataAt(h) + es <= j < DataAt(h) + es + ed ==> b[j] == NewData(job.p, out.ptrSize)[j - DataAt(h) - es])
            && (job.p.size + es + ed <= j ==> b[j] == f[j])
  {
    hide ParseCie, PaddingKept, EncodingsOf, Asks, SpliceAt, Raised, Delimited;
    RaisedIs(f, h, job, out.ptrSize);
    DataStarts(f, h, job, out.ptrSize);
    SplicedByte(Raised(f, job), job, out, j);
  }

  // What is left to do after the splice.
  function LeftToDo(job: CieJob): Actions
    requires job.p.Cie?
  {
    job.Todo().(fde := job.p.makeRelative && !job.p.addFdeEncoding)
  }

  // The letters that are to be converted are there.
  lemma LettersThere(f: seq<Byte>, h: CieShape, job: CieJob, ptrSize: PtrSize)
    requires Editable(f, h, job, ptrSize)
    ensures Pending(LeftToDo(job), h.Rest())
    ensures h.seen.lsda != DW_EH_PE_omit <==> LETTER_L in h.Rest()
    ensures h.seen.fde != DW_EH_PE_omit <==> LETTER_R in h.Rest()
    ensures h.seen.per != DW_EH_PE_omit <==> LETTER_P in h.Rest()
    ensures LETTER_P !in h.Rest() ==> h.seen.pointer == 0
    ensures job.p.addFdeEncoding ==> LETTER_R !in h.Rest()
  {
    hide ParseCie, ReadLetters, PaddingKept, EncodingsOf, SkipsRight;
    DataStarts(f, h, job, ptrSize);
    OmittedHasNone(ptrSize);
    NotSeen(f, h.Rest(), Unseen(DataAt(h)), job.p.size, job.p.offset, ptrSize);
    SeenIfThere(f, h.Rest(), Unseen(DataAt(h)), job.p.size, job.p.offset, ptrSize);
  }

  // The two pointers and what is left to do after the splice.
  lemma SplicedAt(f: seq<Byte>, h: CieShape, job: CieJob, out: Output)
    requires Editable(f, h, job, out.ptrSize)
    ensures Delimited(f, job.p.size)
    ensures var w := Spliced(f, job, out);
            && w.aug == FirstNew(h) + job.p.ExtraString() && w.data == DataAt(h) + job.p.Extra() && |w.b| == |f|
            && w.left == LeftToDo(job)
            && w.aug + |h.Rest()| == 9 + |h.letters| + job.p.ExtraString() < w.data <= |w.b|
  {
    hide Raised, ParseCie, Delimited, PaddingKept, EncodingsOf, Asks, FillRoom, MakeRoom;
    RaisedIs(f, h, job, out.ptrSize);
    DataStarts(f, h, job, out.ptrSize);
  }

  lemma RestByte(f: seq<Byte>, h: CieShape, job: CieJob, out: Output, j: nat)
    requires Editable(f, h, job, out.ptrSize)
             && FirstNew(h) + job.p.ExtraString() <= j < 9 + |h.letters| + job.p.ExtraString()
    ensures Delimited(f, job.p.size) && j < |f|
    ensures Spliced(f, job, out).b[j] == h.Rest()[j - FirstNew(h) - job.p.ExtraString()]
  {
    hide *;
    DataStarts(f, h, job, out.ptrSize);
    ParsedIs(f, h, job, out.ptrSize);
    ShapeIs(f, job.p.size, job.p.offset, out.ptrSize, h);
    SplicedHead(f, h, job, out, j);
    var i := j - job.p.ExtraString() - 9;
    FirstIs(h);
    RestLetter(h, i);
    assert h.letters[i] == f[9..9 + |h.letters|][i] == f[i + 9];
  }

  lemma FirstIs(h: CieShape)
    ensures FirstNew(h) == 9 || FirstNew(h) == 10
    ensures FirstNew(h) + |h.Rest()| == 9 + |h.letters|
  {
  }

  lemma ParsedIs(f: seq<Byte>, h: CieShape, job: CieJob, ptrSize: PtrSize)
    requires Editable(f, h, job, ptrSize)
    ensures 9 <= job.p.size <= |f| && ParseCie(f, job.p.size, job.p.offset, ptrSize) == Some(h)
  {
  }

  lemma RestLetter(h: CieShape, i: nat)
    requires FirstNew(h) - 9 <= i < |h.letters|
    ensures h.Rest()[i - (FirstNew(h) - 9)] == h.letters[i]
  {
  }

  lemma RestIsPlaced(f: seq<Byte>, h: CieShape, job: CieJob, out: Output)
    requires Editable(f, h, job, out.ptrSize)
    ensures Delimited(f, job.p.size) && Placed(Spliced(f, job, out).b, Spliced(f, job, out).aug, h.Rest())
  {
    hide ParseCie, PaddingKept, EncodingsOf, Asks, SkipsRight, Delimited, Spliced;
    SplicedAt(f, h, job, out);
    var w := Spliced(f, job, out);
    forall j {:trigger w.b[j]} | w.aug <= j < w.aug + |h.Rest()| ensures w.b[j] == h.Rest()[j - w.aug] {
      RestByte(f, h, job, out, j);
    }
  }

  // After the splice the walk is where the parser was before its first letter.
  lemma SplicedSyncs(f: seq<Byte>, h: CieShape, job: CieJob, out: Output)
    requires Editable(f, h, job, out.ptrSize)
    ensures Delimited(f, job.p.size)
    ensures Synced(Spliced(f, job, out), f, job, h.Rest(), Unseen(DataAt(h)), out.ptrSize)
    ensures Spliced(f, job, out).left == LeftToDo(job)
  {
    hide Spliced, ParseCie, Delimited, Fed, Pending, Placed, ReadLetters, PaddingKept, EncodingsOf, Asks, SkipsRight;
    SplicedAt(f, h, job, out);
    RestIsPlaced(f, h, job, out);
    DataStarts(f, h, job, out.ptrSize);
    LettersThere(f, h, job, out.ptrSize);
    SplicedFeeds(f, job, out);
  }

  // The edit can be made, and the edited block is what the walk ends with.
  lemma AugmentedIs(f: seq<Byte>, h: CieShape, job: CieJob, out: Output)
    requires Editable(f, h, job, out.ptrSize)
    ensures Walkable(f, job, out) && Delimited(f, job.p.size) && WalkOk(Spliced(f, job, out), job, out)
    ensures Augmented(f, job, out) == WalkEnd(Spliced(f, job, out), job, out)
  {
    hide ParseCie, Delimited, Synced, Raised, FillRoom, MakeRoom, PaddingKept, EncodingsOf, Asks, SkipsRight;
    SplicedSyncs(f, h, job, out);
    SyncedWalk(Spliced(f, job, out), f, job, out, h.Rest(), Unseen(DataAt(h)));
  }
}
