// The parser's view of a CIE (_bfd_elf_parse_eh_frame): the augmentation string, the
// numbers after it, and what each letter of the string says of the augmentation data.

module EhFrameCieParse {
  import opened Bytes
  import opened CLibrary
  import opened EhFrame
  import opened EhFrameFde
  import opened EhFrameCie
  import opened EhFrameCfa

  // What the loop over the letters has found: how far it is in the data, the three
  // encodings, and where the personality pointer is.
  datatype Seen = Seen(at: nat, lsda: Byte, fde: Byte, per: Byte, pointer: nat)

  function Unseen(at: nat): Seen { Seen(at, DW_EH_PE_omit, DW_EH_PE_omit, DW_EH_PE_omit, 0) }

  // One letter, in a CIE that is at base in its section and ends at end.
  function OneLetter(c: seq<Byte>, letter: Byte, s: Seen, end: nat, base: nat, ptrSize: PtrSize): (r: Option<Seen>)
    requires end <= |c|
    ensures r.Some? && s.at <= end ==> s.at <= r.value.at <= end
  {
    if letter == LETTER_S then Some(s)
    else if letter !in {LETTER_L, LETTER_R, LETTER_P} || s.at >= end || EncodedWidth(c[s.at], ptrSize) == 0 then None
    else
      var enc := c[s.at];
      if letter == LETTER_L then Some(s.(at := s.at + 1, lsda := enc))
      else if letter == LETTER_R then Some(s.(at := s.at + 1, fde := enc))
      else
        var q := PointerPlace(base, enc, s.at + 1, ptrSize);
        if q + EncodedWidth(enc, ptrSize) > end then None
        else Some(s.(at := q + EncodedWidth(enc, ptrSize), per := enc, pointer := q))
  }

  // `while (*aug != '\0') switch (*aug++)`
  function ReadLetters(c: seq<Byte>, letters: seq<Byte>, s: Seen, end: nat, base: nat,
                       ptrSize: PtrSize): (r: Option<Seen>)
    requires end <= |c|
    ensures r.Some? && s.at <= end ==> s.at <= r.value.at <= end
    decreases |letters|
  {
    if letters == [] then Some(s)
    else
      var t := OneLetter(c, letters[0], s, end, base, ptrSize);
      if t.None? then None else ReadLetters(c, letters[1..], t.value, end, base, ptrSize)
  }

  // The encodings that the letters 'P' bring along, also of those that a later one
  // supersedes.
  function PerEncodings(c: seq<Byte>, letters: seq<Byte>, s: Seen, end: nat, base: nat, ptrSize: PtrSize): set<Byte>
    requires end <= |c|
    decreases |letters|
  {
    if letters == [] || OneLetter(c, letters[0], s, end, base, ptrSize).None? then {}
    else
      var t := OneLetter(c, letters[0], s, end, base, ptrSize).value;
      var rest := PerEncodings(c, letters[1..], t, end, base, ptrSize);
      if letters[0] == LETTER_P then rest + {c[s.at]} else rest
  }

  // The numbers after the string at i: version 4 has an address and a segment size
  // before them, and version 1 a return register of one byte.
  function AfterCieNumbers(c: seq<Byte>, version: Byte, i: nat, end: nat, ptrSize: PtrSize): (r: Option<nat>)
    requires i <= end <= |c|
    ensures r.Some? ==> i < r.value <= end
  {
    if version >= 4 && (i + 1 >= end || c[i] != ptrSize || c[i + 1] != 0) then None
    else
      var code := AfterLeb(c, if version >= 4 then i + 2 else i, end);
      if code.None? then None
      else
        var align := AfterLeb(c, code.value, end);
        if align.None? then None
        else if version == 1 then if align.value < end then Some(align.value + 1) else None
        else AfterLeb(c, align.value, end)
  }

  // A parsed CIE: where its numbers end, and what its letters say.  The instructions
  // start where the letters' data ends.
  datatype CieShape = CieShape(version: Byte, letters: seq<Byte>, numbers: nat, seen: Seen)
  {
    predicate Sized() { letters != [] && letters[0] == LETTER_Z }

    // The letters that have data.
    function Rest(): seq<Byte> { if Sized() then letters[1..] else letters }
  }

  // sizeof (cie->augmentation)
  const MAX_STRING := 20

  // The CIE c, which is at base in its section and ends at end.  The "eh" augmentation
  // is not part of this model.
  function ParseCie(c: seq<Byte>, end: nat, base: nat, ptrSize: PtrSize): (r: Option<CieShape>)
    requires 9 <= end <= |c|
  {
    var n := StringLength(c, 9);
    if c[8] !in {1, 3, 4} || 9 + n >= end || n >= MAX_STRING || EH <= c[9..9 + n] then None
    else
      var numbers := AfterCieNumbers(c, c[8], 9 + n + 1, end, ptrSize);
      if numbers.None? then None
      else ParseData(c, CieShape(c[8], c[9..9 + n], numbers.value, Unseen(0)), end, base, ptrSize)
  }

  // From the numbers on.
  function ParseData(c: seq<Byte>, h: CieShape, end: nat, base: nat, ptrSize: PtrSize): (r: Option<CieShape>)
    requires h.numbers <= end <= |c|
    ensures r.Some? ==> r.value == h.(seen := r.value.seen)
  {
    var at := if h.Sized() then AfterLeb(c, h.numbers, end) else Some(h.numbers);
    if at.None? then None
    else
      var seen := ReadLetters(c, h.Rest(), Unseen(at.value), end, base, ptrSize);
      if seen.None? then None else Some(h.(seen := seen.value))
  }

  // ---------- the loop ----------

  // One round of the loop.
  method ReadLetter(c: seq<Byte>, letter: Byte, s: Seen, end: nat, base: nat, ptrSize: PtrSize)
    returns (ok: bool, t: Seen)
    requires s.at <= end <= |c|
    ensures ok == OneLetter(c, letter, s, end, base, ptrSize).Some?
    ensures ok ==> t == OneLetter(c, letter, s, end, base, ptrSize).value
  {
    t := s;
    if letter == LETTER_S {
      return true, t;
    }
    if letter !in {LETTER_L, LETTER_R, LETTER_P} || s.at == end {
      return false, t;
    }
    var enc := c[s.at];
    var width := EncodedWidth(enc, ptrSize);
    if width == 0 {
      return false, t;
    }
    if letter == LETTER_L {
      t := t.(at := s.at + 1, lsda := enc);
    } else if letter == LETTER_R {
      t := t.(at := s.at + 1, fde := enc);
    } else {
      var q := s.at + 1;
      if Application(enc) == DW_EH_PE_aligned {
        q := q + PadTo(base + q, width);
      }
      if q + width > end {
        return false, t;
      }
      t := t.(at := q + width, per := enc, pointer := q);
    }
    ok := true;
  }

  method ReadAugmentation(c: seq<Byte>, letters: seq<Byte>, at: nat, end: nat, base: nat, ptrSize: PtrSize)
    returns (ok: bool, seen: Seen)
    requires at <= end <= |c|
    ensures ok == ReadLetters(c, letters, Unseen(at), end, base, ptrSize).Some?
    ensures ok ==> seen == ReadLetters(c, letters, Unseen(at), end, base, ptrSize).value
  {
    hide OneLetter;
    ok, seen := true, Unseen(at);
    var aug := 0;
    while aug < |letters|
      invariant aug <= |letters| && seen.at <= end
      invariant ReadLetters(c, letters[aug..], seen, end, base, ptrSize)
                == ReadLetters(c, letters, Unseen(at), end, base, ptrSize)
    {
      assert letters[aug..][0] == letters[aug] && letters[aug..][1..] == letters[aug + 1..];
      ok, seen := ReadLetter(c, letters[aug], seen, end, base, ptrSize);
      if !ok {
        return;
      }
      aug := aug + 1;
    }
  }

  // ---------- what the letters leave alone ----------

  // Letter x is not seen unless it is there.
  lemma {:induction false} NotSeen(c: seq<Byte>, letters: seq<Byte>, s: Seen, end: nat, base: nat, ptrSize: PtrSize)
    requires end <= |c| && ReadLetters(c, letters, s, end, base, ptrSize).Some?
    ensures var t := ReadLetters(c, letters, s, end, base, ptrSize).value;
            && (LETTER_L !in letters ==> t.lsda == s.lsda)
            && (LETTER_R !in letters ==> t.fde == s.fde)
            && (LETTER_P !in letters ==> t.per == s.per && t.pointer == s.pointer)
    decreases |letters|
  {
    if letters != [] {
      NotSeen(c, letters[1..], OneLetter(c, letters[0], s, end, base, ptrSize).value, end, base, ptrSize);
    }
  }

  // What is omitted has no width, so a letter that is there is seen.
  lemma {:induction false} SeenIfThere(c: seq<Byte>, letters: seq<Byte>, s: Seen, end: nat, base: nat, ptrSize: PtrSize)
    requires end <= |c| && ReadLetters(c, letters, s, end, base, ptrSize).Some?
    ensures var t := ReadLetters(c, letters, s, end, base, ptrSize).value;
            && (LETTER_L in letters || s.lsda != DW_EH_PE_omit ==> t.lsda != DW_EH_PE_omit)
            && (LETTER_R in letters || s.fde != DW_EH_PE_omit ==> t.fde != DW_EH_PE_omit)
            && (LETTER_P in letters || s.per != DW_EH_PE_omit ==> t.per != DW_EH_PE_omit)
    decreases |letters|
  {
    if letters != [] {
      SeenIfThere(c, letters[1..], OneLetter(c, letters[0], s, end, base, ptrSize).value, end, base, ptrSize);
    }
  }
}
