// Pointer encodings by their numbers (LSB Core, section 10.5.1), and what the layout
// loop does for them.

module EhFrameEncodings {
  import opened Bytes
  import opened EhFrame
  import opened EhFrameLayout
  import opened EhFrameCie
  import opened EhFrameCieParse

  // The letters of an augmentation string, which has 19 of them at most, and the
  // applications of an encoding.
  lemma LettersAre()
    ensures LETTER_Z == 'z' as int && LETTER_L == 'L' as int && LETTER_P == 'P' as int
    ensures LETTER_R == 'R' as int && LETTER_S == 'S' as int
    ensures EH == ['e' as int, 'h' as int] && MAX_STRING == 20
    ensures Application(0x00) == DW_EH_PE_absptr && Application(0x1b) == DW_EH_PE_pcrel
    ensures Application(0x40) == DW_EH_PE_funcrel && Application(0x50) == DW_EH_PE_aligned && DW_EH_PE_omit == 255
  {
  }

  // The width that a format stands for; 0 for the LEB128 formats and unknown ones.  Two of
  // the applications have no width at all.
  lemma WidthIs(encoding: Byte, ptrSize: PtrSize)
    ensures var format, application := encoding % 16, encoding / 16 % 8;
            EncodedWidth(encoding, ptrSize)
            == if application == 6 || application == 7 then 0
               else if format == 0 || format == 8 then ptrSize
               else if format == 2 || format == 10 then 2
               else if format == 3 || format == 11 then 4
               else if format == 4 || format == 12 then 8
               else 0
  {
    var format, application := encoding % 16, encoding / 16 % 8;
    assert encoding == 128 * (encoding / 128) + 16 * application + format;
    FieldsOf(encoding, encoding / 128, application, format);
  }

  // Made pc-relative an absolute encoding has application 1, and keeps the indirect bit
  // and its format, but for that of an address, which becomes a signed one of that size.
  lemma RelativeIs(encoding: Byte, ptrSize: PtrSize)
    requires encoding / 16 % 8 == 0
    ensures var format := encoding % 16;
            MakePcRelative(encoding, ptrSize)
            == encoding / 128 * 128 + 16
               + (if format != 0 then format else if ptrSize == 2 then 10 else if ptrSize == 4 then 11 else 12)
  {
    var format := encoding % 16;
    assert encoding == 128 * (encoding / 128) + format;
    FieldsOf(encoding, encoding / 128, 0, format);
    var sized := if format == 0 then encoding + (if ptrSize == 2 then 10 else if ptrSize == 4 then 11 else 12)
                 else encoding;
    FieldsOf(sized, encoding / 128, 0, sized % 16);
    assert sized / 16 == encoding / 128 * 8;
  }

  // The bytes that an edit inserts: a letter and a byte of data for each of 'z' and 'R',
  // and a size in an FDE.
  function Inserted(p: Parsed): nat {
    match p
    case Cie(_, _, z, _, _, _, _, _, _, _, r) => (if z then 2 else 0) + (if r then 2 else 0)
    case Fde(_, _, z, _, _, _, _, _) => if z then 1 else 0
  }

  // The entry has to be at a multiple of eight.
  predicate NeedsEight(p: Parsed, ptrSize: PtrSize) {
    if p.Cie? then p.size != 4 && p.perEncodingAligned8
    else p.size != 4 && EncodedWidth(p.fdeEncoding, ptrSize) == 8
  }

  // Each kept FDE's addresses are aligned to their width, each kept CIE's aligned
  // personality to its own, and each entry to four; and between an entry and the next
  // there is nothing but what that takes.
  lemma PlacedNaturally(ps: seq<Parsed>, gone: seq<bool>, places: seq<nat>, size: nat, ptrSize: PtrSize, k: nat)
    requires PlacedBy(ps, gone, places, size, ptrSize) && k < |ps| && !gone[k]
    requires ps[k].size == 4 ==> ps[k].Fde?
    ensures places[k] % 4 == 0 && (NeedsEight(ps[k], ptrSize) ==> places[k] % 8 == 0)
    ensures var w := if ps[k].Fde? then EncodedWidth(ps[k].fdeEncoding, ptrSize) else 0;
            w > 0 && ps[k].size != 4 ==> (places[k] + 8) % w == 0
    ensures var n := NextKept(gone, k + 1);
            var end := places[k] + ps[k].size + if ps[k].size == 4 then 0 else Inserted(ps[k]);
            var next := if n < |ps| then places[n] else size;
            end <= next < end + if n < |ps| && NeedsEight(ps[n], ptrSize) then 8 else 4
  {
    hide EncodedWidth, Running;
    LayoutIsTight(ps, gone, ptrSize, k);
    MultipleOf(places[k], ps[k].Alignment(ptrSize));
    var n := NextKept(gone, k + 1);
    assert n < |ps| ==> places[n] == places[n];
  }

  lemma MultipleOf(x: nat, a: nat)
    requires (a == 4 || a == 8) && x % a == 0
    ensures x % 4 == 0 && (x + 8) % 4 == 0 && x % 2 == 0 && (x + 8) % 2 == 0 && (a == 8 ==> (x + 8) % 8 == 0)
  {
    if a == 8 {
      RemainderIs(x, 4, 2 * (x / 8), 0);
    }
    RemainderIs(x, 2, 2 * (x / 4), 0);
    RemainderIs(x + 8, 2, 2 * (x / 4) + 4, 0);
  }
}
