// The linker's view of one input `.eh_frame` section: the parsed entries
// (`struct eh_cie_fde`) and the sections that own them.

module EhFrame {
  import opened Bytes

  // Pointer encodings (LSB Core, section 10.5.1): the low four bits give the
  // format, bits 4 to 6 the application.
  const DW_EH_PE_absptr: Byte := 0x00
  const DW_EH_PE_omit: Byte := 0xff
  const DW_EH_PE_pcrel: Byte := 0x10
  const DW_EH_PE_funcrel: Byte := 0x40
  const DW_EH_PE_aligned: Byte := 0x50

  // The augmentation string of CIEs that are not merged and not edited.
  const EH: seq<Byte> := [0x65, 0x68]

  // `encoding & 0x70`
  function Application(encoding: Byte): (a: Byte) {
    encoding / 0x10 % 8 * 0x10
  }

  // The address sizes that get_DW_EH_PE_width and make_pc_relative know.
  type PtrSize = n: nat | n == 2 || n == 4 || n == 8 witness 4

  // get_DW_EH_PE_width: 0 if the encoding has no fixed width.
  function EncodedWidth(encoding: Byte, ptrSize: PtrSize): (w: nat)
    ensures w == 0 || w == 2 || w == 4 || w == 8
  {
    if encoding / 0x20 % 4 == 3 then 0
    else match encoding % 8
      case 2 => 2
      case 3 => 4
      case 4 => 8
      case 0 => ptrSize
      case _ => 0
  }

  // What the parser fixed about an entry and nothing changes afterwards.  The
  // zero terminator is an Fde of size 4, as in the source.
  datatype Parsed =
    | Cie(offset: nat, size: nat, addAugmentationSize: bool, makeRelative: bool,
          fdeEncoding: Byte, lsdaEncoding: Byte,
          augStrLen: nat, augDataLen: nat, personalityOffset: nat,
          perEncodingAligned8: bool, addFdeEncoding: bool)
    | Fde(offset: nat, size: nat, addAugmentationSize: bool, makeRelative: bool,
          fdeEncoding: Byte, lsdaEncoding: Byte, lsdaOffset: nat, setLoc: seq<nat>)
  {
    predicate Terminator() { size == 4 }

    // extra_augmentation_string_bytes
    function ExtraString(): nat {
      if Cie? then (if addAugmentationSize then 1 else 0) + (if addFdeEncoding then 1 else 0)
      else 0
    }

    // extra_augmentation_data_bytes
    function ExtraData(): nat {
      (if addAugmentationSize then 1 else 0) + (if Cie? && addFdeEncoding then 1 else 0)
    }

    function Extra(): nat { ExtraString() + ExtraData() }

    // size_of_output_cie_fde, for an entry that is kept
    function OutputSize(): nat {
      if Terminator() then 4 else size + Extra()
    }

    function Alignment(ptrSize: PtrSize): (a: nat)
      ensures a == 4 || a == 8
    {
      if Terminator() then 4
      else if Cie? then if perEncodingAligned8 then 8 else 4
      else
        var width := EncodedWidth(fdeEncoding, ptrSize);
        if width < 4 then 4 else width
    }

    // What the parser guarantees of every entry by itself.
    predicate WellFormed() {
      size >= 4 && (Terminator() ==> Fde? && !addAugmentationSize)
    }
  }

  // Entries are in file order and do not overlap, and nothing follows a terminator.
  predicate InFileOrder(ps: seq<Parsed>) {
    && (forall i :: 0 <= i < |ps| ==> ps[i].WellFormed() && (ps[i].Terminator() ==> i == |ps| - 1))
    && (forall i, j :: 0 <= i < j < |ps| ==> ps[i].offset + ps[i].size <= ps[j].offset)
  }

  // The personality routine of a CIE, as find_merged_cie compares it.
  datatype Personality =
    | Nothing
    | RelocIndex(reloc: nat)
    | GlobalSymbol(hash: nat)
    | LocalSymbol(bfdId: nat, index: nat)

  // The members of `struct cie` that cie_eq compares.
  datatype CieRecord = CieRecord(
    length: nat, version: Byte, localPersonality: bool, augmentation: seq<Byte>,
    codeAlign: int, dataAlign: int, raColumn: int, augmentationSize: int,
    personality: Personality, perEncoding: Byte, lsdaEncoding: Byte, fdeEncoding: Byte,
    initialInsnLength: Byte, initialInstructions: Insns)

  // The fixed array `initial_instructions[50]`.
  type Insns = s: seq<Byte> | |s| == 50 witness Zeros(50)

  // The overlaid members of `u.cie.u`.
  datatype CieLink =
    | FullCie(record: CieRecord)
    | NoRecord
    | MergedWith(target: Entry)
    | InSection(owner: Section)

  function RemovedFlags(es: seq<Entry>): (g: seq<bool>)
    reads (set e | e in es)`removed
    ensures |g| == |es| && forall i {:trigger g[i]} :: 0 <= i < |es| ==> g[i] == es[i].removed
  {
    if es == [] then [] else RemovedFlags(es[..|es| - 1]) + [es[|es| - 1].removed]
  }

  function NewOffsets(es: seq<Entry>): (p: seq<nat>)
    reads (set e | e in es)`newOffset
    ensures |p| == |es| && forall i {:trigger p[i]} :: 0 <= i < |es| ==> p[i] == es[i].newOffset
  {
    if es == [] then [] else NewOffsets(es[..|es| - 1]) + [es[|es| - 1].newOffset]
  }

  class Section {
    const outputSection: nat
    const outputVma: int
    const outputOffset: nat
    const hasNext: bool            // another input section follows in the output
    const entries: seq<Entry>
    var size: nat
    var rawSize: nat

    constructor (outputSection: nat, outputVma: int, outputOffset: nat, hasNext: bool,
                 entries: seq<Entry>, size: nat)
      ensures this.outputSection == outputSection && this.outputVma == outputVma
      ensures this.outputOffset == outputOffset && this.hasNext == hasNext
      ensures this.entries == entries && this.size == size && rawSize == 0
    {
      this.outputSection, this.outputVma, this.outputOffset := outputSection, outputVma, outputOffset;
      this.hasNext, this.entries, this.size, this.rawSize := hasNext, entries, size, 0;
    }

    // The parsed part of every entry.
    function Table(): (ps: seq<Parsed>)
      ensures |ps| == |entries|
      ensures forall i {:trigger ps[i]} :: 0 <= i < |entries| ==> ps[i] == entries[i].parsed
    {
      seq(|entries|, i requires 0 <= i < |entries| => entries[i].parsed)
    }

    predicate Distinct() {
      forall i, j :: 0 <= i < j < |entries| ==> entries[i] != entries[j]
    }

    // Which entries are slated for removal.
    function Gone(): (g: seq<bool>)
      reads (set e | e in entries)`removed
      ensures |g| == |entries|
      ensures forall i {:trigger g[i]} :: 0 <= i < |entries| ==> g[i] == entries[i].removed
    {
      RemovedFlags(entries)
    }

    // Where the layout loop has put every entry.
    function Places(): (p: seq<nat>)
      reads (set e | e in entries)`newOffset
      ensures |p| == |entries|
      ensures forall i {:trigger p[i]} :: 0 <= i < |entries| ==> p[i] == entries[i].newOffset
    {
      NewOffsets(entries)
    }
  }

  class Entry {
    const parsed: Parsed
    var newOffset: nat
    var removed: bool
    // CIE only
    var merged: bool
    var link: CieLink
    var makeLsdaRelative: bool
    var makePerEncodingRelative: bool
    var perEncodingRelative: bool
    // FDE only
    var cieInf: Entry?

    constructor (parsed: Parsed, link: CieLink, cieInf: Entry?, makeLsdaRelative: bool,
                 perEncodingRelative: bool)
      ensures this.parsed == parsed && this.link == link && this.cieInf == cieInf
      ensures removed && !merged && !makePerEncodingRelative
      ensures this.makeLsdaRelative == makeLsdaRelative
      ensures this.perEncodingRelative == perEncodingRelative
    {
      this.parsed, this.link, this.cieInf := parsed, link, cieInf;
      this.makeLsdaRelative, this.perEncodingRelative := makeLsdaRelative, perEncodingRelative;
      newOffset, removed, merged, makePerEncodingRelative := 0, true, false, false;
    }
  }
}
