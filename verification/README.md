# Linker, debugger and flash algorithms, modelled and proved

This project models the algorithms at the heart of the repository in Dafny and proves
what they promise. Everything is stated for all inputs and all runs, unless the last
section says otherwise.

- **`.eh_frame` editing** (`bfd/elf-eh-frame.c`): `EhFrame*.dfy`. Merging of equal CIEs,
  layout of what is kept, the two directional passes that slide the bytes within one
  buffer, the splice of augmentation letters and the rewriting of pointers. The edited
  section is a walkable `.eh_frame` (`EhFrameLink.dfy` puts the passes together) in which
  every CIE, and every FDE read through the CIE it leads to, means what it meant
  (`EhFrameLinkMeans.dfy`).
- **Line and function lookup** (`bfd/dwarf2.c`): `LineAdd.dfy` to `LineLookup.dfy`,
  `FuncTable.dfy`, `DieNesting.dfy`. Each fast form finds what a linear scan finds.
- **The file descriptor cache** (`bfd/cache.c`): `FileCache.dfy`. The ring's invariant,
  and that callers cannot tell that files are closed behind their backs.
- **Object attribute sections** (`bfd/elf-attrs.c`): `Leb128.dfy`, `ObjAttrs*.dfy`. Size
  functions, writer and parser agree, and parsing undoes writing.
- **Archives** (`bfd/archive.c`): `Archive*.dfy`. Offsets computed before the bytes exist
  are right, and the reader undoes the writer.
- **In-memory files** (`bfd/bfdio.c`): `MemFile.dfy`.
- **The flash driver** (`agb_flash/`): `FlashChip.dfy`, `FlashDriver.dfy`, against a chip
  that obeys only complete command sequences, obeys a reset at any time, and may fail at
  any step.

`Bytes.dfy` and `CLibrary.dfy` hold byte sequences, target words, and the C library
functions that the rest uses.

Code that works on buffers, lists and fields is modelled by methods on arrays and
classes. Each of them is proved against a function of values, and the properties are
lemmas about those functions. Lists that the source links by pointers are objects with a
ghost sequence of the nodes; linked lists that are only walked (archive members, input
files) are sequences. Integers are unbounded except where a width is written out: words
that are stored and read back are taken modulo their width.

Some of what one might expect does not hold. In each case there is the exact condition:

- `add_line_info` does not keep `low_pc` least (`LineAddLaws.LowStaysLeast`), and rows stay
  sorted only if no end-of-sequence row is below the rows it ends (`LineAddLaws.OrderIff`).
- The write pass skips three numbers in a CIE of any version, and one byte for the
  augmentation size. That leads to the letters' data only in CIEs older than version 4
  with a return register and a size whose last and only byte is below 0x80
  (`EhFrameCieKept.PlaceFound`; failing CIEs in `EhFrameCieReads.NewCieMisplaced`,
  `EhFrameCieReads.HighRegisterMisplaced` and `EhFrameCieReads.LongSizeMisplaced`), and the
  raised size may no longer be one byte (`EhFrameCieReads.EditedSize`). It converts only
  the first of two equal letters, where the parser takes the second: the edit is right if
  and only if letters to be converted occur once (`EhFrameCieReads.EditIsRight`; a failing
  CIE in `EhFrameCieReads.RepeatedLetter`). And it passes over alignment padding rightly
  only if the pointer moves by a multiple of its width (`EhFrameCieReads.AlignmentIsExact`).
- In an FDE that gets an augmentation size the pass looks for the arguments of
  `DW_CFA_set_loc` one byte too early. Such an instruction survives only if its new place
  is zero modulo its width (`EhFrameSetLoc.SetLocSurvivesIff`, `EhFrameSetLoc.SetLocSpoiled`).
- `cie_eq` compares the length of the initial instructions as a byte
  (`EhFrameMerge.InsnComparisonIsExact`).
- `offset_adjust` is one byte late: a symbol on the first byte of a CIE's numbers, on the
  first one after its augmentation data, or on the first one after an FDE's addresses does
  not move as that byte does (`EhFrameSymbols.CieSymbolFollows`,
  `EhFrameSymbols.FdeSymbolFollows`).
- The cache shows through when an absolute seek fails on a file that it has closed
  (`FileCache.CacheShowsIff`, `FileCache.Cache.FailedSeekThenRead`), and `close_one`
  succeeds without closing anything if nothing is cacheable. A file whose reopening needs
  two closes stays open outside the ring if the second fails (`FileCache.Cache.OpenFile`).
- An archive without long names whose first member has a reserved name is not opened as it
  was written (`ArchiveOpen.OpenFindsAll`, `ArchiveRoundTrip.MemberIsSwallowed`).
- A member name of exactly 15 characters with a blank among them is cut at the blank
  (`ArchiveFormat.ShortNameReadsBack`), and a long name with a newline or a backslash does
  not survive the name table (`ArchiveNames.NameSurvives`).

`dafny verify dfyconfig.toml` checks the project.

## Model

| member | source | states |
|---|---|---|
| `EhFrameLayout.LayoutIsOrdered` | bfd/elf-eh-frame.c:1556-1591 | The layout loop keeps kept entries in file order and apart, each with room for its edited form, inside the new size, for any removals |
| `EhFrameLayout.LayoutIsTight` | bfd/elf-eh-frame.c:1556-1591 | From one kept entry to the next, or to the end, there are its edited bytes and less than one alignment more |
| `EhFrameLayout.LayoutStartsAtZero` | bfd/elf-eh-frame.c:1562-1586 | The first kept entry is at offset 0 |
| `EhFrameLayout.NextCieFdeOffset` | bfd/elf-eh-frame.c:328-339 | The next kept entry's new offset, or the section size |
| `EhFrameLayout.LayOut` | bfd/elf-eh-frame.c:1562-1600 | Every kept entry gets the offset of the layout, removed ones keep theirs, the size is the new one, and the result says whether anything changed |
| `EhFrameEncodings.PlacedNaturally` | bfd/elf-eh-frame.c:1556-1591 | Each kept FDE has its addresses aligned to their width, and a kept CIE with an eight-byte aligned personality is at a multiple of eight; between an entry with its inserted bytes and the next one there are fewer than eight bytes, fewer than four if the next one does not need more |
| `EhFrameEncodings.WidthIs` | bfd/elf-eh-frame.c:141-161 | The width of every encoding by its format and application, as the LSB lists them |
| `EhFrameEncodings.RelativeIs` | bfd/elf-eh-frame.c:449-466 | What every absolute encoding becomes: application 1, the indirect bit kept, and an address a signed number of its size |
| `EhFrameMove.MoveOne` | bfd/elf-eh-frame.c:1946-1952 | Moving one entry's bytes keeps all other kept entries' bytes if the destination meets none of them |
| `EhFrameMove.UpMoveIsClear` | bfd/elf-eh-frame.c:1946-1948 | In the backward pass a move up meets no other kept entry, moved or not |
| `EhFrameMove.DownMoveIsClear` | bfd/elf-eh-frame.c:1950-1952 | In the forward pass a move down meets no other kept entry, moved or not |
| `EhFrameMove.MoveEntries` | bfd/elf-eh-frame.c:1941-1952 | After the backward and the forward pass over one buffer every kept entry's original bytes are at its new offset |
| `EhFrameOffsets.SearchInside` | bfd/elf-eh-frame.c:1750-1774 | The binary search finds the entry that a linear scan for the containing entry finds, or none |
| `EhFrameOffsets.SearchLast` | bfd/elf-eh-frame.c:1345-1359 | The binary search of offset_adjust finds the last entry that starts at or before the offset |
| `EhFrameOffsets.OnlyOneInside` | bfd/elf-eh-frame.c:1750-1774 | At most one entry contains an offset |
| `EhFrameOffsets.SearchesAgree` | bfd/elf-eh-frame.c:1345-1774 | For an offset inside an entry both searches find the same entry |
| `EhFrameOffsets.SectionOffset` | bfd/elf-eh-frame.c:1741-1821 | The mapped offset, -1 for a deleted entry and -2 for a relocation that goes away, exactly as the map of the found entry says |
| `EhFrameOffsets.MapStaysInside` | bfd/elf-eh-frame.c:1776-1821 | A mapped offset lies inside the output extent of its entry |
| `EhFrameOffsets.MapIsMonotone` | bfd/elf-eh-frame.c:1776-1821 | On kept entries the map is strictly monotone, leaving aside -1 and -2 |
| `EhFrameOffsets.OffsetAdjust` | bfd/elf-eh-frame.c:1327-1401 | The delta for a symbol: what the layout moved and what was inserted before it |
| `EhFrameOffsets.MapsAgree` | bfd/elf-eh-frame.c:1327-1821 | At an offset of a kept entry the two maps agree if and only if nothing is inserted in the entry or the offset is past the insertions |
| `EhFrameMapsMean.FdeRelocations` | bfd/elf-eh-frame.c:1793-1815 | Of a kept FDE the map gives -2 if and only if the offset is that of a pointer (initial location, LSDA, argument of a DW_CFA_set_loc among its instructions) that the CIE before the edit has absolute and the CIE after it pc-relative; its other pointers are mapped to where they are afterwards |
| `EhFrameMapsMean.CieRelocations` | bfd/elf-eh-frame.c:1779-1786 | The same of the personality pointer of a kept CIE |
| `EhFrameLinkMaps.FdeRelocationsFollow` | bfd/elf-eh-frame.c:1741-1821 | So it is after the discard pass for each kept FDE, with the encodings that a reader of the output finds in the CIE that the FDE leads to; its LSDA pointer becomes relative if its own CIE asks for that, whichever CIE stands for it |
| `EhFrameLinkMaps.CieRelocationsFollow` | bfd/elf-eh-frame.c:1266-1786 | And for each kept CIE as it is found in the output: its personality pointer becomes relative if and only if it is absolute in a shared link and its symbol is bound there |
| `EhFrameSymbols.CieSymbolFollows` | bfd/elf-eh-frame.c:1377-1390 | In an edited CIE a symbol on the numbers or on the instructions moves as its byte does, if and only if it is not on the first byte of the numbers or the first one after the data |
| `EhFrameSymbols.FdeSymbolFollows` | bfd/elf-eh-frame.c:1391-1401 | In an edited FDE a symbol past the addresses moves as its byte does, if and only if it is not on the first byte past them |
| `EhFrameSymbols.MergedSymbolLands` | bfd/elf-eh-frame.c:1365-1371 | A symbol in a merged CIE lands in the CIE that stands for it, where a symbol at the same distance into that one does |
| `EhFrameCfa.ReadUleb128` | bfd/elf-eh-frame.c:104-119 | The number that the bytes stand for, modulo 2^64, read backwards; it fails exactly if the last byte is missing |
| `EhFrameCfa.SkipCfaOp` | bfd/elf-eh-frame.c:345-418 | The end of one call frame instruction, or failure, for every opcode |
| `EhFrameOps.OpEndsIff` | bfd/elf-eh-frame.c:345-418 | An instruction ends at j if and only if the operands that DWARF lists for its opcode end there, for all 256 opcodes |
| `EhFrameOps.SetLocHasAddress` | bfd/elf-eh-frame.c:1011-1024 | The instructions that are recorded are those with an address for an operand |
| `EhFrameOps.LebEndsIff` | bfd/elf-eh-frame.c:85-102 | A number ends after its first byte without the top bit, if that is inside |
| `EhFrameOps.UlebExamples` | bfd/libbfd.c:1091-1122 | The examples of the DWARF standard |
| `EhFrameCfa.SkipNonNops` | bfd/elf-eh-frame.c:425-444 | It succeeds exactly if every byte makes sense, and gives the end of the last instruction that is not a nop and the number of DW_CFA_set_loc |
| `EhFrameCfa.RecordSetLocs` | bfd/elf-eh-frame.c:1011-1024 | The table gets the argument of each DW_CFA_set_loc in order, and there are as many as were counted for it |
| `EhFrameCfa.PaddingIsNoInstruction` | bfd/elf-eh-frame.c:981-999 | What is taken off an entry's size is nothing but nops, and without it the same instructions are read |
| `EhFrameCfa.OpCarried` | bfd/elf-eh-frame.c:345-418 | An instruction has the same length wherever its bytes are and whatever follows |
| `EhFrameCfa.InstructionsCarried` | bfd/elf-eh-frame.c:1974-2217 | Bytes that carry the instructions elsewhere, with set_loc arguments changed and any number of nops after them, are read as the same instructions |
| `EhFrameCfa.FdeReadsTheSame` | bfd/elf-eh-frame.c:1970-2217 | The edited FDE, padding included, is read as the instructions of the original |
| `EhFrameMerge.CieEqSymmetric` | bfd/elf-eh-frame.c:216-247 | cie_eq is symmetric |
| `EhFrameMerge.CieEqTransitive` | bfd/elf-eh-frame.c:216-247 | cie_eq is transitive, though not reflexive |
| `EhFrameMerge.EqualToItself` | bfd/elf-eh-frame.c:216-247 | A CIE is equal to itself if and only if it is not an "eh" one and has no more than 50 bytes of instructions |
| `EhFrameMerge.InsnComparisonIsExact` | bfd/elf-eh-frame.c:236-246 | The comparison tells all instruction strings of one length apart if and only if that length does not wrap around to a length that is compared |
| `EhFrameMerge.CieTable.LookUp` | bfd/elf-eh-frame.c:1288-1321 | The CIE is merged exactly if the table holds an equal one, with the kept CIE as its target; otherwise it is kept and recorded |
| `EhFrameMerge.CieTable.FindMergedCie` | bfd/elf-eh-frame.c:1199-1322 | A merged CIE points straight to a kept one with an equal key, and a later call returns the same answer and changes nothing |
| `EhFrameValues.ReadSleb128` | bfd/elf-eh-frame.c:121-137 | The signed number that the bytes stand for, modulo 2^64 |
| `EhFrameValues.SlebExamples` | bfd/elf-eh-frame.c:121-137 | The signed examples of the DWARF standard |
| `EhFrameSame.EqualMeans` | bfd/elf-eh-frame.c:216-247 | CIEs that cie_eq takes for equal have the same length, version, letters and encodings, and their bytes give the same alignment factors, return register and augmentation size; they have the same personality routine and output section, and the same instructions if those are fewer than 256 bytes |
| `EhFrameSame.EqualIff` | bfd/elf-eh-frame.c:216-247 | With fewer than 256 bytes of instructions cie_eq takes two CIEs for equal if and only if their bytes say the same and the instructions are at most 50 bytes |
| `EhFrameMerge.CieTable.KeepEntry` | bfd/elf-eh-frame.c:1490-1548 | A live FDE is kept and refers to what stands for its CIE, a dead one stays removed, and a terminator is kept only in the last section |
| `EhFrameMerge.CieTable.KeepEntries` | bfd/elf-eh-frame.c:1489-1548 | So for all entries of a section, whatever other sections did before; kept CIEs are those that kept FDEs refer to, their personality pointers are made pc-relative if and only if they are absolute in a shared link and bound there, and a merged CIE has passed its LSDA conversion on |
| `EhFrameMerge.CieTable.MergingIsSound` | bfd/elf-eh-frame.c:1199-1322 | At any time what stands for a CIE that has been decided is that CIE, or a kept one that cie_eq takes for equal on what the parser recorded of both |
| `EhFrameMerge.CieTable.MergingIsComplete` | bfd/elf-eh-frame.c:1288-1321 | Two recorded CIEs that cie_eq takes for equal end up as one, wherever they were |
| `EhFrameDiscard.ReferenceIsSound` | bfd/elf-eh-frame.c:1199-1322 | A kept FDE's reference is a kept CIE that is its own or that cie_eq takes for equal on the recorded fields |
| `EhFrameDiscard.EqualCiesAreShared` | bfd/elf-eh-frame.c:1199-1322 | Two kept FDEs share a CIE if and only if they had the same one or their CIEs are equal |
| `EhFrameDiscard.WhatIsKept` | bfd/elf-eh-frame.c:1489-1548 | After the pass a terminator is kept if and only if its section is the last, an FDE if and only if it has a CIE and its code is still there, and a CIE if and only if a kept FDE of the link refers to it |
| `EhFrameLinkShares.SharedIff` | bfd/elf-eh-frame.c:1199-1322 | Two kept FDEs, whose CIEs have fewer than 256 bytes of instructions, share a CIE in the output if and only if they had the same one, or their CIEs can be compared, say the same in their bytes and personality routines, and have at most 50 bytes of instructions |
| `EhFrameDiscard.DiscardSection` | bfd/elf-eh-frame.c:1466-1600 | One section: its entries are sifted, the kept ones are exactly where the layout loop puts them, the size is the new one, and the result says whether anything changed |
| `EhFrameDiscard.Link.DiscardAll` | bfd/elf-eh-frame.c:1466-1600 | After the discard pass over all inputs every section is sifted, with its kept entries where the layout loop puts them, and every kept FDE refers to a kept CIE that stands for its own |
| `EhFrameFde.FdeLength` | bfd/elf-eh-frame.c:1974-1975 | The length word leads to the next entry |
| `EhFrameFde.FdePointsToCie` | bfd/elf-eh-frame.c:2103-2107 | The CIE pointer, counted back from its own position, leads to the kept CIE, also in another input section |
| `EhFrameFde.ShiftKeepsTarget` | bfd/elf-eh-frame.c:2115-2141 | A pointer shifted by the opposite of its move keeps its target modulo its width |
| `EhFrameFde.InitialLocationKept` | bfd/elf-eh-frame.c:2112-2141 | A nonzero initial location keeps its absolute target, whether it was pc-relative or becomes so; a zero one stays zero (that readers take it so is EhFrameFdeReads.FdeReadsThrough) |
| `EhFrameFde.RangeKept` | bfd/elf-eh-frame.c:2112-2187 | The address range is not touched |
| `EhFrameFde.LsdaKept` | bfd/elf-eh-frame.c:2162-2179 | A nonzero LSDA pointer keeps its absolute target |
| `EhFrameFde.SetLocKept` | bfd/elf-eh-frame.c:2189-2217 | Without an inserted byte, nonzero set_loc arguments keep their targets |
| `EhFrameSetLoc.SetLocSurvivesIff` | bfd/elf-eh-frame.c:2180-2217 | Where a byte is inserted, the patch is applied one byte early: the DW_CFA_set_loc and its target survive if and only if the new place of its argument is zero modulo the argument's width, in either byte order |
| `EhFrameSetLoc.SetLocSpoiled` | bfd/elf-eh-frame.c:2180-2217 | A small FDE for which they do not |
| `EhFrameFde.InstructionBytesKept` | bfd/elf-eh-frame.c:2180-2187 | Every byte past the range that no patch is for is found at the mapped offset |
| `EhFrameFde.PaddingIsNops` | bfd/elf-eh-frame.c:1977-1979 | What follows the edited instructions is nops |
| `EhFrameFde.PatchFde` | bfd/elf-eh-frame.c:2094-2218 | The loop body for an FDE, in the buffer, writes exactly the edited FDE |
| `EhFrameCie.PcRelativeKeepsWidth` | bfd/elf-eh-frame.c:449-466 | Making an absolute encoding pc-relative changes its application only: the stored width and the indirect bit stay |
| `EhFrameCie.WalkLetters` | bfd/elf-eh-frame.c:2034-2091 | The loop over the augmentation letters, in the buffer |
| `EhFrameCie.PatchCie` | bfd/elf-eh-frame.c:1981-2093 | The loop body for a CIE, in the buffer, writes exactly the edited CIE |
| `EhFrameCieParse.ReadAugmentation` | bfd/elf-eh-frame.c:797-843 | The parser's loop over the letters finds the encodings, the personality pointer and the end of the data that ReadLetters gives, and fails where it fails |
| `EhFrameEncodings.LettersAre` | bfd/elf-eh-frame.c:797-843 | The letters and applications, and how long the string may be |
| `EhFrameCieKept.PlaceFound` | bfd/elf-eh-frame.c:2000-2012 | In a CIE that parses, skipping three numbers and one byte for the size leads to the letters' data if and only if it is older than version 4, the last byte of its return register, unless it ends the CIE, is below 0x80, and so is the augmentation size, if there is one |
| `EhFrameCieKept.SyncedWalk` | bfd/elf-eh-frame.c:2034-2091 | The loop over the letters, whatever they are, is never asked for more than the CIE has, and its data pointer ends no further than where the parser found the instructions, plus what was inserted |
| `EhFrameCieKept.WalkReads` | bfd/elf-eh-frame.c:2034-2091 | What the parser's loop finds in the data that the write pass leaves, for any letters in any order: each letter's encoding converted exactly while its conversion was still to be done |
| `EhFrameCieKept.PointerInWalk` | bfd/elf-eh-frame.c:2046-2077 | The personality pointer that the parser finds has been moved if and only if that was asked for and no other P comes before it |
| `EhFrameCieKept.PointerKeptIff` | bfd/elf-eh-frame.c:2046-2077 | Moved or not, it keeps its target if and only if it was moved where that was asked for, or there was nothing to add modulo its width |
| `EhFrameCieKept.AugmentedIs` | bfd/elf-eh-frame.c:1981-2093 | For every CIE that parses, whatever its letters, if the data is found and padding is as long at the new place, the edit can be made, and gives what the insertions and the walk give |
| `EhFrameCieReads.EditIsRight` | bfd/elf-eh-frame.c:1981-2093 | The edited CIE is parsed with exactly the converted encodings, and its personality pointer has the target it had, if and only if the string is short enough, an L or R that is to be converted occurs once, and so does P unless nothing is to be added to its pointer |
| `EhFrameCieReads.EditedSize` | bfd/elf-eh-frame.c:2007-2012 | The raised augmentation size is read back as one byte if and only if it is still below 0x80 |
| `EhFrameCieReads.CieReadsTheSame` | bfd/elf-eh-frame.c:1981-2093 | Under these conditions the edited CIE is parsed with the new letters, the converted encodings and the same instructions, the inserted bytes further on; a CIE in which nothing is to be done, whatever its version, letters and size, is parsed as it was |
| `EhFrameCieReads.PersonalityKept` | bfd/elf-eh-frame.c:2046-2077 | The personality pointer that the parser found keeps its absolute target, or its value if it is not relative |
| `EhFrameCieReads.CieInstructionsKept` | bfd/elf-eh-frame.c:2015-2019 | Every byte from where the parser found the instructions is found at the mapped offset |
| `EhFrameCieReads.NewCieMisplaced` | bfd/elf-eh-frame.c:2000-2006 | A CIE of version 4 for which the place is wrong |
| `EhFrameCieReads.HighRegisterMisplaced` | bfd/elf-eh-frame.c:2000-2006 | A CIE of version 1 with a return register above 0x7f for which it is wrong |
| `EhFrameCieReads.LongSizeMisplaced` | bfd/elf-eh-frame.c:2007-2012 | A CIE of version 1 with an augmentation size of two bytes for which the place is wrong |
| `EhFrameCieReads.RepeatedLetter` | bfd/elf-eh-frame.c:2034-2091 | A CIE with two R letters, edited: the write pass converts the first, the parser keeps the second, and reads absolute addresses as before |
| `EhFrameCieReads.AlignmentIsExact` | bfd/elf-eh-frame.c:2053-2057 | The padding before an aligned personality pointer is as long at the new place if and only if the pointer moves by a multiple of its width |
| `EhFrameCieLaws.SpliceInserts` | bfd/elf-eh-frame.c:2015-2032 | The two overlapping memmoves and the stores insert the new letters and the new data at their places and lose nothing |
| `EhFrameCieLaws.WalkByte` | bfd/elf-eh-frame.c:2034-2091 | The letters change only the data they are for |
| `EhFrameCieLaws.CieLength` | bfd/elf-eh-frame.c:1974-1975 | The length word of an edited CIE leads to the next entry |
| `EhFrameCieLaws.HeadUntouched` | bfd/elf-eh-frame.c:2000-2001 | The length, id and version are not touched by the edit of the augmentation |
| `EhFrameWrite.WriteEntry` | bfd/elf-eh-frame.c:1970-2218 | One iteration edits its entry in its own room and leaves all others alone |
| `EhFrameWrite.WriteSection` | bfd/elf-eh-frame.c:1941-2219 | After all three loops every kept entry's edited bytes are at its new offset |
| `EhFrameWrite.WalkVisitsKept` | bfd/elf-eh-frame.c:1954-1979 | Walking the section by length words visits exactly the kept entries and ends at the new size |
| `EhFrameWrite.WorkListIsChained` | bfd/elf-eh-frame.c:1972-1975 | Each entry's room reaches to the next kept one; a terminator is last |
| `EhFrameWrite.SectionIsWellFormed` | bfd/elf-eh-frame.c:1906-2225 | A section laid out and written so is walked by length words over exactly its kept entries |
| `EhFrameFdeReads.SameParts` | bfd/elf-eh-frame.c:932-979 | A parser of the output, with the edited CIE, finds the widths, the LSDA pointer and the instructions of an edited FDE where they are, with or without an augmentation size |
| `EhFrameFdeReads.FdeReadsThrough` | bfd/elf-eh-frame.c:2094-2218 | An edited FDE, read through its CIE as edited, has the initial location, range, LSDA target, instructions and set_loc targets that it had through its CIE before |
| `EhFrameRecorded.CieJobIsOk` | bfd/elf-eh-frame.c:848-893 | From what the parser records and the layout gives, if the data is found and padding is as long, a CIE can be edited |
| `EhFrameRecorded.RecordsConvert` | bfd/elf-eh-frame.c:848-893 | What the parser records makes only absolute encodings relative, and adds an R only where there is none |
| `EhFrameRecorded.EqualConversions` | bfd/elf-eh-frame.c:216-247 | CIEs that cie_eq takes for equal have the same letters and encodings, and are converted alike in a link that treats all inputs alike |
| `EhFrameLink.WriteInput` | bfd/elf-eh-frame.c:1906-2225 | Given what the parser guarantees of all entries, what the discard pass leaves, and, of kept entries only, that a CIE to be edited has its data where the pass looks and that an LSDA pointer ends inside its FDE, the write pass over one input puts every kept entry's edited bytes at its new offset |
| `EhFrameLink.InputWalks` | bfd/elf-eh-frame.c:1906-2225 | The output of an input is walked by length words over exactly its kept entries, ending at the new size |
| `EhFrameLink.WriteLink` | bfd/elf-eh-frame.c:1906-2225 | In the state that the discard pass over all inputs leaves, the write pass over each: every section holds exactly its kept entries, edited, and is a walkable .eh_frame |
| `EhFrameLinkMeans.FdeLeadsToCie` | bfd/elf-eh-frame.c:2103-2107 | In the output each kept FDE's CIE pointer leads to the edited bytes of a kept CIE of the same output section |
| `EhFrameLinkMeans.CieMeansTheSame` | bfd/elf-eh-frame.c:1981-2093 | In the output each kept CIE for which the edit is right is parsed as what it was, with the new letters and encodings, the same instructions and the same personality target |
| `EhFrameLinkMeans.FdeMeansTheSame` | bfd/elf-eh-frame.c:1199-2225 | In the output each kept FDE's pointer leads to a CIE of the same output section through which the FDE has the initial location, range, LSDA target, instructions and set_loc targets that it had in its input through its own CIE, also if that CIE was merged into one of another input; and that CIE is found with the version, alignment factors and return register of its own, and with its initial instructions, followed by nops (if they are fewer than 256 bytes) |
| `EhFrameLinkShares.FdeRoutineIsTheSame` | bfd/elf-eh-frame.c:1199-2091 | And the personality pointer of that CIE leads to the routine of the FDE's own CIE, if the relocated contents of the CIE that was kept point at its routine |
| `EhFrameValues.FactorsKept` | bfd/elf-eh-frame.c:1981-2093 | An edited CIE has the alignment factors and the return register that it had, where its new string puts them |
| `LineAddLaws.LocalHeadIsSpot` | bfd/dwarf2.c:1527-1533 | In a sorted list the place below lcl_head, if it fits, is the place that a scan from the top finds |
| `LineAddLaws.ShortcutIsScan` | bfd/dwarf2.c:1485-1556 | Over any run of calls, insertion at lcl_head gives the lists that a scan from the top gives |
| `LineAddLaws.OrderIff` | bfd/dwarf2.c:1516-1533 | All lists stay sorted from high to low by address and op_index if and only if no end-of-sequence row was below the rows it ends |
| `LineAddLaws.EndIsLast` | bfd/dwarf2.c:1502-1521 | An end-of-sequence row is the last line of its sequence |
| `LineAddLaws.RowsConserved` | bfd/dwarf2.c:1489-1556 | The lists hold exactly the submitted rows, except heads that a later equal row replaced |
| `LineAddLaws.LastOfEqualStays` | bfd/dwarf2.c:1489-1500 | A row with the address, op_index and end_sequence of the newest sequence\'s top row takes its place and changes nothing else; if any of the three differs, every row stays |
| `LineOrdered.LastIsReported` | bfd/dwarf2.c:1439-2527 | Of the consecutive rows of a rising sequence with one address, a lookup anywhere up to the next address reports the last one |
| `LineOrdered.OneSequenceReports` | bfd/dwarf2.c:1439-2527 | So it is when a single rising sequence has been added, sorted and looked up |
| `LineAddLaws.LowIsStored` | bfd/dwarf2.c:1509-1555 | low_pc is the address of a stored row |
| `LineAddLaws.LowAtMostLast` | bfd/dwarf2.c:1509-1555 | In sorted lists low_pc is at most the last address, which sorting the sequences relies on |
| `LineAddLaws.LowStaysLeast` | bfd/dwarf2.c:1527-1555 | low_pc stays the least address if and only if the row is not below it or goes in by a scan |
| `LineAddLaws.LowNotLeast` | bfd/dwarf2.c:1527-1533 | Two rows in falling order leave low_pc above the least address |
| `LineAdd.LineSequence.Scan` | bfd/dwarf2.c:1539-1551 | The scan finds the place below which the row goes |
| `LineAdd.LineTable.AddLineInfo` | bfd/dwarf2.c:1439-1558 | On the linked lists, add_line_info does what Add does to their contents |
| `LineSort.TrimOne` | bfd/dwarf2.c:1796-1815 | One iteration keeps the result disjoint and covers what was covered |
| `LineSort.Trim` | bfd/dwarf2.c:1792-1815 | Trimming and closing up in place leaves ordered, disjoint spans that cover the same addresses, each of which stays with the first element that had it |
| `LineSort.CopySequences` | bfd/dwarf2.c:1773-1788 | The array describes the list of sequences |
| `LineSort.SortLineSequences` | bfd/dwarf2.c:1754-1820 | Given low_pc at most the last address, the result is ordered, without overlaps, covers exactly the addresses covered before, each span is what is left of one of the sequences, and an address that several sequences span stays with the first of them: by low_pc, then by the higher last address, then by the higher op_index |
| `LineLookup.BuildLineInfoTable` | bfd/dwarf2.c:1709-1750 | The table is the list in rising order |
| `LineLookup.SearchSpans` | bfd/dwarf2.c:2474-2487 | The binary search finds the sequence that a linear scan finds |
| `LineLookup.SearchRows` | bfd/dwarf2.c:2496-2510 | The binary search finds the row that a scan finds, and mid + 1 is always in the array |
| `LineLookup.LookUpAddress` | bfd/dwarf2.c:2463-2528 | The two searches report exactly the row that linear scans find, and nothing otherwise |
| `LineLookup.FoundIffCovered` | bfd/dwarf2.c:2489-2527 | A row is reported if and only if the address is covered |
| `LineLookup.StoredRunIsReady` | bfd/dwarf2.c:1439-1558 | What add_line_info stores is what the lookup needs, also with low_pc raised by trimming |
| `LineLookup.ScannedIsStored` | bfd/dwarf2.c:2489-2527 | A row that is found is the row of the first stored sequence that spans that address, and the size reported is that of a range around it that goes to that sequence as a whole |
| `LineLookup.SortAndLookUp` | bfd/dwarf2.c:1754-2528 | After any run of calls without an end-of-sequence row below the rows it ends, sorting and looking up finds a row if and only if a stored sequence spans the address, and then the row of the first such sequence, in the order of SortLineSequences, with the size of the range up to its end that goes to it |
| `FuncTable.BestIsUnique` | bfd/dwarf2.c:2629-2632 | At most one function has the smallest range around an address, ties by position |
| `FuncTable.AnswerMeans` | bfd/dwarf2.c:2629-2710 | Nothing is found if and only if no range holds the address; otherwise the function has a range that does, no longer than any other, and is the one at the highest address among equals |
| `FuncTable.Populate` | bfd/dwarf2.c:2583-2604 | Each entry has bounds around all ranges of its function |
| `FuncTable.RaiseHighs` | bfd/dwarf2.c:2614-2623 | Each high becomes the greatest so far |
| `FuncTable.BuildTable` | bfd/dwarf2.c:2563-2627 | The table holds every function, sorted by low, with high watermarks |
| `FuncTable.SearchFirst` | bfd/dwarf2.c:2656-2671 | No function before the one found can contain the address |
| `FuncTable.ScanForward` | bfd/dwarf2.c:2678-2703 | The forward scan finds the best of all functions |
| `FuncTable.LookUpAddress` | bfd/dwarf2.c:2634-2710 | The function whose range around the address is smallest over all functions and ranges, ties included; none only if no range contains it |
| `DieNesting.RunSiblings` | bfd/dwarf2.c:3060-3313 | Scanning siblings with all that is below them leaves the stack at their level and records their callers |
| `DieNesting.ScanFindsCallers` | bfd/dwarf2.c:3051-3313 | For every tree of DIEs in preorder, each inlined subroutine's caller_func is its nearest enclosing function DIE |
| `DieNesting.CallersAreInnermost` | bfd/dwarf2.c:3117-3123 | Each function DIE's entry is the last of the function DIEs that it is nested in if it is an inlined subroutine, and none otherwise |
| `DieNesting.FindCaller` | bfd/dwarf2.c:3117-3123 | The nearest function on the stack below the level |
| `DieNesting.Descend` | bfd/dwarf2.c:3295-3312 | Going down keeps the stack below, also when it is doubled |
| `DieNesting.ScanUnit` | bfd/dwarf2.c:3039-3321 | The scan on the stack and the function list does what the scan of the tokens says |
| `FileCache.Ring.Insert` | bfd/cache.c:129-145 | The file becomes the most recently used member; lru_prev and lru_next stay inverse |
| `FileCache.Ring.Snip` | bfd/cache.c:149-160 | The file leaves the ring; the order of the others stays |
| `FileCache.Cache.FindVictim` | bfd/cache.c:188-207 | The least recently used cacheable member, or none if there is none |
| `FileCache.Cache.CloseOne` | bfd/cache.c:188-218 | It closes that member and saves its position; without one it succeeds and changes nothing |
| `FileCache.Cache.Init` | bfd/cache.c:495-508 | The limit is exceeded only if it was before, or if it had been reached and no member was cacheable |
| `FileCache.Cache.OpenFile` | bfd/cache.c:581-649 | A closed file is open again and in the ring; the limit is exceeded only if it was or no member was cacheable; exactly if two closes are needed, the first can be done and the second fails, the file stays open outside the ring, and otherwise ring members are exactly the open files |
| `FileCache.Cache.LookUp` | bfd/cache.c:237-275 | The file is open, most recently used, and stands where it was unless no seek was asked for; a failure leaves it where it was or astray; the limit is exceeded only if it was or no member was cacheable |
| `FileCache.Cache.Seek` | bfd/cache.c:286-293 | A seek leads where it leads without a cache, except that a failing one on a closed file may lose its position |
| `FileCache.Cache.Read` | bfd/cache.c:337-377 | Reads give what is at the position |
| `FileCache.Cache.CloseAll` | bfd/cache.c:555-564 | It ends with an empty ring and every file closed |
| `FileCache.Cache.RunAll` | bfd/cache.c:237-377 | Any run of reads, seeks and tells over any number of read-only files gives the results that CachedRun says, which are those of unlimited descriptors if no absolute seek fails; after it the limit is exceeded only if it was before or no member was cacheable then |
| `FileCache.CacheShowsIff` | bfd/cache.c:250-293 | Over any run the files stand where they would without a cache if and only if no absolute seek fails on a file that the cache has closed and that was not at its start |
| `FileCache.NeverShownIsPlain` | bfd/cache.c:250-377 | And then all results are those without a cache |
| `FileCache.SeekTellRead` | bfd/cache.c:277-377 | A seek to p from the start, the position or the end, a tell and a read: the position is p, and the bytes are those from p on |
| `FileCache.Cache.FailedSeekThenRead` | bfd/cache.c:250-377 | A run that shows it: a failing seek and a read, which gives the first bytes instead of those at the position |
| `FileCache.ReadChunks` | bfd/cache.c:337-377 | Reading in chunks gives what one read gives |
| `Leb128.UlebRoundTrip` | bfd/libbfd.c:1091-1122 | Reading a written number gives it back, with its length, whatever follows |
| `Leb128.UlebSize` | bfd/elf-attrs.c:28-39 | The predicted size is that of the written number |
| `Leb128.WriteUleb` | bfd/elf-attrs.c:129-143 | The buffer gets exactly the bytes of the number |
| `Leb128.SafeReadLeb128` | bfd/libbfd.c:1091-1122 | The value and the number of bytes read, never past the end |
| `ObjAttrs.SizeIgnoresOrder` | bfd/elf-attrs.c:86-112 | The size of the written attributes does not depend on the order of writing |
| `ObjAttrs.ArmOrderPermutes` | bfd/elf32-arm.c:9747-9760 | The ARM order permutes the known tags |
| `ObjAttrsBytes.ArmOrderIs` | bfd/elf32-arm.c:9747-9760 | Tag_conformance is written first, Tag_nodefaults second, and the others in rising order |
| `ObjAttrsBytes.WrittenIff` | bfd/elf-attrs.c:42-56 | An attribute is written if and only if it is not in error and has a number that is not 0, a string that is not empty, or no default |
| `ObjAttrsBytes.WrittenAs` | bfd/elf-attrs.c:146-168 | It is its tag, then its number, then its string with a NUL, as its kind says |
| `ObjAttrsBytes.VendorLooks` | bfd/elf-attrs.c:171-204 | A vendor's part byte by byte: its size, its name, the tag for the file, the size of the rest, the attributes |
| `ObjAttrsBytes.SectionLooks` | bfd/elf-attrs.c:207-228 | The section: 'A', the processor's part, and that of "gnu" |
| `ObjAttrs.SizeIsExact` | bfd/elf-attrs.c:86-125 | The size functions predict exactly the bytes of the section, for any order that permutes the known tags |
| `ObjAttrsWrite.VendorObjAttrSize` | bfd/elf-attrs.c:86-112 | The method computes that size from the array and the list |
| `ObjAttrsWrite.Writer.VendorSetContents` | bfd/elf-attrs.c:171-204 | One vendor's bytes are appended |
| `ObjAttrsWrite.SetObjAttrContents` | bfd/elf-attrs.c:207-228 | The buffer holds exactly the bytes of the section, so that the final size check holds |
| `ObjAttrsLaws.EntryAt` | bfd/elf-attrs.c:516-570 | Reading a written attribute gives it back, and the position after it |
| `ObjAttrsLaws.FileAt` | bfd/elf-attrs.c:516-570 | Reading a written list gives its attributes that are not default |
| `ObjAttrsRestored.AddKeepsOrder` | bfd/elf-attrs.c:231-266 | Adding an attribute keeps the list in order of tags |
| `ObjAttrsRestored.KnownAdded` | bfd/elf-attrs.c:231-340 | Adding known attributes in any order sets each of them and no other |
| `ObjAttrsRestored.OthersAdded` | bfd/elf-attrs.c:231-340 | Adding an ordered list gives that list |
| `ObjAttrsRestored.AddedIsRestored` | bfd/elf-attrs.c:231-340 | Adding all written attributes to a fresh object restores them |
| `ObjAttrsRoundTrip.RoundTrip` | bfd/elf-attrs.c:431-581 | Parsing the written section into a fresh object restores every attribute that is not default and the ordered list of the others, for both vendors and any order of writing |
| `ObjAttrsReader.AddObjAttr` | bfd/elf-attrs.c:231-340 | On the array and the linked list, adding an attribute does what AddAttr says |
| `ObjAttrsBytes.ReadTwice` | bfd/elf-attrs.c:231-340 | An attribute that is read twice has the kind of the second one, and of number and string what was read last; no other changes |
| `ObjAttrsReader.ReadEntries` | bfd/elf-attrs.c:516-570 | The loop over a file subsection |
| `ObjAttrsReader.ReadSubsections` | bfd/elf-attrs.c:492-577 | The loop over a vendor's subsections |
| `ObjAttrsReader.ParseAttributes` | bfd/elf-attrs.c:431-581 | On any bytes, _bfd_elf_parse_attributes leaves the object that Parse describes |
| `ObjAttrsBytes.GnuEntryIs` | bfd/elf-attrs.c:397-410 | Of the GNU attributes even tags are read as numbers, odd ones as strings, and Tag_compatibility as both |
| `ObjAttrsBytes.OtherVendorSkipped` | bfd/elf-attrs.c:460-577 | The part of a vendor that is neither the processor's nor "gnu" changes nothing |
| `ObjAttrsBytes.OtherSubsectionSkipped` | bfd/elf-attrs.c:563-570 | Nor does a subsection for sections or symbols |
| `ArchiveFormat.ScanDecimal` | bfd/archive.c:334-349 | A written decimal is read back up to the first byte that is not a digit |
| `ArchiveFormat.HeaderReads` | bfd/archive.c:386-426 | A written header is read back with its size |
| `ArchiveFormat.ShortNameReadsBack` | bfd/archive.c:428-486 | A name in the header is read back if and only if no NUL is among the first 15 bytes, it is not 15 characters with a blank, and it is not "#1" before a left-over digit |
| `ArchiveNames.BasenameIsLast` | bfd/archive.c:1200-1204 | The name is what follows the last slash |
| `ArchiveNames.OffsetStands` | bfd/archive.c:1465-1548 | At a member's offset the table has that member's name and its end, also when it shares an entry |
| `ArchiveBytes.NameFieldLooks` | bfd/archive.c:1381-1552 | A name of at most 15 bytes is in the header with a slash after it; a longer one is there as a slash, the decimal digits of its offset and blanks |
| `ArchiveNames.CleanNames` | bfd/archive.c:1127-1147 | The loop over the table, in place |
| `ArchiveNames.NameSurvives` | bfd/archive.c:1127-1147 | A name in the table is read back if and only if it has no newline and no backslash, and no slash where its end is looked for |
| `ArchiveNames.LongNameReadsBack` | bfd/archive.c:334-367 | The decimal index in a header leads to the member's name under exactly that condition |
| `ArchiveTable.SizeNames` | bfd/archive.c:1381-1456 | The first pass computes the length of the table and puts short names into their headers |
| `ArchiveTable.FillNames` | bfd/archive.c:1465-1552 | The second pass fills exactly that table and never writes past it |
| `ArchiveTable.ConstructNames` | bfd/archive.c:1365-1555 | Both passes: the table, and every member's name field |
| `ArchiveLayout.PositionIsLength` | bfd/archive.c:2190-2267 | The positions that the map writer computes are the lengths of what comes before, and even |
| `ArchiveLayout.MemberIsThere` | bfd/archive.c:1940-1984 | In the finished archive each member's header and data are at the computed position, thin or not, with or without a map and a name table |
| `ArchiveLayout.HeaderIsThere` | bfd/archive.c:2190-2267 | Reading a header at a computed position gives that member's header |
| `ArchiveRead.CarsymsAreBack` | bfd/archive.c:956-977 | The reader's loop gives back every symbol's name and offset |
| `ArchiveRead.WalkVisitsAll` | bfd/archive.c:681-710 | The next-member walk visits every member once, in order, and ends |
| `ArchiveOpen.FieldIsOrdinary` | bfd/archive.c:1033-1057 | A member's name field never looks like a second map's; it looks like a name table's only if the name is ARFILENAMES, and like a map's only if it is __.SYMDEF or "#1" before "20" and data that begin so |
| `ArchiveOpen.OpenFindsAll` | bfd/archive.c:719-800 | Opening a written archive finds its map, its name table and its first member if and only if there is a name table or the first member's field does not look like that of a name table nor, depending on whether there is a map, like that of a second map or of a map |
| `ArchiveFile.ComputeMap` | bfd/archive.c:2014-2166 | The map holds the exported symbols of the objects, in order, and the length of their names |
| `ArchiveFile.MapIsGrouped` | bfd/archive.c:2223-2267 | Entries are in the order of their members, so that the loop over the members writes them all |
| `ArchiveFile.WriteOffsets` | bfd/archive.c:2223-2267 | The offsets of all entries are written; it fails if and only if one needs more than 32 bits |
| `ArchiveFile.WriteArmap` | bfd/archive.c:2181-2287 | The map's bytes, if and only if its size and offsets fit |
| `ArchiveFile.WriteArchive` | bfd/archive.c:1855-2010 | The file holds the archive if and only if all sizes and offsets fit |
| `ArchiveBytes.MapWords` | bfd/archive.c:2223-2267 | In the file's bytes the word after the map's header, most significant byte first, is the number of symbols, and word i after it is where the header of a member is that exports symbol i |
| `ArchiveBytes.FileLooks` | bfd/archive.c:1940-1984 | The file starts with its magic string, and each member is at an even place: name, fields, size in decimal digits, end mark, data |
| `ArchiveBytes.MapLooks` | bfd/archive.c:2181-2287 | The map is a member called "/" right after the magic string: the count, the offsets, the names, and a NUL if that makes its length even |
| `ArchiveBytes.NameIsInside` | bfd/archive.c:2268-2276 | Each name is followed by a NUL and the next name |
| `ArchiveBytes.TableLooks` | bfd/archive.c:1920-1945 | The name table is a member called "//" after the map, with a newline if its length is odd |
| `ArchiveBytes.TextsAre` | bfd/archive.c:1033-1057 | The magic strings and reserved names |
| `ArchiveReader.BuildCarsyms` | bfd/archive.c:956-977 | The loop over the map, for any bytes |
| `ArchiveBytes.CountIsWord` | bfd/archive.c:915-955 | In any file the reader takes the count from the four bytes after the map's header, most significant byte first |
| `ArchiveBytes.CarsymIsWord` | bfd/archive.c:956-977 | And the offset of symbol i from the word after it |
| `ArchiveReader.WalkArchive` | bfd/archive.c:681-710 | The loop that asks for the next member, for any file |
| `ArchiveRoundTrip.SymbolIsInMap` | bfd/archive.c:2065-2133 | Every exported symbol of an object is in the map, for its member |
| `ArchiveRoundTrip.SymbolLeadsToMember` | bfd/archive.c:2223-2267 | Every offset in the map leads to the header of a member that exports that symbol |
| `ArchiveRoundTrip.ArchiveReadsBack` | bfd/archive.c:719-800 | A written archive opens with its (name, offset) list and name table under exactly that condition, and the walk visits its members once, in order |
| `ArchiveRoundTrip.MemberIsSwallowed` | bfd/archive.c:1083-1150 | Where it fails: an only member called ARFILENAMES is taken for the name table, the archive opens, and the member is gone |
| `ArchiveRoundTrip.DroppedIsSuffix` | bfd/archive.c:2040-2043 | Only members called __.SYMDEF at the head are dropped |
| `ArchiveRoundTrip.LongNameIsBack` | bfd/archive.c:1365-1555 | Each long name of a written archive is read back if and only if it survives the table |
| `ArchiveRoundTrip.ShortNameIsBack` | bfd/archive.c:428-486 | Each short name of a written archive is read back, with the exact exceptions |
| `MemFile.File.Read` | bfd/bfdio.c:411-429 | A read returns exactly the available slice |
| `MemFile.File.Write` | bfd/bfdio.c:431-458 | The bytes are written, all others kept, and in a writable file all past the size are zero |
| `MemFile.File.SeekTo` | bfd/bfdio.c:466-518 | A seek past the end of a writable file adds zeros; a failing one moves to the start or the end |
| `MemFile.Bread` | bfd/bfdio.c:126-166 | Reads through an archive element are cut to it |
| `MemFile.Bwrite` | bfd/bfdio.c:168-194 | Writes move the position |
| `MemFile.Seek` | bfd/bfdio.c:243-294 | Seeks are relative to the element, and tell whether they can be done |
| `MemFile.CallAll` | bfd/bfdio.c:126-294 | Any run of calls on a file and elements inside it does to the buffer what it does to a byte sequence with a position; a file not open for writing is written, but not past its end |
| `MemFile.EveryByteIsTheLastWritten` | bfd/bfdio.c:431-518 | After any run each byte is the last one written there, or zero |
| `MemFile.SizeNeverShrinks` | bfd/bfdio.c:431-518 | A file never shrinks, and without writes a read-only one does not change |
| `MemFile.ElementIsAWindow` | bfd/bfdio.c:126-166 | Through an element one reads exactly its bytes |
| `FlashDriver.Driver.WaitForFlashWrite` | agb_flash/agb_flash_1m.c:51-86 | It ends with the chip reading again, the memory changed in the operation's sector only, and 0 only if the byte is as expected |
| `FlashDriver.Driver.SwitchFlashBank` | agb_flash/agb_flash.c:23-29 | The command sequence selects the bank |
| `FlashDriver.CommandsAre` | agb_flash/agb_flash.c:23-29 | The command sequences for a bank, a byte and a sector, as bytes at addresses |
| `FlashDriver.WhereSectorIs` | agb_flash/agb_flash_mx.c:85-95 | Bank and offset of a sector number make up its address |
| `FlashDriver.SectorsCoverChip` | agb_flash/agb_flash_mx.c:11-31 | Each of the 128K bytes of the chip is in exactly one of 32 sectors of 4096 bytes, of which each bank has sixteen |
| `FlashDriver.Driver.EraseFlashSector` | agb_flash/agb_flash_mx.c:77-119 | At most five erases, of that sector only |
| `FlashDriver.OneByte` | agb_flash/agb_flash_mx.c:146-154 | Programming one byte changes its sector only, and programs the byte if the chip works |
| `FlashDriver.Driver.ProgramFlashSector` | agb_flash/agb_flash_mx.c:156-193 | Only that sector changes; with a chip that works it holds the source |
| `FlashDriver.Driver.VerifyFlashSectorCore` | agb_flash/agb_flash.c:175-184 | 0 if and only if all bytes are equal, otherwise the address of a byte that differs |
| `FlashDriver.Driver.VerifyFlashSector` | agb_flash/agb_flash.c:186-222 | 0 if and only if the sector holds the source |
| `FlashDriver.Driver.ProgramFlashSectorAndVerify` | agb_flash/agb_flash.c:260-277 | 0 implies that the sector equals the source, nothing else changes, there are at most three attempts with at most five erases each, and a chip that works gives 0 at once |

## Left out

- 32-bit wrap-around of section offsets and sizes, of map and name table sizes in archives, and of file positions.
- `.eh_frame`: the `.eh_frame_hdr` tables and compact entries, relocation cookies and symbol resolution (given as inputs), "eh" augmentations, and of the parser the loop over the entries of a section: that each entry was recorded as the reading of its CIE or FDE says is a condition on the input.
- EhFrameCieKept.PlaceFound: where the place is wrong, the condition and CIEs that fail are given, not what the edit makes of each of them.
- EhFrameLink.WriteLink: kept CIEs that are to be edited have their data where the pass looks and padding that the layout does not change (CanEdit), and the LSDA pointers of kept FDEs end inside them (LsdaFits), which the parser does not check. The contents are those after relocation, which comes between the two passes and is not part of this model, so this starts from the state that DiscardAll leaves.
- EhFrameLinkMeans.CieMeansTheSame: CIEs for which the edit is not right (Handled is the condition of EditIsRight and EditedSize, except that a P whose pointer moves by nothing may not be repeated) may mean something else.
- EhFrameLinkMeans.FdeMeansTheSame: the same of the CIE that the FDE leads to; the LSDA pointer ends inside the augmentation data, and there is no `DW_CFA_set_loc` where an augmentation size is inserted (FdeHandled); relocatable links, where the pointers are relocations, are left out.
- EhFrameLinkShares.FdeRoutineIsTheSame: that the relocated contents of a CIE point at its personality routine is a condition on the input.
- EhFrameLinkShares.SharedIff: CIEs with 256 bytes of instructions or more, whose length wraps around, may be merged although their instructions differ (InsnComparisonIsExact).
- EhFrameRecorded.EqualConversions: whether a back end can make pointers relative is taken to be the same for all inputs of a link.
- Line programs: `decode_line_info` is left out, and rows are its input; so are the look-up by symbol, across compilation units, and all DIE attributes other than nesting.
- qsort is any sorted permutation, so nothing depends on the order of elements that compare equal.
- The cache: writing, flushing, `stat` and `mmap`, the modes of `fopen`, and running out of descriptors at the operating system's limit.
- ObjAttrsRoundTrip.RoundTrip: for targets whose vendor name is "gnu" (there are none) the parser takes the second part for the first vendor's.
- Leb128.SafeReadLeb128: numbers of more than 64 bits, for which the source shifts too far, are read in full here.
- Object attributes: merging, copying between objects, and `_bfd_elf_merge_unknown_attribute_list`.
- Archives: BSD 4.4 names and maps, nested members of thin archives, the adjustment of relative paths (any function of the path here), date, owner and mode fields (32 given bytes), timestamps, members that change while they are written, and white space other than blanks or signs in decimal fields.
- MemFile.CallAll: a file that is not open for writing, written past its end; whether the store is inside the buffer then depends on how it was allocated.
- In-memory files: allocation failures, which lose the contents.
- FlashDriver.Driver.WaitForFlashWrite: the chip is taken to obey a reset at any time, also when the timer has run out, and to show the opposite of bit 7 while it is busy; an interrupt comes after any finite number of polls.
- Flash: chip identification, the whole-chip erase, single bytes and partial verification, reading, wait states, and the code that is copied to RAM.
- Errors of the operating system, `malloc` failures outside the flash driver, and error messages.
