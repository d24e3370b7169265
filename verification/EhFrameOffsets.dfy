// The two address maps of an edited section: _bfd_elf_eh_frame_section_offset,
// used for relocations, and offset_adjust, used for symbols.

module EhFrameOffsets {
  import opened Bytes
  import opened EhFrame
  import opened EhFrameLayout

  // ---------- finding an entry ----------

  predicate Inside(p: Parsed, offset: nat) {
    p.offset <= offset < p.offset + p.size
  }

  // Linear scan for the entry that contains offset; |ps| if there is none.
  function ScanInside(ps: seq<Parsed>, offset: nat, k: nat := 0): (n: nat)
    requires k <= |ps|
    ensures k <= n <= |ps|
    ensures n < |ps| ==> Inside(ps[n], offset)
    ensures forall i :: k <= i < n ==> !Inside(ps[i], offset)
    decreases |ps| - k
  {
    if k == |ps| || Inside(ps[k], offset) then k else ScanInside(ps, offset, k + 1)
  }

  // Linear scan for the last entry that starts at or before offset; the first
  // entry if there is none.
  function ScanLast(ps: seq<Parsed>, offset: nat, n: nat): (k: nat)
    requires 0 < n <= |ps|
    ensures k < n
    ensures forall i :: k < i < n ==> offset < ps[i].offset
    ensures ps[k].offset <= offset || k == 0
  {
    if n == 1 || ps[n - 1].offset <= offset then n - 1 else ScanLast(ps, offset, n - 1)
  }

  // The binary search of _bfd_elf_eh_frame_section_offset.
  method SearchInside(sec: Section, offset: nat) returns (mid: nat)
    requires InFileOrder(sec.Table())
    requires ScanInside(sec.Table(), offset) < |sec.entries|
    ensures mid == ScanInside(sec.Table(), offset)
  {
    ghost var ps := sec.Table();
    ghost var goal := ScanInside(ps, offset);
    var lo, hi := 0, |sec.entries|;
    mid := 0;
    while lo < hi
      invariant 0 <= lo <= goal < hi <= |ps|
    {
      mid := (lo + hi) / 2;
      var ent := sec.entries[mid].parsed;
      assert ent == ps[mid];
      if offset < ent.offset {
        hi := mid;
      } else if offset >= ent.offset + ent.size {
        lo := mid + 1;
      } else {
        OnlyOneInside(ps, offset, mid, goal);
        break;
      }
    }
  }

  // Entries do not overlap, so at most one contains a given offset.
  lemma OnlyOneInside(ps: seq<Parsed>, offset: nat, i: nat, j: nat)
    requires InFileOrder(ps) && i < |ps| && j < |ps|
    requires Inside(ps[i], offset) && Inside(ps[j], offset)
    ensures i == j
  {
    if i < j {
      assert false;
    } else if j < i {
      assert false;
    }
  }

  // The binary search of offset_adjust, which looks at the next entry's start
  // instead of this entry's end.
  method SearchLast(sec: Section, offset: nat) returns (mid: nat)
    requires InFileOrder(sec.Table()) && |sec.entries| > 0
    ensures mid == ScanLast(sec.Table(), offset, |sec.entries|)
  {
    ghost var ps := sec.Table();
    ghost var goal := ScanLast(ps, offset, |ps|);
    var lo, hi := 0, |sec.entries|;
    mid := 0;
    while lo < hi
      invariant 0 <= lo <= hi <= |ps|
      invariant lo <= goal && (goal < hi || (goal == 0 && hi == 0 && mid == 0))
      invariant hi < |ps| ==> offset < ps[hi].offset
    {
      mid := (lo + hi) / 2;
      var ent := sec.entries[mid].parsed;
      assert ent == ps[mid];
      if offset < ent.offset {
        hi := mid;
        BelowIsLater(ps, offset, goal, mid);
      } else if mid + 1 >= hi {
        StartedIsEarlier(ps, offset, goal, mid);
        break;
      } else if offset >= sec.entries[mid + 1].parsed.offset {
        assert ps[mid + 1].offset <= offset;
        StartedIsEarlier(ps, offset, goal, mid + 1);
        lo := mid + 1;
      } else {
        assert offset < ps[mid + 1].offset;
        StartedIsEarlier(ps, offset, goal, mid);
        BelowIsLater(ps, offset, goal, mid + 1);
        break;
      }
    }
  }

  lemma BelowIsLater(ps: seq<Parsed>, offset: nat, goal: nat, i: nat)
    requires InFileOrder(ps) && i < |ps|
    requires goal == ScanLast(ps, offset, |ps|) && offset < ps[i].offset
    ensures goal < i || (i == 0 && goal == 0)
  {
    if i < goal {
      assert false;
    }
  }

  lemma StartedIsEarlier(ps: seq<Parsed>, offset: nat, goal: nat, i: nat)
    requires i < |ps| && goal == ScanLast(ps, offset, |ps|) && ps[i].offset <= offset
    ensures i <= goal
  {
  }

  // ---------- the relocation map ----------

  // The answers of _bfd_elf_eh_frame_section_offset: -1, -2 or a new offset.
  datatype Mapped = Deleted | NoRuntimeReloc | At(offset: int)

  // What the map reads of an entry besides its parsed part.
  datatype Live = Live(removed: bool, newOffset: nat, perRelative: bool, lsdaRelative: bool)

  function LiveOf(e: Entry): Live
    reads e, e.cieInf
  {
    Live(e.removed, e.newOffset, e.makePerEncodingRelative,
         e.parsed.Fde? && e.cieInf != null && e.cieInf.makeLsdaRelative)
  }

  // The entry no longer needs a run-time relocation at this offset.
  predicate RelocGoesAway(p: Parsed, live: Live, offset: nat) {
    if p.Cie? then live.perRelative && offset == p.offset + 8 + p.personalityOffset
    else
      || (p.makeRelative && offset == p.offset + 8)
      || (live.lsdaRelative && offset == p.offset + 8 + p.lsdaOffset)
      || (p.makeRelative && IsSetLoc(p, offset))
  }

  // offset is one of the DW_CFA_set_loc arguments that the parser recorded.
  predicate IsSetLoc(p: Parsed, offset: nat)
    requires p.Fde?
  {
    exists i :: 0 <= i < |p.setLoc| && offset == p.offset + 8 + p.setLoc[i]
  }

  function MapOffset(p: Parsed, live: Live, offset: nat): Mapped {
    if live.removed then Deleted
    else if RelocGoesAway(p, live, offset) then NoRuntimeReloc
    else At(offset + live.newOffset - p.offset + p.Extra())
  }

  // The recorded set_loc arguments are in instruction order.
  predicate SetLocOrdered(p: Parsed) {
    p.Fde? ==> forall i, j :: 0 <= i < j < |p.setLoc| ==> p.setLoc[i] < p.setLoc[j]
  }

  method SectionOffset(sec: Section, offset: nat) returns (r: Mapped)
    requires InFileOrder(sec.Table())
    requires forall i {:trigger sec.entries[i]} :: 0 <= i < |sec.entries| ==> SetLocOrdered(sec.entries[i].parsed)
    // The source asserts that some entry contains the offset, and dereferences
    // the CIE of a kept FDE.
    requires offset < sec.rawSize ==> ScanInside(sec.Table(), offset) < |sec.entries|
    requires offset < sec.rawSize ==>
               var e := sec.entries[ScanInside(sec.Table(), offset)];
               !e.removed && e.parsed.Fde? ==> e.cieInf != null
    ensures r == if offset >= sec.rawSize then At(offset - sec.rawSize + sec.size)
                 else var e := sec.entries[ScanInside(sec.Table(), offset)];
                      MapOffset(e.parsed, LiveOf(e), offset)
  {
    if offset >= sec.rawSize {
      return At(offset - sec.rawSize + sec.size);
    }
    var mid := SearchInside(sec, offset);
    r := EntryOffset(sec.entries[mid], offset);
  }

  // The part after the search.
  method EntryOffset(ent: Entry, offset: nat) returns (r: Mapped)
    requires Inside(ent.parsed, offset) && SetLocOrdered(ent.parsed)
    requires !ent.removed && ent.parsed.Fde? ==> ent.cieInf != null
    ensures r == MapOffset(ent.parsed, LiveOf(ent), offset)
  {
    var p := ent.parsed;
    if ent.removed {
      return Deleted;
    }
    if p.Cie? && ent.makePerEncodingRelative && offset == p.offset + 8 + p.personalityOffset {
      return NoRuntimeReloc;
    }
    if p.Fde? && p.makeRelative && offset == p.offset + 8 {
      return NoRuntimeReloc;
    }
    if p.Fde? && ent.cieInf.makeLsdaRelative && offset == p.offset + 8 + p.lsdaOffset {
      return NoRuntimeReloc;
    }
    if p.Fde? && p.setLoc != [] && p.makeRelative && offset >= p.offset + 8 + p.setLoc[0] {
      var cnt := 0;
      while cnt < |p.setLoc|
        invariant 0 <= cnt <= |p.setLoc|
        invariant forall i :: 0 <= i < cnt ==> offset != p.offset + 8 + p.setLoc[i]
      {
        if offset == p.offset + 8 + p.setLoc[cnt] {
          return NoRuntimeReloc;
        }
        cnt := cnt + 1;
      }
    }
    return At(offset + ent.newOffset - p.offset + p.ExtraString() + p.ExtraData());
  }

  // A mapped offset is inside the entry's output extent.
  lemma MapStaysInside(p: Parsed, live: Live, offset: nat)
    requires p.WellFormed() && Inside(p, offset) && MapOffset(p, live, offset).At?
    ensures live.newOffset <= MapOffset(p, live, offset).offset < live.newOffset + p.OutputSize()
  {
  }

  // On kept entries the relocation map is strictly monotone.
  lemma MapIsMonotone(ps: seq<Parsed>, gone: seq<bool>, places: seq<nat>, size: nat,
                      lives: seq<Live>, i: nat, j: nat, o: nat, o': nat)
    requires InFileOrder(ps) && LaidOut(ps, gone, places, size) && |lives| == |ps|
    requires i < |ps| && j < |ps| && Inside(ps[i], o) && Inside(ps[j], o') && o < o'
    requires forall k :: 0 <= k < |ps| ==> lives[k].removed == gone[k] && lives[k].newOffset == places[k]
    requires MapOffset(ps[i], lives[i], o).At? && MapOffset(ps[j], lives[j], o').At?
    ensures MapOffset(ps[i], lives[i], o).offset < MapOffset(ps[j], lives[j], o').offset <= size
  {
    MapStaysInside(ps[i], lives[i], o);
    MapStaysInside(ps[j], lives[j], o');
    assert places[j] + ps[j].OutputSize() <= size;
    if i < j {
      assert places[i] + ps[i].OutputSize() <= places[j];
    }
  }

  // ---------- the symbol map ----------

  // The part of offset_adjust's delta that edits inside the entry cause, at a
  // distance rel from the entry's start.
  function InnerDelta(p: Parsed, rel: int, ptrSize: PtrSize): nat {
    match p
    case Cie(_, _, _, _, _, _, _, _, _, _, _) =>
      var extra := (if p.addAugmentationSize then 1 else 0) + (if p.addFdeEncoding then 1 else 0);
      if extra == 0 || rel <= 9 + p.augStrLen then 0
      else if rel <= 9 + p.augStrLen + p.augDataLen then extra
      else 2 * extra
    case Fde(_, _, _, _, _, _, _, _) =>
      var extra := if p.addAugmentationSize then 1 else 0;
      if rel <= 12 || extra == 0 || rel <= 8 + 2 * EncodedWidth(p.fdeEncoding, ptrSize) then 0
      else extra
  }

  // The part that the layout causes; None for a deleted entry, whose symbols
  // move to the next kept entry with no inner edits.
  function OuterDelta(e: Entry, sec: Section): int
    requires e.parsed.Cie? && e.removed && e.merged ==> e.link.MergedWith? && e.link.target.link.InSection?
    reads e, if e.link.MergedWith? then {e.link.target} else {}
  {
    if !e.removed || !(e.parsed.Cie? && e.merged) then e.newOffset - e.parsed.offset
    else e.link.target.newOffset + e.link.target.link.owner.outputOffset - e.parsed.offset - sec.outputOffset
  }

  method OffsetAdjust(sec: Section, offset: nat, ptrSize: PtrSize) returns (delta: int)
    requires InFileOrder(sec.Table())
    requires forall e :: e in sec.entries && e.parsed.Cie? && e.removed && e.merged ==>
               e.link.MergedWith? && e.link.target.link.InSection?
    ensures sec.entries == [] ==> delta == 0
    ensures sec.entries != [] ==>
              var k := ScanLast(sec.Table(), offset, |sec.entries|);
              var e := sec.entries[k];
              delta == if e.removed && !(e.parsed.Cie? && e.merged)
                       then NextPlace(sec.Gone(), sec.Places(), sec.size, k) - e.parsed.offset
                       else OuterDelta(e, sec) + InnerDelta(e.parsed, offset - e.parsed.offset, ptrSize)
  {
    if |sec.entries| == 0 {
      return 0;
    }
    var mid := SearchLast(sec, offset);
    var ent := sec.entries[mid];
    var p := ent.parsed;
    if !ent.removed {
      delta := ent.newOffset - p.offset;
    } else if p.Cie? && ent.merged {
      var cie := ent.link.target;
      delta := cie.newOffset + cie.link.owner.outputOffset - p.offset - sec.outputOffset;
    } else {
      var next := NextCieFdeOffset(sec, mid);
      return next - p.offset;
    }
    var rel := offset - p.offset;
    if p.Cie? {
      var extra := (if p.addAugmentationSize then 1 else 0) + (if p.addFdeEncoding then 1 else 0);
      if extra == 0 || rel <= 9 + p.augStrLen {
        return;
      }
      delta := delta + extra;
      if rel <= 9 + p.augStrLen + p.augDataLen {
        return;
      }
      delta := delta + extra;
    } else {
      var extra := if p.addAugmentationSize then 1 else 0;
      if rel <= 12 || extra == 0 {
        return;
      }
      var width := EncodedWidth(p.fdeEncoding, ptrSize);
      if rel <= 8 + 2 * width {
        return;
      }
      delta := delta + extra;
    }
  }

  // The last byte of an entry that is before all inserted augmentation bytes.
  function InsertionEnd(p: Parsed, ptrSize: PtrSize): nat {
    if p.Cie? then 9 + p.augStrLen + p.augDataLen
    else
      var width := EncodedWidth(p.fdeEncoding, ptrSize);
      if 8 + 2 * width < 12 then 12 else 8 + 2 * width
  }

  // The two maps agree at an offset of a kept entry exactly when nothing is
  // inserted in that entry or the offset is past the insertions.
  lemma MapsAgree(e: Entry, sec: Section, offset: nat, ptrSize: PtrSize)
    requires !e.removed && Inside(e.parsed, offset)
    requires MapOffset(e.parsed, LiveOf(e), offset).At?
    ensures MapOffset(e.parsed, LiveOf(e), offset).offset
              == offset + OuterDelta(e, sec) + InnerDelta(e.parsed, offset - e.parsed.offset, ptrSize)
            <==> e.parsed.Extra() == 0 || offset - e.parsed.offset > InsertionEnd(e.parsed, ptrSize)
  {
  }

  // For an offset inside an entry both searches find the same entry.
  lemma SearchesAgree(ps: seq<Parsed>, offset: nat)
    requires InFileOrder(ps) && ScanInside(ps, offset) < |ps|
    ensures ScanLast(ps, offset, |ps|) == ScanInside(ps, offset)
  {
    var i, k := ScanInside(ps, offset), ScanLast(ps, offset, |ps|);
    if i < k {
      assert false;
    }
  }
}
