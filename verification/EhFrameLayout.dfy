// The layout loop at the end of _bfd_elf_discard_section_eh_frame.

module EhFrameLayout {
  import opened Bytes
  import opened EhFrame

  // `(offset + align - 1) & -align`
  function AlignUp(x: nat, align: nat): (r: nat)
    requires align == 4 || align == 8
    ensures x <= r < x + align && r % align == 0
  {
    if align == 8 then (x + 7) / 8 * 8 else (x + 3) / 4 * 4
  }

  // The running offset when the loop reaches entry k.
  function Running(ps: seq<Parsed>, gone: seq<bool>, ptrSize: PtrSize, k: nat): nat
    requires k <= |ps| == |gone|
    decreases k, 0
  {
    if k == 0 then 0
    else if gone[k - 1] then Running(ps, gone, ptrSize, k - 1)
    else Place(ps, gone, ptrSize, k - 1) + ps[k - 1].OutputSize()
  }

  // The offset given to entry k, if it is kept.
  function Place(ps: seq<Parsed>, gone: seq<bool>, ptrSize: PtrSize, k: nat): nat
    requires k < |ps| == |gone|
    decreases k, 1
  {
    AlignUp(Running(ps, gone, ptrSize, k), ps[k].Alignment(ptrSize))
  }

  // The new size of the section.
  function NewSize(ps: seq<Parsed>, gone: seq<bool>, ptrSize: PtrSize): nat
    requires |ps| == |gone|
  {
    AlignUp(Running(ps, gone, ptrSize, |ps|), 4)
  }

  // Entry places, as the later passes need them: kept entries are in file order,
  // each has room for its edited form, and everything fits in the new size.
  ghost predicate LaidOut(ps: seq<Parsed>, gone: seq<bool>, places: seq<nat>, size: nat) {
    && |ps| == |gone| == |places|
    && (forall i {:trigger places[i]} :: 0 <= i < |ps| && !gone[i] ==> places[i] + ps[i].OutputSize() <= size)
    && (forall i, j {:trigger places[i], places[j]} :: 0 <= i < j < |ps| && !gone[i] && !gone[j]
          ==> places[i] + ps[i].OutputSize() <= places[j])
  }

  lemma {:induction false} RunningMonotone(ps: seq<Parsed>, gone: seq<bool>, ptrSize: PtrSize, j: nat, k: nat)
    requires j <= k <= |ps| == |gone|
    ensures Running(ps, gone, ptrSize, j) <= Running(ps, gone, ptrSize, k)
    decreases k
  {
    if j < k {
      RunningMonotone(ps, gone, ptrSize, j, k - 1);
    }
  }

  // The loop keeps the kept entries in order and apart.
  lemma LayoutIsOrdered(ps: seq<Parsed>, gone: seq<bool>, ptrSize: PtrSize, places: seq<nat>)
    requires |ps| == |gone| == |places|
    requires forall k {:trigger places[k]} :: 0 <= k < |ps| && !gone[k] ==> places[k] == Place(ps, gone, ptrSize, k)
    ensures LaidOut(ps, gone, places, NewSize(ps, gone, ptrSize))
  {
    forall i | 0 <= i < |ps| && !gone[i]
      ensures places[i] + ps[i].OutputSize() <= NewSize(ps, gone, ptrSize)
    {
      RunningMonotone(ps, gone, ptrSize, i + 1, |ps|);
    }
    forall i, j | 0 <= i < j < |ps| && !gone[i] && !gone[j]
      ensures places[i] + ps[i].OutputSize() <= places[j]
    {
      RunningMonotone(ps, gone, ptrSize, i + 1, j);
    }
  }

  // The first kept entry at or after k, or |gone|.
  function NextKept(gone: seq<bool>, k: nat): (n: nat)
    requires k <= |gone|
    ensures k <= n <= |gone|
    ensures forall i :: k <= i < n ==> gone[i]
    ensures n < |gone| ==> !gone[n]
    decreases |gone| - k
  {
    if k == |gone| || !gone[k] then k else NextKept(gone, k + 1)
  }

  // Where the entry after k starts (next_cie_fde_offset).
  function NextPlace(gone: seq<bool>, places: seq<nat>, size: nat, k: nat): nat
    requires k < |gone| == |places|
  {
    var n := NextKept(gone, k + 1);
    if n < |gone| then places[n] else size
  }

  lemma {:induction false} RunningOverGap(ps: seq<Parsed>, gone: seq<bool>, ptrSize: PtrSize, j: nat, k: nat)
    requires j <= k <= |ps| == |gone|
    requires forall i :: j <= i < k ==> gone[i]
    ensures Running(ps, gone, ptrSize, k) == Running(ps, gone, ptrSize, j)
  {
    if j < k {
      RunningOverGap(ps, gone, ptrSize, j, k - 1);
    }
  }

  // The first kept entry is put at 0.
  lemma LayoutStartsAtZero(ps: seq<Parsed>, gone: seq<bool>, ptrSize: PtrSize)
    requires |ps| == |gone| && NextKept(gone, 0) < |gone|
    ensures Place(ps, gone, ptrSize, NextKept(gone, 0)) == 0
  {
    RunningOverGap(ps, gone, ptrSize, 0, NextKept(gone, 0));
  }

  // The gap to the next entry, or to the end, is never more than alignment: no
  // bytes are lost between entries.
  lemma LayoutIsTight(ps: seq<Parsed>, gone: seq<bool>, ptrSize: PtrSize, k: nat)
    requires k < |ps| == |gone| && !gone[k]
    ensures var n := NextKept(gone, k + 1);
            var end := Place(ps, gone, ptrSize, k) + ps[k].OutputSize();
            (if n < |ps| then Place(ps, gone, ptrSize, n) else NewSize(ps, gone, ptrSize))
            == AlignUp(end, if n < |ps| then ps[n].Alignment(ptrSize) else 4)
  {
    var n := NextKept(gone, k + 1);
    RunningOverGap(ps, gone, ptrSize, k + 1, n);
    assert Running(ps, gone, ptrSize, k + 1) == Place(ps, gone, ptrSize, k) + ps[k].OutputSize();
  }

  // The places are the ones that the layout loop gives.
  ghost predicate PlacedBy(ps: seq<Parsed>, gone: seq<bool>, places: seq<nat>, size: nat, ptrSize: PtrSize) {
    && |ps| == |gone| == |places| && size == NewSize(ps, gone, ptrSize)
    && forall k {:trigger places[k]} :: 0 <= k < |ps| && !gone[k] ==> places[k] == Place(ps, gone, ptrSize, k)
  }

  // next_cie_fde_offset
  method NextCieFdeOffset(sec: Section, k: nat) returns (offset: nat)
    requires k < |sec.entries|
    ensures offset == NextPlace(sec.Gone(), sec.Places(), sec.size, k)
  {
    var i := k + 1;
    while i < |sec.entries|
      invariant k + 1 <= i <= |sec.entries|
      invariant NextKept(sec.Gone(), k + 1) == NextKept(sec.Gone(), i)
    {
      if !sec.entries[i].removed {
        return sec.entries[i].newOffset;
      }
      i := i + 1;
    }
    return sec.size;
  }

  // One iteration of the loop: align the running offset for a kept entry, place
  // the entry there and step over its output size.
  method PlaceEntry(sec: Section, k: nat, offset: nat, ptrSize: PtrSize) returns (next: nat, moved: bool)
    requires k < |sec.entries| && sec.Distinct()
    requires offset == Running(sec.Table(), sec.Gone(), ptrSize, k)
    modifies {sec.entries[k]}`newOffset
    ensures sec.Gone() == old(sec.Gone())
    ensures next == Running(sec.Table(), sec.Gone(), ptrSize, k + 1)
    ensures sec.Places() == old(sec.Places())[k := if sec.Gone()[k] then old(sec.Places())[k]
                                                   else Place(sec.Table(), sec.Gone(), ptrSize, k)]
    ensures moved <==> !sec.Gone()[k] && sec.Places()[k] != sec.Table()[k].offset
  {
    var ent := sec.entries[k];
    next, moved := offset, false;
    if !ent.removed {
      next := AlignUp(offset, ent.parsed.Alignment(ptrSize));
      ent.newOffset := next;
      if ent.newOffset != ent.parsed.offset {
        moved := true;
      }
      next := next + ent.parsed.OutputSize();
    }
  }

  // The places after the whole loop: kept entries get theirs, removed ones keep
  // whatever they had.
  function FinalPlaces(ps: seq<Parsed>, gone: seq<bool>, ptrSize: PtrSize, was: seq<nat>): (p: seq<nat>)
    requires |ps| == |gone| == |was|
    ensures |p| == |ps|
    ensures forall k {:trigger p[k]} :: 0 <= k < |ps| ==>
              p[k] == if gone[k] then was[k] else Place(ps, gone, ptrSize, k)
  {
    seq(|was|, k requires 0 <= k < |was| => if gone[k] then was[k] else Place(ps, gone, ptrSize, k))
  }

  // Whether a kept entry among the first k is not where it was in the input.
  ghost predicate Moved(ps: seq<Parsed>, gone: seq<bool>, places: seq<nat>, k: nat)
    requires k <= |ps| == |gone| == |places|
  {
    exists i :: 0 <= i < k && !gone[i] && places[i] != ps[i].offset
  }

  lemma MovedStep(ps: seq<Parsed>, gone: seq<bool>, places: seq<nat>, k: nat)
    requires k < |ps| == |gone| == |places|
    ensures Moved(ps, gone, places, k + 1)
            <==> Moved(ps, gone, places, k) || (!gone[k] && places[k] != ps[k].offset)
  {
  }

  lemma MixStep<T>(done: seq<T>, todo: seq<T>, k: nat)
    requires k < |done| == |todo|
    ensures (done[..k] + todo[k..])[k := done[k]] == done[..k + 1] + todo[k + 1..]
  {
  }

  // The second loop of _bfd_elf_discard_section_eh_frame.
  method PlaceEntries(sec: Section, ptrSize: PtrSize) returns (offset: nat, changed: bool)
    requires sec.Distinct()
    modifies (set e | e in sec.entries)`newOffset
    ensures sec.Gone() == old(sec.Gone())
    ensures sec.Places() == FinalPlaces(sec.Table(), sec.Gone(), ptrSize, old(sec.Places()))
    ensures offset == Running(sec.Table(), sec.Gone(), ptrSize, |sec.entries|)
    ensures changed <==> Moved(sec.Table(), sec.Gone(), sec.Places(), |sec.entries|)
  {
    offset, changed := 0, false;
    ghost var ps, gone, was := sec.Table(), sec.Gone(), sec.Places();
    ghost var want := FinalPlaces(ps, gone, ptrSize, was);
    for k := 0 to |sec.entries|
      invariant sec.Gone() == gone
      invariant offset == Running(ps, gone, ptrSize, k)
      invariant sec.Places() == want[..k] + was[k..]
      invariant changed <==> Moved(ps, gone, want, k)
    {
      MovedStep(ps, gone, want, k);
      var moved;
      offset, moved := PlaceEntry(sec, k, offset, ptrSize);
      changed := changed || moved;
      MixStep(want, was, k);
    }
    assert sec.Places() == want;
  }

  // The layout half of _bfd_elf_discard_section_eh_frame: give every kept entry
  // its new offset and the section its new size.
  method LayOut(sec: Section, ptrSize: PtrSize) returns (changed: bool)
    requires sec.Distinct()
    modifies sec, (set e | e in sec.entries)`newOffset
    ensures sec.Gone() == old(sec.Gone())
    ensures sec.Places() == FinalPlaces(sec.Table(), sec.Gone(), ptrSize, old(sec.Places()))
    ensures sec.rawSize == old(sec.size)
    ensures PlacedBy(sec.Table(), sec.Gone(), sec.Places(), sec.size, ptrSize)
    ensures LaidOut(sec.Table(), sec.Gone(), sec.Places(), sec.size)
    ensures changed <==> sec.size != sec.rawSize
                         || Moved(sec.Table(), sec.Gone(), sec.Places(), |sec.entries|)
  {
    var offset;
    offset, changed := PlaceEntries(sec, ptrSize);
    LayoutIsOrdered(sec.Table(), sec.Gone(), ptrSize, sec.Places());
    sec.rawSize := sec.size;
    sec.size := AlignUp(offset, 4);
    if sec.size != sec.rawSize {
      changed := true;
    }
  }
}
