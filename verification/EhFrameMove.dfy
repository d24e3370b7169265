// The two passes of _bfd_elf_write_section_eh_frame that slide the kept entries
// to their new offsets inside one buffer.

module EhFrameMove {
  import opened Bytes
  import opened EhFrame
  import opened EhFrameLayout

  // What the two passes rely on: the entries are in file order inside the
  // buffer, and the layout keeps the kept ones in order and apart.
  ghost predicate Movable(ps: seq<Parsed>, gone: seq<bool>, places: seq<nat>, size: nat, room: nat) {
    && InFileOrder(ps) && LaidOut(ps, gone, places, size) && size <= room
    && forall i :: 0 <= i < |ps| ==> ps[i].offset + ps[i].size <= room
  }

  // The original bytes of entry p.
  function Original(c: seq<Byte>, p: Parsed): seq<Byte>
    requires p.offset + p.size <= |c|
  {
    c[p.offset..p.offset + p.size]
  }

  // The bytes of a block of p.size bytes at a given place.
  function BytesAt(c: seq<Byte>, at: nat, size: nat): seq<Byte>
    requires at + size <= |c|
  {
    c[at..at + size]
  }

  // In `now`, every kept entry's bytes of `was` are at its place in `at`.
  ghost predicate Holds(ps: seq<Parsed>, gone: seq<bool>, at: seq<nat>, was: seq<Byte>, now: seq<Byte>) {
    && |ps| == |gone| == |at| && |was| == |now|
    && forall i {:trigger at[i]} :: 0 <= i < |ps| && !gone[i] ==>
         && at[i] + ps[i].size <= |now| && ps[i].offset + ps[i].size <= |was|
         && BytesAt(now, at[i], ps[i].size) == Original(was, ps[i])
  }

  // Moving one entry's bytes within the buffer keeps all the others', if the
  // destination meets none of them.
  lemma MoveOne(ps: seq<Parsed>, gone: seq<bool>, at: seq<nat>, was: seq<Byte>, now: seq<Byte>,
                k: nat, dst: nat)
    requires Holds(ps, gone, at, was, now) && k < |ps| && !gone[k]
    requires dst + ps[k].size <= |now|
    requires forall i :: 0 <= i < |ps| && !gone[i] && i != k ==>
               at[i] + ps[i].size <= dst || dst + ps[k].size <= at[i]
    ensures Holds(ps, gone, at[k := dst], was, Splice(now, dst, BytesAt(now, at[k], ps[k].size)))
  {
    var w := BytesAt(now, at[k], ps[k].size);
    var after := Splice(now, dst, w);
    forall i | 0 <= i < |ps| && !gone[i]
      ensures at[k := dst][i] + ps[i].size <= |after|
      ensures BytesAt(after, at[k := dst][i], ps[i].size) == Original(was, ps[i])
    {
      if i != k {
        SpliceElsewhere(now, dst, w, at[i], at[i] + ps[i].size);
      }
    }
  }

  // Where the kept entries' bytes are once the backward pass has reached entry k.
  function UpPlaces(ps: seq<Parsed>, gone: seq<bool>, places: seq<nat>, k: int): (at: seq<nat>)
    requires |ps| == |gone| == |places|
    ensures |at| == |ps|
    ensures forall i {:trigger at[i]} :: 0 <= i < |ps| ==>
              at[i] == if !gone[i] && i >= k && places[i] > ps[i].offset then places[i] else ps[i].offset
  {
    seq(|ps|, i requires 0 <= i < |ps| =>
                if !gone[i] && i >= k && places[i] > ps[i].offset then places[i] else ps[i].offset)
  }

  // Where they are once the forward pass has reached entry k.
  function DownPlaces(ps: seq<Parsed>, gone: seq<bool>, places: seq<nat>, k: int): (at: seq<nat>)
    requires |ps| == |gone| == |places|
    ensures |at| == |ps|
    ensures forall i {:trigger at[i]} :: 0 <= i < |ps| ==>
              at[i] == if !gone[i] && (i < k || places[i] > ps[i].offset) then places[i] else ps[i].offset
  {
    seq(|ps|, i requires 0 <= i < |ps| =>
                if !gone[i] && (i < k || places[i] > ps[i].offset) then places[i] else ps[i].offset)
  }

  // An upward move in the backward pass meets no other kept entry.
  lemma UpMoveIsClear(ps: seq<Parsed>, gone: seq<bool>, places: seq<nat>, size: nat, room: nat, k: nat)
    requires Movable(ps, gone, places, size, room)
    requires k < |ps| && !gone[k] && places[k] > ps[k].offset
    ensures var at := UpPlaces(ps, gone, places, k + 1);
            && places[k] + ps[k].size <= room
            && UpPlaces(ps, gone, places, k) == at[k := places[k]]
            && forall i :: 0 <= i < |ps| && !gone[i] && i != k ==>
                 at[i] + ps[i].size <= places[k] || places[k] + ps[k].size <= at[i]
  {
    var at := UpPlaces(ps, gone, places, k + 1);
    forall i | 0 <= i < |ps| && !gone[i] && i != k
      ensures at[i] + ps[i].size <= places[k] || places[k] + ps[k].size <= at[i]
    {
      if i < k {
        assert ps[i].offset + ps[i].size <= ps[k].offset;
      } else {
        assert places[k] + ps[k].OutputSize() <= places[i];
      }
    }
  }

  // A downward move in the forward pass meets no other kept entry.
  lemma DownMoveIsClear(ps: seq<Parsed>, gone: seq<bool>, places: seq<nat>, size: nat, room: nat, k: nat)
    requires Movable(ps, gone, places, size, room)
    requires k < |ps| && !gone[k] && places[k] < ps[k].offset
    ensures var at := DownPlaces(ps, gone, places, k);
            && places[k] + ps[k].size <= room
            && DownPlaces(ps, gone, places, k + 1) == at[k := places[k]]
            && forall i :: 0 <= i < |ps| && !gone[i] && i != k ==>
                 at[i] + ps[i].size <= places[k] || places[k] + ps[k].size <= at[i]
  {
    var at := DownPlaces(ps, gone, places, k);
    forall i | 0 <= i < |ps| && !gone[i] && i != k
      ensures at[i] + ps[i].size <= places[k] || places[k] + ps[k].size <= at[i]
    {
      if i < k {
        assert places[i] + ps[i].OutputSize() <= places[k];
      } else {
        assert ps[k].offset + ps[k].size <= ps[i].offset;
        assert places[k] + ps[k].OutputSize() <= places[i];
      }
    }
  }

  // One step of the backward pass, on values.
  lemma UpStep(ps: seq<Parsed>, gone: seq<bool>, places: seq<nat>, size: nat, was: seq<Byte>, now: seq<Byte>, k: nat)
    requires Movable(ps, gone, places, size, |now|) && k < |ps|
    requires !gone[k] && places[k] > ps[k].offset
    requires Holds(ps, gone, UpPlaces(ps, gone, places, k + 1), was, now)
    ensures places[k] + ps[k].size <= |now|
    ensures Holds(ps, gone, UpPlaces(ps, gone, places, k), was, Splice(now, places[k], Original(now, ps[k])))
  {
    hide Holds, UpPlaces;
    UpMoveIsClear(ps, gone, places, size, |now|, k);
    MoveOne(ps, gone, UpPlaces(ps, gone, places, k + 1), was, now, k, places[k]);
  }

  // Loop body of the backward pass, at the entry that the tables describe in row k.
  method MoveUp(ent: Entry, contents: array<Byte>, ghost ps: seq<Parsed>, ghost gone: seq<bool>,
                ghost places: seq<nat>, ghost size: nat, ghost k: nat, ghost was: seq<Byte>)
    requires Movable(ps, gone, places, size, contents.Length) && k < |ps|
    requires ent.parsed == ps[k] && ent.removed == gone[k] && ent.newOffset == places[k]
    requires Holds(ps, gone, UpPlaces(ps, gone, places, k + 1), was, contents[..])
    modifies contents
    ensures Holds(ps, gone, UpPlaces(ps, gone, places, k), was, contents[..])
  {
    if !ent.removed && ent.newOffset > ent.parsed.offset {
      ghost var now := contents[..];
      UpStep(ps, gone, places, size, was, now, k);
      MemMove(contents, ent.newOffset, ent.parsed.offset, ent.parsed.size);
      assert contents[..] == Splice(now, places[k], Original(now, ps[k]));
    } else {
      assert UpPlaces(ps, gone, places, k) == UpPlaces(ps, gone, places, k + 1);
    }
  }

  // One step of the forward pass, on values.
  lemma DownStep(ps: seq<Parsed>, gone: seq<bool>, places: seq<nat>, size: nat, was: seq<Byte>, now: seq<Byte>, k: nat)
    requires Movable(ps, gone, places, size, |now|) && k < |ps|
    requires !gone[k] && places[k] < ps[k].offset
    requires Holds(ps, gone, DownPlaces(ps, gone, places, k), was, now)
    ensures places[k] + ps[k].size <= |now|
    ensures Holds(ps, gone, DownPlaces(ps, gone, places, k + 1), was, Splice(now, places[k], Original(now, ps[k])))
  {
    hide Holds, DownPlaces;
    DownMoveIsClear(ps, gone, places, size, |now|, k);
    MoveOne(ps, gone, DownPlaces(ps, gone, places, k), was, now, k, places[k]);
  }

  // Loop body of the forward pass.
  method MoveDown(ent: Entry, contents: array<Byte>, ghost ps: seq<Parsed>, ghost gone: seq<bool>,
                  ghost places: seq<nat>, ghost size: nat, ghost k: nat, ghost was: seq<Byte>)
    requires Movable(ps, gone, places, size, contents.Length) && k < |ps|
    requires ent.parsed == ps[k] && ent.removed == gone[k] && ent.newOffset == places[k]
    requires Holds(ps, gone, DownPlaces(ps, gone, places, k), was, contents[..])
    modifies contents
    ensures Holds(ps, gone, DownPlaces(ps, gone, places, k + 1), was, contents[..])
  {
    if !ent.removed && ent.newOffset < ent.parsed.offset {
      ghost var now := contents[..];
      DownStep(ps, gone, places, size, was, now, k);
      MemMove(contents, ent.newOffset, ent.parsed.offset, ent.parsed.size);
      assert contents[..] == Splice(now, places[k], Original(now, ps[k]));
    } else {
      assert DownPlaces(ps, gone, places, k + 1) == DownPlaces(ps, gone, places, k);
    }
  }

  // After both passes every kept entry's original bytes are at its new offset.
  method MoveEntries(sec: Section, contents: array<Byte>)
    requires Movable(sec.Table(), sec.Gone(), sec.Places(), sec.size, contents.Length)
    modifies contents
    ensures Holds(sec.Table(), sec.Gone(), sec.Places(), old(contents[..]), contents[..])
  {
    ghost var ps, gone, places, was := sec.Table(), sec.Gone(), sec.Places(), contents[..];
    AllInPlace(ps, gone, places, sec.size, was);
    hide Holds, UpPlaces, DownPlaces;
    for k := |sec.entries| downto 0
      invariant Holds(ps, gone, UpPlaces(ps, gone, places, k), was, contents[..])
    {
      assert sec.Gone()[k] == gone[k] && sec.Places()[k] == places[k];
      MoveUp(sec.entries[k], contents, ps, gone, places, sec.size, k, was);
    }
    for k := 0 to |sec.entries|
      invariant Holds(ps, gone, DownPlaces(ps, gone, places, k), was, contents[..])
    {
      assert sec.Gone()[k] == gone[k] && sec.Places()[k] == places[k];
      MoveDown(sec.entries[k], contents, ps, gone, places, sec.size, k, was);
    }
    AllMoved(ps, gone, places, was, contents[..]);
  }

  // Before the backward pass, and between the passes.
  lemma AllInPlace(ps: seq<Parsed>, gone: seq<bool>, places: seq<nat>, size: nat, was: seq<Byte>)
    requires Movable(ps, gone, places, size, |was|)
    ensures Holds(ps, gone, UpPlaces(ps, gone, places, |ps|), was, was)
    ensures UpPlaces(ps, gone, places, 0) == DownPlaces(ps, gone, places, 0)
  {
  }

  // After the forward pass.
  lemma AllMoved(ps: seq<Parsed>, gone: seq<bool>, places: seq<nat>, was: seq<Byte>, now: seq<Byte>)
    requires |ps| == |gone| == |places| && Holds(ps, gone, DownPlaces(ps, gone, places, |ps|), was, now)
    ensures Holds(ps, gone, places, was, now)
  {
    assert forall i :: 0 <= i < |ps| && !gone[i] ==> DownPlaces(ps, gone, places, |ps|)[i] == places[i];
  }
}
