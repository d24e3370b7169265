// The third loop of _bfd_elf_write_section_eh_frame, and the section that it
// leaves behind.

module EhFrameWrite {
  import opened Bytes
  import opened EhFrame
  import opened EhFrameLayout
  import opened EhFrameMove
  import opened EhFrameFde
  import opened EhFrameCie
  import opened EhFrameCieLaws

  // The edit of one entry.  The terminator is left alone.
  datatype Job =
    | CieWork(cie: CieJob)
    | FdeWork(fde: FdeJob)
    | NoWork(entry: Parsed, place: nat)
  {
    function P(): Parsed { match this case CieWork(c) => c.p case FdeWork(f) => f.p case NoWork(p, _) => p }

    function At(): nat {
      match this
      case CieWork(c) => c.newOffset
      case FdeWork(f) => f.newOffset
      case NoWork(_, i) => i
    }

    function Room(): nat {
      match this
      case CieWork(c) => c.newSize
      case FdeWork(f) => f.newSize
      case NoWork(p, _) => p.size
    }
  }

  // What the passes before this one have to provide for an entry with bytes b.
  predicate JobOk(job: Job, b: seq<Byte>, out: Output) {
    && |b| == job.P().size <= job.Room()
    && match job
       case CieWork(c) => c.Ok() && Walkable(Framed(out.endian, b + Zeros(c.newSize - |b|), c.p.size), c, out)
       case FdeWork(f) => f.Ok(out.ptrSize)
       case NoWork(_, _) => true
  }

  // The bytes that the entry gets.
  function Edit(job: Job, b: seq<Byte>, out: Output): (r: seq<Byte>)
    requires JobOk(job, b, out)
    ensures |r| == job.Room()
  {
    match job
    case CieWork(c) => EditCie(b + Zeros(c.newSize - |b|), c, out)
    case FdeWork(f) => EditFde(b + Zeros(f.newSize - |b|), f, out)
    case NoWork(_, _) => b
  }

  // Only the entry's own bytes matter to its edit.
  lemma FramedSame(e: Endian, b: seq<Byte>, c: seq<Byte>, size: nat)
    requires 4 <= size <= |b| == |c| && b[..size] == c[..size]
    ensures Framed(e, b, size) == Framed(e, c, size)
  {
    var l, r := Framed(e, b, size), Framed(e, c, size);
    forall j | 0 <= j < |b| ensures l[j] == r[j] {
      assert j < size ==> b[j] == b[..size][j] == c[j];
      FramedHead(e, b, c, size, j);
    }
  }

  lemma FramedHead(e: Endian, b: seq<Byte>, c: seq<Byte>, size: nat, j: nat)
    requires 4 <= size <= |b| == |c| && j < |b| && (j < size ==> b[j] == c[j])
    ensures Framed(e, b, size)[j] == Framed(e, c, size)[j]
  {
  }

  lemma EditFdeSame(job: FdeJob, out: Output, b: seq<Byte>, c: seq<Byte>)
    requires job.Ok(out.ptrSize) && |b| == |c| == job.newSize && b[..job.p.size] == c[..job.p.size]
    ensures EditFde(b, job, out) == EditFde(c, job, out)
  {
    FramedSame(out.endian, b, c, job.p.size);
    assert Pointed(b, job, out) == Pointed(c, job, out);
    assert WithInitial(b, job, out) == WithInitial(c, job, out);
    assert WithAugmentation(b, job, out) == WithAugmentation(c, job, out);
  }

  lemma EditCieSame(job: CieJob, out: Output, b: seq<Byte>, c: seq<Byte>)
    requires job.Ok() && |b| == |c| == job.newSize && b[..job.p.size] == c[..job.p.size]
    requires Walkable(Framed(out.endian, c, job.p.size), job, out)
    ensures Walkable(Framed(out.endian, b, job.p.size), job, out) && EditCie(b, job, out) == EditCie(c, job, out)
  {
    hide Walkable;
    FramedSame(out.endian, b, c, job.p.size);
  }

  // The loop body, on the block from this entry to the next.
  method PatchCieEntry(buf: Block, c: CieJob, out: Output, ghost b: seq<Byte>)
    requires |b| == c.p.size <= c.newSize && c.Ok()
    requires Walkable(Framed(out.endian, b + Zeros(c.newSize - |b|), c.p.size), c, out)
    requires buf.Valid() && buf.size == c.newSize && buf.bytes[..|b|] == b
    modifies buf.buffer, buf`bytes
    ensures buf.Valid() && buf.bytes == EditCie(b + Zeros(c.newSize - |b|), c, out)
  {
    hide EditCie, Walkable, Framed, CieJob.Ok;
    ghost var padded := b + Zeros(c.newSize - |b|);
    assert padded[..|b|] == b;
    EditCieSame(c, out, buf.bytes, padded);
    PatchCie(buf, c, out);
  }

  method PatchFdeEntry(buf: Block, f: FdeJob, out: Output, ghost b: seq<Byte>)
    requires |b| == f.p.size <= f.newSize && f.Ok(out.ptrSize)
    requires buf.Valid() && buf.size == f.newSize && buf.bytes[..|b|] == b
    modifies buf.buffer, buf`bytes
    ensures buf.Valid() && buf.bytes == EditFde(b + Zeros(f.newSize - |b|), f, out)
  {
    hide EditFde, FdeJob.Ok;
    ghost var padded := b + Zeros(f.newSize - |b|);
    assert padded[..|b|] == b;
    EditFdeSame(f, out, buf.bytes, padded);
    PatchFde(buf, f, out);
  }

  method PatchEntry(buf: Block, job: Job, out: Output, ghost b: seq<Byte>)
    requires JobOk(job, b, out) && !job.NoWork?
    requires buf.Valid() && buf.size == job.Room() && buf.bytes[..|b|] == b
    modifies buf.buffer, buf`bytes
    ensures buf.Valid() && buf.bytes == Edit(job, b, out)
  {
    hide EditFde, EditCie, Walkable, Framed, CieJob.Ok, FdeJob.Ok, Block.Valid, Zeros;
    match job
    case CieWork(c) => PatchCieEntry(buf, c, out, b);
    case FdeWork(f) => PatchFdeEntry(buf, f, out, b);
    case NoWork(_, _) =>
  }

  // ---------- the loop ----------

  // Each kept entry has room of its own, in order.
  ghost predicate Apart(jobs: seq<Job>, gone: seq<bool>, room: nat) {
    && |jobs| == |gone|
    && (forall i {:trigger jobs[i]} :: 0 <= i < |jobs| && !gone[i] ==>
          jobs[i].P().size <= jobs[i].Room() && jobs[i].At() + jobs[i].Room() <= room)
    && (forall i, j {:trigger jobs[i], jobs[j]} :: 0 <= i < j < |jobs| && !gone[i] && !gone[j] ==>
          jobs[i].At() + jobs[i].Room() <= jobs[j].At())
  }

  // Every kept entry has its edit possible on its original bytes.
  ghost predicate AllOk(jobs: seq<Job>, gone: seq<bool>, was: seq<Byte>, out: Output) {
    && |jobs| == |gone|
    && forall i {:trigger jobs[i]} :: 0 <= i < |jobs| && !gone[i] ==>
         && jobs[i].P().offset + jobs[i].P().size <= |was|
         && JobOk(jobs[i], Original(was, jobs[i].P()), out)
  }

  // The bytes that entry i has when the loop has done the first n entries.
  function Expected(jobs: seq<Job>, was: seq<Byte>, out: Output, n: nat, i: nat): seq<Byte>
    requires i < |jobs| && jobs[i].P().offset + jobs[i].P().size <= |was|
    requires JobOk(jobs[i], Original(was, jobs[i].P()), out)
  {
    if i < n then Edit(jobs[i], Original(was, jobs[i].P()), out) else Original(was, jobs[i].P())
  }

  ghost predicate Written(jobs: seq<Job>, gone: seq<bool>, out: Output, n: nat, was: seq<Byte>, now: seq<Byte>) {
    && AllOk(jobs, gone, was, out) && Apart(jobs, gone, |now|)
    && forall i {:trigger jobs[i]} :: 0 <= i < |jobs| && !gone[i] ==>
         HasAt(now, jobs[i].At(), Expected(jobs, was, out, n, i))
  }

  ghost predicate HasAt(now: seq<Byte>, at: nat, s: seq<Byte>) {
    at + |s| <= |now| && now[at..at + |s|] == s
  }

  lemma HasAtElsewhere(now: seq<Byte>, at: nat, s: seq<Byte>, k: nat, w: seq<Byte>)
    requires HasAt(now, at, s) && k + |w| <= |now| && (at + |s| <= k || k + |w| <= at)
    ensures HasAt(Splice(now, k, w), at, s)
  {
    SpliceElsewhere(now, k, w, at, at + |s|);
  }

  // Writing the edit of entry n in its own room does the entry.
  lemma WrittenStep(jobs: seq<Job>, gone: seq<bool>, out: Output, n: nat, was: seq<Byte>, now: seq<Byte>)
    requires Written(jobs, gone, out, n, was, now) && n < |jobs| && !gone[n]
    ensures Written(jobs, gone, out, n + 1, was,
                    Splice(now, jobs[n].At(), Edit(jobs[n], Original(was, jobs[n].P()), out)))
  {
    var w := Edit(jobs[n], Original(was, jobs[n].P()), out);
    var next := Splice(now, jobs[n].At(), w);
    forall i | 0 <= i < |jobs| && !gone[i]
      ensures HasAt(next, jobs[i].At(), Expected(jobs, was, out, n + 1, i))
    {
      if i == n {
        SpliceThere(now, jobs[n].At(), w);
      } else {
        assert HasAt(now, jobs[i].At(), Expected(jobs, was, out, n, i));
        HasAtElsewhere(now, jobs[i].At(), Expected(jobs, was, out, n, i), jobs[n].At(), w);
      }
    }
  }

  // One iteration.
  method WriteEntry(contents: array<Byte>, job: Job, out: Output,
                    ghost jobs: seq<Job>, ghost gone: seq<bool>, ghost n: nat, ghost was: seq<Byte>)
    requires n < |jobs| && job == jobs[n]
    requires Written(jobs, gone, out, n, was, contents[..]) && !gone[n]
    modifies contents
    ensures Written(jobs, gone, out, n + 1, was, contents[..])
  {
    ghost var now := contents[..];
    ghost var b := Original(was, job.P());
    WrittenStep(jobs, gone, out, n, was, now);
    if job.NoWork? {
      assert Splice(now, job.At(), b) == now;
      return;
    }
    var buf := new Block(contents, job.At(), job.Room());
    assert buf.bytes[..|b|] == now[job.At()..job.At() + |b|] == b;
    PatchEntry(buf, job, out, b);
  }

  // The work that the fields of an entry ask for.
  function JobOf(e: Entry, newSize: nat): Job
    requires e.parsed.Fde? && !e.parsed.Terminator() ==> e.cieInf != null && e.cieInf.link.InSection?
    reads e, e.cieInf
  {
    if e.parsed.Terminator() then NoWork(e.parsed, e.newOffset)
    else if e.parsed.Cie? then
      CieWork(CieJob(e.parsed, e.newOffset, newSize, e.makeLsdaRelative, e.makePerEncodingRelative,
                     e.perEncodingRelative))
    else
      FdeWork(FdeJob(e.parsed, e.newOffset, newSize,
                     e.cieInf.newOffset + e.cieInf.link.owner.outputOffset, e.cieInf.makeLsdaRelative))
  }

  // Every kept FDE has been pointed at a CIE with an owner.
  ghost predicate Linked(e: Entry)
    reads e, e.cieInf
  {
    !e.removed && e.parsed.Fde? && !e.parsed.Terminator() ==> e.cieInf != null && e.cieInf.link.InSection?
  }

  // Where the entry after k starts.
  function NextOf(sec: Section, k: nat): nat
    requires k < |sec.entries|
    reads sec, sec.entries
  {
    NextPlace(sec.Gone(), sec.Places(), sec.size, k)
  }

  // jobs[k] is the work of entry k of the section.
  ghost predicate IsWork(sec: Section, k: nat, job: Job)
    requires k < |sec.entries|
    reads sec, sec.entries, sec.entries[k].cieInf
  {
    var e := sec.entries[k];
    !e.removed ==> Linked(e) && e.newOffset <= NextOf(sec, k) && job == JobOf(e, NextOf(sec, k) - e.newOffset)
  }

  ghost predicate WorkList(sec: Section, jobs: seq<Job>)
    reads sec, sec.entries, (set e | e in sec.entries :: e.cieInf)
  {
    |jobs| == |sec.entries| && forall k {:trigger jobs[k]} :: 0 <= k < |jobs| ==> IsWork(sec, k, jobs[k])
  }

  lemma SkipStep(jobs: seq<Job>, gone: seq<bool>, out: Output, n: nat, was: seq<Byte>, now: seq<Byte>)
    requires Written(jobs, gone, out, n, was, now) && n < |jobs| && gone[n]
    ensures Written(jobs, gone, out, n + 1, was, now)
  {
    forall i | 0 <= i < |jobs| && !gone[i]
      ensures HasAt(now, jobs[i].At(), Expected(jobs, was, out, n + 1, i))
    {
      assert HasAt(now, jobs[i].At(), Expected(jobs, was, out, n, i));
    }
  }

  method TakeWork(sec: Section, k: nat) returns (job: Job)
    requires k < |sec.entries| && Linked(sec.entries[k]) && !sec.entries[k].removed
    requires sec.entries[k].newOffset <= NextOf(sec, k)
    ensures job == JobOf(sec.entries[k], NextOf(sec, k) - sec.entries[k].newOffset)
  {
    var next := NextCieFdeOffset(sec, k);
    job := JobOf(sec.entries[k], next - sec.entries[k].newOffset);
  }

  // One iteration of the loop, for a removed or a kept entry.
  method WriteStep(sec: Section, k: nat, contents: array<Byte>, out: Output,
                   ghost jobs: seq<Job>, ghost gone: seq<bool>, ghost was: seq<Byte>)
    requires k < |sec.entries| == |jobs| == |gone| && gone[k] == sec.entries[k].removed
    requires IsWork(sec, k, jobs[k]) && Written(jobs, gone, out, k, was, contents[..])
    modifies contents
    ensures Written(jobs, gone, out, k + 1, was, contents[..])
  {
    if sec.entries[k].removed {
      SkipStep(jobs, gone, out, k, was, contents[..]);
    } else {
      var job := TakeWork(sec, k);
      WriteEntry(contents, job, out, jobs, gone, k, was);
    }
  }

  // The third loop.
  method WriteEntries(sec: Section, contents: array<Byte>, out: Output, ghost jobs: seq<Job>, ghost was: seq<Byte>)
    requires WorkList(sec, jobs) && Written(jobs, sec.Gone(), out, 0, was, contents[..])
    modifies contents
    ensures Written(jobs, sec.Gone(), out, |jobs|, was, contents[..])
  {
    ghost var gone := sec.Gone();
    for k := 0 to |sec.entries|
      invariant Written(jobs, gone, out, k, was, contents[..])
    {
      assert IsWork(sec, k, jobs[k]) && gone[k] == sec.entries[k].removed;
      WriteStep(sec, k, contents, out, jobs, gone, was);
    }
  }

  // The work is on the entries where the layout put them.
  ghost predicate SamePlaces(jobs: seq<Job>, ps: seq<Parsed>, gone: seq<bool>, places: seq<nat>) {
    && |jobs| == |ps| == |gone| == |places|
    && forall i {:trigger jobs[i]} :: 0 <= i < |jobs| && !gone[i] ==> jobs[i].P() == ps[i] && jobs[i].At() == places[i]
  }

  // What the moves leave is where the loop starts.
  lemma MovedIsStart(jobs: seq<Job>, ps: seq<Parsed>, gone: seq<bool>, places: seq<nat>, out: Output,
                     was: seq<Byte>, now: seq<Byte>, size: nat)
    requires Holds(ps, gone, places, was, now) && |jobs| == |ps|
    requires AllOk(jobs, gone, was, out) && Apart(jobs, gone, size) && size <= |now|
    requires SamePlaces(jobs, ps, gone, places)
    ensures Written(jobs, gone, out, 0, was, now)
  {
    forall i | 0 <= i < |jobs| && !gone[i]
      ensures HasAt(now, jobs[i].At(), Expected(jobs, was, out, 0, i))
    {
      assert EhFrameMove.BytesAt(now, places[i], ps[i].size) == Original(was, ps[i]);
    }
  }

  // In a work list kept entries have the rooms that the layout gave them.
  lemma WorkIsApart(sec: Section, jobs: seq<Job>)
    requires WorkList(sec, jobs) && LaidOut(sec.Table(), sec.Gone(), sec.Places(), sec.size)
    requires forall i {:trigger sec.entries[i]} :: 0 <= i < |jobs| ==> sec.Table()[i].WellFormed()
    ensures Apart(jobs, sec.Gone(), sec.size)
    ensures SamePlaces(jobs, sec.Table(), sec.Gone(), sec.Places())
  {
    var ps, gone, places := sec.Table(), sec.Gone(), sec.Places();
    forall i | 0 <= i < |jobs| && !gone[i]
      ensures jobs[i].P() == ps[i] && jobs[i].At() == places[i]
      ensures jobs[i].P().size <= jobs[i].Room()
      ensures jobs[i].At() + jobs[i].Room() <= NextPlace(gone, places, sec.size, i)
    {
      assert IsWork(sec, i, jobs[i]);
      RoomToNext(ps, gone, places, sec.size, i);
    }
    forall i, j | 0 <= i < j < |jobs| && !gone[i] && !gone[j]
      ensures jobs[i].At() + jobs[i].Room() <= jobs[j].At()
    {
      NextIsBefore(ps, gone, places, sec.size, i, j);
    }
    forall i | 0 <= i < |jobs| && !gone[i]
      ensures jobs[i].At() + jobs[i].Room() <= sec.size
    {
      NextIsInside(ps, gone, places, sec.size, i);
    }
  }

  lemma RoomToNext(ps: seq<Parsed>, gone: seq<bool>, places: seq<nat>, size: nat, k: nat)
    requires LaidOut(ps, gone, places, size) && k < |ps| && !gone[k]
    ensures places[k] + ps[k].OutputSize() <= NextPlace(gone, places, size, k)
  {
    var n := NextKept(gone, k + 1);
    if n < |ps| {
      assert places[k] + ps[k].OutputSize() <= places[n];
    }
  }

  lemma NextIsBefore(ps: seq<Parsed>, gone: seq<bool>, places: seq<nat>, size: nat, k: nat, j: nat)
    requires LaidOut(ps, gone, places, size) && k < j < |ps| && !gone[k] && !gone[j]
    ensures NextPlace(gone, places, size, k) <= places[j]
  {
    var n := NextKept(gone, k + 1);
    if n < j {
      assert places[n] + ps[n].OutputSize() <= places[j];
    }
  }

  lemma NextIsInside(ps: seq<Parsed>, gone: seq<bool>, places: seq<nat>, size: nat, k: nat)
    requires LaidOut(ps, gone, places, size) && k < |ps|
    ensures NextPlace(gone, places, size, k) <= size
  {
    var n := NextKept(gone, k + 1);
    if n < |ps| {
      assert places[n] + ps[n].OutputSize() <= size;
    }
  }

  lemma MovableWork(sec: Section, jobs: seq<Job>, room: nat)
    requires WorkList(sec, jobs) && Movable(sec.Table(), sec.Gone(), sec.Places(), sec.size, room)
    ensures Apart(jobs, sec.Gone(), sec.size) && sec.size <= room && |jobs| == |sec.entries|
    ensures SamePlaces(jobs, sec.Table(), sec.Gone(), sec.Places())
  {
    hide Apart, SamePlaces, LaidOut;
    assert forall i {:trigger sec.entries[i]} :: 0 <= i < |jobs| ==> sec.Table()[i].WellFormed();
    WorkIsApart(sec, jobs);
  }

  // All three loops: every kept entry's edited bytes end up at its new offset.
  method WriteSection(sec: Section, contents: array<Byte>, out: Output, ghost jobs: seq<Job>)
    requires Movable(sec.Table(), sec.Gone(), sec.Places(), sec.size, contents.Length)
    requires WorkList(sec, jobs) && AllOk(jobs, sec.Gone(), contents[..], out)
    modifies contents
    ensures Written(jobs, sec.Gone(), out, |jobs|, old(contents[..]), contents[..])
  {
    hide *;
    ghost var was := contents[..];
    MovableWork(sec, jobs, contents.Length);
    MoveEntries(sec, contents);
    MovedIsStart(jobs, sec.Table(), sec.Gone(), sec.Places(), out, was, contents[..], sec.size);
    WriteEntries(sec, contents, out, jobs, was);
  }

  // ---------- the section that is left ----------

  // A reader that follows the length words of an `.eh_frame` section from `at`
  // visits exactly the given positions, and ends at size or, with a zero length
  // word, at a terminator that is the last thing in the section.
  predicate Walks(e: Endian, c: seq<Byte>, at: nat, size: nat, stops: seq<nat>)
    requires size <= |c|
    decreases |stops|
  {
    if stops == [] then at == size
    else
      && stops[0] == at && at + 4 <= size
      && var length := ValueAt(e, c, at, 4);
         if length == 0 then |stops| == 1 && at + 4 == size
         else Walks(e, c, at + 4 + length, size, stops[1..])
  }

  // The new offsets of the kept entries, from entry k on.
  function KeptFrom(jobs: seq<Job>, gone: seq<bool>, k: nat): (s: seq<nat>)
    requires k <= |jobs| == |gone|
    decreases |jobs| - k
  {
    if k == |jobs| then []
    else if gone[k] then KeptFrom(jobs, gone, k + 1)
    else [jobs[k].At()] + KeptFrom(jobs, gone, k + 1)
  }

  // Where the next kept entry at or after k starts.
  function StartFrom(jobs: seq<Job>, gone: seq<bool>, size: nat, k: nat): nat
    requires k <= |jobs| == |gone|
  {
    var n := NextKept(gone, k);
    if n < |jobs| then jobs[n].At() else size
  }

  // The room of a kept entry reaches to the next; a terminator is last.
  ghost predicate ChainedAt(jobs: seq<Job>, gone: seq<bool>, size: nat, k: nat)
    requires k < |jobs| == |gone|
  {
    !gone[k] ==>
      && jobs[k].At() + jobs[k].Room() == StartFrom(jobs, gone, size, k + 1) <= size
      && (if jobs[k].NoWork? then jobs[k].Room() == 4 && NextKept(gone, k + 1) == |jobs| else 4 < jobs[k].Room())
  }

  ghost predicate Chained(jobs: seq<Job>, gone: seq<bool>, size: nat) {
    |jobs| == |gone| && forall k {:trigger ChainedAt(jobs, gone, size, k)} :: 0 <= k < |jobs| ==>
      ChainedAt(jobs, gone, size, k)
  }

  // Sizes fit a length word.
  ghost predicate Small(jobs: seq<Job>, gone: seq<bool>)
    requires |jobs| == |gone|
  {
    forall k {:trigger jobs[k]} :: 0 <= k < |jobs| && !gone[k] ==> jobs[k].Room() - 4 < Power256(4)
  }

  // Each kept entry starts with a length word that says how much room it has.
  ghost predicate Led(jobs: seq<Job>, gone: seq<bool>, e: Endian, c: seq<Byte>)
    requires |jobs| == |gone|
  {
    forall k {:trigger jobs[k]} :: 0 <= k < |jobs| && !gone[k] ==>
      4 <= jobs[k].Room() && jobs[k].At() + 4 <= |c| && ValueAt(e, c, jobs[k].At(), 4) == jobs[k].Room() - 4
  }

  // A terminator has the length word that the parser saw: zero.
  ghost predicate ZeroTerminators(jobs: seq<Job>, gone: seq<bool>, was: seq<Byte>, e: Endian)
    requires |jobs| == |gone|
  {
    forall k {:trigger jobs[k]} :: 0 <= k < |jobs| && !gone[k] && jobs[k].NoWork? ==>
      jobs[k].P().offset + 4 <= |was| && ValueAt(e, was, jobs[k].P().offset, 4) == 0
  }

  lemma EditLength(job: Job, b: seq<Byte>, out: Output, r: seq<Byte>)
    requires JobOk(job, b, out) && !job.NoWork? && r == Edit(job, b, out)
    ensures 4 <= |r| == job.Room() && ValueAt(out.endian, r, 0, 4) == (job.Room() - 4) % Power256(4)
  {
    hide EditCie, EditFde, Walkable, Framed, Power256;
    if job.CieWork? {
      CieLength(b + Zeros(job.cie.newSize - |b|), job.cie, out);
    } else {
      FdeLength(b + Zeros(job.fde.newSize - |b|), job.fde, out);
    }
  }

  // A block's value in the section that holds it.
  lemma ValueInside(e: Endian, now: seq<Byte>, at: nat, r: seq<Byte>)
    requires HasAt(now, at, r) && 4 <= |r|
    ensures at + 4 <= |now| && ValueAt(e, now, at, 4) == ValueAt(e, r, 0, 4)
  {
    assert r[0..4] == now[at..at + |r|][0..4] == now[at..at + 4];
  }

  // Following one length word that is not zero.
  lemma WalkOn(e: Endian, c: seq<Byte>, at: nat, room: nat, size: nat, rest: seq<nat>)
    requires size <= |c| && 4 < room && at + 4 <= size && ValueAt(e, c, at, 4) == room - 4
    requires Walks(e, c, at + room, size, rest)
    ensures Walks(e, c, at, size, [at] + rest)
  {
    assert ([at] + rest)[1..] == rest;
  }

  // Every written entry's length word says how much room the entry has.
  lemma WorkLeads(job: Job, b: seq<Byte>, out: Output, now: seq<Byte>, r: seq<Byte>)
    requires JobOk(job, b, out) && !job.NoWork? && r == Edit(job, b, out)
    requires HasAt(now, job.At(), r) && 0 <= job.Room() - 4 < Power256(4)
    ensures job.At() + 4 <= |now| && ValueAt(out.endian, now, job.At(), 4) == job.Room() - 4
  {
    hide EditCie, EditFde, Walkable, Framed, CieJob.Ok, FdeJob.Ok;
    EditLength(job, b, out, r);
    ValueInside(out.endian, now, job.At(), r);
    RemainderIs(job.Room() - 4, Power256(4), 0, job.Room() - 4);
  }

  // A terminator's word is the zero it was.
  lemma TerminatorLeads(e: Endian, was: seq<Byte>, p: Parsed, now: seq<Byte>, at: nat)
    requires p.size == 4 && p.offset + 4 <= |was| && ValueAt(e, was, p.offset, 4) == 0
    requires HasAt(now, at, Original(was, p))
    ensures at + 4 <= |now| && ValueAt(e, now, at, 4) == 0
  {
    ValueInside(e, now, at, Original(was, p));
    SameValue(e, Original(was, p), 0, was, p.offset, 4);
  }

  lemma WrittenLeads(jobs: seq<Job>, gone: seq<bool>, out: Output, was: seq<Byte>, now: seq<Byte>, size: nat)
    requires Written(jobs, gone, out, |jobs|, was, now) && Chained(jobs, gone, size) && Small(jobs, gone)
    requires ZeroTerminators(jobs, gone, was, out.endian)
    ensures Led(jobs, gone, out.endian, now)
  {
    forall k | 0 <= k < |jobs| && !gone[k]
      ensures 4 <= jobs[k].Room() && jobs[k].At() + 4 <= |now|
      ensures ValueAt(out.endian, now, jobs[k].At(), 4) == jobs[k].Room() - 4
    {
      var b := Original(was, jobs[k].P());
      assert HasAt(now, jobs[k].At(), Expected(jobs, was, out, |jobs|, k));
      assert ChainedAt(jobs, gone, size, k);
      if jobs[k].NoWork? {
        TerminatorLeads(out.endian, was, jobs[k].P(), now, jobs[k].At());
      } else {
        WorkLeads(jobs[k], b, out, now, Edit(jobs[k], b, out));
      }
    }
  }

  // From entry k on, the walk visits exactly the kept entries.
  predicate VisitsFrom(jobs: seq<Job>, gone: seq<bool>, e: Endian, c: seq<Byte>, size: nat, k: nat)
    requires k <= |jobs| == |gone| && size <= |c|
  {
    Walks(e, c, StartFrom(jobs, gone, size, k), size, KeptFrom(jobs, gone, k))
  }

  lemma VisitTerminator(jobs: seq<Job>, gone: seq<bool>, e: Endian, c: seq<Byte>, size: nat, k: nat)
    requires Chained(jobs, gone, size) && size <= |c| && Led(jobs, gone, e, c)
    requires k < |jobs| && !gone[k] && jobs[k].NoWork?
    ensures VisitsFrom(jobs, gone, e, c, size, k)
  {
    assert ChainedAt(jobs, gone, size, k);
    NoneKept(jobs, gone, k + 1);
    assert KeptFrom(jobs, gone, k) == [jobs[k].At()];
  }

  lemma VisitWork(jobs: seq<Job>, gone: seq<bool>, e: Endian, c: seq<Byte>, size: nat, k: nat)
    requires k < |jobs| == |gone| && size <= |c| && !gone[k] && VisitsFrom(jobs, gone, e, c, size, k + 1)
    requires 4 < jobs[k].Room() && jobs[k].At() + jobs[k].Room() == StartFrom(jobs, gone, size, k + 1) <= size
    requires ValueAt(e, c, jobs[k].At(), 4) == jobs[k].Room() - 4
    ensures VisitsFrom(jobs, gone, e, c, size, k)
  {
    WalkOn(e, c, jobs[k].At(), jobs[k].Room(), size, KeptFrom(jobs, gone, k + 1));
  }

  lemma VisitNext(jobs: seq<Job>, gone: seq<bool>, e: Endian, c: seq<Byte>, size: nat, k: nat)
    requires Chained(jobs, gone, size) && size <= |c| && Led(jobs, gone, e, c) && k < |jobs|
    requires VisitsFrom(jobs, gone, e, c, size, k + 1)
    ensures VisitsFrom(jobs, gone, e, c, size, k)
  {
    if !gone[k] {
      assert ChainedAt(jobs, gone, size, k);
      if jobs[k].NoWork? {
        VisitTerminator(jobs, gone, e, c, size, k);
      } else {
        VisitWork(jobs, gone, e, c, size, k);
      }
    }
  }

  // Walking the section by its length words visits exactly the kept entries, in
  // order, and ends at the section's new size.
  lemma {:induction false} WalkVisitsKept(jobs: seq<Job>, gone: seq<bool>, e: Endian, c: seq<Byte>, size: nat, k: nat)
    requires Chained(jobs, gone, size) && size <= |c| && Led(jobs, gone, e, c) && k <= |jobs|
    ensures VisitsFrom(jobs, gone, e, c, size, k)
    decreases |jobs| - k
  {
    if k < |jobs| {
      WalkVisitsKept(jobs, gone, e, c, size, k + 1);
      VisitNext(jobs, gone, e, c, size, k);
    }
  }

  lemma {:induction false} NoneKept(jobs: seq<Job>, gone: seq<bool>, k: nat)
    requires k <= |jobs| == |gone| && NextKept(gone, k) == |gone|
    ensures KeptFrom(jobs, gone, k) == []
    decreases |jobs| - k
  {
    if k < |jobs| {
      NoneKept(jobs, gone, k + 1);
    }
  }

  // "Any terminating FDE must be at the end of the section."
  predicate TerminatorIsLast(ps: seq<Parsed>, gone: seq<bool>) {
    |ps| == |gone| && forall k :: 0 <= k < |ps| && !gone[k] && ps[k].Terminator() ==> NextKept(gone, k + 1) == |ps|
  }

  lemma TerminatorIsAtTheEnd(ps: seq<Parsed>, gone: seq<bool>)
    requires InFileOrder(ps) && |ps| == |gone|
    ensures TerminatorIsLast(ps, gone)
  {
    assert forall k :: 0 <= k < |ps| && ps[k].Terminator() ==> k + 1 == |ps|;
  }

  // After a last terminator the section needs no padding.
  lemma TerminatorEnds(ps: seq<Parsed>, gone: seq<bool>, ptrSize: PtrSize, k: nat)
    requires k < |ps| == |gone| && !gone[k] && ps[k].Terminator() && NextKept(gone, k + 1) == |ps|
    ensures NewSize(ps, gone, ptrSize) == Place(ps, gone, ptrSize, k) + 4
  {
    LayoutIsTight(ps, gone, ptrSize, k);
  }

  // The work at places that the layout chose is chained.
  lemma WorkIsChained(jobs: seq<Job>, ps: seq<Parsed>, gone: seq<bool>, places: seq<nat>, size: nat, ptrSize: PtrSize,
                      k: nat)
    requires PlacedBy(ps, gone, places, size, ptrSize) && TerminatorIsLast(ps, gone) && |jobs| == |ps|
    requires k < |ps| && !gone[k] && ps[k].WellFormed()
    requires jobs[k].P() == ps[k] && jobs[k].At() == places[k] && (jobs[k].NoWork? <==> ps[k].Terminator())
    requires !jobs[k].NoWork? ==> jobs[k].At() + jobs[k].Room() == NextPlace(gone, places, size, k)
    requires var n := NextKept(gone, k + 1); n < |ps| ==> jobs[n].At() == places[n]
    ensures ChainedAt(jobs, gone, size, k)
  {
    LayoutIsOrdered(ps, gone, ptrSize, places);
    NextIsInside(ps, gone, places, size, k);
    RoomToNext(ps, gone, places, size, k);
    if ps[k].Terminator() {
      TerminatorEnds(ps, gone, ptrSize, k);
    }
  }

  // The first kept entry is at the start of the section.
  lemma StartsAtZero(jobs: seq<Job>, ps: seq<Parsed>, gone: seq<bool>, places: seq<nat>, size: nat, ptrSize: PtrSize)
    requires PlacedBy(ps, gone, places, size, ptrSize) && |jobs| == |ps|
    requires var n := NextKept(gone, 0); n < |ps| ==> jobs[n].At() == places[n]
    ensures StartFrom(jobs, gone, size, 0) == 0
  {
    if NextKept(gone, 0) < |ps| {
      LayoutStartsAtZero(ps, gone, ptrSize);
    } else {
      RunningOverGap(ps, gone, ptrSize, 0, |ps|);
    }
  }

  // Facts of one row of a work list.
  lemma WorkRow(sec: Section, jobs: seq<Job>, k: nat)
    requires WorkList(sec, jobs) && k < |jobs| && !sec.Gone()[k]
    ensures jobs[k].P() == sec.Table()[k] && jobs[k].At() == sec.Places()[k]
    ensures jobs[k].NoWork? <==> sec.Table()[k].Terminator()
    ensures !jobs[k].NoWork? ==>
              jobs[k].At() + jobs[k].Room() == NextPlace(sec.Gone(), sec.Places(), sec.size, k)
  {
    assert IsWork(sec, k, jobs[k]);
  }

  lemma WorkListIsChained(sec: Section, jobs: seq<Job>, ptrSize: PtrSize)
    requires WorkList(sec, jobs) && PlacedBy(sec.Table(), sec.Gone(), sec.Places(), sec.size, ptrSize)
    requires InFileOrder(sec.Table())
    ensures Chained(jobs, sec.Gone(), sec.size) && StartFrom(jobs, sec.Gone(), sec.size, 0) == 0
  {
    var ps, gone, places := sec.Table(), sec.Gone(), sec.Places();
    TerminatorIsAtTheEnd(ps, gone);
    forall k | 0 <= k < |jobs| ensures ChainedAt(jobs, gone, sec.size, k) {
      if !gone[k] {
        WorkRow(sec, jobs, k);
        if NextKept(gone, k + 1) < |ps| {
          WorkRow(sec, jobs, NextKept(gone, k + 1));
        }
        WorkIsChained(jobs, ps, gone, places, sec.size, ptrSize, k);
      }
    }
    if NextKept(gone, 0) < |ps| {
      WorkRow(sec, jobs, NextKept(gone, 0));
    }
    StartsAtZero(jobs, ps, gone, places, sec.size, ptrSize);
  }

  // The written section is well formed: a reader that starts at 0 and follows the
  // length words visits exactly the kept entries and ends at the new size.
  lemma SectionIsWellFormed(sec: Section, jobs: seq<Job>, out: Output, was: seq<Byte>, now: seq<Byte>)
    requires WorkList(sec, jobs) && PlacedBy(sec.Table(), sec.Gone(), sec.Places(), sec.size, out.ptrSize)
    requires InFileOrder(sec.Table())
    requires Written(jobs, sec.Gone(), out, |jobs|, was, now) && sec.size <= |now|
    requires Small(jobs, sec.Gone()) && ZeroTerminators(jobs, sec.Gone(), was, out.endian)
    ensures Walks(out.endian, now, 0, sec.size, KeptFrom(jobs, sec.Gone(), 0))
  {
    WorkListIsChained(sec, jobs, out.ptrSize);
    WrittenLeads(jobs, sec.Gone(), out, was, now, sec.size);
    WalkVisitsKept(jobs, sec.Gone(), out.endian, now, sec.size, 0);
  }
}
