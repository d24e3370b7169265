// The file descriptor cache: a ring of open files, most recently used first, that
// closes and reopens files behind the caller's back.

module FileCache {
  import opened Bytes

  // A stdio stream: where it stands in the file.
  datatype Stream = Closed | Open(pos: nat)

  // `struct bfd`, as far as the cache uses it.  The file on disk does not change.
  class Bfd {
    const content: seq<Byte>
    var iostream: Stream
    var place: nat            // `where`
    var cacheable: bool
    var cached: bool          // iovec is &cache_iovec
    var lruPrev: Bfd?
    var lruNext: Bfd?

    // A file that has just been opened, before bfd_cache_init.
    constructor (content: seq<Byte>, cacheable: bool)
      ensures this.content == content && iostream == Open(0) && this.cacheable == cacheable && !cached
    {
      this.content, iostream, place, this.cacheable, cached := content, Open(0), 0, cacheable, false;
      lruPrev, lruNext := null, null;
    }
  }

  predicate Distinct(ring: seq<Bfd>) {
    forall i, j :: 0 <= i < j < |ring| ==> ring[i] != ring[j]
  }

  function Succ(ring: seq<Bfd>, i: nat): Bfd
    requires i < |ring|
  {
    if i + 1 < |ring| then ring[i + 1] else ring[0]
  }

  function Pred(ring: seq<Bfd>, i: nat): Bfd
    requires i < |ring|
  {
    if i > 0 then ring[i - 1] else ring[|ring| - 1]
  }

  // The links of the ring: lru_prev and lru_next lead round it in opposite ways.
  ghost predicate Linked(ring: seq<Bfd>)
    reads ring
  {
    && Distinct(ring)
    && (forall i {:trigger Succ(ring, i)} :: 0 <= i < |ring| ==> ring[i].lruNext == Succ(ring, i))
    && (forall i {:trigger Pred(ring, i)} :: 0 <= i < |ring| ==> ring[i].lruPrev == Pred(ring, i))
  }

  function Without(ring: seq<Bfd>, i: nat): (r: seq<Bfd>)
    requires i < |ring|
    ensures |r| == |ring| - 1
    ensures forall j {:trigger r[j]} :: 0 <= j < |r| ==> r[j] == if j < i then ring[j] else ring[j + 1]
  {
    ring[..i] + ring[i + 1..]
  }

  ghost predicate Two(ring: seq<Bfd>)
    reads ring
  {
    exists b, c :: b in ring && c in ring && b != c && b.cacheable && c.cacheable
  }

  class Ring {
    var lastCache: Bfd?
    ghost var ring: seq<Bfd>

    constructor ()
      ensures Valid() && ring == []
    {
      lastCache, ring := null, [];
    }

    ghost predicate Valid()
      reads this, ring
    {
      lastCache == (if ring == [] then null else ring[0]) && Linked(ring)
    }

    // insert
    method Insert(abfd: Bfd)
      requires Valid() && abfd !in ring
      modifies this, abfd`lruNext, abfd`lruPrev, (set b | b in ring)`lruNext, (set b | b in ring)`lruPrev
      ensures Valid() && ring == [abfd] + old(ring)
    {
      ghost var was := ring;
      if lastCache == null {
        abfd.lruNext := abfd;
        abfd.lruPrev := abfd;
      } else {
        var last := lastCache;
        assert last.lruPrev == Pred(was, 0);
        var least := last.lruPrev;
        abfd.lruNext := last;
        abfd.lruPrev := least;
        least.lruNext := abfd;
        last.lruPrev := abfd;
      }
      lastCache := abfd;
      ring := [abfd] + was;
      forall i | 0 <= i < |ring| ensures ring[i].lruNext == Succ(ring, i) {
        if 0 < i < |ring| - 1 {
          ghost var k := i - 1;
          assert was[k] != was[|was| - 1] && was[k].lruNext == Succ(was, k);
        }
      }
      forall i | 0 <= i < |ring| ensures ring[i].lruPrev == Pred(ring, i) {
        if 1 < i {
          ghost var k := i - 1;
          assert was[k] != was[0] && was[k].lruPrev == Pred(was, k);
        }
      }
    }

    // snip
    method Snip(abfd: Bfd, ghost i: nat)
      requires Valid() && i < |ring| && ring[i] == abfd
      modifies this, (set b | b in ring)`lruNext, (set b | b in ring)`lruPrev
      ensures Valid() && ring == Without(old(ring), i)
    {
      ghost var was := ring;
      assert abfd.lruPrev == Pred(was, i) && abfd.lruNext == Succ(was, i);
      var prev, next := abfd.lruPrev, abfd.lruNext;
      prev.lruNext := next;
      next.lruPrev := prev;
      if abfd == lastCache {
        lastCache := next;
        if abfd == lastCache {
          lastCache := null;
        }
      }
      ring := Without(was, i);
      forall j | 0 <= j < |ring| ensures ring[j].lruNext == Succ(ring, j) && ring[j].lruPrev == Pred(ring, j) {
        ghost var k := if j < i then j else j + 1;
        assert old(was[k].lruNext) == Succ(was, k);
        assert old(was[k].lruPrev) == Pred(was, k);
        assert was[k] == prev <==> k == (if i > 0 then i - 1 else |was| - 1);
        assert was[k] == next <==> k == (if i + 1 < |was| then i + 1 else 0);
      }
    }
  }

  // Where the caller thinks the file stands.
  function Position(b: Bfd): nat
    reads b
  {
    if b.iostream.Open? then b.iostream.pos else b.place
  }

  // Which system calls of one operation succeed: fopen, and the fclose of a file that
  // makes room before it and after it.
  datatype System = System(opens: bool, closes: bool, closesAgain: bool)
  {
    predicate Fine() { opens && closes && closesAgain }
  }

  class Cache {
    const lru: Ring
    const maxOpen: nat             // bfd_cache_max_open ()
    var openFiles: nat
    ghost var files: set<Bfd>      // every file that the cache has taken over

    constructor (maxOpen: nat)
      requires maxOpen >= 10
      ensures Valid() && files == {} && lru.ring == [] && this.maxOpen == maxOpen && fresh(lru)
    {
      lru := new Ring();
      this.maxOpen, openFiles, files := maxOpen, 0, {};
    }

    // The ring holds exactly the open files, all of them with the cache's iovec.
    ghost predicate FileOk(b: Bfd)
      reads b, lru
    {
      (b.iostream.Open? <==> b in lru.ring) && (b in lru.ring ==> b.cached)
    }

    ghost predicate Valid()
      reads this, lru, files
    {
      && maxOpen > 0 && (forall b <- lru.ring :: b in files) && lru.Valid()
      && openFiles == |lru.ring| && forall b <- files :: FileOk(b)
    }

    // bfd_cache_delete
    method Delete(abfd: Bfd, closes: bool, ghost i: nat) returns (ret: bool)
      requires Valid() && i < |lru.ring| && lru.ring[i] == abfd
      modifies `openFiles, lru, (set b | b in lru.ring)`lruNext, (set b | b in lru.ring)`lruPrev, abfd`iostream
      ensures Valid() && ret == closes
      ensures lru.ring == Without(old(lru.ring), i) && abfd.iostream == Closed
    {
      ghost var was := lru.ring;
      ret := closes;
      lru.Snip(abfd, i);
      abfd.iostream := Closed;
      openFiles := openFiles - 1;
      forall b | b in files ensures FileOk(b) {
        WithoutMembers(was, i, b);
      }
    }

    // The least recently used cacheable member is number i.
    ghost predicate IsVictim(ring: seq<Bfd>, i: nat)
      reads ring
    {
      i < |ring| && ring[i].cacheable && forall j {:trigger ring[j]} :: i < j < |ring| ==> !ring[j].cacheable
    }

    // The loop of close_one.
    method FindVictim() returns (toKill: Bfd?, ghost i: nat)
      requires Valid()
      ensures toKill == null ==> forall b <- lru.ring :: !b.cacheable
      ensures toKill != null ==> IsVictim(lru.ring, i) && toKill == lru.ring[i]
    {
      i := 0;
      if lru.lastCache == null {
        return null, 0;
      }
      assert lru.lastCache.lruPrev == Pred(lru.ring, 0);
      toKill, i := lru.lastCache.lruPrev, |lru.ring| - 1;
      while !toKill.cacheable
        invariant toKill != null && i < |lru.ring| && toKill == lru.ring[i]
        invariant forall j {:trigger lru.ring[j]} :: i < j < |lru.ring| ==> !lru.ring[j].cacheable
        decreases i
      {
        if toKill == lru.lastCache {
          toKill := null;
          break;
        }
        assert toKill.lruPrev == Pred(lru.ring, i);
        toKill, i := toKill.lruPrev, i - 1;
      }
    }

    // close_one
    method CloseOne(closes: bool) returns (ret: bool)
      requires Valid()
      modifies `openFiles, lru, files
      ensures Valid() && (forall b <- files :: Position(b) == old(Position(b)) && b.cacheable == old(b.cacheable))
      ensures (forall b <- old(lru.ring) :: !old(b.cacheable)) ==> ret && lru.ring == old(lru.ring)
      ensures (exists b :: b in old(lru.ring) && old(b.cacheable)) ==>
                ret == closes && exists i: nat :: old(IsVictim(lru.ring, i)) && lru.ring == Without(old(lru.ring), i)
    {
      ghost var i;
      var toKill;
      toKill, i := FindVictim();
      if toKill == null {
        return true;
      }
      assert old(IsVictim(lru.ring, i));
      toKill.place := toKill.iostream.pos;
      ret := Delete(toKill, closes, i);
    }

    ghost predicate NoneCacheable()
      reads lru, lru.ring
    {
      forall b <- lru.ring :: !b.cacheable
    }

    // Closing a file if the limit has been reached.
    method MakeRoom(closes: bool) returns (ok: bool)
      requires Valid()
      modifies `openFiles, lru, files
      ensures Valid() && (forall b <- files :: Position(b) == old(Position(b)) && b.cacheable == old(b.cacheable))
      ensures old(openFiles < maxOpen || NoneCacheable()) ==>
                ok && lru.ring == old(lru.ring) && NoneCacheable() == old(NoneCacheable())
      ensures old(openFiles >= maxOpen && !NoneCacheable()) ==>
                ok == closes && openFiles == old(openFiles) - 1 && (NoneCacheable() <==> !old(TwoCacheable()))
      ensures forall b <- lru.ring :: b in old(lru.ring)
    {
      ghost var was := lru.ring;
      ok := true;
      if openFiles >= maxOpen {
        ok := CloseOne(closes);
        if lru.ring != was {
          ghost var i: nat :| old(IsVictim(lru.ring, i)) && lru.ring == Without(was, i);
          assert forall b <- was :: b.cacheable == old(b.cacheable);
          OneIsLeft(was, i);
        }
      }
    }

    // bfd_cache_init.  The limit is exceeded only if it was already, or if no open
    // file could be closed.
    method Init(abfd: Bfd, closes: bool) returns (ok: bool)
      requires Valid() && abfd !in files && abfd.iostream.Open?
      modifies this, lru, files, abfd`cached, abfd`lruNext, abfd`lruPrev
      ensures Valid() && (forall b <- old(files) :: Position(b) == old(Position(b)))
      ensures ok <==> closes || old(openFiles < maxOpen || NoneCacheable())
      ensures !ok ==> files == old(files) && abfd.iostream == old(abfd.iostream)
      ensures ok ==> files == old(files) + {abfd} && lru.ring != [] && lru.ring[0] == abfd
      ensures openFiles <= maxOpen || old(openFiles > maxOpen || (openFiles == maxOpen && NoneCacheable()))
    {
      hide NoneCacheable, TwoCacheable;
      ok := MakeRoom(closes);
      if ok {
        abfd.cached := true;
        lru.Insert(abfd);
        openFiles := openFiles + 1;
        files := files + {abfd};
      }
    }

    // All but file x: of that one the ring knows nothing.
    ghost predicate ValidBut(x: Bfd)
      reads this, lru, files
    {
      && maxOpen > 0 && (forall b <- lru.ring :: b in files) && lru.Valid()
      && openFiles == |lru.ring| && x !in lru.ring && forall b <- files :: b != x ==> FileOk(b)
    }

    // At least two files of the ring can be closed.
    ghost predicate TwoCacheable()
      reads lru, lru.ring
    {
      Two(lru.ring)
    }

    // Reopening a file has to close two others, of which the second fails when the file
    // is already open.
    ghost predicate Strays(sys: System)
      reads this, lru, lru.ring
    {
      openFiles > maxOpen && TwoCacheable() && sys.closes && sys.opens && !sys.closesAgain
    }

    // The limit on open files is exceeded only if it was, or if none could be closed.
    twostate predicate KeepsLimit()
      reads this, lru, lru.ring
    {
      openFiles <= maxOpen || old(openFiles > maxOpen || NoneCacheable())
    }

    // bfd_open_file, for a file that the cache has closed; it was opened for
    // reading.  The ring goes on holding exactly the open files unless the file strays:
    // then it stays open outside the ring.
    method OpenFile(abfd: Bfd, sys: System) returns (ok: bool)
      requires Valid() && abfd in files && abfd.iostream == Closed
      modifies this, lru, files
      ensures files == old(files) && abfd.place == old(abfd.place)
      ensures forall b <- files :: b != abfd ==> Position(b) == old(Position(b))
      ensures if old(Strays(sys)) then !ok && ValidBut(abfd) && abfd.iostream == Open(0) else Valid()
      ensures ok ==> abfd.iostream == Open(0) && lru.ring != [] && lru.ring[0] == abfd
      ensures !ok && !old(Strays(sys)) ==> abfd.iostream == Closed
      ensures sys.Fine() ==> ok
      ensures KeepsLimit() && (ok ==> abfd.cacheable)
    {
      hide Linked, Ring.Valid, NoneCacheable, Two;
      TwoAreSome();
      ghost var all := files;
      files := files - {abfd};
      abfd.cacheable := true;
      assert abfd !in lru.ring && NoneCacheable() == old(NoneCacheable()) && TwoCacheable() == old(TwoCacheable());
      ok := MakeRoom(sys.closes);
      if ok && sys.opens {
        ghost var none := NoneCacheable();
        abfd.iostream := Open(0);
        assert NoneCacheable() == none;
        ok := Init(abfd, sys.closesAgain);
      } else {
        ok := false;
      }
      files := all;
    }

    lemma TwoAreSome()
      ensures TwoCacheable() ==> !NoneCacheable()
    {
    }

    // Once one file has been closed another one can be if there were two.
    lemma OneIsLeft(was: seq<Bfd>, i: nat)
      requires Distinct(was) && i < |was| && was[i].cacheable && lru.ring == Without(was, i)
      ensures NoneCacheable() <==> !Two(was)
    {
      if Two(was) {
        var b, c :| b in was && c in was && b != c && b.cacheable && c.cacheable;
        WithoutMembers(was, i, b);
        WithoutMembers(was, i, c);
      }
      if !NoneCacheable() {
        var b :| b in lru.ring && b.cacheable;
        WithoutMembers(was, i, b);
      }
    }

    // Moving an open file to the front of the ring.
    method Touch(abfd: Bfd)
      requires Valid() && abfd in lru.ring
      modifies lru, (set b | b in lru.ring)`lruNext, (set b | b in lru.ring)`lruPrev
      ensures Valid() && lru.ring[0] == abfd
      ensures exists i: nat ::
                i < |old(lru.ring)| && old(lru.ring)[i] == abfd && lru.ring == [abfd] + Without(old(lru.ring), i)
    {
      ghost var was := lru.ring;
      ghost var i :| 0 <= i < |was| && was[i] == abfd;
      forall b ensures b in Without(was, i) <==> b in was && b != abfd {
        WithoutMembers(was, i, b);
      }
      lru.Snip(abfd, i);
      lru.Insert(abfd);
    }

    // Looking the file up makes it stray.
    ghost predicate StraysAt(abfd: Bfd, noOpen: bool, sys: System)
      reads this, lru, lru.ring, abfd
    {
      abfd.iostream == Closed && !noOpen && Strays(sys)
    }

    // bfd_cache_lookup with the worker: flags CACHE_NO_OPEN and CACHE_NO_SEEK.
    method LookUp(abfd: Bfd, noOpen: bool, noSeek: bool, sys: System) returns (found: bool)
      requires Valid() && abfd in files
      modifies this, lru, files
      ensures files == old(files) && (forall b <- files :: b != abfd ==> Position(b) == old(Position(b)))
      ensures if old(StraysAt(abfd, noOpen, sys)) then !found && ValidBut(abfd) && abfd.iostream == Open(0) else Valid()
      ensures found ==> lru.ring != [] && lru.ring[0] == abfd
      ensures old(abfd.iostream.Open?) ==> found && abfd.iostream == old(abfd.iostream)
      ensures old(abfd.iostream) == Closed && found ==>
                !noOpen && abfd.iostream == Open(if noSeek then 0 else old(abfd.place))
      ensures !found ==> abfd.place == old(abfd.place) && (abfd.iostream == Closed || old(StraysAt(abfd, noOpen, sys)))
      ensures !noOpen && sys.Fine() ==> found
      ensures KeepsLimit() && (found && NoneCacheable() ==> old(NoneCacheable()))
      ensures noOpen && !found ==> NoneCacheable() == old(NoneCacheable())
    {
      if abfd == lru.lastCache {
        return true;
      }
      if abfd.iostream != Closed {
        Touch(abfd);
        return true;
      }
      if noOpen {
        return false;
      }
      found := OpenFile(abfd, sys);
      if found && !noSeek {
        abfd.iostream := Open(abfd.place);
      }
    }

    // cache_btell
    method Tell(abfd: Bfd, sys: System) returns (pos: nat)
      requires Valid() && abfd in files
      modifies this, lru, files
      ensures Valid() && files == old(files) && (forall b <- files :: Position(b) == old(Position(b)))
      ensures pos == old(Position(abfd))
      ensures KeepsLimit() && (NoneCacheable() ==> old(NoneCacheable()))
    {
      var found := LookUp(abfd, true, false, sys);
      pos := if found then abfd.iostream.pos else abfd.place;
    }

    // cache_bseek.  A seek that fails leaves the file where it was, unless the cache
    // has closed it and the seek is not relative: then the file ends up at its start.
    method Seek(abfd: Bfd, offset: int, whence: Whence, sys: System) returns (r: int)
      requires Valid() && abfd in files
      modifies this, lru, files
      ensures files == old(files) && (forall b <- files :: b != abfd ==> Position(b) == old(Position(b)))
      ensures if old(StraysAt(abfd, false, sys)) then r == -1 && ValidBut(abfd) && abfd.iostream == Open(0) else Valid()
      ensures sys.Fine() ==>
                var target := SeekTarget(|abfd.content|, old(Position(abfd)), offset, whence);
                && r == (if target >= 0 then 0 else -1)
                && Position(abfd) == AfterSeek(old(abfd.iostream) == Closed, target, whence, old(Position(abfd)))
      ensures KeepsLimit() && (sys.Fine() && NoneCacheable() ==> old(NoneCacheable()))
    {
      var found := LookUp(abfd, false, whence != Cur, sys);
      if !found {
        return -1;
      }
      var target := SeekTarget(|abfd.content|, abfd.iostream.pos, offset, whence);
      if target < 0 {
        return -1;
      }
      abfd.iostream := Open(target);
      r := 0;
    }

    // cache_bread
    method Read(abfd: Bfd, nbytes: nat, sys: System) returns (nread: int, data: seq<Byte>)
      requires Valid() && abfd in files
      modifies this, lru, files
      ensures files == old(files) && (forall b <- files :: b != abfd ==> Position(b) == old(Position(b)))
      ensures if old(StraysAt(abfd, false, sys)) then nread == -1 && ValidBut(abfd) && abfd.iostream == Open(0)
              else Valid()
      ensures sys.Fine() ==>
                && nread == |data| && data == Available(abfd.content, old(Position(abfd)), nbytes)
                && Position(abfd) == old(Position(abfd)) + nread
      ensures KeepsLimit() && (sys.Fine() && NoneCacheable() ==> old(NoneCacheable()))
    {
      var found := LookUp(abfd, false, false, sys);
      if !found {
        return -1, [];
      }
      nread, data := ReadChunks(abfd, nbytes);
    }

    // bfd_cache_close
    method Close(abfd: Bfd, closes: bool) returns (ret: bool)
      requires Valid() && abfd in files
      modifies `openFiles, lru, (set b | b in lru.ring)`lruNext, (set b | b in lru.ring)`lruPrev, abfd`iostream
      ensures Valid() && (ret <==> closes || !old(abfd.cached) || old(abfd.iostream) == Closed)
      ensures old(abfd.cached) ==> abfd.iostream == Closed
      ensures old(abfd in lru.ring) ==> |lru.ring| == |old(lru.ring)| - 1 && forall b <- lru.ring :: b in old(lru.ring)
    {
      if !abfd.cached || abfd.iostream == Closed {
        return true;
      }
      ghost var i :| 0 <= i < |lru.ring| && lru.ring[i] == abfd;
      ret := Delete(abfd, closes, i);
    }

    // bfd_cache_close_all: the loop ends, with an empty ring and every file closed.
    method CloseAll(closes: bool) returns (ret: bool)
      requires Valid()
      modifies `openFiles, lru, files
      ensures Valid() && lru.ring == [] && openFiles == 0 && forall b <- files :: b.iostream == Closed
      ensures ret <==> closes || old(lru.ring) == []
    {
      ret := true;
      while lru.lastCache != null
        invariant Valid() && ret == (closes || lru.ring == old(lru.ring))
        invariant |lru.ring| <= |old(lru.ring)|
        invariant forall b <- lru.ring :: b in old(files)
        decreases |lru.ring|
      {
        assert lru.lastCache == lru.ring[0];
        var closed := Close(lru.lastCache, closes);
        ret := ret && closed;
      }
    }

    // The positions that the caller sees.
    ghost function Positions(): map<Bfd, nat>
      reads this, files
    {
      map b | b in files :: Position(b)
    }

    // A run in which the cache shows through: an absolute seek fails on a file that the
    // cache has closed, and the read after it is of other bytes, unless those happen to
    // be the same.
    method FailedSeekThenRead(abfd: Bfd, n: nat) returns (results: seq<Result>)
      requires Valid() && abfd in files && abfd.iostream == Closed
      modifies this, lru, files
      ensures Valid() && results == [Number(-1), Data(Available(abfd.content, 0, n))]
      ensures var ops, pos := [SeekTo(abfd, -1, Set), ReadFrom(abfd, n)], old(abfd.place);
              results == PlainRun(ops, old(Positions()))
              <==> Available(abfd.content, 0, n) == Available(abfd.content, pos, n)
    {
      ghost var ops, at := [SeekTo(abfd, -1, Set), ReadFrom(abfd, n)], Positions();
      assert abfd in at && at[abfd] == abfd.place;
      SeekThenRead(abfd, n, at);
      var r := Seek(abfd, -1, Set, System(true, true, true));
      var nread, data := Read(abfd, n, System(true, true, true));
      results := [Number(r), Data(data)];
    }

    // Any interleaving of reads, seeks and tells over any number of files; closed says
    // for each operation whether the cache had closed its file.
    method RunAll(ops: seq<Op>) returns (results: seq<Result>, ghost closed: seq<bool>)
      requires Valid() && forall op <- ops :: op.file in files
      modifies this, lru, files
      ensures Valid() && files == old(files) && |closed| == |ops|
      ensures results == CachedRun(ops, old(Positions()), closed)
              && Positions() == CachedEnd(ops, old(Positions()), closed)
      ensures RunsPlainly(ops, old(Positions())) ==> results == PlainRun(ops, old(Positions()))
      ensures KeepsLimit() && (NoneCacheable() ==> old(NoneCacheable()))
    {
      hide Cache.Valid, PlainResult, CachedAfter, RunsPlainly, PlainRun, PlainEnd, CachedRun, CachedEnd;
      results, closed := [], [];
      ghost var start := Positions();
      assert ops[..0] == [];
      NothingRun(start);
      for i := 0 to |ops|
        invariant Valid() && files == old(files) && |closed| == i
        invariant KeepsLimit() && (NoneCacheable() ==> old(NoneCacheable()))
        invariant results == CachedRun(ops[..i], start, closed) && Positions() == CachedEnd(ops[..i], start, closed)
      {
        assert ops[i] in ops;
        OneMore(ops, i, start, closed, ops[i].file.iostream == Closed);
        closed := closed + [ops[i].file.iostream == Closed];
        var result := RunOne(ops[i]);
        results := results + [result];
      }
      assert ops[..|ops|] == ops;
      if RunsPlainly(ops, start) {
        PlainNeverShows(ops, start, closed);
        NeverShownIsPlain(ops, start, closed);
      }
    }

    method RunOne(op: Op) returns (result: Result)
      requires Valid() && op.file in files
      modifies this, lru, files
      ensures Valid() && files == old(files)
      ensures result == PlainResult(op, old(Position(op.file)))
      ensures Positions()
              == old(Positions())[op.file := CachedAfter(op, old(Position(op.file)), old(op.file.iostream) == Closed)]
      ensures KeepsLimit() && (NoneCacheable() ==> old(NoneCacheable()))
    {
      var sys := System(true, true, true);
      match op {
        case TellAt(b) =>
          var pos := Tell(b, sys);
          result := Number(pos);
        case SeekTo(b, offset, whence) =>
          var r := Seek(b, offset, whence, sys);
          result := Number(r);
        case ReadFrom(b, n) =>
          var nread, data := Read(b, n, sys);
          result := Data(data);
      }
    }
  }

  // ---------- unlimited descriptors ----------

  datatype Op = TellAt(file: Bfd) | SeekTo(file: Bfd, offset: int, whence: Whence) | ReadFrom(file: Bfd, n: nat)

  datatype Result = Number(n: int) | Data(bytes: seq<Byte>)

  function PlainResult(op: Op, pos: nat): Result {
    match op
    case TellAt(_) => Number(pos)
    case SeekTo(b, offset, whence) => Number(if SeekTarget(|b.content|, pos, offset, whence) >= 0 then 0 else -1)
    case ReadFrom(b, n) => Data(Available(b.content, pos, n))
  }

  function PlainAfter(op: Op, pos: nat): nat {
    match op
    case TellAt(_) => pos
    case SeekTo(b, offset, whence) => PlainSeek(SeekTarget(|b.content|, pos, offset, whence), pos)
    case ReadFrom(b, n) => pos + |Available(b.content, pos, n)|
  }

  // Not an absolute seek that fails.
  predicate PlainOk(op: Op, pos: nat) {
    op.SeekTo? && op.whence != Cur ==> SeekTarget(|op.file.content|, pos, op.offset, op.whence) >= 0
  }

  function PlaceIn(at: map<Bfd, nat>, b: Bfd): nat { if b in at then at[b] else 0 }

  // The positions after a run, and the results, when each file has a descriptor of its
  // own.
  function PlainEnd(ops: seq<Op>, at: map<Bfd, nat>): map<Bfd, nat> {
    if ops == [] then at
    else
      var op, before := ops[|ops| - 1], PlainEnd(ops[..|ops| - 1], at);
      before[op.file := PlainAfter(op, PlaceIn(before, op.file))]
  }

  function PlainRun(ops: seq<Op>, at: map<Bfd, nat>): (r: seq<Result>)
    ensures |r| == |ops|
  {
    if ops == [] then []
    else
      var op, n := ops[|ops| - 1], |ops| - 1;
      PlainRun(ops[..n], at) + [PlainResult(op, PlaceIn(PlainEnd(ops[..n], at), op.file))]
  }

  // The same with the cache; closed says when it had closed the file.
  function CachedEnd(ops: seq<Op>, at: map<Bfd, nat>, closed: seq<bool>): map<Bfd, nat>
    requires |closed| == |ops|
  {
    if ops == [] then at
    else
      var op, n := ops[|ops| - 1], |ops| - 1;
      var before := CachedEnd(ops[..n], at, closed[..n]);
      before[op.file := CachedAfter(op, PlaceIn(before, op.file), closed[n])]
  }

  function CachedRun(ops: seq<Op>, at: map<Bfd, nat>, closed: seq<bool>): (r: seq<Result>)
    requires |closed| == |ops|
    ensures |r| == |ops|
  {
    if ops == [] then []
    else
      var op, n := ops[|ops| - 1], |ops| - 1;
      CachedRun(ops[..n], at, closed[..n]) + [PlainResult(op, PlaceIn(CachedEnd(ops[..n], at, closed[..n]), op.file))]
  }

  function CachedAfter(op: Op, pos: nat, closed: bool): nat {
    if op.SeekTo? then AfterSeek(closed, SeekTarget(|op.file.content|, pos, op.offset, op.whence), op.whence, pos)
    else PlainAfter(op, pos)
  }

  lemma NothingRun(at: map<Bfd, nat>)
    ensures CachedEnd([], at, []) == at && CachedRun([], at, []) == []
  {
  }

  // A run goes on with the next operation.
  lemma OneMore(ops: seq<Op>, i: nat, at: map<Bfd, nat>, closed: seq<bool>, c: bool)
    requires i < |ops| && |closed| == i
    ensures var op, before := ops[i], CachedEnd(ops[..i], at, closed);
            && CachedEnd(ops[..i + 1], at, closed + [c])
               == before[op.file := CachedAfter(op, PlaceIn(before, op.file), c)]
            && CachedRun(ops[..i + 1], at, closed + [c])
               == CachedRun(ops[..i], at, closed) + [PlainResult(op, PlaceIn(before, op.file))]
  {
    hide PlainResult, CachedAfter;
    assert ops[..i + 1][..i] == ops[..i] && (closed + [c])[..i] == closed;
  }

  // An absolute seek fails on a file that the cache has closed and that does not stand
  // at its start.
  predicate Shows(op: Op, pos: nat, closed: bool) {
    && op.SeekTo? && closed && op.whence != Cur && pos != 0
    && SeekTarget(|op.file.content|, pos, op.offset, op.whence) < 0
  }

  predicate NeverShows(ops: seq<Op>, at: map<Bfd, nat>, closed: seq<bool>)
    requires |closed| == |ops|
  {
    ops != [] ==>
      var op, n := ops[|ops| - 1], |ops| - 1;
      NeverShows(ops[..n], at, closed[..n]) && !Shows(op, PlaceIn(PlainEnd(ops[..n], at), op.file), closed[n])
  }

  // All along a run the files stand where they would without the cache.
  predicate SameThroughout(ops: seq<Op>, at: map<Bfd, nat>, closed: seq<bool>)
    requires |closed| == |ops|
  {
    && CachedEnd(ops, at, closed) == PlainEnd(ops, at)
    && (ops != [] ==> SameThroughout(ops[..|ops| - 1], at, closed[..|ops| - 1]))
  }

  // The cache shows through in a run exactly when such a seek occurs in it.
  lemma {:induction false} CacheShowsIff(ops: seq<Op>, at: map<Bfd, nat>, closed: seq<bool>)
    requires |closed| == |ops|
    ensures SameThroughout(ops, at, closed) <==> NeverShows(ops, at, closed)
  {
    if ops != [] {
      var op, n := ops[|ops| - 1], |ops| - 1;
      CacheShowsIff(ops[..n], at, closed[..n]);
      if NeverShows(ops[..n], at, closed[..n]) {
        var before := PlainEnd(ops[..n], at);
        assert CachedEnd(ops[..n], at, closed[..n]) == before;
        SeekShowsIff(op, PlaceIn(before, op.file), closed[n]);
        assert CachedEnd(ops, at, closed)[op.file] == CachedAfter(op, PlaceIn(before, op.file), closed[n]);
        assert PlainEnd(ops, at)[op.file] == PlainAfter(op, PlaceIn(before, op.file));
      }
    }
  }

  lemma SeekShowsIff(op: Op, pos: nat, closed: bool)
    ensures CachedAfter(op, pos, closed) == PlainAfter(op, pos) <==> !Shows(op, pos, closed)
  {
  }

  // And if none does, the results are those without the cache.
  lemma {:induction false} NeverShownIsPlain(ops: seq<Op>, at: map<Bfd, nat>, closed: seq<bool>)
    requires |closed| == |ops| && NeverShows(ops, at, closed)
    ensures CachedRun(ops, at, closed) == PlainRun(ops, at)
  {
    if ops != [] {
      var n := |ops| - 1;
      NeverShownIsPlain(ops[..n], at, closed[..n]);
      CacheShowsIff(ops[..n], at, closed[..n]);
    }
  }

  // No absolute seek fails.
  predicate RunsPlainly(ops: seq<Op>, at: map<Bfd, nat>) {
    ops != [] ==>
      var op, n := ops[|ops| - 1], |ops| - 1;
      RunsPlainly(ops[..n], at) && PlainOk(op, PlaceIn(PlainEnd(ops[..n], at), op.file))
  }

  lemma {:induction false} PlainNeverShows(ops: seq<Op>, at: map<Bfd, nat>, closed: seq<bool>)
    requires |closed| == |ops| && RunsPlainly(ops, at)
    ensures NeverShows(ops, at, closed)
  {
    if ops != [] {
      PlainNeverShows(ops[..|ops| - 1], at, closed[..|ops| - 1]);
    }
  }

  lemma SeekThenRead(b: Bfd, n: nat, at: map<Bfd, nat>)
    ensures PlainRun([SeekTo(b, -1, Set), ReadFrom(b, n)], at)
            == [Number(-1), Data(Available(b.content, PlaceIn(at, b), n))]
  {
    var ops := [SeekTo(b, -1, Set), ReadFrom(b, n)];
    assert ops[..1] == [SeekTo(b, -1, Set)] && ops[..1][..0] == [];
    assert PlainEnd(ops[..1], at) == at[b := PlaceIn(at, b)];
    assert PlainRun(ops[..1], at) == [Number(-1)];
  }

  // "We read the buffer in chunks of 8MB max."
  const MAX_CHUNK_SIZE := 0x800000

  datatype Whence = Set | Cur | End

  // Where a seek leads.
  function SeekTarget(size: nat, pos: nat, offset: int, whence: Whence): int {
    match whence
    case Set => offset
    case Cur => pos + offset
    case End => size + offset
  }

  // Where a seek that leads to target leaves a file that the cache has closed or not.
  function AfterSeek(closed: bool, target: int, whence: Whence, pos: nat): nat {
    if target >= 0 then target else if closed && whence != Cur then 0 else pos
  }

  // With unlimited descriptors a failing seek changes nothing.
  function PlainSeek(target: int, pos: nat): nat {
    if target >= 0 then target else pos
  }

  // What a read of n bytes at pos yields.
  function Available(content: seq<Byte>, pos: nat, n: nat): seq<Byte> {
    if pos >= |content| then [] else if pos + n <= |content| then content[pos..pos + n] else content[pos..]
  }

  // fread, of 8 MB at most.
  method FRead(abfd: Bfd, n: nat) returns (data: seq<Byte>)
    requires abfd.iostream.Open? && n <= 8 * 1024 * 1024
    modifies abfd`iostream
    ensures data == Available(abfd.content, old(abfd.iostream.pos), n)
    ensures abfd.iostream == Open(old(abfd.iostream.pos) + |data|)
  {
    data := Available(abfd.content, abfd.iostream.pos, n);
    abfd.iostream := Open(abfd.iostream.pos + |data|);
  }

  // Reading on after a full read is one longer read.
  lemma ReadOn(content: seq<Byte>, pos: nat, n: nat, m: nat)
    requires |Available(content, pos, n)| == n
    ensures Available(content, pos, n) + Available(content, pos + n, m) == Available(content, pos, n + m)
  {
  }

  // A short read is all that a longer one would give.
  lemma ShortRead(content: seq<Byte>, pos: nat, n: nat, m: nat)
    requires n <= m
    ensures |Available(content, pos, n)| <= n
    ensures |Available(content, pos, n)| < n ==> Available(content, pos, m) == Available(content, pos, n)
  {
  }

  // The loop of cache_bread reads what one read would.
  method ReadChunks(abfd: Bfd, nbytes: nat) returns (nread: nat, data: seq<Byte>)
    requires abfd.iostream.Open?
    modifies abfd`iostream
    ensures nread == |data| && data == Available(abfd.content, old(abfd.iostream.pos), nbytes)
    ensures abfd.iostream == Open(old(abfd.iostream.pos) + nread)
  {
    hide Available;
    nread, data := 0, [];
    ShortRead(abfd.content, abfd.iostream.pos, 0, 0);
    ghost var pos := abfd.iostream.pos;
    while nread < nbytes
      invariant nread == |data| <= nbytes && data == Available(abfd.content, pos, nread)
      invariant abfd.iostream == Open(pos + nread)
    {
      var chunkSize := nbytes - nread;
      if chunkSize > MAX_CHUNK_SIZE {
        chunkSize := MAX_CHUNK_SIZE;
      }
      var chunk := FRead(abfd, chunkSize);
      ShortRead(abfd.content, pos + nread, chunkSize, nbytes - nread);
      ReadOn(abfd.content, pos, nread, chunkSize);
      ReadOn(abfd.content, pos, nread, nbytes - nread);
      data := data + chunk;
      nread := nread + |chunk|;
      if |chunk| < chunkSize {
        break;
      }
    }
  }

  lemma WithoutMembers(ring: seq<Bfd>, i: nat, b: Bfd)
    requires Distinct(ring) && i < |ring|
    ensures b in Without(ring, i) <==> b in ring && b != ring[i]
  {
    var r := Without(ring, i);
    if b in ring && b != ring[i] {
      var j :| 0 <= j < |ring| && ring[j] == b;
      assert r[if j < i then j else j - 1] == b;
    }
    if b in r {
      var j :| 0 <= j < |r| && r[j] == b;
      assert ring[if j < i then j else j + 1] == b;
    }
  }

  // ---------- what the operations mean ----------

  // Byte by byte, a read at p gives what the file has from there on, n bytes at most.
  predicate IsPart(content: seq<Byte>, p: nat, n: nat, data: seq<Byte>) {
    && (|data| == n || p + |data| >= |content|) && |data| <= n && (|data| > 0 ==> p + |data| <= |content|)
    && forall i {:trigger data[i]} :: 0 <= i < |data| ==> data[i] == content[p + i]
  }

  // A seek to p, from the start, from where the file stands, or from its end, followed by
  // a tell and a read: the file stands at p, and its bytes are read from there on.
  lemma SeekTellRead(b: Bfd, p: nat, n: nat, whence: Whence, at: map<Bfd, nat>)
    requires b in at
    ensures var from := match whence case Set => 0 case Cur => at[b] case End => |b.content|;
            var rs := PlainRun([SeekTo(b, p - from, whence), TellAt(b), ReadFrom(b, n), TellAt(b)], at);
            && |rs| == 4 && rs[0] == Number(0) && rs[1] == Number(p)
            && rs[2].Data? && IsPart(b.content, p, n, rs[2].bytes) && rs[3] == Number(p + |rs[2].bytes|)
  {
    hide PlainRun, PlainEnd;
    var from := match whence case Set => 0 case Cur => at[b] case End => |b.content|;
    var ops := [SeekTo(b, p - from, whence), TellAt(b), ReadFrom(b, n), TellAt(b)];
    assert ops[..4] == ops && ops[..0] == [];
    PlainStep(ops, 0, at);
    PlainStep(ops, 1, at);
    PlainStep(ops, 2, at);
    PlainStep(ops, 3, at);
  }

  // A plain run goes on with the next operation.
  lemma PlainStep(ops: seq<Op>, i: nat, at: map<Bfd, nat>)
    requires i < |ops|
    ensures PlainEnd([], at) == at && PlainRun([], at) == []
    ensures var op, before := ops[i], PlainEnd(ops[..i], at);
            && PlainEnd(ops[..i + 1], at) == before[op.file := PlainAfter(op, PlaceIn(before, op.file))]
            && PlainRun(ops[..i + 1], at) == PlainRun(ops[..i], at) + [PlainResult(op, PlaceIn(before, op.file))]
  {
    assert ops[..i + 1][..i] == ops[..i];
  }
}
