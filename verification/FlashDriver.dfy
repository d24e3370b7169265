// The flash driver: agb_flash.c, agb_flash_mx.c and agb_flash_1m.c, against any chip that obeys
// a reset at any time and shows the opposite of bit 7 while it is busy. It may fail at any step.

module FlashDriver {
  import opened Bytes
  import opened FlashChip

  // The part of the memory that a sector takes up.
  function SectorOf(m: seq<Byte>, sector: nat): (s: seq<Byte>)
    requires |m| == ROM_SIZE && sector < SECTOR_COUNT
    ensures |s| == SECTOR_SIZE
  {
    m[sector * SECTOR_SIZE..(sector + 1) * SECTOR_SIZE]
  }

  // gFlashMaxTime[phase * 3]
  function MaxTime(phase: nat): nat { if phase <= 1 then 10 else 2000 }

  // The driver's variables, with the chip they are about.
  class Driver {
    const chip: Chip
    var timerCount: nat
    var timeoutFlag: bool
    var remainingBytes: nat
    var quiet: nat      // polls until the next timer interrupt

    constructor (chip: Chip)
      ensures this.chip == chip
    {
      this.chip, timerCount, timeoutFlag, remainingBytes, quiet := chip, 0, false, 0, 0;
    }

    // ---------- the timer ----------

    // FlashTimerIntr
    method FlashTimerIntr()
      modifies `timerCount, `timeoutFlag
      ensures timerCount == if old(timerCount) == 0 then 0 else old(timerCount) - 1
      ensures timeoutFlag == (old(timeoutFlag) || old(timerCount) == 1)
    {
      if timerCount != 0 {
        timerCount := timerCount - 1;
        if timerCount == 0 {
          timeoutFlag := true;
        }
      }
    }

    // StartFlashTimer
    method StartFlashTimer(phase: nat)
      modifies `timerCount, `timeoutFlag, `quiet
      ensures timerCount == MaxTime(phase) == (if phase < 2 then 10 else 2000) && !timeoutFlag
    {
      timeoutFlag := false;
      timerCount := MaxTime(phase);
      quiet := *;
    }

    // What may happen between two polls: a timer interrupt, after some time in which
    // there is none; time passes for the chip too.
    method Pass()
      requires chip.Valid()
      modifies `timerCount, `timeoutFlag, `quiet, chip`s, chip`left, chip`exceeded
      ensures chip.Valid()
      ensures old(quiet) > 0 ==> quiet < old(quiet) && timerCount == old(timerCount) && timeoutFlag == old(timeoutFlag)
      ensures old(quiet) > 0 ==> chip.s == old(chip.s) && chip.left == old(chip.left)
      ensures old(quiet) == 0 ==> timerCount == if old(timerCount) == 0 then 0 else old(timerCount) - 1
      ensures old(quiet) == 0 ==> timeoutFlag == (old(timeoutFlag) || old(timerCount) == 1)
      ensures Moved(old(chip.s), chip.s, chip.works)
      ensures chip.works && old(quiet) == 0 && !chip.s.op.Reading? ==> chip.left < old(chip.left)
    {
      if quiet > 0 {
        quiet := quiet - 1;
      } else {
        FlashTimerIntr();
        chip.Elapse();
        quiet := *;
      }
    }

    // ---------- polling ----------

    // The timer has run out exactly if its count has; a chip that works is done before.
    ghost predicate InTime()
      reads this, chip
    {
      && timeoutFlag == (timerCount == 0)
      && (chip.works && !chip.s.op.Reading? ==> chip.left < timerCount)
    }

    // PollFlashStatus
    method PollFlashStatus(addr: nat) returns (status: Byte)
      requires chip.Valid() && InTime() && addr < BANK_SIZE
      modifies `timerCount, `timeoutFlag, `quiet, chip`s, chip`left, chip`exceeded
      ensures chip.Valid() && InTime() && Moved(old(chip.s), chip.s, chip.works)
      ensures !old(timeoutFlag) ==>
                timerCount < old(timerCount) || (timerCount == old(timerCount) && quiet < old(quiet))
      ensures chip.s.op.Reading? ==> status == chip.s.mem[chip.s.Address(addr)]
      ensures !chip.s.op.Reading? ==> status != chip.s.op.Expected() && (chip.works ==> status / 32 % 2 == 0)
    {
      Pass();
      status := chip.Read(addr);
    }

    // What waiting for an operation on the byte at addr comes to.
    static ghost predicate Waited(s: State, t: State, works: bool, op: Operation, a: nat, lastData: Byte, phase: nat,
                                  result: nat)
      requires !op.Reading? && s.Ok() && a < ROM_SIZE
    {
      && Over(s, t, op)
      && (result == 0 ==> t.mem[a] == lastData)
      && (result != 0 ==> result == 0xA000 + phase || result == 0xC000 + phase)
      && (works && (op.Programming? ==> s.mem[a] == 0xFF) ==> result == 0 && Achieves(op, s.mem, t.mem))
    }

    // What the loop does if it has waited long enough: it looks once more, and resets
    // the chip.
    method LookAgain(addr: nat, lastData: Byte, error: nat) returns (result: nat)
      requires chip.Valid() && InTime() && addr < BANK_SIZE && chip.s.command == Start && error != 0
      requires if chip.s.op.Reading? then true else !chip.works && chip.s.op.Expected() == lastData
      modifies `timerCount, `timeoutFlag, `quiet, chip
      ensures chip.Valid() && chip.s.Ready() && chip.erases == old(chip.erases)
      ensures old(chip.s.op).Reading? ==> chip.s == old(chip.s)
      ensures !old(chip.s.op).Reading? ==> Over(old(chip.s), chip.s, old(chip.s.op))
      ensures result == 0 || result == error
      ensures result == 0 ==> chip.s.mem[chip.s.Address(addr)] == lastData
    {
      var status := PollFlashStatus(addr);
      if status == lastData {
        return 0;
      }
      chip.Write(0x5555, 0xF0);
      result := error;
    }

    // WaitForFlashWrite_Common
    method WaitForFlashWrite(phase: nat, addr: nat, lastData: Byte, ghost a: nat, ghost op: Operation)
      returns (result: nat)
      requires chip.Valid() && addr < BANK_SIZE && chip.s.command == Start && chip.s.op == op && !op.Reading?
      requires a == chip.s.Address(addr) == (if op.Programming? then op.at else op.sector * SECTOR_SIZE)
      requires op.Expected() == lastData && MaxTime(phase) == TimeLimit(op)
      modifies `timerCount, `timeoutFlag, `quiet, chip
      ensures chip.Valid() && chip.s.Ready() && chip.erases == old(chip.erases)
      ensures a < ROM_SIZE && Waited(old(chip.s), chip.s, chip.works, op, a, lastData, phase, result)
    {
      ghost var s0 := chip.s;
      result := 0;
      StartFlashTimer(phase);
      var status := PollFlashStatus(addr);
      while status != lastData
        invariant chip.Valid() && InTime() && Moved(s0, chip.s, chip.works) && chip.erases == old(chip.erases)
        invariant chip.s.op.Reading? ==> status == chip.s.mem[a]
        invariant !chip.s.op.Reading? ==> status != lastData && (chip.works ==> status / 32 % 2 == 0)
        decreases timerCount, quiet
      {
        if status / 32 % 2 == 1 {
          result := LookAgain(addr, lastData, 0xA000 + phase);
          return;
        }
        if timeoutFlag {
          result := LookAgain(addr, lastData, 0xC000 + phase);
          return;
        }
        status := PollFlashStatus(addr);
      }
    }

    // ---------- commands ----------

    // SwitchFlashBank
    method SwitchFlashBank(bankNum: nat)
      requires chip.Valid() && chip.s.Ready() && bankNum < 2
      modifies chip
      ensures chip.Valid() && chip.s == old(chip.s).(bank := bankNum) && chip.erases == old(chip.erases)
    {
      chip.Write(0x5555, 0xAA);
      chip.Write(0x2AAA, 0x55);
      chip.Write(0x5555, 0xB0);
      chip.Write(0x0000, bankNum);
    }

    // The commands that erase the sector at addr.
    method EraseCommands(addr: nat)
      requires chip.Valid() && chip.s.Ready() && addr < BANK_SIZE
      modifies chip
      ensures chip.Valid() && chip.s == old(chip.s).(op := Erasing(old(chip.s).Address(addr) / SECTOR_SIZE))
      ensures chip.erases == old(chip.erases) + 1
    {
      chip.Write(0x5555, 0xAA);
      chip.Write(0x2AAA, 0x55);
      chip.Write(0x5555, 0x80);
      chip.Write(0x5555, 0xAA);
      chip.Write(0x2AAA, 0x55);
      chip.Write(addr, 0x30);
    }

    // ProgramByte
    method ProgramByte(data: Byte, dest: nat, ghost a: nat) returns (result: nat)
      requires chip.Valid() && chip.s.Ready() && dest < BANK_SIZE && a == chip.s.Address(dest)
      modifies `timerCount, `timeoutFlag, `quiet, chip
      ensures chip.Valid() && chip.s.Ready() && chip.erases == old(chip.erases) && a < ROM_SIZE
      ensures Waited(old(chip.s), chip.s, chip.works, Programming(a, data), a, data, 1, result)
    {
      ghost var op := Programming(a, data);
      chip.Write(0x5555, 0xAA);
      chip.Write(0x2AAA, 0x55);
      chip.Write(0x5555, 0xA0);
      chip.Write(dest, data);
      result := WaitForFlashWrite(1, dest, data, a, op);
    }

    // One try of EraseFlashSector_MX.
    method TryErase(addr: nat, ghost sector: nat) returns (result: nat)
      requires chip.Valid() && chip.s.Ready() && addr < BANK_SIZE && chip.s.Address(addr) == sector * SECTOR_SIZE
      modifies `timerCount, `timeoutFlag, `quiet, chip
      ensures chip.Valid() && chip.s.Ready() && chip.erases == old(chip.erases) + 1 && sector * SECTOR_SIZE < ROM_SIZE
      ensures Waited(old(chip.s), chip.s, chip.works, Erasing(sector), sector * SECTOR_SIZE, 0xFF, 2, result)
    {
      EraseCommands(addr);
      result := WaitForFlashWrite(2, addr, 0xFF, sector * SECTOR_SIZE, Erasing(sector));
    }

    // ---------- sectors ----------

    // `result & 0xA000`
    static predicate Failed(result: nat) { result / 0x8000 % 2 == 1 || result / 0x2000 % 2 == 1 }

    // What erasing comes to.
    static ghost predicate ErasedOr(m: seq<Byte>, n: seq<Byte>, sector: nat, works: bool, result: nat)
      requires |m| == ROM_SIZE && sector < SECTOR_COUNT
    {
      && SameOutside(m, n, sector) && (result == 0 ==> n[sector * SECTOR_SIZE] == 0xFF)
      && (works ==> result == 0 && n == Erased(m, sector))
    }

    // EraseFlashSector_MX
    method EraseFlashSector(sectorNum: nat) returns (result: nat, ghost tries: nat)
      requires chip.Valid() && chip.s.Ready()
      modifies `timerCount, `timeoutFlag, `quiet, chip
      ensures chip.Valid() && chip.s.Ready() && chip.erases == old(chip.erases) + tries && tries <= 5
      ensures sectorNum >= SECTOR_COUNT ==> result == 0x80FF && chip.s == old(chip.s)
      ensures sectorNum < SECTOR_COUNT ==>
                ErasedOr(old(chip.s.mem), chip.s.mem, sectorNum, chip.works, result) && (result == 0 || tries == 5)
      ensures chip.works && sectorNum < SECTOR_COUNT ==> tries == 1
    {
      result, tries := 0, 0;
      if sectorNum >= SECTOR_COUNT {
        return 0x80FF, 0;
      }
      WhereSectorIs(sectorNum);
      SwitchFlashBank(sectorNum / SECTORS_PER_BANK);
      var addr := sectorNum % SECTORS_PER_BANK * SECTOR_SIZE;
      ghost var m := chip.s.mem;
      var numTries := 0;
      var more := true;
      while more
        invariant chip.Valid() && chip.s.Ready() && chip.s.Address(addr) == sectorNum * SECTOR_SIZE
        invariant chip.erases == old(chip.erases) + tries && SameOutside(m, chip.s.mem, sectorNum)
        invariant more ==> tries == numTries <= 4 && (tries == 0 || !chip.works) && (tries == 0 ==> chip.s.mem == m)
        invariant !more ==>
                    ErasedOr(m, chip.s.mem, sectorNum, chip.works, result) && (result == 0 || tries == 5) && tries <= 5
        invariant !more && chip.works ==> tries == 1
        decreases more, 5 - numTries
      {
        result := TryErase(addr, sectorNum);
        tries := tries + 1;
        if !Failed(result) || numTries > 3 {
          more := false;
        } else {
          numTries := numTries + 1;
        }
      }
    }

    // As much of a sector is programmed as a chip that works has been told to.
    static ghost predicate Filled(m: seq<Byte>, sector: nat, src: seq<Byte>, k: nat)
      requires |m| == ROM_SIZE && sector < SECTOR_COUNT && k <= SECTOR_SIZE <= |src|
    {
      forall a {:trigger m[a]} :: InSector(a, sector) ==>
        m[a] == if a - sector * SECTOR_SIZE < k then src[a - sector * SECTOR_SIZE] else 0xFF
    }

    // The loop of ProgramFlashSector_MX.
    method FillSector(sectorNum: nat, src: seq<Byte>) returns (result: nat)
      requires chip.Valid() && chip.s.Ready() && SECTOR_SIZE <= |src| && sectorNum < SECTOR_COUNT
      requires chip.works ==> Filled(chip.s.mem, sectorNum, src, 0)
      modifies this, chip
      ensures chip.Valid() && chip.s.Ready() && chip.erases == old(chip.erases)
      ensures SameOutside(old(chip.s.mem), chip.s.mem, sectorNum)
      ensures chip.works ==> result == 0 && Filled(chip.s.mem, sectorNum, src, SECTOR_SIZE)
    {
      result := 0;
      WhereSectorIs(sectorNum);
      SwitchFlashBank(sectorNum / SECTORS_PER_BANK);
      remainingBytes := SECTOR_SIZE;
      var k: nat, dest: nat := 0, sectorNum % SECTORS_PER_BANK * SECTOR_SIZE;
      ghost var m, base := chip.s.mem, sectorNum * SECTOR_SIZE;
      while remainingBytes > 0
        invariant chip.Valid() && chip.s.Ready() && chip.erases == old(chip.erases)
        invariant k + remainingBytes == SECTOR_SIZE && dest == sectorNum % SECTORS_PER_BANK * SECTOR_SIZE + k
        invariant chip.s.Address(dest) == base + k && SameOutside(m, chip.s.mem, sectorNum)
        invariant chip.works ==> result == 0 && Filled(chip.s.mem, sectorNum, src, k)
      {
        ghost var before := chip.s;
        result := ProgramByte(src[k], dest, base + k);
        OneByte(before, chip.s, chip.works, sectorNum, src, k, result);
        SameTwice(m, before.mem, chip.s.mem, sectorNum);
        if result != 0 {
          return;
        }
        remainingBytes := remainingBytes - 1;
        k := k + 1;
        dest := dest + 1;
      }
    }

    // ProgramFlashSector_MX
    method ProgramFlashSector(sectorNum: nat, src: seq<Byte>) returns (result: nat, ghost tries: nat)
      requires chip.Valid() && chip.s.Ready() && SECTOR_SIZE <= |src|
      modifies this, chip
      ensures chip.Valid() && chip.s.Ready() && chip.erases == old(chip.erases) + tries && tries <= 5
      ensures sectorNum >= SECTOR_COUNT ==> result == 0x80FF && chip.s == old(chip.s)
      ensures sectorNum < SECTOR_COUNT ==> SameOutside(old(chip.s.mem), chip.s.mem, sectorNum)
      ensures chip.works && sectorNum < SECTOR_COUNT ==>
                result == 0 && tries == 1 && Filled(chip.s.mem, sectorNum, src, SECTOR_SIZE)
    {
      if sectorNum >= SECTOR_COUNT {
        return 0x80FF, 0;
      }
      ghost var m := chip.s.mem;
      result, tries := EraseFlashSector(sectorNum);
      if result == 0 {
        ghost var n := chip.s.mem;
        result := FillSector(sectorNum, src);
        SameTwice(m, n, chip.s.mem, sectorNum);
      }
    }

    // ---------- verifying ----------

    // VerifyFlashSector_Core: 0, or the address of the first byte that differs.
    method VerifyFlashSectorCore(src: seq<Byte>, tgt: nat, size: nat) returns (r: nat)
      requires chip.Valid() && chip.s.Ready() && size <= |src| && tgt + size <= BANK_SIZE
               && chip.s.Address(tgt) + size <= ROM_SIZE
      ensures r == 0 <==> chip.s.mem[chip.s.Address(tgt)..chip.s.Address(tgt) + size] == src[..size]
      ensures r != 0 ==>
                FLASH_BASE + tgt <= r < FLASH_BASE + tgt + size
                && src[r - FLASH_BASE - tgt] != chip.s.mem[chip.s.Address(r - FLASH_BASE)]
    {
      ghost var base, m := chip.s.Address(tgt), chip.s.mem;
      for i := 0 to size
        invariant m[base..base + i] == src[..i]
      {
        var byte := chip.Read(tgt + i);
        assert byte == m[base + i] == m[base..base + size][i];
        if byte != src[i] {
          assert src[..size][i] == src[i];
          return FLASH_BASE + tgt + i;
        }
        assert m[base..base + (i + 1)] == m[base..base + i] + [m[base + i]];
        assert src[..i + 1] == src[..i] + [src[i]];
      }
      r := 0;
    }

    // VerifyFlashSector
    method VerifyFlashSector(sectorNum: nat, src: seq<Byte>) returns (r: nat)
      requires chip.Valid() && chip.s.Ready() && SECTOR_SIZE <= |src| && sectorNum < SECTOR_COUNT
      modifies chip
      ensures chip.Valid() && chip.s.Ready() && chip.erases == old(chip.erases) && chip.s.mem == old(chip.s.mem)
      ensures r == 0 <==> SectorOf(chip.s.mem, sectorNum) == src[..SECTOR_SIZE]
    {
      WhereSectorIs(sectorNum);
      SwitchFlashBank(sectorNum / SECTORS_PER_BANK);
      r := VerifyFlashSectorCore(src, sectorNum % SECTORS_PER_BANK * SECTOR_SIZE, SECTOR_SIZE);
    }

    // ProgramFlashSectorAndVerify: 0 only if the sector holds the source, nothing
    // changed elsewhere, and no more than three attempts with five erases each; with a
    // chip that works, 0 at the first attempt.
    method ProgramFlashSectorAndVerify(sectorNum: nat, src: seq<Byte>) returns (result: nat, ghost tries: seq<nat>)
      requires chip.Valid() && chip.s.Ready() && SECTOR_SIZE <= |src|
      modifies this, chip
      ensures chip.Valid() && chip.s.Ready()
      ensures sectorNum >= SECTOR_COUNT ==> result == 0x80FF && chip.s == old(chip.s)
      ensures sectorNum < SECTOR_COUNT ==> SameOutside(old(chip.s.mem), chip.s.mem, sectorNum)
      ensures result == 0 ==> sectorNum < SECTOR_COUNT && SectorOf(chip.s.mem, sectorNum) == src[..SECTOR_SIZE]
      ensures |tries| <= 3 && AtMost(tries, 5) && chip.erases == old(chip.erases) + Sum(tries)
              && (result != 0 ==> |tries| == 3)
      ensures chip.works && sectorNum < SECTOR_COUNT ==> result == 0 && tries == [1]
    {
      result, tries := 0, [];
      ghost var m := chip.s.mem;
      for i := 0 to 3
        invariant chip.Valid() && chip.s.Ready() && |tries| == i && AtMost(tries, 5)
                  && chip.erases == old(chip.erases) + Sum(tries)
        invariant sectorNum >= SECTOR_COUNT ==> chip.s == old(chip.s) && (i > 0 ==> result == 0x80FF)
        invariant sectorNum < SECTOR_COUNT ==> SameOutside(m, chip.s.mem, sectorNum)
        invariant i > 0 ==> result != 0 && !(chip.works && sectorNum < SECTOR_COUNT)
      {
        ghost var before, n := chip.s.mem, 0;
        result, n := ProgramFlashSector(sectorNum, src);
        SumAppend(tries, n);
        tries := tries + [n];
        if sectorNum < SECTOR_COUNT {
          SameTwice(m, before, chip.s.mem, sectorNum);
        }
        if result == 0 {
          if chip.works {
            FilledIsSector(chip.s.mem, sectorNum, src);
          }
          result := VerifyFlashSector(sectorNum, src);
          if result == 0 {
            break;
          }
        }
      }
    }
  }

  const FLASH_BASE := 0xE000000

  predicate AtMost(s: seq<nat>, n: nat) { forall i {:trigger s[i]} :: 0 <= i < |s| ==> s[i] <= n }

  function Sum(s: seq<nat>): nat { if s == [] then 0 else Sum(s[..|s| - 1]) + s[|s| - 1] }

  lemma SumAppend(s: seq<nat>, n: nat)
    ensures Sum(s + [n]) == Sum(s) + n
  {
    assert (s + [n])[..|s|] == s;
  }

  lemma FilledIsSector(m: seq<Byte>, sector: nat, src: seq<Byte>)
    requires |m| == ROM_SIZE && sector < SECTOR_COUNT && SECTOR_SIZE <= |src|
             && Driver.Filled(m, sector, src, SECTOR_SIZE)
    ensures SectorOf(m, sector) == src[..SECTOR_SIZE]
  {
    var s := SectorOf(m, sector);
    forall i | 0 <= i < SECTOR_SIZE ensures s[i] == src[i] {
      assert s[i] == m[sector * SECTOR_SIZE + i];
    }
  }

  // The bank and the offset of a sector number.
  lemma WhereSectorIs(n: nat)
    requires n < SECTOR_COUNT
    ensures n / SECTORS_PER_BANK < 2 && n % SECTORS_PER_BANK * SECTOR_SIZE + SECTOR_SIZE <= BANK_SIZE
    ensures n / SECTORS_PER_BANK * BANK_SIZE + n % SECTORS_PER_BANK * SECTOR_SIZE == n * SECTOR_SIZE
  {
  }

  // Each of the 128K bytes of the chip is in exactly one sector of 4096 bytes, of which
  // each bank of 64K has sixteen; the banks appear at 0xE000000.
  lemma SectorsCoverChip(a: nat)
    requires a < 0x2_0000
    ensures ROM_SIZE == 0x2_0000 && FLASH_BASE == 0xE00_0000 && SECTOR_COUNT == 32
    ensures InSector(a, a / 4096) && a / 4096 < 32
    ensures forall n: nat :: InSector(a, n) ==> n == a / 4096
    ensures a == a / 4096 / SECTORS_PER_BANK * 0x1_0000 + a / 4096 % SECTORS_PER_BANK * 4096 + a % 4096
    ensures a / 4096 / SECTORS_PER_BANK < 2
  {
    WhereSectorIs(a / 4096);
    forall n: nat | InSector(a, n) ensures n == a / 4096 {
      assert n * 4096 <= a < (n + 1) * 4096;
    }
  }

  // The command sequences of the chip: three writes, and what the fourth one says; six
  // to erase.
  lemma CommandsAre(s: State, addr: nat, data: Byte)
    requires s.Ready() && addr < 0x1_0000
    ensures var u := Commanded(Commanded(s, 0x5555, 0xAA), 0x2AAA, 0x55);
            var program, bank := Commanded(u, 0x5555, 0xA0), Commanded(u, 0x5555, 0xB0);
            var erase := Commanded(Commanded(Commanded(u, 0x5555, 0x80), 0x5555, 0xAA), 0x2AAA, 0x55);
            && Commanded(program, addr, data) == s.(op := Programming(s.bank * 0x1_0000 + addr, data))
            && (data < 2 ==> Commanded(bank, 0, data) == s.(bank := data))
            && Commanded(erase, addr, 0x30) == s.(op := Erasing((s.bank * 0x1_0000 + addr) / 4096))
  {
  }

  lemma SameTwice(a: seq<Byte>, b: seq<Byte>, c: seq<Byte>, sector: nat)
    requires SameOutside(a, b, sector) && SameOutside(b, c, sector)
    ensures SameOutside(a, c, sector)
  {
    forall i {:trigger c[i]} | 0 <= i < |a| && !InSector(i, sector) ensures c[i] == a[i] {
      assert c[i] == b[i];
    }
  }

  // One byte more.
  lemma OneByte(s: State, t: State, works: bool, sector: nat, src: seq<Byte>, k: nat, result: nat)
    requires s.Ok() && sector < SECTOR_COUNT && k < SECTOR_SIZE <= |src| && sector * SECTOR_SIZE + k < ROM_SIZE
    requires var a := sector * SECTOR_SIZE + k; Driver.Waited(s, t, works, Programming(a, src[k]), a, src[k], 1, result)
    ensures SameOutside(s.mem, t.mem, sector)
    ensures works && Driver.Filled(s.mem, sector, src, k) ==>
              result == 0 && |t.mem| == ROM_SIZE && Driver.Filled(t.mem, sector, src, k + 1)
  {
    var a := sector * SECTOR_SIZE + k;
    assert a / SECTOR_SIZE == sector;
    if works && Driver.Filled(s.mem, sector, src, k) {
      assert s.mem[a] == 0xFF;
      assert t.mem == s.mem[a := src[k]];
    }
  }

  // What time does to a chip.
  ghost predicate Moved(s: State, t: State, works: bool) {
    if s.op.Reading? then t == s
    else if !t.op.Reading? then t == s
    else t == s.(mem := t.mem, op := Reading) && SameOutside(s.mem, t.mem, s.op.Sector())
         && (works ==> Achieves(s.op, s.mem, t.mem))
  }

  // Once the operation at `addr` is over: the chip is ready, and the memory has changed
  // in the operation's sector only.
  ghost predicate Over(s: State, t: State, op: Operation)
    requires !op.Reading?
  {
    && t == s.(mem := t.mem, op := Reading, command := Start) && SameOutside(s.mem, t.mem, op.Sector())
  }
}
