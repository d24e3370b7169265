// The flash chip that the driver in agb_flash/ talks to, as an automaton: it obeys
// only complete command sequences, and what an operation does to its own sector, how
// long it takes and whether it ever ends are up to the chip.

module FlashChip {
  import opened Bytes

  const ROM_SIZE := 131072         // FLASH_ROM_SIZE_1M
  const BANK_SIZE := 65536         // what the address space shows
  const SECTOR_SIZE := 4096
  const SECTOR_COUNT := 32
  const SECTORS_PER_BANK := 16

  // How far a command sequence has come.
  datatype Command = Start | Unlock1 | Unlock2 | Erase | EraseUnlock1 | EraseUnlock2 | Program | Bank

  // What the chip is busy with: programming the byte at an address, or erasing a
  // sector.  Addresses count from the start of the first bank.
  datatype Operation = Reading | Programming(at: nat, data: Byte) | Erasing(sector: nat)
  {
    function Sector(): nat
      requires !Reading?
    {
      if Programming? then at / SECTOR_SIZE else sector
    }

    // What a read gives when it has been done.
    function Expected(): Byte
      requires !Reading?
    {
      if Programming? then data else 0xFF
    }
  }

  datatype State = State(mem: seq<Byte>, bank: nat, command: Command, op: Operation)
  {
    predicate Ok() { |mem| == ROM_SIZE && bank < 2 && (!op.Reading? ==> op.Sector() < SECTOR_COUNT) }

    function Address(addr: nat): nat { bank * BANK_SIZE + addr }

    // Ready for a command.
    predicate Ready() { Ok() && op.Reading? && command == Start }
  }

  // A write while nothing is going on.
  function Commanded(s: State, addr: nat, data: Byte): (t: State)
    requires s.Ok() && addr < BANK_SIZE && s.op.Reading?
    ensures t.Ok() && t.mem == s.mem
  {
    match s.command
    case Start => s.(command := if addr == 0x5555 && data == 0xAA then Unlock1 else Start)
    case Unlock1 => s.(command := if addr == 0x2AAA && data == 0x55 then Unlock2 else Start)
    case Unlock2 => s.(command := if addr == 0x5555 && data == 0x80 then Erase
                                  else if addr == 0x5555 && data == 0xA0 then Program
                                  else if addr == 0x5555 && data == 0xB0 then Bank else Start)
    case Erase => s.(command := if addr == 0x5555 && data == 0xAA then EraseUnlock1 else Start)
    case EraseUnlock1 => s.(command := if addr == 0x2AAA && data == 0x55 then EraseUnlock2 else Start)
    case EraseUnlock2 =>
      if data == 0x30 then s.(command := Start, op := Erasing(s.Address(addr) / SECTOR_SIZE)) else s.(command := Start)
    case Program => s.(command := Start, op := Programming(s.Address(addr), data))
    case Bank => if addr == 0 && data < 2 then s.(command := Start, bank := data) else s.(command := Start)
  }

  predicate InSector(a: int, sector: nat) { sector * SECTOR_SIZE <= a < (sector + 1) * SECTOR_SIZE }

  // Only bytes of one sector differ.
  ghost predicate SameOutside(m: seq<Byte>, n: seq<Byte>, sector: nat) {
    |m| == |n| && forall a {:trigger n[a]} :: 0 <= a < |m| && !InSector(a, sector) ==> n[a] == m[a]
  }

  // A sector full of other bytes.
  function Scrambled(m: seq<Byte>, sector: nat, noise: seq<Byte>): (n: seq<Byte>)
    ensures SameOutside(m, n, sector)
  {
    seq(|m|, a requires 0 <= a < |m| => if InSector(a, sector) && a < |noise| then noise[a] else m[a])
  }

  function Erased(m: seq<Byte>, sector: nat): (n: seq<Byte>)
    ensures SameOutside(m, n, sector) && forall a {:trigger n[a]} :: 0 <= a < |m| && InSector(a, sector) ==>
              n[a] == 0xFF
  {
    seq(|m|, a requires 0 <= a < |m| => if InSector(a, sector) then 0xFF else m[a])
  }

  // What a chip that works makes of the memory; only an erased byte can be programmed.
  predicate Achieves(op: Operation, m: seq<Byte>, n: seq<Byte>)
    requires !op.Reading?
  {
    match op
    case Programming(at, data) => at < |m| && m[at] == 0xFF ==> n == m[at := data]
    case Erasing(sector) => n == Erased(m, sector)
  }

  // Interrupts of the driver's timer within which a chip that works is done.
  function TimeLimit(op: Operation): nat
    requires !op.Reading?
  {
    if op.Programming? then 10 else 2000
  }

  class Chip {
    const works: bool          // it always does what it is told, in time
    var s: State
    var left: nat              // interrupts until the operation ends
    var exceeded: bool         // the operation failed, and the chip waits for a reset
    ghost var erases: nat      // sector erases begun so far

    constructor (works: bool, mem: seq<Byte>)
      requires |mem| == ROM_SIZE
      ensures Valid() && s == State(mem, 0, Start, Reading) && erases == 0 && this.works == works
    {
      this.works, s, left, exceeded, erases := works, State(mem, 0, Start, Reading), 0, false, 0;
    }

    ghost predicate Valid()
      reads this
    {
      s.Ok() && (works && !s.op.Reading? ==> !exceeded && left < TimeLimit(s.op))
    }

    // A write to the chip.  While it is busy it obeys only the reset command, which
    // leaves the sector of the operation in any state.
    method Write(addr: nat, data: Byte)
      requires Valid() && addr < BANK_SIZE
      requires !s.op.Reading? ==> !works
      modifies this
      ensures Valid()
      ensures old(s.op).Reading? ==> s == Commanded(old(s), addr, data)
      ensures !old(s.op).Reading? && data != 0xF0 ==> s == old(s)
      ensures !old(s.op).Reading? && data == 0xF0 ==>
                s == old(s).(mem := s.mem, op := Reading, command := Start)
                && SameOutside(old(s).mem, s.mem, old(s).op.Sector())
      ensures erases == old(erases) + if old(s).op.Reading? && s.op.Erasing? then 1 else 0
    {
      if s.op.Reading? {
        s := Commanded(s, addr, data);
        if !s.op.Reading? {
          exceeded, left := false, *;
          if works && left >= TimeLimit(s.op) {
            left := 0;
          }
        }
        if s.op.Erasing? {
          erases := erases + 1;
        }
      } else if data == 0xF0 {
        var noise := AnyBytes();
        s := s.(mem := Scrambled(s.mem, s.op.Sector(), noise), op := Reading, command := Start);
      }
    }

    method AnyBytes() returns (noise: seq<Byte>)
    {
      noise := *;
    }

    // A read: while the chip is busy, bit 7 is the opposite of what it will be, and
    // bit 5 says that the operation has failed.
    method Read(addr: nat) returns (r: Byte)
      requires Valid() && addr < BANK_SIZE
      ensures s.op.Reading? ==> r == s.mem[s.Address(addr)]
      ensures !s.op.Reading? ==> r != s.op.Expected()
      ensures !s.op.Reading? && works ==> r / 32 % 2 == 0
    {
      if s.op.Reading? {
        r := s.mem[s.Address(addr)];
      } else {
        var noise: Byte := *;
        r := (if s.op.Expected() < 128 then 128 else 0) + noise / 64 % 2 * 64 + (if exceeded then 32 else 0)
             + noise % 32;
      }
    }

    // Time passes: the operation may end, well or badly, or fail, or go on.
    method Elapse()
      requires Valid()
      modifies this`s, this`left, this`exceeded
      ensures Valid()
      ensures old(s.op).Reading? ==> s == old(s)
      ensures !old(s.op).Reading? && !s.op.Reading? ==> s == old(s) && (works ==> left < old(left))
      ensures !old(s.op).Reading? && s.op.Reading? ==>
                && s == old(s).(mem := s.mem, op := Reading) && SameOutside(old(s).mem, s.mem, old(s).op.Sector())
                && (works ==> Achieves(old(s).op, old(s).mem, s.mem))
    {
      if s.op.Reading? {
        return;
      }
      var op := s.op;
      if left > 0 {
        left := left - 1;
      } else if works {
        var noise := AnyBytes();
        s := s.(mem := Outcome(op, s.mem, noise), op := Reading);
      } else {
        var ends: bool := *;
        var fails: bool := *;
        if ends {
          var noise := AnyBytes();
          s := s.(mem := Scrambled(s.mem, op.Sector(), noise), op := Reading);
        } else if fails {
          exceeded := true;
        }
      }
    }
  }

  function Outcome(op: Operation, m: seq<Byte>, noise: seq<Byte>): (n: seq<Byte>)
    requires !op.Reading?
    ensures SameOutside(m, n, op.Sector()) && Achieves(op, m, n)
  {
    match op
    case Erasing(sector) => Erased(m, sector)
    case Programming(at, data) =>
      if at < |m| && m[at] == 0xFF then m[at := data] else Scrambled(m, at / SECTOR_SIZE, noise)
  }
}
