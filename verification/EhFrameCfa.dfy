// Call frame instructions (DWARF 4, section 6.4.2): how the parser steps over them to
// find the padding after the last one, and what that leaves of an edited FDE.

module EhFrameCfa {
  import opened Bytes
  import opened Leb128
  import opened EhFrame
  import opened EhFrameFde
  import opened EhFrameCie

  const DW_CFA_NOP: Byte := 0x00
  const DW_CFA_SET_LOC: Byte := 0x01
  const WORD := 0x1_0000_0000_0000_0000    // bfd_vma

  // What follows an opcode: LEB128 numbers and then perhaps a block with its length, or
  // so many bytes, or a pointer.
  datatype Shape = Numbers(n: nat) | Counted(n: nat) | Fixed(n: nat) | Pointer | Unknown

  // `op & 0xc0 ? op & 0xc0 : op`
  function ShapeOf(op: Byte): Shape {
    if op >= 0x40 then
      // DW_CFA_advance_loc, DW_CFA_offset, DW_CFA_restore
      if op / 0x40 == 2 then Numbers(1) else Numbers(0)
    else match op
      case 0x00 | 0x0a | 0x0b | 0x2d => Numbers(0)
      case 0x06 | 0x07 | 0x08 | 0x0d | 0x0e | 0x13 | 0x2e => Numbers(1)
      case 0x14 | 0x15 | 0x05 | 0x09 | 0x0c | 0x11 | 0x2f | 0x12 => Numbers(2)
      case 0x0f => Counted(0)
      case 0x10 | 0x16 => Counted(1)
      case 0x01 => Pointer
      case 0x02 => Fixed(1)
      case 0x03 => Fixed(2)
      case 0x04 => Fixed(4)
      case 0x1d => Fixed(8)
      case _ => Unknown
  }

  // skip_leb128, if the end of the number is there.
  function AfterLeb(b: seq<Byte>, i: nat, end: nat): (r: Option<nat>)
    requires i <= end <= |b|
    ensures r.Some? ==> i < r.value <= end
  {
    var j := SkipLeb(b, i, end);
    if i < j && b[j - 1] < 0x80 then Some(j) else None
  }

  // skip_bytes
  function AfterBytes(i: nat, end: nat, n: nat): (r: Option<nat>)
    requires i <= end
    ensures r.Some? ==> i <= r.value <= end
  {
    if end - i < n then None else Some(i + n)
  }

  // The number that read_uleb128 reads between i and j.
  function LebValue(b: seq<Byte>, i: nat, j: nat): nat
    requires i <= j <= |b|
  {
    ReadUleb(b[i..j]).0 % WORD
  }

  // n numbers, and then perhaps a block.
  function AfterNumbers(b: seq<Byte>, i: nat, end: nat, n: nat, counted: bool): (r: Option<nat>)
    requires i <= end <= |b|
    ensures r.Some? ==> i <= r.value <= end
    decreases n
  {
    if n > 0 then
      var j := AfterLeb(b, i, end);
      if j.None? then None else AfterNumbers(b, j.value, end, n - 1, counted)
    else if counted then
      var j := AfterLeb(b, i, end);
      if j.None? then None else AfterBytes(j.value, end, LebValue(b, i, j.value))
    else Some(i)
  }

  // skip_cfa_op, for pointers of w bytes.
  function AfterOp(b: seq<Byte>, i: nat, end: nat, w: nat): (r: Option<nat>)
    requires i < end <= |b|
    ensures r.Some? ==> i < r.value <= end
  {
    match ShapeOf(b[i])
    case Numbers(n) => AfterNumbers(b, i + 1, end, n, false)
    case Counted(n) => AfterNumbers(b, i + 1, end, n, true)
    case Fixed(n) => AfterBytes(i + 1, end, n)
    case Pointer => AfterBytes(i + 1, end, w)
    case Unknown => None
  }

  // Where the instructions other than nops start, if every byte makes sense.
  function Instructions(b: seq<Byte>, i: nat, end: nat, w: nat): (r: Option<seq<nat>>)
    requires i <= end <= |b|
    ensures r.Some? ==> forall k {:trigger r.value[k]} :: 0 <= k < |r.value| ==> i <= r.value[k] < end
    decreases end - i
  {
    if i == end then Some([])
    else if b[i] == DW_CFA_NOP then Instructions(b, i + 1, end, w)
    else
      var q := AfterOp(b, i, end, w);
      if q.None? then None
      else
        var rest := Instructions(b, q.value, end, w);
        if rest.None? then None else Some([i] + rest.value)
  }

  // The end of the last of them, or `last`.
  function LastEnd(b: seq<Byte>, i: nat, end: nat, w: nat, last: nat): (e: nat)
    requires i <= end <= |b| && Instructions(b, i, end, w).Some?
    decreases end - i
  {
    if i == end then last
    else if b[i] == DW_CFA_NOP then LastEnd(b, i + 1, end, w, last)
    else LastEnd(b, AfterOp(b, i, end, w).value, end, w, AfterOp(b, i, end, w).value)
  }

  // Those that are DW_CFA_set_loc.
  function SetLocOps(b: seq<Byte>, xs: seq<nat>): (s: seq<nat>)
    requires forall k {:trigger xs[k]} :: 0 <= k < |xs| ==> xs[k] < |b|
  {
    if xs == [] then [] else (if b[xs[0]] == DW_CFA_SET_LOC then [xs[0]] else []) + SetLocOps(b, xs[1..])
  }

  // ---------- stepping ----------

  method SkipLeb128(b: seq<Byte>, iter: nat, end: nat) returns (ok: bool, i: nat)
    requires iter <= end <= |b|
    ensures ok == AfterLeb(b, iter, end).Some? && (ok ==> i == AfterLeb(b, iter, end).value)
  {
    i := iter;
    while i < end
      invariant iter <= i <= end && SkipLeb(b, iter, end) == SkipLeb(b, i, end) && (i > iter ==> b[i - 1] >= 0x80)
    {
      i := i + 1;
      if b[i - 1] < 0x80 {
        return true, i;
      }
    }
    ok := false;
  }

  // The whole number, with the bytes from p on read.
  lemma {:induction false} OneByteMore(s: seq<Byte>, p: nat)
    requires p < |s| && (forall k :: 0 <= k < |s| - 1 ==> s[k] >= 0x80) && s[|s| - 1] < 0x80
    ensures ReadUleb(s[p..]).0 == if p == |s| - 1 then s[p] else s[p] % 0x80 + 0x80 * ReadUleb(s[p + 1..]).0
  {
    assert s[p..][0] == s[p] && s[p..][1..] == s[p + 1..];
  }

  lemma ShiftIn(v: nat, d: nat)
    ensures (v % WORD * 0x80 % WORD + d) % WORD == (d + 0x80 * v) % WORD
  {
    var q := v / WORD;
    assert v * 0x80 == v % WORD * 0x80 + WORD * (q * 0x80);
    RemainderIs(v * 0x80, WORD, q * 0x80 + v % WORD * 0x80 / WORD, v % WORD * 0x80 % WORD);
    AddRemainder(d, v * 0x80, WORD);
  }

  // The bytes of a number go on until the one below 0x80.
  lemma {:induction false} LebBytes(b: seq<Byte>, i: nat, end: nat)
    requires i <= end <= |b| && AfterLeb(b, i, end).Some?
    ensures var j := AfterLeb(b, i, end).value; b[j - 1] < 0x80 && forall k :: i <= k < j - 1 ==> b[k] >= 0x80
    decreases end - i
  {
    if b[i] >= 0x80 {
      LebBytes(b, i + 1, end);
    }
  }

  // read_uleb128, which reads the bytes backwards.
  method ReadUleb128(b: seq<Byte>, iter: nat, end: nat) returns (ok: bool, i: nat, value: nat)
    requires iter <= end <= |b|
    ensures ok == AfterLeb(b, iter, end).Some?
    ensures ok ==> i == AfterLeb(b, iter, end).value && value == LebValue(b, iter, i)
  {
    hide ReadUleb, AfterLeb;
    value := 0;
    ok, i := SkipLeb128(b, iter, end);
    if !ok {
      return;
    }
    LebBytes(b, iter, end);
    ghost var s := b[iter..i];
    var p := i - 1;
    value := b[p];
    OneByteMore(s, p - iter);
    while p > iter
      invariant iter <= p < i && value == ReadUleb(s[p - iter..]).0 % WORD
    {
      ghost var v := ReadUleb(s[p - iter..]).0;
      p := p - 1;
      value := (value * 0x80 % WORD + b[p] % 0x80) % WORD;
      OneByteMore(s, p - iter);
      ShiftIn(v, b[p] % 0x80);
    }
    assert s[0..] == s;
  }

  method SkipBytes(iter: nat, end: nat, length: nat) returns (ok: bool, i: nat)
    requires iter <= end
    ensures ok == AfterBytes(iter, end, length).Some? && (ok ==> i == AfterBytes(iter, end, length).value)
  {
    if end - iter < length {
      return false, end;
    }
    return true, iter + length;
  }

  method SkipNumbers(b: seq<Byte>, iter: nat, end: nat, n: nat, counted: bool) returns (ok: bool, i: nat)
    requires iter <= end <= |b|
    ensures ok == AfterNumbers(b, iter, end, n, counted).Some?
    ensures ok ==> i == AfterNumbers(b, iter, end, n, counted).value
  {
    hide AfterLeb, LebValue;
    ok, i := true, iter;
    for k := n downto 0
      invariant i <= end && AfterNumbers(b, iter, end, n, counted) == AfterNumbers(b, i, end, k, counted)
    {
      ok, i := SkipLeb128(b, i, end);
      if !ok {
        return;
      }
    }
    ok := true;
    if counted {
      var length;
      ok, i, length := ReadUleb128(b, i, end);
      if ok {
        ok, i := SkipBytes(i, end, length);
      }
    }
  }

  method SkipCfaOp(b: seq<Byte>, iter: nat, end: nat, w: nat) returns (ok: bool, i: nat)
    requires iter < end <= |b|
    ensures ok == AfterOp(b, iter, end, w).Some? && (ok ==> i == AfterOp(b, iter, end, w).value)
  {
    hide AfterNumbers, AfterBytes, ShapeOf;
    i := iter + 1;
    match ShapeOf(b[iter])
    case Numbers(n) => ok, i := SkipNumbers(b, i, end, n, false);
    case Counted(n) => ok, i := SkipNumbers(b, i, end, n, true);
    case Fixed(n) => ok, i := SkipBytes(i, end, n);
    case Pointer => ok, i := SkipBytes(i, end, w);
    case Unknown => ok := false;
  }

  // skip_non_nops: the end of the last instruction that is not a nop, and how many of
  // them are DW_CFA_set_loc.
  method SkipNonNops(b: seq<Byte>, start: nat, end: nat, w: nat) returns (ok: bool, last: nat, setLocs: nat)
    requires start <= end <= |b|
    ensures ok == Instructions(b, start, end, w).Some?
    ensures ok ==> last == LastEnd(b, start, end, w, start)
                   && setLocs == |SetLocOps(b, Instructions(b, start, end, w).value)|
  {
    hide AfterOp;
    var buf := start;
    last, setLocs := start, 0;
    while buf < end
      invariant buf <= end
      invariant Instructions(b, start, end, w).Some? == Instructions(b, buf, end, w).Some?
      invariant Instructions(b, buf, end, w).Some? ==>
                  && LastEnd(b, start, end, w, start) == LastEnd(b, buf, end, w, last)
                  && |SetLocOps(b, Instructions(b, start, end, w).value)|
                     == setLocs + |SetLocOps(b, Instructions(b, buf, end, w).value)|
    {
      if b[buf] == DW_CFA_NOP {
        buf := buf + 1;
      } else {
        if Instructions(b, buf, end, w).Some? {
          FirstSetLoc(b, buf, end, w);
        }
        if b[buf] == DW_CFA_SET_LOC {
          setLocs := setLocs + 1;
        }
        ok, buf := SkipCfaOp(b, buf, end, w);
        if !ok {
          return;
        }
        last := buf;
      }
    }
    ok := true;
  }

  lemma FirstSetLoc(b: seq<Byte>, i: nat, end: nat, w: nat)
    requires i < end <= |b| && b[i] != DW_CFA_NOP && Instructions(b, i, end, w).Some?
    ensures AfterOp(b, i, end, w).Some?
    ensures var rest := Instructions(b, AfterOp(b, i, end, w).value, end, w);
            && rest.Some?
            && SetLocOps(b, Instructions(b, i, end, w).value)
               == (if b[i] == DW_CFA_SET_LOC then [i] else []) + SetLocOps(b, rest.value)
  {
    hide AfterOp;
    var rest := Instructions(b, AfterOp(b, i, end, w).value, end, w).value;
    assert ([i] + rest)[1..] == rest;
  }

  // The loop that records where set_loc arguments are; there are as many as
  // skip_non_nops counted, so they fit in the table.
  method RecordSetLocs(b: seq<Byte>, start: nat, insns: nat, end: nat, w: nat, count: nat) returns (table: array<nat>)
    requires start <= insns <= end <= |b| && Instructions(b, insns, end, w).Some?
    requires count == |SetLocOps(b, Instructions(b, insns, end, w).value)|
    ensures fresh(table) && table.Length == count
    ensures forall k {:trigger table[k]} :: 0 <= k < count ==>
              table[k] == SetLocOps(b, Instructions(b, insns, end, w).value)[k] + 1 - start
  {
    hide AfterOp, SetLocOps;
    ghost var all := SetLocOps(b, Instructions(b, insns, end, w).value);
    table := new nat[count];
    var cnt, p := 0, insns;
    while p < end
      invariant insns <= p <= end && cnt <= count && Instructions(b, p, end, w).Some?
      invariant all[cnt..] == SetLocOps(b, Instructions(b, p, end, w).value)
      invariant forall k {:trigger table[k]} :: 0 <= k < cnt ==> table[k] == all[k] + 1 - start
    {
      if b[p] != DW_CFA_NOP {
        FirstSetLoc(b, p, end, w);
      } else {
        NopIsStep(b, p, end, w);
      }
      if b[p] == DW_CFA_SET_LOC {
        assert all[cnt..][0] == p && all[cnt..][1..] == all[cnt + 1..];
        table[cnt] := p + 1 - start;
        cnt := cnt + 1;
      }
      var ok;
      ok, p := SkipCfaOp(b, p, end, w);
    }
    NoneAtEnd(b, end, w);
  }

  lemma NopIsStep(b: seq<Byte>, i: nat, end: nat, w: nat)
    requires i < end <= |b| && b[i] == DW_CFA_NOP
    ensures AfterOp(b, i, end, w) == Some(i + 1) && Instructions(b, i, end, w) == Instructions(b, i + 1, end, w)
  {
  }

  lemma NoneAtEnd(b: seq<Byte>, end: nat, w: nat)
    requires end <= |b|
    ensures Instructions(b, end, end, w) == Some([]) && SetLocOps(b, []) == []
  {
  }

  // ---------- what the padding is ----------

  lemma {:induction false} OnlyNops(b: seq<Byte>, i: nat, end: nat, w: nat)
    requires i <= end <= |b| && forall k :: i <= k < end ==> b[k] == DW_CFA_NOP
    ensures Instructions(b, i, end, w) == Some([])
    decreases end - i
  {
    if i < end {
      OnlyNops(b, i + 1, end, w);
    }
  }

  // An argument of a DW_CFA_set_loc among xs.
  predicate InArgument(b: seq<Byte>, xs: seq<nat>, w: nat, k: nat) {
    exists j {:trigger xs[j]} :: 0 <= j < |xs| && xs[j] < |b| && b[xs[j]] == DW_CFA_SET_LOC && xs[j] < k <= xs[j] + w
  }

  function ShiftedBy(xs: seq<nat>, d: nat): (s: seq<nat>)
    ensures |s| == |xs| && forall k {:trigger s[k]} :: 0 <= k < |s| ==> s[k] == xs[k] + d
  {
    seq<nat>(|xs|, k requires 0 <= k < |xs| => xs[k] + d)
  }

  // c has the bytes of b from i to end, d places further on.
  predicate Carries(b: seq<Byte>, i: nat, end: nat, c: seq<Byte>, d: nat) {
    end <= |b| && end + d <= |c| && forall k {:trigger b[k]} :: i <= k < end ==> c[k + d] == b[k]
  }

  lemma {:induction false} LebCarried(b: seq<Byte>, i: nat, end: nat, c: seq<Byte>, d: nat, to: nat)
    requires i <= end <= |b| && AfterLeb(b, i, end).Some? && AfterLeb(b, i, end).value + d <= to <= |c|
    requires Carries(b, i, AfterLeb(b, i, end).value, c, d)
    ensures AfterLeb(c, i + d, to) == Some(AfterLeb(b, i, end).value + d)
    ensures LebValue(c, i + d, AfterLeb(b, i, end).value + d) == LebValue(b, i, AfterLeb(b, i, end).value)
    decreases end - i
  {
    var j := AfterLeb(b, i, end).value;
    assert c[i + d..j + d] == b[i..j];
    LebSkipped(b, i, end, c, d, to);
  }

  lemma {:induction false} LebSkipped(b: seq<Byte>, i: nat, end: nat, c: seq<Byte>, d: nat, to: nat)
    requires i <= end <= |b| && AfterLeb(b, i, end).Some? && AfterLeb(b, i, end).value + d <= to <= |c|
    requires Carries(b, i, AfterLeb(b, i, end).value, c, d)
    ensures AfterLeb(c, i + d, to) == Some(AfterLeb(b, i, end).value + d)
    decreases end - i
  {
    assert c[i + d] == b[i];
    if b[i] >= 0x80 {
      LebSkipped(b, i + 1, end, c, d, to);
    }
  }

  lemma {:induction false} NumbersCarried(b: seq<Byte>, i: nat, end: nat, n: nat, counted: bool, c: seq<Byte>, d: nat,
                                          to: nat)
    requires i <= end <= |b| && AfterNumbers(b, i, end, n, counted).Some?
    requires AfterNumbers(b, i, end, n, counted).value + d <= to <= |c|
    requires Carries(b, i, AfterNumbers(b, i, end, n, counted).value, c, d)
    ensures AfterNumbers(c, i + d, to, n, counted) == Some(AfterNumbers(b, i, end, n, counted).value + d)
    decreases n
  {
    hide AfterLeb, LebValue;
    if n > 0 || counted {
      LebCarried(b, i, end, c, d, to);
      if n > 0 {
        NumbersCarried(b, AfterLeb(b, i, end).value, end, n - 1, counted, c, d, to);
      }
    }
  }

  // An instruction is as long wherever its bytes are and whatever follows.
  lemma OpCarried(b: seq<Byte>, i: nat, end: nat, w: nat, c: seq<Byte>, d: nat, to: nat)
    requires i < end <= |b| && AfterOp(b, i, end, w).Some? && AfterOp(b, i, end, w).value + d <= to <= |c|
    requires Carries(b, i, AfterOp(b, i, end, w).value, c, d)
    ensures i + d < to && AfterOp(c, i + d, to, w) == Some(AfterOp(b, i, end, w).value + d)
  {
    hide AfterNumbers;
    assert c[i + d] == b[i];
    match ShapeOf(b[i])
    case Numbers(n) => NumbersCarried(b, i + 1, end, n, false, c, d, to);
    case Counted(n) => NumbersCarried(b, i + 1, end, n, true, c, d, to);
    case _ =>
  }

  // The padding that the parser takes off is nothing but nops, and without it the
  // instructions are read as before.
  lemma {:induction false} PaddingIsNoInstruction(b: seq<Byte>, i: nat, end: nat, w: nat, last: nat)
    requires last <= i <= end <= |b| && Instructions(b, i, end, w).Some?
    ensures var xs, e := Instructions(b, i, end, w).value, LastEnd(b, i, end, w, last);
            && last <= e <= end && (if xs == [] then e == last else i < e)
            && (forall k :: i <= k < end && e <= k ==> b[k] == DW_CFA_NOP)
            && (xs != [] ==> Instructions(b, i, e, w) == Some(xs))
    decreases end - i
  {
    hide AfterOp;
    if i < end {
      if b[i] == DW_CFA_NOP {
        PaddingIsNoInstruction(b, i + 1, end, w, last);
      } else {
        var q := AfterOp(b, i, end, w).value;
        PaddingIsNoInstruction(b, q, end, w, q);
        var e := LastEnd(b, q, end, w, q);
        OpCarried(b, i, end, w, b, 0, e);
        OnlyNops(b, q, q, w);
      }
    }
  }

  // Bytes that carry the instructions, with the arguments of DW_CFA_set_loc changed
  // perhaps and with any number of nops after them, are read as the same instructions.
  lemma {:induction false} InstructionsCarried(b: seq<Byte>, i: nat, end: nat, w: nat, xs: seq<nat>, c: seq<Byte>,
                                               d: nat, to: nat)
    requires i <= end <= |b| && Instructions(b, i, end, w) == Some(xs) && end + d <= to <= |c|
    requires forall k {:trigger b[k]} :: i <= k < end ==> c[k + d] == b[k] || InArgument(b, xs, w, k)
    requires forall k {:trigger c[k]} :: end + d <= k < to ==> c[k] == DW_CFA_NOP
    ensures Instructions(c, i + d, to, w) == Some(ShiftedBy(xs, d))
    decreases end - i
  {
    hide AfterOp, InArgument, ShiftedBy;
    if i == end {
      ShiftedNone(d);
      OnlyNops(c, i + d, to, w);
    } else if b[i] == DW_CFA_NOP {
      NotBefore(b, xs, w, i);
      assert c[i + d] == b[i];
      InstructionsCarried(b, i + 1, end, w, xs, c, d, to);
    } else {
      FirstCarried(b, i, end, w, xs, c, d, to);
      var q := AfterOp(b, i, end, w).value;
      RestArguments(b, i, end, w, xs, q);
      InstructionsCarried(b, q, end, w, xs[1..], c, d, to);
      ShiftedHead(xs, d);
    }
  }

  lemma ShiftedNone(d: nat)
    ensures ShiftedBy([], d) == []
  {
  }

  lemma ShiftedHead(xs: seq<nat>, d: nat)
    requires xs != []
    ensures ShiftedBy(xs, d) == [xs[0] + d] + ShiftedBy(xs[1..], d)
  {
  }

  // The first byte is no argument.
  lemma NotBefore(b: seq<Byte>, xs: seq<nat>, w: nat, i: nat)
    requires forall j {:trigger xs[j]} :: 0 <= j < |xs| ==> i <= xs[j]
    ensures !InArgument(b, xs, w, i)
  {
  }

  // Arguments past the first instruction belong to later ones.
  lemma RestArguments(b: seq<Byte>, i: nat, end: nat, w: nat, xs: seq<nat>, q: nat)
    requires i < end <= |b| && b[i] != DW_CFA_NOP && Instructions(b, i, end, w) == Some(xs)
             && AfterOp(b, i, end, w) == Some(q)
    ensures xs != [] && xs[0] == i && Instructions(b, q, end, w) == Some(xs[1..])
    ensures forall k {:trigger b[k]} :: q <= k && InArgument(b, xs, w, k) ==> InArgument(b, xs[1..], w, k)
    ensures forall k {:trigger b[k]} :: i <= k < q && InArgument(b, xs, w, k) ==> b[i] == DW_CFA_SET_LOC
  {
    assert b[i] == DW_CFA_SET_LOC ==> q == i + 1 + w;
    hide AfterOp;
    var rest := Instructions(b, q, end, w).value;
    assert xs == [i] + rest && xs[1..] == rest;
    assert forall j {:trigger xs[j]} :: 0 < j < |xs| ==> xs[j] == rest[j - 1] >= q;
    forall k | q <= k && InArgument(b, xs, w, k) ensures InArgument(b, rest, w, k) {
      var j :| 0 <= j < |xs| && xs[j] < |b| && b[xs[j]] == DW_CFA_SET_LOC && xs[j] < k <= xs[j] + w;
      assert j > 0 ==> xs[j] == rest[j - 1];
    }
    forall k | i <= k < q && InArgument(b, xs, w, k) ensures b[i] == DW_CFA_SET_LOC {
      var j :| 0 <= j < |xs| && xs[j] < |b| && b[xs[j]] == DW_CFA_SET_LOC && xs[j] < k <= xs[j] + w;
    }
  }

  lemma FirstCarried(b: seq<Byte>, i: nat, end: nat, w: nat, xs: seq<nat>, c: seq<Byte>, d: nat, to: nat)
    requires i < end <= |b| && b[i] != DW_CFA_NOP && Instructions(b, i, end, w) == Some(xs) && end + d <= to <= |c|
    requires forall k {:trigger b[k]} :: i <= k < end ==> c[k + d] == b[k] || InArgument(b, xs, w, k)
    ensures AfterOp(b, i, end, w).Some? && c[i + d] == b[i]
    ensures AfterOp(c, i + d, to, w) == Some(AfterOp(b, i, end, w).value + d)
  {
    hide AfterOp, InArgument;
    var q := AfterOp(b, i, end, w).value;
    RestArguments(b, i, end, w, xs, q);
    NotBefore(b, xs, w, i);
    assert c[i + d] == b[i];
    if b[i] == DW_CFA_SET_LOC {
      SetLocEnds(b, i, end, w);
      SetLocEnds(c, i + d, to, w);
    } else {
      OpCarried(b, i, end, w, c, d, to);
    }
  }

  lemma SetLocEnds(b: seq<Byte>, i: nat, end: nat, w: nat)
    requires i < end <= |b| && b[i] == DW_CFA_SET_LOC
    ensures AfterOp(b, i, end, w) == if i + 1 + w <= end then Some(i + 1 + w) else None
  {
  }

  // ---------- the edited FDE ----------

  // What the parser knows of an FDE whose instructions start at insns: they come after
  // the augmentation data, and the recorded set_loc arguments, if there are any, are
  // those of DW_CFA_set_loc instructions.
  predicate InstructionsAt(b: seq<Byte>, job: FdeJob, ptrSize: PtrSize, insns: nat, xs: seq<nat>)
    requires job.Ok(ptrSize) && |b| == job.newSize
  {
    var w := job.Width(ptrSize);
    && 8 + 2 * w <= insns <= job.p.size
    && (job.PatchesLsda() ==> 8 + job.p.lsdaOffset + job.LsdaWidth(ptrSize) <= insns)
    && Instructions(b, insns, job.p.size, w) == Some(xs)
    && forall i {:trigger job.p.setLoc[i]} :: 0 <= i < |job.p.setLoc| ==> IsArgument(b, xs, 8 + job.p.setLoc[i])
  }

  // The argument of a DW_CFA_set_loc among xs starts at i.
  predicate IsArgument(b: seq<Byte>, xs: seq<nat>, i: nat) {
    exists j {:trigger xs[j]} :: 0 <= j < |xs| && xs[j] < |b| && b[xs[j]] == DW_CFA_SET_LOC && xs[j] + 1 == i
  }

  // The edited FDE, with whatever padding fills its room, is read as the same
  // instructions, Extra() bytes further on.
  lemma FdeReadsTheSame(b: seq<Byte>, job: FdeJob, out: Output, insns: nat, xs: seq<nat>)
    requires job.Ok(out.ptrSize) && |b| == job.newSize && !out.relocatable
    requires job.p.addAugmentationSize ==> !job.PatchesLsda() && job.p.setLoc == []
    requires InstructionsAt(b, job, out.ptrSize, insns, xs)
    ensures Instructions(EditFde(b, job, out), insns + job.p.Extra(), |b|, job.Width(out.ptrSize))
            == Some(ShiftedBy(xs, job.p.Extra()))
  {
    hide EditFde, Instructions;
    var c, d, w := EditFde(b, job, out), job.p.Extra(), job.Width(out.ptrSize);
    forall k {:trigger b[k]} | insns <= k < job.p.size ensures c[k + d] == b[k] || InArgument(b, xs, w, k) {
      if Plain(job, out.ptrSize, k) {
        InstructionBytesKept(b, job, out, k);
      } else {
        NotPlain(b, job, out.ptrSize, insns, xs, k);
      }
    }
    forall k {:trigger c[k]} | job.p.size + d <= k < |b| ensures c[k] == DW_CFA_NOP {
      PaddingIsNops(b, job, out, k);
    }
    InstructionsCarried(b, insns, job.p.size, w, xs, c, d, |b|);
  }

  lemma NotPlain(b: seq<Byte>, job: FdeJob, ptrSize: PtrSize, insns: nat, xs: seq<nat>, k: nat)
    requires job.Ok(ptrSize) && |b| == job.newSize && InstructionsAt(b, job, ptrSize, insns, xs)
    requires insns <= k < job.p.size && !Plain(job, ptrSize, k)
    ensures InArgument(b, xs, job.Width(ptrSize), k)
  {
    hide Instructions;
    var w := job.Width(ptrSize);
    var i :| 0 <= i < |job.p.setLoc| && 8 + job.p.setLoc[i] <= k < 8 + job.p.setLoc[i] + w;
    var j :| 0 <= j < |xs| && xs[j] < |b| && b[xs[j]] == DW_CFA_SET_LOC && xs[j] + 1 == 8 + job.p.setLoc[i];
  }
}
