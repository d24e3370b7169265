// The operands of call frame instructions as DWARF lists them, and that stepping over an
// instruction means stepping over its operands.

module EhFrameOps {
  import opened Bytes
  import opened Leb128
  import opened EhFrame
  import opened EhFrameCie
  import opened EhFrameCfa

  // An operand: an LEB128 number, signed or not; a block with its length before it; a
  // delta of n bytes; or an address.
  datatype Operand = Number | Block | Delta(n: nat) | Address

  // DWARF 4, sections 6.4.2 and 7.23, and the GNU and MIPS extensions; None if the
  // opcode is not one of them.
  function OperandsOf(op: Byte): Option<seq<Operand>> {
    if op / 0x40 == 1 then Some([])                    // DW_CFA_advance_loc
    else if op / 0x40 == 2 then Some([Number])         // DW_CFA_offset
    else if op / 0x40 == 3 then Some([])               // DW_CFA_restore
    else match op
      case 0x00 => Some([])                            // DW_CFA_nop
      case 0x01 => Some([Address])                     // DW_CFA_set_loc
      case 0x02 => Some([Delta(1)])                    // DW_CFA_advance_loc1
      case 0x03 => Some([Delta(2)])                    // DW_CFA_advance_loc2
      case 0x04 => Some([Delta(4)])                    // DW_CFA_advance_loc4
      case 0x05 => Some([Number, Number])              // DW_CFA_offset_extended
      case 0x06 => Some([Number])                      // DW_CFA_restore_extended
      case 0x07 => Some([Number])                      // DW_CFA_undefined
      case 0x08 => Some([Number])                      // DW_CFA_same_value
      case 0x09 => Some([Number, Number])              // DW_CFA_register
      case 0x0a => Some([])                            // DW_CFA_remember_state
      case 0x0b => Some([])                            // DW_CFA_restore_state
      case 0x0c => Some([Number, Number])              // DW_CFA_def_cfa
      case 0x0d => Some([Number])                      // DW_CFA_def_cfa_register
      case 0x0e => Some([Number])                      // DW_CFA_def_cfa_offset
      case 0x0f => Some([Block])                       // DW_CFA_def_cfa_expression
      case 0x10 => Some([Number, Block])               // DW_CFA_expression
      case 0x11 => Some([Number, Number])              // DW_CFA_offset_extended_sf
      case 0x12 => Some([Number, Number])              // DW_CFA_def_cfa_sf
      case 0x13 => Some([Number])                      // DW_CFA_def_cfa_offset_sf
      case 0x14 => Some([Number, Number])              // DW_CFA_val_offset
      case 0x15 => Some([Number, Number])              // DW_CFA_val_offset_sf
      case 0x16 => Some([Number, Block])               // DW_CFA_val_expression
      case 0x1d => Some([Delta(8)])                    // DW_CFA_MIPS_advance_loc8
      case 0x2d => Some([])                            // DW_CFA_GNU_window_save
      case 0x2e => Some([Number])                      // DW_CFA_GNU_args_size
      case 0x2f => Some([Number, Number])              // DW_CFA_GNU_negative_offset_extended
      case _ => None
  }

  // ---------- numbers ----------

  // The number at i ends at j: all its bytes but the last have the top bit.
  predicate NumberEnds(b: seq<Byte>, i: nat, end: nat, j: nat)
    requires end <= |b|
  {
    i < j <= end && b[j - 1] < 0x80 && forall k :: i <= k < j - 1 ==> b[k] >= 0x80
  }

  // The number that the low seven bits of these bytes make, low ones first.
  function NumberAt(b: seq<Byte>, i: nat, j: nat): nat
    requires i <= j <= |b|
    decreases j - i
  {
    if i == j then 0 else b[i] % 0x80 + 0x80 * NumberAt(b, i + 1, j)
  }

  lemma {:induction false} LebEndsIff(b: seq<Byte>, i: nat, end: nat, j: nat)
    requires i <= end <= |b|
    ensures AfterLeb(b, i, end) == Some(j) <==> NumberEnds(b, i, end, j)
    decreases end - i
  {
    if i < end && b[i] >= 0x80 {
      LebEndsIff(b, i + 1, end, j);
      assert j == i + 1 ==> b[j - 1] == b[i];
      assert NumberEnds(b, i, end, j) ==> j > i + 1;
    }
  }

  lemma {:induction false} ReadIsNumber(b: seq<Byte>, i: nat, end: nat, j: nat)
    requires end <= |b| && NumberEnds(b, i, end, j)
    ensures ReadUleb(b[i..j]).0 == NumberAt(b, i, j)
    decreases j - i
  {
    assert b[i..j][0] == b[i] && b[i..j][1..] == b[i + 1..j];
    if i + 1 < j {
      ReadIsNumber(b, i + 1, end, j);
    } else {
      assert NumberAt(b, j, j) == 0;
    }
  }

  // As numbers are read, modulo 2^64.
  lemma LebValueIs(b: seq<Byte>, i: nat, end: nat, j: nat)
    requires end <= |b| && NumberEnds(b, i, end, j)
    ensures LebValue(b, i, j) == NumberAt(b, i, j) % 0x1_0000_0000_0000_0000
  {
    ReadIsNumber(b, i, end, j);
  }

  // The examples of DWARF 4, figure 22.
  lemma UlebExamples()
    ensures Uleb(2) == [2] && Uleb(127) == [127] && Uleb(128) == [0x80, 1] && Uleb(129) == [0x81, 1]
    ensures Uleb(130) == [0x82, 1] && Uleb(12857) == [57 + 0x80, 100]
  {
  }

  // ---------- operands ----------

  // An operand at i ends at j, where addresses have w bytes.
  predicate OperandEnds(b: seq<Byte>, i: nat, end: nat, w: nat, x: Operand, j: nat)
    requires i <= end <= |b|
  {
    match x
    case Number => NumberEnds(b, i, end, j)
    case Block =>
      exists k :: i < k <= end && NumberEnds(b, i, end, k)
                  && j == k + NumberAt(b, i, k) % 0x1_0000_0000_0000_0000 <= end
    case Delta(n) => j == i + n <= end
    case Address => j == i + w <= end
  }

  // These operands, the first at i, end at j.
  predicate OperandsEnd(b: seq<Byte>, i: nat, end: nat, w: nat, xs: seq<Operand>, j: nat)
    requires i <= end <= |b|
    decreases |xs|
  {
    if xs == [] then j == i
    else exists k :: i <= k <= end && OperandEnds(b, i, end, w, xs[0], k) && OperandsEnd(b, k, end, w, xs[1..], j)
  }

  // What the stepping functions take for each shape.
  function ShapeOperands(s: Shape): seq<Operand>
    requires s.Numbers? ==> s.n <= 2
    requires s.Counted? ==> s.n <= 1
  {
    match s
    case Numbers(n) => if n == 0 then [] else if n == 1 then [Number] else [Number, Number]
    case Counted(n) => if n == 0 then [Block] else [Number, Block]
    case Fixed(n) => [Delta(n)]
    case Pointer => [Address]
    case Unknown => []
  }

  lemma ShapeIsList(op: Byte)
    ensures var s := ShapeOf(op);
            && (s.Numbers? ==> s.n <= 2) && (s.Counted? ==> s.n <= 1)
            && OperandsOf(op) == if s == Unknown then None else Some(ShapeOperands(s))
  {
    if op >= 0x40 {
      assert op / 0x40 == 1 || op / 0x40 == 2 || op / 0x40 == 3;
    }
  }

  // After one operand.
  function AfterOperand(b: seq<Byte>, i: nat, end: nat, w: nat, x: Operand): (r: Option<nat>)
    requires i <= end <= |b|
    ensures r.Some? ==> i <= r.value <= end
  {
    match x
    case Number => AfterLeb(b, i, end)
    case Block =>
      var k := AfterLeb(b, i, end);
      if k.None? then None else AfterBytes(k.value, end, LebValue(b, i, k.value))
    case Delta(n) => AfterBytes(i, end, n)
    case Address => AfterBytes(i, end, w)
  }

  lemma OperandIff(b: seq<Byte>, i: nat, end: nat, w: nat, x: Operand, j: nat)
    requires i <= end <= |b|
    ensures AfterOperand(b, i, end, w, x) == Some(j) <==> OperandEnds(b, i, end, w, x, j)
  {
    hide AfterLeb, LebValue, NumberEnds, NumberAt;
    LebEndsIff(b, i, end, j);
    if x.Block? {
      var k := AfterLeb(b, i, end);
      if k.Some? {
        LebEndsIff(b, i, end, k.value);
        LebValueIs(b, i, end, k.value);
      }
      forall m: nat | NumberEnds(b, i, end, m) ensures k == Some(m) {
        LebEndsIff(b, i, end, m);
      }
    }
  }

  // After several.
  function AfterOperands(b: seq<Byte>, i: nat, end: nat, w: nat, xs: seq<Operand>): (r: Option<nat>)
    requires i <= end <= |b|
    ensures r.Some? ==> i <= r.value <= end
    decreases |xs|
  {
    if xs == [] then Some(i)
    else
      var k := AfterOperand(b, i, end, w, xs[0]);
      if k.None? then None else AfterOperands(b, k.value, end, w, xs[1..])
  }

  lemma {:induction false} OperandsIff(b: seq<Byte>, i: nat, end: nat, w: nat, xs: seq<Operand>, j: nat)
    requires i <= end <= |b|
    ensures AfterOperands(b, i, end, w, xs) == Some(j) <==> OperandsEnd(b, i, end, w, xs, j)
    decreases |xs|
  {
    hide AfterOperand, OperandEnds;
    if xs != [] {
      var k := AfterOperand(b, i, end, w, xs[0]);
      if k.Some? {
        OperandIff(b, i, end, w, xs[0], k.value);
        OperandsIff(b, k.value, end, w, xs[1..], j);
      }
      forall m | i <= m <= end && OperandEnds(b, i, end, w, xs[0], m) ensures k == Some(m) {
        OperandIff(b, i, end, w, xs[0], m);
      }
    }
  }

  lemma ShapeIsStepped(b: seq<Byte>, i: nat, end: nat, w: nat)
    requires i < end <= |b| && ShapeOf(b[i]) != Unknown
    ensures var s := ShapeOf(b[i]);
            && (s.Numbers? ==> s.n <= 2) && (s.Counted? ==> s.n <= 1)
            && AfterOp(b, i, end, w) == AfterOperands(b, i + 1, end, w, ShapeOperands(s))
  {
    hide AfterLeb, AfterBytes, LebValue, ShapeOf;
    ShapeIsList(b[i]);
    var xs := ShapeOperands(ShapeOf(b[i]));
    assert xs != [] ==> |xs[1..]| == |xs| - 1;
    assert |xs| == 2 ==> xs[1..] == [xs[1]] && xs[1..][1..] == [];
    assert |xs| == 1 ==> xs[1..] == [];
  }

  // An instruction ends where its operands do, and stepping over it fails if one of
  // them does not end, or if the opcode is not known.
  lemma OpEndsIff(b: seq<Byte>, i: nat, end: nat, w: nat, j: nat)
    requires i < end <= |b|
    ensures AfterOp(b, i, end, w) == Some(j)
            <==> OperandsOf(b[i]).Some? && OperandsEnd(b, i + 1, end, w, OperandsOf(b[i]).value, j)
  {
    hide AfterOperands, OperandsEnd, OperandsOf, ShapeOperands;
    ShapeIsList(b[i]);
    if ShapeOf(b[i]) != Unknown {
      ShapeIsStepped(b, i, end, w);
      OperandsIff(b, i + 1, end, w, ShapeOperands(ShapeOf(b[i])), j);
    }
  }

  // The instructions that are recorded are those with an address, and padding is what
  // has no operands and no effect.
  lemma SetLocHasAddress(op: Byte)
    ensures op == DW_CFA_SET_LOC <==> OperandsOf(op) == Some([Address])
    ensures DW_CFA_NOP == 0x00 && OperandsOf(DW_CFA_NOP) == Some([])
  {
  }
}
