// A DW_CFA_set_loc in an FDE that gets an augmentation size: the pass looks for its
// argument where it was before the byte was inserted, which is at the opcode.

module EhFrameSetLoc {
  import opened Bytes
  import opened EhFrame
  import opened EhFrameFde
  import opened EhFrameCfa
  import opened EhFrameFdeReads

  // ---------- numbers ----------

  lemma {:induction false} AppendValue(s: seq<Byte>, top: Byte)
    ensures LittleValue(s + [top]) == LittleValue(s) + Power256(|s|) * top
    decreases |s|
  {
    if s == [] {
      assert s + [top] == [top] && LittleValue([top][1..]) == 0;
    } else {
      AppendValue(s[1..], top);
      assert (s + [top])[1..] == s[1..] + [top];
      assert Power256(|s|) * top == 0x100 * (Power256(|s| - 1) * top);
    }
  }

  lemma {:induction false} ValueIsSmall(s: seq<Byte>)
    ensures LittleValue(s) < Power256(|s|)
    decreases |s|
  {
    if s != [] {
      ValueIsSmall(s[1..]);
    }
  }

  // 255 has an inverse modulo 256^n.
  lemma {:induction false} Divides(d: int, n: nat, k: int) returns (t: int)
    requires 0xff * d == Power256(n) * k
    ensures d == Power256(n) * t
    decreases n
  {
    if n == 0 {
      t := d;
    } else {
      var m := Power256(n - 1);
      assert Power256(n) * k == m * (0x100 * k);
      var u := Divides(d, n - 1, 0x100 * k);
      assert m * (0xff * u) == m * (0x100 * k);
      Cancel(m, 0xff * u, 0x100 * k);
      t := u - k;
      assert d == m * (0x100 * t) == Power256(n) * t;
    }
  }

  lemma Cancel(m: int, x: int, y: int)
    requires m > 0 && m * x == m * y
    ensures x == y
  {
    assert m * (x - y) == 0;
    SmallMultiple(m, x - y);
  }

  lemma MultipleHasNoRest(m: int, t: int)
    requires m > 0
    ensures (m * t) % m == 0
  {
    RemainderIs(m * t, m, t, 0);
  }

  lemma SameRest(x: int, y: int, m: int) returns (z: int)
    requires m > 0 && x % m == y % m
    ensures x - y == m * z
  {
    z := x / m - y / m;
    assert m * z == m * (x / m) - m * (y / m);
  }

  // ---------- what becomes of the instruction ----------

  // The opcode is still there, and the pc-relative argument v' at place has the target
  // that the absolute argument v had; a zero one is still zero.
  predicate Survives(opcode: Byte, v: nat, v': nat, place: int, m: int)
    requires m > 0
  {
    opcode == DW_CFA_SET_LOC && if v == 0 then v' == 0 else (place + v') % m == v % m
  }

  // If the argument moved by b * d and the place is a * d, modulo m, the target moved.
  lemma TargetMoved(n: nat, place: int, q: int, a: int, b: int, d: int, v: nat, v': nat)
    requires place == a * d - Power256(n) * q && v - v' == b * d && -(Power256(n) as int) < d < Power256(n)
    requires (a == 1 && b == 0x100) || (a == 0x100 && b == 1)
    requires if v == 0 then v' == 0 else (place + v') % Power256(n) == v % Power256(n)
    ensures d == 0 && place % Power256(n) == 0
  {
    hide Power256;
    var m := Power256(n);
    if v != 0 {
      var z := SameRest(place + v', v, m);
      assert m * z + m * q == m * (z + q);
      var t := Divides(d, n, if a < b then -(z + q) else z + q);
      SmallMultiple(m, t);
    }
    MultipleHasNoRest(m, -q);
  }

  // Taking a whole multiple away changes no argument.
  lemma NothingTaken(x: nat, x': nat, place: int, v: nat, m: int)
    requires m > 0 && x < m && x' == (x - place) % m && place % m == 0
    ensures x' == x && (place + v) % m == v % m
  {
    var t := place / m;
    assert place == m * t;
    assert m * -t == -(m * t);
    RemainderIs(x - place, m, -t, x);
    AddRemainder(v, place, m);
    assert v + place == place + v;
  }

  // As little-endian numbers: the opcode and all but the last byte of the argument, l,
  // which is what the place is taken from.
  lemma LittleNumbers(n: nat, place: int, o: Byte, l: nat, l': nat, high: nat)
    requires l < Power256(n) && l' < Power256(n) && DW_CFA_SET_LOC + 0x100 * l < Power256(n)
    requires o + 0x100 * l' == (DW_CFA_SET_LOC + 0x100 * l - place) % Power256(n)
    ensures Survives(o, l + high, l' + high, place, Power256(n)) <==> place % Power256(n) == 0
  {
    hide Power256;
    var m, x := Power256(n), DW_CFA_SET_LOC + 0x100 * l;
    if place % m == 0 {
      NothingTaken(x, o + 0x100 * l', place, l + high, m);
    } else if Survives(o, l + high, l' + high, place, m) {
      assert x - place == m * ((x - place) / m) + o + 0x100 * l';
      var q := (x - place) / m;
      TargetMoved(n, place, q, 0x100, 1, l - l', l + high, l' + high);
    }
  }

  // As big-endian numbers, with p for 256^(n - 1).
  lemma BigNumbers(n: nat, p: nat, place: int, o: Byte, k: nat, k': nat, low: Byte)
    requires k < p && k' < p <= Power256(n) && p * DW_CFA_SET_LOC + k < Power256(n)
    requires p * o + k' == (p * DW_CFA_SET_LOC + k - place) % Power256(n)
    ensures Survives(o, 0x100 * k + low, 0x100 * k' + low, place, Power256(n)) <==> place % Power256(n) == 0
  {
    hide Power256;
    var m, x := Power256(n), p * DW_CFA_SET_LOC + k;
    if place % m == 0 {
      NothingTaken(x, p * o + k', place, 0x100 * k + low, m);
      assert p * (DW_CFA_SET_LOC - o) == k' - k;
      SmallMultiple(p, DW_CFA_SET_LOC - o);
    } else if Survives(o, 0x100 * k + low, 0x100 * k' + low, place, m) {
      var q := (x - place) / m;
      assert x - place == m * q + p * o + k';
      TargetMoved(n, place, q, 1, 0x100, k - k', 0x100 * k + low, 0x100 * k' + low);
    }
  }

  // s is the opcode and its argument, r the same bytes with the place taken from all but
  // the last.
  lemma LittleSpoiled(s: seq<Byte>, r: seq<Byte>, w: nat, place: int)
    requires 0 < w && |s| == |r| == w + 1 && s[0] == DW_CFA_SET_LOC && r[w] == s[w]
    requires LittleValue(r[..w]) == (LittleValue(s[..w]) - place) % Power256(w)
    ensures Survives(r[0], LittleValue(s[1..]), LittleValue(r[1..]), place, Power256(w)) <==> place % Power256(w) == 0
  {
    hide Power256, LittleValue, Survives, TopPart;
    LittleParts(s, w);
    LittleParts(r, w);
    LittleNumbers(w, place, r[0], LittleValue(s[1..w]), LittleValue(r[1..w]), TopPart(w, s[w]));
  }

  function TopPart(w: nat, top: Byte): nat
    requires 0 < w
  {
    Power256(w - 1) * top
  }

  lemma LittleParts(s: seq<Byte>, w: nat)
    requires 0 < w && |s| == w + 1
    ensures LittleValue(s[..w]) == s[0] + 0x100 * LittleValue(s[1..w]) < Power256(w)
    ensures LittleValue(s[1..]) == LittleValue(s[1..w]) + TopPart(w, s[w])
    ensures LittleValue(s[1..w]) < Power256(w)
  {
    assert s[..w][1..] == s[1..w] && s[1..] == s[1..w] + [s[w]];
    AppendValue(s[1..w], s[w]);
    ValueIsSmall(s[..w]);
  }

  function BigValue(s: seq<Byte>): nat { LittleValue(Reversed(s)) }

  lemma BigParts(s: seq<Byte>, w: nat)
    requires 0 < w && |s| == w + 1
    ensures BigValue(s[..w]) == Power256(w - 1) * s[0] + BigValue(s[1..w]) < Power256(w)
    ensures BigValue(s[1..]) == 0x100 * BigValue(s[1..w]) + s[w]
    ensures BigValue(s[1..w]) < Power256(w - 1) <= Power256(w)
  {
    var t := Reversed(s[1..w]);
    assert Reversed(s[..w]) == t + [s[0]];
    assert Reversed(s[1..]) == [s[w]] + t;
    AppendValue(t, s[0]);
    assert Reversed(s[1..])[1..] == t;
    ValueIsSmall(Reversed(s[..w]));
    ValueIsSmall(t);
  }

  // The same in the other byte order.
  lemma BigSpoiled(s: seq<Byte>, r: seq<Byte>, w: nat, place: int)
    requires 0 < w && |s| == |r| == w + 1 && s[0] == DW_CFA_SET_LOC && r[w] == s[w]
    requires BigValue(r[..w]) == (BigValue(s[..w]) - place) % Power256(w)
    ensures Survives(r[0], BigValue(s[1..]), BigValue(r[1..]), place, Power256(w)) <==> place % Power256(w) == 0
  {
    hide Power256, BigValue, Survives;
    BigParts(s, w);
    BigParts(r, w);
    BigNumbers(w, Power256(w - 1), place, r[0], BigValue(s[1..w]), BigValue(r[1..w]), s[w]);
  }

  // ---------- the FDE ----------

  // An FDE that gets an augmentation size, and is made pc-relative, with its instructions.
  predicate GetsSize(b: seq<Byte>, job: FdeJob, ptrSize: PtrSize, insns: nat, xs: seq<nat>) {
    && job.Ok(ptrSize) && |b| == job.newSize && job.p.addAugmentationSize && !job.PatchesLsda()
    && job.p.makeRelative && Application(job.p.fdeEncoding) == DW_EH_PE_absptr
    && 8 + 2 * job.Width(ptrSize) <= insns <= job.p.size
    && Instructions(b, insns, job.p.size, job.Width(ptrSize)) == Some(xs) && job.p.setLoc == SetLocTable(b, xs)
  }

  // Entry i of the table is a DW_CFA_set_loc at x, before those of later entries.
  lemma EntryIs(b: seq<Byte>, job: FdeJob, ptrSize: PtrSize, insns: nat, xs: seq<nat>, k: nat) returns (i: nat)
    requires GetsSize(b, job, ptrSize, insns, xs) && k < |xs| && b[xs[k]] == DW_CFA_SET_LOC
    ensures i < |job.p.setLoc| && 8 + job.p.setLoc[i] == xs[k] + 1
    ensures insns <= xs[k] && xs[k] + 1 + job.Width(ptrSize) <= job.p.size
    ensures SetLocsApart(job, ptrSize)
    ensures forall j {:trigger job.p.setLoc[j]} :: 0 <= j < |job.p.setLoc| && j != i ==>
              !(8 + job.p.setLoc[j] <= xs[k] + 1 + job.Width(ptrSize) < 8 + job.p.setLoc[j] + job.Width(ptrSize))
  {
    hide Instructions, EncodedWidth, FdeJob.PatchesLsda;
    var ops, t := SetLocOps(b, xs), job.p.setLoc;
    OpsApart(b, insns, job.p.size, job.Width(ptrSize));
    assert xs[k] in xs;
    OpsAre(b, xs, xs[k]);
    i :| 0 <= i < |ops| && ops[i] == xs[k];
    forall j, l {:trigger t[j], t[l]} | 0 <= j < l < |t| ensures t[j] + 1 + job.Width(ptrSize) <= t[l] {
      assert ops[j] == t[j] + 7 && ops[l] == t[l] + 7;
    }
  }

  // Before the patches the instruction is where it should be.
  lemma OpenedBytes(b: seq<Byte>, job: FdeJob, out: Output, insns: nat, xs: seq<nat>, j: nat)
    requires GetsSize(b, job, out.ptrSize, insns, xs) && insns <= j < job.p.size
    ensures WithAugmentation(b, job, out)[j + 1] == b[j]
  {
    hide Instructions, EncodedWidth, SetLocTable;
    PointedBytes(b, job, out, j);
  }

  // What the patches do to a DW_CFA_set_loc.
  lemma PatchedAt(b: seq<Byte>, job: FdeJob, out: Output, insns: nat, xs: seq<nat>, k: nat)
    requires GetsSize(b, job, out.ptrSize, insns, xs) && !out.relocatable
    requires k < |xs| && b[xs[k]] == DW_CFA_SET_LOC
    ensures var x, w, c, r := xs[k], job.Width(out.ptrSize), WithAugmentation(b, job, out), EditFde(b, job, out);
            && insns <= x && x + 1 + w <= job.p.size && r[x + 1 + w] == c[x + 1 + w]
            && ValueAt(out.endian, r, x + 1, w)
               == if ValueAt(out.endian, c, x + 1, w) == 0 then 0
                  else (ValueAt(out.endian, c, x + 1, w) - (out.Base() + job.newOffset + x + 2)) % Power256(w)
  {
    hide Instructions, EncodedWidth, SetLocTable, WithAugmentation, Power256, ValueAt;
    var i := EntryIs(b, job, out.ptrSize, insns, xs, k);
    var c := WithAugmentation(b, job, out);
    SetLocValue(c, job, out, |job.p.setLoc|, i);
    SetLocsElsewhere(c, job, out, |job.p.setLoc|, xs[k] + 1 + job.Width(out.ptrSize));
  }

  // Opcode and argument are at x in c, and in r the place is taken from what is there.
  lemma SpoiledIff(e: Endian, c: seq<Byte>, r: seq<Byte>, x: nat, w: nat, place: int)
    requires (e == LittleEndian() || e == BigEndian()) && 0 < w && x + w < |c| == |r|
    requires c[x] == DW_CFA_SET_LOC && r[x + w] == c[x + w]
    requires ValueAt(e, r, x, w) == (ValueAt(e, c, x, w) - place) % Power256(w)
    ensures Survives(r[x], ValueAt(e, c, x + 1, w), ValueAt(e, r, x + 1, w), place, Power256(w))
            <==> place % Power256(w) == 0
  {
    hide Power256, Survives, LittleValue;
    var s, t := c[x..x + 1 + w], r[x..x + 1 + w];
    assert c[x + 1..x + 1 + w] == s[1..] && r[x + 1..x + 1 + w] == t[1..];
    assert c[x..x + w] == s[..w] && r[x..x + w] == t[..w];
    if e == LittleEndian() {
      LittleSpoiled(s, t, w, place);
    } else {
      BigSpoiled(s, t, w, place);
    }
  }

  // A number that starts with the opcode is not zero.
  lemma OpcodeIsSeen(e: Endian, c: seq<Byte>, x: nat, w: nat)
    requires (e == LittleEndian() || e == BigEndian()) && 0 < w && x + w < |c| && c[x] == DW_CFA_SET_LOC
    ensures ValueAt(e, c, x, w) != 0
  {
    var s := c[x..x + 1 + w];
    assert c[x..x + w] == s[..w];
    LittleParts(s, w);
    BigParts(s, w);
  }

  // The instruction survives, one byte further on, if and only if its argument's new
  // place is zero, modulo its width.
  lemma SetLocSurvivesIff(b: seq<Byte>, job: FdeJob, out: Output, insns: nat, xs: seq<nat>, k: nat)
    requires GetsSize(b, job, out.ptrSize, insns, xs) && !out.relocatable
    requires out.endian == LittleEndian() || out.endian == BigEndian()
    requires k < |xs| && b[xs[k]] == DW_CFA_SET_LOC
    ensures var x, w, r := xs[k] + 1, job.Width(out.ptrSize), EditFde(b, job, out);
            var place := out.Base() + job.newOffset + x + 1;
            && x + 1 + w <= |b|
            && (Survives(r[x], ValueAt(out.endian, b, x, w), ValueAt(out.endian, r, x + 1, w), place, Power256(w))
                <==> place % Power256(w) == 0)
  {
    hide Instructions, EncodedWidth, SetLocTable, WithAugmentation, EditFde, Power256, Survives, ValueAt;
    var x, w, c, r := xs[k] + 1, job.Width(out.ptrSize), WithAugmentation(b, job, out), EditFde(b, job, out);
    PatchedAt(b, job, out, insns, xs, k);
    forall j {:trigger c[j]} | x <= j < x + 1 + w ensures c[j] == b[j - 1] {
      OpenedBytes(b, job, out, insns, xs, j - 1);
    }
    SameValue(out.endian, c, x + 1, b, x, w);
    OpcodeIsSeen(out.endian, c, x, w);
    SpoiledIff(out.endian, c, r, x, w, out.Base() + job.newOffset + x + 1);
  }

  // An FDE with a single DW_CFA_set_loc, in a section that stays where it is.
  const SET_LOC_FDE: seq<Byte> := Zeros(16) + [DW_CFA_SET_LOC, 0, 0x40, 0, 0] + Zeros(3)

  const SET_LOC_JOB: FdeJob :=
    FdeJob(Fde(0, 21, true, true, DW_EH_PE_absptr, DW_EH_PE_omit, 0, [9]), 0, 24, 0, false)

  lemma SetLocFdeReads()
    ensures Instructions(SET_LOC_FDE, 16, 21, 4) == Some([16]) && SetLocTable(SET_LOC_FDE, [16]) == [9]
  {
    var b := SET_LOC_FDE;
    assert b[16] == DW_CFA_SET_LOC && |b| == 24;
    assert AfterOp(b, 16, 21, 4) == Some(21) && Instructions(b, 21, 21, 4) == Some([]);
    assert SetLocOps(b, []) == [] && SetLocOps(b, [16]) == [16];
  }

  lemma SetLocFdeGetsSize()
    ensures GetsSize(SET_LOC_FDE, SET_LOC_JOB, 4, 16, [16])
  {
    hide Instructions, SetLocTable;
    SetLocFdeReads();
  }

  lemma SetLocSpoiled()
    ensures var b, out := SET_LOC_FDE, Output(LittleEndian(), 4, false, 0, 0);
            && GetsSize(b, SET_LOC_JOB, 4, 16, [16]) && b[16] == DW_CFA_SET_LOC
            && var r := EditFde(b, SET_LOC_JOB, out);
               !Survives(r[17], ValueAt(out.endian, b, 17, 4), ValueAt(out.endian, r, 18, 4), 18, Power256(4))
  {
    hide GetsSize, EditFde, Survives, ValueAt;
    SetLocFdeGetsSize();
    assert Power256(4) == 0x1_0000_0000;
    SetLocSurvivesIff(SET_LOC_FDE, SET_LOC_JOB, Output(LittleEndian(), 4, false, 0, 0), 16, [16], 0);
  }
}
