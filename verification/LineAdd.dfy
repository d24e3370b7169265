// The line number table under construction: add_line_info keeps each sequence
// of rows as a list from the highest address down, with a shortcut pointer
// (lcl_head) for rows that arrive out of order.

module LineAdd {
  import opened Bytes
  import opened CLibrary

  // The members of `struct line_info` that do not change once it is made.
  datatype Row = Row(address: nat, opIndex: Byte, fileName: string, line: nat,
                     column: nat, discriminator: nat, endSequence: bool)

  // new_line_sorts_after
  predicate SortsAfter(a: Row, b: Row) {
    a.address > b.address || (a.address == b.address && a.opIndex > b.opIndex)
  }

  // Rows that count as the same entry when one follows the other directly.
  predicate SameEntry(a: Row, b: Row) {
    a.address == b.address && a.opIndex == b.opIndex && a.endSequence == b.endSequence
  }

  // From high to low.
  predicate Descending(rows: seq<Row>) {
    forall i, j {:trigger rows[i], rows[j]} :: 0 <= i < j < |rows| ==> !SortsAfter(rows[j], rows[i])
  }

  // How many rows a scan from the top passes before the first one that `row`
  // sorts after.
  function Spot(rows: seq<Row>, row: Row): (n: nat)
    ensures n <= |rows|
    ensures forall i {:trigger rows[i]} :: 0 <= i < n ==> !SortsAfter(row, rows[i])
    ensures n < |rows| ==> SortsAfter(row, rows[n])
  {
    if rows == [] || SortsAfter(row, rows[0]) then 0 else 1 + Spot(rows[1..], row)
  }

  // One sequence of the table: its rows from last_line down, and low_pc.
  datatype Run = Run(rows: seq<Row>, low: nat)

  // The table: the newest sequence first, and the place of lcl_head in it.
  datatype Table = Table(runs: seq<Run>, local: nat)
  {
    predicate Ok() {
      && (forall r <- runs :: r.rows != [])
      && (runs != [] ==> local < |runs[0].rows|)
    }

    // The newest sequence, while it has no end, is in order.
    predicate OpenInOrder() {
      Ok() && (runs != [] && !runs[0].rows[0].endSequence ==> Descending(runs[0].rows))
    }
  }

  // The row goes directly below lcl_head, which is number h.
  predicate BelowLocalHead(rows: seq<Row>, h: nat, row: Row)
    requires h < |rows|
  {
    !SortsAfter(row, rows[h]) && (h + 1 == |rows| || SortsAfter(row, rows[h + 1]))
  }

  // The newest sequence with a row added to it.
  function AddTo(top: Run, h: nat, row: Row): (r: (Run, nat))
    requires h < |top.rows|
    ensures r.0.rows != [] && r.1 < |r.0.rows|
  {
    if row.endSequence || SortsAfter(row, top.rows[0]) then (Run([row] + top.rows, top.low), h + 1)
    else if BelowLocalHead(top.rows, h, row) then (Run(InsertAt(top.rows, h + 1, row), top.low), h)
    else
      var n := Spot(top.rows, row);
      (Run(InsertAt(top.rows, n, row), Min(top.low, row.address)), n - 1)
  }

  // add_line_info
  function Add(t: Table, row: Row): (r: Table)
    requires t.Ok()
    ensures r.Ok() && r.runs != []
  {
    if t.runs == [] then Table([Run([row], row.address)], 0)
    else
      var top := t.runs[0];
      if SameEntry(top.rows[0], row) then Table([Run([row] + top.rows[1..], top.low)] + t.runs[1..], t.local)
      else if top.rows[0].endSequence then Table([Run([row], row.address)] + t.runs, 0)
      else Table([AddTo(top, t.local, row).0] + t.runs[1..], AddTo(top, t.local, row).1)
  }

  // The table after a run of calls.
  function AddAll(rows: seq<Row>): (t: Table)
    ensures t.Ok() && (rows != [] ==> t.runs != [])
  {
    if rows == [] then Table([], 0) else Add(AddAll(rows[..|rows| - 1]), rows[|rows| - 1])
  }

  // ---------- the lists ----------

  class LineInfo {
    const row: Row
    var prevLine: LineInfo?

    constructor (row: Row)
      ensures this.row == row && prevLine == null
    {
      this.row, prevLine := row, null;
    }
  }

  // The rows of a list of nodes.
  function RowsOf(chain: seq<LineInfo>): (r: seq<Row>)
    ensures |r| == |chain|
    ensures forall i {:trigger r[i]} :: 0 <= i < |chain| ==> r[i] == chain[i].row
  {
    seq(|chain|, i requires 0 <= i < |chain| => chain[i].row)
  }

  predicate Distinct<T(==)>(s: seq<T>) {
    forall i, j :: 0 <= i < j < |s| ==> s[i] != s[j]
  }

  lemma InsertDistinct<T>(s: seq<T>, i: nat, x: T)
    requires Distinct(s) && i <= |s| && x !in s
    ensures Distinct(InsertAt(s, i, x))
  {
  }

  function Next(chain: seq<LineInfo>, i: nat): LineInfo?
    requires i < |chain|
  {
    if i + 1 < |chain| then chain[i + 1] else null
  }

  // chain is the list that starts at its first node and follows prev_line.
  ghost predicate Linked(chain: seq<LineInfo>)
    reads chain
  {
    Distinct(chain) && forall i {:trigger Next(chain, i)} :: 0 <= i < |chain| ==> chain[i].prevLine == Next(chain, i)
  }

  class LineSequence {
    var lowPc: nat
    const prevSequence: LineSequence?
    var lastLine: LineInfo
    ghost var chain: seq<LineInfo>

    ghost predicate Valid()
      reads this, chain
    {
      chain != [] && chain[0] == lastLine && Linked(chain)
    }

    ghost function Value(): Run
      reads this
    {
      Run(RowsOf(chain), lowPc)
    }

    constructor (info: LineInfo, prevSequence: LineSequence?)
      requires info.prevLine == null
      ensures Valid() && chain == [info] && this.prevSequence == prevSequence
      ensures Value() == Run([info.row], info.row.address)
    {
      lowPc, this.prevSequence, lastLine, chain := info.row.address, prevSequence, info, [info];
      new;
      assert Value().rows == [info.row];
    }

    // "We only keep the last entry with the same address and end sequence."
    method ReplaceHead(info: LineInfo)
      requires Valid() && info !in chain
      modifies `lastLine, `chain, info`prevLine
      ensures Valid() && chain == [info] + old(chain)[1..]
    {
      ghost var was := chain;
      assert lastLine.prevLine == Next(was, 0);
      info.prevLine := lastLine.prevLine;
      lastLine := info;
      chain := [info] + was[1..];
      forall k | 0 <= k < |chain| ensures chain[k].prevLine == Next(chain, k) {
        assert k > 0 ==> was[k].prevLine == Next(was, k);
      }
    }

    // "Normal case".
    method Prepend(info: LineInfo)
      requires Valid() && info !in chain
      modifies `lastLine, `chain, info`prevLine
      ensures Valid() && chain == [info] + old(chain)
    {
      ghost var was := chain;
      info.prevLine := lastLine;
      lastLine := info;
      chain := [info] + was;
      forall k | 0 <= k < |chain| ensures chain[k].prevLine == Next(chain, k) {
        assert k > 0 ==> was[k - 1].prevLine == Next(was, k - 1);
      }
    }

    // Linking info in below node number i.
    method InsertBelow(head: LineInfo, info: LineInfo, ghost i: nat)
      requires Valid() && info !in chain && i < |chain| && chain[i] == head
      modifies `chain, info`prevLine, head`prevLine
      ensures Valid() && chain == InsertAt(old(chain), i + 1, info)
    {
      ghost var was := chain;
      assert head.prevLine == Next(was, i);
      InsertDistinct(was, i + 1, info);
      info.prevLine := head.prevLine;
      head.prevLine := info;
      chain := InsertAt(was, i + 1, info);
      forall k | 0 <= k < |chain| ensures chain[k].prevLine == Next(chain, k) {
        if k < i {
          assert was[k] != head && was[k].prevLine == Next(was, k);
        } else if k > i + 1 {
          assert was[k - 1] != head && was[k - 1].prevLine == Next(was, k - 1);
        }
      }
    }

    // The `while (li1)` loop of the hard case.
    method Scan(row: Row) returns (li2: LineInfo, ghost i: nat)
      requires Valid() && !SortsAfter(row, lastLine.row)
      ensures i < |chain| && li2 == chain[i] && Spot(RowsOf(chain), row) == i + 1
    {
      ghost var rows := RowsOf(chain);
      li2, i := lastLine, 0;
      assert li2.prevLine == Next(chain, 0);
      var li1 := li2.prevLine;
      while li1 != null
        invariant i < |chain| && li2 == chain[i] && li1 == Next(chain, i)
        invariant i < Spot(rows, row)
        decreases |chain| - i
      {
        assert li1 == chain[i + 1] && rows[i + 1] == li1.row && rows[i] == li2.row;
        if !SortsAfter(row, li2.row) && SortsAfter(row, li1.row) {
          break;
        }
        li2 := li1;
        i := i + 1;
        assert li1.prevLine == Next(chain, i);
        li1 := li1.prevLine;
      }
    }
  }

  // ---------- the table ----------

  function Older(all: seq<LineSequence>, i: nat): LineSequence?
    requires i <= |all|
  {
    if i < |all| then all[i] else null
  }

  // A finished sequence, its nodes in repr.
  ghost predicate Done(s: LineSequence, repr: set<object>, run: Run)
    reads repr
  {
    s in repr && (forall n <- s.chain :: n in repr) && s.Valid() && run == s.Value()
  }

  // The finished sequences, newest first along prev_sequence, with their rows.
  ghost predicate Finished(first: LineSequence?, older: seq<LineSequence>, repr: set<object>, runs: seq<Run>)
    reads repr
  {
    && |older| == |runs| && first == Older(older, 0)
    && (forall i {:trigger Older(older, i + 1)} :: 0 <= i < |older| ==> older[i].prevSequence == Older(older, i + 1))
    && (forall i {:trigger runs[i]} :: 0 <= i < |older| ==> Done(older[i], repr, runs[i]))
  }

  lemma FinishOne(s: LineSequence, older: seq<LineSequence>, repr: set<object>, wide: set<object>, runs: seq<Run>)
    requires Finished(s.prevSequence, older, repr, runs)
    requires repr <= wide && Done(s, wide, s.Value())
    ensures Finished(s, [s] + older, wide, [s.Value()] + runs)
  {
    var all, values := [s] + older, [s.Value()] + runs;
    forall i | 0 <= i < |all| ensures all[i].prevSequence == Older(all, i + 1) {
      if i > 0 {
        var k := i - 1;
        assert older[k].prevSequence == Older(older, k + 1);
      }
    }
    forall i | 0 <= i < |all| ensures Done(all[i], wide, values[i]) {
      if i > 0 {
        assert Done(older[i - 1], repr, runs[i - 1]);
      }
    }
  }

  class LineTable {
    var sequences: LineSequence?
    var numSequences: nat
    var lclHead: LineInfo?
    ghost var local: nat                  // the place of lclHead in the newest list
    ghost var older: seq<LineSequence>
    ghost var repr: set<object>           // the older sequences and their nodes
    ghost var olderRuns: seq<Run>         // what the older sequences hold

    constructor ()
      ensures Valid() && Value() == Table([], 0)
    {
      sequences, numSequences, lclHead, local, older, repr, olderRuns := null, 0, null, 0, [], {}, [];
    }

    ghost function Runs(): seq<Run>
      reads this, sequences
    {
      if sequences == null then [] else [sequences.Value()] + olderRuns
    }

    ghost function Value(): Table
      reads this, sequences
    {
      Table(Runs(), local)
    }

    // The newest sequence.
    ghost predicate OpenOk(s: LineSequence)
      reads this, s, s.chain
    {
      && s.Valid() && s !in repr && (forall n <- s.chain :: n !in repr)
      && local < |s.chain| && lclHead == s.chain[local]
    }

    ghost predicate Valid()
      reads this, repr, sequences, if sequences == null then {} else set n | n in sequences.chain
    {
      && this !in repr
      && if sequences == null then numSequences == 0 && local == 0
         else
           && numSequences == 1 + |olderRuns| && OpenOk(sequences)
           && Finished(sequences.prevSequence, older, repr, olderRuns)
    }

    // A new node is in no list.
    ghost predicate IsNew(info: LineInfo)
      reads this, sequences
    {
      info !in repr && (sequences != null ==> info !in sequences.chain)
    }

    // The newest sequence joins the finished ones.
    ghost method Finish()
      requires Valid()
      modifies `older, `repr, `olderRuns
      ensures Finished(sequences, older, repr, olderRuns) && numSequences == |olderRuns|
      ensures olderRuns == old(Runs())
      ensures repr == if sequences == null then {} else old(repr) + {sequences} + (set n | n in sequences.chain)
    {
      if sequences == null {
        older, repr, olderRuns := [], {}, [];
      } else {
        var all, wide := AllSequences();
        older, repr, olderRuns := all, wide, Runs();
      }
    }

    // All sequences as one list.
    lemma AllSequences() returns (all: seq<LineSequence>, wide: set<object>)
      requires Valid() && sequences != null
      ensures Finished(sequences, all, wide, Runs()) && numSequences == |all|
      ensures wide == repr + {sequences} + (set n | n in sequences.chain)
    {
      all, wide := [sequences] + older, repr + {sequences} + (set n | n in sequences.chain);
      assert Done(sequences, wide, sequences.Value());
      FinishOne(sequences, older, repr, wide, olderRuns);
    }

    // "Start a new line sequence."
    method StartSequence(info: LineInfo)
      requires Valid() && info.prevLine == null && IsNew(info)
      modifies this
      ensures Valid() && Value() == Table([Run([info.row], info.row.address)] + old(Runs()), 0)
    {
      Finish();
      sequences := new LineSequence(info, sequences);
      lclHead := info;
      numSequences := numSequences + 1;
      local := 0;
    }

    method ReplaceLast(info: LineInfo)
      requires Valid() && IsNew(info) && sequences != null
      modifies `lclHead, sequences`lastLine, sequences`chain, info`prevLine
      ensures Valid() && local == old(local)
              && sequences.Value() == Run([info.row] + old(sequences.Value().rows)[1..], old(sequences.lowPc))
    {
      if lclHead == sequences.lastLine {
        lclHead := info;
      }
      sequences.ReplaceHead(info);
      assert sequences.Value().rows == [info.row] + old(sequences.Value().rows)[1..];
    }

    method AddOnTop(info: LineInfo)
      requires Valid() && IsNew(info) && sequences != null
      modifies `local, sequences`lastLine, sequences`chain, info`prevLine
      ensures Valid() && local == old(local) + 1
      ensures sequences.Value() == Run([info.row] + old(sequences.Value().rows), old(sequences.lowPc))
    {
      sequences.Prepend(info);
      local := local + 1;
      assert sequences.Value().rows == [info.row] + old(sequences.Value().rows);
    }

    // Linking the row in below node number i, which becomes or stays lcl_head.
    method AddBelow(head: LineInfo, info: LineInfo, ghost i: nat)
      requires Valid() && IsNew(info) && sequences != null && i < |sequences.chain| && sequences.chain[i] == head
      modifies `local, `lclHead, sequences`chain, info`prevLine, head`prevLine
      ensures Valid() && local == i
      ensures sequences.Value() == Run(InsertAt(old(sequences.Value().rows), i + 1, info.row), old(sequences.lowPc))
    {
      lclHead := head;
      sequences.InsertBelow(head, info, i);
      local := i;
      assert sequences.Value().rows == InsertAt(old(sequences.Value().rows), i + 1, info.row);
    }

    // "Abnormal and hard".
    method AddByScan(info: LineInfo)
      requires Valid() && IsNew(info) && sequences != null && !SortsAfter(info.row, sequences.lastLine.row)
      modifies `local, `lclHead, sequences`chain, sequences`lowPc, info`prevLine, sequences.chain
      ensures Valid()
      ensures var was, n := old(sequences.Value()), Spot(old(sequences.Value().rows), info.row);
              && n > 0 && local == n - 1
              && sequences.Value() == Run(InsertAt(was.rows, n, info.row), Min(was.low, info.row.address))
    {
      ghost var i;
      var li2;
      li2, i := sequences.Scan(info.row);
      AddBelow(li2, info, i);
      if info.row.address < sequences.lowPc {
        sequences.lowPc := info.row.address;
      }
    }

    // The two abnormal cases.
    method AddInside(info: LineInfo)
      requires Valid() && IsNew(info) && sequences != null
      requires !info.row.endSequence && !SortsAfter(info.row, sequences.lastLine.row)
      modifies `local, `lclHead, sequences`chain, sequences`lowPc, info`prevLine, sequences.chain
      ensures Valid()
      ensures (sequences.Value(), local) == AddTo(old(sequences.Value()), old(local), info.row)
    {
      ghost var rows := sequences.Value().rows;
      assert lclHead.prevLine == Next(sequences.chain, local);
      if !SortsAfter(info.row, lclHead.row)
         && (lclHead.prevLine == null || SortsAfter(info.row, lclHead.prevLine.row)) {
        assert BelowLocalHead(rows, local, info.row);
        AddBelow(lclHead, info, local);
      } else {
        assert !BelowLocalHead(rows, local, info.row);
        AddByScan(info);
      }
    }

    method AddToOpen(info: LineInfo)
      requires Valid() && IsNew(info) && sequences != null
      modifies `local, `lclHead, sequences, info`prevLine, sequences.chain
      ensures Valid()
      ensures (sequences.Value(), local) == AddTo(old(sequences.Value()), old(local), info.row)
    {
      if info.row.endSequence || SortsAfter(info.row, sequences.lastLine.row) {
        AddOnTop(info);
      } else {
        AddInside(info);
      }
    }

    // add_line_info
    method AddLineInfo(row: Row)
      requires Valid()
      modifies this, sequences, if sequences == null then {} else set n | n in sequences.chain
      ensures Valid() && old(Value()).Ok() && Value() == Add(old(Value()), row)
    {
      var info := new LineInfo(row);
      if sequences != null && SameEntry(sequences.lastLine.row, row) {
        ReplaceLast(info);
      } else if sequences == null || sequences.lastLine.row.endSequence {
        StartSequence(info);
      } else {
        AddToOpen(info);
      }
    }
  }
}
