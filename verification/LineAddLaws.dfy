// What add_line_info leaves behind after any run of calls.

module LineAddLaws {
  import opened CLibrary
  import opened LineAdd

  // ---------- the shortcut is right ----------

  // In descending rows the place below lcl_head, if it fits, is the place that a
  // scan from the top finds.
  lemma LocalHeadIsSpot(rows: seq<Row>, h: nat, row: Row)
    requires Descending(rows) && h < |rows| && BelowLocalHead(rows, h, row)
    ensures Spot(rows, row) == h + 1
  {
    var n := Spot(rows, row);
    if n <= h {
      assert false;
    }
  }

  lemma InsertKeepsOrder(rows: seq<Row>, row: Row)
    requires Descending(rows)
    ensures Descending(InsertAt(rows, Spot(rows, row), row))
  {
    var n := Spot(rows, row);
    forall i | n <= i < |rows| ensures !SortsAfter(rows[i], row) {
      assert n < i ==> !SortsAfter(rows[i], rows[n]);
    }
  }

  predicate NoneEmpty(lists: seq<seq<Row>>) {
    forall i {:trigger lists[i]} :: 0 <= i < |lists| ==> lists[i] != []
  }

  // The reference: a list is scanned from the top, and there is no lcl_head.
  function ScanAdd(lists: seq<seq<Row>>, row: Row): (r: seq<seq<Row>>)
    requires NoneEmpty(lists)
    ensures NoneEmpty(r)
  {
    if lists == [] then [[row]]
    else if SameEntry(lists[0][0], row) then [[row] + lists[0][1..]] + lists[1..]
    else if lists[0][0].endSequence then [[row]] + lists
    else if row.endSequence then [[row] + lists[0]] + lists[1..]
    else [InsertAt(lists[0], Spot(lists[0], row), row)] + lists[1..]
  }

  function ScanAll(rows: seq<Row>): (r: seq<seq<Row>>)
    ensures NoneEmpty(r)
  {
    if rows == [] then [] else ScanAdd(ScanAll(rows[..|rows| - 1]), rows[|rows| - 1])
  }

  function Lists(runs: seq<Run>): (r: seq<seq<Row>>)
    ensures |r| == |runs|
    ensures forall i {:trigger r[i]} :: 0 <= i < |runs| ==> r[i] == runs[i].rows
  {
    seq(|runs|, i requires 0 <= i < |runs| => runs[i].rows)
  }

  // One list with a row added is the scanned list with the row added.
  lemma AddToIsScan(top: Run, h: nat, row: Row)
    requires h < |top.rows| && Descending(top.rows)
    ensures AddTo(top, h, row).0.rows == if row.endSequence then [row] + top.rows
                                         else InsertAt(top.rows, Spot(top.rows, row), row)
  {
    if !row.endSequence && !SortsAfter(row, top.rows[0]) && BelowLocalHead(top.rows, h, row) {
      LocalHeadIsSpot(top.rows, h, row);
    }
  }

  lemma AddKeepsOpenInOrder(t: Table, row: Row)
    requires t.OpenInOrder()
    ensures Add(t, row).OpenInOrder()
  {
    if t.runs != [] && !SameEntry(t.runs[0].rows[0], row) && !t.runs[0].rows[0].endSequence {
      var top := t.runs[0];
      AddToIsScan(top, t.local, row);
      InsertKeepsOrder(top.rows, row);
    } else if t.runs != [] && SameEntry(t.runs[0].rows[0], row) {
      ReplaceKeepsOrder(t.runs[0].rows, row);
    }
  }

  lemma ReplaceKeepsOrder(rows: seq<Row>, row: Row)
    requires rows != [] && SameEntry(rows[0], row)
    ensures Descending([row] + rows[1..]) <==> Descending(rows)
  {
    var r := [row] + rows[1..];
    if Descending(rows) {
      forall i, j | 0 <= i < j < |r| ensures !SortsAfter(r[j], r[i]) {
        assert !SortsAfter(rows[j], rows[i]);
      }
    }
    if Descending(r) {
      forall i, j | 0 <= i < j < |r| ensures !SortsAfter(rows[j], rows[i]) {
        assert !SortsAfter(r[j], r[i]);
      }
    }
  }

  lemma AddIsScan(t: Table, row: Row)
    requires t.OpenInOrder()
    ensures Lists(Add(t, row).runs) == ScanAdd(Lists(t.runs), row)
  {
    var l, r := Lists(Add(t, row).runs), ScanAdd(Lists(t.runs), row);
    if t.runs != [] && !SameEntry(t.runs[0].rows[0], row) && !t.runs[0].rows[0].endSequence {
      AddToIsScan(t.runs[0], t.local, row);
    }
    assert |l| == |r|;
    assert forall i :: 0 <= i < |l| ==> l[i] == r[i];
  }

  // Insertion at lcl_head gives the lists that a scan from the top gives, over any
  // run of calls.
  lemma {:induction false} ShortcutIsScan(rows: seq<Row>)
    ensures AddAll(rows).OpenInOrder()
    ensures Lists(AddAll(rows).runs) == ScanAll(rows)
  {
    if rows != [] {
      var n := |rows| - 1;
      ShortcutIsScan(rows[..n]);
      AddKeepsOpenInOrder(AddAll(rows[..n]), rows[n]);
      AddIsScan(AddAll(rows[..n]), rows[n]);
    }
  }

  // ---------- order ----------

  // A row on top: the rows stay in order exactly when it is not below the top.
  lemma PrependOrder(rows: seq<Row>, row: Row)
    requires Descending(rows) && rows != []
    ensures Descending([row] + rows) <==> !SortsAfter(rows[0], row)
  {
    var r := [row] + rows;
    if !SortsAfter(rows[0], row) {
      forall i, j | 0 <= i < j < |r| ensures !SortsAfter(r[j], r[i]) {
        if i == 0 && j > 1 {
          assert !SortsAfter(rows[j - 1], rows[0]);
        }
      }
    } else {
      assert r[1] == rows[0] && r[0] == row;
    }
  }

  predicate InOrder(runs: seq<Run>) {
    forall i {:trigger runs[i]} :: 0 <= i < |runs| ==> Descending(runs[i].rows)
  }

  // The row is not an end of sequence that lies below the rows it ends.
  predicate EndOnTop(t: Table, row: Row)
    requires t.Ok()
  {
    row.endSequence && t.runs != [] && !t.runs[0].rows[0].endSequence ==> !SortsAfter(t.runs[0].rows[0], row)
  }

  lemma HeadOrder(t: Table, row: Row)
    requires t.OpenInOrder() && t.runs != []
    requires SameEntry(t.runs[0].rows[0], row) || !t.runs[0].rows[0].endSequence
    ensures Descending(Add(t, row).runs[0].rows) <==> Descending(t.runs[0].rows) && EndOnTop(t, row)
  {
    var top := t.runs[0];
    if SameEntry(top.rows[0], row) {
      ReplaceKeepsOrder(top.rows, row);
    } else {
      AddToIsScan(top, t.local, row);
      PrependOrder(top.rows, row);
      InsertKeepsOrder(top.rows, row);
    }
  }

  lemma StepOrder(t: Table, row: Row)
    requires t.OpenInOrder()
    ensures InOrder(Add(t, row).runs) <==> InOrder(t.runs) && EndOnTop(t, row)
  {
    var r := Add(t, row).runs;
    if t.runs != [] && (SameEntry(t.runs[0].rows[0], row) || !t.runs[0].rows[0].endSequence) {
      HeadOrder(t, row);
      assert forall i :: 1 <= i < |r| ==> r[i] == t.runs[i];
    } else {
      assert forall i :: 0 <= i < |t.runs| ==> r[i + 1] == t.runs[i];
    }
  }

  predicate EndsOnTop(rows: seq<Row>) {
    rows != [] ==>
      EndsOnTop(rows[..|rows| - 1]) && EndOnTop(AddAll(rows[..|rows| - 1]), rows[|rows| - 1])
  }

  // All lists are sorted from high to low exactly when no end-of-sequence row was
  // below the rows already stored.
  lemma {:induction false} OrderIff(rows: seq<Row>)
    ensures InOrder(AddAll(rows).runs) <==> EndsOnTop(rows)
  {
    if rows != [] {
      var n := |rows| - 1;
      OrderIff(rows[..n]);
      ShortcutIsScan(rows[..n]);
      StepOrder(AddAll(rows[..n]), rows[n]);
    }
  }

  // ---------- ends of sequences ----------

  // An end-of-sequence row is the last line of its sequence.
  predicate EndIsHead(rows: seq<Row>) {
    forall i {:trigger rows[i]} :: 0 < i < |rows| ==> !rows[i].endSequence
  }

  predicate EndsAreHeads(runs: seq<Run>) {
    forall i {:trigger runs[i]} :: 0 <= i < |runs| ==> EndIsHead(runs[i].rows)
  }

  lemma StepEnds(t: Table, row: Row)
    requires t.Ok() && EndsAreHeads(t.runs)
    ensures EndsAreHeads(Add(t, row).runs)
  {
    var r := Add(t, row).runs;
    if t.runs != [] && !SameEntry(t.runs[0].rows[0], row) && t.runs[0].rows[0].endSequence {
      assert forall i :: 1 <= i < |r| ==> r[i] == t.runs[i - 1];
    } else if t.runs != [] {
      var top := t.runs[0];
      assert forall i :: 1 <= i < |r| ==> r[i] == t.runs[i];
      forall j | 0 < j < |r[0].rows| ensures !r[0].rows[j].endSequence {
        assert r[0].rows[j] == row || r[0].rows[j] == top.rows[j - 1]
               || (j < |top.rows| && r[0].rows[j] == top.rows[j]);
      }
    }
  }

  lemma {:induction false} EndIsLast(rows: seq<Row>)
    ensures EndsAreHeads(AddAll(rows).runs)
  {
    if rows != [] {
      EndIsLast(rows[..|rows| - 1]);
      StepEnds(AddAll(rows[..|rows| - 1]), rows[|rows| - 1]);
    }
  }

  // ---------- conservation ----------

  function Stored(runs: seq<Run>): multiset<Row> {
    if runs == [] then multiset{} else multiset(runs[0].rows) + Stored(runs[1..])
  }

  // The head that a row with the same address, op_index and end_sequence replaces.
  function ReplacedBy(t: Table, row: Row): seq<Row>
    requires t.Ok()
  {
    if t.runs != [] && SameEntry(t.runs[0].rows[0], row) then [t.runs[0].rows[0]] else []
  }

  function Replaced(rows: seq<Row>): (r: seq<Row>)
  {
    if rows == [] then []
    else Replaced(rows[..|rows| - 1]) + ReplacedBy(AddAll(rows[..|rows| - 1]), rows[|rows| - 1])
  }

  lemma AddToStores(top: Run, h: nat, row: Row)
    requires h < |top.rows|
    ensures multiset(AddTo(top, h, row).0.rows) == multiset(top.rows) + multiset{row}
  {
    if row.endSequence || SortsAfter(row, top.rows[0]) {
    } else if BelowLocalHead(top.rows, h, row) {
      InsertMultiset(top.rows, h + 1, row);
    } else {
      InsertMultiset(top.rows, Spot(top.rows, row), row);
    }
  }

  // A change of the first list only.
  lemma StoredHead(runs: seq<Run>, r: seq<Run>, gone: multiset<Row>, new_: multiset<Row>)
    requires runs != [] && r != [] && r[1..] == runs[1..]
    requires multiset(r[0].rows) + gone == multiset(runs[0].rows) + new_
    ensures Stored(r) + gone == Stored(runs) + new_
  {
    var rest := Stored(runs[1..]);
    forall x ensures (Stored(r) + gone)[x] == (Stored(runs) + new_)[x] {
      assert (multiset(r[0].rows) + gone)[x] == (multiset(runs[0].rows) + new_)[x];
    }
  }

  lemma StepStores(t: Table, row: Row)
    requires t.Ok()
    ensures Stored(Add(t, row).runs) + multiset(ReplacedBy(t, row)) == Stored(t.runs) + multiset{row}
  {
    var r := Add(t, row).runs;
    if t.runs == [] {
      assert r[1..] == [];
    } else if SameEntry(t.runs[0].rows[0], row) {
      var rows := t.runs[0].rows;
      assert rows == [rows[0]] + rows[1..] && r[0].rows == [row] + rows[1..];
      StoredHead(t.runs, r, multiset{rows[0]}, multiset{row});
    } else if t.runs[0].rows[0].endSequence {
      assert r[1..] == t.runs;
    } else {
      AddToStores(t.runs[0], t.local, row);
      StoredHead(t.runs, r, multiset{}, multiset{row});
    }
  }

  // The lists hold exactly the submitted rows, except those replaced.
  lemma {:induction false} RowsConserved(rows: seq<Row>)
    ensures Stored(AddAll(rows).runs) + multiset(Replaced(rows)) == multiset(rows)
  {
    if rows != [] {
      var n := |rows| - 1;
      var t, row := AddAll(rows[..n]), rows[n];
      RowsConserved(rows[..n]);
      StepStores(t, row);
      MoveOver(Stored(t.runs), multiset(Replaced(rows[..n])), Stored(Add(t, row).runs),
               multiset(ReplacedBy(t, row)), multiset{row});
      assert rows == rows[..n] + [row];
    }
  }

  lemma MoveOver(stored: multiset<Row>, gone: multiset<Row>, stored': multiset<Row>, more: multiset<Row>,
                 row: multiset<Row>)
    requires stored' + more == stored + row
    ensures stored' + (gone + more) == (stored + gone) + row
  {
    forall x ensures (stored' + (gone + more))[x] == ((stored + gone) + row)[x] {
      assert (stored' + more)[x] == (stored + row)[x];
    }
  }

  // Of two rows with the same address, op_index and end_sequence that follow each other
  // directly the second takes the place of the first; otherwise every row stays.
  lemma LastOfEqualStays(t: Table, row: Row)
    requires t.Ok() && t.runs != []
    ensures var rows, top := t.runs[0].rows, t.runs[0].rows[0];
            if top.address == row.address && top.opIndex == row.opIndex && top.endSequence == row.endSequence
            then Add(t, row) == Table([Run([row] + rows[1..], t.runs[0].low)] + t.runs[1..], t.local)
            else Stored(Add(t, row).runs) == Stored(t.runs) + multiset{row}
  {
    StepStores(t, row);
  }

  // ---------- low_pc ----------

  // low_pc is the address of a stored row.
  predicate LowStored(run: Run) {
    exists i :: 0 <= i < |run.rows| && run.rows[i].address == run.low
  }

  predicate LowLeast(run: Run) {
    forall i {:trigger run.rows[i]} :: 0 <= i < |run.rows| ==> run.low <= run.rows[i].address
  }

  lemma AddToLow(top: Run, h: nat, row: Row)
    requires h < |top.rows| && LowStored(top)
    ensures LowStored(AddTo(top, h, row).0)
  {
    var i :| 0 <= i < |top.rows| && top.rows[i].address == top.low;
    var r := AddTo(top, h, row).0;
    if row.endSequence || SortsAfter(row, top.rows[0]) {
      assert r.rows[i + 1] == top.rows[i];
    } else {
      var n := if BelowLocalHead(top.rows, h, row) then h + 1 else Spot(top.rows, row);
      assert r.rows[n] == row && r.rows[if i < n then i else i + 1] == top.rows[i];
    }
  }

  lemma StepLow(t: Table, row: Row)
    requires t.Ok() && forall r <- t.runs :: LowStored(r)
    ensures forall r <- Add(t, row).runs :: LowStored(r)
  {
    if t.runs == [] || (t.runs[0].rows[0].endSequence && !SameEntry(t.runs[0].rows[0], row)) {
      var one := Run([row], row.address);
      assert one.rows[0].address == one.low;
    } else if SameEntry(t.runs[0].rows[0], row) {
      var top := t.runs[0];
      assert LowStored(top);
      var i :| 0 <= i < |top.rows| && top.rows[i].address == top.low;
      var r := Add(t, row).runs[0];
      assert r.rows[i].address == r.low;
    } else {
      AddToLow(t.runs[0], t.local, row);
    }
  }

  lemma {:induction false} LowIsStored(rows: seq<Row>)
    ensures forall r <- AddAll(rows).runs :: LowStored(r)
  {
    if rows != [] {
      LowIsStored(rows[..|rows| - 1]);
      StepLow(AddAll(rows[..|rows| - 1]), rows[|rows| - 1]);
    }
  }

  // What sort_line_sequences needs: if the lists are in order, low_pc is never
  // past the last line.
  lemma LowAtMostLast(rows: seq<Row>)
    requires EndsOnTop(rows)
    ensures forall r <- AddAll(rows).runs :: r.low <= r.rows[0].address
  {
    OrderIff(rows);
    LowIsStored(rows);
    var runs := AddAll(rows).runs;
    forall k | 0 <= k < |runs| ensures runs[k].low <= runs[k].rows[0].address {
      var run := runs[k];
      assert LowStored(run) && Descending(run.rows);
      var i :| 0 <= i < |run.rows| && run.rows[i].address == run.low;
      assert i > 0 ==> !SortsAfter(run.rows[i], run.rows[0]);
    }
  }

  // low_pc need not be the least address.  It stays the least one exactly when
  // the row is not below it, or goes in by a scan: a row that goes in directly
  // below lcl_head, or ends the sequence, does not lower it.
  lemma LowStaysLeast(top: Run, h: nat, row: Row)
    requires h < |top.rows| && LowLeast(top)
    ensures LowLeast(AddTo(top, h, row).0)
            <==> row.address >= top.low || (!row.endSequence && !BelowLocalHead(top.rows, h, row))
  {
    var r := AddTo(top, h, row).0;
    if row.endSequence || SortsAfter(row, top.rows[0]) {
      assert r.rows[0] == row;
    } else if BelowLocalHead(top.rows, h, row) {
      assert r.rows[h + 1] == row;
    } else {
      assert r.rows[Spot(top.rows, row)] == row;
    }
  }

  // Two rows in falling order already leave low_pc above the least address.
  lemma LowNotLeast()
    ensures exists rows :: rows != [] && EndsOnTop(rows) && !LowLeast(AddAll(rows).runs[0])
  {
    var a, b := Row(10, 0, "", 1, 0, 0, false), Row(5, 0, "", 2, 0, 0, false);
    var rows := [a, b];
    assert rows[..1] == [a] && [a][..0] == [];
    assert AddAll([a]) == Table([Run([a], 10)], 0);
    var t := AddAll(rows);
    assert t == Add(AddAll([a]), b);
    assert BelowLocalHead([a], 0, b);
    assert t.runs[0].low == 10 && t.runs[0].rows[1] == b;
    assert EndsOnTop([]) && EndsOnTop([a]) && EndsOnTop(rows);
  }
}
