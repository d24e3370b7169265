// build_line_info_table and lookup_address_in_line_info_table: two nested binary
// searches over the sorted sequences.

module LineLookup {
  import opened Bytes
  import opened LineAdd
  import opened LineAddLaws
  import opened LineSort

  // ---------- the linear scans ----------

  // The first span that contains addr; |s| if there is none.
  function ScanSpans(s: seq<Span>, addr: nat): (n: nat)
    ensures n <= |s| && (n < |s| ==> s[n].Contains(addr))
    ensures forall i {:trigger s[i]} :: 0 <= i < n ==> !s[i].Contains(addr)
  {
    if s == [] || s[0].Contains(addr) then 0 else 1 + ScanSpans(s[1..], addr)
  }

  // Down the list from the last line: the first row that is not above addr.
  function ScanRows(rows: seq<Row>, addr: nat): (n: nat)
    ensures n <= |rows| && (n < |rows| ==> rows[n].address <= addr)
    ensures forall i {:trigger rows[i]} :: 0 <= i < n ==> addr < rows[i].address
  {
    if rows == [] || rows[0].address <= addr then 0 else 1 + ScanRows(rows[1..], addr)
  }

  // What a lookup reports.
  datatype Found = Nowhere | Line(row: Row, size: nat)

  // A span with its list of rows, as add_line_info and sort_line_sequences leave
  // them: the rows are in order, and low_pc is not below all of them.
  ghost predicate Ready(x: Span, c: seq<LineInfo>)
    reads c, x.lookup
  {
    && c != [] && c[0] == x.last && Linked(c) && Descending(RowsOf(c)) && EndIsHead(RowsOf(c))
    && c[|c| - 1].row.address <= x.low
    && (x.lookup != null ==> x.lookup[..] == Reversed(c))
  }

  // ---------- building one table ----------

  method CountLines(last: LineInfo, ghost c: seq<LineInfo>) returns (n: nat)
    requires c != [] && c[0] == last && Linked(c)
    ensures n == |c|
  {
    var line: LineInfo? := last;
    n := 0;
    while line != null
      invariant n <= |c| && line == (if n < |c| then c[n] else null)
      decreases |c| - n
    {
      assert line.prevLine == Next(c, n);
      line := line.prevLine;
      n := n + 1;
    }
  }

  // build_line_info_table, for a sequence that has no table yet.
  method BuildLineInfoTable(last: LineInfo, ghost c: seq<LineInfo>) returns (lookup: array<LineInfo>)
    requires c != [] && c[0] == last && Linked(c)
    ensures fresh(lookup) && lookup[..] == Reversed(c)
  {
    var index := CountLines(last, c);
    lookup := new LineInfo[index](_ => last);
    var line: LineInfo? := last;
    while line != null
      invariant 0 <= index <= lookup.Length == |c|
      invariant line == (if index > 0 then c[|c| - index] else null)
      invariant forall i {:trigger lookup[i]} :: index <= i < |c| ==> lookup[i] == c[|c| - 1 - i]
      decreases index
    {
      index := index - 1;
      lookup[index] := line;
      assert line.prevLine == Next(c, |c| - 1 - index);
      line := line.prevLine;
    }
  }

  // ---------- the searches ----------

  lemma OnlySpan(s: seq<Span>, addr: nat, i: nat)
    requires Disjoint(s) && i < |s| && s[i].Contains(addr)
    ensures ScanSpans(s, addr) == i
  {
    var n := ScanSpans(s, addr);
    if n < i {
      assert false;
    }
  }

  // "Binary search the array of sequences."  The result is num if none contains
  // the address.
  method SearchSpans(a: array<Span>, num: nat, addr: nat) returns (found: nat)
    requires num <= a.Length && Disjoint(a[..num])
    ensures found == ScanSpans(a[..num], addr)
  {
    ghost var s := a[..num];
    var low, high, mid := 0, num, 0;
    while low < high
      invariant 0 <= low <= high <= num
      invariant forall i {:trigger s[i]} :: 0 <= i < low || high <= i < num ==> !s[i].Contains(addr)
      invariant high - low < num ==> 0 <= mid < num
    {
      mid := (low + high) / 2;
      assert a[mid] == s[mid];
      if addr < a[mid].low {
        high := mid;
      } else if addr >= a[mid].last.row.address {
        low := mid + 1;
      } else {
        break;
      }
    }
    if num == 0 || addr < a[mid].low || addr >= a[mid].last.row.address {
      return num;
    }
    assert a[mid] == s[mid];
    OnlySpan(s, addr, mid);
    found := mid;
  }

  // The rows from index g of the ascending table on are those above addr.
  lemma SplitAt(c: seq<LineInfo>, addr: nat, i: nat)
    requires Descending(RowsOf(c)) && c != [] && c[|c| - 1].row.address <= addr && i < |c|
    ensures var n := ScanRows(RowsOf(c), addr);
            n < |c| && (c[i].row.address <= addr <==> n <= i)
  {
    var rows := RowsOf(c);
    var n := ScanRows(rows, addr);
    assert rows[|c| - 1].address <= addr && rows[i].address == c[i].row.address;
    if n < i {
      assert !SortsAfter(rows[i], rows[n]);
    }
  }

  // "Binary search the array of line information."  The entry after mid is there
  // whenever it is looked at.
  method SearchRows(lookup: array<LineInfo>, addr: nat, ghost c: seq<LineInfo>) returns (mid: nat)
    requires lookup[..] == Reversed(c) && Descending(RowsOf(c))
    requires c != [] && c[|c| - 1].row.address <= addr < c[0].row.address
    ensures var n := ScanRows(RowsOf(c), addr);
            0 < n < |c| && mid == |c| - 1 - n && mid + 1 < lookup.Length
    ensures lookup[mid].row.address <= addr < lookup[mid + 1].row.address
  {
    ghost var n := ScanRows(RowsOf(c), addr);
    ghost var goal := |c| - 1 - n;
    SplitAt(c, addr, 0);
    forall i | 0 <= i < lookup.Length
      ensures lookup[i].row.address <= addr <==> i <= goal
    {
      assert lookup[..][i] == c[|c| - 1 - i];
      SplitAt(c, addr, |c| - 1 - i);
    }
    var low, high := 0, lookup.Length;
    mid := 0;
    while low < high
      invariant 0 <= low <= goal < high <= lookup.Length
    {
      mid := (low + high) / 2;
      if addr < lookup[mid].row.address {
        high := mid;
      } else if addr >= lookup[mid + 1].row.address {
        low := mid + 1;
      } else {
        break;
      }
    }
  }

  // ---------- the lookup ----------

  // What the linear scans find.
  ghost function Scanned(s: seq<Span>, chains: seq<seq<LineInfo>>, addr: nat): Found
    requires |s| <= |chains|
  {
    var k := ScanSpans(s, addr);
    if k == |s| then Nowhere
    else
      var rows := RowsOf(chains[k]);
      var n := ScanRows(rows, addr);
      if n < |rows| then Line(rows[n], s[k].High() - s[k].low) else Nowhere
  }

  // The part after the sequence has been found.
  method LookUpRow(a: array<Span>, k: nat, addr: nat, ghost c: seq<LineInfo>) returns (r: Found)
    requires k < a.Length && Ready(a[k], c) && a[k].Contains(addr)
    modifies a
    ensures Ready(a[k], c)
    ensures a[..] == old(a[..])[k := old(a[k]).(lookup := a[k].lookup)]
    ensures var n := ScanRows(RowsOf(c), addr);
            0 < n < |c| && r == Line(c[n].row, old(a[k]).High() - old(a[k]).low)
  {
    var lookup := a[k].lookup;
    if lookup == null {
      lookup := BuildLineInfoTable(a[k].last, c);
      a[k] := a[k].(lookup := lookup);
    }
    var mid := SearchRows(lookup, addr, c);
    var info := lookup[mid];
    assert info == lookup[..][mid] == c[|c| - 1 - mid] && RowsOf(c)[|c| - 1 - mid] == info.row;
    if addr >= info.row.address && addr < lookup[mid + 1].row.address && info != a[k].last {
      if !info.row.endSequence {
        return Line(info.row, a[k].last.row.address - a[k].low);
      }
    }
    r := Nowhere;
  }

  // lookup_address_in_line_info_table: the two binary searches, which build a
  // sequence's table when they first need it, find what linear scans of the
  // sequences and of the list find.
  method LookUpAddress(a: array<Span>, num: nat, addr: nat, ghost chains: seq<seq<LineInfo>>) returns (r: Found)
    requires num <= a.Length && num <= |chains| && Disjoint(a[..num])
    requires forall i {:trigger a[i]} :: 0 <= i < num ==> Ready(a[i], chains[i])
    modifies a
    ensures forall i {:trigger a[i]} :: 0 <= i < num ==> Ready(a[i], chains[i])
    ensures forall i {:trigger a[i]} :: 0 <= i < a.Length ==> a[i].low == old(a[i].low) && a[i].last == old(a[i].last)
    ensures r == Scanned(old(a[..num]), chains, addr)
  {
    ghost var s := a[..num];
    var k := SearchSpans(a, num, addr);
    if k == num {
      return Nowhere;
    }
    assert s[k] == a[k];
    r := LookUpRow(a, k, addr, chains[k]);
    assert RowsOf(chains[k])[ScanRows(RowsOf(chains[k]), addr)] == chains[k][ScanRows(RowsOf(chains[k]), addr)].row;
  }

  // A line is reported exactly for the covered addresses.
  lemma FoundIffCovered(s: seq<Span>, chains: seq<seq<LineInfo>>, addr: nat)
    requires |s| <= |chains| && Disjoint(s)
    requires forall i {:trigger s[i]} :: 0 <= i < |s| ==> Ready(s[i], chains[i])
    ensures Scanned(s, chains, addr).Line? <==> Covers(s, addr)
  {
    var k := ScanSpans(s, addr);
    if k < |s| {
      assert Ready(s[k], chains[k]) && s[k].Contains(addr);
      SplitAt(chains[k], addr, 0);
    }
  }

  lemma RunIsReady(run: Run, x: Span, c: seq<LineInfo>)
    requires Descending(run.rows) && EndIsHead(run.rows) && LowStored(run) && run.low <= x.low
    requires RowsOf(c) == run.rows && Linked(c) && c != [] && c[0] == x.last && x.lookup == null
    ensures Ready(x, c)
  {
    var i :| 0 <= i < |run.rows| && run.rows[i].address == run.low;
    var n := |c| - 1;
    assert i < n ==> !SortsAfter(run.rows[n], run.rows[i]);
    assert run.rows[n] == c[n].row;
  }

  // What add_line_info keeps is what the lookup needs, with low_pc raised or not.
  lemma StoredRunIsReady(rows: seq<Row>, run: Run, x: Span, c: seq<LineInfo>)
    requires EndsOnTop(rows) && run in AddAll(rows).runs && run.low <= x.low
    requires RowsOf(c) == run.rows && Linked(c) && c != [] && c[0] == x.last && x.lookup == null
    ensures Ready(x, c)
  {
    OrderIff(rows);
    LowIsStored(rows);
    EndIsLast(rows);
    RunIsReady(run, x, c);
  }

  // ---------- adding, sorting and looking up ----------

  // A stored sequence that spans addr has this row for it: the first one, from the last
  // line down, that is not above addr.
  predicate HasLine(run: Run, addr: nat, row: Row) {
    && run.rows != [] && run.low <= addr < run.rows[0].address
    && var n := ScanRows(run.rows, addr); n < |run.rows| && row == run.rows[n]
  }

  // The run that a span is left of.
  ghost function Source(x: Span, chains: seq<seq<LineInfo>>, runs: seq<Run>): (j: nat)
    requires LeftOf(x, chains, runs)
    ensures j < |runs| == |chains| && chains[j] != [] && chains[j][0] == x.last && runs[j].low <= x.low
  {
    var j :| 0 <= j < |runs| && chains[j] != [] && chains[j][0] == x.last && runs[j].low <= x.low;
    j
  }

  // The lists of the spans.
  ghost function Sources(s: seq<Span>, chains: seq<seq<LineInfo>>, runs: seq<Run>): (c: seq<seq<LineInfo>>)
    requires forall i {:trigger s[i]} :: 0 <= i < |s| ==> LeftOf(s[i], chains, runs)
    ensures |c| == |s| && forall i {:trigger c[i]} :: 0 <= i < |s| ==> c[i] == chains[Source(s[i], chains, runs)]
  {
    seq(|s|, i requires 0 <= i < |s| => chains[Source(s[i], chains, runs)])
  }

  // A span that is left of a stored run is ready to be searched.
  lemma LeftIsReady(rows: seq<Row>, x: Span, chains: seq<seq<LineInfo>>, runs: seq<Run>)
    requires EndsOnTop(rows) && runs == AddAll(rows).runs && ChainsOf(chains, runs) && LeftOf(x, chains, runs)
    ensures Ready(x, chains[Source(x, chains, runs)])
  {
    hide EndsOnTop, AddAll, Linked, Ready, RowsOf;
    var j := Source(x, chains, runs);
    assert runs[j] in AddAll(rows).runs && ChainOf(chains[j], runs[j]);
    StoredRunIsReady(rows, runs[j], x, chains[j]);
  }

  // A list is known by its first node.
  lemma {:induction false} SameHead(c: seq<LineInfo>, d: seq<LineInfo>, n: nat)
    requires c != [] && d != [] && c[0] == d[0] && Linked(c) && Linked(d) && n < |c|
    ensures n < |d| && c[n] == d[n] && (n + 1 == |c| <==> n + 1 == |d|)
    decreases n
  {
    if n > 0 {
      SameHead(c, d, n - 1);
      assert c[n - 1].prevLine == Next(c, n - 1) && d[n - 1].prevLine == Next(d, n - 1);
    }
    assert c[n].prevLine == Next(c, n) && d[n].prevLine == Next(d, n);
  }

  lemma SameChain(c: seq<LineInfo>, d: seq<LineInfo>)
    requires c != [] && d != [] && c[0] == d[0] && Linked(c) && Linked(d)
    ensures c == d
  {
    hide Linked;
    SameHead(c, d, |c| - 1);
    forall n | 0 <= n < |c| ensures n < |d| && c[n] == d[n] {
      SameHead(c, d, n);
    }
  }

  // Run j has this row for addr, and comes first of all that span it.
  predicate ReportedBy(runs: seq<Run>, j: nat, addr: nat, row: Row) {
    j < |runs| && IsFirst(runs, j, addr) && HasLine(runs[j], addr, row)
  }

  // x has run j for the first that spans it, or one with the same rows.
  predicate GoesTo(runs: seq<Run>, j: nat, x: nat)
    requires j < |runs|
  {
    exists i: nat {:trigger runs[i]} :: i < |runs| && runs[i].rows == runs[j].rows && IsFirst(runs, i, x)
  }

  // This many addresses, addr among them, up to the end of run j, go to run j.
  predicate IsRange(runs: seq<Run>, j: nat, addr: nat, size: nat) {
    && j < |runs| && runs[j].rows != []
    && var high := runs[j].rows[0].address;
       && size <= high && high - size <= addr < high
       && forall x: nat {:trigger GoesTo(runs, j, x)} :: high - size <= x < high ==> GoesTo(runs, j, x)
  }

  lemma SpanIsRange(x: Span, s: seq<Span>, k: nat, chains: seq<seq<LineInfo>>, runs: seq<Run>, j: nat, addr: nat)
    requires ChainsOf(chains, runs) && AllFirst(s, chains, runs) && k < |s| && s[k] == x && x.Contains(addr)
    requires j < |runs| && chains[j] != [] && chains[j][0] == x.last
    ensures IsRange(runs, j, addr, x.High() - x.low)
  {
    hide Linked, IsFirst;
    assert ChainOf(chains[j], runs[j]);
    forall y: nat | x.low <= y < x.High() ensures GoesTo(runs, j, y) {
      assert s[k].Contains(y) && StandsForFirst(x, chains, runs, y);
      var i: nat :| i < |runs| && chains[i] != [] && chains[i][0] == x.last && IsFirst(runs, i, y);
      assert ChainOf(chains[i], runs[i]);
      SameChain(chains[i], chains[j]);
      assert runs[i].rows == runs[j].rows;
    }
  }

  // What the scan of the spans finds is a line of the first stored run for the address,
  // with the size of what is left of that run.
  lemma ScannedIsStored(s: seq<Span>, chains: seq<seq<LineInfo>>, runs: seq<Run>, addr: nat)
    requires ChainsOf(chains, runs) && AllFirst(s, chains, runs)
    requires forall i {:trigger s[i]} :: 0 <= i < |s| ==> LeftOf(s[i], chains, runs)
    ensures var r := Scanned(s, Sources(s, chains, runs), addr);
            r.Line? ==> exists j: nat :: ReportedBy(runs, j, addr, r.row) && IsRange(runs, j, addr, r.size)
  {
    hide Linked, IsFirst, GoesTo, IsRange;
    var k := ScanSpans(s, addr);
    if k < |s| {
      var i := Source(s[k], chains, runs);
      assert s[k].Contains(addr) && StandsForFirst(s[k], chains, runs, addr);
      var j: nat :| j < |runs| && chains[j] != [] && chains[j][0] == s[k].last && IsFirst(runs, j, addr);
      assert ChainOf(chains[i], runs[i]) && ChainOf(chains[j], runs[j]);
      SameChain(chains[i], chains[j]);
      FirstSpans(runs, j, addr);
      var n := ScanRows(runs[j].rows, addr);
      SpanIsRange(s[k], s, k, chains, runs, j, addr);
      if n < |runs[j].rows| {
        assert ReportedBy(runs, j, addr, runs[j].rows[n]);
      }
    }
  }

  lemma FirstSpans(runs: seq<Run>, j: nat, addr: nat)
    requires j < |runs| && IsFirst(runs, j, addr)
    ensures Spans(runs[j], addr)
  {
  }

  // After any run of add_line_info calls in which no end-of-sequence row is below rows
  // already stored: sorting the sequences and looking an address up finds a line exactly
  // if some sequence spans the address, and then the row of the first one that does.
  method SortAndLookUp(table: LineTable, addr: nat, ghost rows: seq<Row>) returns (r: Found)
    requires table.Valid() && table.Value() == AddAll(rows) && EndsOnTop(rows)
    ensures r.Line? <==> RunsCover(AddAll(rows).runs, addr)
    ensures r.Line? ==> exists j: nat :: ReportedBy(AddAll(rows).runs, j, addr, r.row)
                                         && IsRange(AddAll(rows).runs, j, addr, r.size)
  {
    hide EndsOnTop, AddAll, LineTable.Valid, Linked, Ready, RunsCover, Covers, LeftOf, HasLine, Disjoint,
         AllFirst, ReportedBy, IsRange;
    LowAtMostLast(rows);
    RunsAreFull(rows);
    ghost var runs := table.Runs();
    var a, num;
    ghost var chains;
    a, num, chains := SortLineSequences(table);
    ghost var s := a[..num];
    forall i {:trigger s[i]} | 0 <= i < num
      ensures LeftOf(s[i], chains, runs) && Ready(s[i], chains[Source(s[i], chains, runs)])
    {
      assert s[i] == a[i];
      LeftIsReady(rows, s[i], chains, runs);
    }
    FoundIffCovered(s, Sources(s, chains, runs), addr);
    ScannedIsStored(s, chains, runs, addr);
    r := LookUpAddress(a, num, addr, Sources(s, chains, runs));
  }

  lemma RunsAreFull(rows: seq<Row>)
    ensures forall r <- AddAll(rows).runs :: r.rows != []
  {
  }
}
