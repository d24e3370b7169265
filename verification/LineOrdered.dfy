// Rows that arrive in order, as compilers normally emit them: what is stored of them,
// and which one is reported for an address.

module LineOrdered {
  import opened Bytes
  import opened LineAdd
  import opened LineAddLaws
  import opened LineSort
  import opened LineLookup

  // A sequence in rising order of address and op_index, with its end last.
  predicate Rising(s: seq<Row>) {
    && |s| > 1 && s[|s| - 1].endSequence
    && (forall i {:trigger s[i]} :: 0 <= i < |s| - 1 ==> !s[i].endSequence)
    && (forall i, j {:trigger s[i], s[j]} :: 0 <= i < j < |s| ==>
          s[i].address < s[j].address || (s[i].address == s[j].address && s[i].opIndex <= s[j].opIndex))
  }

  // Neighbours of which the first is dropped.
  predicate Superseded(a: Row, b: Row) {
    a.address == b.address && a.opIndex == b.opIndex && a.endSequence == b.endSequence
  }

  // What is kept of the first n rows, the last one first.
  function Kept(s: seq<Row>, n: nat): (r: seq<Row>)
    requires 0 < n <= |s|
    ensures r != [] && r[0] == s[n - 1]
  {
    if n == 1 then [s[0]]
    else if Superseded(s[n - 2], s[n - 1]) then [s[n - 1]] + Kept(s, n - 1)[1..]
    else [s[n - 1]] + Kept(s, n - 1)
  }

  // No sequence is open.
  predicate AtStart(t: Table)
    requires t.Ok()
  {
    t.runs != [] ==> t.runs[0].rows[0].endSequence
  }

  lemma RisingStep(t: Table, low: nat, older: seq<Run>, s: seq<Row>, n: nat)
    requires Rising(s) && 0 < n < |s| && t.Ok() && t.runs == [Run(Kept(s, n), low)] + older
    ensures Add(t, s[n]).runs == [Run(Kept(s, n + 1), low)] + older
  {
    assert t.runs[1..] == older;
    assert s[n - 1].address <= s[n].address;
  }

  lemma FirstOfSequence(t: Table, row: Row)
    requires t.Ok() && AtStart(t) && !row.endSequence
    ensures Add(t, row).runs == [Run([row], row.address)] + t.runs
  {
  }

  lemma AddOneMore(rows: seq<Row>, row: Row)
    ensures AddAll(rows + [row]) == Add(AddAll(rows), row)
  {
    assert (rows + [row])[..|rows|] == rows;
  }

  // A whole sequence becomes one run, on top of the older ones.
  lemma {:induction false} RisingIsKept(before: seq<Row>, s: seq<Row>, n: nat)
    requires Rising(s) && 0 < n <= |s| && AtStart(AddAll(before))
    ensures AddAll(before + s[..n]).runs == [Run(Kept(s, n), s[0].address)] + AddAll(before).runs
    decreases n
  {
    hide AddAll, Add, AtStart;
    assert before + s[..n] == (before + s[..n - 1]) + [s[n - 1]];
    AddOneMore(before + s[..n - 1], s[n - 1]);
    if n == 1 {
      assert before + s[..0] == before;
      FirstOfSequence(AddAll(before), s[0]);
    } else {
      RisingIsKept(before, s, n - 1);
      RisingStep(AddAll(before + s[..n - 1]), s[0].address, AddAll(before).runs, s, n - 1);
    }
  }

  // The last of the first n rows that is not above addr.
  function LastAtMost(s: seq<Row>, n: nat, addr: nat): (j: nat)
    requires 0 < n <= |s| && s[0].address <= addr
    ensures j < n && s[j].address <= addr && forall i {:trigger s[i]} :: j < i < n ==> addr < s[i].address
  {
    if s[n - 1].address <= addr then n - 1 else LastAtMost(s, n - 1, addr)
  }

  // A scan down these rows finds x.
  predicate Finds(rows: seq<Row>, addr: nat, x: Row) {
    var k := ScanRows(rows, addr); k < |rows| && rows[k] == x
  }

  lemma FindsTop(row: Row, rest: seq<Row>, addr: nat, x: Row)
    ensures Finds([row] + rest, addr, x) <==> if row.address <= addr then x == row else Finds(rest, addr, x)
  {
    assert ([row] + rest)[1..] == rest;
  }

  lemma {:induction false} ScanFindsLast(s: seq<Row>, n: nat, addr: nat)
    requires 0 < n <= |s| && s[0].address <= addr
    ensures Finds(Kept(s, n), addr, s[LastAtMost(s, n, addr)])
    decreases n
  {
    hide Finds;
    var x := s[LastAtMost(s, n, addr)];
    if n == 1 {
      FindsTop(s[0], [], addr, x);
      assert [s[0]] + [] == [s[0]];
    } else {
      var rest := Kept(s, n - 1)[1..];
      assert Kept(s, n - 1) == [s[n - 2]] + rest;
      if s[n - 1].address > addr {
        ScanFindsLast(s, n - 1, addr);
        FindsTop(s[n - 2], rest, addr, x);
      }
      FindsTop(s[n - 1], rest, addr, x);
      FindsTop(s[n - 1], Kept(s, n - 1), addr, x);
    }
  }

  // For an address in the sequence the last row at or below it is reported, and no
  // other one.
  lemma LastIsReported(before: seq<Row>, s: seq<Row>, addr: nat, row: Row)
    requires Rising(s) && AtStart(AddAll(before))
    ensures AddAll(before + s).runs != [] && AddAll(before + s).runs[1..] == AddAll(before).runs
    ensures HasLine(AddAll(before + s).runs[0], addr, row)
            <==> s[0].address <= addr < s[|s| - 1].address && row == s[LastAtMost(s, |s|, addr)]
  {
    RisingIsKept(before, s, |s|);
    assert s[..|s|] == s;
    if s[0].address <= addr {
      ScanFindsLast(s, |s|, addr);
      assert Finds(Kept(s, |s|), addr, s[LastAtMost(s, |s|, addr)]);
    }
  }

  // So what SortAndLookUp reports of a single sequence is the last row that is at or
  // below the address.
  lemma OneSequenceReports(s: seq<Row>, addr: nat, row: Row)
    requires Rising(s)
    ensures (exists j: nat :: ReportedBy(AddAll(s).runs, j, addr, row))
            <==> s[0].address <= addr < s[|s| - 1].address && row == s[LastAtMost(s, |s|, addr)]
  {
    hide AddAll, HasLine, Rising;
    NothingAdded();
    LastIsReported([], s, addr, row);
    assert [] + s == s;
    var runs := AddAll(s).runs;
    assert runs == [runs[0]];
    OnlyRun(runs, addr, row);
  }

  lemma NothingAdded()
    ensures AddAll([]) == Table([], 0)
  {
  }

  lemma OnlyRun(runs: seq<Run>, addr: nat, row: Row)
    requires |runs| == 1
    ensures (exists j: nat :: ReportedBy(runs, j, addr, row)) <==> HasLine(runs[0], addr, row)
  {
    hide ScanRows;
    if HasLine(runs[0], addr, row) {
      assert ReportedBy(runs, 0, addr, row);
    }
  }
}
