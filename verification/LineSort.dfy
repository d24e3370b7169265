// sort_line_sequences: the finished sequences become an array that can be
// searched by address.

module LineSort {
  import opened CLibrary
  import opened LineAdd

  // The members of `struct line_sequence` in the array.
  datatype Span = Span(low: nat, last: LineInfo, lookup: array?<LineInfo>)
  {
    function High(): nat { last.row.address }

    predicate Contains(addr: nat) { low <= addr < High() }
  }

  // Some span of s contains addr.
  predicate Covers(s: seq<Span>, addr: nat) {
    exists i :: 0 <= i < |s| && s[i].Contains(addr)
  }

  // Ordered, and no two overlap.
  predicate Disjoint(s: seq<Span>) {
    && (forall i {:trigger s[i]} :: 0 <= i < |s| ==> s[i].low <= s[i].High())
    && (forall i, j {:trigger s[i], s[j]} :: 0 <= i < j < |s| ==> s[i].High() <= s[j].low)
  }

  // compare_sequences gives at most 0
  predicate NotAfter(a: Span, b: Span) {
    a.low < b.low
    || (a.low == b.low && (a.High() > b.High() || (a.High() == b.High() && a.last.row.opIndex >= b.last.row.opIndex)))
  }

  predicate Sorted(s: seq<Span>) {
    SortedBy(s, NotAfter)
  }

  // ---------- trimming ----------

  // Where the trimmed spans come from: the same last line, and a low end that was
  // not lowered.
  predicate TrimmedFrom(s: seq<Span>, x: Span) {
    x.lookup == null && exists j :: 0 <= j < |s| && s[j].last == x.last && s[j].low <= x.low
  }

  // The first element of s that contains addr has the last line of x.
  predicate OwnedBy(s: seq<Span>, x: Span, addr: nat) {
    exists j {:trigger s[j]} :: 0 <= j < |s| && s[j].last == x.last && FirstWith(s, j, addr)
  }

  predicate FirstWith(s: seq<Span>, j: nat, addr: nat)
    requires j < |s|
  {
    s[j].Contains(addr) && forall k {:trigger s[k]} :: 0 <= k < j ==> !s[k].Contains(addr)
  }

  // Of overlapping elements the first one keeps its addresses.
  ghost predicate Owners(s: seq<Span>, a: seq<Span>) {
    forall i, addr {:trigger a[i].Contains(addr)} :: 0 <= i < |a| && a[i].Contains(addr) ==> OwnedBy(s, a[i], addr)
  }

  // No span has a table yet.
  predicate NoTables(s: seq<Span>) {
    forall i {:trigger s[i]} :: 0 <= i < |s| ==> s[i].lookup == null
  }

  // The state of the loop of sort_line_sequences when it reaches span n: the first
  // num elements of a are the result for the first n elements of s.
  ghost predicate Trimmed(s: seq<Span>, n: nat, a: seq<Span>, num: nat, high: nat) {
    && 0 < num <= n <= |s| == |a| && a[n..] == s[n..] && NoTables(a)
    && Disjoint(a[..num]) && high == a[num - 1].High()
    && (forall x :: Covers(s[..n], x) <==> Covers(a[..num], x))
    && (forall x :: s[n - 1].low <= x < high ==> Covers(a[..num], x))
    && (forall i {:trigger a[i]} :: 0 <= i < num ==> TrimmedFrom(s, a[i]))
    && Owners(s, a[..num])
  }

  lemma CoversMore(s: seq<Span>, n: nat, addr: nat)
    requires n < |s|
    ensures Covers(s[..n + 1], addr) <==> Covers(s[..n], addr) || s[n].Contains(addr)
  {
    assert s[..n + 1] == s[..n] + [s[n]];
    if Covers(s[..n], addr) {
      var i :| 0 <= i < n && s[..n][i].Contains(addr);
      assert s[..n + 1][i].Contains(addr);
    }
    if s[n].Contains(addr) {
      assert s[..n + 1][n].Contains(addr);
    }
  }

  lemma CoversOne(s: seq<Span>, x: Span, addr: nat)
    ensures Covers(s + [x], addr) <==> Covers(s, addr) || x.Contains(addr)
  {
    var t := s + [x];
    assert t[..|s|] == s && t[..|s| + 1] == t;
    CoversMore(t, |s|, addr);
  }

  // "Skip nested entries."
  lemma NestedStep(s: seq<Span>, n: nat, a: seq<Span>, num: nat, high: nat)
    requires Trimmed(s, n, a, num, high) && n < |s| && Sorted(s)
    requires s[n].High() <= high
    ensures Trimmed(s, n + 1, a, num, high)
  {
    hide OwnedBy;
    assert a[n + 1..] == a[n..][1..] == s[n + 1..];
    assert NotAfter(s[n - 1], s[n]);
    var all := s[..n + 1];
    forall x ensures Covers(all, x) <==> Covers(a[..num], x) {
      CoversMore(s, n, x);
    }
  }

  // "Trim overlapping entries" and "close up the gap".
  lemma AppendStep(s: seq<Span>, n: nat, a: seq<Span>, num: nat, high: nat, b: seq<Span>)
    requires Trimmed(s, n, a, num, high) && n < |s| && Sorted(s)
    requires s[n].low <= s[n].High() && (s[n].low < high ==> s[n].High() > high)
    requires |b| == |a| && b[n + 1..] == s[n + 1..] && b[..num] == a[..num] && NoTables(b)
    requires var low := if s[n].low < high then high else s[n].low;
             b[num].low == low && b[num].last == s[n].last
    ensures Trimmed(s, n + 1, b, num + 1, s[n].High())
  {
    hide OwnedBy;
    var x := b[num];
    assert b[..num + 1] == a[..num] + [x];
    assert NotAfter(s[n - 1], s[n]);
    AppendDisjoint(a[..num], x, high);
    var all, kept := s[..n + 1], b[..num + 1];
    forall y ensures Covers(all, y) <==> Covers(kept, y) {
      CoversMore(s, n, y);
      CoversOne(a[..num], x, y);
    }
    forall y | s[n].low <= y < s[n].High() ensures Covers(kept, y) {
      CoversMore(s, n, y);
    }
    forall i | 0 <= i < num + 1 ensures TrimmedFrom(s, b[i]) {
      if i < num {
        assert b[i] == a[..num][i] == a[i];
      }
    }
    forall y | x.Contains(y) ensures OwnedBy(s, x, y) {
      NotBelow(s, n, a[..num], high, y);
      NewOwner(s, n, x, y);
    }
    OneMoreOwner(s, a[..num], x);
  }

  // What has been kept so far ends at high.
  lemma NotBelow(s: seq<Span>, n: nat, a: seq<Span>, high: nat, addr: nat)
    requires n <= |s| && a != [] && Disjoint(a) && high == a[|a| - 1].High() <= addr
    requires Covers(s[..n], addr) <==> Covers(a, addr)
    ensures forall k {:trigger s[k]} :: 0 <= k < n ==> !s[k].Contains(addr)
  {
    forall i {:trigger a[i]} | 0 <= i < |a| ensures !a[i].Contains(addr) {
      assert i < |a| - 1 ==> a[i].High() <= a[|a| - 1].low <= high;
    }
    forall k {:trigger s[k]} | 0 <= k < n ensures !s[k].Contains(addr) {
      CoveredBy(s, n, k, addr);
    }
  }

  lemma CoveredBy(s: seq<Span>, n: nat, k: nat, addr: nat)
    requires k < n <= |s|
    ensures s[k].Contains(addr) ==> Covers(s[..n], addr)
  {
    assert s[..n][k] == s[k];
  }

  lemma NewOwner(s: seq<Span>, n: nat, x: Span, addr: nat)
    requires n < |s| && x.last == s[n].last && s[n].low <= x.low && x.Contains(addr)
    requires forall k {:trigger s[k]} :: 0 <= k < n ==> !s[k].Contains(addr)
    ensures OwnedBy(s, x, addr)
  {
    assert FirstWith(s, n, addr);
  }

  lemma OneMoreOwner(s: seq<Span>, a: seq<Span>, x: Span)
    requires Owners(s, a) && forall y {:trigger x.Contains(y)} :: x.Contains(y) ==> OwnedBy(s, x, y)
    ensures Owners(s, a + [x])
  {
    hide OwnedBy;
    var b := a + [x];
    forall i, addr {:trigger b[i].Contains(addr)} | 0 <= i < |b| && b[i].Contains(addr) ensures OwnedBy(s, b[i], addr) {
      if i < |a| {
        assert a[i].Contains(addr);
      }
    }
  }

  lemma AppendDisjoint(s: seq<Span>, x: Span, high: nat)
    requires s != [] && Disjoint(s) && high == s[|s| - 1].High() <= x.low <= x.High()
    ensures Disjoint(s + [x])
  {
    var t := s + [x];
    forall i, j | 0 <= i < j < |t| ensures t[i].High() <= t[j].low {
      if j == |s| && i < |s| - 1 {
        assert s[i].High() <= s[|s| - 1].low;
      }
    }
  }

  // One iteration of the loop, which skips or keeps span n.
  method TrimOne(a: array<Span>, n: nat, num: nat, high: nat, ghost s: seq<Span>) returns (num': nat, high': nat)
    requires Trimmed(s, n, a[..], num, high) && n < a.Length && Sorted(s)
    requires s[n].low <= s[n].High()
    modifies a
    ensures Trimmed(s, n + 1, a[..], num', high')
  {
    ghost var was := a[..];
    assert a[n] == was[n..][0] == s[n];
    if a[n].low < high {
      if a[n].last.row.address <= high {
        NestedStep(s, n, was, num, high);
        return num, high;
      }
      a[n] := a[n].(low := high);
    }
    high' := a[n].last.row.address;
    if n > num {
      a[num] := a[num].(low := a[n].low, last := a[n].last);
    }
    num' := num + 1;
    assert a[n + 1..] == was[n + 1..] == was[n..][1..] == s[n + 1..];
    assert a[..num] == was[..num];
    AppendStep(s, n, was, num, high, a[..]);
  }

  // "Make the list binary-searchable by trimming overlapping entries and removing
  // nested entries."
  method Trim(a: array<Span>) returns (num: nat)
    requires a.Length > 0 && Sorted(a[..]) && NoTables(a[..])
             && forall i :: 0 <= i < a.Length ==> a[i].low <= a[i].High()
    modifies a
    ensures 0 < num <= a.Length && Disjoint(a[..num])
    ensures forall x :: Covers(old(a[..]), x) <==> Covers(a[..num], x)
    ensures forall i {:trigger a[i]} :: 0 <= i < num ==> TrimmedFrom(old(a[..]), a[i])
    ensures Owners(old(a[..]), a[..num])
  {
    hide Owners;
    ghost var s := a[..];
    num := 1;
    var high := a[0].last.row.address;
    TrimStart(s);
    for n := 1 to a.Length
      invariant Trimmed(s, n, a[..], num, high)
    {
      num, high := TrimOne(a, n, num, high, s);
    }
    assert s[..a.Length] == s && a[..][..num] == a[..num];
    forall i | 0 <= i < num ensures TrimmedFrom(s, a[i]) {
      assert a[i] == a[..][i];
    }
  }

  lemma TrimStart(s: seq<Span>)
    requires s != [] && s[0].low <= s[0].High() && NoTables(s)
    ensures Trimmed(s, 1, s, 1, s[0].High())
  {
    assert s[..1] == [s[0]];
    forall x | s[0].Contains(x) ensures Covers(s[..1], x) {
      assert s[..1][0].Contains(x);
    }
    assert TrimmedFrom(s, s[0]);
    forall y | s[0].Contains(y) ensures OwnedBy(s, s[0], y) {
      NewOwner(s, 0, s[0], y);
    }
  }

  // ---------- the whole function ----------

  // Some sequence of the table spans addr, from low_pc to its last line.
  predicate RunsCover(runs: seq<Run>, addr: nat) {
    exists i :: 0 <= i < |runs| && runs[i].rows != [] && runs[i].low <= addr < runs[i].rows[0].address
  }

  // Span i describes run i.
  predicate Describes(x: Span, run: Run) {
    run.rows != [] && x.low == run.low && x.last.row == run.rows[0] && x.lookup == null
  }

  // c is the list of the rows of a run.
  ghost predicate ChainOf(c: seq<LineInfo>, run: Run)
    reads c
  {
    c != [] && Linked(c) && RowsOf(c) == run.rows
  }

  function NodesOf(chains: seq<seq<LineInfo>>): set<LineInfo> {
    set j, n | 0 <= j < |chains| && n in chains[j] :: n
  }

  // chains[j] is the list of the rows of run j.
  ghost predicate ChainsOf(chains: seq<seq<LineInfo>>, runs: seq<Run>)
    reads NodesOf(chains)
  {
    |chains| == |runs| && forall j {:trigger runs[j]} {:trigger chains[j]} :: 0 <= j < |runs| ==>
      assert forall n :: n in chains[j] ==> n in NodesOf(chains);
      ChainOf(chains[j], runs[j])
  }

  // The last lines of the lists.
  predicate Heads(s: seq<Span>, chains: seq<seq<LineInfo>>) {
    |s| == |chains| && forall j {:trigger s[j]} :: 0 <= j < |s| ==> chains[j] != [] && chains[j][0] == s[j].last
  }

  // Span x is what is left of a run: the same last line, and low_pc raised or not.
  predicate LeftOf(x: Span, chains: seq<seq<LineInfo>>, runs: seq<Run>) {
    x.lookup == null && |chains| == |runs| &&
    exists j {:trigger runs[j]} {:trigger chains[j]} ::
      0 <= j < |runs| && chains[j] != [] && chains[j][0] == x.last && runs[j].low <= x.low
  }

  predicate Spans(run: Run, addr: nat) { run.rows != [] && run.low <= addr < run.rows[0].address }

  // Of two runs: the one that starts first, or else the one that ends last.
  predicate Precedes(a: Run, b: Run)
    requires a.rows != [] && b.rows != []
  {
    || a.low < b.low
    || (a.low == b.low && a.rows[0].address > b.rows[0].address)
    || (a.low == b.low && a.rows[0].address == b.rows[0].address && a.rows[0].opIndex > b.rows[0].opIndex)
  }

  // Run j spans addr, and none that spans it precedes run j.
  predicate IsFirst(runs: seq<Run>, j: nat, addr: nat)
    requires j < |runs|
  {
    Spans(runs[j], addr) && forall k {:trigger runs[k]} :: 0 <= k < |runs| && Spans(runs[k], addr) ==>
      !Precedes(runs[k], runs[j])
  }

  // At addr span x stands for the first run that spans addr.
  predicate StandsForFirst(x: Span, chains: seq<seq<LineInfo>>, runs: seq<Run>, addr: nat) {
    |chains| == |runs| && exists j {:trigger runs[j]} {:trigger chains[j]} ::
      0 <= j < |runs| && chains[j] != [] && chains[j][0] == x.last && IsFirst(runs, j, addr)
  }

  ghost predicate AllFirst(s: seq<Span>, chains: seq<seq<LineInfo>>, runs: seq<Run>) {
    forall i, addr {:trigger s[i].Contains(addr)} :: 0 <= i < |s| && s[i].Contains(addr) ==>
      StandsForFirst(s[i], chains, runs, addr)
  }

  // "Copy the linked list into the array".
  method CopySequences(first: LineSequence, count: nat, ghost all: seq<LineSequence>, ghost repr: set<object>,
                       ghost runs: seq<Run>)
    returns (a: array<Span>, ghost chains: seq<seq<LineInfo>>)
    requires Finished(first, all, repr, runs) && count == |all|
    ensures fresh(a) && a.Length == |runs| && Heads(a[..], chains) && ChainsOf(chains, runs)
    ensures forall i {:trigger a[i]} :: 0 <= i < a.Length ==> Describes(a[i], runs[i])
  {
    var x := Span(first.lowPc, first.lastLine, null);
    a := new Span[count](_ => x);
    var next: LineSequence? := first;
    for n := 0 to count
      invariant next == Older(all, n)
      invariant forall i {:trigger a[i]} :: 0 <= i < n ==> a[i].last == all[i].lastLine
      invariant forall i {:trigger a[i]} :: 0 <= i < n ==> Describes(a[i], runs[i])
    {
      assert Done(all[n], repr, runs[n]);
      a[n] := Span(next.lowPc, next.lastLine, null);
      assert next.prevSequence == Older(all, n + 1);
      next := next.prevSequence;
    }
    chains := ListsIn(all);
    ListsAreChains(first, all, repr, runs);
  }

  ghost function ListsIn(all: seq<LineSequence>): (c: seq<seq<LineInfo>>)
    reads all
    ensures |c| == |all| && forall i {:trigger c[i]} {:trigger all[i]} :: 0 <= i < |all| ==> c[i] == all[i].chain
  {
    seq(|all|, i requires 0 <= i < |all| reads all => all[i].chain)
  }

  lemma ListsAreChains(first: LineSequence, all: seq<LineSequence>, repr: set<object>, runs: seq<Run>)
    requires Finished(first, all, repr, runs)
    ensures ChainsOf(ListsIn(all), runs)
    ensures forall i {:trigger all[i]} :: 0 <= i < |all| ==> all[i].chain != [] && all[i].chain[0] == all[i].lastLine
  {
    var chains := ListsIn(all);
    forall j {:trigger runs[j]} {:trigger chains[j]} | 0 <= j < |runs|
      ensures ChainOf(chains[j], runs[j])
    {
      assert Done(all[j], repr, runs[j]);
    }
    forall i {:trigger all[i]} | 0 <= i < |all| ensures all[i].chain != [] && all[i].chain[0] == all[i].lastLine {
      assert Done(all[i], repr, runs[i]);
    }
  }

  lemma CoverBoth(s: seq<Span>, runs: seq<Run>, addr: nat)
    requires |s| == |runs| && forall i {:trigger s[i]} :: 0 <= i < |s| ==> Describes(s[i], runs[i])
    ensures Covers(s, addr) <==> RunsCover(runs, addr)
  {
    if Covers(s, addr) {
      var i :| 0 <= i < |s| && s[i].Contains(addr);
      assert Describes(s[i], runs[i]);
    }
    if RunsCover(runs, addr) {
      var i :| 0 <= i < |runs| && runs[i].rows != [] && runs[i].low <= addr < runs[i].rows[0].address;
      assert Describes(s[i], runs[i]) && s[i].Contains(addr);
    }
  }

  lemma CoverPermuted(s: seq<Span>, t: seq<Span>, addr: nat)
    requires multiset(s) == multiset(t) && Covers(s, addr)
    ensures Covers(t, addr)
  {
    var i :| 0 <= i < |s| && s[i].Contains(addr);
    assert s[i] in multiset(t);
    var j :| 0 <= j < |t| && t[j] == s[i];
    assert t[j].Contains(addr);
  }

  // sort_line_sequences: the result is ordered, without overlaps, covers exactly the
  // addresses that the list of sequences covered, and consists of what is left of those
  // sequences.
  method SortLineSequences(table: LineTable) returns (a: array<Span>, num: nat, ghost chains: seq<seq<LineInfo>>)
    requires table.Valid()
    requires forall r <- table.Runs() :: r.rows != [] && r.low <= r.rows[0].address
    ensures fresh(a) && num <= a.Length && Disjoint(a[..num])
    ensures forall x :: RunsCover(table.Runs(), x) <==> Covers(a[..num], x)
    ensures ChainsOf(chains, table.Runs())
    ensures forall i {:trigger a[i]} :: 0 <= i < num ==> LeftOf(a[i], chains, table.Runs())
    ensures AllFirst(a[..num], chains, table.Runs())
  {
    hide StandsForFirst;
    if table.sequences == null {
      a := new Span[0];
      num, chains := 0, [];
      return;
    }
    ghost var all, wide := table.AllSequences();
    a, chains := CopySequences(table.sequences, table.numSequences, all, wide, table.Runs());
    num := SortAndTrim(a, chains, table.Runs());
  }

  method SortSpans(a: array<Span>)
    modifies a
    ensures Sorted(a[..]) && multiset(a[..]) == multiset(old(a[..]))
  {
    QSort(a, NotAfter);
  }

  // Sorting and describing the same runs: the same addresses are covered.
  lemma SortKeepsCover(s: seq<Span>, t: seq<Span>, runs: seq<Run>, addr: nat)
    requires multiset(s) == multiset(t) && |s| == |runs|
    requires forall i {:trigger s[i]} :: 0 <= i < |s| ==> Describes(s[i], runs[i])
    ensures RunsCover(runs, addr) <==> Covers(t, addr)
  {
    CoverBoth(s, runs, addr);
    if Covers(s, addr) {
      CoverPermuted(s, t, addr);
    }
    if Covers(t, addr) {
      CoverPermuted(t, s, addr);
    }
  }

  lemma SortKeepsEnds(s: seq<Span>, t: seq<Span>, runs: seq<Run>)
    requires multiset(s) == multiset(t) && |s| == |runs|
    requires forall i {:trigger s[i]} :: 0 <= i < |s| ==> Describes(s[i], runs[i])
    requires forall r <- runs :: r.rows != [] && r.low <= r.rows[0].address
    ensures forall i {:trigger t[i]} :: 0 <= i < |t| ==> t[i].low <= t[i].High()
  {
    forall i | 0 <= i < |t| ensures t[i].low <= t[i].High() {
      assert t[i] in multiset(s);
      var j :| 0 <= j < |s| && s[j] == t[i];
      assert Describes(s[j], runs[j]);
    }
  }

  // What is left after trimming is left of a run.
  lemma TrimmedIsLeft(s: seq<Span>, t: seq<Span>, x: Span, chains: seq<seq<LineInfo>>, runs: seq<Run>)
    requires multiset(s) == multiset(t) && |s| == |runs| && Heads(s, chains) && TrimmedFrom(t, x)
    requires forall i {:trigger s[i]} :: 0 <= i < |s| ==> Describes(s[i], runs[i])
    ensures LeftOf(x, chains, runs)
  {
    var i :| 0 <= i < |t| && t[i].last == x.last && t[i].low <= x.low;
    assert t[i] in multiset(s);
    var j :| 0 <= j < |s| && s[j] == t[i];
    assert Describes(s[j], runs[j]);
  }

  lemma SortKeepsTables(s: seq<Span>, t: seq<Span>, runs: seq<Run>)
    requires multiset(s) == multiset(t) && |s| == |runs|
    requires forall i {:trigger s[i]} :: 0 <= i < |s| ==> Describes(s[i], runs[i])
    ensures NoTables(t)
  {
    forall i {:trigger t[i]} | 0 <= i < |t| ensures t[i].lookup == null {
      assert t[i] in multiset(s);
      var j :| 0 <= j < |s| && s[j] == t[i];
      assert Describes(s[j], runs[j]);
    }
  }

  // The run that an element of the sorted array describes.
  lemma SortedRun(s: seq<Span>, t: seq<Span>, chains: seq<seq<LineInfo>>, runs: seq<Run>, n: nat) returns (j: nat)
    requires multiset(s) == multiset(t) && |s| == |runs| && Heads(s, chains) && n < |t|
    requires forall i {:trigger s[i]} :: 0 <= i < |s| ==> Describes(s[i], runs[i])
    ensures j < |runs| && chains[j] != [] && chains[j][0] == t[n].last && Describes(t[n], runs[j])
  {
    assert t[n] in multiset(s);
    j :| 0 <= j < |s| && s[j] == t[n];
  }

  lemma RunSorted(s: seq<Span>, t: seq<Span>, runs: seq<Run>, k: nat) returns (m: nat)
    requires multiset(s) == multiset(t) && |s| == |runs| && k < |runs| && Describes(s[k], runs[k])
    ensures m < |t| && Describes(t[m], runs[k])
  {
    assert s[k] in multiset(t);
    m :| 0 <= m < |t| && t[m] == s[k];
  }

  lemma NotAfterIs(a: Span, b: Span, x: Run, y: Run)
    requires Describes(a, x) && Describes(b, y) && NotAfter(b, a)
    ensures !Precedes(x, y)
  {
  }

  // The first element in sorted order that contains addr is the first run for it.
  lemma OwnerIsFirst(s: seq<Span>, t: seq<Span>, x: Span, chains: seq<seq<LineInfo>>, runs: seq<Run>, addr: nat)
    requires multiset(s) == multiset(t) && |s| == |runs| && Heads(s, chains) && Sorted(t) && OwnedBy(t, x, addr)
    requires forall i {:trigger s[i]} :: 0 <= i < |s| ==> Describes(s[i], runs[i])
    ensures StandsForFirst(x, chains, runs, addr)
  {
    hide NotAfter, Precedes;
    var n :| 0 <= n < |t| && t[n].last == x.last && FirstWith(t, n, addr);
    var j := SortedRun(s, t, chains, runs, n);
    forall k {:trigger runs[k]} | 0 <= k < |runs| && Spans(runs[k], addr) ensures !Precedes(runs[k], runs[j]) {
      var m := RunSorted(s, t, runs, k);
      assert t[m].Contains(addr);
      if m == n {
        NotAfterItself(t[n]);
      }
      NotAfterIs(t[m], t[n], runs[k], runs[j]);
    }
    assert IsFirst(runs, j, addr);
  }

  lemma NotAfterItself(x: Span)
    ensures NotAfter(x, x)
  {
  }

  lemma AllOwnersAreFirst(s: seq<Span>, t: seq<Span>, a: seq<Span>, chains: seq<seq<LineInfo>>, runs: seq<Run>)
    requires multiset(s) == multiset(t) && |s| == |runs| && Heads(s, chains) && Sorted(t) && Owners(t, a)
    requires forall i {:trigger s[i]} :: 0 <= i < |s| ==> Describes(s[i], runs[i])
    ensures AllFirst(a, chains, runs)
  {
    hide OwnedBy, StandsForFirst, Sorted;
    forall i, addr {:trigger a[i].Contains(addr)} | 0 <= i < |a| && a[i].Contains(addr)
      ensures StandsForFirst(a[i], chains, runs, addr)
    {
      OwnerIsFirst(s, t, a[i], chains, runs, addr);
    }
  }

  method SortAndTrim(a: array<Span>, ghost chains: seq<seq<LineInfo>>, ghost runs: seq<Run>) returns (num: nat)
    requires 0 < a.Length == |runs| && Heads(a[..], chains)
    requires forall i {:trigger a[i]} :: 0 <= i < a.Length ==> Describes(a[i], runs[i])
    requires forall r <- runs :: r.rows != [] && r.low <= r.rows[0].address
    modifies a
    ensures 0 < num <= a.Length && Disjoint(a[..num])
    ensures forall x :: RunsCover(runs, x) <==> Covers(a[..num], x)
    ensures forall i {:trigger a[i]} :: 0 <= i < num ==> LeftOf(a[i], chains, runs)
    ensures AllFirst(a[..num], chains, runs)
  {
    hide Owners, AllFirst;
    ghost var s := a[..];
    assert forall i {:trigger s[i]} :: 0 <= i < |s| ==> Describes(s[i], runs[i]);
    SortSpans(a);
    ghost var t := a[..];
    SortKeepsEnds(s, t, runs);
    SortKeepsTables(s, t, runs);
    num := Trim(a);
    AllOwnersAreFirst(s, t, a[..num], chains, runs);
    forall x ensures RunsCover(runs, x) <==> Covers(t, x) {
      SortKeepsCover(s, t, runs, x);
    }
    forall i {:trigger a[i]} | 0 <= i < num ensures LeftOf(a[i], chains, runs) {
      TrimmedIsLeft(s, t, a[i], chains, runs);
    }
  }
}
