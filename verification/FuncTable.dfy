// build_lookup_funcinfo_table and lookup_address_in_function_table: a table with
// high watermarks, a binary search and a forward scan.

module FuncTable {
  import opened CLibrary

  // `struct arange`: the addresses from low up to high.
  datatype Range = Range(low: nat, high: nat)
  {
    predicate Contains(addr: nat) { low <= addr < high }
  }

  // `struct funcinfo`, as far as lookups read it.  The first range is part of the
  // structure, and is 0..0 if the function has none.
  class FuncInfo {
    const address: nat              // of the structure itself, which breaks ties
    const ranges: seq<Range>
    const prevFunc: FuncInfo?

    constructor (address: nat, ranges: seq<Range>, prevFunc: FuncInfo?)
      ensures this.address == address && this.prevFunc == prevFunc
      ensures this.ranges == if ranges == [] then [Range(0, 0)] else ranges
    {
      this.address, this.prevFunc := address, prevFunc;
      this.ranges := if ranges == [] then [Range(0, 0)] else ranges;
    }
  }

  datatype Entry = Entry(func: FuncInfo, low: nat, high: nat)

  predicate Listed(first: FuncInfo?, all: seq<FuncInfo>) {
    && first == Follow(all, 0)
    && forall i {:trigger Follow(all, i + 1)} :: 0 <= i < |all| ==> all[i].prevFunc == Follow(all, i + 1)
  }

  function Follow(all: seq<FuncInfo>, i: nat): FuncInfo?
    requires i <= |all|
  {
    if i < |all| then all[i] else null
  }

  // ---------- what a lookup should find ----------

  // Function f has a range of this length that contains addr.
  predicate Fits(f: FuncInfo, addr: nat, length: nat) {
    exists r :: r in f.ranges && r.Contains(addr) && length == r.high - r.low
  }

  datatype Best = Nothing | Found(func: FuncInfo, length: nat)

  // (g, n) does not beat (f, m): a shorter range wins, and among equal ones the
  // structure at the higher address.
  predicate NoBetter(g: FuncInfo, n: nat, f: FuncInfo, m: nat) {
    m < n || (m == n && g.address <= f.address)
  }

  // best is the function with the smallest range around addr, over all of them.
  ghost predicate IsBest(fs: set<FuncInfo>, addr: nat, best: Best) {
    && (best.Found? ==> best.func in fs && Fits(best.func, addr, best.length))
    && forall g, n: nat {:trigger Fits(g, addr, n)} :: g in fs && Fits(g, addr, n) ==>
         best.Found? && NoBetter(g, n, best.func, best.length)
  }

  // There is only one, as structures have different addresses.
  lemma BestIsUnique(fs: set<FuncInfo>, addr: nat, a: Best, b: Best)
    requires IsBest(fs, addr, a) && IsBest(fs, addr, b)
    requires forall f, g :: f in fs && g in fs && f.address == g.address ==> f == g
    ensures a == b
  {
  }

  // ---------- building the table ----------

  // low and high bound every range of the function.
  predicate Bounds(e: Entry) {
    forall r <- e.func.ranges :: e.low <= r.low && r.high <= e.high
  }

  method BoundsOf(f: FuncInfo) returns (e: Entry)
    requires f.ranges != []
    ensures e.func == f && Bounds(e)
  {
    var low: nat, high: nat := f.ranges[0].low, f.ranges[0].high;
    for i := 1 to |f.ranges|
      invariant forall j {:trigger f.ranges[j]} :: 0 <= j < i ==> low <= f.ranges[j].low && f.ranges[j].high <= high
    {
      var range := f.ranges[i];
      if range.low < low {
        low := range.low;
      }
      if range.high > high {
        high := range.high;
      }
    }
    e := Entry(f, low, high);
  }

  // compare_lookup_funcinfos gives at most 0
  predicate NotAfter(a: Entry, b: Entry) {
    a.low < b.low || (a.low == b.low && a.high <= b.high)
  }

  // The functions of a table.
  function Funcs(es: seq<Entry>): set<FuncInfo> {
    set e | e in es :: e.func
  }

  // "Populate the function info lookup table."
  method Populate(first: FuncInfo, count: nat, ghost all: seq<FuncInfo>) returns (a: array<Entry>)
    requires Listed(first, all) && count == |all| && forall f <- all :: f.ranges != []
    ensures fresh(a) && a.Length == count && Funcs(a[..]) == (set f | f in all)
    ensures forall i {:trigger a[i]} :: 0 <= i < count ==> Bounds(a[i])
  {
    var none := Entry(first, 0, 0);
    a := new Entry[count](_ => none);
    var index := count;
    var each: FuncInfo? := first;
    while each != null
      invariant 0 <= index <= count == a.Length && each == Follow(all, count - index)
      invariant forall i {:trigger a[i]} :: index <= i < count ==> a[i].func == all[count - 1 - i] && Bounds(a[i])
      decreases index
    {
      index := index - 1;
      a[index] := BoundsOf(each);
      ghost var k := count - 1 - index;
      assert all[k].prevFunc == Follow(all, k + 1);
      each := each.prevFunc;
    }
    PopulatedAll(a[..], all);
  }

  lemma PopulatedAll(es: seq<Entry>, all: seq<FuncInfo>)
    requires |es| == |all| && forall i {:trigger es[i]} :: 0 <= i < |es| ==> es[i].func == all[|es| - 1 - i]
    ensures Funcs(es) == (set f | f in all)
  {
    forall f | f in all ensures f in Funcs(es) {
      var i :| 0 <= i < |all| && all[i] == f;
      assert es[|es| - 1 - i].func == f;
    }
  }

  // Sorted by low, with high the greatest so far: no function up to an entry
  // reaches past its high.
  predicate Watermarked(es: seq<Entry>) {
    && (forall i, j {:trigger es[i], es[j]} :: 0 <= i <= j < |es| ==>
          es[i].low <= es[j].low && es[i].high <= es[j].high)
    && (forall i {:trigger es[i]} :: 0 <= i < |es| ==> Bounds(es[i]))
  }

  // "Calculate the high watermark for each function in the lookup table."
  method RaiseHighs(a: array<Entry>)
    requires a.Length > 0 && SortedBy(a[..], NotAfter)
    requires forall i {:trigger a[i]} :: 0 <= i < a.Length ==> Bounds(a[i])
    modifies a
    ensures Watermarked(a[..]) && Funcs(a[..]) == old(Funcs(a[..]))
  {
    ghost var was := a[..];
    var high := a[0].high;
    for n := 1 to a.Length
      invariant high == a[n - 1].high
      invariant forall i {:trigger a[i]} :: 0 <= i < a.Length ==>
                  a[i].func == was[i].func && a[i].low == was[i].low && Bounds(a[i])
      invariant forall i {:trigger a[i]} :: n <= i < a.Length ==> a[i] == was[i]
      invariant forall i, j {:trigger a[i], a[j]} :: 0 <= i <= j < n ==> a[i].high <= a[j].high
    {
      if a[n].high > high {
        high := a[n].high;
      } else {
        a[n] := a[n].(high := high);
      }
    }
    SameFuncs(was, a[..]);
  }

  lemma SameFuncs(s: seq<Entry>, t: seq<Entry>)
    requires |s| == |t| && forall i {:trigger t[i]} :: 0 <= i < |t| ==> t[i].func == s[i].func
    ensures Funcs(s) == Funcs(t)
  {
    forall e | e in s ensures e.func in Funcs(t) {
      var i :| 0 <= i < |s| && s[i] == e;
      assert t[i].func == e.func;
    }
  }

  lemma PermutedFuncs(s: seq<Entry>, t: seq<Entry>)
    requires multiset(s) == multiset(t)
    ensures Funcs(s) == Funcs(t)
    ensures (forall e <- s :: Bounds(e)) ==> forall e <- t :: Bounds(e)
  {
    forall e ensures e in s <==> e in t {
      assert e in s <==> e in multiset(s);
      assert e in t <==> e in multiset(t);
    }
  }

  // build_lookup_funcinfo_table, for a unit that has functions but no table yet.
  method BuildTable(first: FuncInfo, count: nat, ghost all: seq<FuncInfo>) returns (a: array<Entry>)
    requires Listed(first, all) && count == |all| && forall f <- all :: f.ranges != []
    ensures fresh(a) && a.Length == count && Watermarked(a[..]) && Funcs(a[..]) == (set f | f in all)
  {
    a := Populate(first, count, all);
    ghost var s := a[..];
    SortTable(a);
    PermutedFuncs(s, a[..]);
    forall i | 0 <= i < a.Length ensures Bounds(a[i]) {
      assert a[..][i] == a[i];
    }
    RaiseHighs(a);
  }

  method SortTable(a: array<Entry>)
    modifies a
    ensures SortedBy(a[..], NotAfter) && multiset(a[..]) == multiset(old(a[..]))
    ensures forall i, j {:trigger a[i], a[j]} :: 0 <= i < j < a.Length ==>
              a[i].low < a[j].low || (a[i].low == a[j].low && a[i].high <= a[j].high)
  {
    QSort(a, NotAfter);
    ghost var s := a[..];
    assert forall i, j {:trigger s[i], s[j]} :: 0 <= i < j < |s| ==> NotAfter(s[i], s[j]);
  }

  // ---------- looking up ----------

  // "Find the first function in the lookup table which may contain the specified
  // address."
  method SearchFirst(a: array<Entry>, addr: nat) returns (first: nat)
    requires Watermarked(a[..])
    ensures first <= a.Length
    ensures forall i {:trigger a[i]} :: 0 <= i < first ==> !(a[i].low <= addr < a[i].high)
  {
    ghost var s := a[..];
    var low, high, mid := 0, a.Length, 0;
    first := high;
    while low < high
      invariant low <= high <= a.Length && (first == a.Length || first == high)
      invariant first < a.Length ==> s[first].low <= addr
      invariant forall i {:trigger s[i]} :: 0 <= i < low ==> s[i].high <= addr
      invariant first == a.Length ==> forall i {:trigger s[i]} :: high <= i < a.Length ==> addr < s[i].low
    {
      mid := (low + high) / 2;
      assert a[mid] == s[mid];
      if addr < a[mid].low {
        high := mid;
      } else if addr >= a[mid].high {
        low := mid + 1;
      } else {
        high, first := mid, mid;
      }
    }
    assert forall i :: 0 <= i < a.Length ==> a[i] == s[i];
  }

  // A better fit.
  predicate Improves(best: Best, f: FuncInfo, length: nat) {
    best.Nothing? || length < best.length || (length == best.length && f.address > best.func.address)
  }

  // best, after the first j ranges of f have been compared with the best of fs.
  ghost predicate BestSoFar(fs: set<FuncInfo>, f: FuncInfo, j: nat, addr: nat, best: Best)
    requires j <= |f.ranges|
  {
    && (best.Found? ==> best.func in fs + {f} && Fits(best.func, addr, best.length))
    && (forall g, n: nat {:trigger Fits(g, addr, n)} :: g in fs && Fits(g, addr, n) ==>
          best.Found? && NoBetter(g, n, best.func, best.length))
    && (forall i {:trigger f.ranges[i]} :: 0 <= i < j && f.ranges[i].Contains(addr) ==>
          best.Found? && NoBetter(f, f.ranges[i].high - f.ranges[i].low, best.func, best.length))
  }

  // The loop over the ranges of one function.
  method Compare(f: FuncInfo, addr: nat, best: Best, ghost fs: set<FuncInfo>) returns (best': Best)
    requires IsBest(fs, addr, best)
    ensures IsBest(fs + {f}, addr, best')
  {
    best' := best;
    for j := 0 to |f.ranges|
      invariant BestSoFar(fs, f, j, addr, best')
    {
      var arange := f.ranges[j];
      if addr < arange.low || addr >= arange.high {
        continue;
      }
      assert Fits(f, addr, arange.high - arange.low);
      if Improves(best', f, arange.high - arange.low) {
        best' := Found(f, arange.high - arange.low);
      }
    }
  }

  // A function whose bounds miss the address does not change the best one.
  lemma MissedChangesNothing(fs: set<FuncInfo>, es: seq<Entry>, addr: nat, best: Best)
    requires IsBest(fs, addr, best)
    requires forall e <- es :: Bounds(e) && !(e.low <= addr < e.high)
    ensures IsBest(fs + Funcs(es), addr, best)
  {
    forall g, n: nat | g in Funcs(es) ensures !Fits(g, addr, n) {
      var e :| e in es && e.func == g;
      MissedFits(e, addr, n);
    }
  }

  lemma MissedFits(e: Entry, addr: nat, n: nat)
    requires Bounds(e) && !(e.low <= addr < e.high)
    ensures !Fits(e.func, addr, n)
  {
  }

  // The forward scan from the first entry that may contain the address.
  method ScanForward(a: array<Entry>, addr: nat, first: nat) returns (best: Best)
    requires Watermarked(a[..]) && first <= a.Length
    requires forall i {:trigger a[i]} :: 0 <= i < first ==> !(a[i].low <= addr < a[i].high)
    ensures IsBest(Funcs(a[..]), addr, best)
  {
    ghost var s := a[..];
    best := Nothing;
    MissedChangesNothing({}, s[..first], addr, best);
    var n := first;
    while n < a.Length
      invariant first <= n <= a.Length && IsBest(Funcs(s[..n]), addr, best)
    {
      assert a[n] == s[n];
      if addr < a[n].low {
        assert forall e <- s[n..] :: Bounds(e) && addr < e.low;
        MissedChangesNothing(Funcs(s[..n]), s[n..], addr, best);
        assert s == s[..n] + s[n..];
        assert Funcs(s) == Funcs(s[..n]) + Funcs(s[n..]);
        return;
      }
      best := Compare(a[n].func, addr, best, Funcs(s[..n]));
      OneMore(s, n);
      n := n + 1;
    }
    assert s[..n] == s;
  }

  lemma OneMore(s: seq<Entry>, n: nat)
    requires n < |s|
    ensures Funcs(s[..n + 1]) == Funcs(s[..n]) + {s[n].func}
  {
    assert s[..n + 1] == s[..n] + [s[n]];
  }

  // lookup_address_in_function_table: the function with the smallest range around
  // the address over all functions and all their ranges, and none only if no range
  // contains it.
  method LookUpAddress(a: array<Entry>, addr: nat) returns (best: Best)
    requires Watermarked(a[..])
    ensures IsBest(Funcs(a[..]), addr, best)
  {
    if a.Length == 0 {
      return Nothing;
    }
    if a[a.Length - 1].high < addr {
      assert a[a.Length - 1] == a[..][a.Length - 1];
      MissedChangesNothing({}, a[..], addr, Nothing);
      return Nothing;
    }
    var first := SearchFirst(a, addr);
    best := ScanForward(a, addr, first);
  }

  // What the lookup's answer says of the ranges: nothing exactly if none holds the
  // address; else one that does, no longer than any other, and of the structures with
  // one as short the one at the highest address.
  lemma AnswerMeans(fs: set<FuncInfo>, addr: nat, best: Best)
    ensures IsBest(fs, addr, best) && best.Nothing? <==>
            best.Nothing? && forall f, r {:trigger r in f.ranges} :: f in fs && r in f.ranges ==>
                               addr < r.low || r.high <= addr
    ensures IsBest(fs, addr, best) && best.Found? <==>
            && best.Found? && best.func in fs
            && (exists r :: r in best.func.ranges && r.low <= addr < r.high && best.length == r.high - r.low)
            && forall f, r {:trigger r in f.ranges} :: f in fs && r in f.ranges && r.low <= addr < r.high ==>
                 best.length < r.high - r.low
                 || (best.length == r.high - r.low && f.address <= best.func.address)
  {
    forall f, r {:trigger r in f.ranges} | f in fs && r in f.ranges && r.low <= addr < r.high
      ensures Fits(f, addr, r.high - r.low)
    {
      assert r.Contains(addr);
    }
  }
}
