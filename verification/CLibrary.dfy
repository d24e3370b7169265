// What the modelled code uses of the C library: qsort, strlen and strnlen.

module CLibrary {
  import opened Bytes

  // ---------- qsort ----------

  predicate SortedBy<T>(s: seq<T>, notAfter: (T, T) -> bool) {
    forall i, j {:trigger s[i], s[j]} :: 0 <= i < j < |s| ==> notAfter(s[i], s[j])
  }

  // Any two elements compare, and comparisons chain.
  predicate Ordering<T(==)>(all: multiset<T>, notAfter: (T, T) -> bool) {
    && (forall x, y {:trigger notAfter(x, y)} :: x in all && y in all ==> notAfter(x, y) || notAfter(y, x))
    && (forall x, y, z {:trigger notAfter(x, y), notAfter(y, z)} :: x in all && y in all && z in all ==>
          notAfter(x, y) && notAfter(y, z) ==> notAfter(x, z))
  }

  function InsertAt<T>(s: seq<T>, i: nat, x: T): (r: seq<T>)
    requires i <= |s|
    ensures |r| == |s| + 1 && r[i] == x
    ensures forall j {:trigger r[j]} :: 0 <= j < |r| && j != i ==> r[j] == if j < i then s[j] else s[j - 1]
  {
    s[..i] + [x] + s[i..]
  }

  // Where x goes: after the elements that need not come after it.
  function Place<T>(s: seq<T>, x: T, notAfter: (T, T) -> bool): (n: nat)
    ensures n <= |s|
    ensures forall i {:trigger s[i]} :: 0 <= i < n ==> notAfter(s[i], x)
    ensures n < |s| ==> !notAfter(s[n], x)
  {
    if s == [] || !notAfter(s[0], x) then 0 else 1 + Place(s[1..], x, notAfter)
  }

  lemma PlaceKeepsOrder<T>(all: multiset<T>, s: seq<T>, x: T, notAfter: (T, T) -> bool)
    requires Ordering(all, notAfter) && x in all && (forall y <- s :: y in all) && SortedBy(s, notAfter)
    ensures SortedBy(InsertAt(s, Place(s, x, notAfter), x), notAfter)
  {
    var n := Place(s, x, notAfter);
    forall i | n <= i < |s| ensures notAfter(x, s[i]) {
      assert notAfter(x, s[n]);
      assert i > n ==> notAfter(s[n], s[i]);
    }
  }

  lemma InsertMultiset<T>(s: seq<T>, n: nat, x: T)
    requires n <= |s|
    ensures multiset(InsertAt(s, n, x)) == multiset(s) + multiset{x}
  {
    assert s == s[..n] + s[n..];
    assert InsertAt(s, n, x) == s[..n] + [x] + s[n..];
  }

  // The elements of a, each inserted in its place.
  method SortedCopy<T(==)>(a: array<T>, notAfter: (T, T) -> bool) returns (s: seq<T>)
    requires Ordering(multiset(a[..]), notAfter)
    ensures |s| == a.Length && SortedBy(s, notAfter) && multiset(s) == multiset(a[..])
  {
    ghost var all := multiset(a[..]);
    s := [];
    for i := 0 to a.Length
      invariant |s| == i && SortedBy(s, notAfter) && multiset(s) == multiset(a[..i])
    {
      forall y | y in s ensures y in all {
        assert y in multiset(s) && y in multiset(a[..i]);
      }
      assert a[i] in multiset(a[..]);
      var n := Place(s, a[i], notAfter);
      PlaceKeepsOrder(all, s, a[i], notAfter);
      InsertMultiset(s, n, a[i]);
      s := InsertAt(s, n, a[i]);
      assert a[..i + 1] == a[..i] + [a[i]];
    }
    assert a[..] == a[..a.Length];
  }

  // A sorted permutation.  Callers must not rely on the order of elements that
  // compare equal.
  method QSort<T(==)>(a: array<T>, notAfter: (T, T) -> bool)
    requires Ordering(multiset(a[..]), notAfter)
    modifies a
    ensures SortedBy(a[..], notAfter) && multiset(a[..]) == multiset(old(a[..]))
  {
    var s := SortedCopy(a, notAfter);
    for i := 0 to a.Length
      invariant forall k {:trigger a[k]} :: 0 <= k < i ==> a[k] == s[k]
    {
      a[i] := s[i];
    }
    assert a[..] == s;
  }

  // ---------- strings ----------

  datatype CString = NullPointer | Text(bytes: seq<Byte>)

  // The string at p, which ends at the first NUL.
  function StringFrom(c: seq<Byte>, p: nat): (s: seq<Byte>)
    requires p <= |c|
    ensures p + |s| <= |c| && s == c[p..p + |s|] && 0 !in s
    ensures p + |s| < |c| ==> c[p + |s|] == 0
    decreases |c| - p
  {
    if p == |c| || c[p] == 0 then []
    else
      assert c[p..] == [c[p]] + c[p + 1..];
      [c[p]] + StringFrom(c, p + 1)
  }

  // Contents with the NUL that the reader puts after them.
  predicate Terminated(c: seq<Byte>) { c != [] && c[|c| - 1] == 0 }

  lemma StringInside(c: seq<Byte>, p: nat)
    requires Terminated(c) && p < |c|
    ensures p + |StringFrom(c, p)| < |c|
  {
  }

  lemma {:induction false} StringAt(c: seq<Byte>, p: nat, s: seq<Byte>)
    requires At(c, p, s + [0]) && 0 !in s
    ensures StringFrom(c, p) == s
    decreases |s|
  {
    assert c[p] == (s + [0])[0];
    if s != [] {
      assert (s + [0])[1..] == s[1..] + [0];
      StringAt(c, p + 1, s[1..]);
    }
  }

  // strlen, or what is left of c if there is no NUL.
  function StringLength(c: seq<Byte>, p: nat): (n: nat)
    requires p <= |c|
    ensures p + n <= |c| && (p + n < |c| ==> c[p + n] == 0)
  {
    |StringFrom(c, p)|
  }

  lemma LengthStep(c: seq<Byte>, p: nat)
    requires p < |c|
    ensures StringLength(c, p) == if c[p] == 0 then 0 else 1 + StringLength(c, p + 1)
  {
  }

  // strlen
  method StrLen(c: array<Byte>, p: nat, ghost s: seq<Byte>) returns (n: nat)
    requires c[..] == s && Terminated(s) && p < |s|
    ensures n == StringLength(s, p)
  {
    hide StringLength;
    n := 0;
    while c[p + n] != 0
      invariant p + n < |s| && n + StringLength(s, p + n) == StringLength(s, p)
      decreases |s| - n
    {
      LengthStep(s, p + n);
      n := n + 1;
    }
    LengthStep(s, p + n);
  }

  // strnlen
  method StrnLen(c: array<Byte>, p: nat, most: nat, ghost s: seq<Byte>) returns (n: nat)
    requires c[..] == s && Terminated(s) && p < |s|
    ensures n == Min(StringLength(s, p), most)
  {
    hide StringLength;
    n := 0;
    while n < most && c[p + n] != 0
      invariant n <= most && p + n < |s| && n + StringLength(s, p + n) == StringLength(s, p)
      decreases most - n
    {
      LengthStep(s, p + n);
      n := n + 1;
    }
    LengthStep(s, p + n);
  }
}
