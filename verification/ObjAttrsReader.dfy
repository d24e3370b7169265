// _bfd_elf_parse_attributes and the functions that add attributes, on the buffer and
// the lists in memory, against what ObjAttrsParse says of them.

module ObjAttrsReader {
  import opened Bytes
  import opened CLibrary
  import opened Leb128
  import opened ObjAttrs
  import opened ObjAttrsParse
  import opened ObjAttrsWrite

  // ---------- adding attributes ----------

  lemma SlotIs(others: seq<Tagged>, tag: nat, k: nat)
    requires k <= |others|
    requires forall i {:trigger others[i]} :: 0 <= i < k ==> others[i].tag <= tag
    requires k < |others| ==> tag < others[k].tag
    ensures k == Slot(others, tag)
  {
  }

  // The search of elf_new_obj_attr: the node after which the new one goes.
  method FindPlace(first: AttrNode?, tag: nat, ghost chain: seq<AttrNode>, ghost ts: seq<Tagged>)
    returns (last: AttrNode?, p: AttrNode?, ghost k: nat)
    requires Linked(first, chain) && ts == Others(chain)
    ensures k == Slot(ts, tag) && p == Next(chain, k) && last == if k == 0 then null else chain[k - 1]
  {
    k, last, p := 0, null, first;
    while p != null
      invariant k <= |chain| && p == Next(chain, k) && last == if k == 0 then null else chain[k - 1]
      invariant forall i {:trigger ts[i]} :: 0 <= i < k ==> ts[i].tag <= tag
      decreases |chain| - k
    {
      if tag < p.tag {
        break;
      }
      k := k + 1;
      assert chain[k - 1].next == Next(chain, k);
      last, p := p, p.next;
    }
    SlotIs(ts, tag, k);
  }

  // The links after a node goes in at k.
  ghost predicate LinkedAround(first: AttrNode?, chain: seq<AttrNode>, k: nat, node: AttrNode)
    requires k <= |chain|
    reads chain, node
  {
    && first == (if k == 0 then node else Next(chain, 0)) && node.next == Next(chain, k)
    && forall i {:trigger Next(chain, i + 1)} :: 0 <= i < |chain| ==>
         chain[i].next == if i + 1 == k then node else Next(chain, i + 1)
  }

  lemma InsertedIsLinked(first: AttrNode?, chain: seq<AttrNode>, k: nat, node: AttrNode, after: seq<AttrNode>)
    requires k <= |chain| && LinkedAround(first, chain, k, node) && node !in chain
    requires forall i, j :: 0 <= i < j < |chain| ==> chain[i] != chain[j]
    requires after == InsertAt(chain, k, node)
    ensures Linked(first, after)
  {
    forall i {:trigger Next(after, i + 1)} | 0 <= i < |after|
      ensures after[i].next == Next(after, i + 1)
    {
      if i < k {
        assert after[i] == chain[i] && chain[i].next == if i + 1 == k then node else Next(chain, i + 1);
      } else if i > k {
        var m := i - 1;
        assert after[i] == chain[m] && chain[m].next == Next(chain, m + 1);
      }
    }
  }

  // The new node between its neighbours.
  method LinkIn(v: VendorAttrs, last: AttrNode?, node: AttrNode, ghost k: nat)
    requires v.Valid() && k <= |v.chain| && node !in v.chain
    requires node.next == Next(v.chain, k) && last == if k == 0 then null else v.chain[k - 1]
    modifies v`other, v`chain, (set n | n in v.chain)`next
    ensures v.Valid() && v.chain == InsertAt(old(v.chain), k, node)
  {
    ghost var chain := v.chain;
    if last == null {
      v.other := node;
    } else {
      last.next := node;
    }
    v.chain := InsertAt(chain, k, node);
    assert LinkedAround(v.other, chain, k, node);
    InsertedIsLinked(v.other, chain, k, node, v.chain);
  }

  // bfd_elf_add_obj_attr_int, _string or _int_string, by the type of the tag.
  method AddObjAttr(v: VendorAttrs, t: Tagged, ghost was: Vendor)
    requires v.Holds(was)
    modifies v`other, v`chain, v.known, (set n | n in v.chain)`next
    ensures v.Holds(AddAttr(was, t))
    ensures forall n {:trigger n in v.chain} :: n in v.chain ==> n in old(v.chain) || fresh(n)
  {
    if t.tag < NUM_KNOWN_OBJ_ATTRIBUTES {
      v.known[t.tag] := Filled(v.known[t.tag], t.attr);
      assert v.known[..] == AddAttr(was, t).known;
    } else {
      AddOther(v, Tagged(t.tag, Filled(ZERO, t.attr)), was);
    }
  }

  method AddOther(v: VendorAttrs, t: Tagged, ghost was: Vendor)
    requires v.Holds(was)
    modifies v`other, v`chain, (set n | n in v.chain)`next
    ensures v.Holds(was.(other := InsertAt(was.other, Slot(was.other, t.tag), t)))
    ensures forall n {:trigger n in v.chain} :: n in v.chain ==> n in old(v.chain) || fresh(n)
  {
    ghost var chain := v.chain;
    var last, p, k := FindPlace(v.other, t.tag, v.chain, was.other);
    var node := new AttrNode(t.tag, t.attr, p);
    LinkIn(v, last, node, k);
    assert forall n {:trigger n in v.chain} :: n in v.chain ==> n in chain || n == node;
    assert Others(v.chain) == InsertAt(was.other, k, t);
  }

  // ---------- reading ----------

  method ReadNumber(c: array<Byte>, p: nat, end: nat, ghost s: seq<Byte>) returns (v: nat, q: nat)
    requires p <= end <= c.Length && c[..] == s
    ensures v == Number(ULEB, s, p, end).0 && q == Number(ULEB, s, p, end).1
  {
    var result, n := SafeReadLeb128(c, p, end);
    assert c[p..end] == s[p..end];
    v, q := result % 0x1_0000_0000, p + n;
  }

  // The string at p, copied, if one is expected.
  method ReadText(c: array<Byte>, p: nat, hasStr: bool, ghost s: seq<Byte>) returns (t: CString, q: nat)
    requires c[..] == s && Terminated(s) && p < |s|
    ensures t == TextAt(s, p, hasStr) && q == AfterText(s, p, hasStr)
  {
    t, q := NullPointer, p;
    if hasStr {
      var n := StrLen(c, p, s);
      assert c[p..p + n] == s[p..p + n];
      t, q := Text(c[p..p + n]), p + n + 1;
    }
  }

  // One round of the loop over a file subsection.
  method ReadEntry(c: array<Byte>, p: nat, end: nat, argType: nat -> AttrType, ghost s: seq<Byte>)
    returns (t: Tagged, q: nat)
    requires c[..] == s && Terminated(s) && p < end < |s|
    ensures t == EntryFrom(ULEB, s, p, end, argType) && q == AfterEntry(ULEB, s, p, end, argType)
  {
    var tag, r := ReadNumber(c, p, end, s);
    var kind := argType(tag);
    var val := 0;
    if kind.hasInt {
      val, r := ReadNumber(c, r, end, s);
    }
    var text;
    text, q := ReadText(c, r, kind.hasStr, s);
    t := Tagged(tag, Attr(kind, val, text));
  }

  method ReadEntries(v: VendorAttrs, c: array<Byte>, start: nat, end: nat, argType: nat -> AttrType,
                     ghost s: seq<Byte>, ghost was: Vendor) returns (p: nat)
    requires c[..] == s && Terminated(s) && end < |s| && v.Holds(was)
    modifies v`other, v`chain, v.known, (set n | n in v.chain)`next
    ensures was.Full() && v.Holds(AddAll(was, Entries(ULEB, s, start, end, argType)))
    ensures p == AfterEntries(ULEB, s, start, end, argType)
    ensures forall n {:trigger n in v.chain} :: n in v.chain ==> n in old(v.chain) || fresh(n)
  {
    p := start;
    ghost var now := was;
    while p < end
      invariant v.Holds(now) && c[..] == s
      invariant AddAll(now, Entries(ULEB, s, p, end, argType)) == AddAll(was, Entries(ULEB, s, start, end, argType))
      invariant AfterEntries(ULEB, s, p, end, argType) == AfterEntries(ULEB, s, start, end, argType)
      invariant forall n {:trigger n in v.chain} :: n in v.chain ==> n in old(v.chain) || fresh(n)
      decreases end - p
    {
      FirstEntry(s, p, end, argType, now);
      var t;
      t, p := ReadEntry(c, p, end, argType, s);
      AddObjAttr(v, t, now);
      now := AddAttr(now, t);
    }
  }

  lemma FirstEntry(s: seq<Byte>, p: nat, end: nat, argType: nat -> AttrType, v: Vendor)
    requires Terminated(s) && p < end < |s| && v.Full()
    ensures AddAll(v, Entries(ULEB, s, p, end, argType))
            == AddAll(AddAttr(v, EntryFrom(ULEB, s, p, end, argType)),
                      Entries(ULEB, s, AfterEntry(ULEB, s, p, end, argType), end, argType))
    ensures AfterEntries(ULEB, s, p, end, argType)
            == AfterEntries(ULEB, s, AfterEntry(ULEB, s, p, end, argType), end, argType)
  {
    var t, rest := EntryFrom(ULEB, s, p, end, argType),
                   Entries(ULEB, s, AfterEntry(ULEB, s, p, end, argType), end, argType);
    assert ([t] + rest)[1..] == rest;
  }

  // The size of the subsection whose tag ends at p.
  method ReadSize(c: array<Byte>, p: nat, e: Endian, ghost s: seq<Byte>) returns (size: nat)
    requires c[..] == s && Terminated(s)
    ensures size == if p + 4 < |s| - 1 then Word(e, s, p) else 0
  {
    size := 0;
    if p + 4 < c.Length - 1 {
      assert c[p..p + 4] == s[p..p + 4];
      size := e.get(c[p..p + 4]);
    }
  }

  // What one subsection of size `sub`, with the given tag and body, comes to.
  method ReadSubsection(v: VendorAttrs, c: array<Byte>, start: nat, tag: nat, body: nat, sub: nat,
                        argType: nat -> AttrType, ghost s: seq<Byte>, ghost was: Vendor)
    returns (p: nat, ghost now: Vendor)
    requires c[..] == s && Terminated(s) && v.Holds(was) && was.Full()
    modifies v`other, v`chain, v.known, (set n | n in v.chain)`next
    ensures v.Holds(now) && now.Full()
    ensures AfterSub(s, was, argType, tag, body, start + sub, p, now)
    ensures forall n {:trigger n in v.chain} :: n in v.chain ==> n in old(v.chain) || fresh(n)
  {
    hide AddAll, Entries, AfterEntries;
    now := was;
    if tag == TAG_FILE {
      var end := Min(start + sub, c.Length - 1);
      p := ReadEntries(v, c, body, end, argType, s, was);
      now := AddAll(was, Entries(ULEB, s, body, end, argType));
    } else {
      p := start + sub;
    }
  }

  // The loop over the subsections of one vendor.
  method ReadSubsections(v: VendorAttrs, c: array<Byte>, start: nat, len: nat, argType: nat -> AttrType, e: Endian,
                         ghost s: seq<Byte>, ghost was: Vendor) returns (p: nat)
    requires c[..] == s && Terminated(s) && v.Holds(was) && was.Full()
    modifies v`other, v`chain, v.known, (set n | n in v.chain)`next
    ensures v.Holds(ParseSubs(ULEB, e, s, start, len, was, argType).1)
    ensures p == ParseSubs(ULEB, e, s, start, len, was, argType).0
    ensures forall n {:trigger n in v.chain} :: n in v.chain ==> n in old(v.chain) || fresh(n)
  {
    hide ParseSubs, AddAll, Entries, AfterEntries, Number, Word;
    p := start;
    var left: nat := len;
    ghost var now := was;
    while left > 0 && p < c.Length - 1
      invariant now.Full() && v.Holds(now) && c[..] == s
      invariant ParseSubs(ULEB, e, s, p, left, now, argType).0 == ParseSubs(ULEB, e, s, start, len, was, argType).0
      invariant ParseSubs(ULEB, e, s, p, left, now, argType).1 == ParseSubs(ULEB, e, s, start, len, was, argType).1
      invariant forall n {:trigger n in v.chain} :: n in v.chain ==> n in old(v.chain) || fresh(n)
      decreases left
    {
      var tag, q := ReadNumber(c, p, c.Length - 1, s);
      var size := ReadSize(c, q, e, s);
      ghost var r := ParseSubs(ULEB, e, s, p, left, now, argType);
      if size == 0 {
        NoSubsection(e, s, p, left, now, argType, r);
        p := q + 4;
        return;
      }
      ghost var p0, was0 := p, now;
      p, now := ReadSubsection(v, c, p, tag, q + 4, Min(size, left), argType, s, now);
      FirstSubsection(e, s, p0, left, was0, argType, r, tag, q + 4, Min(size, left), p, now);
      left := left - Min(size, left);
    }
    NoMoreSubsections(e, s, p, left, now, argType);
  }

  // What the loop makes of the subsection at p: its tag and where that ends, and the
  // size found there.
  function SubAt(e: Endian, s: seq<Byte>, p: nat): (r: (nat, nat, nat))
    requires Terminated(s) && p < |s| - 1
  {
    var tag := Number(ULEB, s, p, |s| - 1);
    (tag.0, tag.1, if tag.1 + 4 < |s| - 1 then Word(e, s, tag.1) else 0)
  }

  lemma NoMoreSubsections(e: Endian, s: seq<Byte>, p: nat, left: nat, v: Vendor, argType: nat -> AttrType)
    requires Terminated(s) && v.Full() && (left == 0 || p >= |s| - 1)
    ensures ParseSubs(ULEB, e, s, p, left, v, argType) == (p, v)
  {
  }

  lemma NoSubsection(e: Endian, s: seq<Byte>, p: nat, left: nat, v: Vendor, argType: nat -> AttrType, r: (nat, Vendor))
    requires Terminated(s) && v.Full() && left > 0 && p < |s| - 1 && SubAt(e, s, p).2 == 0
    requires r == ParseSubs(ULEB, e, s, p, left, v, argType)
    ensures r.0 == SubAt(e, s, p).1 + 4 && r.1 == v
  {
  }

  lemma FirstSubsection(e: Endian, s: seq<Byte>, p: nat, left: nat, v: Vendor, argType: nat -> AttrType,
                        r: (nat, Vendor), tag: nat, body: nat, sub: nat, q: nat, w: Vendor)
    requires Terminated(s) && v.Full() && w.Full() && left > 0 && p < |s| - 1
    requires SubAt(e, s, p).0 == tag && SubAt(e, s, p).1 + 4 == body
    requires SubAt(e, s, p).2 != 0 && sub == Min(SubAt(e, s, p).2, left)
    requires AfterSub(s, v, argType, tag, body, p + sub, q, w)
    requires r == ParseSubs(ULEB, e, s, p, left, v, argType)
    ensures ParseSubs(ULEB, e, s, q, left - sub, w, argType) == r
  {
    hide Number, Word, AddAll, Entries, AfterEntries;
  }

  // What the subsection with this tag and body comes to: the position and the attributes after it.
  ghost predicate AfterSub(s: seq<Byte>, v: Vendor, argType: nat -> AttrType, tag: nat, body: nat, after: nat,
                           q: nat, w: Vendor)
    requires Terminated(s) && v.Full()
  {
    var end := Min(after, |s| - 1);
    if tag == TAG_FILE then
      q == AfterEntries(ULEB, s, body, end, argType) && w == AddAll(v, Entries(ULEB, s, body, end, argType))
    else q == after && w == v
  }

  // ---------- vendors ----------

  // The size of the vendor section at p and that of its name, or 0 to stop.
  method ReadVendorSize(c: array<Byte>, p: nat, len: nat, e: Endian, ghost s: seq<Byte>)
    returns (size: nat, nameLen: nat)
    requires c[..] == s && Terminated(s) && p + 4 < |s| - 1
    ensures size == SizeAt(e, s, p, len)
    ensures size != 0 ==> size > 4 && nameLen == NameLength(s, p, size)
  {
    hide StringFrom;
    assert c[p..p + 4] == s[p..p + 4];
    size, nameLen := e.get(c[p..p + 4]), 0;
    if size == 0 {
      return;
    }
    if size > len {
      size := len;
    }
    if size <= 4 {
      size := 0;
      return;
    }
    var n := StrnLen(c, p + 4, size - 4, s);
    nameLen := n + 1;
    if nameLen >= size - 4 {
      size := 0;
    }
  }

  // The attributes of the two vendors, apart from each other in memory.
  ghost predicate HoldBoth(proc: VendorAttrs, gnu: VendorAttrs, o: Object)
    reads proc, proc.known, proc.chain, gnu, gnu.known, gnu.chain
  {
    && proc != gnu && proc.known != gnu.known
    && (forall n {:trigger n in proc.chain} {:trigger n in gnu.chain} :: n in proc.chain ==> n !in gnu.chain)
    && o.Full() && proc.Holds(o.proc) && gnu.Holds(o.gnu)
  }

  // The subsections of a vendor that the target knows.
  method ReadKnown(proc: VendorAttrs, gnu: VendorAttrs, isProc: bool, c: array<Byte>, body: nat, left: nat,
                   procType: nat -> AttrType, e: Endian, ghost s: seq<Byte>, ghost o: Object)
    returns (p: nat, ghost o': Object)
    requires c[..] == s && Terminated(s) && HoldBoth(proc, gnu, o)
    modifies proc`other, proc`chain, proc.known, (set n | n in proc.chain)`next
    modifies gnu`other, gnu`chain, gnu.known, (set n | n in gnu.chain)`next
    ensures HoldBoth(proc, gnu, o')
    ensures o.proc.Full() && o.gnu.Full()
    ensures var r := ParseSubs(ULEB, e, s, body, left, if isProc then o.proc else o.gnu,
                               if isProc then procType else GnuArgType);
            p == r.0 && o' == Put(o, isProc, r.1)
    ensures forall n {:trigger n in proc.chain} :: n in proc.chain ==> n in old(proc.chain) || fresh(n)
    ensures forall n {:trigger n in gnu.chain} :: n in gnu.chain ==> n in old(gnu.chain) || fresh(n)
  {
    hide ParseSubs;
    ghost var procWas, gnuWas := proc.chain, gnu.chain;
    if isProc {
      p := ReadSubsections(proc, c, body, left, procType, e, s, o.proc);
      o' := Put(o, true, ParseSubs(ULEB, e, s, body, left, o.proc, procType).1);
      assert gnu.chain == gnuWas;
      assert gnu.Holds(o.gnu);
      assert forall n {:trigger n in proc.chain} :: n in proc.chain ==> n !in gnuWas;
    } else {
      p := ReadSubsections(gnu, c, body, left, GnuArgType, e, s, o.gnu);
      o' := Put(o, false, ParseSubs(ULEB, e, s, body, left, o.gnu, GnuArgType).1);
      assert proc.chain == procWas;
      assert proc.Holds(o.proc);
      assert forall n {:trigger n in proc.chain} :: n in proc.chain ==> n !in gnu.chain;
    }
  }

  // One vendor section.
  method ReadVendor(proc: VendorAttrs, gnu: VendorAttrs, procName: CString, c: array<Byte>, start: nat, size: nat,
                    nameLen: nat, procType: nat -> AttrType, e: Endian, ghost s: seq<Byte>, ghost o: Object)
    returns (p: nat, ghost o': Object)
    requires c[..] == s && Terminated(s) && start + 4 < |s| - 1 && HoldBoth(proc, gnu, o) && o.procName == procName
    requires 4 < size && nameLen == NameLength(s, start, size) < size - 4
    modifies proc`other, proc`chain, proc.known, (set n | n in proc.chain)`next
    modifies gnu`other, gnu`chain, gnu.known, (set n | n in gnu.chain)`next
    ensures HoldBoth(proc, gnu, o') && o'.procName == procName
    ensures p == ParseVendor(ULEB, e, s, start, size, o, procType).0
            && o' == ParseVendor(ULEB, e, s, start, size, o, procType).1
    ensures forall n {:trigger n in proc.chain} :: n in proc.chain ==> n in old(proc.chain) || fresh(n)
    ensures forall n {:trigger n in gnu.chain} :: n in gnu.chain ==> n in old(gnu.chain) || fresh(n)
  {
    hide ParseSubs, StringFrom, NameLength;
    var body, left := start + 4 + nameLen, size - 4 - nameLen;
    var name, after := ReadText(c, start + 4, true, s);
    if procName.Text? && procName == name {
      p, o' := ReadKnown(proc, gnu, true, c, body, left, procType, e, s, o);
    } else if name == Text(GNU) {
      p, o' := ReadKnown(proc, gnu, false, c, body, left, procType, e, s, o);
    } else {
      p, o' := body + left, o;
    }
  }

  lemma NoMoreVendors(e: Endian, s: seq<Byte>, p: nat, len: nat, o: Object, procType: nat -> AttrType)
    requires Terminated(s) && o.Full()
    requires len == 0 || p + 4 >= |s| - 1 || SizeAt(e, s, p, len) == 0
    ensures ParseSections(ULEB, e, s, p, len, o, procType) == o
  {
  }

  lemma FirstVendor(e: Endian, s: seq<Byte>, p: nat, len: nat, o: Object, procType: nat -> AttrType, size: nat,
                    q: nat, o': Object)
    requires Terminated(s) && o.Full() && o'.Full() && len != 0 && p + 4 < |s| - 1 && SizeAt(e, s, p, len) == size != 0
    requires 4 < size && NameLength(s, p, size) < size - 4
    requires q == ParseVendor(ULEB, e, s, p, size, o, procType).0
             && o' == ParseVendor(ULEB, e, s, p, size, o, procType).1
    ensures ParseSections(ULEB, e, s, p, len, o, procType) == ParseSections(ULEB, e, s, q, len - size, o', procType)
  {
    hide ParseVendor, StringFrom, NameLength;
  }

  // The loop over the vendors.
  method ReadSections(proc: VendorAttrs, gnu: VendorAttrs, procName: CString, c: array<Byte>,
                      procType: nat -> AttrType, e: Endian, ghost s: seq<Byte>, ghost o: Object)
    requires c[..] == s && Terminated(s) && |s| >= 2 && HoldBoth(proc, gnu, o) && o.procName == procName
    modifies proc`other, proc`chain, proc.known, (set n | n in proc.chain)`next
    modifies gnu`other, gnu`chain, gnu.known, (set n | n in gnu.chain)`next
    ensures HoldBoth(proc, gnu, ParseSections(ULEB, e, s, 1, |s| - 2, o, procType))
  {
    hide ParseSections, ParseVendor, SizeAt, NameLength;
    var p, len := 1, c.Length - 2;
    ghost var now := o;
    while len > 0 && p + 4 < c.Length - 1
      invariant 0 <= p && 0 <= len && HoldBoth(proc, gnu, now) && now.procName == procName && c[..] == s
      invariant ParseSections(ULEB, e, s, p, len, now, procType) == ParseSections(ULEB, e, s, 1, |s| - 2, o, procType)
      invariant forall n {:trigger n in proc.chain} :: n in proc.chain ==> n in old(proc.chain) || fresh(n)
      invariant forall n {:trigger n in gnu.chain} :: n in gnu.chain ==> n in old(gnu.chain) || fresh(n)
      decreases len
    {
      var size, nameLen := ReadVendorSize(c, p, len, e, s);
      if size == 0 {
        NoMoreVendors(e, s, p, len, now, procType);
        return;
      }
      ghost var p0, was := p, now;
      SizeFits(e, s, p, len);
      p, now := ReadVendor(proc, gnu, procName, c, p, size, nameLen, procType, e, s, now);
      FirstVendor(e, s, p0, len, was, procType, size, p, now);
      len := len - size;
    }
    NoMoreVendors(e, s, p, len, now, procType);
  }

  lemma SizeFits(e: Endian, s: seq<Byte>, p: nat, len: nat)
    requires Terminated(s) && p + 4 < |s| - 1 && SizeAt(e, s, p, len) != 0
    ensures 4 < SizeAt(e, s, p, len) && NameLength(s, p, SizeAt(e, s, p, len)) < SizeAt(e, s, p, len) - 4
  {
  }

  // _bfd_elf_parse_attributes: the two vendors' attributes become what Parse says.
  method ParseAttributes(section: array<Byte>, proc: VendorAttrs, gnu: VendorAttrs, procName: CString,
                         procType: nat -> AttrType, e: Endian, ghost o: Object)
    requires HoldBoth(proc, gnu, o) && o.procName == procName
    modifies proc`other, proc`chain, proc.known, (set n | n in proc.chain)`next
    modifies gnu`other, gnu`chain, gnu.known, (set n | n in gnu.chain)`next
    ensures HoldBoth(proc, gnu, Parse(ULEB, e, old(section[..]), o, procType))
  {
    hide ParseSections;
    if section.Length == 0 {
      return;
    }
    var contents := new Byte[section.Length + 1](i requires 0 <= i reads section =>
      if i < section.Length then section[i] else 0);
    ghost var s := section[..] + [0];
    assert contents[..] == s;
    if contents[0] == FORMAT_VERSION {
      ReadSections(proc, gnu, procName, contents, procType, e, s, o);
    }
  }
}
