// Object attribute sections: what they hold, how big they are and how they are
// written (elf-attrs.c).  The format is that of the Addenda to the ABI for the ARM
// Architecture, section 2.2.

module ObjAttrs {
  import opened Bytes
  import opened CLibrary
  import opened Leb128

  const LEAST_KNOWN_OBJ_ATTRIBUTE := 2
  const NUM_KNOWN_OBJ_ATTRIBUTES := 71
  const TAG_FILE := 1
  const TAG_COMPATIBILITY := 32

  // The bits of an attribute's type.
  datatype AttrType = AttrType(hasInt: bool, hasStr: bool, noDefault: bool, hasError: bool)

  // `obj_attribute`
  datatype Attr = Attr(kind: AttrType, i: nat, s: CString)

  // An attribute of a fresh object.
  const ZERO := Attr(AttrType(false, false, false, false), 0, NullPointer)

  // is_default_attr
  predicate IsDefault(a: Attr) {
    if a.kind.hasError then true
    else if a.kind.hasInt && a.i != 0 then false
    else if a.kind.hasStr && a.s.Text? && a.s.bytes != [] then false
    else !a.kind.noDefault
  }

  // An attribute with its tag, as the list of other attributes holds them.
  datatype Tagged = Tagged(tag: nat, attr: Attr)

  // What the functions that set attributes guarantee: numbers are 32-bit, strings
  // have no NUL, and one that is written is there.
  predicate AttrOk(t: Tagged) {
    && t.tag < 0x1_0000_0000 && t.attr.i < 0x1_0000_0000
    && (t.attr.s.Text? ==> 0 !in t.attr.s.bytes)
    && (!IsDefault(t.attr) && t.attr.kind.hasStr ==> t.attr.s.Text?)
  }

  // ---------- the bytes ----------

  // The bytes of an attribute that is not suppressed.
  function EntryBytes(l: Leb, t: Tagged): (s: seq<Byte>)
  {
    l.write(t.tag) + (IntBytes(l, t.attr) + StrBytes(t.attr))
  }

  function IntBytes(l: Leb, a: Attr): seq<Byte> { if a.kind.hasInt then l.write(a.i) else [] }

  function StrBytes(a: Attr): seq<Byte> { if a.kind.hasStr && a.s.Text? then a.s.bytes + [0] else [] }

  function Written(l: Leb, t: Tagged): (s: seq<Byte>)
  {
    if IsDefault(t.attr) then [] else EntryBytes(l, t)
  }

  function FileBytes(l: Leb, ts: seq<Tagged>): (s: seq<Byte>)
  {
    if ts == [] then [] else Written(l, ts[0]) + FileBytes(l, ts[1..])
  }

  lemma {:induction false} FileBytesAppend(l: Leb, ts: seq<Tagged>, us: seq<Tagged>)
    ensures FileBytes(l, ts + us) == FileBytes(l, ts) + FileBytes(l, us)
  {
    var all := ts + us;
    if ts == [] {
      assert all == us;
    } else {
      assert all[0] == ts[0] && all[1..] == ts[1..] + us;
      FileBytesAppend(l, ts[1..], us);
    }
  }

  predicate AllOk(ts: seq<Tagged>) {
    forall i {:trigger ts[i]} :: 0 <= i < |ts| ==> AttrOk(ts[i])
  }

  // ---------- one vendor's attributes ----------

  datatype Vendor = Vendor(known: seq<Attr>, other: seq<Tagged>)
  {
    predicate Full() { |known| == NUM_KNOWN_OBJ_ATTRIBUTES }

    predicate Ok() {
      && Full() && AllOk(other)
      && forall t {:trigger known[t]} :: 0 <= t < |known| ==> AttrOk(Tagged(t, known[t]))
    }
  }

  predicate IsKnown(t: nat) { LEAST_KNOWN_OBJ_ATTRIBUTE <= t < NUM_KNOWN_OBJ_ATTRIBUTES }

  // The known tags in the order in which the size functions take them.
  function Natural(): (s: seq<nat>)
    ensures |s| == NUM_KNOWN_OBJ_ATTRIBUTES - LEAST_KNOWN_OBJ_ATTRIBUTE
    ensures forall k {:trigger s[k]} :: 0 <= k < |s| ==> s[k] == k + LEAST_KNOWN_OBJ_ATTRIBUTE
  {
    seq(NUM_KNOWN_OBJ_ATTRIBUTES - LEAST_KNOWN_OBJ_ATTRIBUTE, k requires 0 <= k => k + LEAST_KNOWN_OBJ_ATTRIBUTE)
  }

  // The order in which a target writes them: any permutation.
  predicate Permutes(tags: seq<nat>) { multiset(tags) == multiset(Natural()) }

  lemma PermutedAreKnown(tags: seq<nat>)
    requires Permutes(tags)
    ensures |tags| == |Natural()| && AreKnown(tags)
  {
    assert |tags| == |multiset(tags)|;
    forall k | 0 <= k < |tags| ensures IsKnown(tags[k]) {
      assert tags[k] in multiset(Natural());
    }
  }

  predicate AreKnown(tags: seq<nat>) {
    forall k {:trigger tags[k]} :: 0 <= k < |tags| ==> IsKnown(tags[k])
  }

  // The known attributes in a given order.
  function KnownListing(v: Vendor, tags: seq<nat>): (ts: seq<Tagged>)
    requires v.Full() && AreKnown(tags)
    ensures |ts| == |tags|
    ensures forall k {:trigger ts[k]} :: 0 <= k < |ts| ==> ts[k] == Tagged(tags[k], v.known[tags[k]])
  {
    seq(|tags|, k requires 0 <= k < |tags| => Tagged(tags[k], v.known[tags[k]]))
  }

  // All attributes in the order of writing.
  function Listing(v: Vendor, tags: seq<nat>): (ts: seq<Tagged>)
    requires v.Full() && AreKnown(tags)
  {
    KnownListing(v, tags) + v.other
  }

  // ---------- sizes do not depend on the order ----------

  // The sum that the size function makes of the known attributes.
  function Total(l: Leb, v: Vendor, tags: seq<nat>): nat
    requires v.Full() && AreKnown(tags)
  {
    if tags == [] then 0 else |Written(l, Tagged(tags[0], v.known[tags[0]]))| + Total(l, v, tags[1..])
  }

  lemma {:induction false} TotalIsLength(l: Leb, v: Vendor, tags: seq<nat>)
    requires v.Full() && AreKnown(tags)
    ensures |FileBytes(l, KnownListing(v, tags))| == Total(l, v, tags)
  {
    if tags != [] {
      assert KnownListing(v, tags)[1..] == KnownListing(v, tags[1..]);
      TotalIsLength(l, v, tags[1..]);
    }
  }

  lemma {:induction false} TotalAppend(l: Leb, v: Vendor, ts: seq<nat>, us: seq<nat>)
    requires v.Full() && AreKnown(ts) && AreKnown(us) && AreKnown(ts + us)
    ensures Total(l, v, ts + us) == Total(l, v, ts) + Total(l, v, us)
  {
    var all := ts + us;
    if ts == [] {
      assert all == us;
    } else {
      assert all[0] == ts[0] && all[1..] == ts[1..] + us;
      TotalAppend(l, v, ts[1..], us);
    }
  }

  lemma TotalAround(l: Leb, v: Vendor, tags: seq<nat>, k: nat)
    requires v.Full() && AreKnown(tags) && k < |tags|
    ensures AreKnown(tags[..k] + tags[k + 1..])
    ensures Total(l, v, tags)
            == |Written(l, Tagged(tags[k], v.known[tags[k]]))| + Total(l, v, tags[..k] + tags[k + 1..])
  {
    var front, back := tags[..k], tags[k..];
    assert front + back == tags && back[1..] == tags[k + 1..];
    TotalAppend(l, v, front, back);
    TotalAppend(l, v, front, back[1..]);
  }

  lemma {:induction false} TotalPermuted(l: Leb, v: Vendor, ts: seq<nat>, us: seq<nat>)
    requires v.Full() && AreKnown(ts) && AreKnown(us) && multiset(ts) == multiset(us)
    ensures Total(l, v, ts) == Total(l, v, us)
  {
    if ts == [] {
      assert |multiset(us)| == 0;
    } else {
      assert ts[0] in multiset(us);
      var k :| 0 <= k < |us| && us[k] == ts[0];
      TakeOne(ts, us, k);
      TotalAround(l, v, us, k);
      TotalPermuted(l, v, ts[1..], us[..k] + us[k + 1..]);
    }
  }

  lemma TakeOne(ts: seq<nat>, us: seq<nat>, k: nat)
    requires multiset(ts) == multiset(us) && ts != [] && k < |us| && us[k] == ts[0]
    ensures multiset(ts[1..]) == multiset(us[..k] + us[k + 1..])
  {
    var a, b := multiset(ts[1..]), multiset(us[..k] + us[k + 1..]);
    assert ts == [ts[0]] + ts[1..];
    assert us == us[..k] + [us[k]] + us[k + 1..];
    forall x ensures a[x] == b[x] {
      assert (multiset{ts[0]} + a)[x] == (multiset{us[k]} + b)[x];
    }
  }

  // The size functions go through the tags in numerical order, the writers in the
  // target's; the bytes are as many.
  lemma SizeIgnoresOrder(l: Leb, v: Vendor, tags: seq<nat>)
    requires v.Full() && Permutes(tags)
    ensures AreKnown(tags) && |FileBytes(l, Listing(v, tags))| == Total(l, v, Natural()) + |FileBytes(l, v.other)|
  {
    PermutedAreKnown(tags);
    TotalPermuted(l, v, tags, Natural());
    TotalIsLength(l, v, tags);
    FileBytesAppend(l, KnownListing(v, tags), v.other);
  }

  // ---------- the order of the ARM target ----------

  const TAG_NODEFAULTS := 64
  const TAG_CONFORMANCE := 67

  // elf32_arm_obj_attrs_order
  function ArmOrder(num: nat): nat {
    if num == LEAST_KNOWN_OBJ_ATTRIBUTE then TAG_CONFORMANCE
    else if num == LEAST_KNOWN_OBJ_ATTRIBUTE + 1 then TAG_NODEFAULTS
    else if num >= 2 && num - 2 < TAG_NODEFAULTS then num - 2
    else if num >= 1 && num - 1 < TAG_CONFORMANCE then num - 1
    else num
  }

  function ArmTags(): (s: seq<nat>)
    ensures |s| == |Natural()|
    ensures forall k {:trigger s[k]} :: 0 <= k < |s| ==> s[k] == ArmOrder(k + LEAST_KNOWN_OBJ_ATTRIBUTE)
  {
    seq<nat>(|Natural()|, k requires 0 <= k => ArmOrder(k + LEAST_KNOWN_OBJ_ATTRIBUTE))
  }

  // Distinct elements occur once each.
  lemma {:induction false} OnceEach(s: seq<nat>, x: nat)
    requires forall i, j :: 0 <= i < j < |s| ==> s[i] != s[j]
    ensures multiset(s)[x] == if x in s then 1 else 0
  {
    if s != [] {
      OnceEach(s[1..], x);
      assert s == [s[0]] + s[1..];
    }
  }

  lemma ArmMembers(t: nat)
    ensures t in ArmTags() <==> t in Natural()
  {
    var s, n := ArmTags(), Natural();
    if t in s {
      var k :| 0 <= k < |s| && s[k] == t;
      assert n[t - 2] == t;
    }
    if t in n {
      var i := if t == TAG_CONFORMANCE then 2 else if t == TAG_NODEFAULTS then 3
               else if t < TAG_NODEFAULTS then t + 2 else if t < TAG_CONFORMANCE then t + 1 else t;
      assert s[i - 2] == t;
    }
  }

  // It permutes the known tags.
  lemma ArmOrderPermutes()
    ensures Permutes(ArmTags())
  {
    forall t ensures multiset(ArmTags())[t] == multiset(Natural())[t] {
      OnceEach(ArmTags(), t);
      OnceEach(Natural(), t);
      ArmMembers(t);
    }
  }

  // ---------- size and contents of the section ----------

  // "gnu"
  const GNU: seq<Byte> := [0x67, 0x6e, 0x75]

  // The attributes of an object file, with the processor vendor's name, if the
  // target has one.
  datatype Object = Object(proc: Vendor, gnu: Vendor, procName: CString)
  {
    predicate Full() { proc.Full() && gnu.Full() }

    predicate Ok() { proc.Ok() && gnu.Ok() && (procName.Text? ==> 0 !in procName.bytes) }
  }

  // vendor_obj_attr_size, for a vendor with a name.
  function VendorSize(l: Leb, v: Vendor, name: seq<Byte>, always: bool): nat
    requires v.Full()
  {
    var size := Total(l, v, Natural()) + |FileBytes(l, v.other)|;
    if size != 0 || always then size + 10 + |name| else 0
  }

  function ProcSize(l: Leb, o: Object): nat
    requires o.Full()
  {
    if o.procName.Text? then VendorSize(l, o.proc, o.procName.bytes, true) else 0
  }

  // bfd_elf_obj_attr_size
  function SectionSize(l: Leb, o: Object): nat
    requires o.Full()
  {
    var size := ProcSize(l, o) + GnuSize(l, o);
    if size != 0 then size + 1 else 0
  }

  // One vendor's part of the section.
  function VendorBytes(l: Leb, v: Vendor, name: seq<Byte>, size: nat, tags: seq<nat>, e: Endian): (s: seq<Byte>)
    requires v.Full() && AreKnown(tags)
  {
    e.put(size, 4) + (name + [0]) + [TAG_FILE] + e.put(size - 4 - (|name| + 1), 4) + FileBytes(l, Listing(v, tags))
  }

  function VendorPart(l: Leb, v: Vendor, name: seq<Byte>, size: nat, tags: seq<nat>, e: Endian): (s: seq<Byte>)
    requires v.Full() && AreKnown(tags)
  {
    if size != 0 then VendorBytes(l, v, name, size, tags, e) else []
  }

  // The processor vendor's name, or an empty one.
  function ProcName(o: Object): seq<Byte> { if o.procName.Text? then o.procName.bytes else [] }

  function GnuSize(l: Leb, o: Object): nat
    requires o.Full()
  {
    VendorSize(l, o.gnu, GNU, false)
  }

  const FORMAT_VERSION: Byte := 0x41    // 'A'

  // The whole section, if it is not empty.
  function SectionBytes(l: Leb, o: Object, tags: seq<nat>, e: Endian): (s: seq<Byte>)
    requires o.Full() && AreKnown(tags)
  {
    [FORMAT_VERSION] + VendorPart(l, o.proc, ProcName(o), ProcSize(l, o), tags, e)
    + VendorPart(l, o.gnu, GNU, GnuSize(l, o), tags, e)
  }

  lemma VendorLength(l: Leb, v: Vendor, name: seq<Byte>, always: bool, tags: seq<nat>, e: Endian)
    requires v.Full() && Permutes(tags) && VendorSize(l, v, name, always) != 0
    ensures AreKnown(tags)
            && |VendorBytes(l, v, name, VendorSize(l, v, name, always), tags, e)| == VendorSize(l, v, name, always)
  {
    SizeIgnoresOrder(l, v, tags);
  }

  // The size functions predict exactly the number of bytes written, for any order
  // that permutes the known tags.
  lemma SizeIsExact(l: Leb, o: Object, tags: seq<nat>, e: Endian)
    requires o.Full() && Permutes(tags) && SectionSize(l, o) != 0
    ensures AreKnown(tags) && |SectionBytes(l, o, tags, e)| == SectionSize(l, o)
  {
    PermutedAreKnown(tags);
    if ProcSize(l, o) != 0 {
      VendorLength(l, o.proc, o.procName.bytes, true, tags, e);
    }
    if GnuSize(l, o) != 0 {
      VendorLength(l, o.gnu, GNU, false, tags, e);
    }
  }
}
