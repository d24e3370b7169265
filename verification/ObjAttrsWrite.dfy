// The attributes of an object in memory, and the functions that size and write the
// section.

module ObjAttrsWrite {
  import opened Bytes
  import opened CLibrary
  import opened Leb128
  import opened ObjAttrs

  // The number format of the writers.
  const ULEB: Leb := Uleb128()

  // `obj_attribute_list`
  class AttrNode {
    const tag: nat
    var attr: Attr
    var next: AttrNode?

    constructor (tag: nat, attr: Attr, next: AttrNode?)
      ensures this.tag == tag && this.attr == attr && this.next == next
    {
      this.tag, this.attr, this.next := tag, attr, next;
    }
  }

  function Next(chain: seq<AttrNode>, i: nat): AttrNode?
    requires i <= |chain|
  {
    if i < |chain| then chain[i] else null
  }

  ghost predicate Linked(first: AttrNode?, chain: seq<AttrNode>)
    reads chain
  {
    && first == Next(chain, 0)
    && (forall i, j :: 0 <= i < j < |chain| ==> chain[i] != chain[j])
    && forall i {:trigger Next(chain, i + 1)} :: 0 <= i < |chain| ==> chain[i].next == Next(chain, i + 1)
  }

  ghost function Others(chain: seq<AttrNode>): (ts: seq<Tagged>)
    reads chain
    ensures |ts| == |chain|
    ensures forall i {:trigger ts[i]} :: 0 <= i < |chain| ==> ts[i] == Tagged(chain[i].tag, chain[i].attr)
  {
    seq(|chain|, i requires 0 <= i < |chain| reads chain => Tagged(chain[i].tag, chain[i].attr))
  }

  // The attributes for one vendor: those with known tags in an array, the others in
  // a list.
  class VendorAttrs {
    const known: array<Attr>
    var other: AttrNode?
    ghost var chain: seq<AttrNode>

    // A fresh object has none.
    constructor ()
      ensures Valid() && fresh(known) && Value() == Vendor(seq(NUM_KNOWN_OBJ_ATTRIBUTES, _ => ZERO), [])
    {
      known := new Attr[NUM_KNOWN_OBJ_ATTRIBUTES](_ => ZERO);
      other, chain := null, [];
    }

    ghost predicate Valid()
      reads this, chain
    {
      known.Length == NUM_KNOWN_OBJ_ATTRIBUTES && Linked(other, chain)
    }

    ghost function Value(): Vendor
      reads this, known, chain
    {
      Vendor(known[..], Others(chain))
    }

    ghost predicate Holds(v: Vendor)
      reads this, known, chain
    {
      Valid() && Value() == v
    }
  }

  // ---------- sizes ----------

  // obj_attr_size
  method ObjAttrSize(tag: nat, attr: Attr) returns (size: nat)
    requires AttrOk(Tagged(tag, attr))
    ensures size == |Written(ULEB, Tagged(tag, attr))|
  {
    if IsDefault(attr) {
      return 0;
    }
    size := UlebSize(tag);
    if attr.kind.hasInt {
      var n := UlebSize(attr.i);
      size := size + n;
    }
    if attr.kind.hasStr {
      size := size + |attr.s.bytes| + 1;
    }
  }

  method KnownSize(known: array<Attr>, ghost v: Vendor) returns (size: nat)
    requires v.Ok() && known[..] == v.known
    ensures size == Total(ULEB, v, Natural())
  {
    size := 0;
    for i := LEAST_KNOWN_OBJ_ATTRIBUTE to NUM_KNOWN_OBJ_ATTRIBUTES
      invariant AreKnown(Natural()[..i - 2]) && AreKnown(Natural()[i - 2..])
      invariant size + Total(ULEB, v, Natural()[i - 2..]) == Total(ULEB, v, Natural())
    {
      ghost var rest := Natural()[i - 2..];
      assert rest[0] == i && rest[1..] == Natural()[i - 1..];
      assert known[i] == v.known[i];
      var n := ObjAttrSize(i, known[i]);
      size := size + n;
    }
  }

  method OthersSize(first: AttrNode?, ghost chain: seq<AttrNode>, ghost ts: seq<Tagged>) returns (size: nat)
    requires Linked(first, chain) && ts == Others(chain) && AllOk(ts)
    ensures size == |FileBytes(ULEB, ts)|
  {
    size := 0;
    var list := first;
    ghost var k := 0;
    while list != null
      invariant k <= |ts| && list == Next(chain, k)
      invariant size + |FileBytes(ULEB, ts[k..])| == |FileBytes(ULEB, ts)|
      decreases |ts| - k
    {
      ghost var rest := ts[k..];
      assert rest[0] == Tagged(list.tag, list.attr) && rest[1..] == ts[k + 1..];
      var n := ObjAttrSize(list.tag, list.attr);
      size := size + n;
      k := k + 1;
      assert chain[k - 1].next == Next(chain, k);
      list := list.next;
    }
  }

  // vendor_obj_attr_size, for a vendor with a name; `always` for the processor's.
  method VendorObjAttrSize(v: VendorAttrs, name: seq<Byte>, always: bool) returns (size: nat)
    requires v.Valid() && v.Value().Ok()
    ensures size == VendorSize(ULEB, v.Value(), name, always)
  {
    ghost var value := v.Value();
    size := KnownSize(v.known, value);
    var others := OthersSize(v.other, v.chain, value.other);
    size := size + others;
    size := if size != 0 || always then size + 10 + |name| else 0;
  }

  // ---------- writing ----------

  // The pointer that the writers move through the buffer.
  class Writer {
    const buffer: array<Byte>
    var p: nat
    ghost var written: seq<Byte>

    constructor (buffer: array<Byte>)
      ensures Valid() && this.buffer == buffer && written == []
    {
      this.buffer, p, written := buffer, 0, [];
    }

    ghost predicate Valid()
      reads this, buffer
    {
      p == |written| <= buffer.Length && buffer[..p] == written
    }

    predicate Fits(n: nat)
      reads this
    {
      p + n <= buffer.Length
    }

    method Append(w: seq<Byte>)
      requires Valid() && Fits(|w|)
      modifies `p, `written, buffer
      ensures Valid() && written == old(written) + w
    {
      ghost var was := buffer[..];
      Store(buffer, p, w);
      p := p + |w|;
      written := written + w;
      assert buffer[..] == Splice(was, p - |w|, w);
      assert forall j {:trigger buffer[j]} :: 0 <= j < p ==> buffer[j] == written[j];
    }

    method AppendUleb(val: nat)
      requires Valid() && Fits(|Uleb(val)|)
      modifies `p, `written, buffer
      ensures Valid() && written == old(written) + Uleb(val)
    {
      ghost var was := buffer[..];
      p := WriteUleb(buffer, p, val);
      written := written + Uleb(val);
      assert buffer[..] == Splice(was, p - |Uleb(val)|, Uleb(val));
      assert forall j {:trigger buffer[j]} :: 0 <= j < p ==> buffer[j] == written[j];
    }

    // write_obj_attribute
    method WriteObjAttribute(t: Tagged)
      requires AttrOk(t) && Valid() && Fits(|Written(ULEB, t)|)
      modifies `p, `written, buffer
      ensures Valid() && written == WrittenAfter(old(written), t)
    {
      if IsDefault(t.attr) {
        return;
      }
      AppendUleb(t.tag);
      if t.attr.kind.hasInt {
        AppendUleb(t.attr.i);
      }
      if t.attr.kind.hasStr {
        Append(t.attr.s.bytes + [0]);
      }
    }

    // Attribute number k of a list.
    method WriteItem(t: Tagged, ghost ts: seq<Tagged>, ghost k: nat, ghost x: seq<Byte>)
      requires AllOk(ts) && k < |ts| && t == ts[k]
      requires Valid() && written == x + FileBytes(ULEB, ts[..k]) && |x| + |FileBytes(ULEB, ts)| <= buffer.Length
      modifies `p, `written, buffer
      ensures Valid() && written == x + FileBytes(ULEB, ts[..k + 1])
    {
      FirstFit(ULEB, ts, k, x);
      WrittenAfterIs(written, t);
      WriteObjAttribute(t);
    }

    // The loop over the known tags, in the target's order.
    method WriteKnown(known: array<Attr>, tags: seq<nat>, ghost v: Vendor)
      requires v.Ok() && known[..] == v.known && AreKnown(tags)
      requires |tags| == NUM_KNOWN_OBJ_ATTRIBUTES - LEAST_KNOWN_OBJ_ATTRIBUTE
      requires Valid() && Fits(|FileBytes(ULEB, KnownListing(v, tags))|)
      modifies `p, `written, buffer
      ensures Valid() && written == old(written) + FileBytes(ULEB, KnownListing(v, tags))
    {
      ghost var x, ts := written, KnownListing(v, tags);
      KnownListingOk(v, tags);
      for i := LEAST_KNOWN_OBJ_ATTRIBUTE to NUM_KNOWN_OBJ_ATTRIBUTES
        invariant known[..] == v.known && Valid() && written == x + FileBytes(ULEB, ts[..i - 2])
      {
        var tag := tags[i - LEAST_KNOWN_OBJ_ATTRIBUTE];
        assert known[tag] == v.known[tag];
        WriteItem(Tagged(tag, known[tag]), ts, i - 2, x);
      }
      assert ts[..|ts|] == ts;
    }

    // The loop over the other attributes.
    method WriteOthers(first: AttrNode?, ghost chain: seq<AttrNode>, ghost ts: seq<Tagged>)
      requires Linked(first, chain) && ts == Others(chain) && AllOk(ts)
      requires Valid() && Fits(|FileBytes(ULEB, ts)|)
      modifies `p, `written, buffer
      ensures Valid() && written == old(written) + FileBytes(ULEB, ts)
    {
      hide FileBytes, AttrOk, AllOk;
      assert FileBytes(ULEB, ts[..0]) == [] by { NothingYet(ts); }
      ghost var x, k := written, 0;
      var list := first;
      while list != null
        invariant k <= |ts| && list == Next(chain, k) && Others(chain) == ts && Linked(first, chain)
        invariant Valid() && written == x + FileBytes(ULEB, ts[..k])
        decreases |ts| - k
      {
        assert ts[k] == Tagged(list.tag, list.attr);
        WriteItem(Tagged(list.tag, list.attr), ts, k, x);
        k := k + 1;
        assert chain[k - 1].next == Next(chain, k);
        list := list.next;
      }
      assert ts[..|ts|] == ts;
    }

    // The vendor's sizes and name.
    method WriteHead(name: seq<Byte>, size: nat, e: Endian)
      requires Valid() && Fits(10 + |name|)
      modifies `p, `written, buffer
      ensures Valid() && written == HeadAfter(old(written), name, size, e)
    {
      Append(e.put(size, 4));
      Append(name + [0]);
      Append([TAG_FILE]);
      Append(e.put(size - 4 - (|name| + 1), 4));
    }

    // vendor_set_obj_attr_contents
    method VendorSetContents(v: VendorAttrs, name: seq<Byte>, size: nat, tags: seq<nat>, e: Endian, ghost value: Vendor)
      requires v.Holds(value) && value.Ok() && AreKnown(tags)
      requires |tags| == NUM_KNOWN_OBJ_ATTRIBUTES - LEAST_KNOWN_OBJ_ATTRIBUTE
      requires Valid() && Fits(|VendorBytes(ULEB, value, name, size, tags, e)|)
      modifies `p, `written, buffer
      ensures Valid() && written == old(written) + VendorBytes(ULEB, value, name, size, tags, e)
    {
      VendorParts(value, name, size, tags, e, written);
      WriteHead(name, size, e);
      WriteKnown(v.known, tags, value);
      WriteOthers(v.other, v.chain, value.other);
    }
  }

  lemma NothingYet(ts: seq<Tagged>)
    ensures FileBytes(ULEB, ts[..0]) == []
  {
  }

  lemma KnownListingOk(v: Vendor, tags: seq<nat>)
    requires v.Ok() && AreKnown(tags)
    ensures AllOk(KnownListing(v, tags))
  {
    var ts := KnownListing(v, tags);
    forall k | 0 <= k < |ts| ensures AttrOk(ts[k]) {
      assert IsKnown(tags[k]) && AttrOk(Tagged(tags[k], v.known[tags[k]]));
    }
  }

  // ---------- appending piece by piece ----------

  function WrittenAfter(x: seq<Byte>, t: Tagged): seq<Byte>
    requires AttrOk(t)
  {
    if IsDefault(t.attr) then x
    else
      var y := x + ULEB.write(t.tag);
      var z := if t.attr.kind.hasInt then y + ULEB.write(t.attr.i) else y;
      if t.attr.kind.hasStr then z + (t.attr.s.bytes + [0]) else z
  }

  lemma WrittenAfterIs(x: seq<Byte>, t: Tagged)
    requires AttrOk(t)
    ensures WrittenAfter(x, t) == x + Written(ULEB, t)
  {
  }

  function HeadAfter(x: seq<Byte>, name: seq<Byte>, size: nat, e: Endian): seq<Byte> {
    x + e.put(size, 4) + (name + [0]) + [TAG_FILE] + e.put(size - 4 - (|name| + 1), 4)
  }

  // A vendor's bytes are written in three pieces.
  lemma VendorParts(v: Vendor, name: seq<Byte>, size: nat, tags: seq<nat>, e: Endian, x: seq<Byte>)
    requires v.Full() && AreKnown(tags)
    ensures var k, o := FileBytes(ULEB, KnownListing(v, tags)), FileBytes(ULEB, v.other);
            && |HeadAfter(x, name, size, e)| == |x| + 10 + |name|
            && |VendorBytes(ULEB, v, name, size, tags, e)| == 10 + |name| + |k| + |o|
            && HeadAfter(x, name, size, e) + k + o == x + VendorBytes(ULEB, v, name, size, tags, e)
  {
    FileBytesAppend(ULEB, KnownListing(v, tags), v.other);
    var k, o := FileBytes(ULEB, KnownListing(v, tags)), FileBytes(ULEB, v.other);
    var a, b, c, d := e.put(size, 4), name + [0], [TAG_FILE], e.put(size - 4 - (|name| + 1), 4);
    Regroup(x, a, b, c, d, k, o);
  }

  lemma Regroup(x: seq<Byte>, a: seq<Byte>, b: seq<Byte>, c: seq<Byte>, d: seq<Byte>, k: seq<Byte>, o: seq<Byte>)
    ensures x + a + b + c + d + k + o == x + (a + b + c + d + (k + o))
  {
  }

  // One more attribute of a list, which fits if the whole list does.
  lemma FirstFit(l: Leb, ts: seq<Tagged>, k: nat, x: seq<Byte>)
    requires k < |ts|
    ensures x + FileBytes(l, ts[..k + 1]) == (x + FileBytes(l, ts[..k])) + Written(l, ts[k])
    ensures |FileBytes(l, ts[..k])| + |Written(l, ts[k])| <= |FileBytes(l, ts)|
  {
    var front, one, back := ts[..k], [ts[k]], ts[k + 1..];
    assert ts[..k + 1] == front + one && ts == (front + one) + back;
    FileBytesAppend(l, front, one);
    FileBytesAppend(l, front + one, back);
    OneWritten(l, ts[k]);
    Regroup3(x, FileBytes(l, front), Written(l, ts[k]));
  }

  lemma OneWritten(l: Leb, t: Tagged)
    ensures FileBytes(l, [t]) == Written(l, t)
  {
    assert [t][1..] == [];
    assert Written(l, t) + [] == Written(l, t);
  }

  lemma Regroup3(x: seq<Byte>, a: seq<Byte>, b: seq<Byte>)
    ensures x + (a + b) == (x + a) + b
  {
  }

  // One vendor's part, if it is not empty.
  method WritePart(w: Writer, v: VendorAttrs, name: seq<Byte>, always: bool, tags: seq<nat>, e: Endian,
                   ghost value: Vendor)
    requires v.Holds(value) && value.Ok() && AreKnown(tags)
    requires |tags| == NUM_KNOWN_OBJ_ATTRIBUTES - LEAST_KNOWN_OBJ_ATTRIBUTE
    requires w.Valid() && w.Fits(|VendorPart(ULEB, value, name, VendorSize(ULEB, value, name, always), tags, e)|)
    modifies w`p, w`written, w.buffer
    ensures w.Valid()
    ensures w.written == old(w.written) + VendorPart(ULEB, value, name, VendorSize(ULEB, value, name, always), tags, e)
  {
    var size := VendorObjAttrSize(v, name, always);
    if size != 0 {
      w.VendorSetContents(v, name, size, tags, e, value);
    }
  }

  // The processor vendor's part, if the target has such a vendor.
  method WriteProc(w: Writer, proc: VendorAttrs, procName: CString, tags: seq<nat>, e: Endian, ghost o: Object)
    requires o.Ok() && o.procName == procName && proc.Holds(o.proc) && AreKnown(tags)
    requires |tags| == NUM_KNOWN_OBJ_ATTRIBUTES - LEAST_KNOWN_OBJ_ATTRIBUTE
    requires w.Valid() && w.Fits(|VendorPart(ULEB, o.proc, ProcName(o), ProcSize(ULEB, o), tags, e)|)
    modifies w`p, w`written, w.buffer
    ensures w.Valid() && w.written == old(w.written) + VendorPart(ULEB, o.proc, ProcName(o), ProcSize(ULEB, o), tags, e)
  {
    if procName.Text? {
      WritePart(w, proc, procName.bytes, true, tags, e, o.proc);
    }
  }

  // The two vendors' parts, one after the other.
  method WriteBoth(w: Writer, proc: VendorAttrs, gnu: VendorAttrs, procName: CString,
                   tags: seq<nat>, e: Endian, ghost o: Object, ghost p: seq<Byte>, ghost g: seq<Byte>)
    requires o.Ok() && o.procName == procName && proc.Holds(o.proc) && gnu.Holds(o.gnu)
    requires AreKnown(tags) && |tags| == NUM_KNOWN_OBJ_ATTRIBUTES - LEAST_KNOWN_OBJ_ATTRIBUTE
    requires p == VendorPart(ULEB, o.proc, ProcName(o), ProcSize(ULEB, o), tags, e)
    requires g == VendorPart(ULEB, o.gnu, GNU, VendorSize(ULEB, o.gnu, GNU, false), tags, e)
    requires w.Valid() && w.Fits(|p| + |g|)
    modifies w`p, w`written, w.buffer
    ensures w.Valid() && w.written == old(w.written) + p + g
  {
    WriteProc(w, proc, procName, tags, e, o);
    WritePart(w, gnu, GNU, false, tags, e, o.gnu);
  }

  method StartSection(contents: array<Byte>) returns (w: Writer)
    requires contents.Length > 0
    modifies contents
    ensures fresh(w) && w.Valid() && w.buffer == contents && w.written == [FORMAT_VERSION]
  {
    w := new Writer(contents);
    w.Append([FORMAT_VERSION]);
  }

  // bfd_elf_set_obj_attr_contents: exactly the bytes of the section, and as many as
  // the final check expects.
  method SetObjAttrContents(contents: array<Byte>, proc: VendorAttrs, gnu: VendorAttrs, procName: CString,
                            tags: seq<nat>, e: Endian, ghost o: Object)
    requires o.Ok() && o.procName == procName && proc.Holds(o.proc) && gnu.Holds(o.gnu)
    requires Permutes(tags) && AreKnown(tags) && SectionSize(ULEB, o) == contents.Length > 0
    modifies contents
    ensures contents[..] == SectionBytes(ULEB, o, tags, e)
  {
    hide VendorPart, VendorSize, SectionSize, Permutes, AreKnown;
    SizeIsExact(ULEB, o, tags, e);
    PermutedAreKnown(tags);
    ghost var p := VendorPart(ULEB, o.proc, ProcName(o), ProcSize(ULEB, o), tags, e);
    ghost var g := VendorPart(ULEB, o.gnu, GNU, VendorSize(ULEB, o.gnu, GNU, false), tags, e);
    assert SectionBytes(ULEB, o, tags, e) == [FORMAT_VERSION] + p + g;
    var w := StartSection(contents);
    WriteBoth(w, proc, gnu, procName, tags, e, o, p, g);
    assert contents[..] == contents[..w.p];
  }
}
