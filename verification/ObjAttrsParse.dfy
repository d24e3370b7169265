// Reading an object attribute section: what _bfd_elf_parse_attributes does, as
// functions, and the round trip with the writer.

module ObjAttrsParse {
  import opened Bytes
  import opened CLibrary
  import opened Leb128
  import opened ObjAttrs

  // ---------- adding attributes ----------

  // Where a new tag goes in the list: before the first greater one.
  function Slot(others: seq<Tagged>, tag: nat): (n: nat)
    ensures n <= |others|
    ensures forall i {:trigger others[i]} :: 0 <= i < n ==> others[i].tag <= tag
    ensures n < |others| ==> tag < others[n].tag
  {
    if others == [] || tag < others[0].tag then 0 else 1 + Slot(others[1..], tag)
  }

  // The members that bfd_elf_add_obj_attr_int, _string or _int_string set.
  function Filled(a: Attr, x: Attr): Attr {
    Attr(x.kind, if x.kind.hasInt then x.i else a.i, if x.kind.hasStr then x.s else a.s)
  }

  function AddAttr(v: Vendor, t: Tagged): (r: Vendor)
    requires v.Full()
    ensures r.Full()
  {
    if t.tag < NUM_KNOWN_OBJ_ATTRIBUTES then v.(known := v.known[t.tag := Filled(v.known[t.tag], t.attr)])
    else
      var n := Slot(v.other, t.tag);
      v.(other := v.other[..n] + [Tagged(t.tag, Filled(ZERO, t.attr))] + v.other[n..])
  }

  function AddAll(v: Vendor, ts: seq<Tagged>): (r: Vendor)
    requires v.Full()
    ensures r.Full()
    decreases |ts|
  {
    if ts == [] then v else AddAll(AddAttr(v, ts[0]), ts[1..])
  }

  // ---------- the contents of a file subsection ----------

  // The number at p, as far as end, cut to 32 bits, and the position after it.
  function Number(l: Leb, c: seq<Byte>, p: nat, end: nat): (r: (nat, nat))
    requires p <= end <= |c|
    ensures p <= r.1 <= end && (p < end ==> p < r.1) && r.0 < 0x1_0000_0000
  {
    var r := l.read(c[p..end]);
    (r.0 % 0x1_0000_0000, p + r.1)
  }

  // The string at p, if one is expected.
  function TextAt(c: seq<Byte>, p: nat, hasStr: bool): CString
    requires p <= |c|
  {
    if hasStr then Text(StringFrom(c, p)) else NullPointer
  }

  // The position after it and its NUL.
  function AfterText(c: seq<Byte>, p: nat, hasStr: bool): (q: nat)
    requires Terminated(c) && p < |c|
    ensures p <= q <= |c|
  {
    if hasStr then
      StringInside(c, p);
      p + |StringFrom(c, p)| + 1
    else p
  }

  // The position after the tag and the number, if one is expected.
  function AfterNumber(l: Leb, c: seq<Byte>, p: nat, end: nat, argType: nat -> AttrType): (q: nat)
    requires p < end <= |c|
    ensures p < q <= end
  {
    var t := Number(l, c, p, end);
    if argType(t.0).hasInt then Number(l, c, t.1, end).1 else t.1
  }

  // The attribute at p.
  function EntryFrom(l: Leb, c: seq<Byte>, p: nat, end: nat, argType: nat -> AttrType): Tagged
    requires p < end <= |c|
  {
    var t := Number(l, c, p, end);
    var kind := argType(t.0);
    Tagged(t.0, Attr(kind, if kind.hasInt then Number(l, c, t.1, end).0 else 0,
                     TextAt(c, AfterNumber(l, c, p, end, argType), kind.hasStr)))
  }

  // The position after it.
  function AfterEntry(l: Leb, c: seq<Byte>, p: nat, end: nat, argType: nat -> AttrType): (q: nat)
    requires Terminated(c) && p < end < |c|
    ensures p < q <= |c|
  {
    AfterText(c, AfterNumber(l, c, p, end, argType), argType(Number(l, c, p, end).0).hasStr)
  }

  // The attributes that the loop over the subsection reads.
  function Entries(l: Leb, c: seq<Byte>, p: nat, end: nat, argType: nat -> AttrType): seq<Tagged>
    requires Terminated(c) && end < |c|
    decreases end - p
  {
    if p >= end then []
    else [EntryFrom(l, c, p, end, argType)] + Entries(l, c, AfterEntry(l, c, p, end, argType), end, argType)
  }

  // Where that loop ends: past end, if the last string is.
  function AfterEntries(l: Leb, c: seq<Byte>, p: nat, end: nat, argType: nat -> AttrType): (q: nat)
    requires Terminated(c) && end < |c|
    ensures p <= q
    decreases end - p
  {
    if p >= end then p else AfterEntries(l, c, AfterEntry(l, c, p, end, argType), end, argType)
  }

  // ---------- subsections and vendors ----------

  function Word(e: Endian, c: seq<Byte>, p: nat): nat
    requires p + 4 <= |c|
  {
    e.get(c[p..p + 4])
  }

  // The loop over the subsections of one vendor.
  function ParseSubs(l: Leb, e: Endian, c: seq<Byte>, p: nat, left: nat, v: Vendor,
                     argType: nat -> AttrType): (r: (nat, Vendor))
    requires Terminated(c) && v.Full()
    ensures r.1.Full()
    decreases left
  {
    var pEnd := |c| - 1;
    if left == 0 || p >= pEnd then (p, v)
    else
      var tag := Number(l, c, p, pEnd);
      var size := if tag.1 + 4 < pEnd then Word(e, c, tag.1) else 0;
      var body := tag.1 + 4;
      if size == 0 then (body, v)
      else
        var sub := Min(size, left);
        if tag.0 == TAG_FILE then
          var end := Min(p + sub, pEnd);
          ParseSubs(l, e, c, AfterEntries(l, c, body, end, argType), left - sub,
                    AddAll(v, Entries(l, c, body, end, argType)), argType)
        else ParseSubs(l, e, c, p + sub, left - sub, v, argType)
  }

  // GNU attributes follow the rule of the ARM ones above 32.
  function GnuArgType(tag: nat): AttrType {
    if tag == TAG_COMPATIBILITY then AttrType(true, true, false, false)
    else if tag % 2 != 0 then AttrType(false, true, false, false)
    else AttrType(true, false, false, false)
  }

  // The size of the vendor section at p, cut to what is left; 0 if the parser gives
  // up there.
  function SizeAt(e: Endian, c: seq<Byte>, p: nat, len: nat): (size: nat)
    requires Terminated(c) && p + 4 <= |c| - 1
    ensures size <= len
  {
    var word := Word(e, c, p);
    var size := Min(word, len);
    if word == 0 || size <= 4 || NameLength(c, p, size) >= size - 4 then 0 else size
  }

  // `strnlen (p, section_len) + 1`
  function NameLength(c: seq<Byte>, p: nat, size: nat): nat
    requires p + 4 <= |c| && size > 4
  {
    Min(|StringFrom(c, p + 4)|, size - 4) + 1
  }

  // One vendor section: the position after it, and the object.
  function ParseVendor(l: Leb, e: Endian, c: seq<Byte>, p: nat, size: nat, o: Object,
                       procType: nat -> AttrType): (r: (nat, Object))
    requires Terminated(c) && o.Full() && p + 4 <= |c| - 1 && 4 < size && NameLength(c, p, size) < size - 4
    ensures r.1.Full() && r.1.procName == o.procName
  {
    var name := StringFrom(c, p + 4);
    var body, left := p + 4 + NameLength(c, p, size), size - 4 - NameLength(c, p, size);
    var isProc := o.procName == Text(name);
    if isProc || name == GNU then
      var r := ParseSubs(l, e, c, body, left, if isProc then o.proc else o.gnu,
                         if isProc then procType else GnuArgType);
      (r.0, Put(o, isProc, r.1))
    else (body + left, o)
  }

  function Put(o: Object, isProc: bool, v: Vendor): Object {
    if isProc then o.(proc := v) else o.(gnu := v)
  }

  // The loop over the vendors.
  function ParseSections(l: Leb, e: Endian, c: seq<Byte>, p: nat, len: nat, o: Object,
                         procType: nat -> AttrType): (r: Object)
    requires Terminated(c) && o.Full()
    ensures r.Full() && r.procName == o.procName
    decreases len
  {
    if len == 0 || p + 4 >= |c| - 1 || SizeAt(e, c, p, len) == 0 then o
    else
      var size := SizeAt(e, c, p, len);
      var r := ParseVendor(l, e, c, p, size, o, procType);
      ParseSections(l, e, c, r.0, len - size, r.1, procType)
  }

  // _bfd_elf_parse_attributes
  function Parse(l: Leb, e: Endian, section: seq<Byte>, o: Object, procType: nat -> AttrType): (r: Object)
    requires o.Full()
    ensures r.Full()
  {
    if section == [] || section[0] != FORMAT_VERSION then o
    else ParseSections(l, e, section + [0], 1, |section| - 1, o, procType)
  }
}
