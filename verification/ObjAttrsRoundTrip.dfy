// Writing an object attribute section and parsing it into a fresh object.

module ObjAttrsRoundTrip {
  import opened Bytes
  import opened CLibrary
  import opened Leb128
  import opened ObjAttrs
  import opened ObjAttrsParse
  import opened ObjAttrsLaws
  import opened ObjAttrsRestored

  // ---------- one vendor's part ----------

  lemma WordAt(e: Endian, c: seq<Byte>, p: nat, size: nat)
    requires At(c, p, e.put(size, 4)) && size < Power256(4)
    ensures p + 4 <= |c| && Word(e, c, p) == size
  {
    AtRoom(c, p, e.put(size, 4));
    RemainderIs(size, Power256(4), 0, size);
  }

  lemma {:induction false} NothingWritten(l: Leb, ts: seq<Tagged>)
    requires FileBytes(l, ts) == []
    ensures NotDefault(ts) == []
  {
    if ts != [] {
      assert |Written(l, ts[0])| == 0 && |FileBytes(l, ts[1..])| == 0;
      NothingWritten(l, ts[1..]);
    }
  }

  // The bytes of the file subsection.
  function FilePart(l: Leb, e: Endian, left: nat, ts: seq<Tagged>): seq<Byte> {
    [TAG_FILE] + (e.put(left, 4) + FileBytes(l, ts))
  }

  lemma FilePartAt(l: Leb, e: Endian, c: seq<Byte>, p: nat, left: nat, ts: seq<Tagged>)
    requires At(c, p, FilePart(l, e, left, ts)) && p + 1 <= |c| - 1
    ensures Number(l, c, p, |c| - 1) == (TAG_FILE, p + 1)
    ensures At(c, p + 1, e.put(left, 4)) && At(c, p + 5, FileBytes(l, ts))
  {
    AtParts(c, p, [TAG_FILE], e.put(left, 4) + FileBytes(l, ts));
    AtParts(c, p + 1, e.put(left, 4), FileBytes(l, ts));
    assert l.write(1) == [TAG_FILE];
    NumberAt(l, c, p, |c| - 1, 1);
  }

  // A vendor's one subsection, if attributes follow its size.
  lemma OneSubsection(l: Leb, e: Endian, c: seq<Byte>, p: nat, left: nat, v: Vendor, argType: nat -> AttrType,
                      es: seq<Tagged>)
    requires Terminated(c) && v.Full() && 0 < left && p + left < |c| && p + 5 < |c| - 1
    requires Number(l, c, p, |c| - 1) == (TAG_FILE, p + 1) && Word(e, c, p + 1) == left
    requires Entries(l, c, p + 5, p + left, argType) == es && AfterEntries(l, c, p + 5, p + left, argType) == p + left
    ensures ParseSubs(l, e, c, p, left, v, argType).0 == p + left
    ensures ParseSubs(l, e, c, p, left, v, argType).1 == AddAll(v, es)
  {
  }

  // The size is the last word of the section.
  lemma LastSubsection(l: Leb, e: Endian, c: seq<Byte>, p: nat, left: nat, v: Vendor, argType: nat -> AttrType)
    requires Terminated(c) && v.Full() && 0 < left && p + 5 == |c| - 1
    requires Number(l, c, p, |c| - 1) == (TAG_FILE, p + 1)
    ensures ParseSubs(l, e, c, p, left, v, argType).0 == p + 5 && ParseSubs(l, e, c, p, left, v, argType).1 == v
  {
  }

  // Parsing the one subsection of a vendor.
  lemma SubsectionAt(l: Leb, e: Endian, c: seq<Byte>, p: nat, left: nat, ts: seq<Tagged>, v: Vendor,
                     argType: nat -> AttrType)
    requires Terminated(c) && v.Full() && AllOk(ts) && AllTyped(ts, argType)
    requires left == 5 + |FileBytes(l, ts)| < Power256(4) && p + left < |c|
    requires At(c, p, FilePart(l, e, left, ts))
    ensures ParseSubs(l, e, c, p, left, v, argType).0 == p + left
    ensures ParseSubs(l, e, c, p, left, v, argType).1 == AddAll(v, NotDefault(ts))
  {
    FilePartAt(l, e, c, p, left, ts);
    if p + 5 < |c| - 1 {
      WordAt(e, c, p + 1, left);
      SubsectionBody(l, e, c, p, left, ts, v, argType);
    } else {
      NothingWritten(l, ts);
      LastSubsection(l, e, c, p, left, v, argType);
    }
  }

  lemma SubsectionBody(l: Leb, e: Endian, c: seq<Byte>, p: nat, left: nat, ts: seq<Tagged>, v: Vendor,
                       argType: nat -> AttrType)
    requires Terminated(c) && v.Full() && AllOk(ts) && AllTyped(ts, argType)
    requires left == 5 + |FileBytes(l, ts)| && p + left < |c| && p + 5 < |c| - 1
    requires Number(l, c, p, |c| - 1) == (TAG_FILE, p + 1) && Word(e, c, p + 1) == left
    requires At(c, p + 5, FileBytes(l, ts))
    ensures ParseSubs(l, e, c, p, left, v, argType).0 == p + left
    ensures ParseSubs(l, e, c, p, left, v, argType).1 == AddAll(v, NotDefault(ts))
  {
    hide *;
    FileAt(l, c, p + 5, p + left, ts, argType);
    OneSubsection(l, e, c, p, left, v, argType, NotDefault(ts));
  }

  // ---------- a whole vendor ----------

  // A vendor's bytes, grouped as the parser takes them.
  function VendorText(l: Leb, e: Endian, name: seq<Byte>, ts: seq<Tagged>): (s: seq<Byte>)
    ensures |s| == 10 + |name| + |FileBytes(l, ts)|
  {
    var left := 5 + |FileBytes(l, ts)|;
    e.put(left + 5 + |name|, 4) + ((name + [0]) + FilePart(l, e, left, ts))
  }

  lemma HeadAt(e: Endian, c: seq<Byte>, p: nat, size: nat, name: seq<Byte>, part: seq<Byte>)
    requires At(c, p, e.put(size, 4) + ((name + [0]) + part)) && 0 !in name && size < Power256(4)
    ensures p + 4 <= |c| && Word(e, c, p) == size
    ensures StringFrom(c, p + 4) == name && At(c, p + 5 + |name|, part)
  {
    AtThree(c, p, e.put(size, 4), name + [0], part);
    WordAt(e, c, p, size);
    StringAt(c, p + 4, name);
  }

  lemma VendorTextAt(l: Leb, e: Endian, c: seq<Byte>, p: nat, name: seq<Byte>, ts: seq<Tagged>, size: nat)
    requires size == 10 + |name| + |FileBytes(l, ts)| < Power256(4)
    requires At(c, p, VendorText(l, e, name, ts)) && 0 !in name
    ensures p + 4 <= |c| && Word(e, c, p) == size
    ensures StringFrom(c, p + 4) == name
    ensures At(c, p + 5 + |name|, FilePart(l, e, size - 5 - |name|, ts))
  {
    HeadAt(e, c, p, size, name, FilePart(l, e, size - 5 - |name|, ts));
  }

  // The parser does not give up at a vendor section that was written.
  lemma WholeVendor(e: Endian, c: seq<Byte>, p: nat, len: nat, name: seq<Byte>, size: nat)
    requires Terminated(c) && p + 4 <= |c| - 1 && Word(e, c, p) == size <= len
    requires StringFrom(c, p + 4) == name && |name| + 5 < size
    ensures SizeAt(e, c, p, len) == size && NameLength(c, p, size) == |name| + 1
  {
  }

  // The processor's section.
  lemma ProcVendor(l: Leb, e: Endian, c: seq<Byte>, p: nat, o: Object, procType: nat -> AttrType,
                   name: seq<Byte>, size: nat, v: Vendor)
    requires Terminated(c) && o.Full() && v.Full() && p + 4 <= |c| - 1 && |name| + 5 < size
    requires NameLength(c, p, size) == |name| + 1 && StringFrom(c, p + 4) == name && o.procName == Text(name)
    requires ParseSubs(l, e, c, p + 5 + |name|, size - 5 - |name|, o.proc, procType).0 == p + size
    requires ParseSubs(l, e, c, p + 5 + |name|, size - 5 - |name|, o.proc, procType).1 == v
    ensures ParseVendor(l, e, c, p, size, o, procType).0 == p + size
    ensures ParseVendor(l, e, c, p, size, o, procType).1 == o.(proc := v)
  {
    hide ParseSubs, StringFrom;
  }

  // The GNU section, if the processor's vendor is another one.
  lemma GnuVendor(l: Leb, e: Endian, c: seq<Byte>, p: nat, o: Object, procType: nat -> AttrType, size: nat, v: Vendor)
    requires Terminated(c) && o.Full() && v.Full() && p + 4 <= |c| - 1 && |GNU| + 5 < size
    requires NameLength(c, p, size) == |GNU| + 1 && StringFrom(c, p + 4) == GNU && o.procName != Text(GNU)
    requires ParseSubs(l, e, c, p + 5 + |GNU|, size - 5 - |GNU|, o.gnu, GnuArgType).0 == p + size
    requires ParseSubs(l, e, c, p + 5 + |GNU|, size - 5 - |GNU|, o.gnu, GnuArgType).1 == v
    ensures ParseVendor(l, e, c, p, size, o, procType).0 == p + size
    ensures ParseVendor(l, e, c, p, size, o, procType).1 == o.(gnu := v)
  {
    hide ParseSubs, StringFrom;
  }

  lemma ProcAt(l: Leb, e: Endian, c: seq<Byte>, p: nat, len: nat, o: Object, procType: nat -> AttrType,
               name: seq<Byte>, ts: seq<Tagged>, size: nat)
    requires Terminated(c) && o.Full() && AllOk(ts) && AllTyped(ts, procType) && o.procName == Text(name) && 0 !in name
    requires size == 10 + |name| + |FileBytes(l, ts)| < Power256(4) && size <= len && p + size < |c|
    requires At(c, p, VendorText(l, e, name, ts))
    ensures SizeAt(e, c, p, len) == size && NameLength(c, p, size) < size - 4
    ensures ParseVendor(l, e, c, p, size, o, procType).0 == p + size
    ensures ParseVendor(l, e, c, p, size, o, procType).1 == o.(proc := AddAll(o.proc, NotDefault(ts)))
  {
    hide At, VendorText, AllOk, AllTyped, FileBytes, NotDefault, AddAll, ParseSubs, StringFrom, ParseVendor, SizeAt;
    VendorTextAt(l, e, c, p, name, ts, size);
    WholeVendor(e, c, p, len, name, size);
    SubsectionAt(l, e, c, p + 5 + |name|, size - 5 - |name|, ts, o.proc, procType);
    ProcVendor(l, e, c, p, o, procType, name, size, AddAll(o.proc, NotDefault(ts)));
  }

  lemma GnuAt(l: Leb, e: Endian, c: seq<Byte>, p: nat, len: nat, o: Object, procType: nat -> AttrType,
              ts: seq<Tagged>, size: nat)
    requires Terminated(c) && o.Full() && AllOk(ts) && AllTyped(ts, GnuArgType) && o.procName != Text(GNU)
    requires size == 10 + |GNU| + |FileBytes(l, ts)| < Power256(4) && size <= len && p + size < |c|
    requires At(c, p, VendorText(l, e, GNU, ts))
    ensures SizeAt(e, c, p, len) == size && NameLength(c, p, size) < size - 4
    ensures ParseVendor(l, e, c, p, size, o, procType).0 == p + size
    ensures ParseVendor(l, e, c, p, size, o, procType).1 == o.(gnu := AddAll(o.gnu, NotDefault(ts)))
  {
    hide At, VendorText, AllOk, AllTyped, FileBytes, NotDefault, AddAll, ParseSubs, StringFrom, ParseVendor, SizeAt;
    VendorTextAt(l, e, c, p, GNU, ts, size);
    WholeVendor(e, c, p, len, GNU, size);
    SubsectionAt(l, e, c, p + 5 + |GNU|, size - 5 - |GNU|, ts, o.gnu, GnuArgType);
    GnuVendor(l, e, c, p, o, procType, size, AddAll(o.gnu, NotDefault(ts)));
  }

  // ---------- the whole section ----------

  lemma Regroup(a: seq<Byte>, n: seq<Byte>, t: seq<Byte>, b: seq<Byte>, f: seq<Byte>)
    ensures a + n + t + b + f == a + (n + (t + (b + f)))
  {
  }

  lemma VendorBytesAreText(l: Leb, e: Endian, v: Vendor, name: seq<Byte>, size: nat, tags: seq<nat>)
    requires v.Full() && AreKnown(tags) && size == 10 + |name| + |FileBytes(l, Listing(v, tags))|
    ensures VendorBytes(l, v, name, size, tags, e) == VendorText(l, e, name, Listing(v, tags))
  {
    hide FileBytes, Listing;
    var f := FileBytes(l, Listing(v, tags));
    Regroup(e.put(size, 4), name + [0], [TAG_FILE], e.put(5 + |f|, 4), f);
  }

  // A vendor's part is its text, or nothing if there is nothing to write.
  lemma PartIsText(l: Leb, e: Endian, v: Vendor, name: seq<Byte>, always: bool, tags: seq<nat>)
    requires v.Full() && Permutes(tags) && AreKnown(tags)
    ensures var size, ts := VendorSize(l, v, name, always), Listing(v, tags);
            var part := VendorPart(l, v, name, size, tags, e);
            && |part| == size
            && (size != 0 ==> size == 10 + |name| + |FileBytes(l, ts)| && part == VendorText(l, e, name, ts))
            && (size == 0 ==> FileBytes(l, ts) == [] && part == [])
            && (always ==> size != 0)
  {
    SizeIgnoresOrder(l, v, tags);
    var size := VendorSize(l, v, name, always);
    if size != 0 {
      VendorBytesAreText(l, e, v, name, size, tags);
    }
  }

  lemma SectionsUnfold(l: Leb, e: Endian, c: seq<Byte>, p: nat, len: nat, o: Object, procType: nat -> AttrType,
                       size: nat, q: nat, o': Object, r: Object)
    requires Terminated(c) && o.Full() && o'.Full() && len != 0 && p + 4 < |c| - 1
    requires SizeAt(e, c, p, len) == size > 4 && NameLength(c, p, size) < size - 4
    requires ParseVendor(l, e, c, p, size, o, procType).0 == q && ParseVendor(l, e, c, p, size, o, procType).1 == o'
    requires ParseSections(l, e, c, q, len - size, o', procType) == r
    ensures ParseSections(l, e, c, p, len, o, procType) == r
  {
  }

  lemma ListingOk(v: Vendor, tags: seq<nat>)
    requires v.Ok() && AreKnown(tags)
    ensures AllOk(Listing(v, tags))
  {
    var ts := Listing(v, tags);
    forall k | 0 <= k < |ts| ensures AttrOk(ts[k]) {
      if k < |tags| {
        assert IsKnown(tags[k]) && AttrOk(Tagged(tags[k], v.known[tags[k]]));
      } else {
        assert ts[k] == v.other[k - |tags|];
      }
    }
  }

  // Parsing the GNU part, at the end of the section.
  lemma GnuPart(l: Leb, e: Endian, c: seq<Byte>, p: nat, o: Object, procType: nat -> AttrType, v: Vendor,
                tags: seq<nat>, part: seq<Byte>, r: Object)
    requires Terminated(c) && o.Full() && o.procName != Text(GNU) && o.gnu == FreshVendor()
    requires v.Ok() && Permutes(tags) && AreKnown(tags) && AllTyped(Listing(v, tags), GnuArgType) && Ordered(v.other)
    requires part == VendorPart(l, v, GNU, VendorSize(l, v, GNU, false), tags, e)
    requires At(c, p, part) && p + |part| == |c| - 1 && |part| < Power256(4) && r == o.(gnu := Restored(v))
    ensures ParseSections(l, e, c, p, |part|, o, procType) == r
  {
    var ts, size := Listing(v, tags), VendorSize(l, v, GNU, false);
    PartIsText(l, e, v, GNU, false, tags);
    AddedIsRestored(v, tags);
    if size != 0 {
      ListingOk(v, tags);
      GnuAt(l, e, c, p, size, o, procType, ts, size);
      SectionsUnfold(l, e, c, p, size, o, procType, size, p + size, r, r);
    } else {
      NothingWritten(l, ts);
    }
  }

  // Parsing the processor's part.
  lemma ProcPartAt(l: Leb, e: Endian, c: seq<Byte>, p: nat, len: nat, o: Object, procType: nat -> AttrType,
                   v: Vendor, name: seq<Byte>, tags: seq<nat>, part: seq<Byte>, w: Vendor)
    requires Terminated(c) && o.Full() && o.procName == Text(name) && 0 !in name && o.proc == FreshVendor()
    requires v.Ok() && Permutes(tags) && AreKnown(tags) && AllTyped(Listing(v, tags), procType) && Ordered(v.other)
    requires part == VendorPart(l, v, name, VendorSize(l, v, name, true), tags, e) && w == Restored(v)
    requires At(c, p, part) && |part| <= len && p + |part| < |c| && |part| < Power256(4)
    ensures |part| > 4 && p + |part| < |c|
    ensures SizeAt(e, c, p, len) == |part| && NameLength(c, p, |part|) < |part| - 4
    ensures ParseVendor(l, e, c, p, |part|, o, procType).0 == p + |part|
    ensures ParseVendor(l, e, c, p, |part|, o, procType).1 == o.(proc := w)
  {
    var ts, size := Listing(v, tags), VendorSize(l, v, name, true);
    PartIsText(l, e, v, name, true, tags);
    AddedIsRestored(v, tags);
    ListingOk(v, tags);
    ProcAt(l, e, c, p, len, o, procType, name, ts, size);
  }

  lemma ProcPart(l: Leb, e: Endian, c: seq<Byte>, p: nat, len: nat, o: Object, procType: nat -> AttrType,
                 v: Vendor, name: seq<Byte>, tags: seq<nat>, part: seq<Byte>, w: Vendor, o': Object, r: Object)
    requires Terminated(c) && o.Full() && o.procName == Text(name) && 0 !in name && o.proc == FreshVendor()
    requires v.Ok() && Permutes(tags) && AreKnown(tags) && AllTyped(Listing(v, tags), procType) && Ordered(v.other)
    requires part == VendorPart(l, v, name, VendorSize(l, v, name, true), tags, e) && w == Restored(v)
    requires At(c, p, part) && |part| <= len && p + |part| < |c| && |part| < Power256(4)
    requires o'.Full() && o' == o.(proc := w)
    requires ParseSections(l, e, c, p + |part|, len - |part|, o', procType) == r
    ensures ParseSections(l, e, c, p, len, o, procType) == r
  {
    hide *;
    ProcPartAt(l, e, c, p, len, o, procType, v, name, tags, part, w);
    SectionsUnfold(l, e, c, p, len, o, procType, |part|, p + |part|, o', r);
  }

  // A fresh object of the same target.
  function FreshObject(procName: CString): (o: Object)
    ensures o.Full()
  {
    Object(FreshVendor(), FreshVendor(), procName)
  }

  // What should come back.
  function RestoredObject(o: Object): Object
    requires o.Full()
  {
    Object(if o.procName.Text? then Restored(o.proc) else FreshVendor(), Restored(o.gnu), o.procName)
  }

  // What the round trip needs of an object besides Ok: types that agree with the
  // tags, ordered lists, a vendor name that is not "gnu", and 32-bit sizes.
  predicate Writable(l: Leb, o: Object, tags: seq<nat>, procType: nat -> AttrType)
    requires o.Full() && AreKnown(tags)
  {
    && AllTyped(Listing(o.proc, tags), procType) && AllTyped(Listing(o.gnu, tags), GnuArgType)
    && Ordered(o.proc.other) && Ordered(o.gnu.other)
    && o.procName != Text(GNU) && SectionSize(l, o) < Power256(4)
  }

  lemma RegroupSection(a: seq<Byte>, p: seq<Byte>, g: seq<Byte>, z: seq<Byte>)
    ensures (a + p + g) + z == a + (p + (g + z))
  {
  }

  // Where the parts are in the section with its final NUL.
  lemma SectionParts(c: seq<Byte>, a: seq<Byte>, p: seq<Byte>, g: seq<Byte>, z: seq<Byte>)
    requires c == (a + p + g) + z
    ensures At(c, |a|, p) && At(c, |a| + |p|, g)
  {
    hide At;
    RegroupSection(a, p, g, z);
    AtSlice(c, 0, c);
    AtThree(c, 0, a, p, g + z);
    AtParts(c, |a| + |p|, g, z);
  }

  lemma SectionEnd(c: seq<Byte>, s: seq<Byte>)
    requires c == s + [0]
    ensures Terminated(c)
  {
  }

  lemma ParseParts(l: Leb, e: Endian, c: seq<Byte>, o: Object, tags: seq<nat>, procType: nat -> AttrType,
                   p: seq<Byte>, g: seq<Byte>, f: Object, r: Object)
    requires o.Ok() && Permutes(tags) && AreKnown(tags) && Writable(l, o, tags, procType)
    requires p == VendorPart(l, o.proc, ProcName(o), ProcSize(l, o), tags, e)
    requires g == VendorPart(l, o.gnu, GNU, VendorSize(l, o.gnu, GNU, false), tags, e)
    requires |p| < Power256(4) && |g| < Power256(4) && c == ([FORMAT_VERSION] + p + g) + [0]
    requires f == FreshObject(o.procName) && r == RestoredObject(o)
    ensures Terminated(c)
    ensures ParseSections(l, e, c, 1, |p| + |g|, f, procType) == r
  {
    hide ParseSections, VendorSize, Restored, FreshVendor, At, AllTyped, Ordered, Listing, Permutes, AreKnown, Power256;
    SectionEnd(c, [FORMAT_VERSION] + p + g);
    SectionParts(c, [FORMAT_VERSION], p, g, [0]);
    if o.procName.Text? {
      var w := Restored(o.proc);
      var f' := f.(proc := w);
      GnuPart(l, e, c, 1 + |p|, f', procType, o.gnu, tags, g, r);
      ProcPart(l, e, c, 1, |p| + |g|, f, procType, o.proc, o.procName.bytes, tags, p, w, f', r);
    } else {
      assert p == [];
      GnuPart(l, e, c, 1, f, procType, o.gnu, tags, g, r);
    }
  }

  // The section's two parts, each shorter than the whole.
  lemma SectionIs(l: Leb, e: Endian, o: Object, tags: seq<nat>, s: seq<Byte>, p: seq<Byte>, g: seq<Byte>)
    requires o.Full() && Permutes(tags) && AreKnown(tags) && SectionSize(l, o) != 0
    requires p == VendorPart(l, o.proc, ProcName(o), ProcSize(l, o), tags, e)
    requires g == VendorPart(l, o.gnu, GNU, VendorSize(l, o.gnu, GNU, false), tags, e)
    requires s == SectionBytes(l, o, tags, e)
    ensures s == [FORMAT_VERSION] + p + g && |p| + |g| < |s| == SectionSize(l, o)
  {
    hide VendorPart, VendorSize, SectionSize;
    SizeIsExact(l, o, tags, e);
  }

  lemma ParseWhole(l: Leb, e: Endian, s: seq<Byte>, c: seq<Byte>, o: Object, procType: nat -> AttrType, r: Object)
    requires o.Full() && s != [] && s[0] == FORMAT_VERSION && c == s + [0] && Terminated(c)
    requires ParseSections(l, e, c, 1, |s| - 1, o, procType) == r
    ensures Parse(l, e, s, o, procType) == r
  {
    hide ParseSections;
  }

  // Parsing the written section into a fresh object restores every attribute that
  // is not default, and the ordered lists of the others, for any order of writing.
  lemma RoundTrip(l: Leb, e: Endian, o: Object, tags: seq<nat>, procType: nat -> AttrType)
    requires o.Ok() && Permutes(tags) && AreKnown(tags) && Writable(l, o, tags, procType) && SectionSize(l, o) != 0
    ensures Parse(l, e, SectionBytes(l, o, tags, e), FreshObject(o.procName), procType) == RestoredObject(o)
  {
    hide ParseSections, Parse, RestoredObject, VendorPart, VendorSize, SectionSize, SectionBytes, Permutes;
    var p := VendorPart(l, o.proc, ProcName(o), ProcSize(l, o), tags, e);
    var g := VendorPart(l, o.gnu, GNU, VendorSize(l, o.gnu, GNU, false), tags, e);
    var s, f, r := SectionBytes(l, o, tags, e), FreshObject(o.procName), RestoredObject(o);
    var c := s + [0];
    SectionIs(l, e, o, tags, s, p, g);
    ParseParts(l, e, c, o, tags, procType, p, g, f, r);
    ParseWhole(l, e, s, c, f, procType, r);
  }
}
