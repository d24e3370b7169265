// What an attribute section looks like to other tools: its constants, which attributes
// are in it, in which order, and of what kind they are.

module ObjAttrsBytes {
  import opened Bytes
  import opened CLibrary
  import opened Leb128
  import opened ObjAttrs
  import opened ObjAttrsParse

  // ---------- what is written ----------

  // An attribute is in the section if it has a number that is not 0, a string that is
  // not empty, or no default; one that is in error never is.
  lemma WrittenIff(l: Leb, t: Tagged)
    ensures Written(l, t) != [] <==>
            && !t.attr.kind.hasError
            && (|| (t.attr.kind.hasInt && t.attr.i != 0)
                || (t.attr.kind.hasStr && t.attr.s.Text? && t.attr.s.bytes != [])
                || t.attr.kind.noDefault)
  {
    assert |l.write(t.tag)| > 0;
  }

  // It is its tag, then its number, then its string with a NUL, as its kind says.
  lemma WrittenAs(l: Leb, t: Tagged)
    requires Written(l, t) != [] && (t.attr.kind.hasStr ==> t.attr.s.Text?)
    ensures t.attr.kind.hasInt && !t.attr.kind.hasStr ==> Written(l, t) == l.write(t.tag) + l.write(t.attr.i)
    ensures !t.attr.kind.hasInt && t.attr.kind.hasStr ==> Written(l, t) == l.write(t.tag) + (t.attr.s.bytes + [0])
    ensures t.attr.kind.hasInt && t.attr.kind.hasStr ==>
              Written(l, t) == l.write(t.tag) + (l.write(t.attr.i) + (t.attr.s.bytes + [0]))
  {
    assert l.write(t.attr.i) + [] == l.write(t.attr.i);
    assert [] + (StrBytes(t.attr)) == StrBytes(t.attr);
  }

  // The ARM target writes Tag_conformance (67) first, Tag_nodefaults (64) second, and
  // the others in rising order.
  lemma ArmOrderIs()
    ensures |ArmTags()| == 69 && ArmTags()[0] == 67 && ArmTags()[1] == 64
    ensures forall i, j {:trigger ArmTags()[i], ArmTags()[j]} :: 2 <= i < j < 69 ==> ArmTags()[i] < ArmTags()[j]
  {
  }

  // A vendor's part: its size, a name with a NUL, the tag 1 for the whole file, the size
  // of what remains from there on, and the attributes.
  lemma VendorLooks(l: Leb, v: Vendor, name: seq<Byte>, size: nat, tags: seq<nat>, e: Endian)
    requires v.Full() && AreKnown(tags)
    ensures var s, n := VendorBytes(l, v, name, size, tags, e), |name|;
            && |s| >= 10 + n && s[..4] == e.put(size, 4) && s[4..4 + n] == name && s[4 + n] == 0 && s[5 + n] == 1
            && s[6 + n..10 + n] == e.put(size - 5 - n, 4) && s[10 + n..] == FileBytes(l, Listing(v, tags))
  {
    hide FileBytes, Listing;
    var x, y, z := e.put(size, 4), e.put(size - 4 - (|name| + 1), 4), FileBytes(l, Listing(v, tags));
    Parts(x, name, y, z);
  }

  lemma Parts(x: seq<Byte>, name: seq<Byte>, y: seq<Byte>, z: seq<Byte>)
    requires |x| == |y| == 4
    ensures var s, n := x + (name + [0]) + [1] + y + z, |name|;
            && |s| == 10 + n + |z| && s[..4] == x && s[4..4 + n] == name && s[4 + n] == 0 && s[5 + n] == 1
            && s[6 + n..10 + n] == y && s[10 + n..] == z
  {
  }

  // 'A', and then the parts of the processor's vendor and of "gnu".
  lemma SectionLooks(l: Leb, o: Object, tags: seq<nat>, e: Endian)
    requires o.Full() && AreKnown(tags)
    ensures GNU == ['g' as int, 'n' as int, 'u' as int]
    ensures SectionBytes(l, o, tags, e)
            == ['A' as int] + VendorPart(l, o.proc, ProcName(o), ProcSize(l, o), tags, e)
               + VendorPart(l, o.gnu, GNU, GnuSize(l, o), tags, e)
  {
  }

  // ---------- what is read ----------

  // Of the GNU attributes Tag_compatibility (32) has a number and a string; even tags
  // have a number, odd ones a string.
  lemma GnuEntryIs(l: Leb, c: seq<Byte>, p: nat, end: nat)
    requires Terminated(c) && p < end < |c|
    ensures var t, q := Number(l, c, p, end).0, Number(l, c, p, end).1;
            var x, next := EntryFrom(l, c, p, end, GnuArgType), AfterEntry(l, c, p, end, GnuArgType);
            && x.tag == t
            && (if t == 32 then
                  var r := Number(l, c, q, end);
                  x.attr.i == r.0 && x.attr.s == Text(StringFrom(c, r.1)) && next == r.1 + |StringFrom(c, r.1)| + 1
                else if t % 2 == 0 then
                  var r := Number(l, c, q, end);
                  x.attr.i == r.0 && x.attr.s == NullPointer && next == r.1
                else
                  x.attr.i == 0 && x.attr.s == Text(StringFrom(c, q)) && next == q + |StringFrom(c, q)| + 1)
  {
    hide Number, StringFrom;
  }

  // The name and the size of a section that is not the processor's nor "gnu".
  predicate OtherVendor(e: Endian, c: seq<Byte>, p: nat, len: nat, o: Object)
    requires Terminated(c)
  {
    && p + 4 < |c| - 1 && 4 < Word(e, c, p) <= len
    && var name := StringFrom(c, p + 4);
       |name| + 5 < Word(e, c, p) && name != ['g' as int, 'n' as int, 'u' as int] && o.procName != Text(name)
  }

  lemma OtherVendorIs(l: Leb, e: Endian, c: seq<Byte>, p: nat, len: nat, o: Object, procType: nat -> AttrType)
    requires Terminated(c) && o.Full() && OtherVendor(e, c, p, len, o)
    ensures SizeAt(e, c, p, len) == Word(e, c, p) > 4 && NameLength(c, p, Word(e, c, p)) < Word(e, c, p) - 4
    ensures ParseVendor(l, e, c, p, Word(e, c, p), o, procType) == (p + Word(e, c, p), o)
  {
    hide StringFrom, ParseSubs, Word;
  }

  // The section of a vendor that is not known is passed over.
  lemma OtherVendorSkipped(l: Leb, e: Endian, c: seq<Byte>, p: nat, len: nat, o: Object, procType: nat -> AttrType)
    requires Terminated(c) && o.Full() && OtherVendor(e, c, p, len, o)
    ensures ParseSections(l, e, c, p, len, o, procType)
            == ParseSections(l, e, c, p + Word(e, c, p), len - Word(e, c, p), o, procType)
  {
    hide ParseVendor, NameLength, SizeAt, Word, StringFrom;
    OtherVendorIs(l, e, c, p, len, o, procType);
  }

  // So is a subsection for sections or symbols: one whose tag is not 1.
  lemma OtherSubsectionSkipped(l: Leb, e: Endian, c: seq<Byte>, p: nat, left: nat, v: Vendor, argType: nat -> AttrType)
    requires Terminated(c) && v.Full() && p < |c| - 1 && Number(l, c, p, |c| - 1).0 != 1
    requires var q := Number(l, c, p, |c| - 1).1; q + 4 < |c| - 1 && 0 < Word(e, c, q) <= left
    ensures var n := Word(e, c, Number(l, c, p, |c| - 1).1);
            ParseSubs(l, e, c, p, left, v, argType) == ParseSubs(l, e, c, p + n, left - n, v, argType)
  {
    hide Number;
  }

  // An attribute that is read twice has the kind of the second one, and the number and
  // the string that were read last, be it with the first one; the others stay.
  lemma ReadTwice(v: Vendor, tag: nat, x: Attr, y: Attr)
    requires v.Full() && tag < 71
    ensures var now, was := AddAttr(AddAttr(v, Tagged(tag, x)), Tagged(tag, y)), v.known[tag];
            && now.other == v.other && now.known == v.known[tag := now.known[tag]]
            && now.known[tag].kind == y.kind
            && now.known[tag].i == (if y.kind.hasInt then y.i else if x.kind.hasInt then x.i else was.i)
            && now.known[tag].s == (if y.kind.hasStr then y.s else if x.kind.hasStr then x.s else was.s)
  {
  }
}
