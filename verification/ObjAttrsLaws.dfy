// The round trip of object attribute sections: parsing what was written restores
// every attribute that is not default.

module ObjAttrsLaws {
  import opened Bytes
  import opened CLibrary
  import opened Leb128
  import opened ObjAttrs
  import opened ObjAttrsParse

  // ---------- numbers and strings ----------

  lemma NumberAt(l: Leb, c: seq<Byte>, p: nat, end: nat, v: nat)
    requires v < 0x1_0000_0000 && At(c, p, l.write(v)) && p + |l.write(v)| <= end <= |c|
    ensures Number(l, c, p, end) == (v, p + |l.write(v)|)
  {
    var w := l.write(v);
    var rest := c[p + |w|..end];
    AtRoom(c, p, w);
    assert c[p..end] == w + rest;
    assert l.read(w + rest) == (v, |w|);
  }

  // ---------- one attribute ----------

  // The type bits are those that the reader gives the tag.
  predicate Typed(t: Tagged, argType: nat -> AttrType) {
    !IsDefault(t.attr) ==> argType(t.tag) == t.attr.kind
  }

  // An attribute without the members that its type does not use.
  function Kept(a: Attr): Attr {
    Attr(a.kind, if a.kind.hasInt then a.i else 0, if a.kind.hasStr then a.s else NullPointer)
  }

  lemma TagAt(l: Leb, c: seq<Byte>, p: nat, end: nat, t: Tagged)
    requires AttrOk(t) && At(c, p, EntryBytes(l, t)) && p + |EntryBytes(l, t)| <= end <= |c|
    ensures Number(l, c, p, end) == (t.tag, p + |l.write(t.tag)|)
    ensures At(c, p + |l.write(t.tag)|, IntBytes(l, t.attr))
    ensures At(c, p + |l.write(t.tag)| + |IntBytes(l, t.attr)|, StrBytes(t.attr))
  {
    AtParts(c, p, l.write(t.tag), IntBytes(l, t.attr) + StrBytes(t.attr));
    AtParts(c, p + |l.write(t.tag)|, IntBytes(l, t.attr), StrBytes(t.attr));
    NumberAt(l, c, p, end, t.tag);
  }

  // Where the string of a written attribute starts.
  function StrPlace(l: Leb, p: nat, t: Tagged): nat { p + |l.write(t.tag)| + |IntBytes(l, t.attr)| }

  lemma NumberOfEntry(l: Leb, c: seq<Byte>, p: nat, q: nat, end: nat, t: Tagged, argType: nat -> AttrType)
    requires p < end <= |c| && t.attr.i < 0x1_0000_0000 && argType(t.tag) == t.attr.kind
    requires Number(l, c, p, end) == (t.tag, q) && At(c, q, IntBytes(l, t.attr)) && q + |IntBytes(l, t.attr)| <= end
    ensures AfterNumber(l, c, p, end, argType) == q + |IntBytes(l, t.attr)|
    ensures t.attr.kind.hasInt ==> Number(l, c, q, end).0 == t.attr.i
  {
    if t.attr.kind.hasInt {
      NumberAt(l, c, q, end, t.attr.i);
    }
  }

  lemma StringOfEntry(l: Leb, c: seq<Byte>, p: nat, t: Tagged)
    requires Terminated(c) && AttrOk(t) && !IsDefault(t.attr)
    requires At(c, p, EntryBytes(l, t)) && p + |EntryBytes(l, t)| < |c|
    ensures t.attr.kind.hasStr ==> t.attr.s.Text? && StringFrom(c, StrPlace(l, p, t)) == t.attr.s.bytes
  {
    TagAt(l, c, p, p + |EntryBytes(l, t)|, t);
    if t.attr.kind.hasStr {
      StringAt(c, StrPlace(l, p, t), t.attr.s.bytes);
    }
  }

  lemma EntryValue(l: Leb, c: seq<Byte>, p: nat, end: nat, t: Tagged, argType: nat -> AttrType)
    requires Terminated(c) && end < |c| && AttrOk(t) && !IsDefault(t.attr) && Typed(t, argType)
    requires At(c, p, EntryBytes(l, t)) && p + |EntryBytes(l, t)| <= end
    ensures p < end && EntryFrom(l, c, p, end, argType) == Tagged(t.tag, Kept(t.attr))
  {
    var q := p + |l.write(t.tag)|;
    TagAt(l, c, p, end, t);
    NumberOfEntry(l, c, p, q, end, t, argType);
    StringOfEntry(l, c, p, t);
    EntryIs(l, c, p, end, argType, t.tag, q, t.attr.i, StrPlace(l, p, t), t.attr.s);
  }

  lemma EntryIs(l: Leb, c: seq<Byte>, p: nat, end: nat, argType: nat -> AttrType, tag: nat, q: nat, i: nat, r: nat,
                s: CString)
    requires p < end <= |c| && Number(l, c, p, end) == (tag, q)
    requires argType(tag).hasInt ==> Number(l, c, q, end).0 == i
    requires AfterNumber(l, c, p, end, argType) == r
    requires argType(tag).hasStr ==> TextAt(c, r, true) == s
    ensures EntryFrom(l, c, p, end, argType) == Tagged(tag, Kept(Attr(argType(tag), i, s)))
  {
  }

  lemma EntryAt(l: Leb, c: seq<Byte>, p: nat, end: nat, t: Tagged, argType: nat -> AttrType)
    requires Terminated(c) && end < |c| && AttrOk(t) && !IsDefault(t.attr) && Typed(t, argType)
    requires At(c, p, EntryBytes(l, t)) && p + |EntryBytes(l, t)| <= end
    ensures p < end && EntryFrom(l, c, p, end, argType) == Tagged(t.tag, Kept(t.attr))
    ensures AfterEntry(l, c, p, end, argType) == p + |EntryBytes(l, t)|
  {
    EntryValue(l, c, p, end, t, argType);
    TagAt(l, c, p, end, t);
    NumberOfEntry(l, c, p, p + |l.write(t.tag)|, end, t, argType);
    StringOfEntry(l, c, p, t);
    assert |StrBytes(t.attr)| == if t.attr.kind.hasStr then |t.attr.s.bytes| + 1 else 0;
  }

  // ---------- all the attributes of a vendor ----------

  predicate AllTyped(ts: seq<Tagged>, argType: nat -> AttrType) {
    forall i {:trigger ts[i]} :: 0 <= i < |ts| ==> Typed(ts[i], argType)
  }

  // The attributes of a list that are written.
  function NotDefault(ts: seq<Tagged>): seq<Tagged> {
    if ts == [] then []
    else (if IsDefault(ts[0].attr) then [] else [Tagged(ts[0].tag, Kept(ts[0].attr))]) + NotDefault(ts[1..])
  }

  lemma EntriesUnfold(l: Leb, c: seq<Byte>, p: nat, end: nat, argType: nat -> AttrType, q: nat, t: Tagged,
                      rest: seq<Tagged>)
    requires Terminated(c) && p < end < |c| && AfterEntry(l, c, p, end, argType) == q
    requires EntryFrom(l, c, p, end, argType) == t && Entries(l, c, q, end, argType) == rest
    ensures Entries(l, c, p, end, argType) == [t] + rest
    ensures AfterEntries(l, c, p, end, argType) == AfterEntries(l, c, q, end, argType)
  {
  }

  lemma SuppressedHead(l: Leb, ts: seq<Tagged>)
    requires ts != [] && IsDefault(ts[0].attr)
    ensures FileBytes(l, ts) == FileBytes(l, ts[1..]) && NotDefault(ts) == NotDefault(ts[1..])
  {
    assert [] + FileBytes(l, ts[1..]) == FileBytes(l, ts[1..]);
    assert [] + NotDefault(ts[1..]) == NotDefault(ts[1..]);
  }

  lemma WrittenHead(l: Leb, c: seq<Byte>, p: nat, ts: seq<Tagged>)
    requires ts != [] && !IsDefault(ts[0].attr) && At(c, p, FileBytes(l, ts))
    ensures |FileBytes(l, ts)| == |EntryBytes(l, ts[0])| + |FileBytes(l, ts[1..])|
    ensures At(c, p, EntryBytes(l, ts[0])) && At(c, p + |EntryBytes(l, ts[0])|, FileBytes(l, ts[1..]))
  {
    var w, rest := EntryBytes(l, ts[0]), FileBytes(l, ts[1..]);
    assert FileBytes(l, ts) == w + rest;
    AtParts(c, p, w, rest);
  }

  lemma TailOk(ts: seq<Tagged>, argType: nat -> AttrType)
    requires ts != [] && AllOk(ts) && AllTyped(ts, argType)
    ensures AttrOk(ts[0]) && Typed(ts[0], argType) && AllOk(ts[1..]) && AllTyped(ts[1..], argType)
  {
  }

  lemma FileHead(l: Leb, c: seq<Byte>, p: nat, end: nat, argType: nat -> AttrType, q: nat, ts: seq<Tagged>)
    requires ts != [] && !IsDefault(ts[0].attr) && Terminated(c) && p < end < |c|
    requires EntryFrom(l, c, p, end, argType) == Tagged(ts[0].tag, Kept(ts[0].attr))
    requires AfterEntry(l, c, p, end, argType) == q && Entries(l, c, q, end, argType) == NotDefault(ts[1..])
    ensures Entries(l, c, p, end, argType) == NotDefault(ts)
    ensures AfterEntries(l, c, p, end, argType) == AfterEntries(l, c, q, end, argType)
  {
    EntriesUnfold(l, c, p, end, argType, q, Tagged(ts[0].tag, Kept(ts[0].attr)), NotDefault(ts[1..]));
  }

  // Reading the bytes of a list gives the list, without the suppressed ones.
  lemma {:induction false} FileAt(l: Leb, c: seq<Byte>, p: nat, end: nat, ts: seq<Tagged>, argType: nat -> AttrType)
    requires Terminated(c) && AllOk(ts) && AllTyped(ts, argType)
    requires At(c, p, FileBytes(l, ts)) && end == p + |FileBytes(l, ts)| < |c|
    ensures Entries(l, c, p, end, argType) == NotDefault(ts)
    ensures AfterEntries(l, c, p, end, argType) == end
    decreases |ts|
  {
    hide AllOk, AllTyped, AttrOk, Typed, At, EntryBytes, EntryFrom, AfterEntry;
    if ts != [] {
      TailOk(ts, argType);
      if IsDefault(ts[0].attr) {
        SuppressedHead(l, ts);
        FileAt(l, c, p, end, ts[1..], argType);
      } else {
        WrittenHead(l, c, p, ts);
        var t, q := ts[0], p + |EntryBytes(l, ts[0])|;
        FileAt(l, c, q, end, ts[1..], argType);
        EntryAt(l, c, p, end, t, argType);
        FileHead(l, c, p, end, argType, q, ts);
      }
    }
  }
}
