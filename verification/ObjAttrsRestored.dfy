// What the parser's additions make of a fresh object.

module ObjAttrsRestored {
  import opened Bytes
  import opened CLibrary
  import opened ObjAttrs
  import opened ObjAttrsParse
  import opened ObjAttrsLaws

  // A vendor's attributes in a fresh object.
  function FreshVendor(): (v: Vendor)
    ensures v.Full() && v.other == [] && forall t {:trigger v.known[t]} :: 0 <= t < |v.known| ==> v.known[t] == ZERO
  {
    Vendor(seq(NUM_KNOWN_OBJ_ATTRIBUTES, _ => ZERO), [])
  }

  // Every known attribute that is not default, and the list of the others.
  function Restored(v: Vendor): (r: Vendor)
    requires v.Full()
    ensures r.Full() && r.other == NotDefault(v.other)
    ensures forall t {:trigger r.known[t]} :: 0 <= t < |r.known| ==>
              r.known[t] == if IsKnown(t) && !IsDefault(v.known[t]) then Kept(v.known[t]) else ZERO
  {
    Vendor(seq(NUM_KNOWN_OBJ_ATTRIBUTES, t requires 0 <= t < NUM_KNOWN_OBJ_ATTRIBUTES =>
             if IsKnown(t) && !IsDefault(v.known[t]) then Kept(v.known[t]) else ZERO), NotDefault(v.other))
  }

  lemma {:induction false} NotDefaultAppend(ts: seq<Tagged>, us: seq<Tagged>)
    ensures NotDefault(ts + us) == NotDefault(ts) + NotDefault(us)
  {
    var all := ts + us;
    if ts == [] {
      assert all == us;
    } else {
      assert all[0] == ts[0] && all[1..] == ts[1..] + us;
      NotDefaultAppend(ts[1..], us);
    }
  }

  lemma {:induction false} AddAllAppend(w: Vendor, ts: seq<Tagged>, us: seq<Tagged>)
    requires w.Full()
    ensures AddAll(w, ts + us) == AddAll(AddAll(w, ts), us)
    decreases |ts|
  {
    var all := ts + us;
    if ts == [] {
      assert all == us;
    } else {
      assert all[0] == ts[0] && all[1..] == ts[1..] + us;
      AddAllAppend(AddAttr(w, ts[0]), ts[1..], us);
    }
  }

  // So far each known attribute is unset or restored.
  predicate Partial(v: Vendor, w: Vendor) {
    && v.Full() && w.Full()
    && forall t {:trigger w.known[t]} :: 0 <= t < |w.known| ==> w.known[t] == ZERO || w.known[t] == Kept(v.known[t])
  }

  lemma {:induction false} KnownAdded(v: Vendor, tags: seq<nat>, w: Vendor)
    requires Partial(v, w) && AreKnown(tags)
    ensures var r := AddAll(w, NotDefault(KnownListing(v, tags)));
            && r.Full() && r.other == w.other
            && forall t {:trigger r.known[t]} :: 0 <= t < |r.known| ==>
                 r.known[t] == if t in tags && !IsDefault(v.known[t]) then Kept(v.known[t]) else w.known[t]
    decreases |tags|
  {
    if tags != [] {
      var t0, rest := tags[0], tags[1..];
      var ts := KnownListing(v, tags);
      assert ts[1..] == KnownListing(v, rest) && ts[0] == Tagged(t0, v.known[t0]);
      var next := if IsDefault(v.known[t0]) then w else w.(known := w.known[t0 := Kept(v.known[t0])]);
      KnownFirst(v, ts, w, t0);
      KnownAdded(v, rest, next);
      assert forall t :: t in tags <==> t == t0 || t in rest;
    }
  }

  lemma KnownFirst(v: Vendor, ts: seq<Tagged>, w: Vendor, t: nat)
    requires Partial(v, w) && ts != [] && IsKnown(t) && ts[0] == Tagged(t, v.known[t])
    ensures var next := if IsDefault(v.known[t]) then w else w.(known := w.known[t := Kept(v.known[t])]);
            next.Full() && AddAll(w, NotDefault(ts)) == AddAll(next, NotDefault(ts[1..]))
  {
    var rest := NotDefault(ts[1..]);
    if IsDefault(v.known[t]) {
      assert NotDefault(ts) == rest;
    } else {
      var x := Tagged(t, Kept(v.known[t]));
      assert NotDefault(ts) == [x] + rest && ([x] + rest)[1..] == rest;
    }
  }

  // The list is in order, with tags that are not known ones.
  predicate Ordered(ts: seq<Tagged>) {
    && (forall i {:trigger ts[i]} :: 0 <= i < |ts| ==> NUM_KNOWN_OBJ_ATTRIBUTES <= ts[i].tag)
    && (forall i, j {:trigger ts[i], ts[j]} :: 0 <= i < j < |ts| ==> ts[i].tag <= ts[j].tag)
  }

  // Adding an attribute keeps the list in order, so every list that the parser or
  // the setters build is.
  lemma AddKeepsOrder(v: Vendor, t: Tagged)
    requires v.Full() && Ordered(v.other)
    ensures Ordered(AddAttr(v, t).other)
  {
    if t.tag >= NUM_KNOWN_OBJ_ATTRIBUTES {
      var n := Slot(v.other, t.tag);
      var after := AddAttr(v, t).other;
      assert forall i {:trigger after[i]} :: 0 <= i < |after| ==>
        after[i].tag == if i < n then v.other[i].tag else if i == n then t.tag else v.other[i - 1].tag;
      assert n < |v.other| ==> t.tag < v.other[n].tag;
    }
  }

  // No tag of a is above one of b.
  predicate Before(a: seq<Tagged>, b: seq<Tagged>) {
    forall i, j {:trigger a[i], b[j]} :: 0 <= i < |a| && 0 <= j < |b| ==> a[i].tag <= b[j].tag
  }

  // Attributes that come in order go to the end of the list.
  lemma {:induction false} OthersAdded(ts: seq<Tagged>, w: Vendor)
    requires w.Full() && Ordered(ts) && Before(w.other, ts)
    ensures AddAll(w, NotDefault(ts)) == w.(other := w.other + NotDefault(ts))
    decreases |ts|
  {
    if ts == [] {
      assert w.other + [] == w.other;
    } else {
      var x := Tagged(ts[0].tag, Kept(ts[0].attr));
      StillBefore(w.other, ts, x);
      if IsDefault(ts[0].attr) {
        OthersAdded(ts[1..], w);
        NotDefaultHead(ts);
      } else {
        var next := w.(other := w.other + [x]);
        OthersAdded(ts[1..], next);
        FirstAtTheEnd(w, ts, x);
        var more := NotDefault(ts[1..]);
        AddAllFirst(w, x, more, next);
        OneMore(w, x, more, next, AddAll(next, more));
        NotDefaultHead(ts);
      }
    }
  }

  lemma NotDefaultHead(ts: seq<Tagged>)
    requires ts != []
    ensures IsDefault(ts[0].attr) ==> NotDefault(ts) == NotDefault(ts[1..])
    ensures !IsDefault(ts[0].attr) ==> NotDefault(ts) == [Tagged(ts[0].tag, Kept(ts[0].attr))] + NotDefault(ts[1..])
  {
    assert [] + NotDefault(ts[1..]) == NotDefault(ts[1..]);
  }

  lemma FirstAtTheEnd(w: Vendor, ts: seq<Tagged>, x: Tagged)
    requires w.Full() && ts != [] && !IsDefault(ts[0].attr) && x == Tagged(ts[0].tag, Kept(ts[0].attr))
    requires Ordered(ts) && Before(w.other, ts)
    ensures AddAttr(w, x) == w.(other := w.other + [x])
  {
    assert forall i :: 0 <= i < |w.other| ==> w.other[i].tag <= ts[0].tag;
    AtTheEnd(w, x);
  }

  lemma OneMore(w: Vendor, x: Tagged, more: seq<Tagged>, next: Vendor, r: Vendor)
    requires next == w.(other := w.other + [x]) && r == next.(other := next.other + more)
    ensures r == w.(other := w.other + ([x] + more))
  {
    assert w.other + [x] + more == w.other + ([x] + more);
  }

  lemma StillBefore(a: seq<Tagged>, ts: seq<Tagged>, x: Tagged)
    requires Ordered(ts) && Before(a, ts) && ts != [] && x.tag == ts[0].tag
    ensures Before(a + [x], ts[1..]) && Before(a, ts[1..]) && Ordered(ts[1..])
  {
    var b, rest := a + [x], ts[1..];
    forall i, j | 0 <= i < |b| && 0 <= j < |rest| ensures b[i].tag <= rest[j].tag {
      assert rest[j] == ts[j + 1];
      assert i < |a| ==> b[i] == a[i];
    }
  }

  lemma AddAllFirst(w: Vendor, x: Tagged, more: seq<Tagged>, next: Vendor)
    requires w.Full() && AddAttr(w, x) == next
    ensures AddAll(w, [x] + more) == AddAll(next, more)
  {
    assert ([x] + more)[1..] == more;
  }

  lemma AtTheEnd(w: Vendor, x: Tagged)
    requires w.Full() && NUM_KNOWN_OBJ_ATTRIBUTES <= x.tag && x.attr == Kept(x.attr)
    requires forall i {:trigger w.other[i]} :: 0 <= i < |w.other| ==> w.other[i].tag <= x.tag
    ensures AddAttr(w, x) == w.(other := w.other + [x])
  {
    assert Slot(w.other, x.tag) == |w.other|;
    assert w.other[..|w.other|] == w.other;
  }

  // Adding a vendor's written attributes to a fresh object restores them.
  lemma AddedIsRestored(v: Vendor, tags: seq<nat>)
    requires v.Full() && Permutes(tags) && AreKnown(tags) && Ordered(v.other)
    ensures AddAll(FreshVendor(), NotDefault(Listing(v, tags))) == Restored(v)
  {
    var f, known := FreshVendor(), KnownListing(v, tags);
    NotDefaultAppend(known, v.other);
    AddAllAppend(f, NotDefault(known), NotDefault(v.other));
    KnownAdded(v, tags, f);
    var w := AddAll(f, NotDefault(known));
    OthersAdded(v.other, w);
    forall t | 0 <= t < NUM_KNOWN_OBJ_ATTRIBUTES ensures w.known[t] == Restored(v).known[t] {
      TagsAreKnown(tags, t);
    }
    assert w.known == Restored(v).known;
    assert [] + NotDefault(v.other) == NotDefault(v.other);
  }

  lemma TagsAreKnown(tags: seq<nat>, t: nat)
    requires Permutes(tags)
    ensures t in tags <==> IsKnown(t)
  {
    assert t in tags <==> t in multiset(Natural());
    if IsKnown(t) {
      assert Natural()[t - 2] == t;
    }
  }
}
