// Keeping FDEs and merging duplicate CIEs: find_merged_cie and the first loop
// of _bfd_elf_discard_section_eh_frame.

module EhFrameMerge {
  import opened Bytes
  import opened EhFrame

  // What cie_eq compares: the record, and the output section of the CIE's owner.
  datatype CieKey = CieKey(record: CieRecord, outputSection: nat)

  // cie_eq.  A CIE with the "eh" augmentation, or with more initial instructions
  // than the record holds, is not even equal to itself.
  predicate CieEq(a: CieKey, b: CieKey) {
    var r, s := a.record, b.record;
    && r.length == s.length && r.version == s.version
    && r.localPersonality == s.localPersonality
    && r.augmentation == s.augmentation && r.augmentation != EH
    && r.codeAlign == s.codeAlign && r.dataAlign == s.dataAlign && r.raColumn == s.raColumn
    && r.augmentationSize == s.augmentationSize && r.personality == s.personality
    && a.outputSection == b.outputSection
    && r.perEncoding == s.perEncoding && r.lsdaEncoding == s.lsdaEncoding
    && r.fdeEncoding == s.fdeEncoding
    && r.initialInsnLength == s.initialInsnLength <= 50
    && r.initialInstructions[..r.initialInsnLength] == s.initialInstructions[..r.initialInsnLength]
  }

  lemma CieEqSymmetric(a: CieKey, b: CieKey)
    ensures CieEq(a, b) == CieEq(b, a)
  {
  }

  lemma CieEqTransitive(a: CieKey, b: CieKey, c: CieKey)
    requires CieEq(a, b) && CieEq(b, c)
    ensures CieEq(a, c)
  {
  }

  // It is reflexive but for those two kinds.
  lemma EqualToItself(a: CieKey)
    ensures CieEq(a, a) <==> a.record.augmentation != ['e' as int, 'h' as int] && a.record.initialInsnLength <= 50
  {
  }

  // ---------- initial instructions ----------

  // What the parser stores of a CIE's initial instructions: a one-byte length, from
  // which it takes the trailing nops off again, and the first 50 bytes.
  datatype StoredInsns = StoredInsns(length: Byte, bytes: Insns)

  function StoreInsns(insns: seq<Byte>, nops: nat): StoredInsns {
    var full := (|insns| + nops) % 0x100;
    StoredInsns((full - nops) % 0x100, seq(50, i => if 0 <= i < |insns| then insns[i] else 0))
  }

  // The last two lines of cie_eq.
  predicate InsnsMatch(a: StoredInsns, b: StoredInsns) {
    a.length == b.length <= 50 && a.bytes[..a.length] == b.bytes[..b.length]
  }

  lemma StoredLength(insns: seq<Byte>, nops: nat)
    ensures StoreInsns(insns, nops).length == |insns| % 0x100
  {
  }

  lemma MatchIsEquality(a: seq<Byte>, b: seq<Byte>, m: nat, n: nat)
    requires |a| == |b| < 0x100 && InsnsMatch(StoreInsns(a, m), StoreInsns(b, n))
    ensures a == b
  {
    StoredLength(a, m);
    StoredLength(b, n);
    var x, y := StoreInsns(a, m).bytes[..|a|], StoreInsns(b, n).bytes[..|b|];
    assert forall i {:trigger a[i]} :: 0 <= i < |a| ==> a[i] == x[i] == y[i] == b[i];
  }

  // The instruction comparison tells all instruction strings of n bytes apart
  // exactly when n does not wrap around to a length that is compared.
  lemma InsnComparisonIsExact(n: nat)
    ensures (forall a, b :: |a| == |b| == n && InsnsMatch(StoreInsns(a, 0), StoreInsns(b, 0)) ==> a == b)
            <==> n < 0x100 || n % 0x100 > 50
  {
    if n < 0x100 {
      forall a, b | |a| == |b| == n && InsnsMatch(StoreInsns(a, 0), StoreInsns(b, 0)) ensures a == b {
        MatchIsEquality(a, b, 0, 0);
      }
    } else if n % 0x100 <= 50 {
      var a, b := Zeros(n), Zeros(n)[n - 1 := 1];
      assert a[n - 1] != b[n - 1];
      assert StoreInsns(a, 0).bytes == StoreInsns(b, 0).bytes;
    }
  }

  // ---------- the table ----------

  // What the relocation cookie says of a personality reference.
  datatype PersonalityRef =
    | Global(hash: nat, bindsLocal: bool)
    | Local(index: nat)
    | Lost                             // no section, or the section has no output

  // The link-wide and input-file facts that find_merged_cie consults.
  datatype Context = Context(pic: bool, canMakeRelative: bool, bfdId: nat, refs: seq<PersonalityRef>)

  // The record with its personality resolved; None if the reference is lost.
  datatype Resolved = Unresolved | Resolved(record: CieRecord, bindsLocal: bool)

  function Resolve(r: CieRecord, cx: Context): Resolved
    requires r.perEncoding != DW_EH_PE_omit ==> r.personality.RelocIndex? && r.personality.reloc < |cx.refs|
  {
    if r.perEncoding == DW_EH_PE_omit then Resolved(r, false)
    else match cx.refs[r.personality.reloc]
      case Global(h, local) => Resolved(r.(personality := GlobalSymbol(h)), local)
      case Local(i) => Resolved(r.(localPersonality := true, personality := LocalSymbol(cx.bfdId, i)), true)
      case Lost => Unresolved
  }

  // Where a CIE comes from: what the parser recorded of it, its section, and the
  // relocation context of its file.
  datatype Origin = Origin(link: CieLink, owner: Section, cx: Context)
  {
    // The personality, if any, is named by one of the file's relocations.
    predicate Ok() {
      link.FullCie? && link.record.perEncoding != DW_EH_PE_omit ==>
        link.record.personality.RelocIndex? && link.record.personality.reloc < |cx.refs|
    }

    // The key that find_merged_cie looks the CIE up with, if it gets that far.
    function Key(): (ks: seq<CieKey>)
      requires Ok()
      ensures |ks| <= 1
    {
      if link.FullCie? && Resolve(link.record, cx).Resolved?
      then [CieKey(Resolve(link.record, cx).record, owner.outputSection)]
      else []
    }
  }

  datatype Slot = Slot(record: CieRecord, cie: Entry)

  ghost predicate Listed(slots: seq<Slot>, e: Entry) {
    exists i :: 0 <= i < |slots| && slots[i].cie == e
  }

  // No two CIEs in the table are equal.
  ghost predicate SlotsApart(slots: seq<Slot>, keys: map<Entry, CieKey>) {
    && (forall i {:trigger slots[i]} :: 0 <= i < |slots| ==> slots[i].cie in keys)
    && forall i, j {:trigger slots[i], slots[j]} :: 0 <= i < j < |slots| ==>
         !CieEq(keys[slots[i].cie], keys[slots[j].cie])
  }

  // The table holds a CIE that is equal to the given key.
  ghost predicate HasEqual(slots: seq<Slot>, keys: map<Entry, CieKey>, key: CieKey) {
    exists i :: 0 <= i < |slots| && slots[i].cie in keys && CieEq(keys[slots[i].cie], key)
  }

  lemma ListedGrows(slots: seq<Slot>, s: Slot)
    ensures Listed(slots + [s], s.cie)
    ensures forall e {:trigger Listed(slots, e)} :: Listed(slots, e) ==> Listed(slots + [s], e)
  {
    assert (slots + [s])[|slots|] == s;
    forall e {:trigger Listed(slots, e)} | Listed(slots, e) ensures Listed(slots + [s], e) {
      var i :| 0 <= i < |slots| && slots[i].cie == e;
      assert (slots + [s])[i].cie == e;
    }
  }

  lemma ApartGrows(slots: seq<Slot>, keys: map<Entry, CieKey>, s: Slot, key: CieKey)
    requires SlotsApart(slots, keys) && s.cie !in keys && !HasEqual(slots, keys, key)
    ensures SlotsApart(slots + [s], keys[s.cie := key])
  {
    hide CieEq;
    var now := slots + [s];
    forall i {:trigger now[i]} | 0 <= i < |now| ensures now[i].cie in keys[s.cie := key] {
      assert i < |slots| ==> now[i] == slots[i];
    }
    forall i, j {:trigger now[i], now[j]} | 0 <= i < j < |now|
      ensures !CieEq(keys[s.cie := key][now[i].cie], keys[s.cie := key][now[j].cie])
    {
      assert now[i] == slots[i];
      assert j < |slots| ==> now[j] == slots[j];
    }
  }

  lemma ApartStays(slots: seq<Slot>, keys: map<Entry, CieKey>, e: Entry, key: CieKey)
    requires SlotsApart(slots, keys) && e !in keys
    ensures SlotsApart(slots, keys[e := key])
  {
    hide CieEq;
  }

  ghost predicate GainedOnly(was: map<Entry, Entry>, now: map<Entry, Entry>, ent: Entry) {
    now == was || (ent !in was && ent in now && now == was[ent := now[ent]])
  }

  lemma OnlyOneGained(was: map<Entry, Entry>, now: map<Entry, Entry>, ent: Entry)
    requires GainedOnly(was, now, ent)
    ensures forall f :: f in now && f !in was ==> f == ent
    ensures forall f :: f in was ==> f in now && now[f] == was[f]
  {
  }

  // hdr_info: the table of CIEs that are kept and may be merged with.
  class CieTable {
    var slots: seq<Slot>
    ghost const origin: map<Entry, Origin>  // every CIE of every input section, as parsed
    ghost const universe: set<Entry>
    ghost var keys: map<Entry, CieKey>      // the key each CIE was looked up with
    ghost var home: map<Entry, Entry>       // the input CIE of every FDE kept so far

    constructor (ghost origin: map<Entry, Origin>)
      requires forall e {:trigger e in origin} :: e in origin ==>
                 Fresh(e) && origin[e].Ok() && e.link == origin[e].link && FlagsFit(e, e.link)
      ensures this.origin == origin && universe == origin.Keys && keys == map[] && slots == [] && home == map[]
      ensures Sound()
    {
      this.origin := origin;
      universe := origin.Keys;
      slots, keys, home := [], map[], map[];
    }

    // A CIE as the parser leaves it.
    static predicate Fresh(e: Entry)
      reads e
    {
      && e.parsed.Cie? && e.removed && !e.merged && (e.link.FullCie? || e.link.NoRecord?)
      && !e.makePerEncodingRelative
    }

    // Until it is decided on a CIE has its record, and when it is kept its section.
    ghost predicate FromOrigin(e: Entry)
      reads this`keys, e`removed, e`merged, e`link
    {
      && e in origin && origin[e].Ok()
      && (Undecided(e) ==> e.link == origin[e].link)
      && (!e.removed ==> e.link == InSection(origin[e].owner))
      && (e in keys ==> origin[e].Key() == [keys[e]])
    }

    // The three states of a CIE.
    static predicate InState(e: Entry)
      reads e`removed, e`merged, e`link
    {
      && e.parsed.Cie?
      && (if !e.removed then e.link.InSection?
          else if e.merged then e.link.MergedWith?
          else e.link.FullCie? || e.link.NoRecord?)
    }

    // A merged CIE e points straight to a kept CIE with an equal key.
    ghost predicate Flat(e: Entry, target: Entry)
      reads this`keys, target`removed
    {
      e in keys && target in keys && target in universe && !target.removed && CieEq(keys[target], keys[e])
    }

    // A slot is a kept CIE under its own key.
    ghost predicate SlotOk(s: Slot)
      reads this`keys, s.cie`removed, s.cie`link
    {
      && s.cie in keys && s.cie in universe && !s.cie.removed && s.cie.link.InSection?
      && keys[s.cie] == CieKey(s.record, s.cie.link.owner.outputSection)
    }

    // A CIE in one of the three states; once it has been looked up it is in the table
    // or merged with one that is.
    ghost predicate EntryOk(e: Entry)
      requires universe == origin.Keys && keys.Keys <= universe
      reads this`slots, this`keys, universe`removed, universe`merged, universe`link, e`removed, e`merged, e`link
    {
      && InState(e) && FromOrigin(e)
      && (e.removed && e.merged ==> e.link.target in universe && Flat(e, e.link.target))
      && (e in keys ==> if e.removed then e.merged else Listed(slots, e))
    }

    ghost predicate Valid()
      reads this`slots, this`keys, universe`removed, universe`merged, universe`link
    {
      && universe == origin.Keys && keys.Keys <= universe
      && (forall e {:trigger e in universe} :: e in universe ==> EntryOk(e))
      && (forall i {:trigger slots[i]} :: 0 <= i < |slots| ==> slots[i].cie in universe && SlotOk(slots[i]))
      && SlotsApart(slots, keys)
    }

    // The CIE that stands for e in the output once e has been decided on.
    static function Representative(e: Entry): Entry
      requires InState(e) && (e.removed ==> e.merged)
      reads e`removed, e`merged, e`link
    {
      if !e.removed then e else e.link.target
    }

    // htab_find_slot_with_hash, without the insertion: |slots| if no slot matches.
    method FindSlot(key: CieKey) returns (n: nat)
      requires Valid()
      ensures n <= |slots| && (n < |slots| <==> HasEqual(slots, keys, key))
      ensures n < |slots| ==> slots[n].cie in keys && slots[n].cie in universe && CieEq(keys[slots[n].cie], key)
    {
      hide CieEq, FromOrigin, InState, Flat, SlotsApart, Listed;
      n := 0;
      while n < |slots|
        invariant n <= |slots|
        invariant forall i :: 0 <= i < n ==> !CieEq(keys[slots[i].cie], key)
      {
        assert SlotOk(slots[n]);
        if CieEq(CieKey(slots[n].record, slots[n].cie.link.owner.outputSection), key) {
          return;
        }
        n := n + 1;
      }
    }

    // "Assume we will need to keep CIE_INF."
    method Keep(e: Entry, sec: Section)
      requires Valid() && e in universe && Undecided(e) && sec == origin[e].owner
      modifies e`removed, e`link
      ensures Valid() && e !in keys
      ensures !e.removed && e.link == InSection(sec)
    {
      hide CieEq, Origin.Key, Origin.Ok, SlotsApart, Listed;
      e.removed := false;
      e.link := InSection(sec);
      assert forall f :: f in universe && f.removed && f.merged ==> f.link.target in keys && f.link.target != e;
    }

    // "Keep CIE_INF and record it in the hash table."
    method Record(e: Entry, record: CieRecord)
      requires Valid() && e in universe && e !in keys && !e.removed
      requires origin[e].Key() == [CieKey(record, e.link.owner.outputSection)]
      requires !HasEqual(slots, keys, CieKey(record, e.link.owner.outputSection))
      modifies this`slots, this`keys
      ensures Valid()
      ensures slots == old(slots) + [Slot(record, e)]
      ensures keys == old(keys)[e := CieKey(record, e.link.owner.outputSection)]
    {
      hide CieEq, Origin.Key, Origin.Ok, SlotsApart, Listed, HasEqual;
      ghost var key := CieKey(record, e.link.owner.outputSection);
      ApartGrows(slots, keys, Slot(record, e), key);
      ListedGrows(slots, Slot(record, e));
      slots := slots + [Slot(record, e)];
      keys := keys[e := key];
    }

    // e is neither in the table nor what another CIE was merged with.
    ghost predicate Loose(e: Entry)
      reads this`slots, universe`removed, universe`merged, universe`link
    {
      && (forall i {:trigger slots[i]} :: 0 <= i < |slots| ==> slots[i].cie != e)
      && (forall f {:trigger f in universe} :: f in universe && f.removed && f.merged ==>
            f.link.MergedWith? && f.link.target != e)
    }

    // "Merge CIE_INF with NEW_CIE->CIE_INF."
    method MergeInto(e: Entry, target: Entry, ghost key: CieKey)
      requires Valid() && e in universe && e !in keys && !e.removed && Loose(e) && origin[e].Key() == [key]
      requires target in keys && target in universe && target != e && !target.removed && CieEq(keys[target], key)
      modifies this`keys, e`removed, e`merged, e`link
      ensures Valid() && keys == old(keys)[e := key]
      ensures e.removed && e.merged && e.link == MergedWith(target)
    {
      hide CieEq, Origin.Key, Origin.Ok, SlotsApart, Listed, EntryOk, FromOrigin;
      ApartStays(slots, keys, e, key);
      KeptLink(e);
      UniverseIsCies();
      e.removed := true;
      e.merged := true;
      e.link := MergedWith(target);
      keys := keys[e := key];
      MergedIsOk(e, target);
      assert forall f {:trigger EntryStays(e, f)} :: f in universe && f != e ==> EntryStays(e, f);
      assert forall f {:trigger f in universe} :: f in universe && f != e ==> EntryStays(e, f);
    }

    lemma MergedIsOk(e: Entry, target: Entry)
      requires universe == origin.Keys && keys.Keys <= universe && e in keys && target in keys
      requires e.parsed.Cie? && e.removed && e.merged && e.link == MergedWith(target) && !target.removed
      requires CieEq(keys[target], keys[e]) && origin[e].Ok() && origin[e].Key() == [keys[e]]
      ensures EntryOk(e)
    {
      hide CieEq, Origin.Key, Origin.Ok, Listed;
    }

    // Merging e does not concern f.
    twostate predicate EntryStays(e: Entry, f: Entry)
      requires universe == origin.Keys && old(keys).Keys <= universe && keys.Keys <= universe
      requires f in universe && f != e && e !in old(keys) && e in keys && keys == old(keys)[e := keys[e]]
               && slots == old(slots)
      requires old(EntryOk(f) && Loose(e)) && OthersSame(e)
      reads this`slots, this`keys, universe`removed, universe`merged, universe`link
      ensures EntryStays(e, f) && EntryOk(f)
    {
      hide CieEq, Origin.Key, Origin.Ok, Listed;
      true
    }

    // Everything about the entries other than e that a later call depends on.
    twostate predicate OthersSame(e: Entry)
      reads universe`removed, universe`merged, universe`link
    {
      forall f {:trigger f in universe} :: f in universe && f != e ==>
        f.removed == old(f.removed) && f.merged == old(f.merged) && f.link == old(f.link)
    }

    method PassLsdaOn(e: Entry, target: Entry)
      modifies target`makeLsdaRelative
      ensures target.makeLsdaRelative == (old(target.makeLsdaRelative) || old(e.makeLsdaRelative))
    {
      if e.makeLsdaRelative {
        target.makeLsdaRelative := true;
      }
    }

    // The branch for a CIE that the table has an equal one for.
    method MergeWithSlot(e: Entry, n: nat, ghost key: CieKey) returns (r: Entry)
      requires Valid() && e in universe && e !in keys && !e.removed && origin[e].Key() == [key]
      requires n < |slots| && slots[n].cie in keys && CieEq(keys[slots[n].cie], key)
      modifies this`keys, e`removed, e`merged, e`link, {slots[n].cie}`makeLsdaRelative
      ensures Valid() && keys == old(keys)[e := key] && r == old(slots[n].cie) && r in keys && r in universe && r != e
              && !r.removed
      ensures e.removed && e.merged && e.link == MergedWith(r) && CieEq(keys[r], key)
      ensures r.makeLsdaRelative == (old(r.makeLsdaRelative) || old(e.makeLsdaRelative))
    {
      hide CieEq, Origin.Key, Origin.Ok, SlotsApart, Listed;
      r := slots[n].cie;
      assert SlotOk(slots[n]);
      assert Loose(e) && r != e;
      PassLsdaOn(e, r);
      MergeInto(e, r, key);
    }

    lemma KeptLink(e: Entry)
      requires Valid() && e in universe && !e.removed
      ensures e in origin && origin[e].Ok() && e.link == InSection(origin[e].owner)
    {
    }

    // "See if we can merge this CIE with an earlier one."
    method LookUp(e: Entry, record: CieRecord) returns (r: Entry)
      requires Valid() && e in universe && e !in keys && !e.removed
      requires origin[e].Key() == [CieKey(record, e.link.owner.outputSection)]
      modifies this`slots, this`keys, e`removed, e`merged, e`link, universe`makeLsdaRelative
      ensures Valid() && OthersSame(e)
      ensures keys == old(keys)[e := CieKey(record, old(e.link.owner.outputSection))]
      ensures (e.removed ==> e.merged) && r == Representative(e)
      ensures r in keys && r in universe && !r.removed && (r == e || CieEq(keys[r], keys[e]))
      ensures r == e ==> e.link == old(e.link)
      ensures r != e <==> old(HasEqual(slots, keys, CieKey(record, e.link.owner.outputSection)))
      ensures slots == if r == e then old(slots) + [Slot(record, e)] else old(slots)
      ensures r.makeLsdaRelative == (old(r.makeLsdaRelative) || old(e.makeLsdaRelative))
      ensures forall f :: f in universe && f != r ==> f.makeLsdaRelative == old(f.makeLsdaRelative)
    {
      hide CieEq, Origin.Key, Origin.Ok, Valid, HasEqual;
      KeptLink(e);
      ghost var key := CieKey(record, e.link.owner.outputSection);
      var n := FindSlot(CieKey(record, e.link.owner.outputSection));
      if n == |slots| {
        Record(e, record);
        r := e;
      } else {
        r := MergeWithSlot(e, n, key);
      }
    }

    static predicate Undecided(e: Entry)
      reads e`removed, e`merged
    {
      e.removed && !e.merged
    }

    // The CIE's personality pointer is absolute, binds locally and can be made
    // pc-relative.
    static predicate PersonalityToRelative(record: CieRecord, cx: Context)
      requires record.perEncoding != DW_EH_PE_omit ==>
                 record.personality.RelocIndex? && record.personality.reloc < |cx.refs|
    {
      && record.perEncoding != DW_EH_PE_omit && Application(record.perEncoding) == DW_EH_PE_absptr
      && Resolve(record, cx).Resolved? && Resolve(record, cx).bindsLocal
      && cx.pic && cx.canMakeRelative
    }

    // "Work out the address of personality routine, or at least enough info."
    method WorkOutPersonality(e: Entry, record: CieRecord, cx: Context) returns (resolved: Resolved)
      requires record.perEncoding != DW_EH_PE_omit ==>
                 record.personality.RelocIndex? && record.personality.reloc < |cx.refs|
      modifies e`makePerEncodingRelative, e`perEncodingRelative
      ensures resolved == Resolve(record, cx)
      ensures e.makePerEncodingRelative == (PersonalityToRelative(record, cx) || old(e.makePerEncodingRelative))
      ensures e.perEncodingRelative == (PersonalityToRelative(record, cx) || old(e.perEncodingRelative))
    {
      resolved := Resolve(record, cx);
      if record.perEncoding != DW_EH_PE_omit && resolved.Resolved? {
        if resolved.bindsLocal && cx.pic && Application(record.perEncoding) == DW_EH_PE_absptr && cx.canMakeRelative {
          e.makePerEncodingRelative := true;
          e.perEncodingRelative := true;
        }
      }
    }

    lemma AsParsed(e: Entry)
      requires Valid() && e in universe && Undecided(e)
      ensures universe == origin.Keys && e in origin && origin[e].Ok() && e.link == origin[e].link
      ensures e.link.FullCie? || e.link.NoRecord?
    {
    }

    // find_merged_cie, once it is known that e has not been decided on.
    method Decide(e: Entry, sec: Section, cx: Context) returns (r: Entry)
      requires Valid() && e in universe && Undecided(e) && origin[e].owner == sec && origin[e].cx == cx
      modifies this`slots, this`keys, e`removed, e`merged, e`link, universe`makeLsdaRelative
      modifies e`makePerEncodingRelative, e`perEncodingRelative
      ensures Valid() && OthersSame(e)
      ensures !Undecided(e) && r == Representative(e) && r in universe && !r.removed
      ensures Decided(e, r, sec, cx)
    {
      hide CieEq, Valid, HasEqual, FromOrigin, PersonalityToRelative;
      AsParsed(e);
      var full := e.link;
      Keep(e, sec);
      if full.NoRecord? {
        return e;
      }
      var resolved := WorkOutPersonality(e, full.record, cx);
      if resolved.Unresolved? {
        return e;
      }
      assert origin[e].Key() == [CieKey(resolved.record, sec.outputSection)];
      r := LookUp(e, resolved.record);
    }

    // How find_merged_cie decides on e: it is merged exactly when the table holds
    // an equal CIE, and otherwise kept and, if it has a key, added to the table.
    twostate predicate Decided(e: Entry, r: Entry, sec: Section, cx: Context)
      requires old(Valid() && e in universe && Undecided(e)) && origin[e].owner == sec && origin[e].cx == cx
      reads this, e, r, universe
    {
      var ks := origin[e].Key();
      && keys == (if ks == [] then old(keys) else old(keys)[e := ks[0]])
      && slots == (if ks == [] || r != e then old(slots)
                   else old(slots) + [Slot(Resolve(old(e.link.record), cx).record, e)])
      && (r != e <==> ks != [] && old(HasEqual(slots, keys, ks[0])))
      && (r != e ==> r in keys && CieEq(keys[r], keys[e]))
      && (r == e ==> e.link == InSection(sec))
      // The encodings that the write pass will turn pc-relative.
      && (var toRelative := old(e.link.FullCie? && PersonalityToRelative(e.link.record, cx));
          && e.makePerEncodingRelative == (toRelative || old(e.makePerEncodingRelative))
          && e.perEncodingRelative == (toRelative || old(e.perEncodingRelative)))
      && r.makeLsdaRelative == (old(r.makeLsdaRelative) || (r != e && old(e.makeLsdaRelative)))
      && (forall f :: f in universe && f != r ==> f.makeLsdaRelative == old(f.makeLsdaRelative))
    }

    // The write pass will convert only encodings that the parser has found: an absolute
    // LSDA encoding, and a personality encoding that is absolute, if it is to be made
    // pc-relative, or else pc-relative.  A pc-relative one is always moved.
    static predicate FlagsFit(e: Entry, link: CieLink)
      reads e`makeLsdaRelative, e`makePerEncodingRelative, e`perEncodingRelative
    {
      && (e.makeLsdaRelative ==> link.FullCie? && Application(link.record.lsdaEncoding) == DW_EH_PE_absptr)
      && (e.makePerEncodingRelative ==> e.perEncodingRelative)
      && (e.perEncodingRelative ==>
            && link.FullCie?
            && Application(link.record.perEncoding)
               == if e.makePerEncodingRelative then DW_EH_PE_absptr else DW_EH_PE_pcrel)
      && (link.FullCie? && Application(link.record.perEncoding) == DW_EH_PE_pcrel ==> e.perEncodingRelative)
    }

    // No run-time relocation is needed of an absolute personality pointer to a symbol
    // that is bound in a shared link, local to the file or to the output.
    static predicate Relocatable(o: Origin)
      requires o.Ok()
    {
      && o.link.FullCie? && o.link.record.perEncoding != DW_EH_PE_omit
      && o.link.record.perEncoding / 0x10 % 8 == 0 && o.cx.pic && o.cx.canMakeRelative
      && match o.cx.refs[o.link.record.personality.reloc]
         case Global(_, bindsLocal) => bindsLocal
         case Local(_) => true
         case Lost => false
    }

    // Those are made pc-relative of the CIEs that are decided on.
    ghost predicate TurnedOk(e: Entry)
      reads e`makePerEncodingRelative, e`removed, e`merged
    {
      && e in origin && origin[e].Ok()
      && (e.makePerEncodingRelative <==> !Undecided(e) && Relocatable(origin[e]))
    }

    // A merged CIE has passed on what its FDEs ask for.
    ghost predicate PassedOk(e: Entry)
      reads e`removed, e`merged, e`link, e`makeLsdaRelative, universe`makeLsdaRelative
    {
      e.removed && e.merged && e.link.MergedWith? && e.link.target in universe && e.makeLsdaRelative ==>
        e.link.target.makeLsdaRelative
    }

    // A CIE that is decided on has been looked up, if it can be compared.
    ghost predicate KeyedOk(e: Entry)
      reads this`keys, e`removed, e`merged
    {
      e in origin && origin[e].Ok() && (!Undecided(e) && origin[e].Key() != [] ==> e in keys)
    }

    ghost predicate FlagOk(e: Entry)
      reads e`makeLsdaRelative, e`makePerEncodingRelative, e`perEncodingRelative
    {
      e in origin && FlagsFit(e, origin[e].link)
    }

    ghost predicate AllFlags()
      reads universe`makeLsdaRelative, universe`makePerEncodingRelative, universe`perEncodingRelative
    {
      forall e {:trigger e in universe} :: e in universe ==> FlagOk(e)
    }

    ghost predicate AllTurned()
      reads universe`makePerEncodingRelative, universe`removed, universe`merged
    {
      forall e {:trigger e in universe} :: e in universe ==> TurnedOk(e)
    }

    ghost predicate AllKeyed()
      reads this`keys, universe`removed, universe`merged
    {
      forall e {:trigger e in universe} :: e in universe ==> KeyedOk(e)
    }

    ghost predicate AllPassed()
      reads universe`removed, universe`merged, universe`link, universe`makeLsdaRelative
    {
      forall e {:trigger e in universe} :: e in universe ==> PassedOk(e)
    }

    ghost predicate FlagsOk()
      reads universe`makeLsdaRelative, universe`makePerEncodingRelative, universe`perEncodingRelative
      reads this`keys, universe`removed, universe`merged, universe`link
    {
      AllFlags() && AllTurned() && AllKeyed() && AllPassed()
    }

    // Equal CIEs have the same LSDA encoding.
    lemma SameLsda(e: Entry, r: Entry)
      requires Valid() && e in universe && r in universe
               && (r != e ==> e in keys && r in keys && CieEq(keys[r], keys[e]))
      ensures e in origin && r in origin
      ensures r != e ==> origin[e].link.FullCie? && origin[r].link.FullCie?
                         && origin[r].link.record.lsdaEncoding == origin[e].link.record.lsdaEncoding
    {
    }

    // The personality flags of the other CIEs stay as they are.
    twostate predicate OthersTurned(e: Entry)
      reads universe`makePerEncodingRelative, universe`perEncodingRelative
    {
      forall f {:trigger f in universe} :: f in universe && f != e ==>
        f.makePerEncodingRelative == old(f.makePerEncodingRelative)
        && f.perEncodingRelative == old(f.perEncodingRelative)
    }

    // Deciding on e keeps that, also where e's LSDA conversion is passed on to r.
    twostate predicate FlagsStay(e: Entry, r: Entry, sec: Section, cx: Context)
      requires old(Valid() && e in universe && Undecided(e)) && origin[e].owner == sec && origin[e].cx == cx
      requires Valid() && r in universe && Decided(e, r, sec, cx) && old(AllFlags()) && OthersTurned(e)
      reads this, e, r, universe
      ensures FlagsStay(e, r, sec, cx) && AllFlags()
    {
      hide CieEq, Listed, SlotsApart, HasEqual, TurnedOk, PassedOk, KeyedOk;
      SameLsda(e, r);
      true
    }

    twostate predicate TurnedStay(e: Entry, r: Entry, sec: Section, cx: Context)
      requires old(Valid() && e in universe && Undecided(e)) && origin[e].owner == sec && origin[e].cx == cx
      requires Valid() && Decided(e, r, sec, cx) && old(AllTurned()) && OthersTurned(e) && OthersSame(e)
      requires !Undecided(e)
      reads this, e, r, universe
      ensures TurnedStay(e, r, sec, cx) && AllTurned()
    {
      hide CieEq, Listed, SlotsApart, HasEqual;
      true
    }

    twostate predicate KeyedStay(e: Entry, r: Entry, sec: Section, cx: Context)
      requires old(Valid() && e in universe && Undecided(e)) && origin[e].owner == sec && origin[e].cx == cx
      requires Valid() && Decided(e, r, sec, cx) && old(AllKeyed()) && OthersSame(e)
      reads this, e, r, universe
      ensures KeyedStay(e, r, sec, cx) && AllKeyed()
    {
      hide CieEq, Listed, SlotsApart, HasEqual, Origin.Key;
      true
    }

    twostate predicate PassedStay(e: Entry, r: Entry, sec: Section, cx: Context)
      requires old(Valid() && e in universe && Undecided(e)) && origin[e].owner == sec && origin[e].cx == cx
      requires Valid() && Decided(e, r, sec, cx) && old(AllPassed()) && OthersSame(e)
      requires !Undecided(e) && r == Representative(e)
      reads this, e, r, universe
      ensures PassedStay(e, r, sec, cx) && AllPassed()
    {
      hide CieEq, Listed, SlotsApart, HasEqual;
      true
    }

    // find_merged_cie
    method FindMergedCie(e: Entry, sec: Section, cx: Context) returns (r: Entry)
      requires Valid() && e in universe && origin[e].owner == sec && origin[e].cx == cx
      modifies this`slots, this`keys, e`removed, e`merged, e`link, universe`makeLsdaRelative
      modifies e`makePerEncodingRelative, e`perEncodingRelative
      ensures Valid() && OthersSame(e)
      ensures !Undecided(e) && r == Representative(e) && r in universe && !r.removed
      ensures old(Undecided(e)) ==> Decided(e, r, sec, cx)
      // A CIE that was decided on before keeps its answer, and nothing changes.
      ensures !old(Undecided(e)) ==>
                && r == old(Representative(e)) && keys == old(keys) && slots == old(slots)
                && (forall f :: f in universe ==> unchanged(f))
    {
      if !e.removed {
        return e;
      }
      if e.merged {
        return e.link.target;
      }
      r := Decide(e, sec, cx);
    }

    // Every kept FDE refers to the representative of the CIE it had in its file.
    ghost predicate FdesRefer()
      reads this`home, home.Keys`removed, home.Keys`cieInf, universe`removed, universe`merged, universe`link
    {
      forall f {:trigger home[f]} :: f in home ==> home[f] in universe && Refers(f, home[f])
    }

    ghost predicate Refers(f: Entry, cie: Entry)
      reads f`removed, f`cieInf, cie`removed, cie`merged, cie`link
    {
      && f.parsed.Fde? && !f.parsed.Terminator() && !f.removed
      && InState(cie) && !Undecided(cie) && f.cieInf == Representative(cie)
    }

    // What the loop needs of an entry that it has not reached: an FDE that the
    // parser attached to a CIE is still slated for removal.
    ghost predicate Ready(f: Entry, sec: Section, cx: Context)
      reads this`home, f`removed, f`cieInf, universe`removed, universe`merged, universe`link
    {
      && f.parsed.WellFormed()
      && (f.parsed.Fde? && !f.parsed.Terminator() ==> f !in home && f.removed)
      && (f.parsed.Fde? && !f.parsed.Terminator() && f.cieInf != null ==>
            && f.cieInf in universe && f.cieInf in sec.entries
            && f.cieInf in origin && origin[f.cieInf].owner == sec && origin[f.cieInf].cx == cx)
    }

    lemma UniverseIsCies()
      requires Valid()
      ensures forall e {:trigger e in universe} :: e in universe ==> e.parsed.Cie?
    {
    }

    lemma KnownState(cie: Entry)
      requires Valid() && cie in universe
      ensures InState(cie)
    {
    }

    // CIEs that have been decided on stay as they are, and the others keep their
    // parsed record.
    twostate predicate OnlyDecides()
      reads universe`removed, universe`merged, universe`link
    {
      forall f {:trigger f in universe} :: f in universe && (old(!Undecided(f)) || Undecided(f)) ==>
        f.removed == old(f.removed) && f.merged == old(f.merged) && f.link == old(f.link)
    }

    // Only CIEs of this section are decided on.
    twostate predicate OnlyIn(sec: Section)
      reads universe`removed, universe`merged, universe`link
    {
      forall f {:trigger f in universe} :: f in universe && f !in sec.entries ==>
        f.removed == old(f.removed) && f.merged == old(f.merged) && f.link == old(f.link)
    }

    ghost predicate IsUsed(e: Entry)
      reads this`home, home.Keys`cieInf
    {
      exists f :: f in home && f.cieInf == e
    }

    // Only CIEs that FDEs refer to are kept; r may be a new one.
    ghost predicate AllUsed(r: Entry?)
      reads this`home, home.Keys`cieInf, universe`removed
    {
      forall e {:trigger e in universe} :: e in universe && !e.removed && e != r ==> IsUsed(e)
    }

    // Deciding on e keeps that, but for its stand-in.
    twostate predicate UsedRest(e: Entry, r: Entry)
      requires old(AllUsed(null)) && OthersSame(e) && InState(e) && !Undecided(e) && r == Representative(e)
      requires home == old(home) && forall f {:trigger f in home} :: f in home ==> f.cieInf == old(f.cieInf)
      reads this`home, home.Keys`cieInf, universe`removed, universe`merged, universe`link, e`removed, e`merged, e`link
      ensures UsedRest(e, r) && AllUsed(r)
    {
      assert forall f {:trigger f in universe} :: f in universe && f != e ==> old(IsUsed(f)) ==> IsUsed(f);
      true
    }

    // Pointing ent at it makes up for that.
    twostate predicate UsedWith(ent: Entry, r: Entry)
      requires old(AllUsed(r)) && ent !in old(home) && ent in home && ent.cieInf == r
      requires home == old(home)[ent := home[ent]]
      requires forall f {:trigger f in old(home)} :: f in old(home) ==> f.cieInf == old(f.cieInf)
      requires forall f {:trigger f in universe} :: f in universe ==> f.removed == old(f.removed)
      reads this`home, home.Keys`cieInf, universe`removed
      ensures UsedWith(ent, r) && AllUsed(null)
    {
      assert IsUsed(r);
      assert forall f {:trigger f in universe} :: f in universe && old(IsUsed(f)) ==> IsUsed(f);
      true
    }

    // What holds between the steps of the first loop.
    ghost predicate Sound()
      reads this`slots, this`keys, this`home, home.Keys`removed, home.Keys`cieInf
      reads universe`removed, universe`merged, universe`link
      reads universe`makeLsdaRelative, universe`makePerEncodingRelative, universe`perEncodingRelative
    {
      NearlySound(null)
    }

    // And before an FDE is pointed at the CIE r.
    ghost predicate NearlySound(r: Entry?)
      reads this`slots, this`keys, this`home, home.Keys`removed, home.Keys`cieInf
      reads universe`removed, universe`merged, universe`link
      reads universe`makeLsdaRelative, universe`makePerEncodingRelative, universe`perEncodingRelative
    {
      Valid() && FdesRefer() && FlagsOk() && AllUsed(r)
    }

    lemma HomeApart()
      requires Sound()
      ensures universe == origin.Keys
      ensures forall f {:trigger home[f]} :: f in home ==> f !in universe
    {
    }

    // find_merged_cie keeps the references of the FDEs kept so far.
    method FindForFde(e: Entry, sec: Section, cx: Context) returns (r: Entry)
      requires Sound() && e in universe && e in sec.entries
      requires origin[e].owner == sec && origin[e].cx == cx
      modifies this`slots, this`keys
      modifies universe`removed, universe`merged, universe`link, universe`makeLsdaRelative,
               universe`makePerEncodingRelative, universe`perEncodingRelative
      ensures NearlySound(r) && OnlyDecides() && OnlyIn(sec)
      ensures !Undecided(e) && r == Representative(e)
    {
      hide CieEq, Valid, Decided, AllUsed, AllFlags, AllTurned, AllKeyed, AllPassed, FromOrigin, Origin.Ok, Origin.Key;
      HomeApart();
      r := FindMergedCie(e, sec, cx);
      assert old(Undecided(e)) ==> FlagsStay(e, r, sec, cx);
      assert old(Undecided(e)) ==> TurnedStay(e, r, sec, cx);
      assert old(Undecided(e)) ==> PassedStay(e, r, sec, cx);
      assert old(Undecided(e)) ==> KeyedStay(e, r, sec, cx);
      KnownState(e);
      assert UsedRest(e, r);
    }

    // "ent->removed = 0; ... ent->u.fde.cie_inf = ..."
    method PointAt(ent: Entry, cie: Entry)
      requires NearlySound(cie) && ent !in home && ent.parsed.Fde? && !ent.parsed.Terminator()
      requires ent.cieInf != null && ent.cieInf in universe && !Undecided(ent.cieInf)
               && cie == Representative(ent.cieInf)
      modifies this`home, ent`removed, ent`cieInf
      ensures Sound()
      ensures home == old(home)[ent := old(ent.cieInf)] && !ent.removed && ent.cieInf == cie
    {
      hide Valid, CieEq, AllFlags, AllTurned, AllKeyed, AllPassed, AllUsed;
      UniverseIsCies();
      KnownState(ent.cieInf);
      ent.removed := false;
      home := home[ent := ent.cieInf];
      ent.cieInf := cie;
      assert UsedWith(ent, cie);
    }

    // "Remove any others."
    method KeepTerminator(ent: Entry, sec: Section)
      requires Sound() && ent.parsed.WellFormed() && ent.parsed.Terminator()
      modifies ent`removed
      ensures Sound() && ent.removed == sec.hasNext
    {
      hide Valid, CieEq, AllFlags, AllTurned, AllKeyed, AllPassed, AllUsed;
      UniverseIsCies();
      ent.removed := sec.hasNext;
    }

    // One iteration of the first loop: a terminator is kept only in the last
    // section, and a live FDE is kept and pointed at the CIE that stands for its own.
    method KeepEntry(ent: Entry, live: bool, sec: Section, cx: Context)
      requires Sound() && Ready(ent, sec, cx)
      modifies this`slots, this`keys, this`home, ent`removed, ent`cieInf
      modifies universe`removed, universe`merged, universe`link, universe`makeLsdaRelative,
               universe`makePerEncodingRelative, universe`perEncodingRelative
      ensures Sound() && OnlyDecides() && OnlyIn(sec)
      ensures Sifted(ent, live, sec.hasNext, old(ent.cieInf))
      ensures forall f {:trigger Ready(f, sec, cx)} :: f in sec.entries && f != ent && old(Ready(f, sec, cx)) ==>
                Ready(f, sec, cx)
      ensures HomeGains(ent)
    {
      hide Valid, CieEq, AllFlags, AllTurned, AllKeyed, AllPassed, AllUsed;
      UniverseIsCies();
      if ent.parsed.Terminator() {
        KeepTerminator(ent, sec);
      } else if ent.parsed.Fde? && ent.cieInf != null {
        if live {
          var cie := FindForFde(ent.cieInf, sec, cx);
          PointAt(ent, cie);
        }
      }
    }

    // What the first loop does to an entry whose CIE was cie.
    ghost predicate Sifted(e: Entry, live: bool, hasNext: bool, cie: Entry?)
      reads this`home, e`removed, e`cieInf
    {
      if e.parsed.Terminator() then e.removed == hasNext
      else if e.parsed.Cie? then true
      else if cie != null && live then e in home && home[e] == cie
      else e !in home && e.removed && e.cieInf == cie
    }

    // Before iteration k the entries from k on are as parsed, and those before it are
    // done; cies[j] is the CIE that the parser attached to entry j.
    ghost predicate AllReady(sec: Section, cx: Context, cies: seq<Entry?>, k: nat)
      requires |cies| == |sec.entries|
      reads this`home, sec.entries`removed, sec.entries`cieInf, universe`removed, universe`merged, universe`link
    {
      forall j {:trigger sec.entries[j]} :: k <= j < |sec.entries| ==>
        Ready(sec.entries[j], sec, cx) && sec.entries[j].cieInf == cies[j]
    }

    ghost predicate AllSifted(sec: Section, live: seq<bool>, cies: seq<Entry?>, k: nat)
      requires k <= |live| == |cies| == |sec.entries|
      reads this`home, sec.entries`removed, sec.entries`cieInf
    {
      forall j {:trigger sec.entries[j]} :: 0 <= j < k ==> Sifted(sec.entries[j], live[j], sec.hasNext, cies[j])
    }

    // The FDEs kept so far stay kept, and ent may be a new one.
    twostate predicate HomeGains(ent: Entry)
      reads this`home
    {
      GainedOnly(old(home), home, ent)
    }

    // The FDEs kept so far stay kept, and the new ones are this section's.
    twostate predicate HomeGrows(sec: Section)
      reads this`home
    {
      && (forall f :: f in home && f !in old(home) ==> f in sec.entries)
      && forall f :: f in old(home) ==> f in home && home[f] == old(home[f])
    }

    ghost predicate AllWellFormed(sec: Section) {
      forall j {:trigger sec.entries[j]} :: 0 <= j < |sec.entries| ==> sec.entries[j].parsed.WellFormed()
    }

    // Iteration k.
    method KeepNext(sec: Section, live: seq<bool>, cx: Context, k: nat, ghost cies: seq<Entry?>)
      requires Sound() && sec.Distinct() && k < |live| == |sec.entries| == |cies|
      requires AllReady(sec, cx, cies, k) && AllSifted(sec, live, cies, k) && AllWellFormed(sec)
      modifies this`slots, this`keys, this`home, {sec.entries[k]}`removed, {sec.entries[k]}`cieInf
      modifies universe`removed, universe`merged, universe`link, universe`makeLsdaRelative,
               universe`makePerEncodingRelative, universe`perEncodingRelative
      ensures Sound() && OnlyDecides() && OnlyIn(sec) && HomeGrows(sec)
      ensures AllReady(sec, cx, cies, k + 1) && AllSifted(sec, live, cies, k + 1)
    {
      hide CieTable.Valid, CieTable.FdesRefer, CieTable.FlagsOk, CieTable.Ready, CieTable.OnlyDecides, CieTable.OnlyIn,
           GainedOnly;
      UniverseIsCies();
      KeepEntry(sec.entries[k], live[k], sec, cx);
      OnlyOneGained(old(home), home, sec.entries[k]);
    }

    // The first loop of _bfd_elf_discard_section_eh_frame.
    method KeepEntries(sec: Section, live: seq<bool>, cx: Context, ghost cies: seq<Entry?>)
      requires Sound() && sec.Distinct() && |live| == |sec.entries| == |cies|
      requires AllReady(sec, cx, cies, 0) && AllWellFormed(sec)
      modifies this`slots, this`keys, this`home, sec.entries`removed, sec.entries`cieInf
      modifies universe`removed, universe`merged, universe`link, universe`makeLsdaRelative,
               universe`makePerEncodingRelative, universe`perEncodingRelative
      ensures Sound() && OnlyDecides() && OnlyIn(sec) && HomeGrows(sec)
      ensures AllSifted(sec, live, cies, |live|)
    {
      hide CieTable.Sound, CieEq, CieTable.Refers, CieTable.Ready, CieTable.Sifted, CieTable.AllReady,
           CieTable.AllWellFormed;
      for k := 0 to |sec.entries|
        invariant Sound() && OnlyDecides() && OnlyIn(sec) && HomeGrows(sec)
        invariant AllReady(sec, cx, cies, k) && AllSifted(sec, live, cies, k)
      {
        KeepNext(sec, live, cx, k, cies);
      }
    }

    // ---------- what merging comes to ----------

    // The CIE that stands for e is e itself or an equal one; keys are what the parser
    // recorded, with the personality resolved.
    lemma MergingIsSound(e: Entry)
      requires Valid() && e in universe && InState(e) && !Undecided(e)
      ensures var r := Representative(e);
              && r in universe && !r.removed && r.link == InSection(origin[r].owner) && origin[e].Ok() && origin[r].Ok()
              && (r == e || (origin[e].Key() != [] && origin[r].Key() != []
                             && CieEq(origin[r].Key()[0], origin[e].Key()[0])))
    {
      hide CieEq, Origin.Key, Origin.Ok, Listed, SlotsApart;
      assert EntryOk(e);
      assert EntryOk(Representative(e));
    }

    // The place of a kept CIE in the table.
    lemma SlotOf(e: Entry) returns (i: nat)
      requires Valid() && e in keys
      ensures InState(e) && !Undecided(e)
      ensures i < |slots| && slots[i].cie == Representative(e) && Representative(e) in keys
      ensures Representative(e) == e || CieEq(keys[Representative(e)], keys[e])
    {
      hide CieEq, Origin.Key, Origin.Ok, SlotsApart;
      assert EntryOk(e);
      var r := Representative(e);
      assert EntryOk(r);
      i :| 0 <= i < |slots| && slots[i].cie == r;
    }

    // Two CIEs that are equal end up as one.
    lemma MergingIsComplete(e: Entry, f: Entry)
      requires Valid() && e in keys && f in keys && CieEq(keys[e], keys[f])
      ensures InState(e) && InState(f) && !Undecided(e) && !Undecided(f)
      ensures Representative(e) == Representative(f)
    {
      hide CieEq, Valid, Representative, InState, Undecided;
      var i := SlotOf(e);
      var j := SlotOf(f);
      EqualThrough(keys[slots[i].cie], keys[e], keys[f], keys[slots[j].cie]);
      EntriesAreApart();
      assert i == j;
    }

    lemma EntriesAreApart()
      requires Valid()
      ensures SlotsApart(slots, keys)
    {
    }

    // Whatever stands for one of two CIEs that have the same stand-in is equal to both.
    lemma SameStandIn(e: Entry, f: Entry)
      requires Valid() && e in keys && f in keys && InState(e) && InState(f) && !Undecided(e) && !Undecided(f)
      requires Representative(e) == Representative(f)
      ensures e == f || CieEq(keys[e], keys[f])
    {
      hide CieEq, Valid;
      var i := SlotOf(e);
      var j := SlotOf(f);
      var r := keys[Representative(e)];
      if e != f {
        CieEqSymmetric(r, keys[e]);
        if Representative(e) != e && Representative(e) != f {
          CieEqTransitive(keys[e], r, keys[f]);
        }
      }
    }
  }

  // With a == b == c == d, where a may be b itself, and c may be d.
  lemma EqualThrough(a: CieKey, b: CieKey, c: CieKey, d: CieKey)
    requires (a == b || CieEq(a, b)) && CieEq(b, c) && (d == c || CieEq(d, c))
    ensures CieEq(a, d) && CieEq(d, a)
  {
    hide CieEq;
    if a != b {
      CieEqTransitive(a, b, c);
    }
    if d != c {
      CieEqSymmetric(d, c);
      CieEqTransitive(a, c, d);
    }
    CieEqSymmetric(a, d);
  }
}
