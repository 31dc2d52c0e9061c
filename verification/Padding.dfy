/** Decoy digests added to a payload make no difference to what is unpacked from it. */
module Padding {
  import opened JsonData
  import opened Sequences
  import opened Unpacking
  import opened UnpackingTheorems

  predicate IsDecoy(e: Json) {
    e.JAtom? && e.a.Str? && e.a.t.DecoyDigest?
  }

  // padded is entries with decoys inserted.
  predicate PaddedEntries(entries: seq<Json>, padded: seq<Json>) {
    if padded == [] then entries == []
    else
      || (IsDecoy(padded[0]) && PaddedEntries(entries, padded[1..]))
      || (entries != [] && entries[0] == padded[0] && PaddedEntries(entries[1..], padded[1..]))
  }

  // j' is j with decoys inserted into _sd lists, anywhere.
  predicate Padded(j: Json, j': Json)
    decreases j, 0
  {
    match j
    case JAtom(_) => j' == j
    case JArr(items) => j'.JArr? && PaddedItems(items, j'.items)
    case JObj(ms) => j'.JObj? && PaddedMembers(ms, j'.members)
  }

  predicate PaddedItems(items: seq<Json>, items': seq<Json>)
    decreases items, 0
  {
    if items == [] then items' == []
    else items' != [] && Padded(items[0], items'[0]) && PaddedItems(items[1..], items'[1..])
  }

  predicate PaddedMember(h: Member, h': Member)
    decreases h, 0
  {
    && h.name == h'.name
    && if h.name == SD_DIGESTS_KEY && h.value.JArr? then h'.value.JArr? && PaddedEntries(h.value.items, h'.value.items)
       else Padded(h.value, h'.value)
  }

  predicate PaddedMembers(ms: seq<Member>, ms': seq<Member>)
    decreases ms, 0
  {
    if ms == [] then ms' == []
    else ms' != [] && PaddedMember(ms[0], ms'[0]) && PaddedMembers(ms[1..], ms'[1..])
  }

  /* The entries of one list. */

  ghost predicate Agree(entries: seq<Json>, padded: seq<Json>, m: Mapping)
    requires Honest(m)
  {
    && ExpandDigests(padded, m) == ExpandDigests(entries, m)
    && DisclosedNames(padded, m) == DisclosedNames(entries, m)
    && (AllSoundDigests(padded, m) <==> AllSoundDigests(entries, m))
    && multiset(VisitedDigests(entries, m)) <= multiset(VisitedDigests(padded, m))
  }

  lemma {:induction false} EntriesAgree(entries: seq<Json>, padded: seq<Json>, m: Mapping)
    requires Honest(m) && PaddedEntries(entries, padded)
    ensures Agree(entries, padded, m)
    decreases |padded|
  {
    if padded == [] {
    } else if IsDecoy(padded[0]) && PaddedEntries(entries, padded[1..]) {
      EntriesAgree(entries, padded[1..], m);
      OneDecoy(entries, padded, m);
    } else {
      EntriesAgree(entries[1..], padded[1..], m);
      OneEntry(entries, padded, m);
    }
  }

  lemma OneDecoy(entries: seq<Json>, padded: seq<Json>, m: Mapping)
    requires Honest(m) && padded != [] && IsDecoy(padded[0]) && Agree(entries, padded[1..], m)
    ensures Agree(entries, padded, m)
  {
    DecoyEntry(padded[0], m);
    AllSoundDigestsCons(padded, m);
    var rest := VisitedDigests(padded[1..], m);
    assert VisitedDigests(padded, m) == [padded[0].a] + rest;
    assert [] + DisclosedNames(padded[1..], m) == DisclosedNames(padded[1..], m);
  }

  lemma {:induction false} OneEntry(entries: seq<Json>, padded: seq<Json>, m: Mapping)
    requires Honest(m) && padded != [] && entries != [] && padded[0] == entries[0] && Agree(entries[1..], padded[1..], m)
    ensures Agree(entries, padded, m)
  {
    AllSoundDigestsCons(padded, m);
    AllSoundDigestsCons(entries, m);
    OneExpanded(entries, padded, m);
    OneName(entries, padded, m);
    OneVisit(entries, padded, m);
  }

  lemma {:induction false} OneExpanded(entries: seq<Json>, padded: seq<Json>, m: Mapping)
    requires Honest(m) && padded != [] && entries != [] && padded[0] == entries[0]
    requires ExpandDigests(padded[1..], m) == ExpandDigests(entries[1..], m)
    ensures ExpandDigests(padded, m) == ExpandDigests(entries, m)
  {
  }

  lemma {:induction false} OneName(entries: seq<Json>, padded: seq<Json>, m: Mapping)
    requires Honest(m) && padded != [] && entries != [] && padded[0] == entries[0]
    requires DisclosedNames(padded[1..], m) == DisclosedNames(entries[1..], m)
    ensures DisclosedNames(padded, m) == DisclosedNames(entries, m)
  {
  }

  lemma {:induction false} OneVisit(entries: seq<Json>, padded: seq<Json>, m: Mapping)
    requires Honest(m) && padded != [] && entries != [] && padded[0] == entries[0]
    requires multiset(VisitedDigests(entries[1..], m)) <= multiset(VisitedDigests(padded[1..], m))
    ensures multiset(VisitedDigests(entries, m)) <= multiset(VisitedDigests(padded, m))
  {
    SameFirst(VisitedDigest(entries[0], m), VisitedDigests(entries[1..], m), VisitedDigests(padded[1..], m));
  }

  lemma SameFirst(first: seq<Atom>, a: seq<Atom>, b: seq<Atom>)
    requires multiset(a) <= multiset(b)
    ensures multiset(first + a) <= multiset(first + b)
  {
  }

  lemma DecoyEntry(e: Json, m: Mapping)
    requires Honest(m) && IsDecoy(e)
    ensures !IsKnown(e, m) && SoundDigest(e, m)
  {
  }

  /* The whole payload. */

  lemma {:induction false} PaddedReads(j: Json, j': Json, m: Mapping)
    requires Honest(m) && Padded(j, j')
    ensures Expand(j', m) == Expand(j, m) && (Sound(j', m) <==> Sound(j, m))
    ensures multiset(Visited(j, m)) <= multiset(Visited(j', m))
    ensures IsElementLeaf(j') <==> IsElementLeaf(j)
    ensures IsElementLeaf(j) ==> j' == j
    decreases j, 0
  {
    match j
    case JAtom(_) =>
    case JArr(items) => PaddedItemsRead(items, j'.items, m);
    case JObj(ms) =>
      PaddedMembersRead(ms, j'.members, m);
      PaddedLeaf(ms, j'.members);
      PaddedDigests(ms, j'.members);
      if DigestsOf(ms).Some? {
        EntriesAgree(DigestsOf(ms).value, DigestsOf(j'.members).value, m);
        SoundObject(ms, DigestsOf(ms).value, m);
        SoundObject(j'.members, DigestsOf(j'.members).value, m);
      }
  }

  lemma PaddedKind(h: Member, h': Member)
    requires PaddedMember(h, h')
    ensures h'.name == h.name && (h.value.JAtom? <==> h'.value.JAtom?) && (h.value.JArr? <==> h'.value.JArr?)
    ensures h.value.JAtom? ==> h' == h
  {
    if h.name == SD_DIGESTS_KEY && h.value.JArr? {
    } else {
      assert Padded(h.value, h'.value);
    }
  }

  lemma PaddedLeaf(ms: seq<Member>, ms': seq<Member>)
    requires PaddedMembers(ms, ms')
    ensures IsElementLeaf(JObj(ms')) <==> IsElementLeaf(JObj(ms))
    ensures IsElementLeaf(JObj(ms)) ==> ms' == ms
  {
    assert SD_LIST_PREFIX[0] != SD_DIGESTS_KEY[0];
    PaddedLength(ms, ms');
    if |ms| == 1 {
      assert ms == [ms[0]] && ms' == [ms'[0]];
      PaddedKind(ms[0], ms'[0]);
    }
  }

  lemma {:induction false} PaddedLength(ms: seq<Member>, ms': seq<Member>)
    requires PaddedMembers(ms, ms')
    ensures |ms'| == |ms|
    decreases |ms|
  {
    if ms == [] {
    } else {
      PaddedLength(ms[1..], ms'[1..]);
    }
  }

  lemma LaterDigests(ms: seq<Member>)
    requires ms != [] && ms[0].name != SD_DIGESTS_KEY
    ensures DigestsOf(ms) == DigestsOf(ms[1..])
  {
  }

  lemma {:induction false} PaddedDigests(ms: seq<Member>, ms': seq<Member>)
    requires PaddedMembers(ms, ms')
    ensures DigestsOf(ms).Some? <==> DigestsOf(ms').Some?
    ensures DigestsOf(ms).Some? ==> PaddedEntries(DigestsOf(ms).value, DigestsOf(ms').value)
    decreases |ms|
  {
    if ms == [] {
    } else {
      PaddedDigests(ms[1..], ms'[1..]);
      PaddedKind(ms[0], ms'[0]);
      if ms[0].name != SD_DIGESTS_KEY {
        LaterDigests(ms);
        LaterDigests(ms');
      }
    }
  }

  lemma {:induction false} PaddedItemsRead(items: seq<Json>, items': seq<Json>, m: Mapping)
    requires Honest(m) && PaddedItems(items, items')
    ensures ExpandItems(items', m) == ExpandItems(items, m) && (AllSoundItems(items', m) <==> AllSoundItems(items, m))
    ensures multiset(VisitedItems(items, m)) <= multiset(VisitedItems(items', m))
    decreases items, 0
  {
    if items == [] {
    } else {
      PaddedReads(items[0], items'[0], m);
      PaddedItemsRead(items[1..], items'[1..], m);
      AllSoundItemsCons(items, m);
      AllSoundItemsCons(items', m);
    }
  }

  lemma {:induction false} PaddedMembersRead(ms: seq<Member>, ms': seq<Member>, m: Mapping)
    requires Honest(m) && PaddedMembers(ms, ms')
    ensures ExpandMembers(ms', m) == ExpandMembers(ms, m) && (AllSoundMembers(ms', m) <==> AllSoundMembers(ms, m))
    ensures PlainNames(ms') == PlainNames(ms)
    ensures multiset(VisitedMembers(ms, m)) <= multiset(VisitedMembers(ms', m))
    decreases ms, 0
  {
    ExpandMembersKeys(ms, m);
    ExpandMembersKeys(ms', m);
    if ms == [] {
    } else {
      if ms[0].name != SD_DIGESTS_KEY {
        PaddedReads(ms[0].value, ms'[0].value, m);
      }
      PaddedMembersRead(ms[1..], ms'[1..], m);
      AllSoundMembersCons(ms, m);
      AllSoundMembersCons(ms', m);
    }
  }

  /**
   Decoys make no difference. For every payload, every way of inserting decoys into its _sd
   lists, and every mapping and list of digests already seen: unpacking returns iff it did
   before and no digest, decoys included, is met twice; and the value is the same.
   */
  lemma DecoysMakeNoDifference(j: Json, j': Json, m: Mapping, seen: seq<Atom>)
    requires Honest(m) && Padded(j, j')
    ensures Unpack(j', m, seen).Returned? <==>
            Unpack(j, m, seen).Returned? && Fresh(Elements(seen), Visited(j', m))
    ensures Unpack(j', m, seen).Returned? ==> Unpack(j', m, seen).value == Unpack(j, m, seen).value
  {
    PaddedReads(j, j', m);
    UnpackExact(j, m, seen);
    UnpackExact(j', m, seen);
    if Fresh(Elements(seen), Visited(j', m)) {
      FreshSmaller(Elements(seen), Visited(j, m), Visited(j', m));
    }
  }
}
