/** When verifying fails, and with which error. */
module VerifierErrors {
  import opened JsonData
  import opened Wrappers
  import opened Sequences
  import opened Unpacking
  import opened UnpackingTheorems
  import opened Verifier

  // An error of the recursion. A repeated digest is the only one in a sound payload, and is not
  // reported when no digest repeats.
  ghost predicate Fits<T>(o: Outcome<T>, sound: bool, seen: seq<Atom>, visited: seq<Atom>) {
    o.Raised? ==>
      && (o.error == DuplicateDigest || o.error == DuplicateKey || o.error == WrongArity || o.error == NotADigestList)
      && (sound ==> o.error == DuplicateDigest)
      && (Fresh(Elements(seen), visited) ==> o.error != DuplicateDigest)
  }

  // A first part that returns or fails, and then the rest.
  lemma FitsThen<T(!new), U, V>(first: Outcome<T>, rest: Outcome<U>, whole: Outcome<V>, sound1: bool, sound2: bool, out: T,
                                seen: seq<Atom>, v1: seq<Atom>, v2: seq<Atom>)
    requires Exact(first, sound1, out, seen, v1) && Fits(first, sound1, seen, v1)
    requires first.Returned? ==> Fits(rest, sound2, seen + v1, v2) && (whole.Raised? ==> rest.Raised? && whole.error == rest.error)
    requires first.Raised? ==> whole.Raised? && whole.error == first.error
    ensures Fits(whole, sound1 && sound2, seen, v1 + v2)
  {
    ThenFresh(seen, v1, v2);
  }

  lemma {:induction false} UnpackErrors(j: Json, m: Mapping, seen: seq<Atom>)
    requires Honest(m)
    ensures Fits(Unpack(j, m, seen), Sound(j, m), seen, Visited(j, m))
    decreases j, 0
  {
    match j
    case JAtom(_) =>
    case JArr(items) => ItemsErrors(items, m, [], seen);
    case JObj(ms) =>
      MembersErrors(ms, m, map[], seen);
      UnpackMembersExact(ms, m, map[], seen);
      if DigestsOf(ms).Some? {
        var entries := DigestsOf(ms).value;
        assert map[] + ExpandMembers(ms, m) == ExpandMembers(ms, m);
        DigestsErrors(entries, m, ExpandMembers(ms, m), seen + VisitedMembers(ms, m));
        ObjectErrors(ms, entries, m, seen);
      } else {
        assert VisitedMembers(ms, m) + [] == VisitedMembers(ms, m);
      }
  }

  lemma {:induction false} ObjectErrors(ms: seq<Member>, entries: seq<Json>, m: Mapping, seen: seq<Atom>)
    requires Honest(m) && DigestsOf(ms) == Some(entries)
    requires Exact(UnpackMembers(ms, m, map[], seen), AllSoundMembers(ms, m), ExpandMembers(ms, m), seen, VisitedMembers(ms, m))
    requires Fits(UnpackMembers(ms, m, map[], seen), AllSoundMembers(ms, m), seen, VisitedMembers(ms, m))
    requires DigestsFit(entries, m, ExpandMembers(ms, m), seen + VisitedMembers(ms, m))
    ensures Fits(Unpack(JObj(ms), m, seen), Sound(JObj(ms), m), seen, Visited(JObj(ms), m))
  {
    ExpandMembersKeys(ms, m);
    SoundObject(ms, entries, m);
    UnpackObject(ms, entries, m, seen);
    var pre, s := ExpandMembers(ms, m), seen + VisitedMembers(ms, m);
    FitsThen(UnpackMembers(ms, m, map[], seen), UnpackDigests(entries, m, pre, s), Unpack(JObj(ms), m, seen),
             AllSoundMembers(ms, m), AllSoundDigests(entries, m) && Fresh(pre.Keys, DisclosedNames(entries, m)),
             pre, seen, VisitedMembers(ms, m), VisitedDigests(entries, m));
  }

  lemma {:induction false} ItemsErrors(items: seq<Json>, m: Mapping, out: seq<Value>, seen: seq<Atom>)
    requires Honest(m)
    ensures Fits(UnpackItems(items, m, out, seen), AllSoundItems(items, m), seen, VisitedItems(items, m))
    decreases items, 0
  {
    if items == [] {
    } else {
      AllSoundItemsCons(items, m);
      var rest := items[1..];
      if !IsElementLeaf(items[0]) {
        UnpackErrors(items[0], m, seen);
        UnpackExact(items[0], m, seen);
        ItemsErrors(rest, m, out + [Expand(items[0], m)], seen + Visited(items[0], m));
        ItemFits(items, items[0], m, out, seen);
      } else {
        var t := LeafDigest(items[0]);
        if t !in m {
          ItemsErrors(rest, m, out, seen);
          assert VisitedItem(items[0], m) == [] && VisitedItems(items, m) == [] + VisitedItems(rest, m);
          assert VisitedItems(items, m) == VisitedItems(rest, m);
        } else if m[t].ElementDisclosure? {
          UnpackErrors(m[t].value, m, seen);
          UnpackExact(m[t].value, m, seen);
          ItemsErrors(rest, m, out + [Expand(m[t].value, m)], seen + Visited(m[t].value, m));
          ItemFits(items, m[t].value, m, out, seen);
        }
      }
    }
  }

  // An element that is unpacked, itself or as what its digest stands for, and then the others.
  lemma {:induction false} ItemFits(items: seq<Json>, j: Json, m: Mapping, out: seq<Value>, seen: seq<Atom>)
    requires Honest(m) && items != []
    requires if IsElementLeaf(items[0]) then LeafDigest(items[0]) in m && m[LeafDigest(items[0])].ElementDisclosure?
                                             && j == m[LeafDigest(items[0])].value
             else j == items[0]
    requires Exact(Unpack(j, m, seen), Sound(j, m), Expand(j, m), seen, Visited(j, m))
    requires Fits(Unpack(j, m, seen), Sound(j, m), seen, Visited(j, m))
    requires Fits(UnpackItems(items[1..], m, out + [Expand(j, m)], seen + Visited(j, m)), AllSoundItems(items[1..], m),
                  seen + Visited(j, m), VisitedItems(items[1..], m))
    ensures Fits(UnpackItems(items, m, out, seen), AllSoundItems(items, m), seen, VisitedItems(items, m))
  {
    AllSoundItemsCons(items, m);
    assert VisitedItem(items[0], m) == Visited(j, m);
    FitsThen(Unpack(j, m, seen), UnpackItems(items[1..], m, out + [Expand(j, m)], seen + Visited(j, m)),
             UnpackItems(items, m, out, seen), Sound(j, m), AllSoundItems(items[1..], m), Expand(j, m), seen, Visited(j, m),
             VisitedItems(items[1..], m));
  }

  lemma {:induction false} MembersErrors(ms: seq<Member>, m: Mapping, out: map<string, Value>, seen: seq<Atom>)
    requires Honest(m)
    ensures Fits(UnpackMembers(ms, m, out, seen), AllSoundMembers(ms, m), seen, VisitedMembers(ms, m))
    decreases ms, 0
  {
    if ms == [] {
    } else {
      AllSoundMembersCons(ms, m);
      var rest := ms[1..];
      if IsSkipped(ms[0].name) {
        MembersErrors(rest, m, out, seen);
        assert [] + VisitedMembers(rest, m) == VisitedMembers(rest, m);
      } else {
        var j, next := ms[0].value, out[ms[0].name := Expand(ms[0].value, m)];
        UnpackErrors(j, m, seen);
        UnpackExact(j, m, seen);
        MembersErrors(rest, m, next, seen + Visited(j, m));
        FitsThen(Unpack(j, m, seen), UnpackMembers(rest, m, next, seen + Visited(j, m)), UnpackMembers(ms, m, out, seen),
                 Sound(j, m), AllSoundMembers(rest, m), Expand(j, m), seen, Visited(j, m), VisitedMembers(rest, m));
      }
    }
  }

  ghost predicate DigestsFit(entries: seq<Json>, m: Mapping, out: map<string, Value>, seen: seq<Atom>)
    requires Honest(m)
  {
    Fits(UnpackDigests(entries, m, out, seen), AllSoundDigests(entries, m) && Fresh(out.Keys, DisclosedNames(entries, m)), seen,
         VisitedDigests(entries, m))
  }

  lemma {:induction false} DigestsErrors(entries: seq<Json>, m: Mapping, out: map<string, Value>, seen: seq<Atom>)
    requires Honest(m)
    ensures DigestsFit(entries, m, out, seen)
    decreases entries, 0
  {
    if entries == [] {
    } else {
      var e, rest := entries[0], entries[1..];
      if !e.JAtom? {
        AllSoundDigestsCons(entries, m);
      } else if e.a in seen {
        var first := VisitedDigest(e, m);
        assert first[0] == e.a && VisitedDigests(entries, m) == first + VisitedDigests(rest, m);
        assert VisitedDigests(entries, m)[0] in Elements(seen);
      } else if !IsKnown(e, m) {
        DigestsErrors(rest, m, out, seen + [e.a]);
        UnknownFits(entries, m, out, seen);
      } else if !Known(e, m).MemberDisclosure? || Known(e, m).key in out {
        ClashFits(entries, m, out, seen);
      } else {
        var d := Known(e, m);
        UnpackErrors(d.value, m, seen + [e.a]);
        UnpackExact(d.value, m, seen + [e.a]);
        DigestsErrors(rest, m, out[d.key := Expand(d.value, m)], (seen + [e.a]) + Visited(d.value, m));
        InsertedFits(entries, m, out, seen);
      }
    }
  }

  lemma {:induction false} UnknownFits(entries: seq<Json>, m: Mapping, out: map<string, Value>, seen: seq<Atom>)
    requires Honest(m) && entries != [] && entries[0].JAtom? && entries[0].a !in seen && !IsKnown(entries[0], m)
    requires DigestsFit(entries[1..], m, out, seen + [entries[0].a])
    ensures DigestsFit(entries, m, out, seen)
  {
    AllSoundDigestsCons(entries, m);
    Marked(seen, entries[0].a, VisitedDigest(entries[0], m), [], VisitedDigests(entries[1..], m));
    assert [] + VisitedDigests(entries[1..], m) == VisitedDigests(entries[1..], m);
    assert [] + DisclosedNames(entries[1..], m) == DisclosedNames(entries[1..], m);
  }

  lemma {:induction false} ClashFits(entries: seq<Json>, m: Mapping, out: map<string, Value>, seen: seq<Atom>)
    requires Honest(m) && entries != [] && entries[0].JAtom? && entries[0].a !in seen && IsKnown(entries[0], m)
    requires !Known(entries[0], m).MemberDisclosure? || Known(entries[0], m).key in out
    ensures DigestsFit(entries, m, out, seen)
  {
    AllSoundDigestsCons(entries, m);
    if Known(entries[0], m).MemberDisclosure? {
      assert DisclosedNames(entries, m)[0] == Known(entries[0], m).key;
      assert UnpackDigests(entries, m, out, seen) == Raised(DuplicateKey);
    } else {
      assert UnpackDigests(entries, m, out, seen) == Raised(WrongArity);
    }
  }

  lemma {:induction false} InsertedFits(entries: seq<Json>, m: Mapping, out: map<string, Value>, seen: seq<Atom>)
    requires Honest(m) && entries != [] && Discloses(entries[0], m) && entries[0].a !in seen
    requires Known(entries[0], m).key !in out
    requires var d, marked := Known(entries[0], m), seen + [entries[0].a];
             && Exact(Unpack(d.value, m, marked), Sound(d.value, m), Expand(d.value, m), marked, Visited(d.value, m))
             && Fits(Unpack(d.value, m, marked), Sound(d.value, m), marked, Visited(d.value, m))
             && DigestsFit(entries[1..], m, out[d.key := Expand(d.value, m)], marked + Visited(d.value, m))
    ensures DigestsFit(entries, m, out, seen)
  {
    var e, rest := entries[0], entries[1..];
    var d, marked := Known(e, m), seen + [e.a];
    var next := out[d.key := Expand(d.value, m)];
    AllSoundDigestsCons(entries, m);
    InsertedName(out, d.key, Expand(d.value, m), DisclosedNames(rest, m));
    FitsThen(Unpack(d.value, m, marked), UnpackDigests(rest, m, next, marked + Visited(d.value, m)),
             UnpackDigests(entries, m, out, seen), Sound(d.value, m),
             AllSoundDigests(rest, m) && Fresh(next.Keys, DisclosedNames(rest, m)), Expand(d.value, m), marked,
             Visited(d.value, m), VisitedDigests(rest, m));
    Marked(seen, e.a, VisitedDigest(e, m), Visited(d.value, m), VisitedDigests(rest, m));
  }

  lemma Marked(seen: seq<Atom>, a: Atom, v: seq<Atom>, v1: seq<Atom>, v2: seq<Atom>)
    requires v == [a] + v1
    ensures Fresh(Elements(seen), v + v2) ==> Fresh(Elements(seen + [a]), v1 + v2)
  {
    ThenFresh(seen, [a], v1 + v2);
    assert v + v2 == [a] + (v1 + v2);
  }

  /* The whole payload. */

  lemma {:induction false} LookupFirst(ms: seq<Member>, name: string)
    ensures Lookup(ms, name).Some? <==> exists i :: 0 <= i < |ms| && ms[i].name == name
    ensures Lookup(ms, name).Some? ==>
              exists i :: 0 <= i < |ms| && ms[i] == Member(name, Lookup(ms, name).value)
                          && forall j :: 0 <= j < i ==> ms[j].name != name
    decreases |ms|
  {
    if ms == [] {
    } else if ms[0].name != name {
      LookupFirst(ms[1..], name);
      if Lookup(ms, name).Some? {
        var i :| 0 <= i < |ms[1..]| && ms[1..][i] == Member(name, Lookup(ms, name).value)
                 && forall j :: 0 <= j < i ==> ms[1..][j].name != name;
        assert ms[i + 1] == Member(name, Lookup(ms, name).value);
        assert forall j :: 0 < j < i + 1 ==> ms[j] == ms[1..][j - 1];
      } else {
        assert forall i :: 0 < i < |ms| ==> ms[i] == ms[1..][i - 1];
      }
    }
  }

  // The entry of a dict for a name is the first one.
  ghost predicate IsEntry(ms: seq<Member>, i: int, name: string) {
    0 <= i < |ms| && ms[i].name == name && forall j :: 0 <= j < i ==> ms[j].name != name
  }

  /**
   The digests of an object: those of its "_sd" list, and none without one; an object with anything
   else under "_sd" is never unpacked.
   */
  lemma {:induction false} DigestsExact(ms: seq<Member>, m: Mapping, seen: seq<Atom>)
    requires Honest(m)
    ensures (forall i :: 0 <= i < |ms| ==> ms[i].name != "_sd") ==> DigestsOf(ms) == Some([])
    ensures forall i :: IsEntry(ms, i, "_sd") ==>
              if ms[i].value.JArr? then DigestsOf(ms) == Some(ms[i].value.items)
              else !Sound(JObj(ms), m) && Unpack(JObj(ms), m, seen).Raised?
  {
    LookupFirst(ms, SD_DIGESTS_KEY);
    UnpackExact(JObj(ms), m, seen);
    if Lookup(ms, SD_DIGESTS_KEY).Some? {
      var i :| 0 <= i < |ms| && ms[i] == Member(SD_DIGESTS_KEY, Lookup(ms, SD_DIGESTS_KEY).value)
               && forall j :: 0 <= j < i ==> ms[j].name != SD_DIGESTS_KEY;
      assert forall k :: IsEntry(ms, k, "_sd") ==> k == i;
    }
  }

  // The dict has an entry for the name, and it is not this text.
  ghost predicate SaysOtherThan(ms: seq<Member>, name: string, text: string) {
    exists i :: IsEntry(ms, i, name) && ms[i].value != JAtom(Str(Lit(text)))
  }

  /**
   Verifying any payload with any honest mapping: the hash algorithm is refused iff the payload
   names one that is not sha-256. Otherwise a value is returned iff the payload is sound and the
   digests visited in it are distinct, and then it is the expansion; the error for a sound payload
   is that of a repeated digest.
   */
  lemma {:induction false} VerifiedExact(payload: Json, m: Mapping)
    requires Honest(m)
    ensures Verified(payload, m) == Err(UnsupportedHash) <==>
              payload.JObj? && SaysOtherThan(payload.members, "_sd_alg", "sha-256")
    ensures Verified(payload, m) != Err(UnsupportedHash) ==>
              && (Verified(payload, m).Ok? <==> Sound(payload, m) && Fresh({}, Visited(payload, m)))
              && (Verified(payload, m).Ok? ==> Verified(payload, m).value == Expand(payload, m))
              && (Verified(payload, m).Err? ==>
                    (Sound(payload, m) ==> Verified(payload, m).error == DuplicateDigest)
                    && (Fresh({}, Visited(payload, m)) ==> Verified(payload, m).error != DuplicateDigest))
  {
    UnpackExact(payload, m, []);
    UnpackErrors(payload, m, []);
    assert Elements<Atom>([]) == {};
    if payload.JObj? {
      var ms := payload.members;
      LookupFirst(ms, DIGEST_ALG_KEY);
      if Lookup(ms, DIGEST_ALG_KEY).Some? {
        var i :| 0 <= i < |ms| && ms[i] == Member(DIGEST_ALG_KEY, Lookup(ms, DIGEST_ALG_KEY).value)
                 && forall j :: 0 <= j < i ==> ms[j].name != DIGEST_ALG_KEY;
        assert IsEntry(ms, i, "_sd_alg") && forall k :: IsEntry(ms, k, "_sd_alg") ==> k == i;
      }
    }
  }
}
