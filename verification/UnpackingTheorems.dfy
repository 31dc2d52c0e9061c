/** The stateful unpacking of a payload returns exactly when it should, and what it should. */
module UnpackingTheorems {
  import opened JsonData
  import opened Wrappers
  import opened Sequences
  import opened Unpacking

  ghost predicate AllSoundItems(items: seq<Json>, m: Mapping)
    requires Honest(m)
  {
    forall i :: 0 <= i < |items| ==> SoundItem(items[i], m)
  }

  ghost predicate AllSoundMembers(ms: seq<Member>, m: Mapping)
    requires Honest(m)
  {
    forall i :: 0 <= i < |ms| && !IsSkipped(ms[i].name) ==> Sound(ms[i].value, m)
  }

  ghost predicate AllSoundDigests(entries: seq<Json>, m: Mapping)
    requires Honest(m)
  {
    forall i :: 0 <= i < |entries| ==> SoundDigest(entries[i], m)
  }

  lemma AllSoundItemsCons(items: seq<Json>, m: Mapping)
    requires Honest(m) && items != []
    ensures AllSoundItems(items, m) <==> SoundItem(items[0], m) && AllSoundItems(items[1..], m)
  {
    if SoundItem(items[0], m) && AllSoundItems(items[1..], m) {
      forall i | 0 <= i < |items| ensures SoundItem(items[i], m) {
        if i > 0 {
          assert items[i] == items[1..][i - 1];
        }
      }
    }
  }

  lemma AllSoundMembersCons(ms: seq<Member>, m: Mapping)
    requires Honest(m) && ms != []
    ensures AllSoundMembers(ms, m) <==>
            (IsSkipped(ms[0].name) || Sound(ms[0].value, m)) && AllSoundMembers(ms[1..], m)
  {
    if (IsSkipped(ms[0].name) || Sound(ms[0].value, m)) && AllSoundMembers(ms[1..], m) {
      forall i | 0 <= i < |ms| && !IsSkipped(ms[i].name) ensures Sound(ms[i].value, m) {
        if i > 0 {
          assert ms[i] == ms[1..][i - 1];
        }
      }
    }
    if AllSoundMembers(ms, m) {
      forall i | 0 <= i < |ms[1..]| && !IsSkipped(ms[1..][i].name) ensures Sound(ms[1..][i].value, m) {
        assert ms[1..][i] == ms[i + 1];
      }
    }
  }

  lemma AllSoundDigestsCons(entries: seq<Json>, m: Mapping)
    requires Honest(m) && entries != []
    ensures AllSoundDigests(entries, m) <==> SoundDigest(entries[0], m) && AllSoundDigests(entries[1..], m)
  {
    if SoundDigest(entries[0], m) && AllSoundDigests(entries[1..], m) {
      forall i | 0 <= i < |entries| ensures SoundDigest(entries[i], m) {
        if i > 0 {
          assert entries[i] == entries[1..][i - 1];
        }
      }
    }
  }

  lemma {:induction false} ExpandMembersKeys(ms: seq<Member>, m: Mapping)
    requires Honest(m)
    ensures ExpandMembers(ms, m).Keys == PlainNames(ms)
    decreases |ms|
  {
    if ms == [] {
    } else {
      ExpandMembersKeys(ms[1..], m);
      var head := if IsSkipped(ms[0].name) then {} else {ms[0].name};
      assert PlainNames(ms) == head + PlainNames(ms[1..]) by {
        forall x | x in PlainNames(ms[1..]) ensures x in PlainNames(ms) {
          var i :| 0 <= i < |ms[1..]| && !IsSkipped(ms[1..][i].name) && ms[1..][i].name == x;
          assert ms[i + 1].name == x;
        }
        forall x | x in PlainNames(ms) ensures x in head + PlainNames(ms[1..]) {
          var i :| 0 <= i < |ms| && !IsSkipped(ms[i].name) && ms[i].name == x;
          if i > 0 {
            assert ms[1..][i - 1].name == x;
          }
        }
      }
    }
  }

  // An unpacking that starts after s has been seen and visits v.
  ghost predicate Exact<T(!new)>(o: Outcome<T>, ok: bool, out: T, seen: seq<Atom>, visited: seq<Atom>) {
    && (o.Returned? <==> ok && Fresh(Elements(seen), visited))
    && (o.Returned? ==> o == Returned(out, seen + visited))
  }

  // One step that visits v1, followed by the rest that visits v2.
  lemma ThenFresh(seen: seq<Atom>, v1: seq<Atom>, v2: seq<Atom>)
    ensures Fresh(Elements(seen), v1 + v2) <==>
            Fresh(Elements(seen), v1) && Fresh(Elements(seen + v1), v2)
    ensures seen + (v1 + v2) == (seen + v1) + v2
  {
    FreshConcat(Elements(seen), v1, v2);
    ElementsConcat(seen, v1);
  }

  /**
   For every payload, mapping and list of digests already seen, unpacking returns iff the
   payload is sound, the digests it visits anywhere in the expansion are pairwise distinct
   and none was seen before; it then returns the expansion and the extended list.
   */
  lemma {:induction false} UnpackExact(j: Json, m: Mapping, seen: seq<Atom>)
    requires Honest(m)
    ensures Exact(Unpack(j, m, seen), Sound(j, m), Expand(j, m), seen, Visited(j, m))
    decreases j, 0
  {
    match j
    case JAtom(a) =>
    case JArr(items) =>
      UnpackItemsExact(items, m, [], seen);
      assert [] + ExpandItems(items, m) == ExpandItems(items, m);
    case JObj(ms) =>
      UnpackMembersExact(ms, m, map[], seen);
      assert map[] + ExpandMembers(ms, m) == ExpandMembers(ms, m);
      if DigestsOf(ms).Some? {
        var entries := DigestsOf(ms).value;
        UnpackDigestsExact(entries, m, ExpandMembers(ms, m), seen + VisitedMembers(ms, m));
        ObjectExact(ms, entries, m, seen);
      }
  }

  // The two halves of an object, one after the other.
  lemma {:induction false} ObjectExact(ms: seq<Member>, entries: seq<Json>, m: Mapping, seen: seq<Atom>)
    requires Honest(m) && DigestsOf(ms) == Some(entries)
    requires Exact(UnpackMembers(ms, m, map[], seen), AllSoundMembers(ms, m), ExpandMembers(ms, m), seen,
                   VisitedMembers(ms, m))
    requires Exact(UnpackDigests(entries, m, ExpandMembers(ms, m), seen + VisitedMembers(ms, m)),
                   AllSoundDigests(entries, m) && Fresh(ExpandMembers(ms, m).Keys, DisclosedNames(entries, m)),
                   ExpandMembers(ms, m) + ExpandDigests(entries, m), seen + VisitedMembers(ms, m),
                   VisitedDigests(entries, m))
    ensures Exact(Unpack(JObj(ms), m, seen), Sound(JObj(ms), m), Expand(JObj(ms), m), seen, Visited(JObj(ms), m))
  {
    var pre, s := ExpandMembers(ms, m), seen + VisitedMembers(ms, m);
    ExpandMembersKeys(ms, m);
    SoundObject(ms, entries, m);
    UnpackObject(ms, entries, m, seen);
    ThenExact(UnpackMembers(ms, m, map[], seen), UnpackDigests(entries, m, pre, s), Unpack(JObj(ms), m, seen),
              AllSoundMembers(ms, m), AllSoundDigests(entries, m) && Fresh(PlainNames(ms), DisclosedNames(entries, m)),
              pre, pre + ExpandDigests(entries, m), seen, VisitedMembers(ms, m), VisitedDigests(entries, m));
  }

  lemma {:induction false} UnpackObject(ms: seq<Member>, entries: seq<Json>, m: Mapping, seen: seq<Atom>)
    requires Honest(m) && DigestsOf(ms) == Some(entries)
    ensures var first := UnpackMembers(ms, m, map[], seen);
            Unpack(JObj(ms), m, seen) ==
              if first.Raised? then Raised(first.error) else AsObject(UnpackDigests(entries, m, first.value, first.seen))
  {
  }

  function AsObject(o: Outcome<map<string, Value>>): Outcome<Value> {
    match o
    case Raised(e) => Raised(e)
    case Returned(out, s) => Returned(VObj(out), s)
  }

  lemma ThenExact(first: Outcome<map<string, Value>>, second: Outcome<map<string, Value>>, whole: Outcome<Value>, ok1: bool,
                  ok2: bool, out1: map<string, Value>, out2: map<string, Value>, seen: seq<Atom>, v1: seq<Atom>, v2: seq<Atom>)
    requires Exact(first, ok1, out1, seen, v1) && Exact(second, ok2, out2, seen + v1, v2)
    requires if first.Raised? then whole.Raised? else whole == AsObject(second)
    ensures Exact(whole, ok1 && ok2, VObj(out2), seen, v1 + v2)
  {
    ThenFresh(seen, v1, v2);
  }

  lemma {:induction false} SoundObject(ms: seq<Member>, entries: seq<Json>, m: Mapping)
    requires Honest(m) && DigestsOf(ms) == Some(entries)
    ensures Sound(JObj(ms), m) <==>
            AllSoundMembers(ms, m) && AllSoundDigests(entries, m) && Fresh(PlainNames(ms), DisclosedNames(entries, m))
  {
  }

  lemma {:induction false} UnpackItemsExact(items: seq<Json>, m: Mapping, out: seq<Value>, seen: seq<Atom>)
    requires Honest(m)
    ensures Exact(UnpackItems(items, m, out, seen), AllSoundItems(items, m), out + ExpandItems(items, m), seen,
                  VisitedItems(items, m))
    decreases items, 0
  {
    if items == [] {
      assert out + [] == out && seen + [] == seen;
    } else {
      AllSoundItemsCons(items, m);
      var v := VisitedItem(items[0], m);
      ThenFresh(seen, v, VisitedItems(items[1..], m));
      var value := ExpandItem(items[0], m);
      assert out + ExpandItems(items, m) == (out + value) + ExpandItems(items[1..], m);
      UnpackItemsExact(items[1..], m, out + value, seen + v);
      if !IsElementLeaf(items[0]) {
        UnpackExact(items[0], m, seen);
      } else {
        var t := LeafDigest(items[0]);
        if t in m && m[t].ElementDisclosure? {
          UnpackExact(m[t].value, m, seen);
        } else {
          assert seen + v == seen && out + value == out;
        }
      }
    }
  }

  lemma {:induction false} UnpackMembersExact(ms: seq<Member>, m: Mapping, out: map<string, Value>, seen: seq<Atom>)
    requires Honest(m)
    ensures Exact(UnpackMembers(ms, m, out, seen), AllSoundMembers(ms, m), out + ExpandMembers(ms, m), seen,
                  VisitedMembers(ms, m))
    decreases ms, 0
  {
    if ms == [] {
      assert out + map[] == out && seen + [] == seen;
    } else {
      AllSoundMembersCons(ms, m);
      if IsSkipped(ms[0].name) {
        UnpackMembersExact(ms[1..], m, out, seen);
        assert [] + VisitedMembers(ms[1..], m) == VisitedMembers(ms[1..], m);
      } else {
        UnpackExact(ms[0].value, m, seen);
        UnpackMembersExact(ms[1..], m, out + map[ms[0].name := Expand(ms[0].value, m)], seen + Visited(ms[0].value, m));
        PlainMemberExact(ms, m, out, seen);
      }
    }
  }

  // One plain member, and then the others.
  lemma {:induction false} PlainMemberExact(ms: seq<Member>, m: Mapping, out: map<string, Value>, seen: seq<Atom>)
    requires Honest(m) && ms != [] && !IsSkipped(ms[0].name)
    requires Exact(Unpack(ms[0].value, m, seen), Sound(ms[0].value, m), Expand(ms[0].value, m), seen,
                   Visited(ms[0].value, m))
    requires var next := out + map[ms[0].name := Expand(ms[0].value, m)];
             Exact(UnpackMembers(ms[1..], m, next, seen + Visited(ms[0].value, m)), AllSoundMembers(ms[1..], m),
                   next + ExpandMembers(ms[1..], m), seen + Visited(ms[0].value, m), VisitedMembers(ms[1..], m))
    ensures Exact(UnpackMembers(ms, m, out, seen), AllSoundMembers(ms, m), out + ExpandMembers(ms, m), seen,
                  VisitedMembers(ms, m))
  {
    AllSoundMembersCons(ms, m);
    ThenFresh(seen, Visited(ms[0].value, m), VisitedMembers(ms[1..], m));
    PutFirst(out, ms[0].name, Expand(ms[0].value, m), ExpandMembers(ms[1..], m));
  }

  lemma PutFirst<V>(out: map<string, V>, k: string, v: V, rest: map<string, V>)
    ensures out[k := v] == out + map[k := v]
    ensures out + (map[k := v] + rest) == (out + map[k := v]) + rest
  {
  }

  lemma {:induction false} UnpackDigestsExact(entries: seq<Json>, m: Mapping, out: map<string, Value>, seen: seq<Atom>)
    requires Honest(m)
    ensures DigestsExact(entries, m, out, seen)
    decreases entries, 0
  {
    if entries == [] {
      assert out + map[] == out && seen + [] == seen;
    } else {
      var e, rest := entries[0], entries[1..];
      if !e.JAtom? {
        BadEntry(entries, m, out, seen);
      } else if e.a in seen {
        RepeatedEntry(entries, m, out, seen);
      } else if !IsKnown(e, m) {
        UnpackDigestsExact(rest, m, out, seen + [e.a]);
        UnknownEntry(entries, m, out, seen);
      } else if !Known(e, m).MemberDisclosure? || Known(e, m).key in out {
        ClashingEntry(entries, m, out, seen);
      } else {
        var d := Known(e, m);
        UnpackExact(d.value, m, seen + [e.a]);
        UnpackDigestsExact(rest, m, out[d.key := Expand(d.value, m)], (seen + [e.a]) + Visited(d.value, m));
        InsertedEntry(entries, m, out, seen);
      }
    }
  }

  // Reading the entries returns iff they are sound and disclose and visit nothing twice.
  ghost predicate DigestsExact(entries: seq<Json>, m: Mapping, out: map<string, Value>, seen: seq<Atom>)
    requires Honest(m)
  {
    Exact(UnpackDigests(entries, m, out, seen),
          AllSoundDigests(entries, m) && Fresh(out.Keys, DisclosedNames(entries, m)),
          out + ExpandDigests(entries, m), seen, VisitedDigests(entries, m))
  }

  lemma {:induction false} BadEntry(entries: seq<Json>, m: Mapping, out: map<string, Value>, seen: seq<Atom>)
    requires Honest(m) && entries != [] && !entries[0].JAtom?
    ensures DigestsExact(entries, m, out, seen)
  {
    AllSoundDigestsCons(entries, m);
  }

  lemma {:induction false} RepeatedEntry(entries: seq<Json>, m: Mapping, out: map<string, Value>, seen: seq<Atom>)
    requires Honest(m) && entries != [] && entries[0].JAtom? && entries[0].a in seen
    ensures DigestsExact(entries, m, out, seen)
  {
    var first := VisitedDigest(entries[0], m);
    assert first[0] == entries[0].a;
    assert VisitedDigests(entries, m) == first + VisitedDigests(entries[1..], m);
    assert VisitedDigests(entries, m)[0] in Elements(seen);
  }

  lemma {:induction false} UnknownEntry(entries: seq<Json>, m: Mapping, out: map<string, Value>, seen: seq<Atom>)
    requires Honest(m) && entries != [] && entries[0].JAtom? && entries[0].a !in seen && !IsKnown(entries[0], m)
    requires DigestsExact(entries[1..], m, out, seen + [entries[0].a])
    ensures DigestsExact(entries, m, out, seen)
  {
    var a, rest := entries[0].a, entries[1..];
    AllSoundDigestsCons(entries, m);
    ThenFresh(seen, [a], VisitedDigests(rest, m));
    FreshSingleton(Elements(seen), a);
    assert [] + DisclosedNames(rest, m) == DisclosedNames(rest, m);
  }

  lemma {:induction false} ClashingEntry(entries: seq<Json>, m: Mapping, out: map<string, Value>, seen: seq<Atom>)
    requires Honest(m) && entries != [] && entries[0].JAtom? && entries[0].a !in seen && IsKnown(entries[0], m)
    requires !Known(entries[0], m).MemberDisclosure? || Known(entries[0], m).key in out
    ensures DigestsExact(entries, m, out, seen)
  {
    AllSoundDigestsCons(entries, m);
    if Known(entries[0], m).MemberDisclosure? {
      assert DisclosedNames(entries, m)[0] == Known(entries[0], m).key;
    }
  }

  lemma {:induction false} InsertedEntry(entries: seq<Json>, m: Mapping, out: map<string, Value>, seen: seq<Atom>)
    requires Honest(m) && entries != [] && Discloses(entries[0], m) && entries[0].a !in seen
    requires Known(entries[0], m).key !in out
    requires var d, marked := Known(entries[0], m), seen + [entries[0].a];
             && Exact(Unpack(d.value, m, marked), Sound(d.value, m), Expand(d.value, m), marked, Visited(d.value, m))
             && DigestsExact(entries[1..], m, out[d.key := Expand(d.value, m)], marked + Visited(d.value, m))
    ensures DigestsExact(entries, m, out, seen)
  {
    var e, rest := entries[0], entries[1..];
    var d, marked := Known(e, m), seen + [e.a];
    AllSoundDigestsCons(entries, m);
    FreshSingleton(Elements(seen), e.a);
    ThenFresh(seen, [e.a], Visited(d.value, m));
    assert marked + Visited(d.value, m) == seen + VisitedDigest(e, m);
    ThenFresh(seen, VisitedDigest(e, m), VisitedDigests(rest, m));
    InsertedName(out, d.key, Expand(d.value, m), DisclosedNames(rest, m));
    PutFirst(out, d.key, Expand(d.value, m), ExpandDigests(rest, m));
  }

  lemma InsertedName(out: map<string, Value>, key: string, v: Value, names: seq<string>)
    requires key !in out
    ensures Fresh(out.Keys, [key] + names) <==> Fresh(out[key := v].Keys, names)
  {
    FreshCons(out.Keys, key, names);
    assert out[key := v].Keys == out.Keys + {key};
  }

  lemma FreshSingleton(before: set<Atom>, a: Atom)
    ensures Fresh(before, [a]) <==> a !in before
  {
    assert [a] == [a] + [];
    FreshCons(before, a, []);
  }
}
