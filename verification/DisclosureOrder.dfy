/** How the result of an unpacking depends on the set of disclosures presented. */
module DisclosureOrder {
  import opened JsonData
  import opened Sequences
  import opened Unpacking
  import opened UnpackingTheorems

  /* Only digests that are met matter. */

  function TextOf(e: Json): set<Text> {
    if e.JAtom? && e.a.Str? then {e.a.t} else {}
  }

  // The digests met while expanding j with m, whether or not m knows them.
  function Met(j: Json, m: Mapping): set<Text>
    requires Honest(m)
    decreases j, 0
  {
    match j
    case JAtom(_) => {}
    case JArr(items) => MetItems(items, m)
    case JObj(ms) =>
      MetMembers(ms, m) + (if DigestsOf(ms).Some? then MetDigests(DigestsOf(ms).value, m) else {})
  }

  function MetItems(items: seq<Json>, m: Mapping): set<Text>
    requires Honest(m)
    decreases items, 0
  {
    if items == [] then {}
    else
      (if !IsElementLeaf(items[0]) then Met(items[0], m)
       else
         var t := LeafDigest(items[0]);
         {t} + (if t in m && m[t].ElementDisclosure? then Met(m[t].value, m) else {}))
      + MetItems(items[1..], m)
  }

  function MetMembers(ms: seq<Member>, m: Mapping): set<Text>
    requires Honest(m)
    decreases ms, 0
  {
    if ms == [] then {}
    else (if IsSkipped(ms[0].name) then {} else Met(ms[0].value, m)) + MetMembers(ms[1..], m)
  }

  function MetDigests(entries: seq<Json>, m: Mapping): set<Text>
    requires Honest(m)
    decreases entries, 0
  {
    if entries == [] then {}
    else
      TextOf(entries[0])
      + (if Discloses(entries[0], m) then Met(Known(entries[0], m).value, m) else {})
      + MetDigests(entries[1..], m)
  }

  ghost predicate AgreeOn(ts: set<Text>, m: Mapping, m': Mapping) {
    forall t :: t in ts ==> (t in m <==> t in m')
  }

  /**
   Two honest mappings that know the same digests among those met give the same run:
   the same value, the same error and the same list of digests seen.
   */
  lemma {:induction false} UnpackLocal(j: Json, m: Mapping, m': Mapping, seen: seq<Atom>)
    requires Honest(m) && Honest(m')
    requires AgreeOn(Met(j, m), m, m')
    ensures Unpack(j, m, seen) == Unpack(j, m', seen)
    decreases j, 0
  {
    match j
    case JAtom(_) =>
    case JArr(items) => UnpackItemsLocal(items, m, m', [], seen);
    case JObj(ms) =>
      UnpackMembersLocal(ms, m, m', map[], seen);
      match UnpackMembers(ms, m, map[], seen)
      case Raised(_) =>
      case Returned(pre, s) =>
        if DigestsOf(ms).Some? {
          UnpackDigestsLocal(DigestsOf(ms).value, m, m', pre, s);
        }
  }

  lemma {:induction false} UnpackItemsLocal(items: seq<Json>, m: Mapping, m': Mapping, out: seq<Value>, seen: seq<Atom>)
    requires Honest(m) && Honest(m')
    requires AgreeOn(MetItems(items, m), m, m')
    ensures UnpackItems(items, m, out, seen) == UnpackItems(items, m', out, seen)
    decreases items, 0
  {
    if items == [] {
    } else if !IsElementLeaf(items[0]) {
      UnpackLocal(items[0], m, m', seen);
      match Unpack(items[0], m, seen)
      case Raised(_) =>
      case Returned(v, s) => UnpackItemsLocal(items[1..], m, m', out + [v], s);
    } else {
      var t := LeafDigest(items[0]);
      assert t in MetItems(items, m);
      if t !in m {
        UnpackItemsLocal(items[1..], m, m', out, seen);
      } else {
        assert m[t] == m'[t];
        if m[t].ElementDisclosure? {
          UnpackLocal(m[t].value, m, m', seen);
          match Unpack(m[t].value, m, seen)
          case Raised(_) =>
          case Returned(v, s) => UnpackItemsLocal(items[1..], m, m', out + [v], s);
        }
      }
    }
  }

  lemma {:induction false} UnpackMembersLocal(ms: seq<Member>, m: Mapping, m': Mapping, out: map<string, Value>,
                                              seen: seq<Atom>)
    requires Honest(m) && Honest(m')
    requires AgreeOn(MetMembers(ms, m), m, m')
    ensures UnpackMembers(ms, m, out, seen) == UnpackMembers(ms, m', out, seen)
    decreases ms, 0
  {
    if ms == [] {
    } else if IsSkipped(ms[0].name) {
      UnpackMembersLocal(ms[1..], m, m', out, seen);
    } else {
      UnpackLocal(ms[0].value, m, m', seen);
      match Unpack(ms[0].value, m, seen)
      case Raised(_) =>
      case Returned(v, s) => UnpackMembersLocal(ms[1..], m, m', out[ms[0].name := v], s);
    }
  }

  lemma {:induction false} UnpackDigestsLocal(entries: seq<Json>, m: Mapping, m': Mapping, out: map<string, Value>,
                                              seen: seq<Atom>)
    requires Honest(m) && Honest(m')
    requires AgreeOn(MetDigests(entries, m), m, m')
    ensures UnpackDigests(entries, m, out, seen) == UnpackDigests(entries, m', out, seen)
    decreases entries, 0
  {
    if entries == [] || !entries[0].JAtom? || entries[0].a in seen {
    } else {
      var e, marked := entries[0], seen + [entries[0].a];
      assert TextOf(e) <= MetDigests(entries, m);
      if e.a.Str? {
        assert e.a.t in TextOf(e);
      }
      if !IsKnown(e, m) {
        UnpackDigestsLocal(entries[1..], m, m', out, marked);
      } else if Discloses(e, m) {
        var d := Known(e, m);
        assert Known(e, m') == d;
        UnpackLocal(d.value, m, m', marked);
        match Unpack(d.value, m, marked)
        case Raised(_) =>
        case Returned(v, s) => UnpackDigestsLocal(entries[1..], m, m', out[d.key := v], s);
      }
    }
  }

  /* Presenting more can only show more. */

  ghost predicate SubMapping(m: Mapping, m': Mapping) {
    forall t :: t in m ==> t in m'
  }

  // Everything v shows is in w, with the same scalars; w may have further members and elements.
  predicate Within(v: Value, w: Value)
    decreases v
  {
    match (v, w)
    case (VAtom(a), VAtom(b)) => a == b
    case (VArr(xs), VArr(ys)) => WithinItems(xs, ys)
    case (VObj(f), VObj(g)) => forall k :: k in f ==> k in g && Within(f[k], g[k])
    case _ => false
  }

  // xs is obtained from ys by dropping elements and showing less of the others.
  predicate WithinItems(xs: seq<Value>, ys: seq<Value>)
    decreases xs, |ys|
  {
    || xs == []
    || (ys != [] && Within(xs[0], ys[0]) && WithinItems(xs[1..], ys[1..]))
    || (ys != [] && WithinItems(xs, ys[1..]))
  }

  ghost predicate WithinMap(f: map<string, Value>, g: map<string, Value>) {
    forall k :: k in f ==> k in g && Within(f[k], g[k])
  }

  /**
   If a payload is accepted with some disclosures, it is accepted with any subset of them,
   and what the subset shows is within what all of them show.
   */
  lemma FewerDisclosures(j: Json, m: Mapping, m': Mapping, seen: seq<Atom>)
    requires Honest(m) && Honest(m') && SubMapping(m, m')
    requires Unpack(j, m', seen).Returned?
    ensures Unpack(j, m, seen).Returned?
    ensures Within(Unpack(j, m, seen).value, Unpack(j, m', seen).value)
  {
    UnpackExact(j, m, seen);
    UnpackExact(j, m', seen);
    SoundSmaller(j, m, m');
    VisitedSmaller(j, m, m');
    FreshSmaller(Elements(seen), Visited(j, m), Visited(j, m'));
    ExpandSmaller(j, m, m');
  }

  lemma {:induction false} VisitedSmaller(j: Json, m: Mapping, m': Mapping)
    requires Honest(m) && Honest(m') && SubMapping(m, m')
    ensures multiset(Visited(j, m)) <= multiset(Visited(j, m'))
    decreases j, 0
  {
    match j
    case JAtom(_) =>
    case JArr(items) => VisitedItemsSmaller(items, m, m');
    case JObj(ms) =>
      VisitedMembersSmaller(ms, m, m');
      if DigestsOf(ms).Some? {
        VisitedDigestsSmaller(DigestsOf(ms).value, m, m');
      }
  }

  lemma {:induction false} VisitedItemsSmaller(items: seq<Json>, m: Mapping, m': Mapping)
    requires Honest(m) && Honest(m') && SubMapping(m, m')
    ensures multiset(VisitedItems(items, m)) <= multiset(VisitedItems(items, m'))
    decreases items, 0
  {
    if items == [] {
    } else {
      VisitedItemsSmaller(items[1..], m, m');
      if !IsElementLeaf(items[0]) {
        VisitedSmaller(items[0], m, m');
      } else {
        var t := LeafDigest(items[0]);
        if t in m && m[t].ElementDisclosure? {
          assert m[t] == m'[t];
          VisitedSmaller(m[t].value, m, m');
        }
      }
    }
  }

  lemma {:induction false} VisitedMembersSmaller(ms: seq<Member>, m: Mapping, m': Mapping)
    requires Honest(m) && Honest(m') && SubMapping(m, m')
    ensures multiset(VisitedMembers(ms, m)) <= multiset(VisitedMembers(ms, m'))
    decreases ms, 0
  {
    if ms == [] {
    } else {
      VisitedMembersSmaller(ms[1..], m, m');
      if !IsSkipped(ms[0].name) {
        VisitedSmaller(ms[0].value, m, m');
      }
    }
  }

  lemma {:induction false} VisitedDigestsSmaller(entries: seq<Json>, m: Mapping, m': Mapping)
    requires Honest(m) && Honest(m') && SubMapping(m, m')
    ensures multiset(VisitedDigests(entries, m)) <= multiset(VisitedDigests(entries, m'))
    decreases entries, 0
  {
    if entries == [] {
    } else {
      VisitedDigestsSmaller(entries[1..], m, m');
      VisitedDigestSmaller(entries[0], m, m');
      var v, v' := VisitedDigest(entries[0], m), VisitedDigest(entries[0], m');
      assert multiset(v + VisitedDigests(entries[1..], m)) == multiset(v) + multiset(VisitedDigests(entries[1..], m));
      assert multiset(v' + VisitedDigests(entries[1..], m')) == multiset(v') + multiset(VisitedDigests(entries[1..], m'));
    }
  }

  lemma {:induction false} VisitedDigestSmaller(e: Json, m: Mapping, m': Mapping)
    requires Honest(m) && Honest(m') && SubMapping(m, m')
    ensures multiset(VisitedDigest(e, m)) <= multiset(VisitedDigest(e, m'))
    decreases e, 1
  {
    if Discloses(e, m) {
      var d := Known(e, m);
      assert Known(e, m') == d;
      VisitedSmaller(d.value, m, m');
      assert multiset(VisitedDigest(e, m)) == multiset{e.a} + multiset(Visited(d.value, m));
      assert multiset(VisitedDigest(e, m')) == multiset{e.a} + multiset(Visited(d.value, m'));
    } else if Discloses(e, m') {
      assert multiset(VisitedDigest(e, m')) == multiset{e.a} + multiset(Visited(Known(e, m').value, m'));
    }
  }

  lemma {:induction false} DisclosedNamesSmaller(entries: seq<Json>, m: Mapping, m': Mapping)
    requires Honest(m) && Honest(m') && SubMapping(m, m')
    ensures multiset(DisclosedNames(entries, m)) <= multiset(DisclosedNames(entries, m'))
    decreases |entries|
  {
    if entries == [] {
    } else {
      DisclosedNamesSmaller(entries[1..], m, m');
      if Discloses(entries[0], m) {
        assert Known(entries[0], m) == Known(entries[0], m');
      }
    }
  }

  lemma {:induction false} SoundSmaller(j: Json, m: Mapping, m': Mapping)
    requires Honest(m) && Honest(m') && SubMapping(m, m')
    requires Sound(j, m')
    ensures Sound(j, m)
    decreases j
  {
    match j
    case JAtom(_) =>
    case JArr(items) =>
      forall i | 0 <= i < |items| ensures SoundItem(items[i], m) {
        assert SoundItem(items[i], m');
        if !IsElementLeaf(items[i]) {
          SoundSmaller(items[i], m, m');
        } else {
          var t := LeafDigest(items[i]);
          if t in m {
            assert m[t] == m'[t];
            SoundSmaller(m[t].value, m, m');
          }
        }
      }
    case JObj(ms) =>
      forall i | 0 <= i < |ms| && !IsSkipped(ms[i].name) ensures Sound(ms[i].value, m) {
        SoundSmaller(ms[i].value, m, m');
      }
      var entries := DigestsOf(ms).value;
      forall i | 0 <= i < |entries| ensures SoundDigest(entries[i], m) {
        assert SoundDigest(entries[i], m');
        if IsKnown(entries[i], m) {
          assert Known(entries[i], m) == Known(entries[i], m');
          SoundSmaller(Known(entries[i], m).value, m, m');
        }
      }
      DisclosedNamesSmaller(entries, m, m');
      FreshSmaller(PlainNames(ms), DisclosedNames(entries, m), DisclosedNames(entries, m'));
  }

  lemma {:induction false} ExpandSmaller(j: Json, m: Mapping, m': Mapping)
    requires Honest(m) && Honest(m') && SubMapping(m, m')
    requires Sound(j, m')
    ensures Within(Expand(j, m), Expand(j, m'))
    decreases j, 0
  {
    match j
    case JAtom(_) =>
    case JArr(items) => ExpandItemsSmaller(items, m, m');
    case JObj(ms) =>
      var entries := DigestsOf(ms).value;
      ExpandMembersSmaller(ms, m, m');
      ExpandDigestsSmaller(entries, m, m', PlainNames(ms));
      ExpandMembersKeys(ms, m);
      ExpandMembersKeys(ms, m');
      ExpandDigestsKeys(entries, m');
      var f, g := ExpandMembers(ms, m) + ExpandDigests(entries, m), ExpandMembers(ms, m') + ExpandDigests(entries, m');
      forall k | k in f ensures k in g && Within(f[k], g[k]) {
      }
  }

  // A disclosed name is never a plain one, so the two halves of an object do not overlap.
  lemma {:induction false} ExpandDigestsKeys(entries: seq<Json>, m: Mapping)
    requires Honest(m)
    ensures ExpandDigests(entries, m).Keys == Elements(DisclosedNames(entries, m))
    decreases |entries|
  {
    if entries == [] {
    } else {
      ExpandDigestsKeys(entries[1..], m);
    }
  }

  lemma {:induction false} ExpandItemsSmaller(items: seq<Json>, m: Mapping, m': Mapping)
    requires Honest(m) && Honest(m') && SubMapping(m, m')
    requires AllSoundItems(items, m')
    ensures WithinItems(ExpandItems(items, m), ExpandItems(items, m'))
    decreases items, 0
  {
    if items == [] {
    } else {
      AllSoundItemsCons(items, m');
      ExpandItemsSmaller(items[1..], m, m');
      var xs', ys' := ExpandItems(items[1..], m), ExpandItems(items[1..], m');
      if !IsElementLeaf(items[0]) {
        ExpandSmaller(items[0], m, m');
        WithinItemsCons(Expand(items[0], m), xs', Expand(items[0], m'), ys');
      } else {
        var t := LeafDigest(items[0]);
        if t in m && m[t].ElementDisclosure? {
          assert m[t] == m'[t];
          ExpandSmaller(m[t].value, m, m');
          WithinItemsCons(Expand(m[t].value, m), xs', Expand(m[t].value, m'), ys');
        } else if t in m' && m'[t].ElementDisclosure? {
          WithinItemsSkip(xs', Expand(m'[t].value, m'), ys');
          assert ExpandItems(items, m) == xs';
        } else {
          assert ExpandItems(items, m) == xs' && ExpandItems(items, m') == ys';
        }
      }
    }
  }

  lemma WithinItemsCons(x: Value, xs: seq<Value>, y: Value, ys: seq<Value>)
    requires Within(x, y) && WithinItems(xs, ys)
    ensures WithinItems([x] + xs, [y] + ys)
  {
    assert ([x] + xs)[1..] == xs && ([y] + ys)[1..] == ys;
  }

  lemma WithinItemsSkip(xs: seq<Value>, y: Value, ys: seq<Value>)
    requires WithinItems(xs, ys)
    ensures WithinItems(xs, [y] + ys)
  {
    assert ([y] + ys)[1..] == ys;
  }

  lemma {:induction false} ExpandMembersSmaller(ms: seq<Member>, m: Mapping, m': Mapping)
    requires Honest(m) && Honest(m') && SubMapping(m, m')
    requires AllSoundMembers(ms, m')
    ensures WithinMap(ExpandMembers(ms, m), ExpandMembers(ms, m'))
    decreases ms, 0
  {
    if ms == [] {
    } else {
      AllSoundMembersCons(ms, m');
      ExpandMembersSmaller(ms[1..], m, m');
      ExpandMembersKeys(ms[1..], m);
      ExpandMembersKeys(ms[1..], m');
      if !IsSkipped(ms[0].name) {
        ExpandSmaller(ms[0].value, m, m');
      }
    }
  }

  lemma {:induction false} ExpandDigestsSmaller(entries: seq<Json>, m: Mapping, m': Mapping, before: set<string>)
    requires Honest(m) && Honest(m') && SubMapping(m, m')
    requires AllSoundDigests(entries, m') && Fresh(before, DisclosedNames(entries, m'))
    ensures WithinMap(ExpandDigests(entries, m), ExpandDigests(entries, m'))
    decreases entries, 0
  {
    if entries == [] {
    } else {
      AllSoundDigestsCons(entries, m');
      var e, rest := entries[0], entries[1..];
      if Discloses(e, m') {
        var d := Known(e, m');
        FreshCons(before, d.key, DisclosedNames(rest, m'));
        ExpandDigestsSmaller(rest, m, m', before + {d.key});
        ExpandDigestsKeys(rest, m);
        ExpandDigestsKeys(rest, m');
        DisclosedNamesSmaller(rest, m, m');
        if Discloses(e, m) {
          assert Known(e, m) == d;
          ExpandSmaller(d.value, m, m');
        } else {
          forall k | k in ExpandDigests(rest, m) ensures k != d.key {
            assert k in multiset(DisclosedNames(rest, m));
          }
        }
      } else {
        assert [] + DisclosedNames(rest, m') == DisclosedNames(rest, m');
        ExpandDigestsSmaller(rest, m, m', before);
      }
    }
  }
}
