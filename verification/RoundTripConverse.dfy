/** The round trip gives back the claims only if they hold no reserved key and no fake leaf. */
module RoundTripConverse {
  import opened JsonData
  import opened Unpacking
  import opened UnpackingTheorems
  import opened Issuance
  import opened DigestLists
  import opened IssuedFacts
  import opened RoundTrip
  import opened ViewTheorem
  import opened ClaimLimits

  /* What an expansion can show lies inside what is expanded. */

  predicate Shows(v: Value, t: Text)
    decreases v
  {
    match v
    case VAtom(a) => a == Str(t)
    case VArr(items) => exists i :: 0 <= i < |items| && Shows(items[i], t)
    case VObj(members) => exists k :: k in members && Shows(members[k], t)
  }

  ghost predicate TextInItems(items: seq<Json>, t: Text) {
    items decreases to t
  }

  ghost predicate TextInMembers(ms: seq<Member>, t: Text) {
    ms decreases to t
  }

  lemma {:induction false} ShownIsInside(j: Json, m: Mapping, t: Text)
    requires Honest(m) && Shows(Expand(j, m), t)
    ensures TextInside(j, t)
    decreases j, 0
  {
    match j
    case JAtom(_) =>
    case JArr(items) => ShownByItems(items, m, t);
    case JObj(ms) =>
      var k :| k in Expand(j, m).members && Shows(Expand(j, m).members[k], t);
      var entries := if DigestsOf(ms).Some? then DigestsOf(ms).value else [];
      if k in ExpandDigests(entries, m) {
        ShownByDigests(entries, m, k, t);
      } else {
        ShownByMembers(ms, m, k, t);
      }
  }

  lemma {:induction false} ShownByItems(items: seq<Json>, m: Mapping, t: Text)
    requires Honest(m) && Shows(VArr(ExpandItems(items, m)), t)
    ensures TextInItems(items, t)
    decreases items, 0
  {
    if items == [] {
    } else {
      var shown, rest := ExpandItem(items[0], m), ExpandItems(items[1..], m);
      var i :| 0 <= i < |shown + rest| && Shows((shown + rest)[i], t);
      if i < |shown| {
        ShownByItem(items[0], m, t);
      } else {
        assert Shows(rest[i - |shown|], t);
        ShownByItems(items[1..], m, t);
      }
    }
  }

  lemma {:induction false} ShownByItem(j: Json, m: Mapping, t: Text)
    requires Honest(m) && ExpandItem(j, m) != [] && Shows(ExpandItem(j, m)[0], t)
    ensures TextInside(j, t)
    decreases j, 1
  {
    if !IsElementLeaf(j) {
      ShownIsInside(j, m, t);
    } else {
      ShownIsInside(m[LeafDigest(j)].value, m, t);
    }
  }

  lemma {:induction false} ShownByMembers(ms: seq<Member>, m: Mapping, k: string, t: Text)
    requires Honest(m) && k in ExpandMembers(ms, m) && Shows(ExpandMembers(ms, m)[k], t)
    ensures TextInMembers(ms, t)
    decreases ms, 0
  {
    if ms == [] {
    } else {
      if k in ExpandMembers(ms[1..], m) {
        ShownByMembers(ms[1..], m, k, t);
      } else {
        ShownIsInside(ms[0].value, m, t);
      }
    }
  }

  lemma {:induction false} ShownByDigests(entries: seq<Json>, m: Mapping, k: string, t: Text)
    requires Honest(m) && k in ExpandDigests(entries, m) && Shows(ExpandDigests(entries, m)[k], t)
    ensures TextInItems(entries, t)
    decreases entries, 0
  {
    if entries == [] {
    } else {
      if k in ExpandDigests(entries[1..], m) {
        ShownByDigests(entries[1..], m, k, t);
      } else {
        ShownIsInside(Known(entries[0], m).value, m, t);
      }
    }
  }

  // A fake leaf is never shown as it is, whatever its text means to the verifier.
  lemma FakeLeafIsNotShown(c: Claim, m: Mapping)
    requires Honest(m) && IsFakeLeaf(c)
    ensures ExpandItem(ElementLeaf(c.members[0].value.a.t), m) != [RemoveSdObjWrappers(c)]
  {
    var t := c.members[0].value.a.t;
    if t in m && m[t].ElementDisclosure? && Expand(m[t].value, m) == RemoveSdObjWrappers(c) {
      assert c.members[1..] == [];
      assert RemoveFromMembers(c.members) == map[SD_LIST_PREFIX := VAtom(Str(t))];
      var v := RemoveSdObjWrappers(c);
      assert SD_LIST_PREFIX in v.members && Shows(v.members[SD_LIST_PREFIX], t);
      ShownIsInside(m[t].value, m, t);
      assert false;
    }
  }

  /* The converse, by induction on the claims. */

  // Claims that are issued without error and give distinct names to the members of a dict.
  ghost predicate Proper(c: Claim) {
    NoStray(c) && AreDicts(c) && NoPlainSd(c) && NoClash(c)
  }

  ghost predicate ProperItem(c: Claim) {
    NoStrayItem(c) && AreDicts(c) && NoPlainSd(c) && NoClash(c)
  }

  ghost predicate ProperMembers(ms: seq<ClaimMember>) {
    && NamesApart(ms)
    && forall i :: 0 <= i < |ms| ==> !IsReserved(ms[i].key) && Proper(ms[i].value)
  }

  lemma {:induction false} RemovedKeys(ms: seq<ClaimMember>, x: string)
    ensures x in RemoveFromMembers(ms) ==> x in SdNames(ms) || x in PlainKeyNames(ms)
    decreases |ms|
  {
    if ms == [] {
    } else {
      RemovedKeys(ms[1..], x);
    }
  }

  lemma {:induction false} ShownKeys(ms: seq<ClaimMember>, env: Env, n: nat, m: Mapping, x: string)
    requires Honest(m) && ReadableKeys(ms)
    ensures var f := IssueMembers(ms, env, n).out;
            x in ExpandMembers(f.plain, m) + ExpandTexts(f.digests, m) ==> x in SdNames(ms) || x in PlainKeyNames(ms)
  {
    var f := IssueMembers(ms, env, n).out;
    ExpandMembersKeys(f.plain, m);
    PlainNamesExact(ms, env, n);
    ExpandTextsKeys(f.digests, m);
    DisclosedAmongSdNames(ms, env, n, m);
    if x in NamesOfTexts(f.digests, m) {
      assert x in multiset(SdNames(ms));
    }
  }

  lemma SameHead<V>(k: string, v: V, f: map<string, V>, w: V, g: map<string, V>)
    requires k !in f && k !in g && map[k := v] + f == map[k := w] + g
    ensures v == w && f == g
  {
    var a, b := map[k := v] + f, map[k := w] + g;
    assert a[k] == v && b[k] == w;
    assert forall x :: x in f ==> a[x] == f[x] && x in b;
    assert forall x :: x in g ==> b[x] == g[x] && x in a;
  }

  lemma {:induction false} OnlyReadableComesBack(c: Claim, env: Env, n: nat, m: Mapping)
    requires ValidEnv(env) && Proper(c) && Honest(m) && Covers(Issue(c, env, n).disclosures, m)
    requires Expand(Issue(c, env, n).out, m) == RemoveSdObjWrappers(c)
    ensures NoReserved(c, HasDecoys(env))
    decreases c, 0
  {
    match c
    case Leaf(_) =>
    case SDObj(_) =>
    case List(items) => OnlyReadableItems(items, env, n, m);
    case Dict(ms) =>
      NoAlgKey(ms, env, n, m);
      ExpandObject(ms, env, n, m);
      OnlyReadableMembers(ms, env, n, m);
  }

  // A plain "_sd_alg" key would be missing.
  lemma NoAlgKey(ms: seq<ClaimMember>, env: Env, n: nat, m: Mapping)
    requires ValidEnv(env) && Proper(Dict(ms)) && Honest(m)
    requires Expand(Issue(Dict(ms), env, n).out, m) == RemoveSdObjWrappers(Dict(ms))
    ensures ProperMembers(ms) && ReadableKeys(ms)
  {
    forall i | 0 <= i < |ms| ensures !IsReserved(ms[i].key) {
      if ms[i].key == Name(DIGEST_ALG_KEY) {
        SdAlgIsDropped(ms, i, env, n, m);
      }
    }
  }

  lemma {:induction false} OnlyReadableMembers(ms: seq<ClaimMember>, env: Env, n: nat, m: Mapping)
    requires ValidEnv(env) && ProperMembers(ms) && Honest(m) && Covers(IssueMembers(ms, env, n).disclosures, m)
    requires var f := IssueMembers(ms, env, n).out;
             ExpandMembers(f.plain, m) + ExpandTexts(f.digests, m) == RemoveFromMembers(ms)
    ensures forall i :: 0 <= i < |ms| ==> NoReserved(ms[i].value, HasDecoys(env))
    decreases ms, 0
  {
    if ms == [] {
    } else {
      var k, rest := ms[0].key.name, ms[1..];
      var h := IssueMember(ms[0], env, n);
      var t := IssueMembers(rest, env, h.next);
      CoversParts(h.disclosures, t.disclosures, m);
      NamesApartCons(ms);
      PlainNamesExact(rest, env, h.next);
      MemberShown(ms[0], env, n, t.out, m);
      ShownKeys(rest, env, h.next, m, k);
      RemovedKeys(rest, k);
      SameHead(k, Expand(Issue(ms[0].value, env, n).out, m), ExpandMembers(t.out.plain, m) + ExpandTexts(t.out.digests, m),
               RemoveSdObjWrappers(ms[0].value), RemoveFromMembers(rest));
      OnlyReadableMember(ms[0], env, n, m);
      OnlyReadableMembers(rest, env, h.next, m);
    }
  }

  lemma OnlyReadableMember(member: ClaimMember, env: Env, n: nat, m: Mapping)
    requires ValidEnv(env) && Proper(member.value) && Honest(m) && Covers(IssueMember(member, env, n).disclosures, m)
    requires Expand(Issue(member.value, env, n).out, m) == RemoveSdObjWrappers(member.value)
    ensures NoReserved(member.value, HasDecoys(env))
    decreases member, 0
  {
    var v := Issue(member.value, env, n);
    if member.key.SDKey? {
      CoversParts(v.disclosures, [MemberDisclosure(v.next, member.key.name, v.out)], m);
    }
    OnlyReadableComesBack(member.value, env, n, m);
  }

  // A disclosed or plain member is shown under its name.
  lemma MemberShown(member: ClaimMember, env: Env, n: nat, t: Fields, m: Mapping)
    requires !IsReserved(member.key) && Honest(m) && Covers(IssueMember(member, env, n).disclosures, m)
    requires member.key.name !in PlainNames(t.plain)
    ensures var f := IssueMember(member, env, n).out;
            ExpandMembers(f.plain + t.plain, m) + ExpandTexts(f.digests + t.digests, m) ==
            map[member.key.name := Expand(Issue(member.value, env, n).out, m)]
            + (ExpandMembers(t.plain, m) + ExpandTexts(t.digests, m))
  {
    var v := Issue(member.value, env, n);
    match member.key
    case Name(name) => ExpandPlainStep(Member(name, v.out), t, m);
    case SDKey(name) =>
      var d := MemberDisclosure(v.next, name, v.out);
      CoversParts(v.disclosures, [d], m);
      assert DigestOf([d][0]) in m;
      ExpandSdStep(d, t, m);
  }

  lemma {:induction false} OnlyReadableItems(items: seq<Claim>, env: Env, n: nat, m: Mapping)
    requires ValidEnv(env) && (forall i :: 0 <= i < |items| ==> ProperItem(items[i])) && Honest(m)
    requires Covers(IssueItems(items, env, n).disclosures, m)
    requires ExpandItems(IssueItems(items, env, n).out, m) == RemoveFromItems(items)
    ensures NoReserved(List(items), HasDecoys(env))
    decreases items, 0
  {
    if items == [] {
    } else {
      var h := IssueItem(items[0], env, n);
      var t := IssueItems(items[1..], env, h.next);
      assert ([h.out] + t.out)[1..] == t.out;
      CoversParts(h.disclosures, t.disclosures, m);
      OneEach(items, env, n, m);
      OnlyReadableItem(items[0], env, n, m);
      OnlyReadableItems(items[1..], env, h.next, m);
    }
  }

  // If as many elements come back as went in, each comes from its own.
  lemma OneEach(items: seq<Claim>, env: Env, n: nat, m: Mapping)
    requires Honest(m) && items != [] && ExpandItems(IssueItems(items, env, n).out, m) == RemoveFromItems(items)
    ensures ExpandItem(IssueItem(items[0], env, n).out, m) == [RemoveSdObjWrappers(items[0])]
    ensures ExpandItems(IssueItems(items[1..], env, IssueItem(items[0], env, n).next).out, m) == RemoveFromItems(items[1..])
  {
    var h := IssueItem(items[0], env, n);
    var t := IssueItems(items[1..], env, h.next);
    assert ([h.out] + t.out)[1..] == t.out;
    var one, rest := ExpandItem(h.out, m), ExpandItems(t.out, m);
    RemovedLength(items[1..]);
    IssuedLength(items[1..], env, h.next);
    NoMoreItems(t.out, m);
    assert |one| == 1;
    assert (one + rest)[0] == one[0] && (one + rest)[1..] == rest;
    assert RemoveFromItems(items)[1..] == RemoveFromItems(items[1..]);
  }

  lemma OnlyReadableItem(c: Claim, env: Env, n: nat, m: Mapping)
    requires ValidEnv(env) && ProperItem(c) && Honest(m) && Covers(IssueItem(c, env, n).disclosures, m)
    requires ExpandItem(IssueItem(c, env, n).out, m) == [RemoveSdObjWrappers(c)]
    ensures NoReserved(c, HasDecoys(env)) && (IsFakeLeaf(c) ==> HasDecoys(env))
    decreases c, 1
  {
    if c.SDObj? {
      var i := Issue(c.value, env, n);
      var d := ElementDisclosure(i.next, i.out);
      CoversParts(i.disclosures, [d], m);
      assert DigestOf([d][0]) in m;
      OnlyReadableComesBack(c.value, env, n, m);
    } else if IsFakeLeaf(c) && !HasDecoys(env) {
      assert env.decoyCount(n) == 0;
      FakeLeafIssued(c, env, n);
      FakeLeafIsNotShown(c, m);
    } else {
      IssuedIsNoLeaf(c, env, n);
      OnlyReadableComesBack(c, env, n, m);
    }
  }

  /**
   When the round trip holds, exactly. For claims without stray SDObj, plain "_sd" keys or
   clashing names, any decoys, any digest order and any mapping that holds all the disclosures:
   unpacking returns the claims without their SDObj wrappers iff no dict anywhere has a plain
   "_sd_alg" key and, unless there are decoys, no list anywhere a plain element of the form
   {"...": text}.
   */
  lemma RoundTripExact(c: Claim, env: Env, n: nat, m: Mapping)
    requires ValidEnv(env) && Proper(c) && Honest(m) && Covers(Issue(c, env, n).disclosures, m)
    ensures var o := Unpack(Issue(c, env, n).out, m, []);
            (o.Returned? && o.value == RemoveSdObjWrappers(c)) <==> NoReserved(c, HasDecoys(env))
  {
    UnpackExact(Issue(c, env, n).out, m, []);
    if NoReserved(c, HasDecoys(env)) {
      FullRoundTrip(c, env, n, m);
    } else if Unpack(Issue(c, env, n).out, m, []).Returned? && Expand(Issue(c, env, n).out, m) == RemoveSdObjWrappers(c) {
      OnlyReadableComesBack(c, env, n, m);
    }
  }
}
