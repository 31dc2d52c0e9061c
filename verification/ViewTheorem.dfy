/** What a verifier reads off an issued payload when a holder has chosen what to disclose. */
module ViewTheorem {
  import opened JsonData
  import opened Wrappers
  import opened Sequences
  import opened Unpacking
  import opened UnpackingTheorems
  import opened Issuance
  import opened Selection
  import opened DigestLists
  import opened IssuedFacts
  import opened RoundTrip

  /* Reading one more member. */

  lemma {:induction false} ExpandPlainStep(member: Member, t: Fields, m: Mapping)
    requires Honest(m) && !IsSkipped(member.name)
    ensures ExpandMembers([member] + t.plain, m) + ExpandTexts([] + t.digests, m) ==
            map[member.name := Expand(member.value, m)] + (ExpandMembers(t.plain, m) + ExpandTexts(t.digests, m))
  {
    assert ([member] + t.plain)[1..] == t.plain;
    assert [] + t.digests == t.digests;
  }

  lemma {:induction false} ExpandSdStep(d: Disclosure, t: Fields, m: Mapping)
    requires Honest(m) && d.MemberDisclosure? && d.key !in PlainNames(t.plain)
    ensures ExpandMembers([] + t.plain, m) + ExpandTexts([DigestOf(d)] + t.digests, m) ==
            (if DigestOf(d) in m then map[d.key := Expand(d.value, m)] else map[])
            + (ExpandMembers(t.plain, m) + ExpandTexts(t.digests, m))
  {
    assert [] + t.plain == t.plain;
    TextsCons(DigestOf(d), t.digests, m, RNone);
    ExpandMembersKeys(t.plain, m);
  }

  // Disclosed names are among the SDObj names, each at most once.
  lemma {:induction false} DisclosedAmongSdNames(ms: seq<ClaimMember>, env: Env, n: nat, m: Mapping)
    requires Honest(m)
    ensures multiset(NamesOfTexts(IssueMembers(ms, env, n).out.digests, m)) <= multiset(SdNames(ms))
    decreases |ms|
  {
    if ms == [] {
    } else {
      var h := IssueMember(ms[0], env, n);
      var t := IssueMembers(ms[1..], env, h.next);
      DisclosedAmongSdNames(ms[1..], env, h.next, m);
      if ms[0].key.SDKey? {
        TextsCons(h.out.digests[0], t.out.digests, m, RNone);
      } else {
        assert h.out.digests + t.out.digests == t.out.digests;
      }
    }
  }

  lemma UnsortedNames(ms: seq<ClaimMember>, env: Env, n: nat, m: Mapping)
    requires ReadableKeys(ms) && NamesApart(ms) && Honest(m)
    ensures Fresh({}, NamesOfTexts(Unsorted(ms, env, n), m))
    ensures ExpandTexts(Unsorted(ms, env, n), m) == ExpandTexts(IssueMembers(ms, env, n).out.digests, m)
  {
    var i := IssueMembers(ms, env, n);
    DecoysAreInert(i.out.digests, i.next, env.decoyCount(i.next), m, RNone);
    DisclosedAmongSdNames(ms, env, n, m);
    NamesApartExact(ms);
    FreshSmaller(PlainKeyNames(ms), NamesOfTexts(i.out.digests, m), SdNames(ms));
  }

  lemma ExpandJObj(ms: seq<Member>, ts: seq<Text>, m: Mapping)
    requires Honest(m) && DigestsOf(ms) == Some(DigestList(ts))
    ensures Expand(JObj(ms), m) == VObj(ExpandMembers(ms, m) + ExpandTexts(ts, m))
  {
  }

  lemma {:induction false} SortedExpansion(ms: seq<ClaimMember>, env: Env, n: nat, m: Mapping)
    requires ValidEnv(env) && ReadableKeys(ms) && NamesApart(ms) && Honest(m)
    ensures var sorted, f := env.order(Unsorted(ms, env, n)), IssueMembers(ms, env, n).out;
            && DigestsOf(Issue(Dict(ms), env, n).out.members) == Some(DigestList(sorted))
            && ExpandMembers(Issue(Dict(ms), env, n).out.members, m) == ExpandMembers(f.plain, m)
            && ExpandTexts(sorted, m) == ExpandTexts(f.digests, m)
  {
    IssuedObject(ms, env, n, m, RNone);
    UnsortedNames(ms, env, n, m);
  }

  // Decoys and sorting do not change what an object expands to.
  lemma ExpandObject(ms: seq<ClaimMember>, env: Env, n: nat, m: Mapping)
    requires ValidEnv(env) && ReadableKeys(ms) && NamesApart(ms) && Honest(m)
    ensures var f := IssueMembers(ms, env, n).out;
            Expand(Issue(Dict(ms), env, n).out, m) == VObj(ExpandMembers(f.plain, m) + ExpandTexts(f.digests, m))
  {
    SortedExpansion(ms, env, n, m);
    ExpandJObj(Issue(Dict(ms), env, n).out.members, env.order(Unsorted(ms, env, n)), m);
  }

  /* Everything disclosed. */

  lemma {:induction false} IssuedExpands(c: Claim, env: Env, n: nat, m: Mapping)
    requires ValidEnv(env) && Good(c, env) && NoClash(c) && Honest(m)
    requires Covers(Issue(c, env, n).disclosures, m)
    ensures Expand(Issue(c, env, n).out, m) == RemoveSdObjWrappers(c)
    decreases c, 0
  {
    GoodParts(c, env);
    match c
    case Leaf(_) =>
    case SDObj(_) =>
    case List(items) => IssuedItemsExpand(items, env, n, m);
    case Dict(ms) =>
      IssuedMembersExpand(ms, env, n, m);
      ExpandObject(ms, env, n, m);
  }

  lemma {:induction false} IssuedItemsExpand(items: seq<Claim>, env: Env, n: nat, m: Mapping)
    requires ValidEnv(env) && GoodItems(items, env) && NoClash(List(items)) && Honest(m)
    requires Covers(IssueItems(items, env, n).disclosures, m)
    ensures ExpandItems(IssueItems(items, env, n).out, m) == RemoveFromItems(items)
    decreases items, 0
  {
    if items == [] {
    } else {
      var h := IssueItem(items[0], env, n);
      var t := IssueItems(items[1..], env, h.next);
      assert GoodItem(items[0], env) && GoodItems(items[1..], env);
      NoClashCons(items);
      CoversParts(h.disclosures, t.disclosures, m);
      IssuedItemExpands(items[0], env, n, m);
      IssuedItemsExpand(items[1..], env, h.next, m);
      assert ([h.out] + t.out)[1..] == t.out;
    }
  }

  lemma {:induction false} IssuedItemExpands(c: Claim, env: Env, n: nat, m: Mapping)
    requires ValidEnv(env) && GoodItem(c, env) && NoClash(c) && Honest(m)
    requires Covers(IssueItem(c, env, n).disclosures, m)
    ensures ExpandItem(IssueItem(c, env, n).out, m) == [RemoveSdObjWrappers(c)]
    decreases c, 1
  {
    if !c.SDObj? {
      IssuedIsNoLeaf(c, env, n);
      IssuedExpands(c, env, n, m);
    } else {
      var i := Issue(c.value, env, n);
      var d := ElementDisclosure(i.next, i.out);
      CoversParts(i.disclosures, [d], m);
      assert DigestOf([d][0]) in m;
      IssuedExpands(c.value, env, n, m);
    }
  }

  lemma {:induction false} IssuedMembersExpand(ms: seq<ClaimMember>, env: Env, n: nat, m: Mapping)
    requires ValidEnv(env) && GoodMembers(ms, env) && NamesApart(ms) && NoClashInside(ms) && Honest(m)
    requires Covers(IssueMembers(ms, env, n).disclosures, m)
    ensures var f := IssueMembers(ms, env, n).out;
            ExpandMembers(f.plain, m) + ExpandTexts(f.digests, m) == RemoveFromMembers(ms)
    decreases ms, 0
  {
    if ms == [] {
    } else {
      var h := IssueMember(ms[0], env, n);
      var t := IssueMembers(ms[1..], env, h.next);
      GoodTail(ms, env);
      CoversParts(h.disclosures, t.disclosures, m);
      NamesApartCons(ms);
      NoClashInsideCons(ms);
      IssuedMembersExpand(ms[1..], env, h.next, m);
      PlainNamesExact(ms[1..], env, h.next);
      IssuedMemberExpands(ms[0], env, n, t.out, m);
    }
  }

  lemma {:induction false} IssuedMemberExpands(member: ClaimMember, env: Env, n: nat, t: Fields, m: Mapping)
    requires ValidEnv(env) && Good(member.value, env) && !IsReserved(member.key) && NoClash(member.value) && Honest(m)
    requires Covers(IssueMember(member, env, n).disclosures, m)
    requires member.key.name !in PlainNames(t.plain)
    ensures var f := IssueMember(member, env, n).out;
            ExpandMembers(f.plain + t.plain, m) + ExpandTexts(f.digests + t.digests, m) ==
            map[member.key.name := RemoveSdObjWrappers(member.value)]
            + (ExpandMembers(t.plain, m) + ExpandTexts(t.digests, m))
    decreases member, 0
  {
    var v := Issue(member.value, env, n);
    match member.key
    case Name(name) =>
      IssuedExpands(member.value, env, n, m);
      ExpandPlainStep(Member(name, v.out), t, m);
    case SDKey(name) =>
      var d := MemberDisclosure(v.next, name, v.out);
      CoversParts(v.disclosures, [d], m);
      assert DigestOf([d][0]) in m;
      IssuedExpands(member.value, env, n, m);
      ExpandSdStep(d, t, m);
  }

  /**
   The round trip, exactly. For every good claims tree, with any decoys and any digest order,
   and any mapping that holds all the disclosures: unpacking returns iff no dict has an SDObj
   name that repeats a plain one, and then returns the claims without their SDObj wrappers.
   */
  lemma FullRoundTrip(c: Claim, env: Env, n: nat, m: Mapping)
    requires ValidEnv(env) && Good(c, env) && Honest(m)
    requires Covers(Issue(c, env, n).disclosures, m)
    ensures Unpack(Issue(c, env, n).out, m, []).Returned? <==> NoClash(c)
    ensures NoClash(c) ==> Unpack(Issue(c, env, n).out, m, []).value == RemoveSdObjWrappers(c)
  {
    var j := Issue(c, env, n).out;
    UnpackExact(j, m, []);
    IssuedSound(c, env, n, m);
    IssuedVisits(c, env, n, m);
    assert Elements<Atom>([]) == {};
    if NoClash(c) {
      IssuedExpands(c, env, n, m);
    }
  }

  /* The holder's choice. */

  // What the claims say to someone shown what request r asks for.
  function View(c: Claim, r: Request): Value
    decreases c, 0
  {
    match c
    case Leaf(a) => VAtom(a)
    case List(items) => VArr(ViewItems(items, r, 0))
    case Dict(ms) => VObj(ViewMembers(ms, r))
    case SDObj(v) => View(v, r)
  }

  // An SDObj element is shown iff its entry is not refused; other elements always are.
  function ViewItems(items: seq<Claim>, r: Request, i: nat): seq<Value>
    decreases items, 0
  {
    if items == [] then []
    else (if items[0].SDObj? && Refuses(At(r, i)) then [] else [View(items[0], At(r, i))]) + ViewItems(items[1..], r, i + 1)
  }

  // An SDObj member is shown iff its entry is truthy; other members always are.
  function ViewMembers(ms: seq<ClaimMember>, r: Request): map<string, Value>
    decreases ms, 0
  {
    if ms == [] then map[]
    else
      var h := ms[0];
      assert h.value < Dict(ms);
      (if h.key.SDKey? && !Truthy(Get(r, h.key.name)) then map[]
       else map[h.key.name := View(h.value, Get(r, h.key.name))])
      + ViewMembers(ms[1..], r)
  }

  // A selection takes its disclosures from ds, each at most as often as it occurs there.
  ghost predicate FromThese(s: Selected, ds: seq<Disclosure>) {
    s.Ok? ==> multiset(s.value) <= multiset(ds)
  }

  lemma FromTheseThen(a: Selected, b: Selected, ds: seq<Disclosure>, es: seq<Disclosure>)
    requires FromThese(a, ds) && FromThese(b, es)
    ensures FromThese(Then(a, b), ds + es)
  {
    if a.Ok? && b.Ok? {
      assert multiset(a.value + b.value) == multiset(a.value) + multiset(b.value);
      assert multiset(ds + es) == multiset(ds) + multiset(es);
    }
  }

  lemma {:induction false} SelectsIssued(c: Claim, env: Env, n: nat, r: Request, m: Mapping)
    requires ValidEnv(env) && Good(c, env) && Honest(m)
    ensures FromThese(Select(Issue(c, env, n).out, r, m), Issue(c, env, n).disclosures)
    decreases c, 0
  {
    GoodParts(c, env);
    match c
    case Leaf(_) =>
    case SDObj(_) =>
    case List(items) => SelectsIssuedItems(items, env, n, r, 0, m);
    case Dict(ms) =>
      SelectsIssuedMembers(ms, env, n, r, m);
      SelectObject(ms, env, n, r, m);
  }

  lemma {:induction false} SelectsIssuedItems(items: seq<Claim>, env: Env, n: nat, r: Request, i: nat, m: Mapping)
    requires ValidEnv(env) && GoodItems(items, env) && Honest(m)
    ensures FromThese(SelectItems(IssueItems(items, env, n).out, r, i, m), IssueItems(items, env, n).disclosures)
    decreases items, 0
  {
    if items == [] {
    } else {
      var h := IssueItem(items[0], env, n);
      var t := IssueItems(items[1..], env, h.next);
      assert GoodItem(items[0], env) && GoodItems(items[1..], env);
      SelectsIssuedItem(items[0], env, n, At(r, i), m);
      SelectsIssuedItems(items[1..], env, h.next, r, i + 1, m);
      assert ([h.out] + t.out)[1..] == t.out;
      FromTheseThen(SelectItem(h.out, At(r, i), m), SelectItems(t.out, r, i + 1, m), h.disclosures, t.disclosures);
    }
  }

  lemma {:induction false} SelectsIssuedItem(c: Claim, env: Env, n: nat, r: Request, m: Mapping)
    requires ValidEnv(env) && GoodItem(c, env) && Honest(m)
    ensures FromThese(SelectItem(IssueItem(c, env, n).out, r, m), IssueItem(c, env, n).disclosures)
    decreases c, 1
  {
    if !c.SDObj? {
      IssuedIsNoLeaf(c, env, n);
      SelectsIssued(c, env, n, r, m);
    } else {
      var i := Issue(c.value, env, n);
      var d := ElementDisclosure(i.next, i.out);
      SelectsIssued(c.value, env, n, r, m);
      if DigestOf(d) in m && !Refuses(r) {
        FromTheseThen(Ok([d]), Select(i.out, r, m), [d], i.disclosures);
      }
    }
  }

  // The selection from a dict's fields, in issuing order.
  function SelectFields(f: Fields, r: Request, m: Mapping): Selected
    requires Honest(m)
  {
    Then(SelectTexts(f.digests, r, m), SelectMembers(f.plain, r, m))
  }

  lemma SelectObject(ms: seq<ClaimMember>, env: Env, n: nat, r: Request, m: Mapping)
    requires ValidEnv(env) && GoodMembers(ms, env) && Honest(m)
    ensures var s := Select(Issue(Dict(ms), env, n).out, r, m);
            && (r.RNone? ==> s == Ok([]))
            && (!r.RNone? && FitsDict(r) ==> SameSelection(s, SelectFields(IssueMembers(ms, env, n).out, r, m)))
            && (!FitsDict(r) ==> s.Err?)
  {
    SelectJObj(Issue(Dict(ms), env, n).out.members, r, m);
    SortedSelection(ms, env, n, r, m);
    SelectUnsorted(ms, env, n, r, m);
  }

  lemma SelectJObj(ms: seq<Member>, r: Request, m: Mapping)
    requires Honest(m)
    ensures Select(JObj(ms), r, m) ==
            if r.RNone? then Ok([]) else if !FitsDict(r) then Err(RequestShape) else SelectMembers(ms, r, m)
  {
  }

  // The walk of an issued object reads its sorted digests, then its plain members.
  lemma SortedSelection(ms: seq<ClaimMember>, env: Env, n: nat, r: Request, m: Mapping)
    requires ValidEnv(env) && GoodMembers(ms, env) && Honest(m)
    ensures SelectMembers(Issue(Dict(ms), env, n).out.members, r, m) ==
            Then(SelectTexts(env.order(Unsorted(ms, env, n)), r, m), SelectMembers(IssueMembers(ms, env, n).out.plain, r, m))
  {
    PlainNamesAreClaimNames(ms, env, n);
    AssembledMembers(IssueMembers(ms, env, n).out.plain, env.order(Unsorted(ms, env, n)), m, r);
  }

  lemma {:induction false} SelectUnsorted(ms: seq<ClaimMember>, env: Env, n: nat, r: Request, m: Mapping)
    requires ValidEnv(env) && Honest(m)
    ensures var f := IssueMembers(ms, env, n).out;
            SameSelection(Then(SelectTexts(env.order(Unsorted(ms, env, n)), r, m), SelectMembers(f.plain, r, m)),
                          SelectFields(f, r, m))
  {
    var i := IssueMembers(ms, env, n);
    var sorted := env.order(Unsorted(ms, env, n));
    assert multiset(sorted) == multiset(Unsorted(ms, env, n));
    PermutedDigests(sorted, Unsorted(ms, env, n), m, r);
    DecoysAreInert(i.out.digests, i.next, env.decoyCount(i.next), m, r);
    ThenSame(SelectTexts(sorted, r, m), SelectMembers(i.out.plain, r, m), SelectTexts(i.out.digests, r, m),
             SelectMembers(i.out.plain, r, m));
  }

  lemma SelectPlainStep(member: Member, t: Fields, r: Request, m: Mapping)
    requires Honest(m) && !IsSkipped(member.name)
    ensures SameSelection(SelectFields(Fields([member] + t.plain, [] + t.digests), r, m),
                          Then(Select(member.value, Get(r, member.name), m), SelectFields(t, r, m)))
  {
    assert ([member] + t.plain)[1..] == t.plain;
    assert [] + t.digests == t.digests;
    var a, b, c := SelectTexts(t.digests, r, m), SelectMember(member, r, m), SelectMembers(t.plain, r, m);
    assert SelectMembers([member] + t.plain, r, m) == Then(b, c);
    assert b == Select(member.value, Get(r, member.name), m);
    SwapSelections(a, b, c);
  }

  lemma SelectSdStep(d: Disclosure, t: Fields, r: Request, m: Mapping)
    requires Honest(m) && d.MemberDisclosure?
    ensures SameSelection(SelectFields(Fields([] + t.plain, [DigestOf(d)] + t.digests), r, m),
                          Then(SelectDigest(DigestAtom(DigestOf(d)), r, m), SelectFields(t, r, m)))
  {
    assert [] + t.plain == t.plain;
    TextsCons(DigestOf(d), t.digests, m, r);
    ThenRegroup(SelectDigest(DigestAtom(DigestOf(d)), r, m), SelectTexts(t.digests, r, m), SelectMembers(t.plain, r, m));
  }

  lemma ThenRegroup(a: Selected, b: Selected, c: Selected)
    ensures SameSelection(Then(Then(a, b), c), Then(a, Then(b, c)))
  {
    if a.Ok? && b.Ok? && c.Ok? {
      assert (a.value + b.value) + c.value == a.value + (b.value + c.value);
    }
  }

  lemma {:induction false} SelectsIssuedMembers(ms: seq<ClaimMember>, env: Env, n: nat, r: Request, m: Mapping)
    requires ValidEnv(env) && GoodMembers(ms, env) && Honest(m)
    ensures FromThese(SelectFields(IssueMembers(ms, env, n).out, r, m), IssueMembers(ms, env, n).disclosures)
    decreases ms, 0
  {
    if ms == [] {
    } else {
      var h := IssueMember(ms[0], env, n);
      var t := IssueMembers(ms[1..], env, h.next);
      GoodTail(ms, env);
      SelectsIssuedMembers(ms[1..], env, h.next, r, m);
      SelectsIssuedMember(ms[0], env, n, r, m);
      SelectMemberStep(ms[0], env, n, t.out, r, m);
      FromTheseThen(SelectIssued(ms[0], env, n, r, m), SelectFields(t.out, r, m), h.disclosures, t.disclosures);
    }
  }

  // What the walk selects for one member of the claims.
  function SelectIssued(member: ClaimMember, env: Env, n: nat, r: Request, m: Mapping): Selected
    requires Honest(m)
  {
    var v := Issue(member.value, env, n);
    match member.key
    case Name(name) => Select(v.out, Get(r, name), m)
    case SDKey(name) => SelectDigest(DigestAtom(DigestOf(MemberDisclosure(v.next, name, v.out))), r, m)
  }

  lemma SelectMemberStep(member: ClaimMember, env: Env, n: nat, t: Fields, r: Request, m: Mapping)
    requires Honest(m) && !IsReserved(member.key)
    ensures var h := IssueMember(member, env, n).out;
            SameSelection(SelectFields(Fields(h.plain + t.plain, h.digests + t.digests), r, m),
                          Then(SelectIssued(member, env, n, r, m), SelectFields(t, r, m)))
  {
    var v := Issue(member.value, env, n);
    match member.key
    case Name(name) => SelectPlainStep(Member(name, v.out), t, r, m);
    case SDKey(name) => SelectSdStep(MemberDisclosure(v.next, name, v.out), t, r, m);
  }

  lemma {:induction false} SelectsIssuedMember(member: ClaimMember, env: Env, n: nat, r: Request, m: Mapping)
    requires ValidEnv(env) && Good(member.value, env) && Honest(m)
    ensures FromThese(SelectIssued(member, env, n, r, m), IssueMember(member, env, n).disclosures)
    decreases member, 0
  {
    match member.key
    case Name(name) => SelectsIssued(member.value, env, n, Get(r, name), m);
    case SDKey(name) =>
      SelectsIssued(member.value, env, n, Get(r, name), m);
      var v := Issue(member.value, env, n);
      SelectsDisclosed(MemberDisclosure(v.next, name, v.out), v.disclosures, r, m);
  }

  lemma SelectsDisclosed(d: Disclosure, ds: seq<Disclosure>, r: Request, m: Mapping)
    requires Honest(m) && d.MemberDisclosure?
    requires FromThese(Select(d.value, Get(r, d.key), m), ds)
    ensures FromThese(SelectDigest(DigestAtom(DigestOf(d)), r, m), ds + [d])
  {
    if DigestOf(d) in m {
      var own := if Truthy(Get(r, d.key)) then [d] else [];
      FromTheseThen(Ok(own), Select(d.value, Get(r, d.key), m), [d], ds);
      assert multiset([d] + ds) == multiset(ds + [d]);
    }
  }
}
