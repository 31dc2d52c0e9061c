/** Which conditions on user claims the issuer enforces, and what happens without the others. */
module ClaimLimits {
  import opened JsonData
  import opened Unpacking
  import opened UnpackingTheorems
  import opened Issuance
  import opened IssuedFacts
  import opened RoundTrip
  import opened ViewTheorem
  import opened Selection
  import opened DigestLists

  // No list of the claims holds an SDObj element.
  predicate NoSdElements(c: Claim) {
    match c
    case Leaf(_) => true
    case List(items) => forall i :: 0 <= i < |items| ==> NoSdElements(items[i])
    case Dict(ms) => forall i :: 0 <= i < |ms| ==> NoSdElements(ms[i].value)
    case SDObj(_) => false
  }

  // Well-formed claims pass the issuer's check and are issued without error.
  lemma {:induction false} GoodClaimsPass(c: Claim, decoys: bool)
    requires NoReserved(c, decoys)
    ensures PassesSdCheck(c) && NoPlainSd(c)
    decreases c
  {
    match c
    case Leaf(_) =>
    case SDObj(v) => GoodClaimsPass(v, decoys);
    case List(items) =>
      forall i | 0 <= i < |items| ensures PassesSdCheck(items[i]) && NoPlainSd(items[i]) {
        GoodClaimsPass(items[i], decoys);
      }
    case Dict(ms) =>
      forall i | 0 <= i < |ms|
        ensures ms[i].key != Name(SD_DIGESTS_KEY) && PassesSdCheck(ms[i].value) && NoPlainSd(ms[i].value)
      {
        GoodClaimsPass(ms[i].value, decoys);
      }
  }

  // The check finds every plain "_sd" key when there is no SDObj element to hide it.
  lemma {:induction false} SdCheckExact(c: Claim)
    requires NoSdElements(c)
    ensures PassesSdCheck(c) <==> NoPlainSd(c)
    decreases c
  {
    match c
    case Leaf(_) =>
    case SDObj(_) =>
    case List(items) =>
      forall i | 0 <= i < |items| ensures PassesSdCheck(items[i]) <==> NoPlainSd(items[i]) {
        SdCheckExact(items[i]);
      }
    case Dict(ms) =>
      forall i | 0 <= i < |ms| ensures PassesSdCheck(ms[i].value) <==> NoPlainSd(ms[i].value) {
        SdCheckExact(ms[i].value);
      }
  }

  // Below an SDObj element it finds none.
  lemma SdCheckMissesElements(value: Claim)
    ensures var c := List([SDObj(Dict([ClaimMember(Name(SD_DIGESTS_KEY), value)]))]);
            PassesSdCheck(c) && !NoPlainSd(c)
  {
    var d := Dict([ClaimMember(Name(SD_DIGESTS_KEY), value)]);
    assert d.members[0].key == Name(SD_DIGESTS_KEY);
    assert !NoPlainSd(d);
    assert !NoPlainSd([SDObj(d)][0]);
  }

  ghost predicate NoSdName(plain: seq<Member>) {
    forall i :: 0 <= i < |plain| ==> plain[i].name != SD_DIGESTS_KEY
  }

  lemma {:induction false} PlainMembersKeepNames(ms: seq<ClaimMember>, env: Env, n: nat)
    requires forall i :: 0 <= i < |ms| ==> ms[i].key != Name(SD_DIGESTS_KEY)
    ensures NoSdName(IssueMembers(ms, env, n).out.plain)
    decreases |ms|
  {
    if ms == [] {
    } else {
      PlainMembersKeepNames(ms[1..], env, IssueMember(ms[0], env, n).next);
    }
  }

  lemma {:induction false} RemovedNames(ms: seq<ClaimMember>, i: nat)
    requires i < |ms|
    ensures ms[i].key.name in RemoveFromMembers(ms)
    decreases |ms|
  {
    if i > 0 {
      RemovedNames(ms[1..], i - 1);
    }
  }

  /**
   A plain "_sd_alg" key is accepted by the issuer and dropped by every verifier, whatever is
   presented: the round trip fails for every dict that has one.
   */
  lemma SdAlgIsDropped(ms: seq<ClaimMember>, k: nat, env: Env, n: nat, m: Mapping)
    requires ValidEnv(env) && Honest(m)
    requires forall i :: 0 <= i < |ms| ==> ms[i].key != Name(SD_DIGESTS_KEY) && ms[i].key != SDKey(DIGEST_ALG_KEY)
    requires k < |ms| && ms[k].key == Name(DIGEST_ALG_KEY)
    ensures Expand(Issue(Dict(ms), env, n).out, m) != RemoveSdObjWrappers(Dict(ms))
  {
    var i := IssueMembers(ms, env, n);
    var unsorted, sorted := Unsorted(ms, env, n), env.order(Unsorted(ms, env, n));
    var members := Issue(Dict(ms), env, n).out.members;
    PlainMembersKeepNames(ms, env, n);
    AssembledDigests(i.out.plain, sorted);
    SdAlgNotDisclosed(ms, env, n, m);
    ExpandMembersKeys(members, m);
    ExpandTextsKeys(sorted, m);
    ExpandJObj(members, sorted, m);
    RemovedNames(ms, k);
  }

  lemma SdAlgNotDisclosed(ms: seq<ClaimMember>, env: Env, n: nat, m: Mapping)
    requires ValidEnv(env) && Honest(m)
    requires forall i :: 0 <= i < |ms| ==> ms[i].key != SDKey(DIGEST_ALG_KEY)
    ensures DIGEST_ALG_KEY !in NamesOfTexts(env.order(Unsorted(ms, env, n)), m)
  {
    var i := IssueMembers(ms, env, n);
    var unsorted, sorted := Unsorted(ms, env, n), env.order(Unsorted(ms, env, n));
    assert multiset(sorted) == multiset(unsorted);
    PermutedDigests(unsorted, sorted, m, RNone);
    DecoysAreInert(i.out.digests, i.next, env.decoyCount(i.next), m, RNone);
    DisclosedAmongSdNames(ms, env, n, m);
    NamesOfKeys(ms, DIGEST_ALG_KEY);
    assert DIGEST_ALG_KEY !in multiset(SdNames(ms));
    assert DIGEST_ALG_KEY !in multiset(NamesOfTexts(sorted, m));
  }

  /**
   Without decoys, a plain list element of the form {"...": text} is taken for a hidden one and
   vanishes: the round trip fails for every list that has one.
   */
  lemma {:induction false} FakeLeafVanishes(items: seq<Claim>, k: nat, env: Env, n: nat, m: Mapping)
    requires ValidEnv(env) && Honest(m) && forall c :: env.decoyCount(c) == 0
    requires k < |items| && IsFakeLeaf(items[k]) && items[k].members[0].value.a.t.Lit?
    ensures Expand(Issue(List(items), env, n).out, m) != RemoveSdObjWrappers(List(items))
  {
    FewerItems(items, k, env, n, m);
    RemovedLength(items);
  }

  lemma {:induction false} RemovedLength(items: seq<Claim>)
    ensures |RemoveFromItems(items)| == |items|
    decreases |items|
  {
    if items == [] {
    } else {
      RemovedLength(items[1..]);
    }
  }

  lemma {:induction false} NoMoreItems(items: seq<Json>, m: Mapping)
    requires Honest(m)
    ensures |ExpandItems(items, m)| <= |items|
    decreases |items|
  {
    if items == [] {
    } else {
      NoMoreItems(items[1..], m);
    }
  }

  lemma {:induction false} FewerItems(items: seq<Claim>, k: nat, env: Env, n: nat, m: Mapping)
    requires ValidEnv(env) && Honest(m) && forall c :: env.decoyCount(c) == 0
    requires k < |items| && IsFakeLeaf(items[k]) && items[k].members[0].value.a.t.Lit?
    ensures |IssueItems(items, env, n).out| == |items|
    ensures |ExpandItems(IssueItems(items, env, n).out, m)| < |items|
    decreases |items|
  {
    var h := IssueItem(items[0], env, n);
    var t := IssueItems(items[1..], env, h.next);
    assert ([h.out] + t.out)[1..] == t.out;
    if k > 0 {
      FewerItems(items[1..], k - 1, env, h.next, m);
    } else {
      IssuedLength(items[1..], env, h.next);
      NoMoreItems(t.out, m);
      FakeLeafIssued(items[0], env, n);
    }
  }

  lemma {:induction false} IssuedLength(items: seq<Claim>, env: Env, n: nat)
    ensures |IssueItems(items, env, n).out| == |items|
    decreases |items|
  {
    if items == [] {
    } else {
      IssuedLength(items[1..], env, IssueItem(items[0], env, n).next);
    }
  }

  lemma FakeLeafIssued(c: Claim, env: Env, n: nat)
    requires ValidEnv(env) && env.decoyCount(n) == 0 && IsFakeLeaf(c)
    ensures IssueItem(c, env, n).out == ElementLeaf(c.members[0].value.a.t)
  {
    var ms := c.members;
    assert ms[1..] == [];
    var plain := [Member(SD_LIST_PREFIX, JAtom(ms[0].value.a))];
    assert IssueMember(ms[0], env, n) == Issued(Fields(plain, []), [], [], n);
    assert IssueMembers([], env, n) == Issued(Fields([], []), [], [], n);
    assert IssueMembers(ms, env, n) == Issued(Fields(plain + [], []), [], [], n);
    assert plain + [] == plain && [] + Decoys(n, 0) == [];
    assert multiset(env.order([])) == multiset([]);
    assert |multiset(env.order([]))| == 0;
  }
}
