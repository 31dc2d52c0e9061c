/** Exactly which requests a holder can answer. */
module Answers {
  import opened JsonData
  import opened Wrappers
  import opened Issuance
  import opened Selection
  import opened DigestLists
  import opened IssuedFacts
  import opened RoundTrip
  import opened ViewTheorem
  import opened EndToEnd
  import opened PlainJson
  import opened SelectiveDisclosure
  import opened Verifier

  // At every place that is walked the request has a fitting shape. Hidden members are walked
  // whether or not they are asked for; hidden elements only if they are not refused.
  predicate Answerable(c: Claim, r: Request)
    decreases c, 0
  {
    match c
    case Leaf(_) => true
    case List(items) => r.RNone? || (FitsList(r) && ItemsAnswerable(items, r, 0))
    case Dict(ms) => r.RNone? || (FitsDict(r) && MembersAnswerable(ms, r))
    case SDObj(_) => true
  }

  predicate ItemsAnswerable(items: seq<Claim>, r: Request, i: nat)
    decreases items, 0
  {
    items == [] || (ItemAnswerable(items[0], At(r, i)) && ItemsAnswerable(items[1..], r, i + 1))
  }

  predicate ItemAnswerable(c: Claim, r: Request)
    decreases c, 1
  {
    if c.SDObj? then Refuses(r) || Answerable(c.value, r) else Answerable(c, r)
  }

  predicate MembersAnswerable(ms: seq<ClaimMember>, r: Request)
    decreases ms, 0
  {
    ms == [] || (
      var h := ms[0];
      assert h.value < Dict(ms);
      Answerable(h.value, Get(r, h.key.name)) && MembersAnswerable(ms[1..], r))
  }

  lemma {:induction false} AnswersIssued(c: Claim, env: Env, n: nat, r: Request, m: Mapping)
    requires ValidEnv(env) && Good(c, env) && Honest(m) && Covers(Issue(c, env, n).disclosures, m)
    ensures Select(Issue(c, env, n).out, r, m).Ok? <==> Answerable(c, r)
    decreases c, 0
  {
    GoodParts(c, env);
    match c
    case Leaf(_) =>
    case SDObj(_) =>
    case List(items) => AnswersItems(items, env, n, r, 0, m);
    case Dict(ms) =>
      AnswersMembers(ms, env, n, r, m);
      SelectObject(ms, env, n, r, m);
  }

  lemma {:induction false} AnswersItems(items: seq<Claim>, env: Env, n: nat, r: Request, i: nat, m: Mapping)
    requires ValidEnv(env) && GoodItems(items, env) && Honest(m) && Covers(IssueItems(items, env, n).disclosures, m)
    ensures SelectItems(IssueItems(items, env, n).out, r, i, m).Ok? <==> ItemsAnswerable(items, r, i)
    decreases items, 0
  {
    if items == [] {
    } else {
      var h := IssueItem(items[0], env, n);
      var t := IssueItems(items[1..], env, h.next);
      assert GoodItem(items[0], env) && GoodItems(items[1..], env);
      CoversParts(h.disclosures, t.disclosures, m);
      AnswersItem(items[0], env, n, At(r, i), m);
      AnswersItems(items[1..], env, h.next, r, i + 1, m);
      assert ([h.out] + t.out)[1..] == t.out;
    }
  }

  lemma {:induction false} AnswersItem(c: Claim, env: Env, n: nat, r: Request, m: Mapping)
    requires ValidEnv(env) && GoodItem(c, env) && Honest(m) && Covers(IssueItem(c, env, n).disclosures, m)
    ensures SelectItem(IssueItem(c, env, n).out, r, m).Ok? <==> ItemAnswerable(c, r)
    decreases c, 1
  {
    if !c.SDObj? {
      IssuedIsNoLeaf(c, env, n);
      AnswersIssued(c, env, n, r, m);
    } else {
      var i := Issue(c.value, env, n);
      var d := ElementDisclosure(i.next, i.out);
      CoversParts(i.disclosures, [d], m);
      assert DigestOf([d][0]) in m;
      AnswersIssued(c.value, env, n, r, m);
    }
  }

  lemma {:induction false} AnswersMembers(ms: seq<ClaimMember>, env: Env, n: nat, r: Request, m: Mapping)
    requires ValidEnv(env) && GoodMembers(ms, env) && Honest(m) && Covers(IssueMembers(ms, env, n).disclosures, m)
    ensures SelectFields(IssueMembers(ms, env, n).out, r, m).Ok? <==> MembersAnswerable(ms, r)
    decreases ms, 0
  {
    if ms == [] {
    } else {
      var h := IssueMember(ms[0], env, n);
      var t := IssueMembers(ms[1..], env, h.next);
      assert ms[0].value < Dict(ms);
      GoodTail(ms, env);
      CoversParts(h.disclosures, t.disclosures, m);
      AnswersMembers(ms[1..], env, h.next, r, m);
      AnswersMember(ms[0], env, n, r, m);
      SelectMemberStep(ms[0], env, n, t.out, r, m);
    }
  }

  lemma {:induction false} AnswersMember(member: ClaimMember, env: Env, n: nat, r: Request, m: Mapping)
    requires ValidEnv(env) && Good(member.value, env) && Honest(m) && Covers(IssueMember(member, env, n).disclosures, m)
    ensures SelectIssued(member, env, n, r, m).Ok? <==> Answerable(member.value, Get(r, member.key.name))
    decreases member, 0
  {
    var v := Issue(member.value, env, n);
    match member.key
    case Name(name) => AnswersIssued(member.value, env, n, Get(r, name), m);
    case SDKey(name) =>
      var d := MemberDisclosure(v.next, name, v.out);
      CoversParts(v.disclosures, [d], m);
      assert DigestOf([d][0]) in m;
      AnswersIssued(member.value, env, n, Get(r, name), m);
  }

  /* The payload. */

  function Omit(ms: seq<Member>, name: string): seq<Member> {
    if ms == [] then []
    else (if ms[0].name == name then [] else [ms[0]]) + Omit(ms[1..], name)
  }

  lemma {:induction false} OmitAbsent(ms: seq<Member>, name: string)
    requires forall i :: 0 <= i < |ms| ==> ms[i].name != name
    ensures Omit(ms, name) == ms
    decreases |ms|
  {
    if ms == [] {
    } else {
      OmitAbsent(ms[1..], name);
    }
  }

  lemma {:induction false} OmitNames(ms: seq<Member>, name: string, x: string)
    requires forall i :: 0 <= i < |ms| ==> ms[i].name != x
    ensures forall i :: 0 <= i < |Omit(ms, name)| ==> Omit(ms, name)[i].name != x
    decreases |ms|
  {
    if ms == [] {
    } else {
      OmitNames(ms[1..], name, x);
    }
  }

  lemma {:induction false} OmitPut(ms: seq<Member>, name: string, value: Json, other: string)
    requires name != other && forall i :: 0 <= i < |ms| ==> ms[i].name != name
    ensures Omit(Put(ms, name, value), other) == Put(Omit(ms, other), name, value)
    decreases |ms|
  {
    if ms == [] {
      assert [Member(name, value)][1..] == [];
    } else {
      OmitPut(ms[1..], name, value, other);
      assert ([ms[0]] + Put(ms[1..], name, value))[1..] == Put(ms[1..], name, value);
      if ms[0].name == other {
        assert [] + Omit(ms[1..], other) == Omit(ms[1..], other);
        assert [] + Omit(Put(ms[1..], name, value), other) == Omit(Put(ms[1..], name, value), other);
      } else {
        assert ([ms[0]] + Omit(ms[1..], other))[1..] == Omit(ms[1..], other);
      }
    }
  }

  // Where a member is written over another, or added: the walk needs a fitting request for it
  // and for the others.
  lemma {:induction false} AnswersPut(ms: seq<Member>, name: string, value: Json, r: Request, m: Mapping)
    requires Honest(m) && DistinctNames(ms) && name != SD_DIGESTS_KEY
    ensures SelectMembers(Put(ms, name, value), r, m).Ok? <==>
            SelectMembers(Omit(ms, name), r, m).Ok? && Select(value, Get(r, name), m).Ok?
    decreases |ms|
  {
    if ms == [] {
      OneMember(Member(name, value), [], r, m);
    } else if ms[0].name == name {
      PutHere(ms, name, value, r, m);
    } else {
      DistinctTail(ms);
      AnswersPut(ms[1..], name, value, r, m);
      HeadFirst(ms[0], Put(ms[1..], name, value), r, m);
      HeadFirst(ms[0], Omit(ms[1..], name), r, m);
    }
  }

  lemma {:induction false} PutHere(ms: seq<Member>, name: string, value: Json, r: Request, m: Mapping)
    requires Honest(m) && DistinctNames(ms) && name != SD_DIGESTS_KEY && ms != [] && ms[0].name == name
    ensures SelectMembers(Put(ms, name, value), r, m).Ok? <==>
            SelectMembers(Omit(ms, name), r, m).Ok? && Select(value, Get(r, name), m).Ok?
  {
    var rest := ms[1..];
    assert forall i :: 0 <= i < |rest| ==> rest[i] == ms[i + 1];
    OneMember(Member(name, value), rest, r, m);
    OmitAbsent(rest, name);
    assert [] + Omit(rest, name) == rest;
  }

  lemma HeadFirst(h: Member, rest: seq<Member>, r: Request, m: Mapping)
    requires Honest(m)
    ensures SelectMembers([h] + rest, r, m) == Then(SelectMember(h, r, m), SelectMembers(rest, r, m))
  {
    assert ([h] + rest)[1..] == rest;
  }

  lemma OneMember(x: Member, rest: seq<Member>, r: Request, m: Mapping)
    requires Honest(m) && x.name != SD_DIGESTS_KEY
    ensures SelectMembers([x] + rest, r, m).Ok? <==> Select(x.value, Get(r, x.name), m).Ok? && SelectMembers(rest, r, m).Ok?
    ensures [x] + rest == if rest == [] then [x] else [x] + rest
  {
    HeadFirst(x, rest, r, m);
  }

  // The claims that a confirmation claim does not write over.
  function Kept(ms: seq<ClaimMember>, name: string): seq<ClaimMember> {
    if ms == [] then []
    else (if ms[0].key == Name(name) then [] else [ms[0]]) + Kept(ms[1..], name)
  }

  lemma {:induction false} AnswersKept(ms: seq<ClaimMember>, env: Env, n: nat, r: Request, m: Mapping, skip: string)
    requires ValidEnv(env) && GoodMembers(ms, env) && Honest(m) && Covers(IssueMembers(ms, env, n).disclosures, m)
    ensures var f := IssueMembers(ms, env, n).out;
            (SelectTexts(f.digests, r, m).Ok? && SelectMembers(Omit(f.plain, skip), r, m).Ok?) <==>
            MembersAnswerable(Kept(ms, skip), r)
    decreases ms, 0
  {
    if ms == [] {
    } else {
      var h := IssueMember(ms[0], env, n);
      var t := IssueMembers(ms[1..], env, h.next);
      GoodTail(ms, env);
      CoversParts(h.disclosures, t.disclosures, m);
      AnswersKept(ms[1..], env, h.next, r, m, skip);
      AnswersMember(ms[0], env, n, r, m);
      KeptStep(ms, env, n, r, m, skip);
    }
  }

  lemma KeptStep(ms: seq<ClaimMember>, env: Env, n: nat, r: Request, m: Mapping, skip: string)
    requires ms != [] && !IsReserved(ms[0].key) && Honest(m)
    requires SelectIssued(ms[0], env, n, r, m).Ok? <==> Answerable(ms[0].value, Get(r, ms[0].key.name))
    requires var t := IssueMembers(ms[1..], env, IssueMember(ms[0], env, n).next).out;
             (SelectTexts(t.digests, r, m).Ok? && SelectMembers(Omit(t.plain, skip), r, m).Ok?) <==>
             MembersAnswerable(Kept(ms[1..], skip), r)
    ensures var f := IssueMembers(ms, env, n).out;
            (SelectTexts(f.digests, r, m).Ok? && SelectMembers(Omit(f.plain, skip), r, m).Ok?) <==>
            MembersAnswerable(Kept(ms, skip), r)
  {
    var h := IssueMember(ms[0], env, n).out;
    var t := IssueMembers(ms[1..], env, IssueMember(ms[0], env, n).next).out;
    var kept := Kept(ms[1..], skip);
    assert ([ms[0]] + kept)[1..] == kept;
    match ms[0].key
    case SDKey(_) =>
      assert h.plain + t.plain == t.plain;
      TextsCons(h.digests[0], t.digests, m, r);
    case Name(_) =>
      assert h.digests + t.digests == t.digests;
      OmitStep(h.plain[0], t.plain, r, m, skip);
      assert [] + kept == kept;
  }

  lemma OmitStep(member: Member, ms: seq<Member>, r: Request, m: Mapping, skip: string)
    requires Honest(m) && member.name != SD_DIGESTS_KEY
    ensures SelectMembers(Omit([member] + ms, skip), r, m).Ok? <==>
            (member.name != skip ==> Select(member.value, Get(r, member.name), m).Ok?)
            && SelectMembers(Omit(ms, skip), r, m).Ok?
  {
    assert ([member] + ms)[1..] == ms;
    if member.name == skip {
      assert [] + Omit(ms, skip) == Omit(ms, skip);
    } else {
      assert ([member] + Omit(ms, skip))[1..] == Omit(ms, skip);
    }
  }

  predicate HolderAnswers(claims: seq<ClaimMember>, holderKey: Option<Jwk>, r: Request) {
    && Answerable(Dict(if holderKey.Some? then Kept(claims, CNF) else claims), r)
    && (holderKey.Some? ==> FitsJson(CnfJson(holderKey.value), Get(r, CNF)))
  }

  /**
   For every good claims dict, holder key, decoys, digest order and request: the holder's walk
   over the payload returns iff the request fits the claims, and the confirmation claim, at every
   place it walks.
   */
  lemma HolderAnswersExact(claims: seq<ClaimMember>, holderKey: Option<Jwk>, env: Env, n: nat, r: Request)
    requires ValidEnv(env) && Good(Dict(claims), env) && (holderKey.Some? ==> ValidJwk(holderKey.value))
    ensures var p := IssuePayload(claims, holderKey, env, n);
            Select(p.out, r, MappingOf(p.disclosures)).Ok? <==> HolderAnswers(claims, holderKey, r)
  {
    var p := IssuePayload(claims, holderKey, env, n);
    var m := MappingOf(p.disclosures);
    GoodParts(Dict(claims), env);
    PayloadShape(claims, holderKey, env, n);
    IssuedMapping(claims, holderKey, env, n);
    if r.RNone? {
      FitsNone(holderKey);
    } else if holderKey.Some? {
      CnfAnswered(claims, holderKey.value, env, n, r, m);
    } else {
      BareHasNoAlg(claims, env, n);
      SelectPutAtom(Bare(claims, env, n), DIGEST_ALG_KEY, ALG.a, r, m);
      AnswersIssued(Dict(claims), env, n, r, m);
    }
  }

  lemma FitsNone(holderKey: Option<Jwk>)
    ensures holderKey.Some? ==> FitsJson(CnfJson(holderKey.value), RNone)
  {
  }

  lemma CnfAnswered(claims: seq<ClaimMember>, k: Jwk, env: Env, n: nat, r: Request, m: Mapping)
    requires ValidEnv(env) && Good(Dict(claims), env) && ValidJwk(k) && Honest(m)
    requires Covers(Issue(Dict(claims), env, n).disclosures, m)
    ensures SelectMembers(Put(WithAlg(claims, env, n), CNF, CnfJson(k)), r, m).Ok? <==>
            MembersAnswerable(Kept(claims, CNF), r) && FitsJson(CnfJson(k), Get(r, CNF))
  {
    GoodParts(Dict(claims), env);
    AlgStep(claims, env, n);
    AnswersPut(WithAlg(claims, env, n), CNF, CnfJson(k), r, m);
    CnfIsPlain(k);
    PlainSelects(CnfJson(k), Get(r, CNF), m);
    AlgOmitted(claims, env, n, r, m);
    BareAnswered(claims, env, n, r, m);
  }

  lemma AlgOmitted(claims: seq<ClaimMember>, env: Env, n: nat, r: Request, m: Mapping)
    requires Honest(m) && GoodMembers(claims, env)
    ensures SelectMembers(Omit(WithAlg(claims, env, n), CNF), r, m) == SelectMembers(Omit(Bare(claims, env, n), CNF), r, m)
  {
    var ms := Bare(claims, env, n);
    BareHasNoAlg(claims, env, n);
    assert DIGEST_ALG_KEY[0] != CNF[0];
    assert ms == Issue(Dict(claims), env, n).out.members;
    forall i | 0 <= i < |ms| ensures ms[i].name != DIGEST_ALG_KEY {
      assert Issue(Dict(claims), env, n).out.members[i].name != DIGEST_ALG_KEY;
    }
    OmitPut(ms, DIGEST_ALG_KEY, ALG, CNF);
    OmitNames(ms, CNF, DIGEST_ALG_KEY);
    SelectPutAtom(Omit(ms, CNF), DIGEST_ALG_KEY, ALG.a, r, m);
  }

  // The walk of the issued object without its plain cnf.
  lemma BareAnswered(claims: seq<ClaimMember>, env: Env, n: nat, r: Request, m: Mapping)
    requires ValidEnv(env) && GoodMembers(claims, env) && Honest(m)
    requires Covers(IssueMembers(claims, env, n).disclosures, m)
    ensures SelectMembers(Omit(Bare(claims, env, n), CNF), r, m).Ok? <==> MembersAnswerable(Kept(claims, CNF), r)
  {
    var i := IssueMembers(claims, env, n);
    var sorted := env.order(Unsorted(claims, env, n));
    PlainNamesAreClaimNames(claims, env, n);
    OmitNames(i.out.plain, CNF, SD_DIGESTS_KEY);
    OmitAssembled(i.out.plain, sorted);
    AssembledMembers(Omit(i.out.plain, CNF), sorted, m, r);
    assert multiset(sorted) == multiset(Unsorted(claims, env, n));
    PermutedDigests(sorted, Unsorted(claims, env, n), m, r);
    DecoysAreInert(i.out.digests, i.next, env.decoyCount(i.next), m, r);
    AnswersKept(claims, env, n, r, m, CNF);
  }

  lemma OmitAssembled(plain: seq<Member>, digests: seq<Text>)
    ensures Omit(Assemble(plain, digests), CNF) == Assemble(Omit(plain, CNF), digests)
  {
    if digests == [] {
    } else {
      assert Assemble(plain, digests)[1..] == plain;
    }
  }

  // In particular a request of False for a hidden object does not hide it but makes the holder raise.
  lemma FalseIsNotAnswered(name: string, ms: seq<ClaimMember>, env: Env, n: nat)
    requires ValidEnv(env) && Good(Dict(ms), env)
    ensures var claims := [ClaimMember(SDKey(name), Dict(ms))];
            var p := IssuePayload(claims, None, env, n);
            Select(p.out, RDict(map[name := RBool(false)]), MappingOf(p.disclosures)).Err?
  {
    var claims := [ClaimMember(SDKey(name), Dict(ms))];
    var r := RDict(map[name := RBool(false)]);
    assert claims[1..] == [];
    assert NoStray(claims[0].value) && NoReserved(claims[0].value, HasDecoys(env)) && AreDicts(claims[0].value);
    assert Good(Dict(claims), env);
    HolderAnswersExact(claims, None, env, n, r);
    assert !Answerable(claims[0].value, Get(r, claims[0].key.name));
    assert !MembersAnswerable(claims, r);
    assert !HolderAnswers(claims, None, r);
  }
}
