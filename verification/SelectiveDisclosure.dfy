/** The main theorems: issue, present and verify whole payloads. */
module SelectiveDisclosure {
  import opened JsonData
  import opened Wrappers
  import opened Sequences
  import opened Unpacking
  import opened UnpackingTheorems
  import opened DisclosureOrder
  import opened Issuance
  import opened Selection
  import opened DigestLists
  import opened IssuedFacts
  import opened RoundTrip
  import opened ViewTheorem
  import opened PlainJson
  import opened Presentation
  import opened Verifier
  import opened EndToEnd

  // User claims as the issuer is meant to get them.
  ghost predicate WellFormed(claims: seq<ClaimMember>, env: Env) {
    Good(Dict(claims), env) && NoClash(Dict(claims))
  }

  // The holder's key is plain JSON, and the claims do not hide a cnf of their own.
  ghost predicate KeyFits(claims: seq<ClaimMember>, holderKey: Option<Jwk>) {
    holderKey.Some? ==> ValidJwk(holderKey.value) && SDKey(CNF) !in Keys(claims)
  }

  function Keys(claims: seq<ClaimMember>): set<Key> {
    set i | 0 <= i < |claims| :: claims[i].key
  }

  // The confirmation claim is added to whatever is shown, replacing a plain cnf.
  function Confirmed(shown: map<string, Value>, holderKey: Option<Jwk>): Value {
    VObj(if holderKey.Some? then shown[CNF := VObj(map[JWK := ToValue(holderKey.value)])] else shown)
  }

  lemma KeysAreSdNames(claims: seq<ClaimMember>, name: string)
    ensures SDKey(name) in Keys(claims) <==> name in SdNames(claims)
  {
    NamesOfKeys(claims, name);
  }

  lemma CnfExpands(k: Jwk, m: Mapping)
    requires Honest(m) && ValidJwk(k)
    ensures Expand(CnfJson(k), m) == VObj(map[JWK := ToValue(k)])
  {
    CnfIsPlain(k);
    PlainExpands(CnfJson(k), m);
    assert CnfJson(k).members[1..] == [];
    assert MembersToValues(CnfJson(k).members) == map[JWK := ToValue(k)];
  }

  /* The payload is the issued object with _sd_alg and cnf written into it. */

  const ALG: Json := JAtom(Str(Lit(HASH_ALG_NAME)))

  function Bare(claims: seq<ClaimMember>, env: Env, n: nat): seq<Member> {
    Issue(Dict(claims), env, n).out.members
  }

  function WithAlg(claims: seq<ClaimMember>, env: Env, n: nat): seq<Member> {
    Put(Bare(claims, env, n), DIGEST_ALG_KEY, ALG)
  }

  function Entries(claims: seq<ClaimMember>, env: Env, n: nat): seq<Json> {
    DigestList(env.order(Unsorted(claims, env, n)))
  }

  lemma PayloadShape(claims: seq<ClaimMember>, holderKey: Option<Jwk>, env: Env, n: nat)
    ensures var p := IssuePayload(claims, holderKey, env, n);
            && p.disclosures == Issue(Dict(claims), env, n).disclosures
            && p.out == JObj(if holderKey.Some? then Put(WithAlg(claims, env, n), CNF, CnfJson(holderKey.value))
                             else WithAlg(claims, env, n))
  {
  }

  lemma AlgStep(claims: seq<ClaimMember>, env: Env, n: nat)
    requires ValidEnv(env) && GoodMembers(claims, env)
    ensures DigestsOf(Bare(claims, env, n)) == Some(Entries(claims, env, n))
    ensures DigestsOf(WithAlg(claims, env, n)) == Some(Entries(claims, env, n))
    ensures DistinctNames(Bare(claims, env, n)) && DistinctNames(WithAlg(claims, env, n))
  {
    IssuedObject(claims, env, n, map[], RNone);
    IssuedDistinct(claims, env, n);
    LookupPut(Bare(claims, env, n), DIGEST_ALG_KEY, ALG, SD_DIGESTS_KEY);
    PutNames(Bare(claims, env, n), DIGEST_ALG_KEY, ALG);
  }

  // With all disclosures, the names disclosed at the top are the SDObj names.
  lemma TopNames(claims: seq<ClaimMember>, env: Env, n: nat, m: Mapping, name: string)
    requires ValidEnv(env) && GoodMembers(claims, env) && Honest(m)
    requires Covers(Issue(Dict(claims), env, n).disclosures, m)
    ensures name in DisclosedNames(Entries(claims, env, n), m) <==> name in SdNames(claims)
  {
    var i := IssueMembers(claims, env, n);
    var sorted := env.order(Unsorted(claims, env, n));
    assert multiset(sorted) == multiset(Unsorted(claims, env, n));
    PermutedDigests(Unsorted(claims, env, n), sorted, m, RNone);
    DecoysAreInert(i.out.digests, i.next, env.decoyCount(i.next), m, RNone);
    SdNamesExact(claims, env, n, m);
    assert name in multiset(NamesOfTexts(sorted, m)) <==> name in multiset(SdNames(claims));
  }

  lemma PayloadVisits(claims: seq<ClaimMember>, holderKey: Option<Jwk>, env: Env, n: nat, m: Mapping)
    requires ValidEnv(env) && Good(Dict(claims), env) && Honest(m) && (holderKey.Some? ==> ValidJwk(holderKey.value))
    ensures Fresh({}, Visited(IssuePayload(claims, holderKey, env, n).out, m))
  {
    GoodParts(Dict(claims), env);
    AlgStep(claims, env, n);
    PayloadShape(claims, holderKey, env, n);
    IssuedVisits(Dict(claims), env, n, m);
    var entries := Entries(claims, env, n);
    PutObjectVisits(Bare(claims, env, n), entries, DIGEST_ALG_KEY, ALG, m);
    if holderKey.Some? {
      JwkInert(holderKey.value, m);
      PutObjectVisits(WithAlg(claims, env, n), entries, CNF, CnfJson(holderKey.value), m);
    }
    FreshSmaller({}, Visited(IssuePayload(claims, holderKey, env, n).out, m), Visited(Issue(Dict(claims), env, n).out, m));
  }

  lemma PayloadSound(claims: seq<ClaimMember>, holderKey: Option<Jwk>, env: Env, n: nat, m: Mapping)
    requires ValidEnv(env) && WellFormed(claims, env) && Honest(m) && (holderKey.Some? ==> ValidJwk(holderKey.value))
    requires Covers(Issue(Dict(claims), env, n).disclosures, m)
    ensures Sound(IssuePayload(claims, holderKey, env, n).out, m) <==> KeyFits(claims, holderKey)
  {
    GoodParts(Dict(claims), env);
    AlgStep(claims, env, n);
    PayloadShape(claims, holderKey, env, n);
    IssuedSound(Dict(claims), env, n, m);
    PutObjectSound(Bare(claims, env, n), Entries(claims, env, n), DIGEST_ALG_KEY, ALG, m);
    if holderKey.Some? {
      JwkInert(holderKey.value, m);
      PutObjectSound(WithAlg(claims, env, n), Entries(claims, env, n), CNF, CnfJson(holderKey.value), m);
      TopNames(claims, env, n, m, CNF);
      KeysAreSdNames(claims, CNF);
    }
  }

  lemma {:induction false} PayloadExpands(claims: seq<ClaimMember>, holderKey: Option<Jwk>, env: Env, n: nat, m: Mapping,
                       shown: map<string, Value>)
    requires ValidEnv(env) && Good(Dict(claims), env) && Honest(m) && KeyFits(claims, holderKey)
    requires Expand(Issue(Dict(claims), env, n).out, m) == VObj(shown)
    ensures Expand(IssuePayload(claims, holderKey, env, n).out, m) == Confirmed(shown, holderKey)
  {
    GoodParts(Dict(claims), env);
    PayloadShape(claims, holderKey, env, n);
    AlgExpands(claims, env, n, m, shown);
    if holderKey.Some? {
      CnfStep(claims, holderKey.value, env, n, m, shown);
    }
  }

  lemma AlgExpands(claims: seq<ClaimMember>, env: Env, n: nat, m: Mapping, shown: map<string, Value>)
    requires ValidEnv(env) && GoodMembers(claims, env) && Honest(m)
    requires Expand(JObj(Bare(claims, env, n)), m) == VObj(shown)
    ensures Expand(JObj(WithAlg(claims, env, n)), m) == VObj(shown)
  {
    AlgStep(claims, env, n);
    PutObjectExpands(Bare(claims, env, n), DIGEST_ALG_KEY, ALG, m);
    assert shown + map[] == shown;
  }

  lemma CnfStep(claims: seq<ClaimMember>, k: Jwk, env: Env, n: nat, m: Mapping, shown: map<string, Value>)
    requires ValidEnv(env) && GoodMembers(claims, env) && Honest(m) && KeyFits(claims, Some(k))
    requires Expand(JObj(WithAlg(claims, env, n)), m) == VObj(shown)
    ensures Expand(JObj(Put(WithAlg(claims, env, n), CNF, CnfJson(k))), m) == Confirmed(shown, Some(k))
  {
    AlgStep(claims, env, n);
    KeysAreSdNames(claims, CNF);
    SortedNotDisclosed(claims, env, n, CNF, m);
    CnfExpands(k, m);
    PutShown(WithAlg(claims, env, n), CNF, CnfJson(k), m, shown);
  }

  lemma PutShown(ms: seq<Member>, name: string, value: Json, m: Mapping, shown: map<string, Value>)
    requires Honest(m) && DistinctNames(ms) && !IsSkipped(name) && DigestsOf(ms).Some?
    requires name !in DisclosedNames(DigestsOf(ms).value, m)
    requires Expand(JObj(ms), m) == VObj(shown)
    ensures Expand(JObj(Put(ms, name, value)), m) == VObj(shown[name := Expand(value, m)])
  {
    PutObjectExpands(ms, name, value, m);
  }

  lemma PayloadAlg(claims: seq<ClaimMember>, holderKey: Option<Jwk>, env: Env, n: nat)
    ensures HashAlgorithm(IssuePayload(claims, holderKey, env, n).out) == Some(ALG)
  {
    LookupPut(Bare(claims, env, n), DIGEST_ALG_KEY, ALG, DIGEST_ALG_KEY);
    if holderKey.Some? {
      LookupPut(WithAlg(claims, env, n), CNF, CnfJson(holderKey.value), DIGEST_ALG_KEY);
    }
  }

  /* Everything presented. */

  /**
   For every well-formed claims dict, holder key, decoys and digest order: presenting all
   disclosures, the payload verifies iff no SDObj key cnf meets a holder key, and the result is
   the claims without SDObj wrappers, with the confirmation claim.
   */
  lemma {:induction false} PayloadRoundTrip(claims: seq<ClaimMember>, holderKey: Option<Jwk>, env: Env, n: nat, m: Mapping)
    requires ValidEnv(env) && WellFormed(claims, env) && Honest(m) && (holderKey.Some? ==> ValidJwk(holderKey.value))
    requires Covers(IssuePayload(claims, holderKey, env, n).disclosures, m)
    ensures var r := Verified(IssuePayload(claims, holderKey, env, n).out, m);
            && (r.Ok? <==> KeyFits(claims, holderKey))
            && (r.Ok? ==> r.value == Confirmed(RemoveFromMembers(claims), holderKey))
  {
    var p := IssuePayload(claims, holderKey, env, n).out;
    PayloadShape(claims, holderKey, env, n);
    PayloadAlg(claims, holderKey, env, n);
    PayloadSound(claims, holderKey, env, n, m);
    PayloadVisits(claims, holderKey, env, n, m);
    UnpackExact(p, m, []);
    assert Elements<Atom>([]) == {};
    if KeyFits(claims, holderKey) {
      IssuedExpands(Dict(claims), env, n, m);
      PayloadExpands(claims, holderKey, env, n, m, RemoveFromMembers(claims));
    }
  }

  /* Some disclosures presented. */

  // The mapping made of all issued disclosures.
  lemma IssuedMapping(claims: seq<ClaimMember>, holderKey: Option<Jwk>, env: Env, n: nat)
    ensures var ds := IssuePayload(claims, holderKey, env, n).disclosures;
            !Repeats(ds) && Covers(ds, MappingOf(ds))
  {
    IssueFresh(Dict(claims), env, n);
  }

  lemma MappingOfChosen(ds: seq<Disclosure>, s: seq<Disclosure>)
    ensures Chosen(ds, MappingOf(s), s)
  {
    forall i | 0 <= i < |ds| ensures DigestOf(ds[i]) in MappingOf(s) <==> ds[i] in s {
      if DigestOf(ds[i]) in MappingOf(s) {
        var d :| d in s && DigestOf(d) == DigestOf(ds[i]);
      }
    }
  }

  // The view does not depend on the entries for names that are not SDObj keys, except below those names.
  lemma {:induction false} ViewWithout(ms: seq<ClaimMember>, r: Request, name: string)
    requires forall i :: 0 <= i < |ms| ==> ms[i].key != SDKey(name)
    ensures ViewMembers(ms, Without(r, name)).Keys == ViewMembers(ms, r).Keys
    ensures forall k :: k in ViewMembers(ms, r) && k != name ==>
              ViewMembers(ms, Without(r, name))[k] == ViewMembers(ms, r)[k]
    decreases |ms|
  {
    if ms == [] {
    } else {
      ViewWithout(ms[1..], r, name);
      if ms[0].key.name != name {
        assert Get(Without(r, name), ms[0].key.name) == Get(r, ms[0].key.name);
      }
    }
  }

  // The walk of the payload selects what the walk of the bare object does for an adjusted request.
  lemma PayloadSelects(claims: seq<ClaimMember>, holderKey: Option<Jwk>, env: Env, n: nat, r: Request, m: Mapping)
    requires ValidEnv(env) && Good(Dict(claims), env) && Honest(m) && KeyFits(claims, holderKey)
    requires Select(IssuePayload(claims, holderKey, env, n).out, r, m).Ok?
    ensures Select(IssuePayload(claims, holderKey, env, n).out, r, m) ==
            Select(Issue(Dict(claims), env, n).out, Adjusted(r, holderKey), m)
  {
    GoodParts(Dict(claims), env);
    AlgStep(claims, env, n);
    PayloadShape(claims, holderKey, env, n);
    BareHasNoAlg(claims, env, n);
    if !r.RNone? {
      SelectPutAtom(Bare(claims, env, n), DIGEST_ALG_KEY, ALG.a, Adjusted(r, holderKey), m);
      if holderKey.Some? {
        JwkInert(holderKey.value, m);
        KeysAreSdNames(claims, CNF);
        IssuedNotDisclosed(claims, env, n, CNF, m);
        NotDisclosedPut(Bare(claims, env, n), DIGEST_ALG_KEY, ALG, CNF, m);
        SelectPut(WithAlg(claims, env, n), CNF, CnfJson(holderKey.value), r, m);
      }
    }
  }

  // With a holder key, the request for cnf does not matter.
  function Adjusted(r: Request, holderKey: Option<Jwk>): Request {
    if holderKey.Some? then Without(r, CNF) else r
  }

  lemma NotDisclosedPut(ms: seq<Member>, name: string, value: Json, other: string, m: Mapping)
    requires Honest(m) && NotDisclosed(ms, other, m) && name != SD_DIGESTS_KEY
    ensures NotDisclosed(Put(ms, name, value), other, m)
  {
    PutShape(ms, name, value);
  }

  lemma ConfirmedViews(claims: seq<ClaimMember>, r: Request, holderKey: Option<Jwk>)
    requires KeyFits(claims, holderKey)
    ensures Confirmed(ViewMembers(claims, Adjusted(r, holderKey)), holderKey) == Confirmed(ViewMembers(claims, r), holderKey)
  {
    if holderKey.Some? {
      ViewWithout(claims, r, CNF);
    }
  }

  /**
   Selective disclosure, end to end. For every well-formed claims dict, holder key, decoys,
   digest order and request: if the holder, knowing all disclosures, does not raise, then the
   selected disclosures do not repeat, every verifier accepts them, and what is verified is
   exactly the view of the claims that was asked for, with the confirmation claim.
   */
  lemma {:induction false} SelectiveDisclosureEndToEnd(claims: seq<ClaimMember>, holderKey: Option<Jwk>, env: Env, n: nat, r: Request)
    requires ValidEnv(env) && WellFormed(claims, env) && KeyFits(claims, holderKey)
    ensures var p := IssuePayload(claims, holderKey, env, n);
            var s := Select(p.out, r, MappingOf(p.disclosures));
            s.Ok? ==>
              && !Repeats(s.value)
              && Verified(p.out, MappingOf(s.value)) == Ok(Confirmed(ViewMembers(claims, r), holderKey))
  {
    var p := IssuePayload(claims, holderKey, env, n);
    var m := MappingOf(p.disclosures);
    var s := Select(p.out, r, m);
    IssuedMapping(claims, holderKey, env, n);
    if s.Ok? {
      PayloadShape(claims, holderKey, env, n);
      SelectionIsGood(claims, holderKey, env, n, r);
      SelectionIsAccepted(claims, holderKey, env, n, s.value);
      SelectionShowsView(claims, holderKey, env, n, r);
    }
  }

  lemma SelectionIsGood(claims: seq<ClaimMember>, holderKey: Option<Jwk>, env: Env, n: nat, r: Request)
    requires ValidEnv(env) && Good(Dict(claims), env) && KeyFits(claims, holderKey)
    requires var p := IssuePayload(claims, holderKey, env, n); Select(p.out, r, MappingOf(p.disclosures)).Ok?
    ensures var p := IssuePayload(claims, holderKey, env, n);
            var s := Select(p.out, r, MappingOf(p.disclosures)).value;
            multiset(s) <= multiset(p.disclosures) && !Repeats(s)
  {
    var p := IssuePayload(claims, holderKey, env, n);
    var m := MappingOf(p.disclosures);
    PayloadSelects(claims, holderKey, env, n, r, m);
    SelectsIssued(Dict(claims), env, n, Adjusted(r, holderKey), m);
    IssueFresh(Dict(claims), env, n);
    FreshSmaller({}, Select(p.out, r, m).value, p.disclosures);
  }

  lemma {:induction false} SelectionIsAccepted(claims: seq<ClaimMember>, holderKey: Option<Jwk>, env: Env, n: nat, s: seq<Disclosure>)
    requires ValidEnv(env) && WellFormed(claims, env) && KeyFits(claims, holderKey)
    requires multiset(s) <= multiset(IssuePayload(claims, holderKey, env, n).disclosures)
    ensures var p := IssuePayload(claims, holderKey, env, n).out;
            var o := Unpack(p, MappingOf(s), []);
            o.Returned? && o.value == Expand(p, MappingOf(s))
  {
    var p := IssuePayload(claims, holderKey, env, n);
    var m := MappingOf(p.disclosures);
    IssuedMapping(claims, holderKey, env, n);
    PayloadShape(claims, holderKey, env, n);
    PayloadRoundTrip(claims, holderKey, env, n, m);
    MappingSmaller(s, p.disclosures);
    FewerDisclosures(p.out, MappingOf(s), m, []);
    UnpackExact(p.out, MappingOf(s), []);
  }

  lemma MappingSmaller(s: seq<Disclosure>, ds: seq<Disclosure>)
    requires multiset(s) <= multiset(ds)
    ensures SubMapping(MappingOf(s), MappingOf(ds))
  {
    forall t | t in MappingOf(s) ensures t in MappingOf(ds) {
      var d :| d in s && DigestOf(d) == t;
      assert d in multiset(s);
      assert d in multiset(ds);
    }
  }

  lemma SelectionShowsView(claims: seq<ClaimMember>, holderKey: Option<Jwk>, env: Env, n: nat, r: Request)
    requires ValidEnv(env) && WellFormed(claims, env) && KeyFits(claims, holderKey)
    requires var p := IssuePayload(claims, holderKey, env, n); Select(p.out, r, MappingOf(p.disclosures)).Ok?
    ensures var p := IssuePayload(claims, holderKey, env, n);
            var s := Select(p.out, r, MappingOf(p.disclosures)).value;
            Expand(p.out, MappingOf(s)) == Confirmed(ViewMembers(claims, r), holderKey)
            && HashAlgorithm(p.out) == Some(ALG)
  {
    var p := IssuePayload(claims, holderKey, env, n);
    var m := MappingOf(p.disclosures);
    var s := Select(p.out, r, m).value;
    var q := Adjusted(r, holderKey);
    GoodParts(Dict(claims), env);
    IssuedMapping(claims, holderKey, env, n);
    PayloadAlg(claims, holderKey, env, n);
    PayloadSelects(claims, holderKey, env, n, r, m);
    MappingOfChosen(p.disclosures, s);
    ViewOfIssued(Dict(claims), env, n, q, m, MappingOf(s));
    PayloadExpands(claims, holderKey, env, n, MappingOf(s), ViewMembers(claims, q));
    ConfirmedViews(claims, r, holderKey);
  }
}
