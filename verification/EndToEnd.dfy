/** The whole chain at the level of decoded payloads: issue, select, verify. */
module EndToEnd {
  import opened JsonData
  import opened Wrappers
  import opened Unpacking
  import opened UnpackingTheorems
  import opened DisclosureOrder
  import opened Issuance
  import opened Selection
  import opened DigestLists
  import opened IssuedFacts
  import opened RoundTrip
  import opened ViewTheorem
  import opened PlainJson
  import opened Presentation

  /* Writing one member of a decoded dict. */

  ghost predicate DistinctNames(ms: seq<Member>) {
    forall i, j :: 0 <= i < j < |ms| ==> ms[i].name != ms[j].name
  }

  // The position of a name, or the length of ms.
  function NameIndex(ms: seq<Member>, name: string): (i: nat)
    ensures i <= |ms| && (i < |ms| ==> ms[i].name == name)
    ensures forall j :: 0 <= j < i ==> ms[j].name != name
  {
    if ms == [] || ms[0].name == name then 0
    else
      var i := NameIndex(ms[1..], name);
      assert forall j :: 1 <= j <= i ==> ms[j] == ms[1..][j - 1];
      1 + i
  }

  // Put changes nothing else: it replaces the member of that name, or appends.
  lemma {:induction false} PutShape(ms: seq<Member>, name: string, value: Json)
    ensures var i := NameIndex(ms, name);
            Put(ms, name, value) == if i < |ms| then ms[i := Member(name, value)] else ms + [Member(name, value)]
    decreases |ms|
  {
    if ms != [] && ms[0].name != name {
      PutShape(ms[1..], name, value);
      assert ms == [ms[0]] + ms[1..];
    }
  }

  // A value that hides nothing: reading it needs no disclosure, and walking it selects none.
  ghost predicate Inert(value: Json, m: Mapping)
    requires Honest(m)
  {
    && Visited(value, m) == []
    && Sound(value, m)
    && forall r :: Select(value, r, m).Ok? ==> Select(value, r, m) == Ok([])
  }

  function ExpandMember(h: Member, m: Mapping): map<string, Value>
    requires Honest(m)
  {
    if IsSkipped(h.name) then map[] else map[h.name := Expand(h.value, m)]
  }

  lemma ExpandCons(h: Member, rest: seq<Member>, m: Mapping)
    requires Honest(m)
    ensures ExpandMembers([h] + rest, m) == ExpandMember(h, m) + ExpandMembers(rest, m)
  {
    assert ([h] + rest)[1..] == rest;
    assert map[] + ExpandMembers(rest, m) == ExpandMembers(rest, m);
  }

  lemma {:induction false} PutExpands(ms: seq<Member>, name: string, value: Json, m: Mapping)
    requires Honest(m) && DistinctNames(ms)
    ensures ExpandMembers(Put(ms, name, value), m) == ExpandMembers(ms, m) + ExpandMember(Member(name, value), m)
    decreases |ms|
  {
    var x := Member(name, value);
    if ms == [] {
      assert [x] == [x] + [];
      ExpandCons(x, [], m);
    } else {
      assert ms == [ms[0]] + ms[1..];
      DistinctTail(ms);
      ExpandCons(ms[0], ms[1..], m);
      if ms[0].name == name {
        ExpandCons(x, ms[1..], m);
        ExpandMembersKeys(ms[1..], m);
        Overwritten(ExpandMember(ms[0], m), ExpandMembers(ms[1..], m), ExpandMember(x, m), name);
      } else {
        PutExpands(ms[1..], name, value, m);
        ExpandCons(ms[0], Put(ms[1..], name, value), m);
        MapsAssociate(ExpandMember(ms[0], m), ExpandMembers(ms[1..], m), ExpandMember(x, m));
      }
    }
  }

  lemma DistinctTail(ms: seq<Member>)
    requires DistinctNames(ms) && ms != []
    ensures DistinctNames(ms[1..]) && ms[0].name !in PlainNames(ms[1..])
  {
    assert forall i :: 0 <= i < |ms[1..]| ==> ms[1..][i] == ms[i + 1];
  }

  lemma MapsAssociate(f: map<string, Value>, g: map<string, Value>, h: map<string, Value>)
    ensures f + (g + h) == (f + g) + h
  {
  }

  lemma Overwritten(f: map<string, Value>, g: map<string, Value>, h: map<string, Value>, name: string)
    requires f.Keys == h.Keys && f.Keys <= {name} && name !in g
    ensures h + g == (f + g) + h
  {
  }

  function VisitedMember(h: Member, m: Mapping): seq<Atom>
    requires Honest(m)
  {
    if IsSkipped(h.name) then [] else Visited(h.value, m)
  }

  lemma VisitedCons(h: Member, rest: seq<Member>, m: Mapping)
    requires Honest(m)
    ensures VisitedMembers([h] + rest, m) == VisitedMember(h, m) + VisitedMembers(rest, m)
    ensures multiset(VisitedMembers([h] + rest, m)) ==
            multiset(VisitedMember(h, m)) + multiset(VisitedMembers(rest, m))
  {
    assert ([h] + rest)[1..] == rest;
  }

  lemma {:induction false} PutVisits(ms: seq<Member>, name: string, value: Json, m: Mapping)
    requires Honest(m) && Visited(value, m) == []
    ensures multiset(VisitedMembers(Put(ms, name, value), m)) <= multiset(VisitedMembers(ms, m))
    decreases |ms|
  {
    var x := Member(name, value);
    if ms == [] {
      assert [x] == [x] + [];
      VisitedCons(x, [], m);
    } else {
      assert ms == [ms[0]] + ms[1..];
      VisitedCons(ms[0], ms[1..], m);
      if ms[0].name == name {
        VisitedCons(x, ms[1..], m);
      } else {
        PutVisits(ms[1..], name, value, m);
        VisitedCons(ms[0], Put(ms[1..], name, value), m);
      }
    }
  }

  lemma PutSound(ms: seq<Member>, name: string, value: Json, m: Mapping)
    requires Honest(m) && DistinctNames(ms) && Sound(value, m) && AllSoundMembers(ms, m)
    ensures AllSoundMembers(Put(ms, name, value), m)
  {
    PutShape(ms, name, value);
  }

  lemma PutNames(ms: seq<Member>, name: string, value: Json)
    requires DistinctNames(ms)
    ensures PlainNames(Put(ms, name, value)) == PlainNames(ms) + (if IsSkipped(name) then {} else {name})
    ensures DistinctNames(Put(ms, name, value))
  {
    PutShape(ms, name, value);
    var p, k := Put(ms, name, value), NameIndex(ms, name);
    assert p[k] == Member(name, value);
    forall x | x in PlainNames(ms) ensures x in PlainNames(p) {
      var i :| 0 <= i < |ms| && !IsSkipped(ms[i].name) && ms[i].name == x;
      assert p[i].name == x;
    }
    forall x | x in PlainNames(p) ensures x in PlainNames(ms) + (if IsSkipped(name) then {} else {name}) {
      var i :| 0 <= i < |p| && !IsSkipped(p[i].name) && p[i].name == x;
      if i != k {
        assert ms[i] == p[i];
      }
    }
  }

  /* The holder key. */

  // The key is read as it stands.
  predicate ValidJwk(k: Jwk) {
    Plain(k)
  }

  lemma PlainIsInert(j: Json, m: Mapping)
    requires Honest(m) && Plain(j)
    ensures Inert(j, m)
  {
    PlainVisits(j, m);
    forall r ensures Select(j, r, m).Ok? ==> Select(j, r, m) == Ok([]) {
      PlainSelects(j, r, m);
    }
  }

  lemma CnfIsPlain(k: Jwk)
    requires ValidJwk(k)
    ensures Plain(CnfJson(k))
  {
  }

  lemma JwkInert(k: Jwk, m: Mapping)
    requires Honest(m) && ValidJwk(k)
    ensures Inert(CnfJson(k), m)
  {
    CnfIsPlain(k);
    PlainIsInert(CnfJson(k), m);
  }

  /* What Put does to an object. */

  lemma PutObjectVisits(ms: seq<Member>, entries: seq<Json>, name: string, value: Json, m: Mapping)
    requires Honest(m) && name != SD_DIGESTS_KEY && Visited(value, m) == [] && DigestsOf(ms) == Some(entries)
    ensures DigestsOf(Put(ms, name, value)) == Some(entries)
    ensures multiset(Visited(JObj(Put(ms, name, value)), m)) <= multiset(Visited(JObj(ms), m))
  {
    LookupPut(ms, name, value, SD_DIGESTS_KEY);
    PutVisits(ms, name, value, m);
    VisitedObject(ms, entries, m);
    VisitedObject(Put(ms, name, value), entries, m);
  }

  lemma VisitedObject(ms: seq<Member>, entries: seq<Json>, m: Mapping)
    requires Honest(m) && DigestsOf(ms) == Some(entries)
    ensures multiset(Visited(JObj(ms), m)) == multiset(VisitedMembers(ms, m)) + multiset(VisitedDigests(entries, m))
  {
    assert Visited(JObj(ms), m) == VisitedMembers(ms, m) + VisitedDigests(entries, m);
  }

  lemma PutObjectSound(ms: seq<Member>, entries: seq<Json>, name: string, value: Json, m: Mapping)
    requires Honest(m) && DistinctNames(ms) && name != SD_DIGESTS_KEY && Sound(value, m)
    requires DigestsOf(ms) == Some(entries) && Sound(JObj(ms), m)
    ensures Sound(JObj(Put(ms, name, value)), m) <==> IsSkipped(name) || name !in DisclosedNames(entries, m)
  {
    LookupPut(ms, name, value, SD_DIGESTS_KEY);
    PutSound(ms, name, value, m);
    PutNames(ms, name, value);
    SoundObject(Put(ms, name, value), entries, m);
    if !IsSkipped(name) {
      FreshAnyway(PlainNames(ms), name, DisclosedNames(entries, m));
    } else {
      assert PlainNames(ms) + {} == PlainNames(ms);
    }
  }

  lemma PutObjectExpands(ms: seq<Member>, name: string, value: Json, m: Mapping)
    requires Honest(m) && DistinctNames(ms) && name != SD_DIGESTS_KEY && DigestsOf(ms).Some?
    requires IsSkipped(name) || name !in DisclosedNames(DigestsOf(ms).value, m)
    ensures Expand(JObj(Put(ms, name, value)), m) ==
            VObj(Expand(JObj(ms), m).members + ExpandMember(Member(name, value), m))
  {
    LookupPut(ms, name, value, SD_DIGESTS_KEY);
    PutExpands(ms, name, value, m);
    var entries := DigestsOf(ms).value;
    ExpandDigestsKeys(entries, m);
    Commute(ExpandMembers(ms, m), ExpandMember(Member(name, value), m), ExpandDigests(entries, m), name);
  }

  lemma Commute(f: map<string, Value>, g: map<string, Value>, h: map<string, Value>, name: string)
    requires g.Keys <= {name} && (name in g ==> name !in h)
    ensures (f + g) + h == (f + h) + g
  {
  }

  // The request with the entry of one name dropped.
  function Without(r: Request, name: string): Request {
    if r.RDict? then RDict(r.entries - {name}) else r
  }

  lemma {:induction false} SelectDigestsWithout(entries: seq<Json>, r: Request, name: string, m: Mapping)
    requires Honest(m) && name !in DisclosedNames(entries, m)
    ensures SelectDigests(entries, r, m) == SelectDigests(entries, Without(r, name), m)
    decreases |entries|
  {
    if entries == [] {
    } else {
      SelectDigestsWithout(entries[1..], r, name, m);
      if Discloses(entries[0], m) {
        assert Known(entries[0], m).key in DisclosedNames(entries, m);
      }
    }
  }

  // Every _sd list among the members discloses no member of that name.
  ghost predicate NotDisclosed(ms: seq<Member>, name: string, m: Mapping)
    requires Honest(m)
  {
    forall i :: 0 <= i < |ms| && ms[i].name == SD_DIGESTS_KEY && ms[i].value.JArr? ==>
      name !in DisclosedNames(ms[i].value.items, m)
  }

  lemma SelectMemberWithout(h: Member, r: Request, name: string, m: Mapping)
    requires Honest(m) && h.name != name && NotDisclosed([h], name, m)
    ensures SelectMember(h, r, m) == SelectMember(h, Without(r, name), m)
  {
    assert [h][0] == h;
    if h.name == SD_DIGESTS_KEY && h.value.JArr? {
      SelectDigestsWithout(h.value.items, r, name, m);
    }
  }

  lemma {:induction false} SelectWithout(ms: seq<Member>, r: Request, name: string, m: Mapping)
    requires Honest(m) && NotDisclosed(ms, name, m)
    requires forall i :: 0 <= i < |ms| ==> ms[i].name != name
    ensures SelectMembers(ms, r, m) == SelectMembers(ms, Without(r, name), m)
    decreases |ms|
  {
    if ms == [] {
    } else {
      SelectMemberWithout(ms[0], r, name, m);
      SelectWithout(ms[1..], r, name, m);
    }
  }

  // The walk of a dict with one inert member written is the walk of the dict without a request for it.
  lemma {:induction false} SelectPut(ms: seq<Member>, name: string, value: Json, r: Request, m: Mapping)
    requires Honest(m) && DistinctNames(ms) && NotDisclosed(ms, name, m) && name != SD_DIGESTS_KEY && Inert(value, m)
    requires SelectMembers(Put(ms, name, value), r, m).Ok?
    ensures SelectMembers(Put(ms, name, value), r, m) == SelectMembers(ms, Without(r, name), m)
    decreases |ms|
  {
    var x := Member(name, value);
    if ms == [] {
      assert [x][1..] == [];
      assert SelectMember(x, r, m) == Select(value, Get(r, name), m);
      ThenNothing(SelectMember(x, r, m), Ok([]));
    } else {
      var rest := ms[1..];
      assert forall i :: 0 <= i < |rest| ==> rest[i] == ms[i + 1];
      if ms[0].name == name {
        assert ([x] + rest)[1..] == rest;
        SelectWithout(rest, r, name, m);
        SelectNone(ms[0].value, RNone, m);
        assert SelectMember(x, r, m) == Ok([]);
      } else {
        assert ([ms[0]] + Put(rest, name, value))[1..] == Put(rest, name, value);
        assert NotDisclosed(rest, name, m);
        SelectPut(rest, name, value, r, m);
        SelectMemberWithout(ms[0], r, name, m);
      }
    }
  }

  // Appending a scalar changes no walk.
  lemma {:induction false} SelectPutAtom(ms: seq<Member>, name: string, a: Atom, r: Request, m: Mapping)
    requires Honest(m) && name != SD_DIGESTS_KEY && forall i :: 0 <= i < |ms| ==> ms[i].name != name
    ensures SelectMembers(Put(ms, name, JAtom(a)), r, m) == SelectMembers(ms, r, m)
    decreases |ms|
  {
    if ms == [] {
      var x := Member(name, JAtom(a));
      assert [x][1..] == [];
      assert SelectMember(x, r, m) == Ok([]);
      ThenNothing(SelectMember(x, r, m), Ok([]));
    } else {
      SelectPutAtom(ms[1..], name, a, r, m);
      assert ([ms[0]] + Put(ms[1..], name, JAtom(a)))[1..] == Put(ms[1..], name, JAtom(a));
    }
  }

  /* Facts about the issued object. */

  lemma {:induction false} PlainDistinct(ms: seq<ClaimMember>, env: Env, n: nat)
    requires GoodMembers(ms, env)
    ensures DistinctNames(IssueMembers(ms, env, n).out.plain)
    decreases |ms|
  {
    if ms == [] {
    } else {
      var h := IssueMember(ms[0], env, n);
      var t := IssueMembers(ms[1..], env, h.next);
      GoodTail(ms, env);
      PlainDistinct(ms[1..], env, h.next);
      PlainNamesAreClaimNames(ms[1..], env, h.next);
      forall i | 0 <= i < |t.out.plain| && ms[0].key.Name? ensures t.out.plain[i].name != ms[0].key.name {
        var j :| 0 <= j < |ms[1..]| && ms[1..][j].key == Name(t.out.plain[i].name);
        assert ms[j + 1].key != ms[0].key;
      }
    }
  }

  lemma IssuedDistinct(ms: seq<ClaimMember>, env: Env, n: nat)
    requires ValidEnv(env) && GoodMembers(ms, env)
    ensures DistinctNames(Issue(Dict(ms), env, n).out.members)
  {
    PlainDistinct(ms, env, n);
    PlainNamesAreClaimNames(ms, env, n);
  }

  // Names other than the SDObj ones are not disclosed at the top of an issued object.
  lemma SortedNotDisclosed(ms: seq<ClaimMember>, env: Env, n: nat, name: string, m: Mapping)
    requires ValidEnv(env) && GoodMembers(ms, env) && Honest(m) && name !in SdNames(ms)
    ensures name !in NamesOfTexts(env.order(Unsorted(ms, env, n)), m)
  {
    var i := IssueMembers(ms, env, n);
    var unsorted, sorted := Unsorted(ms, env, n), env.order(Unsorted(ms, env, n));
    assert multiset(sorted) == multiset(unsorted);
    PermutedDigests(unsorted, sorted, m, RNone);
    DecoysAreInert(i.out.digests, i.next, env.decoyCount(i.next), m, RNone);
    DisclosedAmongSdNames(ms, env, n, m);
    assert name !in multiset(SdNames(ms));
    assert name !in multiset(NamesOfTexts(sorted, m));
  }

  lemma BareHasNoAlg(ms: seq<ClaimMember>, env: Env, n: nat)
    requires GoodMembers(ms, env)
    ensures var members := Issue(Dict(ms), env, n).out.members;
            forall i :: 0 <= i < |members| ==> members[i].name != DIGEST_ALG_KEY
  {
    PlainNamesAreClaimNames(ms, env, n);
    var plain := IssueMembers(ms, env, n).out.plain;
    assert forall i :: 0 <= i < |plain| ==> plain[i].name != DIGEST_ALG_KEY;
  }

  lemma {:induction false} IssuedNotDisclosed(ms: seq<ClaimMember>, env: Env, n: nat, name: string, m: Mapping)
    requires ValidEnv(env) && GoodMembers(ms, env) && Honest(m) && name !in SdNames(ms)
    ensures NotDisclosed(Issue(Dict(ms), env, n).out.members, name, m)
  {
    SortedNotDisclosed(ms, env, n, name, m);
    PlainNamesAreClaimNames(ms, env, n);
    AssembledNotDisclosed(IssueMembers(ms, env, n).out.plain, env.order(Unsorted(ms, env, n)), name, m);
  }

  lemma {:induction false} AssembledNotDisclosed(plain: seq<Member>, digests: seq<Text>, name: string, m: Mapping)
    requires Honest(m) && name !in NamesOfTexts(digests, m)
    requires forall i :: 0 <= i < |plain| ==> plain[i].name != SD_DIGESTS_KEY
    ensures NotDisclosed(Assemble(plain, digests), name, m)
  {
  }
}
