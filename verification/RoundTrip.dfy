/** Unpacking an issued payload with all its disclosures gives back the user claims. */
module RoundTrip {
  import opened JsonData
  import opened Wrappers
  import opened Sequences
  import opened Unpacking
  import opened UnpackingTheorems
  import opened Issuance
  import opened Selection
  import opened DigestLists
  import opened IssuedFacts

  ghost predicate Covers(ds: seq<Disclosure>, m: Mapping) {
    forall i :: 0 <= i < |ds| ==> DigestOf(ds[i]) in m
  }

  lemma CoversParts(a: seq<Disclosure>, b: seq<Disclosure>, m: Mapping)
    requires Covers(a + b, m)
    ensures Covers(a, m) && Covers(b, m)
  {
    assert forall i :: 0 <= i < |a| ==> (a + b)[i] == a[i];
    assert forall i :: 0 <= i < |b| ==> (a + b)[|a| + i] == b[i];
  }

  /* No digest is met twice, whatever is presented. */

  ghost predicate Apart(s: seq<Atom>, lo: nat, hi: nat) {
    && lo <= hi
    && Fresh({}, s)
    && forall i :: 0 <= i < |s| ==> s[i].Str? && InRange(s[i].t, lo, hi)
  }

  lemma ApartConcat(s: seq<Atom>, t: seq<Atom>, lo: nat, mid: nat, hi: nat)
    requires Apart(s, lo, mid) && Apart(t, mid, hi)
    ensures Apart(s + t, lo, hi)
  {
    FreshConcat({}, s, t);
  }

  lemma ApartPermuted(s: seq<Atom>, t: seq<Atom>, lo: nat, hi: nat)
    requires Apart(s, lo, hi) && multiset(s) == multiset(t)
    ensures Apart(t, lo, hi)
  {
    FreshSmaller({}, t, s);
    forall i | 0 <= i < |t| ensures t[i].Str? && InRange(t[i].t, lo, hi) {
      assert t[i] in multiset(t);
      assert t[i] in s;
    }
  }

  lemma ApartOne(t: Text, n: nat)
    requires InRange(t, n, n + 1)
    ensures Apart([Str(t)], n, n + 1)
  {
  }

  lemma {:induction false} IssuedVisits(c: Claim, env: Env, n: nat, m: Mapping)
    requires ValidEnv(env) && Good(c, env) && Honest(m)
    ensures Apart(Visited(Issue(c, env, n).out, m), n, Issue(c, env, n).next)
    decreases c, 0
  {
    GoodParts(c, env);
    match c
    case Leaf(_) =>
    case List(items) => IssuedItemsVisits(items, env, n, m);
    case SDObj(_) =>
    case Dict(ms) =>
      IssuedMembersVisits(ms, env, n, m);
      SortedVisits(ms, env, n, m);
  }

  lemma ApartInsert(a: seq<Atom>, b: seq<Atom>, c: seq<Atom>, lo: nat, mid: nat, hi: nat)
    requires Apart(b, lo, mid) && Apart(a + c, mid, hi)
    ensures Apart(a + (b + c), lo, hi)
  {
    ApartConcat(b, a + c, lo, mid, hi);
    ApartPermuted(b + (a + c), a + (b + c), lo, hi);
  }

  lemma ApartExtend(a: seq<Atom>, b: seq<Atom>, c: seq<Atom>, t: seq<Atom>, lo: nat, mid: nat, hi: nat)
    requires Apart(a + b, lo, mid) && Apart(c, mid, hi) && multiset(t) == multiset(b + c)
    ensures Apart(a + t, lo, hi)
  {
    ApartConcat(a + b, c, lo, mid, hi);
    ApartPermuted((a + b) + c, a + t, lo, hi);
  }

  // The digests of an issued object, before sorting.
  function Unsorted(ms: seq<ClaimMember>, env: Env, n: nat): seq<Text> {
    var i := IssueMembers(ms, env, n);
    i.out.digests + Decoys(i.next, env.decoyCount(i.next))
  }

  // Reading an issued object: its plain members, and its sorted digests.
  lemma IssuedObject(ms: seq<ClaimMember>, env: Env, n: nat, m: Mapping, r: Request)
    requires ValidEnv(env) && ReadableKeys(ms) && Honest(m)
    ensures var plain, sorted := IssueMembers(ms, env, n).out.plain, env.order(Unsorted(ms, env, n));
            var members := Issue(Dict(ms), env, n).out.members;
            && DigestsOf(members) == Some(DigestList(sorted))
            && PlainNames(members) == PlainNames(plain)
            && ExpandMembers(members, m) == ExpandMembers(plain, m)
            && VisitedMembers(members, m) == VisitedMembers(plain, m)
            && SelectMembers(members, r, m) == Then(SelectTexts(sorted, r, m), SelectMembers(plain, r, m))
            && Alike(Unsorted(ms, env, n), sorted, m, r)
  {
    var plain, sorted := IssueMembers(ms, env, n).out.plain, env.order(Unsorted(ms, env, n));
    PlainNamesAreClaimNames(ms, env, n);
    AssembledDigests(plain, sorted);
    AssembledMembers(plain, sorted, m, r);
    assert multiset(sorted) == multiset(Unsorted(ms, env, n));
    PermutedDigests(Unsorted(ms, env, n), sorted, m, r);
  }

  ghost predicate FieldsApart(i: Issued<Fields>, m: Mapping, n: nat)
    requires Honest(m)
  {
    Apart(VisitedMembers(i.out.plain, m) + VisitedTexts(i.out.digests, m), n, i.next)
  }

  lemma UnsortedVisits(i: Issued<Fields>, n: nat, count: nat, m: Mapping)
    requires Honest(m) && FieldsApart(i, m, n)
    ensures Apart(VisitedMembers(i.out.plain, m) + VisitedTexts(i.out.digests + Decoys(i.next, count), m), n,
                  i.next + count)
  {
    var vp, vd, vx := VisitedMembers(i.out.plain, m), VisitedTexts(i.out.digests, m), VisitedTexts(Decoys(i.next, count), m);
    VisitedTextsConcat(i.out.digests, Decoys(i.next, count), m);
    VisitedDecoys(i.next, count, m);
    ApartExtend(vp, vd, vx, vd + vx, n, i.next, i.next + count);
  }

  // Adding decoys and sorting keeps the digests of an object apart.
  lemma SortedVisits(ms: seq<ClaimMember>, env: Env, n: nat, m: Mapping)
    requires ValidEnv(env) && GoodMembers(ms, env) && Honest(m)
    requires FieldsApart(IssueMembers(ms, env, n), m, n)
    ensures Apart(Visited(Issue(Dict(ms), env, n).out, m), n, Issue(Dict(ms), env, n).next)
  {
    var i := IssueMembers(ms, env, n);
    SortedDigestsVisited(ms, env, n, m);
    UnsortedVisits(i, n, env.decoyCount(i.next), m);
    ApartPermuted(VisitedMembers(i.out.plain, m) + VisitedTexts(Unsorted(ms, env, n), m),
                  Visited(Issue(Dict(ms), env, n).out, m), n, i.next + env.decoyCount(i.next));
  }

  lemma {:induction false} SortedDigestsVisited(ms: seq<ClaimMember>, env: Env, n: nat, m: Mapping)
    requires ValidEnv(env) && GoodMembers(ms, env) && Honest(m)
    ensures multiset(Visited(Issue(Dict(ms), env, n).out, m)) ==
            multiset(VisitedMembers(IssueMembers(ms, env, n).out.plain, m) + VisitedTexts(Unsorted(ms, env, n), m))
  {
    IssuedObject(ms, env, n, m, RNone);
    VisitedAssembled(Issue(Dict(ms), env, n).out.members, env.order(Unsorted(ms, env, n)), m);
  }

  lemma VisitedAssembled(members: seq<Member>, sorted: seq<Text>, m: Mapping)
    requires Honest(m) && DigestsOf(members) == Some(DigestList(sorted))
    ensures Visited(JObj(members), m) == VisitedMembers(members, m) + VisitedTexts(sorted, m)
  {
  }

  lemma {:induction false} IssuedItemsVisits(items: seq<Claim>, env: Env, n: nat, m: Mapping)
    requires ValidEnv(env) && GoodItems(items, env) && Honest(m)
    ensures Apart(VisitedItems(IssueItems(items, env, n).out, m), n, IssueItems(items, env, n).next)
    decreases items, 0
  {
    if items == [] {
    } else {
      var h := IssueItem(items[0], env, n);
      var t := IssueItems(items[1..], env, h.next);
      assert GoodItem(items[0], env) && GoodItems(items[1..], env);
      IssuedItemVisits(items[0], env, n, m);
      IssuedItemsVisits(items[1..], env, h.next, m);
      ApartConcat(VisitedItem(h.out, m), VisitedItems(t.out, m), n, h.next, t.next);
      assert ([h.out] + t.out)[1..] == t.out;
    }
  }

  lemma {:induction false} IssuedItemVisits(c: Claim, env: Env, n: nat, m: Mapping)
    requires ValidEnv(env) && GoodItem(c, env) && Honest(m)
    ensures Apart(VisitedItem(IssueItem(c, env, n).out, m), n, IssueItem(c, env, n).next)
    decreases c, 1
  {
    if !c.SDObj? {
      IssuedIsNoLeaf(c, env, n);
      IssuedVisits(c, env, n, m);
    } else {
      IssuedVisits(c.value, env, n, m);
    }
  }

  lemma {:induction false} IssuedMembersVisits(ms: seq<ClaimMember>, env: Env, n: nat, m: Mapping)
    requires ValidEnv(env) && GoodMembers(ms, env) && Honest(m)
    ensures FieldsApart(IssueMembers(ms, env, n), m, n)
    decreases ms, 0
  {
    if ms == [] {
    } else {
      var h := IssueMember(ms[0], env, n);
      var t := IssueMembers(ms[1..], env, h.next);
      GoodTail(ms, env);
      IssuedMembersVisits(ms[1..], env, h.next, m);
      assert ms[0].value < Dict(ms);
      IssuedVisits(ms[0].value, env, n, m);
      var v := Issue(ms[0].value, env, n);
      match ms[0].key
      case Name(name) => VisitPlain(Member(name, v.out), h, t, m, n);
      case SDKey(name) => VisitDigest(MemberDisclosure(v.next, name, v.out), h, t, m, n);
    }
  }

  lemma VisitPlain(member: Member, h: Issued<Fields>, t: Issued<Fields>, m: Mapping, n: nat)
    requires Honest(m) && h.out == Fields([member], []) && !IsSkipped(member.name)
    requires Apart(Visited(member.value, m), n, h.next) && FieldsApart(t, m, h.next)
    ensures FieldsApart(ThenFields(h, t), m, n)
  {
    var v, vp, vd := Visited(member.value, m), VisitedMembers(t.out.plain, m), VisitedTexts(t.out.digests, m);
    ApartConcat(v, vp + vd, n, h.next, t.next);
    assert ([member] + t.out.plain)[1..] == t.out.plain;
    assert [] + t.out.digests == t.out.digests;
    assert v + (vp + vd) == (v + vp) + vd;
  }

  lemma VisitDigest(d: Disclosure, h: Issued<Fields>, t: Issued<Fields>, m: Mapping, n: nat)
    requires Honest(m) && d.MemberDisclosure? && h.out == Fields([], [DigestOf(d)]) && h.next == d.salt + 1
    requires Apart(Visited(d.value, m), n, d.salt) && FieldsApart(t, m, h.next)
    ensures FieldsApart(ThenFields(h, t), m, n)
  {
    var block := VisitedDigest(DigestAtom(DigestOf(d)), m);
    DigestBlock(DigestOf(d), d.value, n, m);
    ApartInsert(VisitedMembers(t.out.plain, m), block, VisitedTexts(t.out.digests, m), n, h.next, t.next);
    assert [] + t.out.plain == t.out.plain;
    TextsCons(DigestOf(d), t.out.digests, m, RNone);
  }

  lemma DigestBlock(digest: Text, value: Json, n: nat, m: Mapping)
    requires Honest(m) && digest.DigestOf? && digest.disclosure.MemberDisclosure?
    requires digest.disclosure.value == value && n <= digest.disclosure.salt
    requires Apart(Visited(value, m), n, digest.disclosure.salt)
    ensures Apart(VisitedDigest(DigestAtom(digest), m), n, digest.disclosure.salt + 1)
  {
    var v := if Discloses(DigestAtom(digest), m) then Visited(value, m) else [];
    assert VisitedDigest(DigestAtom(digest), m) == [Str(digest)] + v;
    ApartInFront(digest, v, n, digest.disclosure.salt);
  }

  lemma ApartInFront(digest: Text, v: seq<Atom>, n: nat, salt: nat)
    requires digest.DigestOf? && digest.disclosure.MemberDisclosure? && digest.disclosure.salt == salt
    requires n <= salt && Apart(v, n, salt)
    ensures Apart([Str(digest)] + v, n, salt + 1)
  {
    ApartOne(digest, salt);
    ApartConcat(v, [Str(digest)], n, salt, salt + 1);
    ApartPermuted(v + [Str(digest)], [Str(digest)] + v, n, salt + 1);
  }

  /* Soundness, when all disclosures are presented. */

  function SdNames(ms: seq<ClaimMember>): seq<string> {
    if ms == [] then []
    else (if ms[0].key.SDKey? then [ms[0].key.name] else []) + SdNames(ms[1..])
  }

  function PlainKeyNames(ms: seq<ClaimMember>): set<string> {
    if ms == [] then {}
    else (if ms[0].key.Name? then {ms[0].key.name} else {}) + PlainKeyNames(ms[1..])
  }

  ghost predicate NamesApart(ms: seq<ClaimMember>) {
    forall i, j :: 0 <= i < j < |ms| ==> ms[i].key.name != ms[j].key.name
  }

  lemma {:induction false} NamesOfKeys(ms: seq<ClaimMember>, x: string)
    ensures x in SdNames(ms) <==> exists i :: 0 <= i < |ms| && ms[i].key == SDKey(x)
    ensures x in PlainKeyNames(ms) <==> exists i :: 0 <= i < |ms| && ms[i].key == Name(x)
    decreases |ms|
  {
    if ms == [] {
    } else {
      var rest := ms[1..];
      NamesOfKeys(rest, x);
      assert forall i :: 0 <= i < |rest| ==> rest[i] == ms[i + 1];
      assert forall i :: 1 <= i < |ms| ==> rest[i - 1] == ms[i];
      if i :| 0 <= i < |rest| && rest[i].key == SDKey(x) {
        assert ms[i + 1].key == SDKey(x);
      }
      if i :| 0 <= i < |rest| && rest[i].key == Name(x) {
        assert ms[i + 1].key == Name(x);
      }
    }
  }

  // In a dict, the names are distinct iff no SDObj name repeats a plain one.
  lemma {:induction false} NamesApartExact(ms: seq<ClaimMember>)
    requires forall i, j :: 0 <= i < j < |ms| ==> ms[i].key != ms[j].key
    ensures Fresh(PlainKeyNames(ms), SdNames(ms)) <==> NamesApart(ms)
    decreases |ms|
  {
    if ms == [] {
    } else {
      var k, rest := ms[0].key, ms[1..];
      assert forall i :: 0 <= i < |rest| ==> rest[i] == ms[i + 1];
      NamesApartExact(rest);
      NamesOfKeys(rest, k.name);
      assert NamesApart(ms) <==> NamesApart(rest) && k.name !in SdNames(rest) && k.name !in PlainKeyNames(rest) by {
        NamesApartCons(ms);
      }
      match k
      case SDKey(x) =>
        FreshCons(PlainKeyNames(rest), x, SdNames(rest));
        assert PlainKeyNames(ms) == PlainKeyNames(rest);
        FreshAnyway(PlainKeyNames(rest), x, SdNames(rest));
      case Name(x) =>
        assert PlainKeyNames(ms) == PlainKeyNames(rest) + {x};
        assert SdNames(ms) == SdNames(rest);
        FreshAnyway(PlainKeyNames(rest), x, SdNames(rest));
        assert x !in PlainKeyNames(rest);
    }
  }

  lemma FreshAnyway(before: set<string>, x: string, s: seq<string>)
    ensures Fresh(before + {x}, s) <==> Fresh(before, s) && x !in s
  {
  }

  lemma NamesApartCons(ms: seq<ClaimMember>)
    requires ms != []
    ensures NamesApart(ms) <==>
            NamesApart(ms[1..]) && ms[0].key.name !in SdNames(ms[1..]) && ms[0].key.name !in PlainKeyNames(ms[1..])
  {
    var x, rest := ms[0].key.name, ms[1..];
    NamesOfKeys(rest, x);
    assert forall i :: 0 <= i < |rest| ==> rest[i] == ms[i + 1];
    if NamesApart(rest) && x !in SdNames(rest) && x !in PlainKeyNames(rest) {
      forall i, j | 0 <= i < j < |ms| ensures ms[i].key.name != ms[j].key.name {
        assert ms[j] == rest[j - 1];
        assert rest[j - 1].key == SDKey(rest[j - 1].key.name) || rest[j - 1].key == Name(rest[j - 1].key.name);
        if i > 0 {
          assert ms[i] == rest[i - 1];
        }
      }
    }
    if NamesApart(ms) {
      forall i | 0 <= i < |rest| ensures rest[i].key.name != x {
        assert ms[0].key.name != ms[i + 1].key.name;
      }
    }
  }

  lemma {:induction false} PlainNamesExact(ms: seq<ClaimMember>, env: Env, n: nat)
    requires ReadableKeys(ms)
    ensures PlainNames(IssueMembers(ms, env, n).out.plain) == PlainKeyNames(ms)
    decreases |ms|
  {
    if ms == [] {
    } else {
      var h := IssueMember(ms[0], env, n);
      var t := IssueMembers(ms[1..], env, h.next);
      PlainNamesExact(ms[1..], env, h.next);
      if ms[0].key.Name? {
        PlainNamesCons(h.out.plain[0], t.out.plain);
      } else {
        assert h.out.plain + t.out.plain == t.out.plain;
      }
    }
  }

  lemma PlainNamesCons(member: Member, ms: seq<Member>)
    requires !IsSkipped(member.name)
    ensures PlainNames([member] + ms) == {member.name} + PlainNames(ms)
  {
    var all := [member] + ms;
    assert all[0] == member;
    assert forall i :: 0 <= i < |ms| ==> all[i + 1] == ms[i];
    forall x | x in PlainNames(ms) ensures x in PlainNames(all) {
      var i :| 0 <= i < |ms| && !IsSkipped(ms[i].name) && ms[i].name == x;
      assert all[i + 1].name == x;
    }
    forall x | x in PlainNames(all) ensures x in {member.name} + PlainNames(ms) {
      var i :| 0 <= i < |all| && !IsSkipped(all[i].name) && all[i].name == x;
      if i > 0 {
        assert ms[i - 1].name == x;
      }
    }
  }

  lemma {:induction false} SdNamesExact(ms: seq<ClaimMember>, env: Env, n: nat, m: Mapping)
    requires Honest(m) && Covers(IssueMembers(ms, env, n).disclosures, m)
    ensures NamesOfTexts(IssueMembers(ms, env, n).out.digests, m) == SdNames(ms)
    decreases |ms|
  {
    if ms == [] {
    } else {
      var h := IssueMember(ms[0], env, n);
      var t := IssueMembers(ms[1..], env, h.next);
      CoversParts(h.disclosures, t.disclosures, m);
      SdNamesExact(ms[1..], env, h.next, m);
      if ms[0].key.SDKey? {
        var d := h.disclosures[|h.disclosures| - 1];
        assert DigestOf(d) in m;
        TextsCons(DigestOf(d), t.out.digests, m, RNone);
      } else {
        assert h.out.digests + t.out.digests == t.out.digests;
      }
    }
  }

  // The members and digests issued for a dict are sound.
  ghost predicate FieldsSound(f: Fields, m: Mapping)
    requires Honest(m)
  {
    && AllSoundMembers(f.plain, m)
    && (forall t :: t in f.digests ==> SoundDigest(DigestAtom(t), m))
  }

  ghost predicate NoClashInside(ms: seq<ClaimMember>) {
    forall i :: 0 <= i < |ms| ==> NoClash(ms[i].value)
  }

  // With all disclosures presented, an issued payload is sound iff no dict has clashing names.
  lemma {:induction false} IssuedSound(c: Claim, env: Env, n: nat, m: Mapping)
    requires ValidEnv(env) && Good(c, env) && Honest(m)
    requires Covers(Issue(c, env, n).disclosures, m)
    ensures Sound(Issue(c, env, n).out, m) <==> NoClash(c)
    decreases c, 0
  {
    GoodParts(c, env);
    match c
    case Leaf(_) =>
    case SDObj(_) =>
    case List(items) =>
      IssuedItemsSound(items, env, n, m);
    case Dict(ms) =>
      IssuedMembersSound(ms, env, n, m);
      SortedSound(ms, env, n, m);
      assert NoClash(c) <==> NamesApart(ms) && NoClashInside(ms);
  }

  lemma {:induction false} SortedSound(ms: seq<ClaimMember>, env: Env, n: nat, m: Mapping)
    requires ValidEnv(env) && GoodMembers(ms, env) && Honest(m)
    requires Covers(IssueMembers(ms, env, n).disclosures, m)
    ensures Sound(Issue(Dict(ms), env, n).out, m) <==>
            FieldsSound(IssueMembers(ms, env, n).out, m) && NamesApart(ms)
  {
    var i := IssueMembers(ms, env, n);
    var sorted := env.order(Unsorted(ms, env, n));
    SortedNames(ms, env, n, m);
    AssembledSound(i.out.plain, sorted, m, ms, env, n);
    SoundObject(Issue(Dict(ms), env, n).out.members, DigestList(sorted), m);
  }

  lemma {:induction false} SortedNames(ms: seq<ClaimMember>, env: Env, n: nat, m: Mapping)
    requires ValidEnv(env) && GoodMembers(ms, env) && Honest(m)
    requires Covers(IssueMembers(ms, env, n).disclosures, m)
    ensures var members := Issue(Dict(ms), env, n).out.members;
            && DigestsOf(members) == Some(DigestList(env.order(Unsorted(ms, env, n))))
            && (Fresh(PlainNames(members), DisclosedNames(DigestsOf(members).value, m)) <==> NamesApart(ms))
  {
    var i := IssueMembers(ms, env, n);
    var unsorted, sorted := Unsorted(ms, env, n), env.order(Unsorted(ms, env, n));
    IssuedObject(ms, env, n, m, RNone);
    DecoysAreInert(i.out.digests, i.next, env.decoyCount(i.next), m, RNone);
    SdNamesExact(ms, env, n, m);
    PlainNamesExact(ms, env, n);
    NamesApartExact(ms);
    FreshPermuted(PlainKeyNames(ms), SdNames(ms), NamesOfTexts(sorted, m));
  }

  lemma FreshPermuted<T>(before: set<T>, s: seq<T>, t: seq<T>)
    requires multiset(s) == multiset(t)
    ensures Fresh(before, s) <==> Fresh(before, t)
  {
    if Fresh(before, s) {
      FreshSmaller(before, t, s);
    }
    if Fresh(before, t) {
      FreshSmaller(before, s, t);
    }
  }

  // The parts of an assembled object, apart from its names.
  lemma AssembledSound(plain: seq<Member>, sorted: seq<Text>, m: Mapping, ms: seq<ClaimMember>, env: Env, n: nat)
    requires Honest(m) && ValidEnv(env) && GoodMembers(ms, env)
    requires plain == IssueMembers(ms, env, n).out.plain && sorted == env.order(Unsorted(ms, env, n))
    ensures AllSoundMembers(Issue(Dict(ms), env, n).out.members, m) <==> AllSoundMembers(plain, m)
    ensures AllSoundDigests(DigestList(sorted), m) <==>
            forall t :: t in IssueMembers(ms, env, n).out.digests ==> SoundDigest(DigestAtom(t), m)
  {
    var i := IssueMembers(ms, env, n);
    var members := Assemble(plain, sorted);
    if sorted != [] {
      AllSoundMembersCons(members, m);
      assert members[1..] == plain;
    }
    var entries := DigestList(sorted);
    if forall t :: t in i.out.digests ==> SoundDigest(DigestAtom(t), m) {
      forall k | 0 <= k < |entries| ensures SoundDigest(entries[k], m) {
        assert entries[k] == DigestAtom(sorted[k]);
        SortedMembership(ms, env, n, sorted[k]);
      }
    }
    if AllSoundDigests(entries, m) {
      forall t | t in i.out.digests ensures SoundDigest(DigestAtom(t), m) {
        SortedMembership(ms, env, n, t);
        var k :| 0 <= k < |sorted| && sorted[k] == t;
        assert entries[k] == DigestAtom(t);
      }
    }
  }

  lemma SortedMembership(ms: seq<ClaimMember>, env: Env, n: nat, t: Text)
    requires ValidEnv(env)
    ensures t in env.order(Unsorted(ms, env, n)) ==> t in IssueMembers(ms, env, n).out.digests || t.DecoyDigest?
    ensures t in IssueMembers(ms, env, n).out.digests ==> t in env.order(Unsorted(ms, env, n))
  {
    var unsorted := Unsorted(ms, env, n);
    assert multiset(env.order(unsorted)) == multiset(unsorted);
    assert t in multiset(env.order(unsorted)) <==> t in multiset(unsorted);
  }

  lemma {:induction false} IssuedItemsSound(items: seq<Claim>, env: Env, n: nat, m: Mapping)
    requires ValidEnv(env) && GoodItems(items, env) && Honest(m)
    requires Covers(IssueItems(items, env, n).disclosures, m)
    ensures AllSoundItems(IssueItems(items, env, n).out, m) <==> NoClash(List(items))
    decreases items, 0
  {
    if items == [] {
    } else {
      var h := IssueItem(items[0], env, n);
      var t := IssueItems(items[1..], env, h.next);
      assert GoodItem(items[0], env) && GoodItems(items[1..], env);
      CoversParts(h.disclosures, t.disclosures, m);
      IssuedItemSound(items[0], env, n, m);
      IssuedItemsSound(items[1..], env, h.next, m);
      assert ([h.out] + t.out)[1..] == t.out;
      AllSoundItemsCons([h.out] + t.out, m);
      NoClashCons(items);
    }
  }

  lemma NoClashCons(items: seq<Claim>)
    requires items != []
    ensures NoClash(List(items)) <==> NoClash(items[0]) && NoClash(List(items[1..]))
  {
    assert forall i :: 0 <= i < |items[1..]| ==> items[1..][i] == items[i + 1];
    if NoClash(items[0]) && NoClash(List(items[1..])) {
      forall i | 0 <= i < |items| ensures NoClash(items[i]) {
        if i > 0 {
          assert items[i] == items[1..][i - 1];
        }
      }
    }
  }

  lemma {:induction false} IssuedItemSound(c: Claim, env: Env, n: nat, m: Mapping)
    requires ValidEnv(env) && GoodItem(c, env) && Honest(m)
    requires Covers(IssueItem(c, env, n).disclosures, m)
    ensures SoundItem(IssueItem(c, env, n).out, m) <==> NoClash(c)
    decreases c, 1
  {
    if !c.SDObj? {
      IssuedIsNoLeaf(c, env, n);
      IssuedSound(c, env, n, m);
    } else {
      var i := Issue(c.value, env, n);
      var d := ElementDisclosure(i.next, i.out);
      CoversParts(i.disclosures, [d], m);
      assert DigestOf([d][0]) in m;
      IssuedSound(c.value, env, n, m);
    }
  }

  lemma {:induction false} IssuedMembersSound(ms: seq<ClaimMember>, env: Env, n: nat, m: Mapping)
    requires ValidEnv(env) && GoodMembers(ms, env) && Honest(m)
    requires Covers(IssueMembers(ms, env, n).disclosures, m)
    ensures FieldsSound(IssueMembers(ms, env, n).out, m) <==> NoClashInside(ms)
    decreases ms, 0
  {
    if ms == [] {
    } else {
      var h := IssueMember(ms[0], env, n);
      var t := IssueMembers(ms[1..], env, h.next);
      GoodTail(ms, env);
      CoversParts(h.disclosures, t.disclosures, m);
      IssuedMembersSound(ms[1..], env, h.next, m);
      var v := Issue(ms[0].value, env, n);
      assert ms[0].value < Dict(ms);
      if ms[0].key.SDKey? {
        CoversParts(v.disclosures, [MemberDisclosure(v.next, ms[0].key.name, v.out)], m);
      }
      IssuedSound(ms[0].value, env, n, m);
      match ms[0].key
      case Name(name) => SoundPlain(Member(name, v.out), t.out, m);
      case SDKey(name) => SoundSd(MemberDisclosure(v.next, name, v.out), t.out, m, h.disclosures);
      NoClashInsideCons(ms);
    }
  }

  lemma NoClashInsideCons(ms: seq<ClaimMember>)
    requires ms != []
    ensures NoClashInside(ms) <==> NoClash(ms[0].value) && NoClashInside(ms[1..])
  {
    assert forall i :: 0 <= i < |ms[1..]| ==> ms[1..][i] == ms[i + 1];
    if NoClash(ms[0].value) && NoClashInside(ms[1..]) {
      forall i | 0 <= i < |ms| ensures NoClash(ms[i].value) {
        if i > 0 {
          assert ms[i] == ms[1..][i - 1];
        }
      }
    }
  }

  lemma SoundPlain(member: Member, t: Fields, m: Mapping)
    requires Honest(m) && !IsSkipped(member.name)
    ensures FieldsSound(Fields([member] + t.plain, [] + t.digests), m) <==> Sound(member.value, m) && FieldsSound(t, m)
  {
    AllSoundMembersCons([member] + t.plain, m);
    assert ([member] + t.plain)[1..] == t.plain;
  }

  lemma SoundSd(d: Disclosure, t: Fields, m: Mapping, ds: seq<Disclosure>)
    requires Honest(m) && d.MemberDisclosure? && Covers(ds, m) && ds != [] && ds[|ds| - 1] == d
    ensures FieldsSound(Fields([] + t.plain, [DigestOf(d)] + t.digests), m) <==>
            Sound(d.value, m) && FieldsSound(t, m)
  {
    assert DigestOf(d) in m;
    assert [] + t.plain == t.plain;
    assert SoundDigest(DigestAtom(DigestOf(d)), m) <==> Sound(d.value, m);
    var all := [DigestOf(d)] + t.digests;
    assert all[0] == DigestOf(d);
    forall t' ensures t' in all <==> t' == DigestOf(d) || t' in t.digests {
    }
  }
}
