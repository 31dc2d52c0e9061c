/** Fresh salts: what an issuance produces is pairwise distinct, stretch by stretch. */
module IssuedFacts {
  import opened JsonData
  import opened Wrappers
  import opened Sequences
  import opened Unpacking
  import opened Issuance
  import opened Selection
  import opened DigestLists

  // A digest made with a salt from lo up to, but excluding, hi.
  predicate InRange(t: Text, lo: nat, hi: nat) {
    match t
    case Lit(_) => false
    case DecoyDigest(salt) => lo <= salt < hi
    case DigestOf(d) => !d.Malformed? && lo <= d.salt < hi
  }

  ghost predicate DisclosuresIn(ds: seq<Disclosure>, lo: nat, hi: nat) {
    && lo <= hi
    && Fresh({}, ds)
    && forall i :: 0 <= i < |ds| ==> InRange(DigestOf(ds[i]), lo, hi)
  }

  lemma DisclosuresConcat(a: seq<Disclosure>, b: seq<Disclosure>, lo: nat, mid: nat, hi: nat)
    requires DisclosuresIn(a, lo, mid) && DisclosuresIn(b, mid, hi)
    ensures DisclosuresIn(a + b, lo, hi)
  {
    FreshConcat({}, a, b);
  }

  lemma {:induction false} IssueFresh(c: Claim, env: Env, n: nat)
    ensures DisclosuresIn(Issue(c, env, n).disclosures, n, Issue(c, env, n).next)
    decreases c, 0
  {
    match c
    case Leaf(_) =>
    case List(items) => IssueItemsFresh(items, env, n);
    case Dict(ms) => IssueMembersFresh(ms, env, n);
    case SDObj(_) =>
  }

  lemma {:induction false} IssueItemFresh(c: Claim, env: Env, n: nat)
    ensures DisclosuresIn(IssueItem(c, env, n).disclosures, n, IssueItem(c, env, n).next)
    decreases c, 1
  {
    if !c.SDObj? {
      IssueFresh(c, env, n);
    } else {
      var i := Issue(c.value, env, n);
      IssueFresh(c.value, env, n);
      DisclosuresConcat(i.disclosures, [ElementDisclosure(i.next, i.out)], n, i.next, i.next + 1);
    }
  }

  lemma {:induction false} IssueItemsFresh(items: seq<Claim>, env: Env, n: nat)
    ensures DisclosuresIn(IssueItems(items, env, n).disclosures, n, IssueItems(items, env, n).next)
    decreases items, 0
  {
    if items == [] {
    } else {
      var h := IssueItem(items[0], env, n);
      var t := IssueItems(items[1..], env, h.next);
      IssueItemFresh(items[0], env, n);
      IssueItemsFresh(items[1..], env, h.next);
      DisclosuresConcat(h.disclosures, t.disclosures, n, h.next, t.next);
    }
  }

  lemma {:induction false} IssueMemberFresh(m: ClaimMember, env: Env, n: nat)
    ensures DisclosuresIn(IssueMember(m, env, n).disclosures, n, IssueMember(m, env, n).next)
    decreases m, 0
  {
    var i := Issue(m.value, env, n);
    IssueFresh(m.value, env, n);
    if m.key.SDKey? {
      DisclosuresConcat(i.disclosures, [MemberDisclosure(i.next, m.key.name, i.out)], n, i.next, i.next + 1);
    }
  }

  lemma {:induction false} IssueMembersFresh(ms: seq<ClaimMember>, env: Env, n: nat)
    ensures DisclosuresIn(IssueMembers(ms, env, n).disclosures, n, IssueMembers(ms, env, n).next)
    decreases ms, 0
  {
    if ms == [] {
    } else {
      var h := IssueMember(ms[0], env, n);
      var t := IssueMembers(ms[1..], env, h.next);
      IssueMemberFresh(ms[0], env, n);
      IssueMembersFresh(ms[1..], env, h.next);
      DisclosuresConcat(h.disclosures, t.disclosures, n, h.next, t.next);
    }
  }

  // Two stretches of one issuance share no disclosure.
  lemma RangesDisjoint(a: seq<Disclosure>, b: seq<Disclosure>, lo: nat, mid: nat, hi: nat, d: Disclosure)
    requires DisclosuresIn(a, lo, mid) && DisclosuresIn(b, mid, hi)
    ensures !(d in a && d in b)
  {
  }

  /* The claims for which issuance is meant. */

  ghost predicate GoodItem(c: Claim, env: Env) {
    NoStrayItem(c) && NoReserved(c, HasDecoys(env)) && AreDicts(c) && (IsFakeLeaf(c) ==> HasDecoys(env))
  }

  ghost predicate Good(c: Claim, env: Env) {
    NoStray(c) && NoReserved(c, HasDecoys(env)) && AreDicts(c)
  }

  ghost predicate ReadableKeys(ms: seq<ClaimMember>) {
    && (forall i, j :: 0 <= i < j < |ms| ==> ms[i].key != ms[j].key)
    && (forall i :: 0 <= i < |ms| ==> !IsReserved(ms[i].key))
  }

  ghost predicate GoodMembers(ms: seq<ClaimMember>, env: Env) {
    ReadableKeys(ms) && forall i :: 0 <= i < |ms| ==> Good(ms[i].value, env)
  }

  ghost predicate GoodItems(items: seq<Claim>, env: Env) {
    forall i :: 0 <= i < |items| ==> GoodItem(items[i], env)
  }

  lemma GoodParts(c: Claim, env: Env)
    requires Good(c, env)
    ensures c.List? ==> GoodItems(c.items, env)
    ensures c.Dict? ==> GoodMembers(c.members, env)
    ensures !c.SDObj?
  {
  }

  lemma GoodTail(ms: seq<ClaimMember>, env: Env)
    requires GoodMembers(ms, env) && ms != []
    ensures GoodMembers(ms[1..], env)
  {
  }

  // Nothing but a fake leaf without decoys is issued in the form of a hidden list element.
  lemma {:induction false} IssuedIsNoLeaf(c: Claim, env: Env, n: nat)
    requires ValidEnv(env) && NoStray(c) && (IsFakeLeaf(c) ==> HasDecoys(env))
    requires c.Dict? ==> forall i :: 0 <= i < |c.members| ==> c.members[i].key != Name(SD_DIGESTS_KEY)
    ensures !IsElementLeaf(Issue(c, env, n).out)
  {
    if c.Dict? && IsElementLeaf(Issue(c, env, n).out) {
      var i := IssueMembers(c.members, env, n);
      var sorted := env.order(i.out.digests + Decoys(i.next, env.decoyCount(i.next)));
      EachMemberIssued(c.members, env, n);
      assert multiset(sorted) == multiset(i.out.digests + Decoys(i.next, env.decoyCount(i.next)));
      assert sorted == [];
      assert |multiset(sorted)| == |i.out.digests| + env.decoyCount(i.next);
      OnlyMember(c.members, env, n);
    }
  }

  // Every claim member becomes one plain member or one digest.
  lemma {:induction false} EachMemberIssued(ms: seq<ClaimMember>, env: Env, n: nat)
    ensures var f := IssueMembers(ms, env, n).out; |f.plain| + |f.digests| == |ms|
    decreases |ms|
  {
    if ms == [] {
    } else {
      EachMemberIssued(ms[1..], env, IssueMember(ms[0], env, n).next);
    }
  }

  lemma OnlyMember(ms: seq<ClaimMember>, env: Env, n: nat)
    requires |ms| == 1 && IssueMembers(ms, env, n).out.digests == []
    ensures ms[0].key.Name?
    ensures IssueMembers(ms, env, n).out.plain == [Member(ms[0].key.name, Issue(ms[0].value, env, n).out)]
    ensures NoStray(ms[0].value) && Issue(ms[0].value, env, n).out.JAtom? ==>
              ms[0].value == Leaf(Issue(ms[0].value, env, n).out.a)
  {
    assert ms[1..] == [];
    assert ms[0].key.Name?;
  }

  ghost predicate IsPlainKey(ms: seq<ClaimMember>, name: string) {
    exists j :: 0 <= j < |ms| && ms[j].key == Name(name)
  }

  ghost predicate PlainFrom(plain: seq<Member>, ms: seq<ClaimMember>) {
    forall i :: 0 <= i < |plain| ==> !IsSkipped(plain[i].name) && IsPlainKey(ms, plain[i].name)
  }

  lemma {:induction false} PlainNamesAreClaimNames(ms: seq<ClaimMember>, env: Env, n: nat)
    requires ReadableKeys(ms)
    ensures PlainFrom(IssueMembers(ms, env, n).out.plain, ms)
    decreases |ms|
  {
    if ms == [] {
    } else {
      var h := IssueMember(ms[0], env, n);
      var t := IssueMembers(ms[1..], env, h.next);
      PlainNamesAreClaimNames(ms[1..], env, h.next);
      var plain := h.out.plain + t.out.plain;
      forall i | 0 <= i < |plain| ensures !IsSkipped(plain[i].name) && IsPlainKey(ms, plain[i].name) {
        if i < |h.out.plain| {
          assert ms[0].key == Name(plain[i].name);
        } else {
          var k := i - |h.out.plain|;
          assert t.out.plain[k] == plain[i] && IsPlainKey(ms[1..], plain[i].name);
          var j :| 0 <= j < |ms[1..]| && ms[1..][j].key == Name(plain[i].name);
          assert ms[j + 1].key == Name(plain[i].name);
        }
      }
    }
  }

  // The digests of an issued object are the sorted digests, and its other members are the plain ones.
  lemma AssembledDigests(plain: seq<Member>, digests: seq<Text>)
    requires forall i :: 0 <= i < |plain| ==> plain[i].name != SD_DIGESTS_KEY
    ensures DigestsOf(Assemble(plain, digests)) == Some(DigestList(digests))
    ensures PlainNames(Assemble(plain, digests)) == PlainNames(plain)
  {
    LookupMissing(plain, SD_DIGESTS_KEY);
    if digests == [] {
      assert DigestList(digests) == [];
    } else {
      var ms := Assemble(plain, digests);
      assert ms[0].name == SD_DIGESTS_KEY && ms[1..] == plain;
      forall x | x in PlainNames(plain) ensures x in PlainNames(ms) {
        var i :| 0 <= i < |plain| && !IsSkipped(plain[i].name) && plain[i].name == x;
        assert ms[i + 1].name == x;
      }
      forall x | x in PlainNames(ms) ensures x in PlainNames(plain) {
        var i :| 0 <= i < |ms| && !IsSkipped(ms[i].name) && ms[i].name == x;
        assert plain[i - 1].name == x;
      }
    }
  }

  lemma {:induction false} LookupMissing(ms: seq<Member>, name: string)
    requires forall i :: 0 <= i < |ms| ==> ms[i].name != name
    ensures Lookup(ms, name) == None
    decreases |ms|
  {
    if ms == [] {
    } else {
      LookupMissing(ms[1..], name);
    }
  }

  // Reading an assembled object member by member.
  lemma {:induction false} AssembledMembers(plain: seq<Member>, digests: seq<Text>, m: Mapping, r: Request)
    requires Honest(m)
    requires forall i :: 0 <= i < |plain| ==> plain[i].name != SD_DIGESTS_KEY
    ensures ExpandMembers(Assemble(plain, digests), m) == ExpandMembers(plain, m)
    ensures VisitedMembers(Assemble(plain, digests), m) == VisitedMembers(plain, m)
    ensures SelectMembers(Assemble(plain, digests), r, m) == Then(SelectTexts(digests, r, m), SelectMembers(plain, r, m))
  {
    if digests == [] {
      assert SelectTexts(digests, r, m) == Ok([]);
      if SelectMembers(plain, r, m).Ok? {
        assert [] + SelectMembers(plain, r, m).value == SelectMembers(plain, r, m).value;
      }
    } else {
      var ms := Assemble(plain, digests);
      assert ms[1..] == plain && IsSkipped(ms[0].name);
      assert [] + VisitedMembers(plain, m) == VisitedMembers(plain, m);
    }
  }
}
