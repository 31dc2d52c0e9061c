/** What a request asks for, entry by entry: which disclosures the holder selects, and what is shown. */
module Requests {
  import opened JsonData
  import opened Wrappers
  import opened Sequences
  import opened Issuance
  import opened Selection
  import opened DigestLists
  import opened IssuedFacts
  import opened RoundTrip
  import opened ViewTheorem
  import opened EndToEnd
  import opened Verifier
  import opened SelectiveDisclosure
  import opened Answers

  // The request holds an entry for the name, other than None, False, zero and empty text or containers.
  ghost predicate AsksFor(r: Request, name: string) {
    && r.RDict?
    && name in r.entries
    && r.entries[name] != RNone
    && r.entries[name] != RBool(false)
    && r.entries[name] != RNum(0.0)
    && r.entries[name] != RText("")
    && r.entries[name] != RList([])
    && r.entries[name] != RDict(map[])
  }

  // The position is within the request, and its entry is not None, False or zero.
  ghost predicate AsksForElement(r: Request, i: nat) {
    && r.RList?
    && i < |r.items|
    && r.items[i] != RNone
    && r.items[i] != RBool(false)
    && r.items[i] != RNum(0.0)
  }

  lemma EntryTruthy(r: Request, name: string)
    ensures Truthy(Get(r, name)) <==> AsksFor(r, name)
  {
  }

  lemma EntryRefused(r: Request, i: nat)
    ensures Refuses(At(r, i)) <==> !AsksForElement(r, i)
  {
  }

  /* The disclosures of an object's own members. */

  // The disclosure made for the member at the position.
  function Own(ms: seq<ClaimMember>, k: nat, env: Env, n: nat): (d: Disclosure)
    requires k < |ms| && ms[k].key.SDKey?
    ensures d.MemberDisclosure? && d.key == ms[k].key.name
    decreases k
  {
    if k == 0 then
      var v := Issue(ms[0].value, env, n);
      MemberDisclosure(v.next, ms[0].key.name, v.out)
    else Own(ms[1..], k - 1, env, IssueMember(ms[0], env, n).next)
  }

  lemma {:induction false} OwnIsIssued(ms: seq<ClaimMember>, k: nat, env: Env, n: nat)
    requires k < |ms| && ms[k].key.SDKey?
    ensures DigestOf(Own(ms, k, env, n)) in IssueMembers(ms, env, n).out.digests
    ensures Own(ms, k, env, n) in IssueMembers(ms, env, n).disclosures
    decreases k
  {
    var h := IssueMember(ms[0], env, n);
    if k == 0 {
      assert h.out.digests[0] == DigestOf(Own(ms, 0, env, n));
      assert h.disclosures[|h.disclosures| - 1] == Own(ms, 0, env, n);
    } else {
      OwnIsIssued(ms[1..], k - 1, env, h.next);
    }
  }

  lemma NotInRange(d: Disclosure, ds: seq<Disclosure>, lo: nat, hi: nat)
    requires DisclosuresIn(ds, lo, hi) && !InRange(DigestOf(d), lo, hi)
    ensures d !in ds
  {
  }

  lemma NotSelected(d: Disclosure, s: Selected, ds: seq<Disclosure>)
    requires FromThese(s, ds) && s.Ok? && d !in ds
    ensures d !in s.value
  {
    assert d !in multiset(ds) && multiset(s.value)[d] <= multiset(ds)[d];
  }

  lemma {:induction false} FirstSelected(member: ClaimMember, env: Env, n: nat, r: Request, m: Mapping)
    requires ValidEnv(env) && Good(member.value, env) && member.key.SDKey? && Honest(m)
    requires Covers(IssueMember(member, env, n).disclosures, m) && SelectIssued(member, env, n, r, m).Ok?
    ensures Own([member], 0, env, n) in SelectIssued(member, env, n, r, m).value <==> AsksFor(r, member.key.name)
  {
    var v := Issue(member.value, env, n);
    var d := Own([member], 0, env, n);
    EntryTruthy(r, member.key.name);
    var ds := IssueMember(member, env, n).disclosures;
    assert ds[|ds| - 1] == d;
    IssueFresh(member.value, env, n);
    NotInRange(d, v.disclosures, n, v.next);
    SelectsIssued(member.value, env, n, Get(r, member.key.name), m);
    assert IsKnown(DigestAtom(DigestOf(d)), m) && Known(DigestAtom(DigestOf(d)), m) == d;
    NotSelected(d, Select(v.out, Get(r, member.key.name), m), v.disclosures);
  }

  lemma InBoth(d: Disclosure, s: Selected, a: Selected, b: Selected)
    requires SameSelection(s, Then(a, b)) && s.Ok?
    ensures d in s.value <==> d in a.value || d in b.value
  {
    assert d in s.value <==> d in multiset(s.value);
    assert d in a.value + b.value <==> d in multiset(a.value + b.value);
  }

  // What is selected for the members is selected for the first or for the others.
  lemma {:induction false} FirstOrOthers(ms: seq<ClaimMember>, env: Env, n: nat, r: Request, m: Mapping, d: Disclosure)
    requires ValidEnv(env) && GoodMembers(ms, env) && Honest(m) && ms != []
    requires SelectFields(IssueMembers(ms, env, n).out, r, m).Ok?
    ensures var first, others := SelectIssued(ms[0], env, n, r, m),
                                 SelectFields(IssueMembers(ms[1..], env, IssueMember(ms[0], env, n).next).out, r, m);
            && first.Ok? && others.Ok?
            && (d in SelectFields(IssueMembers(ms, env, n).out, r, m).value <==> d in first.value || d in others.value)
  {
    var h := IssueMember(ms[0], env, n);
    var t := IssueMembers(ms[1..], env, h.next);
    SelectMemberStep(ms[0], env, n, t.out, r, m);
    InBoth(d, SelectFields(IssueMembers(ms, env, n).out, r, m), SelectIssued(ms[0], env, n, r, m), SelectFields(t.out, r, m));
  }

  lemma {:induction false} NotByLaterMembers(d: Disclosure, ms: seq<ClaimMember>, env: Env, n: nat, r: Request, m: Mapping)
    requires ValidEnv(env) && GoodMembers(ms, env) && Honest(m) && d.MemberDisclosure? && d.salt < n
    requires SelectFields(IssueMembers(ms, env, n).out, r, m).Ok?
    ensures d !in SelectFields(IssueMembers(ms, env, n).out, r, m).value
  {
    var t := IssueMembers(ms, env, n);
    IssueMembersFresh(ms, env, n);
    NotInRange(d, t.disclosures, n, t.next);
    SelectsIssuedMembers(ms, env, n, r, m);
    NotSelected(d, SelectFields(t.out, r, m), t.disclosures);
  }

  lemma {:induction false} NotByFirstMember(d: Disclosure, ms: seq<ClaimMember>, env: Env, n: nat, r: Request, m: Mapping)
    requires ValidEnv(env) && GoodMembers(ms, env) && Honest(m) && ms != []
    requires d in IssueMembers(ms[1..], env, IssueMember(ms[0], env, n).next).disclosures
    requires SelectIssued(ms[0], env, n, r, m).Ok?
    ensures d !in SelectIssued(ms[0], env, n, r, m).value
  {
    var h := IssueMember(ms[0], env, n);
    IssueMemberFresh(ms[0], env, n);
    IssueMembersFresh(ms[1..], env, h.next);
    LaterOwn(d, IssueMembers(ms[1..], env, h.next).disclosures, h.disclosures, n, h.next, IssueMembers(ms[1..], env, h.next).next);
    SelectsIssuedMember(ms[0], env, n, r, m);
    NotSelected(d, SelectIssued(ms[0], env, n, r, m), h.disclosures);
  }

  lemma {:induction false} FirstOwn(ms: seq<ClaimMember>, env: Env, n: nat)
    requires ms != [] && ms[0].key.SDKey?
    ensures Own(ms, 0, env, n) == Own([ms[0]], 0, env, n) && Own(ms, 0, env, n).salt < IssueMember(ms[0], env, n).next
  {
  }

  lemma {:induction false} FieldSelected(ms: seq<ClaimMember>, k: nat, env: Env, n: nat, r: Request, m: Mapping)
    requires ValidEnv(env) && GoodMembers(ms, env) && Honest(m) && k < |ms| && ms[k].key.SDKey?
    requires Covers(IssueMembers(ms, env, n).disclosures, m)
    requires SelectFields(IssueMembers(ms, env, n).out, r, m).Ok?
    ensures Own(ms, k, env, n) in SelectFields(IssueMembers(ms, env, n).out, r, m).value <==> AsksFor(r, ms[k].key.name)
    decreases k
  {
    var h := IssueMember(ms[0], env, n);
    var d := Own(ms, k, env, n);
    GoodTail(ms, env);
    CoversParts(h.disclosures, IssueMembers(ms[1..], env, h.next).disclosures, m);
    FirstOrOthers(ms, env, n, r, m, d);
    if k == 0 {
      FirstOwn(ms, env, n);
      FirstSelected(ms[0], env, n, r, m);
      NotByLaterMembers(d, ms[1..], env, h.next, r, m);
    } else {
      FieldSelected(ms[1..], k - 1, env, h.next, r, m);
      OwnIsIssued(ms[1..], k - 1, env, h.next);
      NotByFirstMember(d, ms, env, n, r, m);
    }
  }

  lemma LaterOwn(d: Disclosure, later: seq<Disclosure>, earlier: seq<Disclosure>, lo: nat, mid: nat, hi: nat)
    requires d in later && DisclosuresIn(later, mid, hi) && DisclosuresIn(earlier, lo, mid)
    ensures d !in earlier
  {
    var i :| 0 <= i < |later| && later[i] == d;
    assert InRange(DigestOf(later[i]), mid, hi);
    NotInRange(d, earlier, lo, mid);
  }

  /**
   Of an issued object, at any depth: the disclosure of an SDObj key is selected iff the request
   that reaches the object holds an entry for it other than None, False, zero and empty text or
   containers.
   */
  lemma {:induction false} MemberSelected(ms: seq<ClaimMember>, k: nat, env: Env, n: nat, r: Request, m: Mapping)
    requires ValidEnv(env) && Good(Dict(ms), env) && Honest(m) && k < |ms| && ms[k].key.SDKey?
    requires Covers(Issue(Dict(ms), env, n).disclosures, m)
    requires Select(Issue(Dict(ms), env, n).out, r, m).Ok?
    ensures Own(ms, k, env, n) in Select(Issue(Dict(ms), env, n).out, r, m).value <==> AsksFor(r, ms[k].key.name)
  {
    GoodParts(Dict(ms), env);
    SelectObject(ms, env, n, r, m);
    if r.RDict? || r == RBool(true) {
      var s, f := Select(Issue(Dict(ms), env, n).out, r, m), SelectFields(IssueMembers(ms, env, n).out, r, m);
      FieldSelected(ms, k, env, n, r, m);
      var d := Own(ms, k, env, n);
      assert d in multiset(s.value) <==> d in multiset(f.value);
      assert d in s.value <==> d in multiset(s.value);
    }
  }

  /* The disclosures of a list's own elements. */

  function OwnElement(items: seq<Claim>, k: nat, env: Env, n: nat): (d: Disclosure)
    requires k < |items| && items[k].SDObj?
    ensures d.ElementDisclosure?
    decreases k
  {
    if k == 0 then
      var v := Issue(items[0].value, env, n);
      ElementDisclosure(v.next, v.out)
    else OwnElement(items[1..], k - 1, env, IssueItem(items[0], env, n).next)
  }

  lemma {:induction false} OwnElementIsIssued(items: seq<Claim>, k: nat, env: Env, n: nat)
    requires k < |items| && items[k].SDObj?
    ensures |IssueItems(items, env, n).out| == |items|
    ensures IssueItems(items, env, n).out[k] == ElementLeaf(DigestOf(OwnElement(items, k, env, n)))
    ensures OwnElement(items, k, env, n) in IssueItems(items, env, n).disclosures
    decreases k
  {
    var h := IssueItem(items[0], env, n);
    ClaimLengths(items, env, n);
    if k == 0 {
      assert h.disclosures[|h.disclosures| - 1] == OwnElement(items, 0, env, n);
    } else {
      OwnElementIsIssued(items[1..], k - 1, env, h.next);
    }
  }

  lemma {:induction false} ClaimLengths(items: seq<Claim>, env: Env, n: nat)
    ensures |IssueItems(items, env, n).out| == |items|
    decreases |items|
  {
    if items == [] {
    } else {
      ClaimLengths(items[1..], env, IssueItem(items[0], env, n).next);
    }
  }

  lemma {:induction false} FirstElementSelected(c: Claim, env: Env, n: nat, q: Request, asked: bool, m: Mapping)
    requires ValidEnv(env) && GoodItem(c, env) && c.SDObj? && Honest(m) && (Refuses(q) <==> !asked)
    requires Covers(IssueItem(c, env, n).disclosures, m) && SelectItem(IssueItem(c, env, n).out, q, m).Ok?
    ensures OwnElement([c], 0, env, n) in SelectItem(IssueItem(c, env, n).out, q, m).value <==> asked
  {
    var ds := IssueItem(c, env, n).disclosures;
    assert ds[|ds| - 1] == OwnElement([c], 0, env, n);
  }

  lemma {:induction false} FirstOrOtherElements(items: seq<Claim>, i: nat, env: Env, n: nat, r: Request, m: Mapping, d: Disclosure)
    requires Honest(m) && items != []
    requires SelectItems(IssueItems(items, env, n).out, r, i, m).Ok?
    ensures var h := IssueItem(items[0], env, n);
            var first, others := SelectItem(h.out, At(r, i), m), SelectItems(IssueItems(items[1..], env, h.next).out, r, i + 1, m);
            && first.Ok? && others.Ok?
            && (d in SelectItems(IssueItems(items, env, n).out, r, i, m).value <==> d in first.value || d in others.value)
  {
    var h := IssueItem(items[0], env, n);
    var t := IssueItems(items[1..], env, h.next);
    assert ([h.out] + t.out)[1..] == t.out;
    InBoth(d, SelectItems([h.out] + t.out, r, i, m), SelectItem(h.out, At(r, i), m), SelectItems(t.out, r, i + 1, m));
  }

  lemma {:induction false} FirstOwnElement(items: seq<Claim>, env: Env, n: nat)
    requires items != [] && items[0].SDObj?
    ensures OwnElement(items, 0, env, n) == OwnElement([items[0]], 0, env, n)
    ensures OwnElement(items, 0, env, n).salt < IssueItem(items[0], env, n).next
  {
  }

  lemma {:induction false} ElementSelected(items: seq<Claim>, i: nat, k: nat, env: Env, n: nat, r: Request, m: Mapping)
    requires ValidEnv(env) && GoodItems(items, env) && Honest(m) && k < |items| && items[k].SDObj?
    requires Covers(IssueItems(items, env, n).disclosures, m)
    requires SelectItems(IssueItems(items, env, n).out, r, i, m).Ok?
    ensures OwnElement(items, k, env, n) in SelectItems(IssueItems(items, env, n).out, r, i, m).value <==> AsksForElement(r, i + k)
    decreases k
  {
    var h := IssueItem(items[0], env, n);
    var d := OwnElement(items, k, env, n);
    assert GoodItem(items[0], env) && GoodItems(items[1..], env);
    CoversParts(h.disclosures, IssueItems(items[1..], env, h.next).disclosures, m);
    FirstOrOtherElements(items, i, env, n, r, m, d);
    if k == 0 {
      EntryRefused(r, i);
      FirstOwnElement(items, env, n);
      FirstElementSelected(items[0], env, n, At(r, i), AsksForElement(r, i), m);
      NotByOthers(d, items[1..], env, h.next, i + 1, r, m);
    } else {
      ElementSelected(items[1..], i + 1, k - 1, env, h.next, r, m);
      LaterElement(items, k, env, n);
      NotByFirst(d, items[0], env, n, At(r, i), m);
    }
  }

  lemma {:induction false} LaterElement(items: seq<Claim>, k: nat, env: Env, n: nat)
    requires 0 < k < |items| && items[k].SDObj?
    ensures OwnElement(items, k, env, n) !in IssueItem(items[0], env, n).disclosures
  {
    var h := IssueItem(items[0], env, n);
    var t := IssueItems(items[1..], env, h.next);
    IssueItemFresh(items[0], env, n);
    IssueItemsFresh(items[1..], env, h.next);
    OwnElementIsIssued(items[1..], k - 1, env, h.next);
    LaterOwn(OwnElement(items, k, env, n), t.disclosures, h.disclosures, n, h.next, t.next);
  }

  lemma {:induction false} NotByOthers(d: Disclosure, items: seq<Claim>, env: Env, n: nat, i: nat, r: Request, m: Mapping)
    requires ValidEnv(env) && GoodItems(items, env) && Honest(m) && d.ElementDisclosure? && d.salt < n
    requires SelectItems(IssueItems(items, env, n).out, r, i, m).Ok?
    ensures d !in SelectItems(IssueItems(items, env, n).out, r, i, m).value
  {
    var t := IssueItems(items, env, n);
    IssueItemsFresh(items, env, n);
    NotInRange(d, t.disclosures, n, t.next);
    SelectsIssuedItems(items, env, n, r, i, m);
    NotSelected(d, SelectItems(t.out, r, i, m), t.disclosures);
  }

  lemma {:induction false} NotByFirst(d: Disclosure, c: Claim, env: Env, n: nat, q: Request, m: Mapping)
    requires ValidEnv(env) && GoodItem(c, env) && Honest(m) && d !in IssueItem(c, env, n).disclosures
    requires SelectItem(IssueItem(c, env, n).out, q, m).Ok?
    ensures d !in SelectItem(IssueItem(c, env, n).out, q, m).value
  {
    SelectsIssuedItem(c, env, n, q, m);
    NotSelected(d, SelectItem(IssueItem(c, env, n).out, q, m), IssueItem(c, env, n).disclosures);
  }

  /**
   Of an issued list, at any depth: the disclosure of an SDObj element is selected iff its position
   is within the request that reaches the list and the entry there is not None, False or zero.
   */
  lemma {:induction false} ListElementSelected(items: seq<Claim>, k: nat, env: Env, n: nat, r: Request, m: Mapping)
    requires ValidEnv(env) && Good(List(items), env) && Honest(m) && k < |items| && items[k].SDObj?
    requires Covers(Issue(List(items), env, n).disclosures, m)
    requires Select(Issue(List(items), env, n).out, r, m).Ok?
    ensures OwnElement(items, k, env, n) in Select(Issue(List(items), env, n).out, r, m).value <==> AsksForElement(r, k)
  {
    GoodParts(List(items), env);
    if !r.RNone? {
      ElementSelected(items, 0, k, env, n, r, m);
    }
  }

  /* What is shown. */

  // The entry of the request for a name, and for a position.
  ghost function Part(r: Request, name: string): Request {
    if r.RDict? && name in r.entries then r.entries[name] else RNone
  }

  ghost function ElementPart(r: Request, i: nat): Request {
    if r.RList? && i < |r.items| then r.items[i] else RNone
  }

  /**
   An object is shown with its plain members and with the SDObj members that are asked for, and
   nothing else; each as its own part of the request has it.
   */
  lemma {:induction false} MembersShown(ms: seq<ClaimMember>, r: Request)
    requires NamesApart(ms)
    ensures forall k :: 0 <= k < |ms| ==>
              var name := ms[k].key.name;
              && (name in ViewMembers(ms, r) <==> ms[k].key.Name? || AsksFor(r, name))
              && (name in ViewMembers(ms, r) ==> ViewMembers(ms, r)[name] == View(ms[k].value, Part(r, name)))
    ensures forall name :: name in ViewMembers(ms, r) ==> exists k :: 0 <= k < |ms| && ms[k].key.name == name
    decreases |ms|
  {
    if ms == [] {
    } else {
      var rest := ms[1..];
      assert forall k :: 0 <= k < |rest| ==> rest[k] == ms[k + 1];
      MembersShown(rest, r);
      EntryTruthy(r, ms[0].key.name);
      FirstShown(ms, r);
    }
  }

  lemma {:induction false} FirstShown(ms: seq<ClaimMember>, r: Request)
    requires ms != []
    ensures var shown := ms[0].key.Name? || AsksFor(r, ms[0].key.name);
            ViewMembers(ms, r) ==
              (if shown then map[ms[0].key.name := View(ms[0].value, Part(r, ms[0].key.name))] else map[]) + ViewMembers(ms[1..], r)
  {
    EntryTruthy(r, ms[0].key.name);
  }

  // The values whose flag is set, in order.
  ghost function Flagged<T>(flags: seq<bool>, values: seq<T>): seq<T>
    requires |flags| == |values|
  {
    if values == [] then [] else (if flags[0] then [values[0]] else []) + Flagged(flags[1..], values[1..])
  }

  ghost function ShownFlags(items: seq<Claim>, r: Request): (flags: seq<bool>)
    ensures |flags| == |items|
  {
    seq(|items|, k requires 0 <= k < |items| => !items[k].SDObj? || AsksForElement(r, k))
  }

  ghost function ElementViews(items: seq<Claim>, r: Request): (views: seq<Value>)
    ensures |views| == |items|
  {
    seq(|items|, k requires 0 <= k < |items| => View(items[k], ElementPart(r, k)))
  }

  /**
   A list is shown, in order, with its plain elements and with the SDObj elements that are asked for;
   each as its own part of the request has it.
   */
  lemma {:induction false} ItemsShown(items: seq<Claim>, r: Request)
    ensures ViewItems(items, r, 0) == Flagged(ShownFlags(items, r), ElementViews(items, r))
  {
    var flags, views := ShownFlags(items, r), ElementViews(items, r);
    ItemsShownFrom(items, r, 0, flags, views);
    assert items[0..] == items && flags[0..] == flags && views[0..] == views;
  }

  lemma {:induction false} ItemsShownFrom(items: seq<Claim>, r: Request, i: nat, flags: seq<bool>, views: seq<Value>)
    requires i <= |items| && flags == ShownFlags(items, r) && views == ElementViews(items, r)
    ensures ViewItems(items[i..], r, i) == Flagged(flags[i..], views[i..])
    decreases |items| - i
  {
    if i < |items| {
      ItemsShownFrom(items, r, i + 1, flags, views);
      EntryRefused(r, i);
      assert items[i..][0] == items[i] && items[i..][1..] == items[i + 1..];
      assert flags[i..][1..] == flags[i + 1..] && views[i..][1..] == views[i + 1..];
    }
  }

  /**
   From end to end: a verifier is shown a claim under an SDObj key iff the request asks for it, and
   this is so because its disclosure is selected then, and only then.
   */
  lemma {:induction false} ShownIffAskedFor(claims: seq<ClaimMember>, k: nat, holderKey: Option<Jwk>, env: Env, n: nat, r: Request)
    requires ValidEnv(env) && WellFormed(claims, env) && KeyFits(claims, holderKey)
    requires k < |claims| && claims[k].key.SDKey?
    ensures var p := IssuePayload(claims, holderKey, env, n);
            var s := Select(p.out, r, MappingOf(p.disclosures));
            s.Ok? ==>
              var name := claims[k].key.name;
              var shown := Verified(p.out, MappingOf(s.value));
              && (Own(claims, k, env, n) in s.value <==> AsksFor(r, name))
              && shown.Ok? && shown.value.VObj?
              && (name in shown.value.members <==> AsksFor(r, name))
              && (AsksFor(r, name) ==> shown.value.members[name] == View(claims[k].value, r.entries[name]))
  {
    var p := IssuePayload(claims, holderKey, env, n);
    var m := MappingOf(p.disclosures);
    var s := Select(p.out, r, m);
    if s.Ok? {
      SelectiveDisclosureEndToEnd(claims, holderKey, env, n, r);
      IssuedMapping(claims, holderKey, env, n);
      PayloadSelects(claims, holderKey, env, n, r, m);
      MemberSelected(claims, k, env, n, Adjusted(r, holderKey), m);
      ClaimsApart(claims, env);
      MembersShown(claims, r);
      NotCnf(claims, k, holderKey, r);
    }
  }

  lemma ClaimsApart(claims: seq<ClaimMember>, env: Env)
    requires WellFormed(claims, env)
    ensures NamesApart(claims)
  {
    forall i, j | 0 <= i < j < |claims| ensures claims[i].key.name != claims[j].key.name {
      assert claims[i].key != claims[j].key;
    }
  }

  lemma NotCnf(claims: seq<ClaimMember>, k: nat, holderKey: Option<Jwk>, r: Request)
    requires KeyFits(claims, holderKey) && k < |claims| && claims[k].key.SDKey?
    ensures holderKey.Some? ==> claims[k].key.name != CNF
    ensures AsksFor(Adjusted(r, holderKey), claims[k].key.name) <==> AsksFor(r, claims[k].key.name)
  {
    if holderKey.Some? {
      assert claims[k].key in Keys(claims);
    }
  }

  /* What can be answered. */

  /**
   Which requests fit, entry by entry: an object takes None, True or a dict whose entries fit its
   members, asked for or not; a list takes None, True or a list whose entries fit its elements, of
   which those that are hidden and not asked for take anything.
   */
  lemma {:induction false} AnswerableExact(c: Claim, r: Request)
    ensures c.Dict? ==>
              (Answerable(c, r) <==>
                || r == RNone
                || ((r == RBool(true) || r.RDict?)
                    && forall k :: 0 <= k < |c.members| ==> Answerable(c.members[k].value, Part(r, c.members[k].key.name))))
    ensures c.List? ==>
              (Answerable(c, r) <==>
                || r == RNone
                || ((r == RBool(true) || r.RList?)
                    && forall k :: 0 <= k < |c.items| ==>
                         if c.items[k].SDObj? then !AsksForElement(r, k) || Answerable(c.items[k].value, ElementPart(r, k))
                         else Answerable(c.items[k], ElementPart(r, k))))
  {
    if c.Dict? {
      MembersAnswered(c.members, r);
    } else if c.List? {
      ItemsAnswered(c.items, r, 0);
      assert c.items[0..] == c.items;
    }
  }

  lemma {:induction false} MembersAnswered(ms: seq<ClaimMember>, r: Request)
    ensures MembersAnswerable(ms, r) <==>
              forall k :: 0 <= k < |ms| ==> Answerable(ms[k].value, Part(r, ms[k].key.name))
    decreases |ms|
  {
    if ms == [] {
    } else {
      MembersAnswered(ms[1..], r);
      assert forall k :: 1 <= k < |ms| ==> ms[k] == ms[1..][k - 1];
      assert Get(r, ms[0].key.name) == Part(r, ms[0].key.name);
    }
  }

  lemma {:induction false} ItemsAnswered(items: seq<Claim>, r: Request, i: nat)
    requires i <= |items|
    ensures ItemsAnswerable(items[i..], r, i) <==>
              forall k :: i <= k < |items| ==>
                if items[k].SDObj? then !AsksForElement(r, k) || Answerable(items[k].value, ElementPart(r, k))
                else Answerable(items[k], ElementPart(r, k))
    decreases |items| - i
  {
    if i < |items| {
      ItemsAnswered(items, r, i + 1);
      EntryRefused(r, i);
      assert items[i..][0] == items[i] && items[i..][1..] == items[i + 1..];
      assert At(r, i) == ElementPart(r, i);
    }
  }

  /* Any payload, issued or not. */

  ghost predicate Returns(j: Json, r: Request, m: Mapping)
    requires Honest(m)
  {
    Select(j, r, m).Ok?
  }

  // A digest leaf must stand for a list element, and its value is walked if it is asked for.
  ghost predicate ElementFits(e: Json, r: Request, k: nat, m: Mapping)
    requires Honest(m)
  {
    if !IsElementLeaf(e) then Returns(e, ElementPart(r, k), m)
    else
      LeafDigest(e) in m ==>
        var d := m[LeafDigest(e)];
        d.ElementDisclosure? && (AsksForElement(r, k) ==> Returns(d.value, ElementPart(r, k), m))
  }

  // A digest must stand for a member, and its value is walked, asked for or not.
  ghost predicate EntryFits(e: Json, r: Request, m: Mapping)
    requires Honest(m)
  {
    e.JAtom? && (e.a.Str? && e.a.t in m ==>
      var d := m[e.a.t];
      d.MemberDisclosure? && Returns(d.value, Part(r, d.key), m))
  }

  ghost predicate MemberFits(member: Member, r: Request, m: Mapping)
    requires Honest(m)
  {
    if member.name == "_sd"
    then member.value.JArr? && forall i :: 0 <= i < |member.value.items| ==> EntryFits(member.value.items[i], r, m)
    else Returns(member.value, Part(r, member.name), m)
  }

  /**
   When the walk over any payload returns: with None always; otherwise the request must be True or of
   the kind of the payload, and fit every element or member; scalars take anything.
   */
  lemma {:induction false} SelectExact(j: Json, r: Request, m: Mapping)
    requires Honest(m)
    ensures j.JAtom? || r == RNone ==> Select(j, r, m) == Ok([])
    ensures j.JArr? && r != RNone ==>
              (Select(j, r, m).Ok? <==>
                (r == RBool(true) || r.RList?) && forall k :: 0 <= k < |j.items| ==> ElementFits(j.items[k], r, k, m))
    ensures j.JObj? && r != RNone ==>
              (Select(j, r, m).Ok? <==>
                (r == RBool(true) || r.RDict?) && forall k :: 0 <= k < |j.members| ==> MemberFits(j.members[k], r, m))
  {
    match j
    case JAtom(_) =>
    case JArr(items) =>
      ItemsFit(items, r, 0, m);
      assert items[0..] == items;
    case JObj(ms) => MembersFit(ms, r, m);
  }

  lemma {:induction false} ItemFits(e: Json, r: Request, k: nat, m: Mapping)
    requires Honest(m)
    ensures SelectItem(e, At(r, k), m).Ok? <==> ElementFits(e, r, k, m)
  {
    EntryRefused(r, k);
    assert At(r, k) == ElementPart(r, k);
  }

  lemma {:induction false} ItemsFit(items: seq<Json>, r: Request, i: nat, m: Mapping)
    requires Honest(m) && i <= |items|
    ensures SelectItems(items[i..], r, i, m).Ok? <==> forall k :: i <= k < |items| ==> ElementFits(items[k], r, k, m)
    decreases |items| - i
  {
    if i < |items| {
      ItemsFit(items, r, i + 1, m);
      ItemFits(items[i], r, i, m);
      assert items[i..][0] == items[i] && items[i..][1..] == items[i + 1..];
    }
  }

  lemma {:induction false} DigestFits(e: Json, r: Request, m: Mapping)
    requires Honest(m)
    ensures SelectDigest(e, r, m).Ok? <==> EntryFits(e, r, m)
  {
    if IsKnown(e, m) && Known(e, m).MemberDisclosure? {
      assert Get(r, Known(e, m).key) == Part(r, Known(e, m).key);
    }
  }

  lemma {:induction false} DigestsFit(entries: seq<Json>, r: Request, m: Mapping)
    requires Honest(m)
    ensures SelectDigests(entries, r, m).Ok? <==> forall i :: 0 <= i < |entries| ==> EntryFits(entries[i], r, m)
    decreases |entries|
  {
    if entries == [] {
    } else {
      DigestsFit(entries[1..], r, m);
      DigestFits(entries[0], r, m);
      assert forall i :: 1 <= i < |entries| ==> entries[i] == entries[1..][i - 1];
    }
  }

  lemma {:induction false} MembersFit(ms: seq<Member>, r: Request, m: Mapping)
    requires Honest(m)
    ensures SelectMembers(ms, r, m).Ok? <==> forall i :: 0 <= i < |ms| ==> MemberFits(ms[i], r, m)
    decreases |ms|
  {
    if ms == [] {
    } else {
      MembersFit(ms[1..], r, m);
      OneFits(ms[0], r, m);
      assert forall i :: 1 <= i < |ms| ==> ms[i] == ms[1..][i - 1];
    }
  }

  lemma {:induction false} OneFits(member: Member, r: Request, m: Mapping)
    requires Honest(m)
    ensures SelectMember(member, r, m).Ok? <==> MemberFits(member, r, m)
  {
    if member.name == SD_DIGESTS_KEY {
      if member.value.JArr? {
        DigestsFit(member.value.items, r, m);
      }
    } else {
      assert Get(r, member.name) == Part(r, member.name);
    }
  }
}
