/** A holder's presentation shows a verifier exactly the view that was asked for. */
module Presentation {
  import opened JsonData
  import opened Wrappers
  import opened Unpacking
  import opened Issuance
  import opened Selection
  import opened DigestLists
  import opened IssuedFacts
  import opened RoundTrip
  import opened ViewTheorem

  /* Requests that select nothing. */

  lemma ThenNothing(a: Selected, b: Selected)
    requires a == Ok([]) && b == Ok([])
    ensures Then(a, b) == Ok([])
  {
    assert a.value + b.value == [];
  }

  lemma SelectNone(j: Json, r: Request, m: Mapping)
    requires Honest(m) && r == RNone
    ensures Select(j, r, m) == Ok([])
    ensures SelectItem(j, r, m).Ok? ==> SelectItem(j, r, m) == Ok([])
  {
    assert Select(j, r, m) == Ok([]);
  }

  lemma {:induction false} NoneSelectsNothing(items: seq<Json>, r: Request, i: nat, m: Mapping)
    requires Honest(m)
    requires forall k :: i <= k ==> At(r, k) == RNone
    requires SelectItems(items, r, i, m).Ok?
    ensures SelectItems(items, r, i, m) == Ok([])
    decreases |items|
  {
    if items == [] {
    } else {
      assert At(r, i) == RNone;
      NoneSelectsNothing(items[1..], r, i + 1, m);
      SelectNone(items[0], RNone, m);
      ThenNothing(SelectItem(items[0], RNone, m), SelectItems(items[1..], r, i + 1, m));
    }
  }

  lemma {:induction false} NoneSelectsNoDigests(entries: seq<Json>, r: Request, m: Mapping)
    requires Honest(m)
    requires forall name :: Get(r, name) == RNone
    requires SelectDigests(entries, r, m).Ok?
    ensures SelectDigests(entries, r, m) == Ok([])
    decreases |entries|
  {
    if entries == [] {
    } else {
      if IsKnown(entries[0], m) {
        var d := Known(entries[0], m);
        assert Get(r, d.key) == RNone;
        ThenNothing(Ok([]), Select(d.value, RNone, m));
      }
      NoneSelectsNoDigests(entries[1..], r, m);
      ThenNothing(SelectDigest(entries[0], r, m), SelectDigests(entries[1..], r, m));
    }
  }

  lemma {:induction false} NoneSelectsNoMembers(ms: seq<Member>, r: Request, m: Mapping)
    requires Honest(m)
    requires forall name :: Get(r, name) == RNone
    requires SelectMembers(ms, r, m).Ok?
    ensures SelectMembers(ms, r, m) == Ok([])
    decreases |ms|
  {
    if ms == [] {
    } else {
      assert Get(r, ms[0].name) == RNone;
      if ms[0].name == SD_DIGESTS_KEY {
        NoneSelectsNoDigests(ms[0].value.items, r, m);
      }
      NoneSelectsNoMembers(ms[1..], r, m);
      SelectNone(ms[0].value, RNone, m);
      ThenNothing(SelectMember(ms[0], r, m), SelectMembers(ms[1..], r, m));
    }
  }

  // Below a disclosure that is not selected, nothing is: the walk selects nothing or raises.
  lemma FalsySelectsNothing(j: Json, r: Request, m: Mapping)
    requires Honest(m) && !Truthy(r) && Select(j, r, m).Ok?
    ensures Select(j, r, m) == Ok([])
  {
    if !r.RNone? {
      match j
      case JAtom(_) =>
      case JArr(items) => NoneSelectsNothing(items, r, 0, m);
      case JObj(ms) => NoneSelectsNoMembers(ms, r, m);
    }
  }

  /* Which disclosures of a stretch the verifier gets. */

  ghost predicate Chosen(ds: seq<Disclosure>, d: Mapping, s: seq<Disclosure>) {
    forall i :: 0 <= i < |ds| ==> (DigestOf(ds[i]) in d <==> ds[i] in s)
  }

  lemma ChosenSplit(a: seq<Disclosure>, b: seq<Disclosure>, sa: seq<Disclosure>, sb: seq<Disclosure>,
                    s: seq<Disclosure>, d: Mapping, lo: nat, mid: nat, hi: nat)
    requires DisclosuresIn(a, lo, mid) && DisclosuresIn(b, mid, hi)
    requires multiset(sa) <= multiset(a) && multiset(sb) <= multiset(b)
    requires multiset(s) == multiset(sa + sb)
    requires Chosen(a + b, d, s)
    ensures Chosen(a, d, sa) && Chosen(b, d, sb)
  {
    forall i | 0 <= i < |a| ensures DigestOf(a[i]) in d <==> a[i] in sa {
      assert (a + b)[i] == a[i];
      SelectedOnce(a, b, sa, sb, s, lo, mid, hi, a[i]);
    }
    forall i | 0 <= i < |b| ensures DigestOf(b[i]) in d <==> b[i] in sb {
      assert (a + b)[|a| + i] == b[i];
      SelectedOnce(a, b, sa, sb, s, lo, mid, hi, b[i]);
    }
  }

  lemma SelectedOnce(a: seq<Disclosure>, b: seq<Disclosure>, sa: seq<Disclosure>, sb: seq<Disclosure>,
                     s: seq<Disclosure>, lo: nat, mid: nat, hi: nat, x: Disclosure)
    requires DisclosuresIn(a, lo, mid) && DisclosuresIn(b, mid, hi)
    requires multiset(sa) <= multiset(a) && multiset(sb) <= multiset(b)
    requires multiset(s) == multiset(sa + sb)
    ensures x in a ==> (x in s <==> x in sa)
    ensures x in b ==> (x in s <==> x in sb)
  {
    RangesDisjoint(a, b, lo, mid, hi, x);
    assert x in s <==> x in multiset(s);
    assert x in sa <==> x in multiset(sa);
    assert x in sb <==> x in multiset(sb);
    assert x in a <==> x in multiset(a);
    assert x in b <==> x in multiset(b);
  }

  lemma ChosenSame(ds: seq<Disclosure>, d: Mapping, s: seq<Disclosure>, t: seq<Disclosure>)
    requires Chosen(ds, d, s) && multiset(s) == multiset(t)
    ensures Chosen(ds, d, t)
  {
    forall i | 0 <= i < |ds| ensures DigestOf(ds[i]) in d <==> ds[i] in t {
      assert ds[i] in s <==> ds[i] in multiset(s);
      assert ds[i] in t <==> ds[i] in multiset(t);
    }
  }

  // What a disclosure leaves for the claims below it.
  lemma ChosenBelow(ds: seq<Disclosure>, x: Disclosure, own: bool, below: seq<Disclosure>, d: Mapping, lo: nat)
    requires !x.Malformed? && DisclosuresIn(ds, lo, x.salt) && multiset(below) <= multiset(ds)
    requires Chosen(ds + [x], d, (if own then [x] else []) + below)
    ensures Chosen(ds, d, below)
    ensures DigestOf(x) in d <==> own
  {
    var sx := if own then [x] else [];
    ChosenSplit(ds, [x], below, sx, sx + below, d, lo, x.salt, x.salt + 1);
    assert DigestOf([x][0]) in d <==> [x][0] in sx;
  }

  /* The view, by induction on the claims. */

  lemma {:induction false} ViewOfIssued(c: Claim, env: Env, n: nat, r: Request, m: Mapping, d: Mapping)
    requires ValidEnv(env) && Good(c, env) && NoClash(c) && Honest(m) && Honest(d)
    requires Covers(Issue(c, env, n).disclosures, m)
    requires Select(Issue(c, env, n).out, r, m).Ok?
    requires Chosen(Issue(c, env, n).disclosures, d, Select(Issue(c, env, n).out, r, m).value)
    ensures Expand(Issue(c, env, n).out, d) == View(c, r)
    decreases c, 0
  {
    GoodParts(c, env);
    match c
    case Leaf(_) =>
    case SDObj(_) =>
    case List(items) =>
      if r.RNone? {
        NoneOnItems(items, env, n, r, 0, m);
      }
      ViewOfItems(items, env, n, r, 0, m, d);
    case Dict(ms) =>
      ViewOfDict(ms, env, n, r, m, d);
      ExpandObject(ms, env, n, d);
  }

  // With None the walk of an issued list would have selected nothing either.
  lemma {:induction false} NoneOnItems(items: seq<Claim>, env: Env, n: nat, r: Request, i: nat, m: Mapping)
    requires ValidEnv(env) && GoodItems(items, env) && Honest(m) && r.RNone?
    requires Covers(IssueItems(items, env, n).disclosures, m)
    ensures SelectItems(IssueItems(items, env, n).out, r, i, m) == Ok([])
    decreases |items|
  {
    if items == [] {
    } else {
      var h := IssueItem(items[0], env, n);
      var t := IssueItems(items[1..], env, h.next);
      assert GoodItem(items[0], env) && GoodItems(items[1..], env);
      CoversParts(h.disclosures, t.disclosures, m);
      NoneOnItems(items[1..], env, h.next, r, i + 1, m);
      assert ([h.out] + t.out)[1..] == t.out;
      if !items[0].SDObj? {
        IssuedIsNoLeaf(items[0], env, n);
      } else {
        assert DigestOf(h.disclosures[|h.disclosures| - 1]) in m;
      }
      SelectNone(h.out, RNone, m);
      ThenNothing(SelectItem(h.out, RNone, m), SelectItems(t.out, r, i + 1, m));
    }
  }

  lemma {:induction false} NoneOnFields(ms: seq<ClaimMember>, env: Env, n: nat, r: Request, m: Mapping)
    requires GoodMembers(ms, env) && Honest(m) && r.RNone?
    requires Covers(IssueMembers(ms, env, n).disclosures, m)
    ensures SelectFields(IssueMembers(ms, env, n).out, r, m) == Ok([])
    decreases |ms|
  {
    if ms == [] {
      assert DigestList([]) == [];
      ThenNothing(SelectTexts([], r, m), SelectMembers([], r, m));
    } else {
      var h := IssueMember(ms[0], env, n);
      var t := IssueMembers(ms[1..], env, h.next);
      GoodTail(ms, env);
      CoversParts(h.disclosures, t.disclosures, m);
      NoneOnFields(ms[1..], env, h.next, r, m);
      SelectMemberStep(ms[0], env, n, t.out, r, m);
      if ms[0].key.SDKey? {
        var d := h.disclosures[|h.disclosures| - 1];
        assert DigestOf(d) in m;
        ThenNothing(Ok([]), Select(d.value, RNone, m));
      }
      SelectNone(Issue(ms[0].value, env, n).out, RNone, m);
      ThenNothing(SelectIssued(ms[0], env, n, r, m), SelectFields(t.out, r, m));
      EmptySelection(SelectFields(ThenFields(h, t).out, r, m));
    }
  }

  lemma EmptySelection(s: Selected)
    requires s.Ok? ==> multiset(s.value) == multiset{}
    ensures s.Ok? ==> s == Ok([])
  {
    if s.Ok? {
      assert |multiset(s.value)| == 0;
    }
  }

  lemma {:induction false} ViewOfItems(items: seq<Claim>, env: Env, n: nat, r: Request, i: nat, m: Mapping, d: Mapping)
    requires ValidEnv(env) && GoodItems(items, env) && NoClash(List(items)) && Honest(m) && Honest(d)
    requires Covers(IssueItems(items, env, n).disclosures, m)
    requires SelectItems(IssueItems(items, env, n).out, r, i, m).Ok?
    requires Chosen(IssueItems(items, env, n).disclosures, d, SelectItems(IssueItems(items, env, n).out, r, i, m).value)
    ensures ExpandItems(IssueItems(items, env, n).out, d) == ViewItems(items, r, i)
    decreases items, 0
  {
    if items == [] {
    } else {
      var h := IssueItem(items[0], env, n);
      var t := IssueItems(items[1..], env, h.next);
      assert GoodItem(items[0], env) && GoodItems(items[1..], env);
      assert ([h.out] + t.out)[1..] == t.out;
      NoClashCons(items);
      CoversParts(h.disclosures, t.disclosures, m);
      ChosenInItems(items, env, n, r, i, m, d);
      ViewOfItem(items[0], env, n, At(r, i), m, d);
      ViewOfItems(items[1..], env, h.next, r, i + 1, m, d);
    }
  }

  lemma ChosenInItems(items: seq<Claim>, env: Env, n: nat, r: Request, i: nat, m: Mapping, d: Mapping)
    requires ValidEnv(env) && GoodItems(items, env) && items != [] && Honest(m)
    requires SelectItems(IssueItems(items, env, n).out, r, i, m).Ok?
    requires Chosen(IssueItems(items, env, n).disclosures, d, SelectItems(IssueItems(items, env, n).out, r, i, m).value)
    ensures var h := IssueItem(items[0], env, n);
            var t := IssueItems(items[1..], env, h.next);
            && SelectItem(h.out, At(r, i), m).Ok? && SelectItems(t.out, r, i + 1, m).Ok?
            && Chosen(h.disclosures, d, SelectItem(h.out, At(r, i), m).value)
            && Chosen(t.disclosures, d, SelectItems(t.out, r, i + 1, m).value)
  {
    var h := IssueItem(items[0], env, n);
    var t := IssueItems(items[1..], env, h.next);
    assert GoodItem(items[0], env) && GoodItems(items[1..], env);
    assert ([h.out] + t.out)[1..] == t.out;
    SelectsIssuedItem(items[0], env, n, At(r, i), m);
    SelectsIssuedItems(items[1..], env, h.next, r, i + 1, m);
    IssueItemFresh(items[0], env, n);
    IssueItemsFresh(items[1..], env, h.next);
    var sh, st := SelectItem(h.out, At(r, i), m), SelectItems(t.out, r, i + 1, m);
    ChosenSplit(h.disclosures, t.disclosures, sh.value, st.value, sh.value + st.value, d, n, h.next, t.next);
  }

  lemma {:induction false} ViewOfItem(c: Claim, env: Env, n: nat, r: Request, m: Mapping, d: Mapping)
    requires ValidEnv(env) && GoodItem(c, env) && NoClash(c) && Honest(m) && Honest(d)
    requires Covers(IssueItem(c, env, n).disclosures, m)
    requires SelectItem(IssueItem(c, env, n).out, r, m).Ok?
    requires Chosen(IssueItem(c, env, n).disclosures, d, SelectItem(IssueItem(c, env, n).out, r, m).value)
    ensures ExpandItem(IssueItem(c, env, n).out, d) == if c.SDObj? && Refuses(r) then [] else [View(c, r)]
    decreases c, 1
  {
    if !c.SDObj? {
      IssuedIsNoLeaf(c, env, n);
      ViewOfIssued(c, env, n, r, m, d);
    } else {
      var i := Issue(c.value, env, n);
      var x := ElementDisclosure(i.next, i.out);
      CoversParts(i.disclosures, [x], m);
      assert DigestOf([x][0]) in m;
      IssueFresh(c.value, env, n);
      SelectsIssued(c.value, env, n, r, m);
      if Refuses(r) {
        ChosenBelow(i.disclosures, x, false, [], d, n);
      } else {
        ChosenBelow(i.disclosures, x, true, Select(i.out, r, m).value, d, n);
        ViewOfIssued(c.value, env, n, r, m, d);
      }
    }
  }

  lemma ViewOfDict(ms: seq<ClaimMember>, env: Env, n: nat, r: Request, m: Mapping, d: Mapping)
    requires ValidEnv(env) && GoodMembers(ms, env) && NoClash(Dict(ms)) && Honest(m) && Honest(d)
    requires Covers(IssueMembers(ms, env, n).disclosures, m)
    requires Select(Issue(Dict(ms), env, n).out, r, m).Ok?
    requires Chosen(IssueMembers(ms, env, n).disclosures, d, Select(Issue(Dict(ms), env, n).out, r, m).value)
    ensures NamesApart(ms)
    ensures var f := IssueMembers(ms, env, n).out;
            ExpandMembers(f.plain, d) + ExpandTexts(f.digests, d) == ViewMembers(ms, r)
    decreases ms, 1
  {
    assert NamesApart(ms);
    var i := IssueMembers(ms, env, n);
    SelectObject(ms, env, n, r, m);
    if r.RNone? {
      NoneOnFields(ms, env, n, r, m);
    }
    ChosenSame(i.disclosures, d, Select(Issue(Dict(ms), env, n).out, r, m).value, SelectFields(i.out, r, m).value);
    ViewOfMembers(ms, env, n, r, m, d);
  }

  lemma {:induction false} ViewOfMembers(ms: seq<ClaimMember>, env: Env, n: nat, r: Request, m: Mapping, d: Mapping)
    requires ValidEnv(env) && GoodMembers(ms, env) && NamesApart(ms) && NoClashInside(ms) && Honest(m) && Honest(d)
    requires Covers(IssueMembers(ms, env, n).disclosures, m)
    requires SelectFields(IssueMembers(ms, env, n).out, r, m).Ok?
    requires Chosen(IssueMembers(ms, env, n).disclosures, d, SelectFields(IssueMembers(ms, env, n).out, r, m).value)
    ensures var f := IssueMembers(ms, env, n).out;
            ExpandMembers(f.plain, d) + ExpandTexts(f.digests, d) == ViewMembers(ms, r)
    decreases ms, 0
  {
    if ms == [] {
    } else {
      var h := IssueMember(ms[0], env, n);
      var t := IssueMembers(ms[1..], env, h.next);
      GoodTail(ms, env);
      CoversParts(h.disclosures, t.disclosures, m);
      NamesApartCons(ms);
      NoClashInsideCons(ms);
      ChosenInMembers(ms, env, n, r, m, d);
      ViewOfMembers(ms[1..], env, h.next, r, m, d);
      PlainNamesExact(ms[1..], env, h.next);
      ViewOfMember(ms[0], env, n, t.out, r, m, d);
    }
  }

  lemma ChosenInMembers(ms: seq<ClaimMember>, env: Env, n: nat, r: Request, m: Mapping, d: Mapping)
    requires ValidEnv(env) && GoodMembers(ms, env) && ms != [] && Honest(m)
    requires SelectFields(IssueMembers(ms, env, n).out, r, m).Ok?
    requires Chosen(IssueMembers(ms, env, n).disclosures, d, SelectFields(IssueMembers(ms, env, n).out, r, m).value)
    ensures var h := IssueMember(ms[0], env, n);
            var t := IssueMembers(ms[1..], env, h.next);
            && SelectIssued(ms[0], env, n, r, m).Ok? && SelectFields(t.out, r, m).Ok?
            && Chosen(h.disclosures, d, SelectIssued(ms[0], env, n, r, m).value)
            && Chosen(t.disclosures, d, SelectFields(t.out, r, m).value)
  {
    var h := IssueMember(ms[0], env, n);
    var t := IssueMembers(ms[1..], env, h.next);
    GoodTail(ms, env);
    SelectMemberStep(ms[0], env, n, t.out, r, m);
    SelectsIssuedMember(ms[0], env, n, r, m);
    SelectsIssuedMembers(ms[1..], env, h.next, r, m);
    IssueMemberFresh(ms[0], env, n);
    IssueMembersFresh(ms[1..], env, h.next);
    var sh, st := SelectIssued(ms[0], env, n, r, m), SelectFields(t.out, r, m);
    ChosenSplit(h.disclosures, t.disclosures, sh.value, st.value, SelectFields(ThenFields(h, t).out, r, m).value, d, n,
                h.next, t.next);
  }

  lemma {:induction false} ViewOfMember(member: ClaimMember, env: Env, n: nat, t: Fields, r: Request, m: Mapping, d: Mapping)
    requires ValidEnv(env) && Good(member.value, env) && !IsReserved(member.key) && NoClash(member.value)
    requires Honest(m) && Honest(d)
    requires Covers(IssueMember(member, env, n).disclosures, m)
    requires SelectIssued(member, env, n, r, m).Ok?
    requires Chosen(IssueMember(member, env, n).disclosures, d, SelectIssued(member, env, n, r, m).value)
    requires member.key.name !in PlainNames(t.plain)
    ensures var f := IssueMember(member, env, n).out;
            ExpandMembers(f.plain + t.plain, d) + ExpandTexts(f.digests + t.digests, d) ==
            (if member.key.SDKey? && !Truthy(Get(r, member.key.name)) then map[]
             else map[member.key.name := View(member.value, Get(r, member.key.name))])
            + (ExpandMembers(t.plain, d) + ExpandTexts(t.digests, d))
    decreases member, 0
  {
    var v := Issue(member.value, env, n);
    match member.key
    case Name(name) =>
      ViewOfIssued(member.value, env, n, Get(r, name), m, d);
      ExpandPlainStep(Member(name, v.out), t, d);
    case SDKey(name) =>
      var x := MemberDisclosure(v.next, name, v.out);
      CoversParts(v.disclosures, [x], m);
      assert DigestOf([x][0]) in m;
      ViewOfDisclosed(member, env, n, r, m, d);
      ExpandSdStep(x, t, d);
  }

  // An SDObj member: its disclosure is presented iff its entry is truthy, and then its value is the view.
  lemma {:induction false} ViewOfDisclosed(member: ClaimMember, env: Env, n: nat, r: Request, m: Mapping, d: Mapping)
    requires ValidEnv(env) && member.key.SDKey? && Good(member.value, env) && NoClash(member.value)
    requires Honest(m) && Honest(d)
    requires Covers(IssueMember(member, env, n).disclosures, m)
    requires SelectIssued(member, env, n, r, m).Ok?
    requires Chosen(IssueMember(member, env, n).disclosures, d, SelectIssued(member, env, n, r, m).value)
    ensures var v := Issue(member.value, env, n);
            var x := MemberDisclosure(v.next, member.key.name, v.out);
            && (DigestOf(x) in d <==> Truthy(Get(r, member.key.name)))
            && (DigestOf(x) in d ==> Expand(v.out, d) == View(member.value, Get(r, member.key.name)))
    decreases member, 0, 0
  {
    var v := Issue(member.value, env, n);
    var q := Get(r, member.key.name);
    var x := MemberDisclosure(v.next, member.key.name, v.out);
    CoversParts(v.disclosures, [x], m);
    assert DigestOf([x][0]) in m;
    IssueFresh(member.value, env, n);
    SelectsIssued(member.value, env, n, q, m);
    ChosenBelow(v.disclosures, x, Truthy(q), Select(v.out, q, m).value, d, n);
    if Truthy(q) {
      ViewOfIssued(member.value, env, n, q, m, d);
    }
  }
}
