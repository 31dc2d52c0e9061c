/**
 What the issuer does with any claims, also those with a plain "_sd" key, which its check lets
 through below an SDObj list element: such a key is written over the digests collected so far.
 */
module RawIssuance {
  import opened JsonData
  import opened Wrappers
  import opened Issuance

  // An object under construction: its plain members, the user's value of "_sd" if there was one,
  // and the digests appended since.
  datatype Draft = Draft(plain: seq<Member>, sd: Option<Json>, digests: seq<Text>)

  function With<T, U>(i: Issued<T>, out: U): Issued<U> {
    Issued(out, i.disclosures, i.decoys, i.next)
  }

  const EMPTY_DRAFT := Draft([], None, [])

  function Raw(c: Claim, env: Env, n: nat): (r: Result<Issued<Json>, Error>)
    ensures r.Err? ==> r.error == MisplacedSDObj || r.error == NotADigestList
    decreases c, 1
  {
    match c
    case Leaf(a) => Ok(Issued(JAtom(a), [], [], n))
    case SDObj(_) => Err(MisplacedSDObj)
    case List(items) =>
      var i := RawItems(items, env, Issued([], [], [], n));
      if i.Err? then Err(i.error) else Ok(With(i.value, JArr(i.value.out)))
    case Dict(ms) =>
      var i := RawObject(ms, env, n);
      if i.Err? then Err(i.error) else Ok(With(i.value, JObj(i.value.out)))
  }

  function RawItem(c: Claim, env: Env, n: nat): (r: Result<Issued<Json>, Error>)
    ensures r.Err? ==> r.error == MisplacedSDObj || r.error == NotADigestList
    decreases c, 2
  {
    if !c.SDObj? then Raw(c, env, n)
    else
      var i := Raw(c.value, env, n);
      if i.Err? then i
      else
        var d := ElementDisclosure(i.value.next, i.value.out);
        Ok(Issued(ElementLeaf(DigestOf(d)), i.value.disclosures + [d], i.value.decoys, i.value.next + 1))
  }

  // The elements that are left, after those in acc.
  function RawItems(items: seq<Claim>, env: Env, acc: Issued<seq<Json>>): (r: Result<Issued<seq<Json>>, Error>)
    ensures r.Err? ==> r.error == MisplacedSDObj || r.error == NotADigestList
    decreases items, 0
  {
    if items == [] then Ok(acc)
    else
      var i := RawItem(items[0], env, acc.next);
      if i.Err? then Err(i.error)
      else
        RawItems(items[1..], env, ThenItems(acc, With(i.value, [i.value.out])))
  }

  function RawObject(ms: seq<ClaimMember>, env: Env, n: nat): (r: Result<Issued<seq<Member>>, Error>)
    ensures r.Err? ==> r.error == MisplacedSDObj || r.error == NotADigestList
    decreases ms, 1
  {
    var i := RawMembers(ms, env, Issued(EMPTY_DRAFT, [], [], n));
    if i.Err? then Err(i.error)
    else
      var count := env.decoyCount(i.value.next);
      var decoys := Decoys(i.value.next, count);
      var out := Finish(i.value.out, decoys, env);
      if out.Err? then Err(out.error)
      else Ok(Issued(out.value, i.value.disclosures, i.value.decoys + decoys, i.value.next + count))
  }

  // The members that are left, after those in acc.
  function RawMembers(ms: seq<ClaimMember>, env: Env, acc: Issued<Draft>): (r: Result<Issued<Draft>, Error>)
    ensures r.Err? ==> r.error == MisplacedSDObj || r.error == NotADigestList
    decreases ms, 0
  {
    if ms == [] then Ok(acc)
    else
      var next := AddRaw(ms[0], env, acc);
      if next.Err? then next else RawMembers(ms[1..], env, next.value)
  }

  // One turn of the loop over the members.
  function AddRaw(member: ClaimMember, env: Env, acc: Issued<Draft>): (r: Result<Issued<Draft>, Error>)
    ensures r.Err? ==> r.error == MisplacedSDObj || r.error == NotADigestList
    decreases member, 0
  {
    var i := Raw(member.value, env, acc.next);
    if i.Err? then Err(i.error) else AddMember(member.key, i.value, acc)
  }

  // The same, once the value is issued.
  function AddMember(key: Key, i: Issued<Json>, acc: Issued<Draft>): Result<Issued<Draft>, Error> {
    var d := acc.out;
    match key
    case SDKey(name) =>
      var disclosure := MemberDisclosure(i.next, name, i.out);
      if !CanAppend(d) then Err(NotADigestList)
      else
        Ok(Issued(d.(digests := d.digests + [DigestOf(disclosure)]), acc.disclosures + (i.disclosures + [disclosure]),
                  acc.decoys + i.decoys, i.next + 1))
    case Name(name) =>
      var out := if name == SD_DIGESTS_KEY then d.(sd := Some(i.out), digests := []) else d.(plain := d.plain + [Member(name, i.out)]);
      Ok(Issued(out, acc.disclosures + i.disclosures, acc.decoys + i.decoys, i.next))
  }

  // The value under "_sd" is still a list.
  predicate CanAppend(d: Draft) {
    d.sd.None? || d.sd.value.JArr?
  }

  // Append the decoys, delete "_sd" when it is empty, and sort it otherwise.
  function Finish(d: Draft, decoys: seq<Text>, env: Env): Result<seq<Member>, Error> {
    var digests := d.digests + decoys;
    if CanAppend(d) then
      var all := (if d.sd.Some? then d.sd.value.items else []) + DigestList(digests);
      if all == [] then Ok(d.plain)
      else
        var sorted := env.sortValues(all);
        if sorted.None? then Err(NotADigestList) else Ok([Member(SD_DIGESTS_KEY, JArr(sorted.value))] + d.plain)
    else if decoys == [] && IsEmptyNonList(d.sd.value) then Ok(d.plain)
    else Err(NotADigestList)
  }

  // Not a list, but of length zero.
  predicate IsEmptyNonList(j: Json) {
    j == JAtom(Str(Lit(""))) || j == JObj([])
  }

  function RawPayload(claims: seq<ClaimMember>, holderKey: Option<Jwk>, env: Env, n: nat): Result<Issued<Json>, Error> {
    if !PassesSdCheck(Dict(claims)) then Err(ReservedClaim)
    else
      var i := RawObject(claims, env, n);
      if i.Err? then Err(i.error) else Ok(With(i.value, JObj(Confirm(i.value.out, holderKey))))
  }

  /* Claims without a plain "_sd" key. */

  lemma ThenItemsAssociative(a: Issued<seq<Json>>, b: Issued<seq<Json>>, c: Issued<seq<Json>>)
    ensures ThenItems(a, ThenItems(b, c)) == ThenItems(ThenItems(a, b), c)
  {
    assert a.out + (b.out + c.out) == (a.out + b.out) + c.out;
    assert a.disclosures + (b.disclosures + c.disclosures) == (a.disclosures + b.disclosures) + c.disclosures;
    assert a.decoys + (b.decoys + c.decoys) == (a.decoys + b.decoys) + c.decoys;
  }

  lemma ThenFieldsAssociative(a: Issued<Fields>, b: Issued<Fields>, c: Issued<Fields>)
    ensures ThenFields(a, ThenFields(b, c)) == ThenFields(ThenFields(a, b), c)
  {
    assert a.out.plain + (b.out.plain + c.out.plain) == (a.out.plain + b.out.plain) + c.out.plain;
    assert a.out.digests + (b.out.digests + c.out.digests) == (a.out.digests + b.out.digests) + c.out.digests;
    assert a.disclosures + (b.disclosures + c.disclosures) == (a.disclosures + b.disclosures) + c.disclosures;
    assert a.decoys + (b.decoys + c.decoys) == (a.decoys + b.decoys) + c.decoys;
  }

  lemma OrderEmpty(env: Env, digests: seq<Text>)
    requires ValidEnv(env)
    ensures env.order(digests) == [] <==> digests == []
  {
    assert multiset(env.order(digests)) == multiset(digests);
    assert |multiset(env.order(digests))| == |multiset(digests)|;
  }

  lemma {:induction false} RawIsIssue(c: Claim, env: Env, n: nat)
    requires SortsDigests(env) && NoPlainSd(c)
    ensures Raw(c, env, n) == if NoStray(c) then Ok(Issue(c, env, n)) else Err(MisplacedSDObj)
    decreases c, 1
  {
    match c
    case Leaf(_) =>
    case SDObj(_) =>
    case List(items) =>
      RawItemsAreIssued(items, env, Issued([], [], [], n));
      ThenNoItems(IssueItems(items, env, n), n);
    case Dict(ms) =>
      RawMembersAreIssued(ms, env, Issued(EMPTY_DRAFT, [], [], n));
      if NoStray(c) {
        RawObjectIsIssued(ms, env, n);
      }
  }

  lemma {:induction false} RawObjectIsIssued(ms: seq<ClaimMember>, env: Env, n: nat)
    requires SortsDigests(env)
    requires RawMembers(ms, env, Issued(EMPTY_DRAFT, [], [], n))
             == Ok(Plainly(ThenFields(Started(Issued(EMPTY_DRAFT, [], [], n)), IssueMembers(ms, env, n))))
    ensures Raw(Dict(ms), env, n) == Ok(Issue(Dict(ms), env, n))
  {
    var i := IssueMembers(ms, env, n);
    var decoys := Decoys(i.next, env.decoyCount(i.next));
    ThenNoFields(i, n);
    FinishPlainly(i.out, decoys, env);
    RawObjectParts(ms, env, n, Plainly(i), decoys, Assemble(i.out.plain, env.order(i.out.digests + decoys)));
    IssueParts(ms, env, n, i, decoys);
  }

  // The end of the work on an object, once its members are done.
  lemma {:induction false} RawObjectParts(ms: seq<ClaimMember>, env: Env, n: nat, i: Issued<Draft>, decoys: seq<Text>, out: seq<Member>)
    requires RawMembers(ms, env, Issued(EMPTY_DRAFT, [], [], n)) == Ok(i)
    requires decoys == Decoys(i.next, env.decoyCount(i.next)) && Finish(i.out, decoys, env) == Ok(out)
    ensures Raw(Dict(ms), env, n) ==
            Ok(Issued(JObj(out), i.disclosures, i.decoys + decoys, i.next + env.decoyCount(i.next)))
  {
    assert RawObject(ms, env, n) == Ok(Issued(out, i.disclosures, i.decoys + decoys, i.next + env.decoyCount(i.next)));
  }

  lemma {:induction false} IssueParts(ms: seq<ClaimMember>, env: Env, n: nat, i: Issued<Fields>, decoys: seq<Text>)
    requires i == IssueMembers(ms, env, n) && decoys == Decoys(i.next, env.decoyCount(i.next))
    ensures Issue(Dict(ms), env, n) ==
            Issued(JObj(Assemble(i.out.plain, env.order(i.out.digests + decoys))), i.disclosures, i.decoys + decoys,
                   i.next + env.decoyCount(i.next))
  {
  }

  lemma {:induction false} RawItemIsIssued(c: Claim, env: Env, n: nat)
    requires SortsDigests(env) && NoPlainSd(c)
    ensures RawItem(c, env, n) == if NoStrayItem(c) then Ok(IssueItem(c, env, n)) else Err(MisplacedSDObj)
    decreases c, 2
  {
    if c.SDObj? {
      RawIsIssue(c.value, env, n);
    } else {
      RawIsIssue(c, env, n);
    }
  }

  lemma {:induction false} RawItemsAreIssued(items: seq<Claim>, env: Env, acc: Issued<seq<Json>>)
    requires SortsDigests(env) && NoPlainSd(List(items))
    ensures RawItems(items, env, acc) ==
            if NoStray(List(items)) then Ok(ThenItems(acc, IssueItems(items, env, acc.next))) else Err(MisplacedSDObj)
    decreases items, 0
  {
    if items == [] {
      assert acc.out + [] == acc.out && acc.disclosures + [] == acc.disclosures && acc.decoys + [] == acc.decoys;
    } else {
      var rest := items[1..];
      assert forall i :: 0 <= i < |rest| ==> rest[i] == items[i + 1];
      assert NoStray(List(items)) <==> NoStrayItem(items[0]) && NoStray(List(rest));
      RawItemIsIssued(items[0], env, acc.next);
      if NoStrayItem(items[0]) {
        var h := IssueItem(items[0], env, acc.next);
        var one := Issued([h.out], h.disclosures, h.decoys, h.next);
        RawItemsAreIssued(rest, env, ThenItems(acc, one));
        ThenItemsAssociative(acc, one, IssueItems(rest, env, h.next));
      }
    }
  }

  function Started(i: Issued<Draft>): Issued<Fields> {
    With(i, Fields(i.out.plain, i.out.digests))
  }

  function Plainly(i: Issued<Fields>): Issued<Draft> {
    With(i, Draft(i.out.plain, None, i.out.digests))
  }

  lemma {:induction false} RawMembersAreIssued(ms: seq<ClaimMember>, env: Env, acc: Issued<Draft>)
    requires SortsDigests(env) && NoPlainSd(Dict(ms)) && acc.out.sd.None?
    ensures RawMembers(ms, env, acc) ==
            if NoStray(Dict(ms)) then Ok(Plainly(ThenFields(Started(acc), IssueMembers(ms, env, acc.next))))
            else Err(MisplacedSDObj)
    decreases ms, 0
  {
    if ms == [] {
      assert acc.out.plain + [] == acc.out.plain && acc.out.digests + [] == acc.out.digests;
      assert acc.disclosures + [] == acc.disclosures && acc.decoys + [] == acc.decoys;
    } else {
      var rest := ms[1..];
      assert forall i :: 0 <= i < |rest| ==> rest[i] == ms[i + 1];
      assert NoStray(Dict(ms)) <==> NoStray(ms[0].value) && NoStray(Dict(rest));
      assert ms[0].value < Dict(ms);
      RawIsIssue(ms[0].value, env, acc.next);
      if NoStray(ms[0].value) {
        var h := IssueMember(ms[0], env, acc.next);
        AddIssued(ms[0], env, acc);
        RawMembersAreIssued(rest, env, Plainly(ThenFields(Started(acc), h)));
        ThenFieldsAssociative(Started(acc), h, IssueMembers(rest, env, h.next));
      }
    }
  }

  lemma AddIssued(member: ClaimMember, env: Env, acc: Issued<Draft>)
    requires acc.out.sd.None? && member.key != Name(SD_DIGESTS_KEY)
    ensures AddMember(member.key, Issue(member.value, env, acc.next), acc) ==
            Ok(Plainly(ThenFields(Started(acc), IssueMember(member, env, acc.next))))
  {
    assert acc.out.plain + [] == acc.out.plain && acc.out.digests + [] == acc.out.digests;
  }

  lemma ThenNoItems(i: Issued<seq<Json>>, n: nat)
    ensures ThenItems(Issued([], [], [], n), i) == i
  {
    assert [] + i.out == i.out && [] + i.disclosures == i.disclosures && [] + i.decoys == i.decoys;
  }

  lemma ThenNoFields(i: Issued<Fields>, n: nat)
    ensures ThenFields(Issued(Fields([], []), [], [], n), i) == i
  {
    assert [] + i.out.plain == i.out.plain && [] + i.out.digests == i.out.digests;
    assert [] + i.disclosures == i.disclosures && [] + i.decoys == i.decoys;
  }

  // Without a plain "_sd", sorting the digests is all there is to it.
  lemma {:induction false} FinishPlainly(f: Fields, decoys: seq<Text>, env: Env)
    requires SortsDigests(env)
    ensures Finish(Draft(f.plain, None, f.digests), decoys, env) == Ok(Assemble(f.plain, env.order(f.digests + decoys)))
  {
    var digests := f.digests + decoys;
    assert [] + DigestList(digests) == DigestList(digests);
    assert env.sortValues(DigestList(digests)) == Some(DigestList(env.order(digests)));
    OrderEmpty(env, digests);
  }

  // For claims without a plain "_sd" key the payload is the one of the theorems.
  lemma RawPayloadIsIssued(claims: seq<ClaimMember>, holderKey: Option<Jwk>, env: Env, n: nat)
    requires SortsDigests(env) && NoPlainSd(Dict(claims)) && NoStray(Dict(claims))
    ensures RawPayload(claims, holderKey, env, n) == Ok(IssuePayload(claims, holderKey, env, n))
  {
    RawIsIssue(Dict(claims), env, n);
    NoPlainSdPasses(Dict(claims));
  }

  lemma {:induction false} NoPlainSdPasses(c: Claim)
    requires NoPlainSd(c)
    ensures PassesSdCheck(c)
    decreases c
  {
    match c
    case Leaf(_) =>
    case SDObj(_) =>
    case List(items) =>
      forall i | 0 <= i < |items| ensures PassesSdCheck(items[i]) {
        NoPlainSdPasses(items[i]);
      }
    case Dict(ms) =>
      forall i | 0 <= i < |ms| ensures ms[i].key != Name(SD_DIGESTS_KEY) && PassesSdCheck(ms[i].value) {
        NoPlainSdPasses(ms[i].value);
      }
  }
}
