/** Which claims the issuer refuses, and which it issues. */
module IssuerErrors {
  import opened JsonData
  import opened Wrappers
  import opened Issuance
  import opened RawIssuance
  import opened ClaimLimits
  import opened RoundTrip
  import opened UserLists

  // A dict with a plain "_sd" key is found along the path of positions, without passing an SDObj element.
  ghost predicate SdKeyAt(c: Claim, path: seq<nat>)
    decreases |path|
  {
    if path == [] then c.Dict? && exists i :: 0 <= i < |c.members| && c.members[i].key == Name("_sd")
    else
      match c
      case List(items) => path[0] < |items| && SdKeyAt(items[path[0]], path[1..])
      case Dict(ms) => path[0] < |ms| && SdKeyAt(ms[path[0]].value, path[1..])
      case _ => false
  }

  lemma {:induction false} FailedCheckFinds(c: Claim) returns (path: seq<nat>)
    requires !PassesSdCheck(c)
    ensures SdKeyAt(c, path)
    decreases c
  {
    match c
    case List(items) =>
      var i: nat :| i < |items| && !PassesSdCheck(items[i]);
      var rest := FailedCheckFinds(items[i]);
      path := [i] + rest;
      assert path[1..] == rest;
    case Dict(ms) =>
      if i :| 0 <= i < |ms| && ms[i].key == Name(SD_DIGESTS_KEY) {
        path := [];
      } else {
        var i: nat :| i < |ms| && !PassesSdCheck(ms[i].value);
        var rest := FailedCheckFinds(ms[i].value);
        path := [i] + rest;
        assert path[1..] == rest;
      }
  }

  lemma {:induction false} FoundFailsCheck(c: Claim, path: seq<nat>)
    requires SdKeyAt(c, path)
    ensures !PassesSdCheck(c)
    decreases |path|
  {
    if path == [] {
    } else if c.List? {
      FoundFailsCheck(c.items[path[0]], path[1..]);
    } else {
      FoundFailsCheck(c.members[path[0]].value, path[1..]);
    }
  }

  /**
   The issuer refuses claims for a "_sd" key iff a dict with a plain one can be reached from the
   outside without passing an SDObj list element, for all claims, holder keys and environments.
   */
  lemma {:induction false} RefusedForSd(claims: seq<ClaimMember>, holderKey: Option<Jwk>, env: Env, n: nat)
    ensures RawPayload(claims, holderKey, env, n) == Err(ReservedClaim) <==> exists path :: SdKeyAt(Dict(claims), path)
  {
    if !PassesSdCheck(Dict(claims)) {
      var path := FailedCheckFinds(Dict(claims));
      assert RawPayload(claims, holderKey, env, n) == Err(ReservedClaim) && SdKeyAt(Dict(claims), path);
    } else if path :| SdKeyAt(Dict(claims), path) {
      FoundFailsCheck(Dict(claims), path);
    }
  }

  /**
   What the issuer makes of claims without SDObj list elements: with a plain "_sd" key anywhere it
   refuses them; otherwise it raises iff an SDObj stands where neither a key nor a list element is,
   and issues the payload if not. Below SDObj list elements nothing is refused.
   */
  lemma {:induction false} PayloadExact(claims: seq<ClaimMember>, holderKey: Option<Jwk>, env: Env, n: nat)
    requires SortsDigests(env)
    ensures NoSdElements(Dict(claims)) ==>
              (RawPayload(claims, holderKey, env, n) == Err(ReservedClaim) <==> !NoPlainSd(Dict(claims)))
    ensures NoPlainSd(Dict(claims)) ==>
              RawPayload(claims, holderKey, env, n)
              == if NoStray(Dict(claims)) then Ok(IssuePayload(claims, holderKey, env, n)) else Err(MisplacedSDObj)
    ensures RawPayload(claims, holderKey, env, n).Ok? ==> NoStray(Dict(claims))
  {
    if NoSdElements(Dict(claims)) {
      SdCheckExact(Dict(claims));
    }
    if NoPlainSd(Dict(claims)) {
      RawIsIssue(Dict(claims), env, n);
      NoPlainSdPasses(Dict(claims));
    }
    if RawPayload(claims, holderKey, env, n).Ok? {
      IssuedHasNoStray(Dict(claims), env, n);
    }
  }

  /* Whatever is issued has no misplaced SDObj. */

  lemma {:induction false} IssuedHasNoStray(c: Claim, env: Env, n: nat)
    requires Raw(c, env, n).Ok?
    ensures NoStray(c)
    decreases c, 1
  {
    match c
    case Leaf(_) =>
    case SDObj(_) =>
    case List(items) => ItemsHaveNoStray(items, env, Issued([], [], [], n));
    case Dict(ms) => MembersHaveNoStray(ms, env, Issued(EMPTY_DRAFT, [], [], n));
  }

  lemma {:induction false} ItemHasNoStray(c: Claim, env: Env, n: nat)
    requires RawItem(c, env, n).Ok?
    ensures NoStrayItem(c)
    decreases c, 2
  {
    if c.SDObj? {
      IssuedHasNoStray(c.value, env, n);
    } else {
      IssuedHasNoStray(c, env, n);
    }
  }

  lemma {:induction false} ItemsHaveNoStray(items: seq<Claim>, env: Env, acc: Issued<seq<Json>>)
    requires RawItems(items, env, acc).Ok?
    ensures forall i :: 0 <= i < |items| ==> NoStrayItem(items[i])
    decreases items, 0
  {
    if items == [] {
    } else {
      var i := RawItem(items[0], env, acc.next).value;
      ItemHasNoStray(items[0], env, acc.next);
      ItemsHaveNoStray(items[1..], env, ThenItems(acc, With(i, [i.out])));
      assert forall k :: 1 <= k < |items| ==> items[k] == items[1..][k - 1];
    }
  }

  lemma {:induction false} MembersHaveNoStray(ms: seq<ClaimMember>, env: Env, acc: Issued<Draft>)
    requires RawMembers(ms, env, acc).Ok?
    ensures forall i :: 0 <= i < |ms| ==> NoStray(ms[i].value)
    decreases ms, 0
  {
    if ms == [] {
    } else {
      assert ms[0].value < Dict(ms);
      IssuedHasNoStray(ms[0].value, env, acc.next);
      MembersHaveNoStray(ms[1..], env, AddRaw(ms[0], env, acc).value);
      assert forall k :: 1 <= k < |ms| ==> ms[k] == ms[1..][k - 1];
    }
  }

  /* A plain "_sd" key below an SDObj list element. */

  /**
   An object whose members have been issued up to a plain "_sd" key and after it: when the value is a
   list, it is issued iff the list with the digests and decoys is empty or can be sorted. Any other value
   must be an empty string or object, and then no SDObj key may follow and no decoy be drawn.
   */
  lemma {:induction false} UserValueExact(before: seq<ClaimMember>, value: Claim, after: seq<ClaimMember>, env: Env, n: nat)
    requires forall i :: 0 <= i < |after| ==> after[i].key != Name(SD_DIGESTS_KEY)
    requires RawMembers(before, env, Issued(EMPTY_DRAFT, [], [], n)).Ok?
    requires Raw(value, env, RawMembers(before, env, Issued(EMPTY_DRAFT, [], [], n)).value.next).Ok?
    ensures var first := RawMembers(before, env, Issued(EMPTY_DRAFT, [], [], n)).value;
            var user := Raw(value, env, first.next).value;
            var last := RawMembers(after, env, Issued(Draft(first.out.plain, Some(user.out), []), first.disclosures + user.disclosures,
                                                      first.decoys + user.decoys, user.next));
            var r := RawObject(before + [ClaimMember(Name(SD_DIGESTS_KEY), value)] + after, env, n);
            && (last.Err? ==> r == Err(last.error))
            && (last.Ok? ==>
                  var decoys := Decoys(last.value.next, env.decoyCount(last.value.next));
                  && last.value.out.sd == Some(user.out)
                  && (user.out.JArr? ==>
                        var all := user.out.items + DigestList(last.value.out.digests + decoys);
                        (r.Ok? <==> all == [] || env.sortValues(all).Some?))
                  && (!user.out.JArr? ==>
                        && SdNames(after) == []
                        && (r.Ok? <==> decoys == [] && (user.out == JAtom(Str(Lit(""))) || user.out == JObj([])))))
  {
    var sd := ClaimMember(Name(SD_DIGESTS_KEY), value);
    var start := Issued(EMPTY_DRAFT, [], [], n);
    RawMembersConcat(before + [sd], after, env, start);
    RawMembersConcat(before, [sd], env, start);
    var first := RawMembers(before, env, start).value;
    var second := AddRaw(sd, env, first).value;
    assert [sd][1..] == [] && RawMembers([sd], env, first) == Ok(second);
    var last := RawMembers(after, env, second);
    if last.Ok? {
      LaterMembers(after, env, second);
      if !second.out.sd.value.JArr? {
        NoKeysAfter(after, env, second);
      }
    }
  }

  // Once the value under "_sd" is not a list, an SDObj key raises.
  lemma {:induction false} NoKeysAfter(ms: seq<ClaimMember>, env: Env, acc: Issued<Draft>)
    requires forall i :: 0 <= i < |ms| ==> ms[i].key != Name(SD_DIGESTS_KEY)
    requires RawMembers(ms, env, acc).Ok? && acc.out.sd.Some? && !acc.out.sd.value.JArr?
    ensures SdNames(ms) == []
    decreases |ms|
  {
    if ms == [] {
    } else {
      NoKeysAfter(ms[1..], env, AddRaw(ms[0], env, acc).value);
    }
  }
}
