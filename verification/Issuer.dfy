/** The issuer object: one pass over the user claims that accumulates disclosures. */
module Issuer {
  import opened JsonData
  import opened Wrappers
  import opened Issuance
  import opened RawIssuance

  lemma GrowsBy<T, U>(disclosures: seq<Disclosure>, decoys: seq<Text>, acc: Issued<T>, i: Issued<U>)
    ensures (disclosures + acc.disclosures) + i.disclosures == disclosures + (acc.disclosures + i.disclosures)
    ensures (decoys + acc.decoys) + i.decoys == decoys + (acc.decoys + i.decoys)
  {
  }

  class SDJWTIssuer {
    const env: Env
    const holderKey: Option<Jwk>
    var nextSalt: nat
    var iiDisclosures: seq<Disclosure>
    var decoyDigests: seq<Text>
    var sdJwtPayload: Json

    ghost predicate Accumulated<T>(i: Issued<T>, disclosures: seq<Disclosure>, decoys: seq<Text>)
      reads this
    {
      && iiDisclosures == disclosures + i.disclosures
      && decoyDigests == decoys + i.decoys
      && nextSalt == i.next
    }

    // A call returns what the specification issues, or its error, and has recorded exactly its
    // disclosures and decoys.
    ghost predicate Issues<T(!new)>(r: Result<T, Error>, spec: Result<Issued<T>, Error>, disclosures: seq<Disclosure>,
                              decoys: seq<Text>)
      reads this
    {
      match spec
      case Err(e) => r == Err(e)
      case Ok(i) => r == Ok(i.out) && Accumulated(i, disclosures, decoys)
    }

    constructor (env: Env, holderKey: Option<Jwk>)
      ensures this.env == env && this.holderKey == holderKey
      ensures nextSalt == 0 && iiDisclosures == [] && decoyDigests == []
    {
      this.env := env;
      this.holderKey := holderKey;
      nextSalt := 0;
      iiDisclosures, decoyDigests := [], [];
      sdJwtPayload := JObj([]);
    }

    method GenerateSalt() returns (salt: nat)
      modifies this`nextSalt
      ensures salt == old(nextSalt) && nextSalt == salt + 1
    {
      salt := nextSalt;
      nextSalt := nextSalt + 1;
    }

    method CreateDecoyClaimEntry() returns (digest: Text)
      modifies this`nextSalt, this`decoyDigests
      ensures digest == DecoyDigest(old(nextSalt)) && nextSalt == old(nextSalt) + 1
      ensures decoyDigests == old(decoyDigests) + [digest]
    {
      var salt := GenerateSalt();
      digest := DecoyDigest(salt);
      decoyDigests := decoyDigests + [digest];
    }

    method CreateSdClaims(userClaims: Claim) returns (r: Result<Json, Error>)
      modifies this`nextSalt, this`iiDisclosures, this`decoyDigests
      ensures Issues(r, Raw(userClaims, env, old(nextSalt)), old(iiDisclosures), old(decoyDigests))
      decreases userClaims, 1
    {
      match userClaims
      case List(items) =>
        var out := CreateSdClaimsList(items);
        match out {
          case Err(e) => return Err(e);
          case Ok(js) => return Ok(JArr(js));
        }
      case Dict(ms) =>
        var out := CreateSdClaimsObject(ms);
        match out {
          case Err(e) => return Err(e);
          case Ok(js) => return Ok(JObj(js));
        }
      case SDObj(_) => return Err(MisplacedSDObj);
      case Leaf(a) => return Ok(JAtom(a));
    }

    method CreateSdClaimsList(userClaims: seq<Claim>) returns (r: Result<seq<Json>, Error>)
      modifies this`nextSalt, this`iiDisclosures, this`decoyDigests
      ensures Issues(r, RawItems(userClaims, env, Issued([], [], [], old(nextSalt))), old(iiDisclosures), old(decoyDigests))
      decreases userClaims, 0
    {
      var output: seq<Json> := [];
      ghost var acc: Issued<seq<Json>> := Issued([], [], [], nextSalt);
      ghost var goal := RawItems(userClaims, env, acc);
      for k := 0 to |userClaims|
        invariant RawItems(userClaims[k..], env, acc) == goal
        invariant acc.out == output && Accumulated(acc, old(iiDisclosures), old(decoyDigests))
      {
        assert userClaims[k..][0] == userClaims[k] && userClaims[k..][1..] == userClaims[k + 1..];
        var element := CreateSdClaimsElement(userClaims[k]);
        if element.Err? {
          return Err(element.error);
        }
        output := output + [element.value];
        ghost var i := RawItem(userClaims[k], env, acc.next).value;
        acc := ThenItems(acc, With(i, [i.out]));
        GrowsBy(old(iiDisclosures), old(decoyDigests), acc, i);
      }
      return Ok(output);
    }

    // One turn of the loop over a list.
    method CreateSdClaimsElement(claim: Claim) returns (r: Result<Json, Error>)
      modifies this`nextSalt, this`iiDisclosures, this`decoyDigests
      ensures Issues(r, RawItem(claim, env, old(nextSalt)), old(iiDisclosures), old(decoyDigests))
      decreases claim, 2
    {
      if !claim.SDObj? {
        r := CreateSdClaims(claim);
        return;
      }
      var subtree := CreateSdClaims(claim.value);
      if subtree.Err? {
        return Err(subtree.error);
      }
      var salt := GenerateSalt();
      var disclosure := ElementDisclosure(salt, subtree.value);
      iiDisclosures := iiDisclosures + [disclosure];
      return Ok(ElementLeaf(DigestOf(disclosure)));
    }

    method CreateSdClaimsObject(userClaims: seq<ClaimMember>) returns (r: Result<seq<Member>, Error>)
      modifies this`nextSalt, this`iiDisclosures, this`decoyDigests
      ensures Issues(r, RawObject(userClaims, env, old(nextSalt)), old(iiDisclosures), old(decoyDigests))
      decreases userClaims, 1
    {
      var draft := CreateSdMembers(userClaims);
      if draft.Err? {
        return Err(draft.error);
      }
      var d := draft.value;
      var count := env.decoyCount(nextSalt);
      if count > 0 && !CanAppend(d) {
        return Err(NotADigestList);
      }
      ghost var start, decoysBefore := nextSalt, decoyDigests;
      var digests := AppendDecoys(d.digests, count);
      assert decoyDigests == old(decoyDigests) + (RawMembers(userClaims, env, Issued(EMPTY_DRAFT, [], [], old(nextSalt))).value.decoys
                                                  + Decoys(start, count));
      assert count == 0 ==> Decoys(start, count) == [];
      if !CanAppend(d) {
        if IsEmptyNonList(d.sd.value) {
          return Ok(d.plain);
        }
        return Err(NotADigestList);
      }
      var sd := (if d.sd.Some? then d.sd.value.items else []) + DigestList(digests);
      if sd == [] {
        return Ok(d.plain);
      }
      var sorted := env.sortValues(sd);
      if sorted.None? {
        return Err(NotADigestList);
      }
      return Ok([Member(SD_DIGESTS_KEY, JArr(sorted.value))] + d.plain);
    }

    // The loop over the members: plain ones are kept, SDObj ones become digests, and a plain "_sd"
    // takes the place of the digests collected so far.
    method CreateSdMembers(userClaims: seq<ClaimMember>) returns (r: Result<Draft, Error>)
      modifies this`nextSalt, this`iiDisclosures, this`decoyDigests
      ensures Issues(r, RawMembers(userClaims, env, Issued(EMPTY_DRAFT, [], [], old(nextSalt))), old(iiDisclosures),
                     old(decoyDigests))
      decreases userClaims, 0
    {
      var draft := EMPTY_DRAFT;
      ghost var acc := Issued(EMPTY_DRAFT, [], [], nextSalt);
      ghost var goal := RawMembers(userClaims, env, acc);
      for k := 0 to |userClaims|
        invariant RawMembers(userClaims[k..], env, acc) == goal
        invariant acc.out == draft && Accumulated(acc, old(iiDisclosures), old(decoyDigests))
      {
        assert userClaims[k..][0] == userClaims[k] && userClaims[k..][1..] == userClaims[k + 1..];
        var next := CreateSdMember(userClaims[k], draft, acc, old(iiDisclosures), old(decoyDigests));
        if next.Err? {
          return Err(next.error);
        }
        draft := next.value;
        acc := AddMember(userClaims[k].key, Raw(userClaims[k].value, env, acc.next).value, acc).value;
      }
      return Ok(draft);
    }

    // One turn of that loop.
    method CreateSdMember(member: ClaimMember, draft: Draft, ghost acc: Issued<Draft>, ghost disclosures: seq<Disclosure>,
                          ghost decoys: seq<Text>)
      returns (r: Result<Draft, Error>)
      requires acc.out == draft && Accumulated(acc, disclosures, decoys)
      modifies this`nextSalt, this`iiDisclosures, this`decoyDigests
      ensures Issues(r, AddRaw(member, env, acc), disclosures, decoys)
      decreases member, 0
    {
      var subtree := CreateSdClaims(member.value);
      if subtree.Err? {
        return Err(subtree.error);
      }
      ghost var i := Raw(member.value, env, acc.next).value;
      assert iiDisclosures == disclosures + (acc.disclosures + i.disclosures);
      assert decoyDigests == decoys + (acc.decoys + i.decoys);
      match member.key {
        case SDKey(name) =>
          var salt := GenerateSalt();
          var disclosure := MemberDisclosure(salt, name, subtree.value);
          iiDisclosures := iiDisclosures + [disclosure];
          if !CanAppend(draft) {
            return Err(NotADigestList);
          }
          assert acc.disclosures + (i.disclosures + [disclosure]) == (acc.disclosures + i.disclosures) + [disclosure];
          return Ok(draft.(digests := draft.digests + [DigestOf(disclosure)]));
        case Name(name) =>
          if name == SD_DIGESTS_KEY {
            return Ok(draft.(sd := Some(subtree.value), digests := []));
          }
          return Ok(draft.(plain := draft.plain + [Member(name, subtree.value)]));
      }
    }

    method AppendDecoys(digests: seq<Text>, count: nat) returns (out: seq<Text>)
      modifies this`nextSalt, this`decoyDigests
      ensures out == digests + Decoys(old(nextSalt), count)
      ensures decoyDigests == old(decoyDigests) + Decoys(old(nextSalt), count)
      ensures nextSalt == old(nextSalt) + count
    {
      out := digests;
      for k := 0 to count
        invariant nextSalt == old(nextSalt) + k
        invariant out == digests + Decoys(old(nextSalt), k)
        invariant decoyDigests == old(decoyDigests) + Decoys(old(nextSalt), k)
      {
        var digest := CreateDecoyClaimEntry();
        assert Decoys(old(nextSalt), k) + [digest] == Decoys(old(nextSalt), k + 1);
        out := out + [digest];
      }
    }

    // The part of the constructor that builds the payload. Errors leave the object unusable.
    method AssembleSdJwtPayload(userClaims: seq<ClaimMember>) returns (r: Result<Json, Error>)
      modifies this
      ensures Issues(r, RawPayload(userClaims, holderKey, env, old(nextSalt)), old(iiDisclosures), old(decoyDigests))
      ensures r.Ok? ==> sdJwtPayload == r.value
    {
      if !PassesSdCheck(Dict(userClaims)) {
        return Err(ReservedClaim);
      }
      var claims := CreateSdClaimsObject(userClaims);
      if claims.Err? {
        return Err(claims.error);
      }
      var payload := Put(claims.value, DIGEST_ALG_KEY, JAtom(Str(Lit(HASH_ALG_NAME))));
      if holderKey.Some? {
        payload := Put(payload, CNF, CnfJson(holderKey.value));
      }
      sdJwtPayload := JObj(payload);
      return Ok(sdJwtPayload);
    }
  }
}
