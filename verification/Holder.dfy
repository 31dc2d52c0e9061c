/** The holder object: walks the digest tree along a request and appends disclosures. */
module Holder {
  import opened JsonData
  import opened Wrappers
  import opened Selection

  class SDJWTHolder {
    const hashToDecodedDisclosure: Mapping
    var hsDisclosures: seq<Disclosure>

    constructor (mapping: Mapping)
      ensures hashToDecodedDisclosure == mapping && hsDisclosures == []
    {
      hashToDecodedDisclosure := mapping;
      hsDisclosures := [];
    }

    // A call returns None or the error of s; on return it has appended exactly s.
    ghost predicate Appended(r: Option<Error>, s: Selected, before: seq<Disclosure>)
      reads this
    {
      match s
      case Err(e) => r == Some(e)
      case Ok(ds) => r == None && hsDisclosures == before + ds
    }

    // The selecting part of create_presentation, on the decoded payload.
    method CreatePresentation(payload: seq<Member>, claimsToDisclose: Request) returns (r: Option<Error>)
      requires Honest(hashToDecodedDisclosure)
      modifies this
      ensures Appended(r, Select(JObj(payload), claimsToDisclose, hashToDecodedDisclosure), [])
    {
      hsDisclosures := [];
      r := SelectDisclosuresDict(payload, claimsToDisclose);
    }

    method SelectDisclosures(claims: Json, claimsToDisclose: Request) returns (r: Option<Error>)
      requires Honest(hashToDecodedDisclosure)
      modifies this`hsDisclosures
      ensures Appended(r, Select(claims, claimsToDisclose, hashToDecodedDisclosure), old(hsDisclosures))
      decreases claims, 0
    {
      match claims
      case JArr(items) => r := SelectDisclosuresList(items, claimsToDisclose);
      case JObj(ms) => r := SelectDisclosuresDict(ms, claimsToDisclose);
      case JAtom(_) => return None;
    }

    method SelectDisclosuresList(claims: seq<Json>, claimsToDisclose: Request) returns (r: Option<Error>)
      requires Honest(hashToDecodedDisclosure)
      modifies this`hsDisclosures
      ensures Appended(r, Select(JArr(claims), claimsToDisclose, hashToDecodedDisclosure), old(hsDisclosures))
      decreases claims, 2
    {
      if claimsToDisclose == RNone {
        return None;
      }
      if claimsToDisclose != RBool(true) && !claimsToDisclose.RList? {
        return Some(RequestShape);
      }
      // zip_longest pads the shorter side with None; past the claims there is nothing to walk.
      var requests := if claimsToDisclose == RBool(true) then [] else claimsToDisclose.items;
      ghost var goal := Then(Ok(hsDisclosures), SelectItems(claims, claimsToDisclose, 0, hashToDecodedDisclosure));
      for pos := 0 to |claims|
        invariant Then(Ok(hsDisclosures), SelectItems(claims[pos..], claimsToDisclose, pos, hashToDecodedDisclosure)) == goal
      {
        assert claims[pos..][0] == claims[pos] && claims[pos..][1..] == claims[pos + 1..];
        ghost var before := hsDisclosures;
        var request := if pos < |requests| then requests[pos] else RNone;
        assert request == At(claimsToDisclose, pos);
        r := SelectElement(claims[pos], request);
        if r.Some? {
          return;
        }
        ThenAssociative(Ok(before), SelectItem(claims[pos], request, hashToDecodedDisclosure),
                        SelectItems(claims[pos + 1..], claimsToDisclose, pos + 1, hashToDecodedDisclosure));
      }
      return None;
    }

    // One turn of the loop over a list.
    method SelectElement(element: Json, request: Request) returns (r: Option<Error>)
      requires Honest(hashToDecodedDisclosure)
      modifies this`hsDisclosures
      ensures Appended(r, SelectItem(element, request, hashToDecodedDisclosure), old(hsDisclosures))
      decreases element, 1
    {
      if !IsElementLeaf(element) {
        r := SelectDisclosures(element, request);
        return;
      }
      var digest := LeafDigest(element);
      if digest !in hashToDecodedDisclosure {
        return None;
      }
      var disclosure := hashToDecodedDisclosure[digest];
      if !disclosure.ElementDisclosure? {
        return Some(WrongArity);
      }
      if Refuses(request) {
        return None;
      }
      hsDisclosures := hsDisclosures + [disclosure];
      match disclosure.value {
        case JObj(ms) =>
          var nested := if request == RBool(true) then RDict(map[]) else request;
          if !nested.RDict? {
            return Some(RequestShape);
          }
          TrueIsEmpty(disclosure.value, request, hashToDecodedDisclosure);
          r := SelectDisclosures(disclosure.value, nested);
        case JArr(items) =>
          var nested := if request == RBool(true) then RList([]) else request;
          if !nested.RList? {
            return Some(RequestShape);
          }
          TrueIsEmpty(disclosure.value, request, hashToDecodedDisclosure);
          r := SelectDisclosures(disclosure.value, nested);
        case JAtom(_) =>
          return None;
      }
      assert old(hsDisclosures) + [disclosure] + [] == old(hsDisclosures) + [disclosure];
    }

    method SelectDisclosuresDict(claims: seq<Member>, claimsToDisclose: Request) returns (r: Option<Error>)
      requires Honest(hashToDecodedDisclosure)
      modifies this`hsDisclosures
      ensures Appended(r, Select(JObj(claims), claimsToDisclose, hashToDecodedDisclosure), old(hsDisclosures))
      decreases claims, 2
    {
      if claimsToDisclose == RNone {
        return None;
      }
      if claimsToDisclose != RBool(true) && !claimsToDisclose.RDict? {
        return Some(RequestShape);
      }
      ghost var goal := Then(Ok(hsDisclosures), SelectMembers(claims, claimsToDisclose, hashToDecodedDisclosure));
      for k := 0 to |claims|
        invariant Then(Ok(hsDisclosures), SelectMembers(claims[k..], claimsToDisclose, hashToDecodedDisclosure)) == goal
      {
        assert claims[k..][0] == claims[k] && claims[k..][1..] == claims[k + 1..];
        ghost var before := hsDisclosures;
        var member := claims[k];
        if member.name == SD_DIGESTS_KEY {
          if !member.value.JArr? {
            return Some(NotADigestList);
          }
          r := SelectSdList(member.value.items, claimsToDisclose);
        } else {
          r := SelectDisclosures(member.value, Get(claimsToDisclose, member.name));
        }
        if r.Some? {
          return;
        }
        ThenAssociative(Ok(before), SelectMember(member, claimsToDisclose, hashToDecodedDisclosure),
                        SelectMembers(claims[k + 1..], claimsToDisclose, hashToDecodedDisclosure));
      }
      return None;
    }

    method SelectSdList(entries: seq<Json>, claimsToDisclose: Request) returns (r: Option<Error>)
      requires Honest(hashToDecodedDisclosure)
      modifies this`hsDisclosures
      ensures Appended(r, SelectDigests(entries, claimsToDisclose, hashToDecodedDisclosure), old(hsDisclosures))
      decreases entries, 0
    {
      ghost var goal := Then(Ok(hsDisclosures), SelectDigests(entries, claimsToDisclose, hashToDecodedDisclosure));
      for k := 0 to |entries|
        invariant Then(Ok(hsDisclosures), SelectDigests(entries[k..], claimsToDisclose, hashToDecodedDisclosure)) == goal
      {
        var digest := entries[k];
        assert entries[k..][0] == digest && entries[k..][1..] == entries[k + 1..];
        ghost var before := hsDisclosures;
        r := SelectSdEntry(digest, claimsToDisclose);
        if r.Some? {
          return;
        }
        ThenAssociative(Ok(before), SelectDigest(digest, claimsToDisclose, hashToDecodedDisclosure),
                        SelectDigests(entries[k + 1..], claimsToDisclose, hashToDecodedDisclosure));
      }
      return None;
    }

    // The body of that loop.
    method SelectSdEntry(digest: Json, claimsToDisclose: Request) returns (r: Option<Error>)
      requires Honest(hashToDecodedDisclosure)
      modifies this`hsDisclosures
      ensures Appended(r, SelectDigest(digest, claimsToDisclose, hashToDecodedDisclosure), old(hsDisclosures))
      decreases digest, 1
    {
      ghost var before := hsDisclosures;
      if !digest.JAtom? {
        return Some(NotADigestList);
      }
      if IsKnown(digest, hashToDecodedDisclosure) {
        var disclosure := Known(digest, hashToDecodedDisclosure);
        if !disclosure.MemberDisclosure? {
          return Some(WrongArity);
        }
        var request := Get(claimsToDisclose, disclosure.key);
        ghost var own := if Truthy(request) then [disclosure] else [];
        if Truthy(request) {
          hsDisclosures := hsDisclosures + [disclosure];
        }
        assert hsDisclosures == before + own;
        r := SelectDisclosures(disclosure.value, request);
        if r.Some? {
          return;
        }
        ghost var nested := Select(disclosure.value, request, hashToDecodedDisclosure).value;
        assert hsDisclosures == before + (own + nested);
      } else {
        assert hsDisclosures == before + [];
        return None;
      }
    }
  }

  lemma ThenAssociative(a: Selected, b: Selected, c: Selected)
    ensures Then(a, Then(b, c)) == Then(Then(a, b), c)
  {
    if a.Ok? && b.Ok? && c.Ok? {
      assert a.value + (b.value + c.value) == (a.value + b.value) + c.value;
    }
  }

  // True asks for as much as an empty container.
  lemma {:induction false} TrueIsEmpty(j: Json, r: Request, m: Mapping)
    requires Honest(m)
    ensures j.JObj? ==> Select(j, RBool(true), m) == Select(j, RDict(map[]), m)
    ensures j.JArr? ==> Select(j, RBool(true), m) == Select(j, RList([]), m)
  {
    match j
    case JAtom(_) =>
    case JArr(items) => TrueIsEmptyItems(items, 0, m);
    case JObj(ms) => TrueIsEmptyMembers(ms, m);
  }

  lemma {:induction false} TrueIsEmptyItems(items: seq<Json>, i: nat, m: Mapping)
    requires Honest(m)
    ensures SelectItems(items, RBool(true), i, m) == SelectItems(items, RList([]), i, m)
    decreases |items|
  {
    if items == [] {
    } else {
      TrueIsEmptyItems(items[1..], i + 1, m);
    }
  }

  lemma {:induction false} TrueIsEmptyMembers(ms: seq<Member>, m: Mapping)
    requires Honest(m)
    ensures SelectMembers(ms, RBool(true), m) == SelectMembers(ms, RDict(map[]), m)
    decreases |ms|
  {
    if ms == [] {
    } else {
      if ms[0].name == SD_DIGESTS_KEY && ms[0].value.JArr? {
        TrueIsEmptyDigests(ms[0].value.items, m);
      }
      TrueIsEmptyMembers(ms[1..], m);
    }
  }

  lemma {:induction false} TrueIsEmptyDigests(entries: seq<Json>, m: Mapping)
    requires Honest(m)
    ensures SelectDigests(entries, RBool(true), m) == SelectDigests(entries, RDict(map[]), m)
    decreases |entries|
  {
    if entries == [] {
    } else {
      TrueIsEmptyDigests(entries[1..], m);
    }
  }
}
