/**
 The second verifier: free functions that share one list of processed digests by reference.
 It computes the same as the verifier object.
 */
module SdJwt {
  import opened JsonData
  import opened Wrappers
  import opened Sequences
  import opened Unpacking
  import opened UnpackingTheorems
  import opened Verifier

  // A list that every recursive call appends to.
  class ProcessedDigests {
    var items: seq<Atom>

    constructor ()
      ensures items == []
    {
      items := [];
    }

    method Append(a: Atom)
      modifies this
      ensures items == old(items) + [a]
    {
      items := items + [a];
    }

    // A call behaves as o says, with the list as the state.
    ghost predicate Behaves<T(!new)>(r: Result<T, Error>, o: Outcome<T>)
      reads this
    {
      match o
      case Raised(e) => r == Err(e)
      case Returned(v, s) => r == Ok(v) && items == s
    }
  }

  method ExtractClaimsFromPayload(payload: Json, disclosures: seq<Disclosure>) returns (r: Result<Value, Error>)
    ensures r == if Repeats(disclosures) then Err(DuplicateDisclosure)
                 else
                   match Unpack(payload, MappingOf(disclosures), [])
                   case Raised(e) => Err(e)
                   case Returned(v, _) => Ok(v)
    // A result means: no digest was met twice anywhere, and no disclosed name was already taken.
    ensures r.Ok? ==> Sound(payload, MappingOf(disclosures))
                      && Fresh({}, Visited(payload, MappingOf(disclosures)))
                      && r.value == Expand(payload, MappingOf(disclosures))
  {
    var mapping := CreateHashMappings(disclosures);
    if mapping.Err? {
      return Err(mapping.error);
    }
    var processed := new ProcessedDigests();
    r := UnpackClaims(payload, mapping.value, processed);
    UnpackExact(payload, mapping.value, []);
    assert Elements<Atom>([]) == {};
  }

  method UnpackClaims(claims: Json, m: Mapping, processed: ProcessedDigests) returns (r: Result<Value, Error>)
    requires Honest(m)
    modifies processed
    ensures processed.Behaves(r, Unpack(claims, m, old(processed.items)))
    decreases claims, 0
  {
    match claims
    case JAtom(a) => return Ok(VAtom(a));
    case JArr(items) =>
      var out := UnpackJsonArray(items, m, processed);
      return if out.Ok? then Ok(VArr(out.value)) else Err(out.error);
    case JObj(ms) =>
      var out := UnpackJsonDict(ms, m, processed);
      return if out.Ok? then Ok(VObj(out.value)) else Err(out.error);
  }

  method UnpackJsonArray(claims: seq<Json>, m: Mapping, processed: ProcessedDigests)
    returns (r: Result<seq<Value>, Error>)
    requires Honest(m)
    modifies processed
    ensures processed.Behaves(r, UnpackItems(claims, m, [], old(processed.items)))
    decreases claims, 0
  {
    var result: seq<Value> := [];
    ghost var goal := UnpackItems(claims, m, [], processed.items);
    for k := 0 to |claims|
      invariant UnpackItems(claims[k..], m, result, processed.items) == goal
    {
      var element := claims[k];
      assert claims[k..][0] == element && claims[k..][1..] == claims[k + 1..];
      if IsElementLeaf(element) {
        var digest := LeafDigest(element);
        if digest in m {
          if !m[digest].ElementDisclosure? {
            return Err(WrongArity);
          }
          var value := UnpackClaims(m[digest].value, m, processed);
          if value.Err? {
            return Err(value.error);
          }
          result := result + [value.value];
        }
      } else {
        var value := UnpackClaims(element, m, processed);
        if value.Err? {
          return Err(value.error);
        }
        result := result + [value.value];
      }
    }
    return Ok(result);
  }

  method UnpackJsonDict(claims: seq<Member>, m: Mapping, processed: ProcessedDigests)
    returns (r: Result<map<string, Value>, Error>)
    requires Honest(m)
    modifies processed
    ensures match Unpack(JObj(claims), m, old(processed.items))
            case Raised(e) => r == Err(e)
            case Returned(v, s) => r.Ok? && v == VObj(r.value) && processed.items == s
    decreases claims, 1
  {
    var unpacked: map<string, Value> := map[];
    ghost var goal := UnpackMembers(claims, m, map[], processed.items);
    for k := 0 to |claims|
      invariant UnpackMembers(claims[k..], m, unpacked, processed.items) == goal
    {
      assert claims[k..][0] == claims[k] && claims[k..][1..] == claims[k + 1..];
      var member := claims[k];
      if !IsSkipped(member.name) {
        var value := UnpackClaims(member.value, m, processed);
        if value.Err? {
          return Err(value.error);
        }
        unpacked := unpacked[member.name := value.value];
      }
    }
    var entries := DigestsOf(claims);
    if entries.None? {
      return Err(NotADigestList);
    }
    r := UnpackDisclosedDigests(entries.value, m, unpacked, processed);
  }

  // The second loop of the object case.
  method UnpackDisclosedDigests(entries: seq<Json>, m: Mapping, unpacked: map<string, Value>,
                                processed: ProcessedDigests)
    returns (r: Result<map<string, Value>, Error>)
    requires Honest(m)
    modifies processed
    ensures processed.Behaves(r, UnpackDigests(entries, m, unpacked, old(processed.items)))
    decreases entries, 0
  {
    var result := unpacked;
    ghost var goal := UnpackDigests(entries, m, unpacked, processed.items);
    for k := 0 to |entries|
      invariant UnpackDigests(entries[k..], m, result, processed.items) == goal
    {
      var digest := entries[k];
      assert entries[k..][0] == digest && entries[k..][1..] == entries[k + 1..];
      if !digest.JAtom? {
        return Err(NotADigestList);
      }
      if digest.a in processed.items {
        return Err(DuplicateDigest);
      }
      processed.Append(digest.a);
      if IsKnown(digest, m) {
        var decoded := Known(digest, m);
        if !decoded.MemberDisclosure? {
          return Err(WrongArity);
        }
        if decoded.key in result {
          return Err(DuplicateKey);
        }
        var value := UnpackClaims(decoded.value, m, processed);
        if value.Err? {
          return Err(value.error);
        }
        result := result[decoded.key := value.value];
      }
    }
    return Ok(result);
  }
}
