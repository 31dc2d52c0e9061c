/** The two verifiers' unpacking, as objects that mark digests as they go. */
module Verifier {
  import opened JsonData
  import opened Wrappers
  import opened Sequences
  import opened Unpacking
  import opened UnpackingTheorems

  // The digests of a list of disclosures.
  function Digests(ds: seq<Disclosure>): set<Text> {
    set d | d in ds :: DigestOf(d)
  }

  predicate Repeats(ds: seq<Disclosure>) {
    exists i, j :: 0 <= i < j < |ds| && ds[i] == ds[j]
  }

  function MappingOf(ds: seq<Disclosure>): (m: Mapping)
    ensures Honest(m) && m.Keys == Digests(ds)
  {
    map d | d in ds :: DigestOf(d) := d
  }

  lemma MappingOfSnoc(ds: seq<Disclosure>, d: Disclosure)
    ensures MappingOf(ds + [d]) == MappingOf(ds)[DigestOf(d) := d]
    ensures DigestOf(d) in MappingOf(ds) <==> d in ds
    ensures Repeats(ds + [d]) <==> Repeats(ds) || d in ds
  {
    var t := ds + [d];
    forall x ensures x in t <==> x in ds || x == d {
    }
    if d in ds {
      var i :| 0 <= i < |ds| && ds[i] == d;
      assert t[i] == t[|ds|];
    }
    if Repeats(ds) {
      var i, j :| 0 <= i < j < |ds| && ds[i] == ds[j];
      assert t[i] == t[j];
    }
  }

  lemma RepeatsPrefix(ds: seq<Disclosure>, k: nat)
    requires k <= |ds|
    ensures Repeats(ds[..k]) ==> Repeats(ds)
  {
    if Repeats(ds[..k]) {
      var i, j :| 0 <= i < j < k && ds[..k][i] == ds[..k][j];
      assert ds[i] == ds[j];
    }
  }

  // One turn of the loop: a digest already stored means a repetition.
  lemma NextDisclosure(ds: seq<Disclosure>, k: nat)
    requires k < |ds| && !Repeats(ds[..k])
    ensures DigestOf(ds[k]) in MappingOf(ds[..k]) ==> Repeats(ds)
    ensures DigestOf(ds[k]) !in MappingOf(ds[..k]) ==>
              !Repeats(ds[..k + 1]) && MappingOf(ds[..k + 1]) == MappingOf(ds[..k])[DigestOf(ds[k]) := ds[k]]
  {
    MappingOfSnoc(ds[..k], ds[k]);
    assert ds[..k + 1] == ds[..k] + [ds[k]];
    RepeatsPrefix(ds, k + 1);
  }

  // Shared by the holder and both verifiers.
  method CreateHashMappings(disclosures: seq<Disclosure>) returns (r: Result<Mapping, Error>)
    ensures r == if Repeats(disclosures) then Err(DuplicateDisclosure) else Ok(MappingOf(disclosures))
    ensures r.Err? <==> exists i, j :: 0 <= i < j < |disclosures| && disclosures[i] == disclosures[j]
    ensures r.Ok? ==> forall i :: 0 <= i < |disclosures| ==>
              DigestOf(disclosures[i]) in r.value && r.value[DigestOf(disclosures[i])] == disclosures[i]
    ensures r.Ok? ==> forall t :: t in r.value ==> exists i :: 0 <= i < |disclosures| && t == DigestOf(disclosures[i])
  {
    var hashToDecoded: Mapping := map[];
    for k := 0 to |disclosures|
      invariant hashToDecoded == MappingOf(disclosures[..k])
      invariant !Repeats(disclosures[..k])
    {
      var disclosure := disclosures[k];
      var digest := DigestOf(disclosure);
      NextDisclosure(disclosures, k);
      if digest in hashToDecoded {
        return Err(DuplicateDisclosure);
      }
      hashToDecoded := hashToDecoded[digest := disclosure];
    }
    assert disclosures[..|disclosures|] == disclosures;
    return Ok(hashToDecoded);
  }

  function HashAlgorithm(payload: Json): Option<Json> {
    if payload.JObj? then Lookup(payload.members, DIGEST_ALG_KEY) else None
  }

  // What get_verified_payload returns for a payload and a mapping.
  function Verified(payload: Json, m: Mapping): Result<Value, Error>
    requires Honest(m)
  {
    if HashAlgorithm(payload).Some? && HashAlgorithm(payload).value != JAtom(Str(Lit(HASH_ALG_NAME)))
    then Err(UnsupportedHash)
    else
      match Unpack(payload, m, [])
      case Raised(e) => Err(e)
      case Returned(v, _) => Ok(v)
  }

  class SDJWTVerifier {
    const sdJwtPayload: Json
    const hashToDecodedDisclosure: Mapping
    var duplicateHashCheck: seq<Atom>

    constructor (payload: Json, mapping: Mapping)
      ensures sdJwtPayload == payload && hashToDecodedDisclosure == mapping
    {
      sdJwtPayload, hashToDecodedDisclosure := payload, mapping;
      duplicateHashCheck := [];
    }

    // A call behaves as o says: it raises, or returns having extended the list of digests.
    ghost predicate Behaves<T(!new)>(r: Result<T, Error>, o: Outcome<T>)
      reads this
    {
      match o
      case Raised(e) => r == Err(e)
      case Returned(v, s) => r == Ok(v) && duplicateHashCheck == s
    }

    method ExtractSdClaims() returns (r: Result<Value, Error>)
      requires Honest(hashToDecodedDisclosure)
      modifies this
      ensures r == Verified(sdJwtPayload, hashToDecodedDisclosure)
      ensures r.Ok? ==> duplicateHashCheck == Visited(sdJwtPayload, hashToDecodedDisclosure)
                        && Fresh({}, duplicateHashCheck)
    {
      var alg := HashAlgorithm(sdJwtPayload);
      if alg.Some? && alg.value != JAtom(Str(Lit(HASH_ALG_NAME))) {
        return Err(UnsupportedHash);
      }
      duplicateHashCheck := [];
      r := UnpackDisclosedClaims(sdJwtPayload);
      UnpackExact(sdJwtPayload, hashToDecodedDisclosure, []);
      assert Elements<Atom>([]) == {};
    }

    method UnpackDisclosedClaims(claims: Json) returns (r: Result<Value, Error>)
      requires Honest(hashToDecodedDisclosure)
      modifies this`duplicateHashCheck
      ensures Behaves(r, Unpack(claims, hashToDecodedDisclosure, old(duplicateHashCheck)))
      decreases claims, 0
    {
      match claims
      case JAtom(a) => return Ok(VAtom(a));
      case JArr(items) =>
        var out := UnpackList(items);
        return if out.Ok? then Ok(VArr(out.value)) else Err(out.error);
      case JObj(ms) =>
        var out := UnpackDict(ms);
        return if out.Ok? then Ok(VObj(out.value)) else Err(out.error);
    }

    method UnpackList(items: seq<Json>) returns (r: Result<seq<Value>, Error>)
      requires Honest(hashToDecodedDisclosure)
      modifies this`duplicateHashCheck
      ensures Behaves(r, UnpackItems(items, hashToDecodedDisclosure, [], old(duplicateHashCheck)))
      decreases items, 0
    {
      var output: seq<Value> := [];
      ghost var goal := UnpackItems(items, hashToDecodedDisclosure, [], duplicateHashCheck);
      var k := 0;
      while k < |items|
        invariant 0 <= k <= |items|
        invariant UnpackItems(items[k..], hashToDecodedDisclosure, output, duplicateHashCheck) == goal
      {
        var element := items[k];
        assert items[k..][0] == element && items[k..][1..] == items[k + 1..];
        if IsElementLeaf(element) {
          var digest := LeafDigest(element);
          if digest in hashToDecodedDisclosure {
            if !hashToDecodedDisclosure[digest].ElementDisclosure? {
              return Err(WrongArity);
            }
            var value := UnpackDisclosedClaims(hashToDecodedDisclosure[digest].value);
            if value.Err? {
              return Err(value.error);
            }
            output := output + [value.value];
          }
        } else {
          var value := UnpackDisclosedClaims(element);
          if value.Err? {
            return Err(value.error);
          }
          output := output + [value.value];
        }
        k := k + 1;
      }
      return Ok(output);
    }

    // The object case: plain members first, then the disclosed ones.
    method UnpackDict(ms: seq<Member>) returns (r: Result<map<string, Value>, Error>)
      requires Honest(hashToDecodedDisclosure)
      modifies this`duplicateHashCheck
      ensures match Unpack(JObj(ms), hashToDecodedDisclosure, old(duplicateHashCheck))
              case Raised(e) => r == Err(e)
              case Returned(v, s) => r.Ok? && v == VObj(r.value) && duplicateHashCheck == s
      decreases ms, 1
    {
      var preOutput: map<string, Value> := map[];
      ghost var goal := UnpackMembers(ms, hashToDecodedDisclosure, map[], duplicateHashCheck);
      var k := 0;
      while k < |ms|
        invariant 0 <= k <= |ms|
        invariant UnpackMembers(ms[k..], hashToDecodedDisclosure, preOutput, duplicateHashCheck) == goal
      {
        assert ms[k..][0] == ms[k] && ms[k..][1..] == ms[k + 1..];
        var member := ms[k];
        if !IsSkipped(member.name) {
          var value := UnpackDisclosedClaims(member.value);
          if value.Err? {
            return Err(value.error);
          }
          preOutput := preOutput[member.name := value.value];
        }
        k := k + 1;
      }
      var entries := DigestsOf(ms);
      if entries.None? {
        return Err(NotADigestList);
      }
      r := UnpackSdList(entries.value, preOutput);
    }

    method UnpackSdList(entries: seq<Json>, preOutput: map<string, Value>) returns (r: Result<map<string, Value>, Error>)
      requires Honest(hashToDecodedDisclosure)
      modifies this`duplicateHashCheck
      ensures Behaves(r, UnpackDigests(entries, hashToDecodedDisclosure, preOutput, old(duplicateHashCheck)))
      decreases entries, 0
    {
      var output := preOutput;
      ghost var goal := UnpackDigests(entries, hashToDecodedDisclosure, preOutput, duplicateHashCheck);
      var k := 0;
      while k < |entries|
        invariant 0 <= k <= |entries|
        invariant UnpackDigests(entries[k..], hashToDecodedDisclosure, output, duplicateHashCheck) == goal
      {
        var digest := entries[k];
        assert entries[k..][0] == digest && entries[k..][1..] == entries[k + 1..];
        if !digest.JAtom? {
          return Err(NotADigestList);
        }
        if digest.a in duplicateHashCheck {
          return Err(DuplicateDigest);
        }
        duplicateHashCheck := duplicateHashCheck + [digest.a];
        if IsKnown(digest, hashToDecodedDisclosure) {
          var decoded := Known(digest, hashToDecodedDisclosure);
          if !decoded.MemberDisclosure? {
            return Err(WrongArity);
          }
          if decoded.key in output {
            return Err(DuplicateKey);
          }
          var value := UnpackDisclosedClaims(decoded.value);
          if value.Err? {
            return Err(value.error);
          }
          output := output[decoded.key := value.value];
        }
        k := k + 1;
      }
      return Ok(output);
    }
  }
}
