/** Gathering policies over a chain of statements, and applying them to metadata. */
module PolicyChain {
  import opened Wrappers
  import opened Policy

  type Metadata = map<string, Val>
  type Policies = map<string, ClaimPolicy>

  // The metadata and metadata_policy parts of a statement, for one entity type; missing parts are empty.
  datatype Statement = Statement(metadata: Metadata, policy: Policies)

  const EMPTY := Statement(map[], map[])

  function ValueOnly(v: Val): ClaimPolicy {
    NO_POLICY.(value := Some(v))
  }

  /* combine: a rule and the statement below it. */

  ghost predicate MetadataAgree(sup: Statement, sub: Statement) {
    forall k :: k in sup.metadata && k in sub.metadata ==> sup.metadata[k] == sub.metadata[k]
  }

  // A policy may not touch a claim whose value a superior has fixed, other than essential or the same value.
  ghost predicate RespectsMetadata(sup: Statement, sub: Statement, lst: Lister) {
    forall k :: k in sup.metadata && k in sub.policy ==> CombineClaim(ValueOnly(sup.metadata[k]), sub.policy[k], lst).Ok?
  }

  ghost predicate PoliciesCombine(sup: Statement, sub: Statement, lst: Lister) {
    forall k :: k in sup.policy && k in sub.policy ==> CombineClaim(sup.policy[k], sub.policy[k], lst).Ok?
  }

  function MergedPolicy(sup: Policies, sub: Policies, lst: Lister): Policies
    requires forall k :: k in sup && k in sub ==> CombineClaim(sup[k], sub[k], lst).Ok?
  {
    map k | k in sup.Keys + sub.Keys ::
      if k in sup && k in sub then CombineClaim(sup[k], sub[k], lst).value else if k in sup then sup[k] else sub[k]
  }

  ghost function CombineRules(sup: Statement, sub: Statement, lst: Lister): Result<Statement, PolicyError> {
    if MetadataAgree(sup, sub) && RespectsMetadata(sup, sub, lst) && PoliciesCombine(sup, sub, lst)
    then Ok(Statement(sup.metadata + sub.metadata, MergedPolicy(sup.policy, sub.policy, lst)))
    else Err(PolicyError)
  }

  // The dict that gather_policies carries along; combine changes it in place.
  class Rule {
    var metadata: Metadata
    var metadataPolicy: Policies

    constructor (s: Statement)
      ensures Contents() == s
    {
      metadata, metadataPolicy := s.metadata, s.policy;
    }

    function Contents(): Statement
      reads this
    {
      Statement(metadata, metadataPolicy)
    }

    // An error leaves the metadata part possibly updated; the caller gives up the rule.
    method Combine(sub: Statement, lst: Lister) returns (error: Option<PolicyError>)
      modifies this
      ensures match CombineRules(old(Contents()), sub, lst)
              case Err(e) => error == Some(e)
              case Ok(s) => error == None && Contents() == s
    {
      var supMetadata := metadata;
      var agree := CheckMetadata(supMetadata, sub.metadata);
      if !agree {
        return Some(PolicyError);
      }
      metadata := supMetadata + sub.metadata;
      if sub.policy != map[] {
        var respects := CheckFixed(supMetadata, sub.policy, lst);
        if !respects {
          return Some(PolicyError);
        }
        var mp := CombinePolicies(metadataPolicy, sub.policy, lst);
        if mp.Err? {
          return Some(PolicyError);
        }
        metadataPolicy := mp.value;
      } else {
        assert MergedPolicy(metadataPolicy, sub.policy, lst) == metadataPolicy;
      }
      return None;
    }
  }

  // The check for claims that both statements set.
  method CheckMetadata(sup: Metadata, sub: Metadata) returns (agree: bool)
    ensures agree <==> forall k :: k in sup && k in sub ==> sup[k] == sub[k]
  {
    var overlap := sub.Keys * sup.Keys;
    while overlap != {}
      invariant overlap <= sub.Keys * sup.Keys
      invariant forall k :: k in sub.Keys * sup.Keys && k !in overlap ==> sup[k] == sub[k]
      decreases overlap
    {
      var k :| k in overlap;
      if sup[k] != sub[k] {
        return false;
      }
      overlap := overlap - {k};
    }
    return true;
  }

  // The check for policies on claims whose value a superior has fixed.
  method CheckFixed(sup: Metadata, sub: Policies, lst: Lister) returns (respects: bool)
    ensures respects <==> forall k :: k in sup && k in sub ==> CombineClaim(ValueOnly(sup[k]), sub[k], lst).Ok?
  {
    var fixed := sub.Keys * sup.Keys;
    while fixed != {}
      invariant fixed <= sub.Keys * sup.Keys
      invariant forall k :: k in sub.Keys * sup.Keys && k !in fixed ==> CombineClaim(ValueOnly(sup[k]), sub[k], lst).Ok?
      decreases fixed
    {
      var k :| k in fixed;
      var r := CombineClaimPolicy(ValueOnly(sup[k]), sub[k], lst);
      if r.Err? {
        return false;
      }
      fixed := fixed - {k};
    }
    return true;
  }

  method CombinePolicies(sup: Policies, sub: Policies, lst: Lister) returns (r: Result<Policies, PolicyError>)
    ensures r.Ok? <==> forall k :: k in sup && k in sub ==> CombineClaim(sup[k], sub[k], lst).Ok?
    ensures r.Ok? ==> r.value == MergedPolicy(sup, sub, lst)
  {
    var mp: Policies := map[];
    var common := sup.Keys * sub.Keys;
    while common != {}
      invariant common <= sup.Keys * sub.Keys && mp.Keys == sup.Keys * sub.Keys - common
      invariant forall k :: k in mp ==> CombineClaim(sup[k], sub[k], lst) == Ok(mp[k])
      decreases common
    {
      var k :| k in common;
      var c := CombineClaimPolicy(sup[k], sub[k], lst);
      if c.Err? {
        return Err(PolicyError);
      }
      mp := mp[k := c.value];
      common := common - {k};
    }
    return Ok(mp + (sup - sub.Keys) + (sub - sup.Keys));
  }

  /* gather_policies. */

  ghost predicate NoOverlap(s: Statement) {
    s.policy.Keys * s.metadata.Keys == {}
  }

  ghost function GatherFrom(rule: Statement, chain: seq<Statement>, lst: Lister): (r: Result<Statement, PolicyError>)
    ensures r.Err? ==> r.error == PolicyError
    decreases |chain|
  {
    if chain == [] then Ok(rule)
    else if chain[0] == EMPTY then GatherFrom(rule, chain[1..], lst)
    else if !NoOverlap(chain[0]) then Err(PolicyError)
    else
      match CombineRules(rule, chain[0], lst)
      case Err(e) => Err(e)
      case Ok(next) => GatherFrom(next, chain[1..], lst)
  }

  // The first statement is taken as it is.
  ghost function Gather(chain: seq<Statement>, lst: Lister): Result<Statement, PolicyError> {
    if chain == [] then Err(IndexError) else GatherFrom(chain[0], chain[1..], lst)
  }

  method GatherPolicies(chain: seq<Statement>, lst: Lister) returns (r: Result<Statement, PolicyError>)
    ensures r == Gather(chain, lst)
  {
    if chain == [] {
      return Err(IndexError);
    }
    var rule := new Rule(chain[0]);
    for i := 1 to |chain|
      invariant fresh(rule)
      invariant GatherFrom(rule.Contents(), chain[i..], lst) == Gather(chain, lst)
    {
      assert chain[i..][0] == chain[i] && chain[i..][1..] == chain[i + 1..];
      if chain[i] != EMPTY {
        if chain[i].policy.Keys * chain[i].metadata.Keys != {} {
          assert !NoOverlap(chain[i]);
          return Err(PolicyError);
        }
        assert NoOverlap(chain[i]);
        ghost var before := rule.Contents();
        assert GatherFrom(before, chain[i..], lst) == match CombineRules(before, chain[i], lst)
                                                      case Err(e) => Err(e)
                                                      case Ok(next) => GatherFrom(next, chain[i + 1..], lst);
        var error := rule.Combine(chain[i], lst);
        if error.Some? {
          return Err(error.value);
        }
      }
    }
    return Ok(rule.Contents());
  }

  /* _apply_metadata_policy, one claim at a time. */

  // The elements of xs that are in s, in order.
  function Among(xs: seq<string>, s: set<string>): seq<string> {
    if xs == [] then []
    else (if xs[0] in s then [xs[0]] else []) + Among(xs[1..], s)
  }

  // What a policy makes of a claim that is present.
  function ApplyPresent(v: Val, p: ClaimPolicy, lst: Lister): Result<Val, PolicyError> {
    if p.value.Some? then Ok(p.value.value)
    else if p.oneOf.Some? then
      match v
      case Many(xs) =>
        var among := Among(xs, p.oneOf.value);
        if among != [] then Ok(One(among[0])) else Err(PolicyError)
      case One(s) => if s in p.oneOf.value then Ok(v) else Err(PolicyError)
    else
      var added := if p.add.Some? then Many(lst(AsSet(v) + AsSet(p.add.value))) else v;
      if p.subsetOf.Some? && p.subsetOf.value * PySet(added) == {} then Err(PolicyError)
      else
        var kept := if p.subsetOf.Some? then Many(lst(p.subsetOf.value * PySet(added))) else added;
        if p.supersetOf.Some? && p.supersetOf.value - PySet(kept) != {} then Err(PolicyError) else Ok(kept)
  }

  // What it fills in for a claim that is absent. Nothing here is checked against the other operators.
  function Filled(p: ClaimPolicy): Option<Val> {
    if p.value.Some? then p.value else if p.add.Some? then p.add else p.default_
  }

  function ApplyClaim(v: Option<Val>, p: ClaimPolicy, lst: Lister): Result<Option<Val>, PolicyError> {
    if v.Some? then
      match ApplyPresent(v.value, p, lst)
      case Ok(w) => Ok(Some(w))
      case Err(e) => Err(e)
    else if Filled(p).None? && p.essential == Some(true) then Err(PolicyError)
    else Ok(Filled(p))
  }

  function Lookup(m: Metadata, k: string): Option<Val> {
    if k in m then Some(m[k]) else None
  }

  ghost predicate Applicable(m: Metadata, policies: Policies, lst: Lister) {
    forall k :: k in policies ==> ApplyClaim(Lookup(m, k), policies[k], lst).Ok?
  }

  ghost function Applied(m: Metadata, policies: Policies, lst: Lister): Metadata
    requires Applicable(m, policies, lst)
  {
    map k | k in m.Keys + policies.Keys && (k in policies ==> ApplyClaim(Lookup(m, k), policies[k], lst).value.Some?) ::
      if k in policies then ApplyClaim(Lookup(m, k), policies[k], lst).value.value else m[k]
  }

  ghost function ApplyPolicies(m: Metadata, policies: Policies, lst: Lister): Result<Metadata, PolicyError> {
    if Applicable(m, policies, lst) then Ok(Applied(m, policies, lst)) else Err(PolicyError)
  }

  // apply_policy: then everything in the rule's metadata is written over.
  ghost function ApplyRule(m: Metadata, rule: Statement, lst: Lister): Result<Metadata, PolicyError> {
    match if rule.policy != map[] then ApplyPolicies(m, rule.policy, lst) else Ok(m)
    case Err(e) => Err(e)
    case Ok(out) => Ok(out + rule.metadata)
  }

  // The metadata dict, changed in place claim by claim.
  class MetadataDict {
    var claims: Metadata

    constructor (m: Metadata)
      ensures claims == m
    {
      claims := m;
    }

    method ApplyPresentClaim(claim: string, p: ClaimPolicy, lst: Lister) returns (error: Option<PolicyError>)
      requires claim in claims && ValidLister(lst)
      modifies this
      ensures match ApplyPresent(old(claims)[claim], p, lst)
              case Err(e) => error == Some(e) && claims.Keys == old(claims).Keys
              case Ok(w) => error == None && claims == old(claims)[claim := w]
    {
      if p.value.Some? {
        claims := claims[claim := p.value.value];
      } else if p.oneOf.Some? {
        match claims[claim] {
          case Many(xs) =>
            var among := Among(xs, p.oneOf.value);
            if among == [] {
              return Some(PolicyError);
            }
            claims := claims[claim := One(among[0])];
          case One(s) =>
            if s !in p.oneOf.value {
              return Some(PolicyError);
            }
        }
      } else {
        if p.add.Some? {
          claims := claims[claim := Many(lst(AsSet(claims[claim]) + AsSet(p.add.value)))];
        }
        if p.subsetOf.Some? {
          var val := p.subsetOf.value * PySet(claims[claim]);
          if val == {} {
            return Some(PolicyError);
          }
          claims := claims[claim := Many(lst(val))];
        }
        if p.supersetOf.Some? && p.supersetOf.value - PySet(claims[claim]) != {} {
          return Some(PolicyError);
        }
      }
      return None;
    }

    // The second loop, over the claims that were absent at the start.
    method FillAbsentClaims(policies: Policies, metadataSet: set<string>, lst: Lister) returns (error: Option<PolicyError>)
      requires claims.Keys == metadataSet
      modifies this
      ensures error == None ==>
                && claims.Keys <= metadataSet + policies.Keys
                && (forall k :: k in metadataSet ==> Lookup(claims, k) == Lookup(old(claims), k))
                && (forall k :: k in policies.Keys - metadataSet ==> ApplyClaim(None, policies[k], lst) == Ok(Lookup(claims, k)))
      ensures error.Some? ==>
                error == Some(PolicyError) && exists k :: k in policies.Keys - metadataSet && ApplyClaim(None, policies[k], lst).Err?
    {
      var absent := policies.Keys - metadataSet;
      while absent != {}
        invariant absent <= policies.Keys - metadataSet
        invariant forall k :: k in metadataSet || k in absent ==> Lookup(claims, k) == Lookup(old(claims), k)
        invariant claims.Keys <= metadataSet + (policies.Keys - absent)
        invariant forall k :: k in policies.Keys - metadataSet - absent ==>
                    ApplyClaim(None, policies[k], lst) == Ok(Lookup(claims, k))
        decreases absent
      {
        var claim :| claim in absent;
        absent := absent - {claim};
        var p := policies[claim];
        assert Lookup(claims, claim) == None;
        if Filled(p).Some? {
          claims := claims[claim := Filled(p).value];
        }
        if claim !in claims && p.essential == Some(true) {
          assert ApplyClaim(None, policies[claim], lst).Err?;
          return Some(PolicyError);
        }
      }
      return None;
    }

    method ApplyMetadataPolicy(policies: Policies, lst: Lister) returns (error: Option<PolicyError>)
      requires ValidLister(lst)
      modifies this
      ensures match ApplyPolicies(old(claims), policies, lst)
              case Err(e) => error == Some(e)
              case Ok(m) => error == None && claims == m
    {
      ghost var before := claims;
      var metadataSet := claims.Keys;
      var todo := metadataSet * policies.Keys;
      while todo != {}
        invariant todo <= metadataSet * policies.Keys && claims.Keys == before.Keys
        invariant forall k :: k in metadataSet && (k !in policies || k in todo) ==> claims[k] == before[k]
        invariant forall k :: k in metadataSet * policies.Keys - todo ==>
                    ApplyClaim(Some(before[k]), policies[k], lst) == Ok(Some(claims[k]))
        decreases todo
      {
        var claim :| claim in todo;
        todo := todo - {claim};
        error := ApplyPresentClaim(claim, policies[claim], lst);
        if error.Some? {
          assert ApplyClaim(Lookup(before, claim), policies[claim], lst).Err?;
          return;
        }
      }
      error := FillAbsentClaims(policies, metadataSet, lst);
      if error.Some? {
        return;
      }
      AppliedClaims(before, policies, claims, lst);
      return None;
    }
  }

  lemma AppliedClaims(m: Metadata, policies: Policies, out: Metadata, lst: Lister)
    requires out.Keys <= m.Keys + policies.Keys
    requires forall k :: k in m && k !in policies ==> Lookup(out, k) == Some(m[k])
    requires forall k :: k in policies ==> ApplyClaim(Lookup(m, k), policies[k], lst) == Ok(Lookup(out, k))
    ensures ApplyPolicies(m, policies, lst) == Ok(out)
  {
    assert Applicable(m, policies, lst);
    var a := Applied(m, policies, lst);
    forall k ensures Lookup(a, k) == Lookup(out, k) {
      if k in policies {
        assert ApplyClaim(Lookup(m, k), policies[k], lst) == Ok(Lookup(out, k));
      }
    }
    assert forall k :: k in a <==> k in out by {
      forall k ensures k in a <==> k in out {
        assert Lookup(a, k) == Lookup(out, k);
      }
    }
    forall k | k in a ensures a[k] == out[k] {
      assert Lookup(a, k) == Lookup(out, k);
    }
    assert a == out;
  }
}
