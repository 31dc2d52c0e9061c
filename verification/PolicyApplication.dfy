/** Merging policies and applying the result, against applying them one after the other. */
module PolicyApplication {
  import opened Wrappers
  import opened Policy
  import opened PolicyChain
  import opened PolicyGathering

  /* One statement after the other. */

  // Each statement's policies, and then its metadata, in turn.
  ghost function ApplyInTurn(m: Metadata, chain: seq<Statement>, lst: Lister): Result<Metadata, PolicyError>
    decreases |chain|
  {
    if chain == [] then Ok(m)
    else
      var next := ApplyRule(m, chain[0], lst);
      if next.Err? then next else ApplyInTurn(next.value, chain[1..], lst)
  }

  // The policies alone.
  ghost function PoliciesInTurn(m: Metadata, chain: seq<Statement>, lst: Lister): Result<Metadata, PolicyError>
    decreases |chain|
  {
    if chain == [] then Ok(m)
    else
      var next := ApplyPolicies(m, chain[0].policy, lst);
      if next.Err? then next else PoliciesInTurn(next.value, chain[1..], lst)
  }

  // The same for a single claim.
  function ClaimInTurn(v: Option<Val>, chain: seq<Statement>, claim: string, lst: Lister): Result<Option<Val>, PolicyError>
    decreases |chain|
  {
    if chain == [] then Ok(v)
    else if claim !in chain[0].policy then ClaimInTurn(v, chain[1..], claim, lst)
    else
      match ApplyClaim(v, chain[0].policy[claim], lst)
      case Err(e) => Err(e)
      case Ok(w) => ClaimInTurn(w, chain[1..], claim, lst)
  }

  lemma AppliedLookup(m: Metadata, policies: Policies, k: string, lst: Lister)
    requires ApplyPolicies(m, policies, lst).Ok?
    ensures Lookup(ApplyPolicies(m, policies, lst).value, k) ==
            if k in policies then ApplyClaim(Lookup(m, k), policies[k], lst).value else Lookup(m, k)
  {
  }

  // Applying in turn works claim by claim.
  lemma {:induction false} InTurnByClaim(m: Metadata, chain: seq<Statement>, lst: Lister)
    ensures PoliciesInTurn(m, chain, lst).Ok? <==> forall k :: ClaimInTurn(Lookup(m, k), chain, k, lst).Ok?
    ensures PoliciesInTurn(m, chain, lst).Ok? ==>
              forall k :: ClaimInTurn(Lookup(m, k), chain, k, lst) == Ok(Lookup(PoliciesInTurn(m, chain, lst).value, k))
    decreases |chain|
  {
    if chain == [] {
    } else {
      var policies, rest := chain[0].policy, chain[1..];
      var next := ApplyPolicies(m, policies, lst);
      if next.Ok? {
        InTurnByClaim(next.value, rest, lst);
        forall k
          ensures ClaimInTurn(Lookup(m, k), chain, k, lst) == ClaimInTurn(Lookup(next.value, k), rest, k, lst)
        {
          AppliedLookup(m, policies, k, lst);
          if k in policies {
            assert ApplyClaim(Lookup(m, k), policies[k], lst).Ok?;
          }
        }
      } else {
        var k :| k in policies && ApplyClaim(Lookup(m, k), policies[k], lst).Err?;
        assert ClaimInTurn(Lookup(m, k), chain, k, lst).Err?;
      }
    }
  }

  /* One claim under subset_of or one_of alone. */

  function SubsetOnly(s: set<string>): ClaimPolicy {
    NO_POLICY.(subsetOf := Some(s))
  }

  function OneOfOnly(s: set<string>): ClaimPolicy {
    NO_POLICY.(oneOf := Some(s))
  }

  // v is a list governed by subset_of, or a scalar governed by one_of.
  predicate Governs(p: ClaimPolicy, v: Val) {
    match v
    case Many(_) => p.subsetOf.Some? && p == SubsetOnly(p.subsetOf.value)
    case One(_) => p.oneOf.Some? && p == OneOfOnly(p.oneOf.value)
  }

  ghost predicate AllGovern(chain: seq<Statement>, claim: string, v: Val) {
    forall i :: 0 <= i < |chain| && claim in chain[i].policy ==> Governs(chain[i].policy[claim], v)
  }

  function Operand(p: ClaimPolicy): set<string> {
    if p.subsetOf.Some? then p.subsetOf.value else if p.oneOf.Some? then p.oneOf.value else {}
  }

  lemma OperatorsOfSubset(s: set<string>)
    ensures Operators(SubsetOnly(s)) == {SubsetOf} && Operators(OneOfOnly(s)) == {OneOf}
  {
    forall op ensures op in Operators(SubsetOnly(s)) <==> op == SubsetOf {
    }
    forall op ensures op in Operators(OneOfOnly(s)) <==> op == OneOf {
    }
  }

  lemma CombineGoverning(a: ClaimPolicy, b: ClaimPolicy, v: Val, lst: Lister)
    requires Governs(a, v) && Governs(b, v)
    ensures CombineClaim(a, b, lst) ==
            if Operand(a) * Operand(b) == {} then Err(PolicyError)
            else Ok(if v.Many? then SubsetOnly(Operand(a) * Operand(b)) else OneOfOnly(Operand(a) * Operand(b)))
  {
    OperatorsOfSubset(Operand(a) * Operand(b));
  }

  // What is left of v under operand s; v itself for a scalar in s.
  function Restricted(v: Val, s: set<string>, lst: Lister): Val {
    if v.Many? then Many(lst(s * PySet(v))) else v
  }

  lemma ApplyGoverning(v: Val, p: ClaimPolicy, lst: Lister)
    requires ValidLister(lst) && Governs(p, v)
    ensures ApplyPresent(v, p, lst) ==
            if Operand(p) * AsSet(v) == {} then Err(PolicyError) else Ok(Restricted(v, Operand(p), lst))
    ensures AsSet(Restricted(v, Operand(p), lst)) == if v.Many? then Operand(p) * AsSet(v) else AsSet(v)
    ensures Governs(p, Restricted(v, Operand(p), lst))
  {
    if v.One? {
      assert v.s in Operand(p) ==> v.s in Operand(p) * AsSet(v);
      assert v.s !in Operand(p) ==> Operand(p) * AsSet(v) == {};
    }
  }

  // Two operands in turn are one operand, their intersection.
  lemma TwoOperands(v: Val, a: ClaimPolicy, b: ClaimPolicy, lst: Lister)
    requires ValidLister(lst) && Governs(a, v) && Governs(b, v)
    ensures var first := ApplyPresent(v, a, lst);
            var both := CombineClaim(a, b, lst);
            && (first.Ok? ==> Governs(b, first.value))
            && ((first.Ok? && ApplyPresent(first.value, b, lst).Ok?) <==>
                (both.Ok? && ApplyPresent(v, both.value, lst).Ok?))
            && (both.Ok? ==> Governs(both.value, v))
            && (first.Ok? && ApplyPresent(first.value, b, lst).Ok? ==>
                  ApplyPresent(first.value, b, lst) == ApplyPresent(v, both.value, lst))
  {
    CombineGoverning(a, b, v, lst);
    ApplyGoverning(v, a, lst);
    var first := ApplyPresent(v, a, lst);
    if first.Ok? {
      ApplyGoverning(first.value, b, lst);
      SameOperands(v, Operand(a), Operand(b), lst);
    }
    if CombineClaim(a, b, lst).Ok? {
      ApplyGoverning(v, CombineClaim(a, b, lst).value, lst);
    }
  }

  lemma SameOperands(v: Val, a: set<string>, b: set<string>, lst: Lister)
    requires ValidLister(lst)
    ensures v.Many? ==> b * AsSet(Restricted(v, a, lst)) == (a * b) * AsSet(v)
    ensures v.One? && AsSet(v) <= a ==> b * AsSet(Restricted(v, a, lst)) == (a * b) * AsSet(v)
    ensures v.Many? ==> b * PySet(Restricted(v, a, lst)) == (a * b) * PySet(v)
  {
    assert Elements(lst(a * PySet(v))) == a * PySet(v);
  }

  /**
   Merging policies means applying them in turn, for one claim: merging the rest of the chain
   into p and applying the result to v succeeds iff applying p and then the rest does, with
   the same result.
   */
  lemma {:induction false} MergeIsInTurn(v: Val, p: ClaimPolicy, chain: seq<Statement>, claim: string, lst: Lister)
    requires ValidLister(lst) && Governs(p, v) && AllGovern(chain, claim, v)
    ensures MergedOutcome(v, FoldClaim(Some(p), chain, claim, lst), lst) == InTurnOutcome(v, p, chain, claim, lst)
    decreases |chain|
  {
    if chain == [] {
    } else {
      var rest := chain[1..];
      assert AllGovern(rest, claim, v) by {
        assert forall i :: 0 <= i < |rest| ==> rest[i] == chain[i + 1];
      }
      if claim !in chain[0].policy {
        MergeIsInTurn(v, p, rest, claim, lst);
      } else {
        var q := chain[0].policy[claim];
        TwoOperands(v, p, q, lst);
        if CombineClaim(p, q, lst).Ok? {
          MergeIsInTurn(v, CombineClaim(p, q, lst).value, rest, claim, lst);
        }
      }
    }
  }

  // Merge, then apply: what becomes of v, or nothing when either step fails.
  function MergedOutcome(v: Val, merged: Result<Option<ClaimPolicy>, PolicyError>, lst: Lister): Option<Val> {
    if merged.Err? then None
    else if merged.value.None? then Some(v)
    else
      match ApplyPresent(v, merged.value.value, lst)
      case Ok(w) => Some(w)
      case Err(_) => None
  }

  function Outcome(r: Result<Option<Val>, PolicyError>): Option<Val> {
    if r.Ok? then r.value else None
  }

  // Apply p, then the rest of the chain.
  function InTurnOutcome(v: Val, p: ClaimPolicy, chain: seq<Statement>, claim: string, lst: Lister): Option<Val> {
    match ApplyPresent(v, p, lst)
    case Ok(w) => Outcome(ClaimInTurn(Some(w), chain, claim, lst))
    case Err(_) => None
  }

  // The same with no policy at the start.
  lemma {:induction false} MergeIsInTurnFromNone(v: Val, chain: seq<Statement>, claim: string, lst: Lister)
    requires ValidLister(lst) && AllGovern(chain, claim, v)
    ensures MergedOutcome(v, FoldClaim(None, chain, claim, lst), lst) == Outcome(ClaimInTurn(Some(v), chain, claim, lst))
    decreases |chain|
  {
    if chain == [] {
    } else {
      var rest := chain[1..];
      assert AllGovern(rest, claim, v) by {
        assert forall i :: 0 <= i < |rest| ==> rest[i] == chain[i + 1];
      }
      if claim !in chain[0].policy {
        MergeIsInTurnFromNone(v, rest, claim, lst);
      } else {
        MergeIsInTurn(v, chain[0].policy[claim], rest, claim, lst);
      }
    }
  }

  // Present claims stay present.
  lemma {:induction false} InTurnStaysPresent(v: Val, chain: seq<Statement>, claim: string, lst: Lister)
    requires ClaimInTurn(Some(v), chain, claim, lst).Ok?
    ensures ClaimInTurn(Some(v), chain, claim, lst).value.Some?
    decreases |chain|
  {
    if chain == [] {
    } else {
      if claim !in chain[0].policy {
        InTurnStaysPresent(v, chain[1..], claim, lst);
      } else {
        InTurnStaysPresent(ApplyPresent(v, chain[0].policy[claim], lst).value, chain[1..], claim, lst);
      }
    }
  }

  /* The whole chain. */

  // Every claim under policy is present, and governed throughout in the one way its value allows.
  ghost predicate Governed(m: Metadata, chain: seq<Statement>) {
    forall i, k :: 0 <= i < |chain| && k in chain[i].policy ==> k in m && Governs(chain[i].policy[k], m[k])
  }

  // Lists count as sets: the order in which the code lists them is not determined.
  ghost predicate SameSets(a: Metadata, b: Metadata) {
    a.Keys == b.Keys && forall k :: k in a ==> AsSet(a[k]) == AsSet(b[k]) && a[k].One? == b[k].One?
  }

  // Statements agree on metadata, none governs a claim that a statement above it has set, and none
  // below the first has a claim in both parts.
  ghost predicate MetadataFits(chain: seq<Statement>) {
    && (forall i, j :: 0 <= i < j < |chain| ==> MetadataAgree(chain[i], chain[j]) && Untouched(chain[i].metadata, chain[j]))
    && forall i :: 0 < i < |chain| ==> NoOverlap(chain[i])
  }

  ghost predicate Untouched(metadata: Metadata, s: Statement) {
    forall k :: k in metadata ==> k !in s.policy
  }

  /**
   Merging policies means applying them in turn. For a chain of any length where each claim under
   policy is present and governed throughout by subset_of (lists) or by one_of (scalars): gathering
   and then applying succeeds iff the metadata that the statements set fits their policies and
   applying every statement in turn succeeds, with equal results as sets.
   */
  lemma {:induction false} GatherApplyIsInTurn(m: Metadata, chain: seq<Statement>, lst: Lister)
    requires ValidLister(lst) && chain != [] && Governed(m, chain)
    ensures (Gather(chain, lst).Ok? && ApplyRule(m, Gather(chain, lst).value, lst).Ok?) <==>
            MetadataFits(chain) && ApplyInTurn(m, chain, lst).Ok?
    ensures MetadataFits(chain) && ApplyInTurn(m, chain, lst).Ok? ==>
              SameSets(ApplyRule(m, Gather(chain, lst).value, lst).value, ApplyInTurn(m, chain, lst).value)
  {
    GatherByClaim(chain, lst);
    FitsIsCompatible(m, chain, lst);
    InTurnByClaim(m, chain, lst);
    forall k ensures ByClaim(m, chain, k, lst) {
      OneClaim(m, chain, k, lst);
    }
    if MetadataFits(chain) {
      MetadataLast(m, chain, lst);
      if Gather(chain, lst).Ok? {
        PoliciesByClaim(m, chain, Gather(chain, lst).value, lst);
        RuleParts(m, Gather(chain, lst).value, lst);
      } else {
        var k :| FoldClaim(None, chain, k, lst).Err?;
        assert ByClaim(m, chain, k, lst);
      }
    }
  }

  // Policies of these two kinds never respect a value that is already set.
  lemma FitsIsCompatible(m: Metadata, chain: seq<Statement>, lst: Lister)
    requires Governed(m, chain) && chain != []
    ensures MetadataFits(chain) <==> PairwiseCompatible(chain, lst) && AllSeparate(chain[1..])
  {
    forall i, j | 0 <= i < j < |chain|
      ensures RespectsMetadata(chain[i], chain[j], lst) <==> Untouched(chain[i].metadata, chain[j])
    {
      forall k | k in chain[i].metadata && k in chain[j].policy
        ensures CombineClaim(ValueOnly(chain[i].metadata[k]), chain[j].policy[k], lst).Err?
      {
        NothingUnderValue(chain[i].metadata[k], chain[j].policy[k], m[k], lst);
      }
    }
    SeparateBelow(chain);
    if MetadataFits(chain) {
      forall i, j | 0 <= i < j < |chain| ensures Compatible(chain[i], chain[j], lst) {}
    }
    if PairwiseCompatible(chain, lst) {
      forall i, j | 0 <= i < j < |chain|
        ensures MetadataAgree(chain[i], chain[j]) && Untouched(chain[i].metadata, chain[j])
      {
        assert Compatible(chain[i], chain[j], lst);
      }
    }
  }

  lemma SeparateBelow(chain: seq<Statement>)
    requires chain != []
    ensures AllSeparate(chain[1..]) <==> forall i :: 0 < i < |chain| ==> NoOverlap(chain[i])
  {
    assert forall i :: 0 < i < |chain| ==> chain[1..][i - 1] == chain[i];
  }

  lemma NothingUnderValue(w: Val, p: ClaimPolicy, v: Val, lst: Lister)
    requires Governs(p, v)
    ensures CombineClaim(ValueOnly(w), p, lst).Err?
  {
    OperatorsOfSubset(Operand(p));
  }

  /* Metadata can as well be written at the end. */

  lemma {:induction false} MetadataLast(m: Metadata, chain: seq<Statement>, lst: Lister)
    requires MetadataFits(chain)
    ensures ApplyInTurn(m, chain, lst).Ok? <==> PoliciesInTurn(m, chain, lst).Ok?
    ensures ApplyInTurn(m, chain, lst).Ok? ==>
              ApplyInTurn(m, chain, lst).value == PoliciesInTurn(m, chain, lst).value + Union(chain)
    decreases |chain|
  {
    if chain == [] {
      assert m + map[] == m;
    } else {
      var s, rest := chain[0], chain[1..];
      FitsBelow(chain);
      RuleParts(m, s, lst);
      var next := ApplyPolicies(m, s.policy, lst);
      if next.Ok? {
        MetadataLast(next.value + s.metadata, rest, lst);
        PoliciesKeepMetadata(next.value, s.metadata, rest, lst);
        if PoliciesInTurn(next.value, rest, lst).Ok? {
          MapsAssociate(PoliciesInTurn(next.value, rest, lst).value, s.metadata, Union(rest));
        }
      }
    }
  }

  lemma MapsAssociate(a: Metadata, b: Metadata, c: Metadata)
    ensures (a + b) + c == a + (b + c)
  {
  }

  lemma FitsBelow(chain: seq<Statement>)
    requires chain != [] && MetadataFits(chain)
    ensures MetadataFits(chain[1..])
    ensures forall i :: 0 <= i < |chain[1..]| ==> Untouched(chain[0].metadata, chain[1..][i])
  {
    assert forall i :: 0 <= i < |chain[1..]| ==> chain[1..][i] == chain[i + 1];
  }

  lemma {:induction false} PoliciesKeepMetadata(m: Metadata, metadata: Metadata, chain: seq<Statement>, lst: Lister)
    requires forall i :: 0 <= i < |chain| ==> Untouched(metadata, chain[i])
    ensures PoliciesInTurn(m + metadata, chain, lst).Ok? <==> PoliciesInTurn(m, chain, lst).Ok?
    ensures PoliciesInTurn(m, chain, lst).Ok? ==>
              PoliciesInTurn(m + metadata, chain, lst).value == PoliciesInTurn(m, chain, lst).value + metadata
    decreases |chain|
  {
    if chain == [] {
    } else {
      assert Untouched(metadata, chain[0]);
      assert forall i :: 0 <= i < |chain[1..]| ==> chain[1..][i] == chain[i + 1];
      PolicyKeepsMetadata(m, metadata, chain[0].policy, lst);
      if ApplyPolicies(m, chain[0].policy, lst).Ok? {
        PoliciesKeepMetadata(ApplyPolicies(m, chain[0].policy, lst).value, metadata, chain[1..], lst);
      }
    }
  }

  lemma PolicyKeepsMetadata(m: Metadata, metadata: Metadata, policies: Policies, lst: Lister)
    requires forall k :: k in metadata ==> k !in policies
    ensures ApplyPolicies(m + metadata, policies, lst).Ok? <==> ApplyPolicies(m, policies, lst).Ok?
    ensures ApplyPolicies(m, policies, lst).Ok? ==>
              ApplyPolicies(m + metadata, policies, lst).value == ApplyPolicies(m, policies, lst).value + metadata
  {
    assert forall k :: k in policies ==> Lookup(m + metadata, k) == Lookup(m, k);
    if ApplyPolicies(m, policies, lst).Ok? {
      var out := ApplyPolicies(m, policies, lst).value + metadata;
      forall k
        ensures k in policies ==> ApplyClaim(Lookup(m + metadata, k), policies[k], lst) == Ok(Lookup(out, k))
        ensures k !in policies ==> Lookup(out, k) == Lookup(m + metadata, k)
      {
        AppliedLookup(m, policies, k, lst);
        if k in policies {
          assert ApplyClaim(Lookup(m, k), policies[k], lst).Ok?;
        }
      }
      forall k | k in out ensures k in (m + metadata).Keys + policies.Keys {
        AppliedLookup(m, policies, k, lst);
      }
      AppliedClaims(m + metadata, policies, out, lst);
    }
  }

  /* The policies, claim by claim. */

  // Each claim's policies can be merged along the chain.
  ghost predicate EachFolds(chain: seq<Statement>, lst: Lister) {
    forall k :: FoldClaim(None, chain, k, lst).Ok?
  }

  lemma GatherByClaim(chain: seq<Statement>, lst: Lister)
    requires chain != []
    ensures Gather(chain, lst).Ok? <==> PairwiseCompatible(chain, lst) && AllSeparate(chain[1..]) && EachFolds(chain, lst)
    ensures Gather(chain, lst).Ok? ==>
              && Gather(chain, lst).value.metadata == Union(chain)
              && forall k :: FoldClaim(None, chain, k, lst) == Ok(PolicyOf(Gather(chain, lst).value, k))
  {
    var first, rest := chain[0], chain[1..];
    assert chain == [first] + rest;
    GatherExact(first, rest, lst);
    forall k ensures FoldClaim(None, chain, k, lst) == FoldClaim(PolicyOf(first, k), rest, k, lst) {
      FoldFirst(chain, k, lst);
    }
    if AllFold(first, rest, lst) {
      forall k ensures FoldClaim(None, chain, k, lst).Ok? {
        assert FoldClaim(PolicyOf(first, k), rest, k, lst).Ok?;
      }
    }
    if EachFolds(chain, lst) {
      forall k ensures FoldClaim(PolicyOf(first, k), rest, k, lst).Ok? {
        assert FoldClaim(None, chain, k, lst).Ok?;
      }
    }
  }

  // Applying the gathered policies works claim by claim, and does what applying in turn does.
  lemma PoliciesByClaim(m: Metadata, chain: seq<Statement>, rule: Statement, lst: Lister)
    requires forall k :: FoldClaim(None, chain, k, lst) == Ok(PolicyOf(rule, k))
    requires forall k :: ByClaim(m, chain, k, lst)
    requires PoliciesInTurn(m, chain, lst).Ok? <==> forall k :: ClaimInTurn(Lookup(m, k), chain, k, lst).Ok?
    requires PoliciesInTurn(m, chain, lst).Ok? ==>
               forall k :: ClaimInTurn(Lookup(m, k), chain, k, lst) == Ok(Lookup(PoliciesInTurn(m, chain, lst).value, k))
    ensures ApplyPolicies(m, rule.policy, lst).Ok? <==> PoliciesInTurn(m, chain, lst).Ok?
    ensures PoliciesInTurn(m, chain, lst).Ok? ==> ApplyPolicies(m, rule.policy, lst) == PoliciesInTurn(m, chain, lst)
  {
    forall k ensures k in rule.policy ==> k in m
      ensures ClaimInTurn(Lookup(m, k), chain, k, lst).Ok? <==>
              (k in rule.policy ==> ApplyClaim(Lookup(m, k), rule.policy[k], lst).Ok?)
    {
      assert ByClaim(m, chain, k, lst);
      assert FoldClaim(None, chain, k, lst) == Ok(PolicyOf(rule, k));
    }
    if PoliciesInTurn(m, chain, lst).Ok? {
      var out := PoliciesInTurn(m, chain, lst).value;
      forall k
        ensures k in rule.policy ==> ApplyClaim(Lookup(m, k), rule.policy[k], lst) == Ok(Lookup(out, k))
        ensures k !in rule.policy ==> Lookup(out, k) == Lookup(m, k)
      {
        assert ByClaim(m, chain, k, lst);
        assert FoldClaim(None, chain, k, lst) == Ok(PolicyOf(rule, k));
        assert ClaimInTurn(Lookup(m, k), chain, k, lst) == Ok(Lookup(out, k));
      }
      forall k | k in out ensures k in m.Keys + rule.policy.Keys {
        assert Lookup(out, k).Some?;
      }
      AppliedClaims(m, rule.policy, out, lst);
    } else {
      var k :| ClaimInTurn(Lookup(m, k), chain, k, lst).Err?;
      assert k in rule.policy && ApplyClaim(Lookup(m, k), rule.policy[k], lst).Err?;
    }
  }

  lemma RuleParts(m: Metadata, rule: Statement, lst: Lister)
    ensures var applied := ApplyPolicies(m, rule.policy, lst);
            ApplyRule(m, rule, lst) == if applied.Err? then applied else Ok(applied.value + rule.metadata)
  {
    if rule.policy == map[] {
      assert Applicable(m, rule.policy, lst);
      assert Applied(m, rule.policy, lst) == m;
    }
  }

  lemma FoldFirst(chain: seq<Statement>, k: string, lst: Lister)
    requires chain != []
    ensures FoldClaim(None, chain, k, lst) == FoldClaim(PolicyOf(chain[0], k), chain[1..], k, lst)
  {
  }

  // What the theorem says about one claim.
  ghost predicate ByClaim(m: Metadata, chain: seq<Statement>, k: string, lst: Lister) {
    var merged, inTurn := FoldClaim(None, chain, k, lst), ClaimInTurn(Lookup(m, k), chain, k, lst);
    if k in m then MergedOutcome(m[k], merged, lst) == Outcome(inTurn) && (inTurn.Ok? ==> inTurn.value.Some?)
    else merged == Ok(None) && inTurn == Ok(None)
  }

  lemma OneClaim(m: Metadata, chain: seq<Statement>, k: string, lst: Lister)
    requires ValidLister(lst) && Governed(m, chain)
    ensures ByClaim(m, chain, k, lst)
  {
    if k in m {
      MergeIsInTurnFromNone(m[k], chain, k, lst);
      if ClaimInTurn(Lookup(m, k), chain, k, lst).Ok? {
        InTurnStaysPresent(m[k], chain, k, lst);
      }
    } else {
      Ungoverned(chain, k, lst);
    }
  }

  lemma {:induction false} Ungoverned(chain: seq<Statement>, k: string, lst: Lister)
    requires forall i :: 0 <= i < |chain| ==> k !in chain[i].policy
    ensures FoldClaim(None, chain, k, lst) == Ok(None) && ClaimInTurn(None, chain, k, lst) == Ok(None)
    decreases |chain|
  {
    if chain == [] {
    } else {
      Ungoverned(chain[1..], k, lst);
    }
  }
}
