/** When gathering a chain succeeds, and what it gathers. */
module PolicyGathering {
  import opened Wrappers
  import opened Policy
  import opened PolicyChain

  function PolicyOf(s: Statement, claim: string): Option<ClaimPolicy> {
    if claim in s.policy then Some(s.policy[claim]) else None
  }

  // The policies of one claim, merged from the top down.
  function FoldClaim(acc: Option<ClaimPolicy>, chain: seq<Statement>, claim: string, lst: Lister)
    : Result<Option<ClaimPolicy>, PolicyError>
    decreases |chain|
  {
    if chain == [] then Ok(acc)
    else
      match (acc, PolicyOf(chain[0], claim))
      case (_, None) => FoldClaim(acc, chain[1..], claim, lst)
      case (None, Some(p)) => FoldClaim(Some(p), chain[1..], claim, lst)
      case (Some(a), Some(p)) =>
        match CombineClaim(a, p, lst)
        case Err(e) => Err(e)
        case Ok(c) => FoldClaim(Some(c), chain[1..], claim, lst)
  }

  // y is below x: they agree on metadata, and y's policies respect the values x has fixed.
  ghost predicate Compatible(x: Statement, y: Statement, lst: Lister) {
    MetadataAgree(x, y) && RespectsMetadata(x, y, lst)
  }

  ghost predicate PairwiseCompatible(all: seq<Statement>, lst: Lister) {
    forall i, j :: 0 <= i < j < |all| ==> Compatible(all[i], all[j], lst)
  }

  ghost predicate AllSeparate(chain: seq<Statement>) {
    forall i :: 0 <= i < |chain| ==> NoOverlap(chain[i])
  }

  ghost predicate AllFold(rule: Statement, chain: seq<Statement>, lst: Lister) {
    forall claim :: FoldClaim(PolicyOf(rule, claim), chain, claim, lst).Ok?
  }

  // The metadata of a chain; where statements disagree, the lower one counts.
  function Union(all: seq<Statement>): Metadata {
    if all == [] then map[] else all[0].metadata + Union(all[1..])
  }

  ghost predicate GathersTo(rule: Statement, chain: seq<Statement>, out: Statement, lst: Lister) {
    && out.metadata == rule.metadata + Union(chain)
    && (forall claim :: FoldClaim(PolicyOf(rule, claim), chain, claim, lst) == Ok(PolicyOf(out, claim)))
  }

  lemma MergeCompatible(x: Statement, s: Statement, z: Statement, y: Statement, lst: Lister)
    requires Compatible(x, s, lst) && z.metadata == x.metadata + s.metadata
    ensures Compatible(z, y, lst) <==> Compatible(x, y, lst) && Compatible(s, y, lst)
  {
    assert forall k :: k in s.metadata ==> z.metadata[k] == s.metadata[k];
    assert forall k :: k in x.metadata ==> k in z.metadata && z.metadata[k] == x.metadata[k];
  }

  ghost predicate AllBelow(x: Statement, rest: seq<Statement>, lst: Lister) {
    forall j :: 0 <= j < |rest| ==> Compatible(x, rest[j], lst)
  }

  lemma PairwiseCons(x: Statement, rest: seq<Statement>, lst: Lister)
    ensures PairwiseCompatible([x] + rest, lst) <==> AllBelow(x, rest, lst) && PairwiseCompatible(rest, lst)
  {
    var all := [x] + rest;
    assert all[0] == x && forall j :: 0 <= j < |rest| ==> all[j + 1] == rest[j];
    if PairwiseCompatible(all, lst) {
      forall j | 0 <= j < |rest| ensures Compatible(x, rest[j], lst) {
        assert Compatible(all[0], all[j + 1], lst);
      }
      forall i, j | 0 <= i < j < |rest| ensures Compatible(rest[i], rest[j], lst) {
        assert Compatible(all[i + 1], all[j + 1], lst);
      }
    }
    if AllBelow(x, rest, lst) && PairwiseCompatible(rest, lst) {
      forall i, j | 0 <= i < j < |all| ensures Compatible(all[i], all[j], lst) {
        assert Compatible(x, rest[j - 1], lst);
        assert i > 0 ==> Compatible(rest[i - 1], rest[j - 1], lst);
      }
    }
  }

  lemma BelowCons(x: Statement, s: Statement, rest: seq<Statement>, lst: Lister)
    ensures AllBelow(x, [s] + rest, lst) <==> Compatible(x, s, lst) && AllBelow(x, rest, lst)
  {
    var all := [s] + rest;
    assert all[0] == s && forall j :: 0 <= j < |rest| ==> all[j + 1] == rest[j];
    if AllBelow(x, all, lst) {
      forall j | 0 <= j < |rest| ensures Compatible(x, rest[j], lst) {
        assert Compatible(x, all[j + 1], lst);
      }
      assert Compatible(x, all[0], lst);
    }
    if Compatible(x, s, lst) && AllBelow(x, rest, lst) {
      forall j | 0 <= j < |all| ensures Compatible(x, all[j], lst) {
        assert j > 0 ==> Compatible(x, rest[j - 1], lst);
      }
    }
  }

  lemma BelowMerged(x: Statement, s: Statement, z: Statement, rest: seq<Statement>, lst: Lister)
    requires Compatible(x, s, lst) && z.metadata == x.metadata + s.metadata
    ensures AllBelow(z, rest, lst) <==> AllBelow(x, rest, lst) && AllBelow(s, rest, lst)
  {
    forall j | 0 <= j < |rest|
      ensures Compatible(z, rest[j], lst) <==> Compatible(x, rest[j], lst) && Compatible(s, rest[j], lst)
    {
      MergeCompatible(x, s, z, rest[j], lst);
    }
  }

  lemma PairwiseStep(x: Statement, s: Statement, z: Statement, rest: seq<Statement>, lst: Lister)
    requires Compatible(x, s, lst) && z.metadata == x.metadata + s.metadata
    ensures PairwiseCompatible([x] + ([s] + rest), lst) <==> PairwiseCompatible([z] + rest, lst)
  {
    PairwiseCons(x, [s] + rest, lst);
    PairwiseCons(s, rest, lst);
    PairwiseCons(z, rest, lst);
    BelowCons(x, s, rest, lst);
    BelowMerged(x, s, z, rest, lst);
  }

  lemma FirstPair(x: Statement, s: Statement, rest: seq<Statement>, lst: Lister)
    requires PairwiseCompatible([x] + ([s] + rest), lst)
    ensures Compatible(x, s, lst)
  {
    var all := [x] + ([s] + rest);
    assert Compatible(all[0], all[1], lst);
  }

  lemma FoldStep(x: Statement, s: Statement, rest: seq<Statement>, claim: string, lst: Lister)
    ensures var f := FoldClaim(PolicyOf(x, claim), [s] + rest, claim, lst);
            && (f.Ok? && claim in x.policy && claim in s.policy ==> CombineClaim(x.policy[claim], s.policy[claim], lst).Ok?)
            && (PoliciesCombine(x, s, lst) ==>
                  f == FoldClaim(PolicyOf(Statement(x.metadata, MergedPolicy(x.policy, s.policy, lst)), claim), rest, claim, lst))
  {
    assert ([s] + rest)[1..] == rest;
  }

  lemma AllFoldStep(x: Statement, s: Statement, rest: seq<Statement>, lst: Lister)
    ensures AllFold(x, [s] + rest, lst) <==>
            PoliciesCombine(x, s, lst)
            && AllFold(Statement(x.metadata + s.metadata, MergedPolicy(x.policy, s.policy, lst)), rest, lst)
  {
    forall claim {
      FoldStep(x, s, rest, claim, lst);
    }
    if AllFold(x, [s] + rest, lst) {
      forall k | k in x.policy && k in s.policy ensures CombineClaim(x.policy[k], s.policy[k], lst).Ok? {
        assert FoldClaim(PolicyOf(x, k), [s] + rest, k, lst).Ok?;
      }
      var z := Statement(x.metadata + s.metadata, MergedPolicy(x.policy, s.policy, lst));
      forall claim ensures FoldClaim(PolicyOf(z, claim), rest, claim, lst).Ok? {
        assert FoldClaim(PolicyOf(x, claim), [s] + rest, claim, lst).Ok?;
      }
    }
    if PoliciesCombine(x, s, lst)
       && AllFold(Statement(x.metadata + s.metadata, MergedPolicy(x.policy, s.policy, lst)), rest, lst) {
      var z := Statement(x.metadata + s.metadata, MergedPolicy(x.policy, s.policy, lst));
      forall claim ensures FoldClaim(PolicyOf(x, claim), [s] + rest, claim, lst).Ok? {
        assert FoldClaim(PolicyOf(z, claim), rest, claim, lst).Ok?;
      }
    }
  }

  // Skipping an empty statement is the same as merging it.
  lemma GatherStep(x: Statement, s: Statement, rest: seq<Statement>, lst: Lister)
    ensures GatherFrom(x, [s] + rest, lst) ==
            if !NoOverlap(s) || CombineRules(x, s, lst).Err? then Err(PolicyError)
            else GatherFrom(CombineRules(x, s, lst).value, rest, lst)
  {
    assert ([s] + rest)[1..] == rest;
    if s == EMPTY {
      assert x.metadata + s.metadata == x.metadata;
      assert MergedPolicy(x.policy, s.policy, lst) == x.policy;
      assert CombineRules(x, s, lst) == Ok(x);
    }
  }

  /**
   Gathering succeeds exactly when: any two statements agree on the metadata they both set;
   no statement's policy contradicts a value fixed above it; no statement below the first has
   a claim in both parts; and each claim's policies can be merged, claim by claim. It then
   gathers the union of all metadata and each claim's merged policy.
   */
  lemma {:induction false} GatherExact(rule: Statement, chain: seq<Statement>, lst: Lister)
    ensures GatherFrom(rule, chain, lst).Ok? <==>
            PairwiseCompatible([rule] + chain, lst) && AllSeparate(chain) && AllFold(rule, chain, lst)
    ensures GatherFrom(rule, chain, lst).Ok? ==> GathersTo(rule, chain, GatherFrom(rule, chain, lst).value, lst)
    decreases |chain|
  {
    if chain == [] {
      assert [rule] + chain == [rule];
      assert rule.metadata + map[] == rule.metadata;
    } else {
      var s, rest := chain[0], chain[1..];
      assert chain == [s] + rest;
      GatherStep(rule, s, rest, lst);
      AllFoldStep(rule, s, rest, lst);
      assert AllSeparate(chain) <==> NoOverlap(s) && AllSeparate(rest) by {
        SeparateStep(s, rest);
      }
      if PairwiseCompatible([rule] + chain, lst) {
        FirstPair(rule, s, rest, lst);
      }
      if Compatible(rule, s, lst) && PoliciesCombine(rule, s, lst) {
        var z := CombineRules(rule, s, lst).value;
        PairwiseStep(rule, s, z, rest, lst);
        GatherExact(z, rest, lst);
        if GatherFrom(z, rest, lst).Ok? {
          GathersToStep(rule, s, z, rest, GatherFrom(z, rest, lst).value, lst);
        }
      }
    }
  }

  lemma SeparateStep(s: Statement, rest: seq<Statement>)
    ensures AllSeparate([s] + rest) <==> NoOverlap(s) && AllSeparate(rest)
  {
    var all := [s] + rest;
    assert all[0] == s;
    assert forall i :: 0 <= i < |rest| ==> all[i + 1] == rest[i];
    if NoOverlap(s) && AllSeparate(rest) {
      forall i | 0 <= i < |all| ensures NoOverlap(all[i]) {
        assert i > 0 ==> all[i] == rest[i - 1];
      }
    }
  }

  lemma GathersToStep(x: Statement, s: Statement, z: Statement, rest: seq<Statement>, out: Statement, lst: Lister)
    requires CombineRules(x, s, lst) == Ok(z) && GathersTo(z, rest, out, lst)
    ensures GathersTo(x, [s] + rest, out, lst)
  {
    assert ([s] + rest)[1..] == rest;
    assert (x.metadata + s.metadata) + Union(rest) == x.metadata + (s.metadata + Union(rest));
    forall claim ensures FoldClaim(PolicyOf(x, claim), [s] + rest, claim, lst) == Ok(PolicyOf(out, claim)) {
      GathersClaim(x, s, z, rest, claim, lst);
    }
  }

  lemma GathersClaim(x: Statement, s: Statement, z: Statement, rest: seq<Statement>, claim: string, lst: Lister)
    requires CombineRules(x, s, lst) == Ok(z)
    ensures FoldClaim(PolicyOf(x, claim), [s] + rest, claim, lst) == FoldClaim(PolicyOf(z, claim), rest, claim, lst)
  {
    FoldStep(x, s, rest, claim, lst);
    assert PolicyOf(Statement(x.metadata, MergedPolicy(x.policy, s.policy, lst)), claim) == PolicyOf(z, claim);
  }

  lemma {:induction false} UnionAgrees(all: seq<Statement>, i: nat, k: string, lst: Lister)
    requires PairwiseCompatible(all, lst) && i < |all| && k in all[i].metadata
    ensures k in Union(all) && Union(all)[k] == all[i].metadata[k]
    decreases |all|
  {
    var rest := all[1..];
    assert all == [all[0]] + rest;
    PairwiseCons(all[0], rest, lst);
    if i > 0 {
      UnionAgrees(rest, i - 1, k, lst);
    } else if k in Union(rest) {
      var j := UnionSource(rest, k);
      UnionAgrees(rest, j, k, lst);
      assert Compatible(all[0], rest[j], lst);
    }
  }

  lemma {:induction false} UnionSource(all: seq<Statement>, k: string) returns (i: nat)
    requires k in Union(all)
    ensures i < |all| && k in all[i].metadata
    decreases |all|
  {
    if k in all[0].metadata {
      i := 0;
    } else {
      var j := UnionSource(all[1..], k);
      i := j + 1;
    }
  }

  lemma {:induction false} FoldPresence(acc: Option<ClaimPolicy>, chain: seq<Statement>, claim: string, lst: Lister)
    requires FoldClaim(acc, chain, claim, lst).Ok?
    ensures FoldClaim(acc, chain, claim, lst).value.Some? <==>
            acc.Some? || exists i :: 0 <= i < |chain| && claim in chain[i].policy
    decreases |chain|
  {
    if chain == [] {
    } else {
      var rest := chain[1..];
      assert forall i :: 0 <= i < |rest| ==> rest[i] == chain[i + 1];
      var next := if claim !in chain[0].policy then acc
                  else if acc.None? then Some(chain[0].policy[claim])
                  else Some(CombineClaim(acc.value, chain[0].policy[claim], lst).value);
      FoldPresence(next, rest, claim, lst);
      if i :| 0 <= i < |rest| && claim in rest[i].policy {
        assert claim in chain[i + 1].policy;
      }
      if i :| 0 <= i < |chain| && claim in chain[i].policy {
        assert i > 0 ==> claim in rest[i - 1].policy;
      }
    }
  }

  /**
   What a chain's gathering says about the final metadata: if it succeeds, any two statements
   agree, every statement's metadata entry is the gathered and the final one, and the claims
   under policy are exactly those of the statements.
   */
  lemma GatheredMetadataIsFinal(chain: seq<Statement>, m: Metadata, lst: Lister)
    requires Gather(chain, lst).Ok?
    ensures forall i, j, k :: 0 <= i < |chain| && 0 <= j < |chain| && k in chain[i].metadata && k in chain[j].metadata ==>
              chain[i].metadata[k] == chain[j].metadata[k]
    ensures forall i, k :: 0 <= i < |chain| && k in chain[i].metadata ==>
              && k in Gather(chain, lst).value.metadata
              && Gather(chain, lst).value.metadata[k] == chain[i].metadata[k]
              && (ApplyRule(m, Gather(chain, lst).value, lst).Ok? ==>
                    Lookup(ApplyRule(m, Gather(chain, lst).value, lst).value, k) == Some(chain[i].metadata[k]))
    ensures forall claim :: claim in Gather(chain, lst).value.policy <==>
              exists i :: 0 <= i < |chain| && claim in chain[i].policy
  {
    var rule := Gather(chain, lst).value;
    var rest := chain[1..];
    assert chain == [chain[0]] + rest;
    GatherExact(chain[0], rest, lst);
    forall i, k | 0 <= i < |chain| && k in chain[i].metadata
      ensures k in rule.metadata && rule.metadata[k] == chain[i].metadata[k]
    {
      UnionAgrees(chain, i, k, lst);
    }
    forall claim
      ensures claim in rule.policy <==> exists i :: 0 <= i < |chain| && claim in chain[i].policy
    {
      GatheredClaims(chain, claim, lst);
    }
  }

  lemma GatheredClaims(chain: seq<Statement>, claim: string, lst: Lister)
    requires Gather(chain, lst).Ok?
    ensures claim in Gather(chain, lst).value.policy <==> exists i :: 0 <= i < |chain| && claim in chain[i].policy
  {
    var rest := chain[1..];
    GatherExact(chain[0], rest, lst);
    FoldPresence(PolicyOf(chain[0], claim), rest, claim, lst);
    if i :| 0 <= i < |rest| && claim in rest[i].policy {
      assert claim in chain[i + 1].policy;
    }
    if i :| 0 <= i < |chain| && claim in chain[i].policy {
      assert i > 0 ==> claim in rest[i - 1].policy;
    }
  }
}
