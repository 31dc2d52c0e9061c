/** Subordinates only restrict; merging is applying in turn; applying settles. */
module PolicyTheorems {
  import opened Wrappers
  import opened Policy
  import opened PolicyChain
  import opened PolicyGathering

  /* What merging keeps of each policy. */

  ghost predicate Tightens(tight: Option<set<string>>, loose: Option<set<string>>) {
    loose.Some? ==> tight.Some? && tight.value <= loose.value
  }

  // c holds at least what p asks for. A value, once set, replaces everything else.
  ghost predicate Restricts(c: ClaimPolicy, p: ClaimPolicy) {
    && (p.value.Some? ==> c.value == p.value)
    && (c.value.None? ==>
          && Tightens(c.subsetOf, p.subsetOf)
          && Tightens(c.supersetOf, p.supersetOf)
          && Tightens(c.oneOf, p.oneOf)
          && (p.add.Some? ==> c.add.Some? && AsSet(p.add.value) <= AsSet(c.add.value))
          && (p.default_.Some? ==> c.default_ == p.default_)
          && (p.essential.Some? && p.essential.value ==> c.essential == Some(true)))
  }

  lemma CombineRestricts(a: ClaimPolicy, b: ClaimPolicy, lst: Lister)
    requires ValidLister(lst) && CombineClaim(a, b, lst).Ok?
    ensures Restricts(CombineClaim(a, b, lst).value, a) && Restricts(CombineClaim(a, b, lst).value, b)
  {
    if a.value.None? && a.add.Some? && b.add.Some? {
      assert Elements(lst(AsSet(a.add.value) + AsSet(b.add.value))) == AsSet(a.add.value) + AsSet(b.add.value);
    }
  }

  lemma RestrictsTransitive(c: ClaimPolicy, a: ClaimPolicy, p: ClaimPolicy)
    requires Restricts(c, a) && Restricts(a, p)
    ensures Restricts(c, p)
  {
  }

  lemma {:induction false} FoldRestricts(acc: Option<ClaimPolicy>, chain: seq<Statement>, claim: string, i: int, lst: Lister)
    requires ValidLister(lst) && FoldClaim(acc, chain, claim, lst).Ok?
    requires if i < 0 then acc.Some? else i < |chain| && claim in chain[i].policy
    ensures FoldClaim(acc, chain, claim, lst).value.Some?
    ensures Restricts(FoldClaim(acc, chain, claim, lst).value.value, if i < 0 then acc.value else chain[i].policy[claim])
    decreases |chain|
  {
    if chain == [] {
    } else {
      var p := PolicyOf(chain[0], claim);
      var rest := chain[1..];
      if p.None? {
        FoldRestricts(acc, rest, claim, if i < 0 then i else i - 1, lst);
      } else if acc.None? {
        FoldRestricts(p, rest, claim, i - 1, lst);
      } else {
        var c := CombineClaim(acc.value, p.value, lst).value;
        CombineRestricts(acc.value, p.value, lst);
        if i <= 0 {
          FoldRestricts(Some(c), rest, claim, -1, lst);
          RestrictsTransitive(FoldClaim(acc, chain, claim, lst).value.value, c, if i < 0 then acc.value else p.value);
        } else {
          FoldRestricts(Some(c), rest, claim, i - 1, lst);
        }
      }
    }
  }

  lemma GatherRestricts(chain: seq<Statement>, i: nat, claim: string, lst: Lister)
    requires ValidLister(lst) && Gather(chain, lst).Ok? && i < |chain| && claim in chain[i].policy
    ensures claim in Gather(chain, lst).value.policy
    ensures Restricts(Gather(chain, lst).value.policy[claim], chain[i].policy[claim])
  {
    GatherExact(chain[0], chain[1..], lst);
    FoldRestricts(PolicyOf(chain[0], claim), chain[1..], claim, i - 1, lst);
  }

  // The elements that pass are among the ones allowed, and are tried in order.
  lemma {:induction false} AmongAllowed(xs: seq<string>, s: set<string>)
    ensures Elements(Among(xs, s)) == Elements(xs) * s
    decreases |xs|
  {
    if xs == [] {
    } else {
      AmongAllowed(xs[1..], s);
      assert xs == [xs[0]] + xs[1..];
      assert Elements(xs) == {xs[0]} + Elements(xs[1..]);
      assert Elements(Among(xs, s)) == (if xs[0] in s then {xs[0]} else {}) + Elements(Among(xs[1..], s));
    }
  }

  // The final value w of a claim under merged policy c honours one statement's policy p.
  ghost predicate Honours(w: Val, c: ClaimPolicy, p: ClaimPolicy) {
    && (c.value.Some? ==> w == c.value.value)
    && (p.value.Some? ==> w == p.value.value)
    && (c.value.None? && p.oneOf.Some? ==> w.One? && w.s in p.oneOf.value)
    && (c.value.None? && c.oneOf.None? && p.subsetOf.Some? ==>
          w.Many? && AsSet(w) <= p.subsetOf.value && AsSet(w) != {})
    && (c.value.None? && c.oneOf.None? && c.supersetOf.Some? ==> c.supersetOf.value <= PySet(w))
  }

  /**
   Subordinates only restrict. After a successful gathering and application, for every
   statement of the chain and every claim present in the metadata that it governs: a value it
   gives is the final value; otherwise, unless some statement gave a value, its one_of is
   respected, and where no one_of governs, so are its subset_of and the merged superset_of.
   */
  lemma SubordinatesOnlyRestrict(chain: seq<Statement>, m: Metadata, i: nat, claim: string, lst: Lister)
    requires ValidLister(lst) && Gather(chain, lst).Ok?
    requires ApplyPolicies(m, Gather(chain, lst).value.policy, lst).Ok?
    requires i < |chain| && claim in chain[i].policy && claim in m
    ensures claim in Gather(chain, lst).value.policy
    ensures claim in ApplyPolicies(m, Gather(chain, lst).value.policy, lst).value
    ensures Honours(ApplyPolicies(m, Gather(chain, lst).value.policy, lst).value[claim],
                    Gather(chain, lst).value.policy[claim], chain[i].policy[claim])
  {
    GatherRestricts(chain, i, claim, lst);
    AppliedClaim(m, Gather(chain, lst).value.policy, claim, lst);
    PresentMeets(m[claim], Gather(chain, lst).value.policy[claim], lst);
  }

  lemma AppliedClaim(m: Metadata, policies: Policies, claim: string, lst: Lister)
    requires ApplyPolicies(m, policies, lst).Ok? && claim in m && claim in policies
    ensures ApplyPresent(m[claim], policies[claim], lst).Ok?
    ensures Lookup(ApplyPolicies(m, policies, lst).value, claim) == Some(ApplyPresent(m[claim], policies[claim], lst).value)
  {
    assert ApplyClaim(Lookup(m, claim), policies[claim], lst).Ok?;
  }

  lemma PresentMeets(v: Val, c: ClaimPolicy, lst: Lister)
    requires ValidLister(lst) && ApplyPresent(v, c, lst).Ok?
    ensures Honours(ApplyPresent(v, c, lst).value, c, c)
  {
    if c.value.Some? {
    } else if c.oneOf.Some? {
      if v.Many? {
        AmongAllowed(v.xs, c.oneOf.value);
        assert Among(v.xs, c.oneOf.value)[0] in Elements(Among(v.xs, c.oneOf.value));
      }
    } else {
      var added := if c.add.Some? then Many(lst(AsSet(v) + AsSet(c.add.value))) else v;
      var kept := if c.subsetOf.Some? then Many(lst(c.subsetOf.value * PySet(added))) else added;
      if c.subsetOf.Some? {
        assert Elements(lst(c.subsetOf.value * PySet(added))) == c.subsetOf.value * PySet(added);
      }
      if c.supersetOf.Some? {
        forall x | x in c.supersetOf.value ensures x in PySet(kept) {
          assert x !in c.supersetOf.value - PySet(kept);
        }
      }
    }
  }

  lemma DifferenceEmpty(s: set<string>, t: set<string>)
    ensures s - t == {} <==> s <= t
  {
    if s - t == {} {
      forall x | x in s ensures x in t {
        assert x !in s - t;
      }
    }
  }

  // The operator sets merge to exactly their intersection.
  ghost predicate IsMeet(o: Option<set<string>>, os: seq<Option<set<string>>>) {
    && (o.Some? <==> exists i :: 0 <= i < |os| && os[i].Some?)
    && (o.Some? ==> forall x :: x in o.value <==> forall i :: 0 <= i < |os| && os[i].Some? ==> x in os[i].value)
  }

  lemma MeetSnoc(o: Option<set<string>>, os: seq<Option<set<string>>>, q: Option<set<string>>)
    requires IsMeet(o, os) && DoIntersect(o, q).Ok?
    ensures IsMeet(DoIntersect(o, q).value, os + [q])
  {
    var r, all := DoIntersect(o, q).value, os + [q];
    assert forall i :: 0 <= i < |os| ==> all[i] == os[i];
    assert all[|os|] == q;
    if o.Some? {
      var i :| 0 <= i < |os| && os[i].Some?;
      assert all[i].Some?;
    }
    if r.Some? {
      forall x ensures x in r.value <==> forall i :: 0 <= i < |all| && all[i].Some? ==> x in all[i].value {
        if x in r.value {
          forall i | 0 <= i < |all| && all[i].Some? ensures x in all[i].value {
            if i < |os| {
              assert os[i].Some?;
            }
          }
        }
        if forall i :: 0 <= i < |all| && all[i].Some? ==> x in all[i].value {
          forall i | 0 <= i < |os| && os[i].Some? ensures x in os[i].value {
            assert all[i].Some?;
          }
          if q.Some? {
            assert all[|os|].Some?;
          }
        }
      }
    }
  }

  function Subsets(ps: seq<ClaimPolicy>): seq<Option<set<string>>> {
    seq(|ps|, i requires 0 <= i < |ps| => ps[i].subsetOf)
  }

  function Supersets(ps: seq<ClaimPolicy>): seq<Option<set<string>>> {
    seq(|ps|, i requires 0 <= i < |ps| => ps[i].supersetOf)
  }

  function OneOfs(ps: seq<ClaimPolicy>): seq<Option<set<string>>> {
    seq(|ps|, i requires 0 <= i < |ps| => ps[i].oneOf)
  }

  // The policies of one claim along a chain.
  function Governing(chain: seq<Statement>, claim: string): seq<ClaimPolicy> {
    if chain == [] then []
    else (if claim in chain[0].policy then [chain[0].policy[claim]] else []) + Governing(chain[1..], claim)
  }

  ghost predicate MeetsOf(c: ClaimPolicy, ps: seq<ClaimPolicy>) {
    IsMeet(c.subsetOf, Subsets(ps)) && IsMeet(c.supersetOf, Supersets(ps)) && IsMeet(c.oneOf, OneOfs(ps))
  }

  lemma MeetsOne(p: ClaimPolicy)
    ensures MeetsOf(p, [p])
  {
    assert Subsets([p]) == [p.subsetOf] && Supersets([p]) == [p.supersetOf] && OneOfs([p]) == [p.oneOf];
    MeetSingle(p.subsetOf);
    MeetSingle(p.supersetOf);
    MeetSingle(p.oneOf);
  }

  lemma MeetSingle(o: Option<set<string>>)
    ensures IsMeet(o, [o])
  {
    assert [o][0] == o;
    if o.Some? {
      forall x ensures x in o.value <==> forall i :: 0 <= i < |[o]| && [o][i].Some? ==> x in [o][i].value {
        if forall i :: 0 <= i < |[o]| && [o][i].Some? ==> x in [o][i].value {
          assert [o][0].Some?;
        }
      }
    }
  }

  lemma MeetsCombine(a: ClaimPolicy, ps: seq<ClaimPolicy>, p: ClaimPolicy, lst: Lister)
    requires MeetsOf(a, ps) && CombineClaim(a, p, lst).Ok? && a.value.None?
    ensures MeetsOf(CombineClaim(a, p, lst).value, ps + [p])
  {
    assert Subsets(ps + [p]) == Subsets(ps) + [p.subsetOf];
    assert Supersets(ps + [p]) == Supersets(ps) + [p.supersetOf];
    assert OneOfs(ps + [p]) == OneOfs(ps) + [p.oneOf];
    MeetSnoc(a.subsetOf, Subsets(ps), p.subsetOf);
    MeetSnoc(a.supersetOf, Supersets(ps), p.supersetOf);
    MeetSnoc(a.oneOf, OneOfs(ps), p.oneOf);
  }

  /**
   Where no value is given, the merged subset_of, superset_of and one_of of a claim are exactly
   the intersections of the operands along the chain. For superset_of this loosens: the merged
   operand asks for no more than what every statement asks for.
   */
  lemma {:induction false} FoldIsMeet(acc: Option<ClaimPolicy>, ps: seq<ClaimPolicy>, chain: seq<Statement>,
                                      claim: string, lst: Lister)
    requires ValidLister(lst) && FoldClaim(acc, chain, claim, lst).Ok?
    requires if acc.Some? then MeetsOf(acc.value, ps) else ps == []
    requires FoldClaim(acc, chain, claim, lst).value.Some? && FoldClaim(acc, chain, claim, lst).value.value.value.None?
    ensures MeetsOf(FoldClaim(acc, chain, claim, lst).value.value, ps + Governing(chain, claim))
    decreases |chain|
  {
    if chain == [] {
      assert ps + [] == ps;
    } else if claim !in chain[0].policy {
      FoldIsMeet(acc, ps, chain[1..], claim, lst);
      assert [] + Governing(chain[1..], claim) == Governing(chain[1..], claim);
    } else {
      var p := chain[0].policy[claim];
      GoverningStep(ps, chain, claim);
      if acc.None? {
        MeetsOne(p);
        FoldIsMeet(Some(p), ps + [p], chain[1..], claim, lst);
      } else {
        FoldRestricts(acc, chain, claim, -1, lst);
        MeetsCombine(acc.value, ps, p, lst);
        FoldIsMeet(Some(CombineClaim(acc.value, p, lst).value), ps + [p], chain[1..], claim, lst);
      }
    }
  }

  lemma GoverningStep(ps: seq<ClaimPolicy>, chain: seq<Statement>, claim: string)
    requires chain != [] && claim in chain[0].policy
    ensures ps + [chain[0].policy[claim]] + Governing(chain[1..], claim) == ps + Governing(chain, claim)
    ensures ps == [] ==> ps + [chain[0].policy[claim]] == [chain[0].policy[claim]]
  {
  }

  lemma GatheredOperandsAreMeets(chain: seq<Statement>, claim: string, lst: Lister)
    requires ValidLister(lst) && Gather(chain, lst).Ok?
    requires claim in Gather(chain, lst).value.policy && Gather(chain, lst).value.policy[claim].value.None?
    ensures MeetsOf(Gather(chain, lst).value.policy[claim], Governing(chain, claim))
  {
    var first, rest := PolicyOf(chain[0], claim), chain[1..];
    GatherExact(chain[0], rest, lst);
    assert FoldClaim(first, rest, claim, lst) == Ok(PolicyOf(Gather(chain, lst).value, claim));
    var ps := if first.Some? then [first.value] else [];
    if first.Some? {
      MeetsOne(first.value);
    }
    FoldIsMeet(first, ps, rest, claim, lst);
  }

  /**
   The exception: a value given below other operators is taken unchecked, so the final value
   meets the superior's subset_of iff the subordinate chose to.
   */
  lemma ChildValueIsUnchecked(claim: string, s: set<string>, v: Val, w: Val, lst: Lister)
    ensures var chain := [Statement(map[], map[claim := NO_POLICY.(subsetOf := Some(s))]),
                          Statement(map[], map[claim := NO_POLICY.(value := Some(w))])];
            && Gather(chain, lst).Ok?
            && ApplyRule(map[claim := v], Gather(chain, lst).value, lst) == Ok(map[claim := w])
  {
    var sup, sub := NO_POLICY.(subsetOf := Some(s)), NO_POLICY.(value := Some(w));
    var first, second := Statement(map[], map[claim := sup]), Statement(map[], map[claim := sub]);
    var c := sup.(value := Some(w));
    assert Has(c, Value);
    assert Value in Operators(c);
    assert CombineClaim(sup, sub, lst) == Ok(c);
    assert [first, second][1..] == [second];
    assert MergedPolicy(first.policy, second.policy, lst) == map[claim := c];
    assert CombineRules(first, second, lst) == Ok(Statement(map[], map[claim := c]));
    assert second.policy[claim] == sub && second != EMPTY by {
      assert claim in second.policy && claim !in EMPTY.policy;
    }
    assert GatherFrom(first, [second], lst) == Ok(Statement(map[], map[claim := c]));
    var m := map[claim := v];
    ValueWins(claim, v, c, w, lst);
  }

  lemma ValueWins(claim: string, v: Val, c: ClaimPolicy, w: Val, lst: Lister)
    requires c.value == Some(w)
    ensures ApplyRule(map[claim := v], Statement(map[], map[claim := c]), lst) == Ok(map[claim := w])
  {
    var m, policies := map[claim := v], map[claim := c];
    assert claim in policies && policies != map[];
    assert ApplyClaim(Lookup(m, claim), policies[claim], lst) == Ok(Some(w));
    AppliedClaims(m, policies, map[claim := w], lst);
    assert map[claim := w] + map[] == map[claim := w];
  }

  /* What the gathered metadata, written over everything at the end, makes of this. */

  // Each statement that sets the claim sets it to that value.
  ghost predicate SetOnlyTo(chain: seq<Statement>, claim: string, v: Option<Val>) {
    forall i :: 0 <= i < |chain| && claim in chain[i].metadata ==> v == Some(chain[i].metadata[claim])
  }

  /**
   The final value of a claim, exactly: it is what the policies made of it iff every statement
   that sets the claim as metadata sets it to just that; otherwise it is what they set.
   */
  lemma FinalValueExact(chain: seq<Statement>, m: Metadata, claim: string, lst: Lister)
    requires Gather(chain, lst).Ok? && ApplyPolicies(m, Gather(chain, lst).value.policy, lst).Ok?
    ensures ApplyRule(m, Gather(chain, lst).value, lst).Ok?
    ensures var applied := ApplyPolicies(m, Gather(chain, lst).value.policy, lst).value;
            var final := ApplyRule(m, Gather(chain, lst).value, lst).value;
            && (Lookup(final, claim) == Lookup(applied, claim) <==> SetOnlyTo(chain, claim, Lookup(applied, claim)))
            && (forall i :: 0 <= i < |chain| && claim in chain[i].metadata ==>
                  Lookup(final, claim) == Some(chain[i].metadata[claim]))
  {
    GatheredMetadataIsFinal(chain, m, lst);
    var rule := Gather(chain, lst).value;
    if claim in rule.metadata {
      MetadataHasSource(chain, claim, lst);
    }
  }

  lemma MetadataHasSource(chain: seq<Statement>, claim: string, lst: Lister)
    requires Gather(chain, lst).Ok? && claim in Gather(chain, lst).value.metadata
    ensures exists i :: 0 <= i < |chain| && claim in chain[i].metadata
  {
    GatherExact(chain[0], chain[1..], lst);
    if claim !in chain[0].metadata {
      var i := UnionSource(chain[1..], claim);
      assert claim in chain[i + 1].metadata;
    }
  }

  /**
   Subordinates only restrict, for the metadata that is returned: a statement's policy is
   honoured by the final value of a present claim iff it is honoured by every value that some
   statement of the chain sets for the claim.
   */
  lemma FinalRestrictionExact(chain: seq<Statement>, m: Metadata, i: nat, claim: string, lst: Lister)
    requires ValidLister(lst) && Gather(chain, lst).Ok?
    requires ApplyPolicies(m, Gather(chain, lst).value.policy, lst).Ok?
    requires i < |chain| && claim in chain[i].policy && claim in m
    ensures claim in Gather(chain, lst).value.policy
    ensures var c := Gather(chain, lst).value.policy[claim];
            var final := ApplyRule(m, Gather(chain, lst).value, lst).value;
            && claim in final
            && (Honours(final[claim], c, chain[i].policy[claim]) <==>
                forall j :: 0 <= j < |chain| && claim in chain[j].metadata ==>
                  Honours(chain[j].metadata[claim], c, chain[i].policy[claim]))
  {
    SubordinatesOnlyRestrict(chain, m, i, claim, lst);
    FinalValueExact(chain, m, claim, lst);
    if j :| 0 <= j < |chain| && claim in chain[j].metadata {
      assert Lookup(ApplyRule(m, Gather(chain, lst).value, lst).value, claim) == Some(chain[j].metadata[claim]);
    } else {
      assert SetOnlyTo(chain, claim, Lookup(ApplyPolicies(m, Gather(chain, lst).value.policy, lst).value, claim));
    }
  }

  /**
   The exception again: whatever a superior's policy says about a claim, a subordinate that sets
   the claim as metadata has the last word.
   */
  lemma MetadataOverridesPolicy(claim: string, p: ClaimPolicy, v: Val, w: Val, lst: Lister)
    requires ApplyPresent(v, p, lst).Ok?
    ensures var chain := [Statement(map[], map[claim := p]), Statement(map[claim := w], map[])];
            && Gather(chain, lst).Ok?
            && ApplyRule(map[claim := v], Gather(chain, lst).value, lst) == Ok(map[claim := w])
  {
    var sup, sub := Statement(map[], map[claim := p]), Statement(map[claim := w], map[]);
    assert [sup, sub][1..] == [sub];
    assert MergedPolicy(sup.policy, sub.policy, lst) == map[claim := p];
    assert sup.metadata + sub.metadata == map[claim := w];
    assert CombineRules(sup, sub, lst) == Ok(Statement(map[claim := w], map[claim := p]));
    assert sub != EMPTY by {
      assert claim in sub.metadata && claim !in EMPTY.metadata;
    }
    assert NoOverlap(sub);
    assert GatherFrom(sup, [sub], lst) == Ok(Statement(map[claim := w], map[claim := p]));
    OverwrittenByMetadata(claim, p, v, w, lst);
  }

  lemma OverwrittenByMetadata(claim: string, p: ClaimPolicy, v: Val, w: Val, lst: Lister)
    requires ApplyPresent(v, p, lst).Ok?
    ensures ApplyRule(map[claim := v], Statement(map[claim := w], map[claim := p]), lst) == Ok(map[claim := w])
  {
    var m, policies := map[claim := v], map[claim := p];
    var x := ApplyPresent(v, p, lst).value;
    assert claim in policies && policies != map[];
    assert ApplyClaim(Lookup(m, claim), policies[claim], lst) == Ok(Some(x));
    AppliedClaims(m, policies, map[claim := x], lst);
    assert map[claim := x] + map[claim := w] == map[claim := w];
  }
}
