/** Applying a policy a second time changes nothing, exactly when the policy's own values fit it. */
module PolicyIdempotence {
  import opened Wrappers
  import opened Policy
  import opened PolicyChain
  import opened PolicyTheorems

  // How the subset_of and superset_of checks see a value that is already present.
  function Seen(f: Val, p: ClaimPolicy): set<string> {
    if p.add.Some? then AsSet(f) + AsSet(p.add.value) else PySet(f)
  }

  // A policy's own value for an absent claim meets the policy's other operators.
  ghost predicate Fits(f: Val, p: ClaimPolicy) {
    || p.value.Some?
    || (p.oneOf.Some? && if f.One? then f.s in p.oneOf.value else exists x :: x in p.oneOf.value && AsSet(f) == {x})
    || (p.oneOf.None?
        && (p.subsetOf.Some? ==> AsSet(f) != {} && AsSet(f) <= Seen(f, p) * p.subsetOf.value)
        && (p.supersetOf.Some? ==> p.supersetOf.value <= Seen(f, p)))
  }

  // The same value, lists taken as sets.
  predicate SameVal(v: Val, w: Val) {
    AsSet(v) == AsSet(w)
  }

  // A claim that was present settles at once.
  lemma PresentSettles(v: Val, p: ClaimPolicy, lst: Lister)
    requires ValidLister(lst) && ApplyPresent(v, p, lst).Ok?
    ensures var w := ApplyPresent(v, p, lst).value;
            ApplyPresent(w, p, lst).Ok? && SameVal(ApplyPresent(w, p, lst).value, w)
  {
    var w := ApplyPresent(v, p, lst).value;
    PresentMeets(v, p, lst);
    if p.value.None? && p.oneOf.None? {
      ListsAre(v, p, lst);
      ListsAre(w, p, lst);
    }
  }

  // The list-valued case, with every enumeration read back as a set.
  lemma ListsAre(v: Val, p: ClaimPolicy, lst: Lister)
    requires ValidLister(lst) && p.value.None? && p.oneOf.None?
    ensures ApplyPresent(v, p, lst).Ok? <==>
            && (p.subsetOf.Some? ==> p.subsetOf.value * Seen(v, p) != {})
            && (p.supersetOf.Some? ==>
                  p.supersetOf.value <= if p.subsetOf.Some? then p.subsetOf.value * Seen(v, p) else Seen(v, p))
    ensures ApplyPresent(v, p, lst).Ok? ==>
              var w := ApplyPresent(v, p, lst).value;
              if p.subsetOf.Some? then w.Many? && AsSet(w) == p.subsetOf.value * Seen(v, p)
              else if p.add.Some? then w.Many? && AsSet(w) == Seen(v, p)
              else w == v
  {
    var added := if p.add.Some? then Many(lst(AsSet(v) + AsSet(p.add.value))) else v;
    if p.add.Some? {
      assert Elements(lst(AsSet(v) + AsSet(p.add.value))) == AsSet(v) + AsSet(p.add.value);
    }
    assert PySet(added) == Seen(v, p);
    if p.subsetOf.Some? {
      assert Elements(lst(p.subsetOf.value * PySet(added))) == p.subsetOf.value * PySet(added);
    }
    var kept := if p.subsetOf.Some? then Many(lst(p.subsetOf.value * PySet(added))) else added;
    if p.supersetOf.Some? {
      DifferenceEmpty(p.supersetOf.value, PySet(kept));
    }
  }

  // A claim that was filled in settles exactly when the filled-in value fits.
  lemma FilledSettles(f: Val, p: ClaimPolicy, lst: Lister)
    requires ValidLister(lst) && Filled(p) == Some(f)
    ensures (ApplyPresent(f, p, lst).Ok? && SameVal(ApplyPresent(f, p, lst).value, f)) <==> Fits(f, p)
  {
    if p.value.Some? {
    } else if p.oneOf.Some? {
      if f.Many? {
        OneOfSettles(f.xs, p.oneOf.value);
      }
    } else {
      ListsAre(f, p, lst);
      if f.One? {
        ScalarSeen(f, p);
      }
    }
  }

  lemma OneOfSettles(xs: seq<string>, s: set<string>)
    ensures (Among(xs, s) != [] && {Among(xs, s)[0]} == Elements(xs)) <==> exists x :: x in s && Elements(xs) == {x}
  {
    AmongAllowed(xs, s);
    var a := Among(xs, s);
    if a != [] {
      assert a[0] in Elements(a);
    }
    if x :| x in s && Elements(xs) == {x} {
      assert x in Elements(a);
      assert a[0] in Elements(xs);
    }
  }

  lemma ScalarSeen(f: Val, p: ClaimPolicy)
    requires f.One? && Filled(p) == Some(f) && p.value.None?
    ensures p.add.Some? ==> Seen(f, p) == {f.s}
    ensures p.add.None? && f.s in Seen(f, p) ==> Seen(f, p) == {f.s}
  {
    if p.add.None? && f.s in Seen(f, p) {
      assert |f.s| == 1;
      assert f.s == [f.s[0]];
    }
  }

  // The policies' own values fit, wherever they were filled in.
  ghost predicate OwnValuesFit(m: Metadata, policies: Policies) {
    forall k :: k in policies && k !in m && Filled(policies[k]).Some? ==> Fits(Filled(policies[k]).value, policies[k])
  }

  /**
   Idempotence, exactly: after a successful application, applying the same policies again
   succeeds with the same values (lists as sets) iff every value they filled in for an absent
   claim fits its own policy. Claims outside the policies are left alone.
   */
  lemma ApplyingSettles(m: Metadata, policies: Policies, lst: Lister)
    requires ValidLister(lst) && ApplyPolicies(m, policies, lst).Ok?
    ensures forall k :: k !in policies ==> Lookup(ApplyPolicies(m, policies, lst).value, k) == Lookup(m, k)
    ensures var once := ApplyPolicies(m, policies, lst).value;
            var twice := ApplyPolicies(once, policies, lst);
            OwnValuesFit(m, policies) <==>
            twice.Ok? && twice.value.Keys == once.Keys && forall k :: k in once ==> SameVal(twice.value[k], once[k])
  {
    var once := ApplyPolicies(m, policies, lst).value;
    var twice := ApplyPolicies(once, policies, lst);
    forall k | k in policies ensures Settles(m, policies, once, k, lst) {
      ClaimSettles(m, policies, k, lst);
    }
    if OwnValuesFit(m, policies) {
      assert Applicable(once, policies, lst) by {
        forall k | k in policies ensures ApplyClaim(Lookup(once, k), policies[k], lst).Ok? {
          assert Settles(m, policies, once, k, lst);
        }
      }
      forall k ensures (k in twice.value <==> k in once) && (k in once ==> SameVal(twice.value[k], once[k])) {
        assert k in policies ==> Settles(m, policies, once, k, lst);
      }
    }
    if twice.Ok? && twice.value.Keys == once.Keys && forall k :: k in once ==> SameVal(twice.value[k], once[k]) {
      forall k | k in policies && k !in m && Filled(policies[k]).Some? ensures Fits(Filled(policies[k]).value, policies[k]) {
        assert Settles(m, policies, once, k, lst);
        assert k in once;
        assert ApplyClaim(Lookup(once, k), policies[k], lst).Ok?;
      }
    }
  }

  // One claim under policy after the first application: what a second one does.
  ghost predicate Settles(m: Metadata, policies: Policies, once: Metadata, k: string, lst: Lister)
    requires k in policies
  {
    var p := policies[k];
    if k in m then k in once && ApplyPresent(once[k], p, lst).Ok? && SameVal(ApplyPresent(once[k], p, lst).value, once[k])
    else if Filled(p).Some? then
      && k in once && once[k] == Filled(p).value
      && ((ApplyPresent(once[k], p, lst).Ok? && SameVal(ApplyPresent(once[k], p, lst).value, once[k])) <==> Fits(once[k], p))
    else k !in once && ApplyClaim(None, p, lst) == Ok(None)
  }

  lemma ClaimSettles(m: Metadata, policies: Policies, k: string, lst: Lister)
    requires ValidLister(lst) && ApplyPolicies(m, policies, lst).Ok? && k in policies
    ensures Settles(m, policies, ApplyPolicies(m, policies, lst).value, k, lst)
  {
    var p := policies[k];
    assert ApplyClaim(Lookup(m, k), p, lst).Ok?;
    if k in m {
      PresentSettles(m[k], p, lst);
    } else if Filled(p).Some? {
      FilledSettles(Filled(p).value, p, lst);
    }
  }
}
