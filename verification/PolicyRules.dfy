/** What merging and applying policies comes to, operator by operator, and when each of them fails. */
module PolicyRules {
  import opened Wrappers
  import opened Policy
  import opened PolicyChain
  import opened PolicyGathering
  import opened PolicyTheorems
  import opened PolicyIdempotence

  /* Merging the policies of one claim. */

  function Meet(a: Option<set<string>>, b: Option<set<string>>): Option<set<string>> {
    if a.None? then b else if b.None? then a else Some(a.value * b.value)
  }

  function Either<T>(a: Option<T>, b: Option<T>): Option<T> {
    if a.Some? then a else b
  }

  // All operators of the two, with add and essential as far as their presence goes.
  function Joined(a: ClaimPolicy, b: ClaimPolicy): ClaimPolicy {
    ClaimPolicy(Meet(a.subsetOf, b.subsetOf), Meet(a.supersetOf, b.supersetOf), Meet(a.oneOf, b.oneOf),
                Either(a.add, b.add), Either(a.value, b.value), Either(a.default_, b.default_),
                Either(a.essential, b.essential))
  }

  ghost predicate Overlap(a: Option<set<string>>, b: Option<set<string>>) {
    a.Some? && b.Some? ==> exists x :: x in a.value && x in b.value
  }

  predicate Says(o: Option<bool>, b: bool) {
    o.Some? && o.value == b
  }

  predicate SameIfBoth(a: Option<Val>, b: Option<Val>) {
    a.Some? && b.Some? ==> a == b
  }

  // The two policies of a claim, the upper one without a value, may stand together.
  ghost predicate MayJoin(a: ClaimPolicy, b: ClaimPolicy) {
    && !(Says(a.essential, true) && Says(b.essential, false))
    && (a.oneOf.Some? || b.oneOf.Some? ==>
          a.subsetOf.None? && b.subsetOf.None? && a.supersetOf.None? && b.supersetOf.None?)
    && Overlap(a.subsetOf, b.subsetOf) && Overlap(a.supersetOf, b.supersetOf) && Overlap(a.oneOf, b.oneOf)
    && !(a.add == Some(Many([])) && b.add == Some(Many([])))
    && SameIfBoth(a.default_, b.default_)
  }

  // A string counts as the list of its characters.
  predicate Within(d: Val, s: set<string>) {
    match d
    case One(t) => forall i :: 0 <= i < |t| ==> [t[i]] in s
    case Many(xs) => forall x :: x in xs ==> x in s
  }

  predicate Covers(d: Val, s: set<string>) {
    match d
    case One(t) => forall x :: x in s ==> exists i :: 0 <= i < |t| && x == [t[i]]
    case Many(xs) => forall x :: x in s ==> x in xs
  }

  // A string counts as one element.
  predicate IsChoice(d: Val, s: set<string>) {
    match d
    case One(t) => t in s
    case Many(xs) => forall x :: x in xs ==> x in s
  }

  // The operands agree with each other. Nothing is asked of a policy that also has add, value or essential.
  predicate Consistent(r: ClaimPolicy) {
    r.add.None? && r.value.None? && r.essential.None? ==>
      && (r.oneOf.None? && r.subsetOf.Some? && r.supersetOf.Some? ==> r.supersetOf.value <= r.subsetOf.value)
      && (r.oneOf.None? && r.subsetOf.Some? && r.default_.Some? ==> Within(r.default_.value, r.subsetOf.value))
      && (r.oneOf.None? && r.supersetOf.Some? && r.default_.Some? ==> Covers(r.default_.value, r.supersetOf.value))
      && (r.oneOf.Some? && r.default_.Some? && r.subsetOf.None? && r.supersetOf.None? ==>
            IsChoice(r.default_.value, r.oneOf.value))
  }

  lemma SetReadings(d: Val, s: set<string>)
    ensures PySet(d) <= s <==> Within(d, s)
    ensures s <= PySet(d) <==> Covers(d, s)
    ensures AsSet(d) <= s <==> IsChoice(d, s)
  {
    if d.One? {
      forall i | 0 <= i < |d.s| ensures [d.s[i]] in PySet(d) {
      }
    }
  }

  // The checks after merging are those of Consistent, and are made when no other operator is there.
  lemma {:induction false} ChecksExact(r: ClaimPolicy)
    requires r.oneOf.Some? ==> r.subsetOf.None? && r.supersetOf.None?
    ensures ConsistencyError(Operators(r), r) <==> !Consistent(r)
  {
    OperatorsAre(r);
    if r.subsetOf.Some? && r.supersetOf.Some? {
      DifferenceEmpty(r.supersetOf.value, r.subsetOf.value);
    }
    if r.default_.Some? {
      if r.subsetOf.Some? {
        DifferenceEmpty(PySet(r.default_.value), r.subsetOf.value);
        SetReadings(r.default_.value, r.subsetOf.value);
      }
      if r.supersetOf.Some? {
        DifferenceEmpty(r.supersetOf.value, PySet(r.default_.value));
        SetReadings(r.default_.value, r.supersetOf.value);
      }
      if r.oneOf.Some? {
        DifferenceEmpty(AsSet(r.default_.value), r.oneOf.value);
        SetReadings(r.default_.value, r.oneOf.value);
      }
    }
  }

  // Which exact combinations of operators there can be.
  lemma {:induction false} OperatorsAre(r: ClaimPolicy)
    ensures Operators(r) == {SupersetOf, SubsetOf} <==>
              r == ClaimPolicy(r.subsetOf, r.supersetOf, None, None, None, None, None) && r.subsetOf.Some? && r.supersetOf.Some?
    ensures Operators(r) == {SupersetOf, SubsetOf, Default} <==>
              r == ClaimPolicy(r.subsetOf, r.supersetOf, None, None, None, r.default_, None)
              && r.subsetOf.Some? && r.supersetOf.Some? && r.default_.Some?
    ensures Operators(r) == {SubsetOf, Default} <==>
              r == ClaimPolicy(r.subsetOf, None, None, None, None, r.default_, None) && r.subsetOf.Some? && r.default_.Some?
    ensures Operators(r) == {SupersetOf, Default} <==>
              r == ClaimPolicy(None, r.supersetOf, None, None, None, r.default_, None) && r.supersetOf.Some? && r.default_.Some?
    ensures Operators(r) == {OneOf, Default} <==>
              r == ClaimPolicy(None, None, r.oneOf, None, None, r.default_, None) && r.oneOf.Some? && r.default_.Some?
  {
    assert Has(r, SubsetOf) == (SubsetOf in Operators(r)) && Has(r, SupersetOf) == (SupersetOf in Operators(r));
    assert Has(r, OneOf) == (OneOf in Operators(r)) && Has(r, Add) == (Add in Operators(r));
    assert Has(r, Value) == (Value in Operators(r)) && Has(r, Default) == (Default in Operators(r));
    assert Has(r, Essential) == (Essential in Operators(r));
    OnlyThese(r);
  }

  lemma {:induction false} OnlyThese(r: ClaimPolicy)
    ensures forall ops: set<Op> :: Operators(r) == ops <==>
              && (SubsetOf in ops <==> r.subsetOf.Some?) && (SupersetOf in ops <==> r.supersetOf.Some?)
              && (OneOf in ops <==> r.oneOf.Some?) && (Add in ops <==> r.add.Some?) && (Value in ops <==> r.value.Some?)
              && (Default in ops <==> r.default_.Some?) && (Essential in ops <==> r.essential.Some?)
  {
    forall ops: set<Op>
      ensures Operators(r) == ops <==>
              && (SubsetOf in ops <==> r.subsetOf.Some?) && (SupersetOf in ops <==> r.supersetOf.Some?)
              && (OneOf in ops <==> r.oneOf.Some?) && (Add in ops <==> r.add.Some?) && (Value in ops <==> r.value.Some?)
              && (Default in ops <==> r.default_.Some?) && (Essential in ops <==> r.essential.Some?)
    {
      assert forall op :: op in Operators(r) <==> Has(r, op);
      if && (SubsetOf in ops <==> r.subsetOf.Some?) && (SupersetOf in ops <==> r.supersetOf.Some?)
         && (OneOf in ops <==> r.oneOf.Some?) && (Add in ops <==> r.add.Some?) && (Value in ops <==> r.value.Some?)
         && (Default in ops <==> r.default_.Some?) && (Essential in ops <==> r.essential.Some?)
      {
        forall op ensures op in Operators(r) <==> op in ops {
          match op
          case SubsetOf =>
          case SupersetOf =>
          case OneOf =>
          case Add =>
          case Value =>
          case Default =>
          case Essential =>
        }
      }
    }
  }

  // What a superior without a value becomes.
  ghost predicate IsJoined(r: ClaimPolicy, a: ClaimPolicy, b: ClaimPolicy) {
    && r == Joined(a, b).(add := r.add, essential := r.essential)
    && (r.add.Some? <==> a.add.Some? || b.add.Some?)
    && (r.add.Some? ==> forall x :: x in AsSet(r.add.value) <==>
          (a.add.Some? && x in AsSet(a.add.value)) || (b.add.Some? && x in AsSet(b.add.value)))
    && (r.essential.Some? <==> a.essential.Some? || b.essential.Some?)
    && (Says(r.essential, true) <==>
          || Says(a.essential, true)
          || Says(b.essential, true)
          || (a.essential.None? && Says(b.essential, false)))
  }

  /**
   Merging a policy with the one below it, exactly. Under a value, the lower policy may only say
   whether the claim is essential, or repeat the value. Otherwise merging succeeds iff the two may
   stand together and their joint operands agree; and it joins them operator by operator. A lower
   policy that calls the claim not essential makes it essential when the upper one is silent.
   */
  lemma {:induction false} CombineExact(a: ClaimPolicy, b: ClaimPolicy, lst: Lister)
    requires ValidLister(lst)
    ensures a.value.Some? ==>
              && (CombineClaim(a, b, lst).Ok? <==>
                    b == NO_POLICY.(essential := b.essential) || (b.value == a.value && b.essential.None?))
              && (CombineClaim(a, b, lst).Ok? ==>
                    CombineClaim(a, b, lst).value
                    == if b.essential.Some? then NO_POLICY.(value := a.value, essential := b.essential) else a)
    ensures a.value.None? ==>
              && (CombineClaim(a, b, lst).Ok? <==> MayJoin(a, b) && Consistent(Joined(a, b)))
              && (CombineClaim(a, b, lst).Ok? ==> IsJoined(CombineClaim(a, b, lst).value, a, b))
  {
    if a.value.None? {
      JoinExact(a, b, lst);
    }
  }

  lemma {:induction false} JoinExact(a: ClaimPolicy, b: ClaimPolicy, lst: Lister)
    requires ValidLister(lst) && a.value.None?
    ensures CombineClaim(a, b, lst).Ok? <==> MayJoin(a, b) && Consistent(Joined(a, b))
    ensures CombineClaim(a, b, lst).Ok? ==> IsJoined(CombineClaim(a, b, lst).value, a, b)
  {
    MergeExact(a, b, lst);
    var merged := MergeOperators(a, b, lst);
    if merged.Ok? && (a.oneOf.Some? || b.oneOf.Some? ==>
          a.subsetOf.None? && b.subsetOf.None? && a.supersetOf.None? && b.supersetOf.None?) {
      ChecksExact(merged.value);
    }
  }

  lemma {:induction false} MergeExact(a: ClaimPolicy, b: ClaimPolicy, lst: Lister)
    requires ValidLister(lst) && a.value.None?
    ensures MergeOperators(a, b, lst).Ok? <==>
              && Overlap(a.subsetOf, b.subsetOf) && Overlap(a.supersetOf, b.supersetOf) && Overlap(a.oneOf, b.oneOf)
              && !(a.add == Some(Many([])) && b.add == Some(Many([])))
              && SameIfBoth(a.default_, b.default_)
    ensures MergeOperators(a, b, lst).Ok? ==> IsJoined(MergeOperators(a, b, lst).value, a, b)
  {
    IntersectExact(a.subsetOf, b.subsetOf);
    IntersectExact(a.supersetOf, b.supersetOf);
    IntersectExact(a.oneOf, b.oneOf);
    AddExact(a.add, b.add, lst);
    EssentialExact(a.essential, b.essential);
  }

  lemma EssentialExact(a: Option<bool>, b: Option<bool>)
    ensures DoEssential(a, b).Some? <==> a.Some? || b.Some?
    ensures Says(DoEssential(a, b), true) <==> Says(a, true) || Says(b, true) || (a.None? && Says(b, false))
  {
  }

  lemma IntersectExact(a: Option<set<string>>, b: Option<set<string>>)
    ensures DoIntersect(a, b).Ok? <==> Overlap(a, b)
    ensures DoIntersect(a, b).Ok? ==> DoIntersect(a, b).value == Meet(a, b)
  {
    if a.Some? && b.Some? && Overlap(a, b) {
      var x :| x in a.value && x in b.value;
      assert x in a.value * b.value;
    }
  }

  lemma AddExact(a: Option<Val>, b: Option<Val>, lst: Lister)
    requires ValidLister(lst)
    ensures DoAdd(a, b, lst).Ok? <==> !(a == Some(Many([])) && b == Some(Many([])))
    ensures DoAdd(a, b, lst).Ok? ==>
              && (DoAdd(a, b, lst).value.Some? <==> a.Some? || b.Some?)
              && (DoAdd(a, b, lst).value.Some? ==> forall x :: x in AsSet(DoAdd(a, b, lst).value.value) <==>
                    (a.Some? && x in AsSet(a.value)) || (b.Some? && x in AsSet(b.value)))
  {
    if a.Some? && b.Some? {
      var union := AsSet(a.value) + AsSet(b.value);
      assert Elements(lst(union)) == union;
      NoElements(a.value);
      NoElements(b.value);
    }
  }

  lemma NoElements(v: Val)
    ensures AsSet(v) == {} <==> v == Many([])
  {
    if v.Many? && v.xs != [] {
      assert v.xs[0] in AsSet(v);
    }
  }

  // With essential or add beside them, contradictory operands are not noticed.
  lemma EssentialHidesContradiction(e: bool, lst: Lister)
    ensures var a, b := NO_POLICY.(subsetOf := Some({"a"}), essential := Some(e)), NO_POLICY.(supersetOf := Some({"b"}));
            && CombineClaim(a, b, lst).Ok?
            && CombineClaim(a.(essential := None), b, lst).Err?
  {
    var a, b := NO_POLICY.(subsetOf := Some({"a"}), essential := Some(e)), NO_POLICY.(supersetOf := Some({"b"}));
    assert "a"[0] != "b"[0];
    var r, s := Joined(a, b), Joined(a.(essential := None), b);
    assert MergeOperators(a, b, lst) == Ok(r) && MergeOperators(a.(essential := None), b, lst) == Ok(s);
    ChecksExact(r);
    ChecksExact(s);
    assert "b" in s.supersetOf.value && "b" !in s.subsetOf.value;
  }

  /* Applying the policies. */

  // The elements of a claim as the list operators see them: a string is taken apart unless
  // something is added to it.
  ghost predicate Sees(v: Val, add: Option<Val>, x: string) {
    match add
    case Some(Many(ys)) => Lists(v, x) || x in ys
    case Some(One(t)) => Lists(v, x) || x == t
    case None =>
      match v
      case One(s) => exists i :: 0 <= i < |s| && x == [s[i]]
      case Many(xs) => x in xs
  }

  predicate Lists(v: Val, x: string) {
    match v
    case One(s) => x == s
    case Many(xs) => x in xs
  }

  // A single value is kept if it is a choice; of a list the first choice is kept.
  ghost predicate IsChosen(v: Val, choices: set<string>, w: Val) {
    match v
    case One(s) => s in choices && w == v
    case Many(xs) => exists i :: 0 <= i < |xs| && xs[i] in choices && w == One(xs[i]) && forall j :: 0 <= j < i ==> xs[j] !in choices
  }

  // What a policy without value and one_of leaves of a claim.
  ghost predicate IsLeft(v: Val, p: ClaimPolicy, w: Val) {
    if p.subsetOf.None? && p.add.None? then w == v
    else w.Many? && forall x :: x in w.xs <==> Sees(v, p.add, x) && (p.subsetOf.Some? ==> x in p.subsetOf.value)
  }

  // What must hold for a claim without value and one_of.
  ghost predicate Suits(v: Val, p: ClaimPolicy) {
    && (p.subsetOf.Some? ==> exists x :: Sees(v, p.add, x) && x in p.subsetOf.value)
    && (p.supersetOf.Some? ==>
          forall x :: x in p.supersetOf.value ==> Sees(v, p.add, x) && (p.subsetOf.Some? ==> x in p.subsetOf.value))
  }

  lemma SeesExact(v: Val, p: ClaimPolicy, x: string)
    ensures x in Seen(v, p) <==> Sees(v, p.add, x)
  {
    if v.One? {
      assert x in PySet(v) <==> exists i :: 0 <= i < |v.s| && x == [v.s[i]];
    }
  }

  /**
   What becomes of a claim that is present, exactly: a value replaces it; otherwise one_of keeps a
   choice, if there is one; otherwise add extends it, subset_of cuts it down, which must leave
   something, and superset_of must find all its elements in what is left.
   */
  lemma {:induction false} PresentExact(v: Val, p: ClaimPolicy, lst: Lister)
    requires ValidLister(lst)
    ensures p.value.Some? ==> ApplyPresent(v, p, lst) == Ok(p.value.value)
    ensures p.value.None? && p.oneOf.Some? ==>
              && (ApplyPresent(v, p, lst).Ok? <==> exists x :: Lists(v, x) && x in p.oneOf.value)
              && (ApplyPresent(v, p, lst).Ok? ==> IsChosen(v, p.oneOf.value, ApplyPresent(v, p, lst).value))
    ensures p.value.None? && p.oneOf.None? ==>
              && (ApplyPresent(v, p, lst).Ok? <==> Suits(v, p))
              && (ApplyPresent(v, p, lst).Ok? ==> IsLeft(v, p, ApplyPresent(v, p, lst).value))
  {
    if p.value.None? {
      if p.oneOf.Some? {
        ChoiceExact(v, p, lst);
      } else {
        LeftExact(v, p, lst);
      }
    }
  }

  lemma {:induction false} FirstAmong(xs: seq<string>, s: set<string>)
    ensures Among(xs, s) != [] <==> exists x :: x in xs && x in s
    ensures Among(xs, s) != [] ==> IsChosen(Many(xs), s, One(Among(xs, s)[0]))
    decreases |xs|
  {
    if xs == [] {
    } else {
      FirstAmong(xs[1..], s);
      if xs[0] in s {
        assert xs[0] in xs;
      } else if Among(xs, s) != [] {
        var i :| 0 <= i < |xs[1..]| && xs[1..][i] in s && Among(xs, s)[0] == xs[1..][i]
                 && forall j :: 0 <= j < i ==> xs[1..][j] !in s;
        assert xs[i + 1] in s && forall j :: 0 <= j < i + 1 ==> xs[j] !in s by {
          forall j | 0 <= j < i + 1 ensures xs[j] !in s {
            assert j > 0 ==> xs[j] == xs[1..][j - 1];
          }
        }
      }
    }
  }

  lemma {:induction false} ChoiceExact(v: Val, p: ClaimPolicy, lst: Lister)
    requires p.value.None? && p.oneOf.Some?
    ensures ApplyPresent(v, p, lst).Ok? <==> exists x :: Lists(v, x) && x in p.oneOf.value
    ensures ApplyPresent(v, p, lst).Ok? ==> IsChosen(v, p.oneOf.value, ApplyPresent(v, p, lst).value)
  {
    match v
    case One(s) =>
      assert Lists(v, s);
    case Many(xs) =>
      FirstAmong(xs, p.oneOf.value);
      assert forall x :: Lists(v, x) <==> x in xs;
  }

  lemma {:induction false} LeftExact(v: Val, p: ClaimPolicy, lst: Lister)
    requires ValidLister(lst) && p.value.None? && p.oneOf.None?
    ensures ApplyPresent(v, p, lst).Ok? <==> Suits(v, p)
    ensures ApplyPresent(v, p, lst).Ok? ==> IsLeft(v, p, ApplyPresent(v, p, lst).value)
  {
    ListsAre(v, p, lst);
    forall x ensures x in Seen(v, p) <==> Sees(v, p.add, x) {
      SeesExact(v, p, x);
    }
    if p.subsetOf.Some? {
      assert forall x :: x in p.subsetOf.value * Seen(v, p) <==> x in p.subsetOf.value && x in Seen(v, p);
    }
    if ApplyPresent(v, p, lst).Ok? {
      var w := ApplyPresent(v, p, lst).value;
      assert w.Many? ==> forall x :: x in w.xs <==> x in AsSet(w);
    }
  }

  // The claim stays out: the policy has nothing to fill in.
  predicate GivesNothing(p: ClaimPolicy) {
    p.value.None? && p.add.None? && p.default_.None?
  }

  /**
   Applying policies, exactly: it succeeds iff each policy suits the claim that is present, and no
   essential claim is absent without a value, add or default to fill it in. Then an absent claim
   is filled in with the first of these, and nothing else appears or goes away.
   */
  lemma {:induction false} ApplyExact(m: Metadata, policies: Policies, lst: Lister)
    ensures ApplyPolicies(m, policies, lst).Ok? <==>
              && (forall k :: k in policies && k in m ==> ApplyPresent(m[k], policies[k], lst).Ok?)
              && (forall k :: k in policies && k !in m ==> !(Says(policies[k].essential, true) && GivesNothing(policies[k])))
    ensures ApplyPolicies(m, policies, lst).Ok? ==>
              var out := ApplyPolicies(m, policies, lst).value;
              && (forall k :: k in m && k !in policies ==> k in out && out[k] == m[k])
              && (forall k :: k in m && k in policies ==> k in out && out[k] == ApplyPresent(m[k], policies[k], lst).value)
              && (forall k :: k !in m && k in policies ==>
                    var p := policies[k];
                    && (k in out <==> !GivesNothing(p))
                    && (k in out ==> Some(out[k]) == if p.value.Some? then p.value else if p.add.Some? then p.add else p.default_))
              && (forall k :: k !in m && k !in policies ==> k !in out)
              && (forall k :: k in policies && Says(policies[k].essential, true) ==> k in out)
  {
    forall k | k in policies
      ensures ApplyClaim(PolicyChain.Lookup(m, k), policies[k], lst).Ok? <==>
                if k in m then ApplyPresent(m[k], policies[k], lst).Ok?
                else !(Says(policies[k].essential, true) && GivesNothing(policies[k]))
    {
    }
  }

  /* Along a chain. */

  // Some statement gives a value, add or default.
  ghost predicate SomeGives(ps: seq<ClaimPolicy>) {
    exists i :: 0 <= i < |ps| && !GivesNothing(ps[i])
  }

  // Some statement calls the claim essential, or one below the first is the first to say anything about it.
  ghost predicate BecomesEssential(ps: seq<ClaimPolicy>) {
    exists i :: 0 <= i < |ps| && ps[i].essential.Some? && (ps[i].essential.value || SilentBefore(ps, i))
  }

  ghost predicate SilentBefore(ps: seq<ClaimPolicy>, i: int) {
    0 < i <= |ps| && forall j :: 0 <= j < i ==> ps[j].essential.None?
  }

  // What a merged policy says about filling in and being essential.
  ghost predicate SumsUp(c: ClaimPolicy, ps: seq<ClaimPolicy>) {
    && (c.value.Some? <==> exists i :: 0 <= i < |ps| && ps[i].value.Some?)
    && (c.value.None? ==>
          && (GivesNothing(c) <==> !SomeGives(ps))
          && (c.essential.None? <==> forall i :: 0 <= i < |ps| ==> ps[i].essential.None?)
          && (Says(c.essential, true) <==> BecomesEssential(ps)))
  }

  lemma SumsUpOne(p: ClaimPolicy)
    ensures SumsUp(p, [p])
  {
    assert [p][0] == p;
    assert !SilentBefore([p], 0);
  }

  lemma ExistsSnoc(ps: seq<ClaimPolicy>, p: ClaimPolicy, f: ClaimPolicy -> bool)
    ensures (exists i :: 0 <= i < |ps + [p]| && f((ps + [p])[i])) <==> (exists i :: 0 <= i < |ps| && f(ps[i])) || f(p)
  {
    var all := ps + [p];
    assert all[|ps|] == p && forall i :: 0 <= i < |ps| ==> all[i] == ps[i];
  }

  lemma {:induction false} BecomesEssentialSnoc(ps: seq<ClaimPolicy>, p: ClaimPolicy)
    requires ps != []
    ensures BecomesEssential(ps + [p]) <==>
              BecomesEssential(ps) || (p.essential.Some? && (p.essential.value || SilentBefore(ps, |ps|)))
  {
    var all := ps + [p];
    assert all[|ps|] == p && forall i :: 0 <= i < |ps| ==> all[i] == ps[i];
    forall i | 0 <= i <= |ps| ensures SilentBefore(all, i) <==> SilentBefore(ps, i) {
    }
    if BecomesEssential(ps) {
      var i :| 0 <= i < |ps| && ps[i].essential.Some? && (ps[i].essential.value || SilentBefore(ps, i));
      assert all[i].essential.Some? && (all[i].essential.value || SilentBefore(all, i));
    }
  }

  lemma {:induction false} SumsUpSnoc(a: ClaimPolicy, ps: seq<ClaimPolicy>, p: ClaimPolicy, lst: Lister)
    requires ValidLister(lst) && ps != [] && SumsUp(a, ps) && CombineClaim(a, p, lst).Ok?
    ensures SumsUp(CombineClaim(a, p, lst).value, ps + [p])
  {
    CombineExact(a, p, lst);
    ExistsSnoc(ps, p, (q: ClaimPolicy) => q.value.Some?);
    ExistsSnoc(ps, p, (q: ClaimPolicy) => !GivesNothing(q));
    ExistsSnoc(ps, p, (q: ClaimPolicy) => q.essential.Some?);
    var all := ps + [p];
    assert SomeGives(all) <==> exists i :: 0 <= i < |all| && ((q: ClaimPolicy) => !GivesNothing(q))(all[i]);
    BecomesEssentialSnoc(ps, p);
  }

  lemma {:induction false} FoldSumsUp(acc: Option<ClaimPolicy>, ps: seq<ClaimPolicy>, chain: seq<Statement>, claim: string,
                                      lst: Lister)
    requires ValidLister(lst) && FoldClaim(acc, chain, claim, lst).Ok?
    requires if acc.Some? then ps != [] && SumsUp(acc.value, ps) else ps == []
    ensures var r := FoldClaim(acc, chain, claim, lst).value;
            && (r.Some? <==> ps + Governing(chain, claim) != [])
            && (r.Some? ==> SumsUp(r.value, ps + Governing(chain, claim)))
    decreases |chain|
  {
    if chain == [] {
      assert ps + [] == ps;
    } else if claim !in chain[0].policy {
      FoldSumsUp(acc, ps, chain[1..], claim, lst);
      assert [] + Governing(chain[1..], claim) == Governing(chain[1..], claim);
    } else {
      var p := chain[0].policy[claim];
      GoverningStep(ps, chain, claim);
      if acc.None? {
        SumsUpOne(p);
        FoldSumsUp(Some(p), ps + [p], chain[1..], claim, lst);
      } else {
        SumsUpSnoc(acc.value, ps, p, lst);
        FoldSumsUp(Some(CombineClaim(acc.value, p, lst).value), ps + [p], chain[1..], claim, lst);
      }
    }
  }

  lemma {:induction false} GatheredSumsUp(chain: seq<Statement>, claim: string, lst: Lister)
    requires ValidLister(lst) && Gather(chain, lst).Ok?
    ensures claim in Gather(chain, lst).value.policy <==> Governing(chain, claim) != []
    ensures claim in Gather(chain, lst).value.policy ==> SumsUp(Gather(chain, lst).value.policy[claim], Governing(chain, claim))
  {
    var first, rest := PolicyOf(chain[0], claim), chain[1..];
    GatherExact(chain[0], rest, lst);
    assert FoldClaim(first, rest, claim, lst) == Ok(PolicyOf(Gather(chain, lst).value, claim));
    var ps := if first.Some? then [first.value] else [];
    if first.Some? {
      SumsUpOne(first.value);
    }
    FoldSumsUp(first, ps, rest, claim, lst);
    assert ps + Governing(rest, claim) == Governing(chain, claim);
  }

  /**
   Essential claims along a chain. Once the policies of a chain are gathered, metadata fails for
   want of a claim iff the statements make the claim essential and none of them gives a value, add
   or default; that a statement sets the claim as metadata does not help. So what is returned has
   every claim that some statement calls essential.
   */
  lemma {:induction false} EssentialAlongChain(chain: seq<Statement>, m: Metadata, lst: Lister)
    requires ValidLister(lst) && Gather(chain, lst).Ok?
    ensures var rule := Gather(chain, lst).value;
            ApplyRule(m, rule, lst).Ok? <==>
              && (forall k :: k in m && k in rule.policy ==> ApplyPresent(m[k], rule.policy[k], lst).Ok?)
              && (forall k :: k !in m && BecomesEssential(Governing(chain, k)) ==> SomeGives(Governing(chain, k)))
    ensures var out := ApplyRule(m, Gather(chain, lst).value, lst);
            out.Ok? ==> forall k :: BecomesEssential(Governing(chain, k)) ==> k in out.value
  {
    var rule := Gather(chain, lst).value;
    ApplyExact(m, rule.policy, lst);
    forall k ensures k in rule.policy <==> Governing(chain, k) != [] {
      GatheredSumsUp(chain, k, lst);
    }
    forall k | k in rule.policy
      ensures Says(rule.policy[k].essential, true) && GivesNothing(rule.policy[k]) <==>
                BecomesEssential(Governing(chain, k)) && !SomeGives(Governing(chain, k))
      ensures BecomesEssential(Governing(chain, k)) ==> Says(rule.policy[k].essential, true) || !GivesNothing(rule.policy[k])
    {
      GatheredSumsUp(chain, k, lst);
      ValueIsGiven(Governing(chain, k));
    }
  }

  lemma ValueIsGiven(ps: seq<ClaimPolicy>)
    ensures (exists i :: 0 <= i < |ps| && ps[i].value.Some?) ==> SomeGives(ps)
  {
    if i :| 0 <= i < |ps| && ps[i].value.Some? {
      assert !GivesNothing(ps[i]);
    }
  }

  /* When gathering succeeds, in terms of the statements. */

  // Two statements that set a claim set it alike.
  ghost predicate MetadataAgrees(chain: seq<Statement>) {
    forall i, j, k :: 0 <= i < j < |chain| && k in chain[i].metadata && k in chain[j].metadata ==>
      chain[i].metadata[k] == chain[j].metadata[k]
  }

  // Below a statement that sets a claim, a policy may only call it essential, or give the same value.
  ghost predicate MetadataRespected(chain: seq<Statement>) {
    forall i, j, k :: 0 <= i < j < |chain| && k in chain[i].metadata && k in chain[j].policy ==>
      var p := chain[j].policy[k];
      p == NO_POLICY.(essential := p.essential) || (p.value == Some(chain[i].metadata[k]) && p.essential.None?)
  }

  // No statement below the first has a claim in both of its parts.
  ghost predicate PartsSeparate(chain: seq<Statement>) {
    forall i, k :: 0 < i < |chain| && k in chain[i].policy ==> k !in chain[i].metadata
  }

  lemma {:induction false} CompatibleExact(x: Statement, y: Statement, lst: Lister)
    requires ValidLister(lst)
    ensures Compatible(x, y, lst) <==>
              && (forall k :: k in x.metadata && k in y.metadata ==> x.metadata[k] == y.metadata[k])
              && (forall k :: k in x.metadata && k in y.policy ==>
                    var p := y.policy[k];
                    p == NO_POLICY.(essential := p.essential) || (p.value == Some(x.metadata[k]) && p.essential.None?))
  {
    forall k | k in x.metadata && k in y.policy
      ensures CombineClaim(ValueOnly(x.metadata[k]), y.policy[k], lst).Ok? <==>
                var p := y.policy[k];
                p == NO_POLICY.(essential := p.essential) || (p.value == Some(x.metadata[k]) && p.essential.None?)
    {
      CombineExact(ValueOnly(x.metadata[k]), y.policy[k], lst);
    }
  }

  /**
   Gathering any chain, exactly: it succeeds iff statements agree on metadata, policies respect the
   metadata above them, no statement below the first has a claim in both parts, and each claim's
   policies can be merged from the top down. Only the empty chain fails otherwise.
   */
  lemma {:induction false} GatherRules(chain: seq<Statement>, lst: Lister)
    requires ValidLister(lst)
    ensures chain == [] ==> Gather(chain, lst) == Err(IndexError)
    ensures chain != [] && Gather(chain, lst).Err? ==> Gather(chain, lst).error == PolicyError
    ensures chain != [] ==>
              (Gather(chain, lst).Ok? <==>
                && MetadataAgrees(chain) && MetadataRespected(chain) && PartsSeparate(chain) && AllMerge(chain, lst))
  {
    if chain != [] {
      var rest := chain[1..];
      assert [chain[0]] + rest == chain;
      GatherExact(chain[0], rest, lst);
      PairsExact(chain, lst);
      assert AllSeparate(rest) <==> PartsSeparate(chain) by {
        SeparateExact(chain);
      }
      FoldsExact(chain, lst);
    }
  }

  lemma {:induction false} PairsExact(chain: seq<Statement>, lst: Lister)
    requires ValidLister(lst)
    ensures PairwiseCompatible(chain, lst) <==> MetadataAgrees(chain) && MetadataRespected(chain)
  {
    forall i, j | 0 <= i < j < |chain|
      ensures Compatible(chain[i], chain[j], lst) <==>
              && (forall k :: k in chain[i].metadata && k in chain[j].metadata ==> chain[i].metadata[k] == chain[j].metadata[k])
              && (forall k :: k in chain[i].metadata && k in chain[j].policy ==>
                    var p := chain[j].policy[k];
                    p == NO_POLICY.(essential := p.essential) || (p.value == Some(chain[i].metadata[k]) && p.essential.None?))
    {
      CompatibleExact(chain[i], chain[j], lst);
    }
  }

  lemma SeparateExact(chain: seq<Statement>)
    requires chain != []
    ensures AllSeparate(chain[1..]) <==> PartsSeparate(chain)
  {
    var rest := chain[1..];
    assert forall i :: 0 <= i < |rest| ==> rest[i] == chain[i + 1];
    forall s: Statement ensures NoOverlap(s) <==> forall k :: k in s.policy ==> k !in s.metadata {
      NoOverlapExact(s);
    }
    if AllSeparate(rest) {
      forall i, k | 0 < i < |chain| && k in chain[i].policy ensures k !in chain[i].metadata {
        assert NoOverlap(rest[i - 1]);
      }
    }
  }

  lemma NoOverlapExact(s: Statement)
    ensures NoOverlap(s) <==> forall k :: k in s.policy ==> k !in s.metadata
  {
    if NoOverlap(s) {
      forall k | k in s.policy ensures k !in s.metadata {
        assert k !in s.policy.Keys * s.metadata.Keys;
      }
    }
  }

  // Each claim's policies can be merged from the top down.
  ghost predicate AllMerge(chain: seq<Statement>, lst: Lister) {
    forall claim :: FoldClaim(None, chain, claim, lst).Ok?
  }

  lemma {:induction false} FoldsExact(chain: seq<Statement>, lst: Lister)
    requires chain != []
    ensures AllFold(chain[0], chain[1..], lst) <==> AllMerge(chain, lst)
  {
    if AllFold(chain[0], chain[1..], lst) {
      forall claim ensures FoldClaim(None, chain, claim, lst).Ok? {
        FirstOfFold(chain, claim, lst);
      }
    }
    if AllMerge(chain, lst) {
      forall claim ensures FoldClaim(PolicyOf(chain[0], claim), chain[1..], claim, lst).Ok? {
        FirstOfFold(chain, claim, lst);
      }
    }
  }

  lemma {:induction false} FirstOfFold(chain: seq<Statement>, claim: string, lst: Lister)
    requires chain != []
    ensures FoldClaim(None, chain, claim, lst) == FoldClaim(PolicyOf(chain[0], claim), chain[1..], claim, lst)
  {
  }
}
